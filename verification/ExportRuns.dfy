/** Runs of the export machine: what all of them keep, and runs in which promises
    of the interface fail. */
module ExportRuns {
  import opened Wrappers
  import opened Naming
  import opened Exports
  import opened ExportLaws

  datatype Event = Event(op: Op, out: Outcome, post: State)

  /** The state before step `i`. */
  function Before(s: State, run: seq<Event>, i: nat): State
    requires i <= |run|
  {
    if i == 0 then s else run[i - 1].post
  }

  ghost predicate StepAt(c: Config, s: State, run: seq<Event>, i: nat)
    requires i < |run|
  {
    Next(c, Before(s, run, i), run[i].op, run[i].post, run[i].out)
  }

  ghost predicate IsRun(c: Config, s: State, run: seq<Event>) {
    forall i :: 0 <= i < |run| ==> StepAt(c, s, run, i)
  }

  lemma RunSnoc(c: Config, s: State, run: seq<Event>, e: Event)
    requires IsRun(c, s, run) && Next(c, Before(s, run, |run|), e.op, e.post, e.out)
    ensures IsRun(c, s, run + [e])
  {
    var all := run + [e];
    forall i | 0 <= i < |all| ensures StepAt(c, s, all, i) {
      assert Before(s, all, i) == Before(s, run, i);
      if i < |run| { assert StepAt(c, s, run, i) && all[i] == run[i]; }
    }
  }

  /** Volume safety over every run: no LUN ever serves a missing volume. */
  lemma {:induction false} RunKeepsInv(c: Config, s: State, run: seq<Event>, i: nat)
    requires Inv(s) && IsRun(c, s, run) && i <= |run|
    ensures Inv(Before(s, run, i))
  {
    if i > 0 {
      RunKeepsInv(c, s, run, i - 1);
      assert StepAt(c, s, run, i - 1);
      NextKeepsInv(c, Before(s, run, i - 1), run[i - 1].op, run[i - 1].post, run[i - 1].out);
    }
  }

  // ----- Every call is answered -----

  lemma VolCreateEnabled(c: Config, s: State, pool: string, vol: string)
    ensures exists s', out :: VolCreated(c, s, pool, vol, s', out)
  {
    var r := Resolve(c, pool);
    var failure := if r.Err? then r.error else if Listed(c, s.vols, pool, vol) then NameConflict
                   else if BackendOf(c, r.value).Zfs? && !DatasetCheck(vol) then IllegalName else Unexpected;
    assert VolCreated(c, s, pool, vol, s, Failed(failure));
  }

  lemma VolDestroyEnabled(c: Config, s: State, pool: string, vol: string)
    ensures exists s', out :: VolDestroyed(c, s, pool, vol, s', out)
  {
    var r := Resolve(c, pool);
    var failure := if r.Err? then r.error else if !Listed(c, s.vols, pool, vol) then NotFoundVolume
                   else if Vol(r.value, vol) in s.luns then VolumeMasked
                   else if BackendOf(c, r.value).Zfs? && !DatasetCheck(vol) then IllegalName else Unexpected;
    assert VolDestroyed(c, s, pool, vol, s, Failed(failure));
  }

  lemma VolCopyEnabled(c: Config, s: State, pool: string, vol: string, copy: string)
    ensures exists s', out :: VolCopied(c, s, pool, vol, copy, s', out)
  {
    var r := Resolve(c, pool);
    var failure := if r.Err? then r.error else if !Listed(c, s.vols, pool, vol) then NotFoundVolume
                   else if BackendOf(c, r.value).Zfs? then NoSupport
                   else if Listed(c, s.vols, pool, copy) then NameConflict else Unexpected;
    assert VolCopied(c, s, pool, vol, copy, s, Failed(failure));
  }

  lemma ExportDestroyEnabled(c: Config, s: State, pool: string, vol: string, wwn: string)
    ensures exists s', out :: ExportDestroyed(c, s, pool, vol, wwn, s', out)
  {
    var s1, r := WithAcl(Open(s), wwn), Resolve(c, pool);
    if r.Err? {
      assert ExportDestroyed(c, s, pool, vol, wwn, if PoolModule(c, pool).None? then s else s1, Failed(r.error));
    } else if Vol(r.value, vol) !in MapsOf(s, wwn).Values {
      assert ExportDestroyed(c, s, pool, vol, wwn, s1, Failed(NotFoundExport));
    } else {
      var v := Vol(r.value, vol);
      var h := KeyOf(MapsOf(s, wwn), v);
      assert ExportDestroyed(c, s, pool, vol, wwn, ExportDropped(s1, wwn, h, v), Done);
    }
  }

  lemma GroupAddEnabled(s: State, ag: string, wwn: string, initType: string)
    ensures exists s', out :: GroupAdded(s, ag, wwn, initType, s', out)
  {
    if initType != "iscsi" {
      assert GroupAdded(s, ag, wwn, initType, s, Failed(NoSupport));
    } else if wwn in s.acls {
      assert GroupAdded(s, ag, wwn, initType, Open(s), if wwn in Members(s, ag) then Done else Failed(ExistsInitiator));
    } else {
      var acl := Acl(Some(ag), map[]);
      if Members(s, ag) != {} {
        var m :| m in Members(s, ag);
        acl := s.acls[m];
      }
      assert GroupAdded(s, ag, wwn, initType, Open(s).(acls := s.acls[wwn := acl]), Done);
    }
  }

  lemma MappedOnAllEnabled(s: State, ws: set<string>, h: int, v: Vol) returns (s': State, out: Outcome)
    requires ws != {}
    ensures MappedOnAll(s, ws, h, v, s', out)
  {
    if forall w :: w in ws ==> h !in MapsOf(s, w) {
      s', out := MapOn(s, ws, h, v), Done;
    } else {
      s', out := MapOn(s, {}, h, v), Failed(Refused);
      assert {} < ws;
    }
  }

  lemma MapCreatedByEnabled(c: Config, s: State, pool: string, v: Vol, ag: string, hLun: Option<int>, rep: string)
    requires rep in Members(s, ag)
    ensures exists s', out :: MapCreatedBy(c, s, pool, v, ag, hLun, rep, s', out)
  {
    if pool == Canon(c, v.dev) && v in MapsOf(s, rep).Values {
      assert MapCreatedBy(c, s, pool, v, ag, hLun, rep, s, Done);
    } else if hLun == None && forall h :: 0 <= h <= MAX_LUN ==> h in LunsOnVol(s, v) {
      assert MapCreatedBy(c, s, pool, v, ag, hLun, rep, s, Failed(NoFreeHostLun));
    } else {
      var h: int;
      if hLun.Some? { h := hLun.value; } else { h :| 0 <= h <= MAX_LUN && h !in LunsOnVol(s, v); }
      var s', out := MappedOnAllEnabled(s, Members(s, ag), h, v);
      assert MapCreatedBy(c, s, pool, v, ag, hLun, rep, s', out);
    }
  }

  lemma MapCreateEnabled(c: Config, s: State, pool: string, vol: string, ag: string, hLun: Option<int>)
    ensures exists s', out :: MapCreated(c, s, pool, vol, ag, hLun, s', out)
  {
    var (r, s1) := LunOf(c, Open(s), pool, vol);
    if r.Err? || Members(s, ag) == {} {
      assert MapCreated(c, s, pool, vol, ag, hLun, s1, Failed(if r.Err? then r.error else NotFoundGroup));
    } else {
      var rep :| rep in Members(s, ag);
      assert Members(s1, ag) == Members(s, ag);
      MapCreatedByEnabled(c, s1, pool, r.value, ag, hLun, rep);
      var s', out :| MapCreatedBy(c, s1, pool, r.value, ag, hLun, rep, s', out);
      assert MapCreated(c, s, pool, vol, ag, hLun, s', out);
    }
  }

  lemma MapDestroyEnabled(c: Config, s: State, pool: string, vol: string, ag: string)
    ensures exists s', out :: MapDestroyed(c, s, pool, vol, ag, s', out)
  {
    var (r, s1) := LunOf(c, Open(s), pool, vol);
    if r.Err? {
      assert MapDestroyed(c, s, pool, vol, ag, s1, Failed(r.error));
    } else if Members(s1, ag) == {} {
      assert MapDestroyed(c, s, pool, vol, ag, DropLunIfUnused(s1, r.value), Done);
    } else {
      var rep :| rep in Members(s1, ag);
      var s' := DropLunIfUnused(Unmapped(s1, ag, rep, r.value), r.value);
      assert UnmappedByOne(s1, ag, r.value, s');
      assert MapDestroyed(c, s, pool, vol, ag, s', Done);
    }
  }

  /** The machine has an answer to every call in every state. */
  lemma NextEnabled(c: Config, s: State, op: Op) returns (s': State, out: Outcome)
    ensures Next(c, s, op, s', out)
  {
    match op
    case VolCreate(pool, vol) =>
      VolCreateEnabled(c, s, pool, vol);
      s', out :| VolCreated(c, s, pool, vol, s', out);
    case VolDestroy(pool, vol) =>
      VolDestroyEnabled(c, s, pool, vol);
      s', out :| VolDestroyed(c, s, pool, vol, s', out);
    case VolCopy(pool, vol, copy) =>
      VolCopyEnabled(c, s, pool, vol, copy);
      s', out :| VolCopied(c, s, pool, vol, copy, s', out);
    case ExportCreate(pool, vol, wwn, lun) =>
      s', out := ExportCreated(c, s, pool, vol, wwn, lun).0, ExportCreated(c, s, pool, vol, wwn, lun).1;
    case ExportDestroy(pool, vol, wwn) =>
      ExportDestroyEnabled(c, s, pool, vol, wwn);
      s', out :| ExportDestroyed(c, s, pool, vol, wwn, s', out);
    case SetAuth(wwn) => s', out := WithAcl(Open(s), wwn), Done;
    case Query => s', out := Open(s), Done;
    case GroupCreate(ag, wwn, initType) =>
      s', out := GroupCreated(s, ag, wwn, initType).0, GroupCreated(s, ag, wwn, initType).1;
    case GroupDestroy(ag) => s', out := Open(s).(acls := s.acls - Members(s, ag)), Done;
    case GroupAdd(ag, wwn, initType) =>
      GroupAddEnabled(s, ag, wwn, initType);
      s', out :| GroupAdded(s, ag, wwn, initType, s', out);
    case GroupDel(ag, wwn, initType) =>
      s', out := GroupDeled(s, ag, wwn, initType).0, GroupDeled(s, ag, wwn, initType).1;
    case MapCreate(pool, vol, ag, hLun) =>
      MapCreateEnabled(c, s, pool, vol, ag, hLun);
      s', out :| MapCreated(c, s, pool, vol, ag, hLun, s', out);
    case MapDestroy(pool, vol, ag) =>
      MapDestroyEnabled(c, s, pool, vol, ag);
      s', out :| MapDestroyed(c, s, pool, vol, ag, s', out);
  }

  // ----- Access groups -----

  /** Step `i` fails or keeps sharing. */
  predicate SharesAt(s: State, run: seq<Event>, i: nat)
    requires i < |run|
  {
    run[i].out.Failed? || KeepsSharing(Before(s, run, i), run[i].op)
  }

  ghost predicate SingleAt(c: Config, s: State, run: seq<Event>, i: nat)
    requires i < |run|
  {
    run[i].out.Failed? || KeepsSingle(c, Before(s, run, i), run[i].op)
  }

  lemma StepSharing(c: Config, s: State, run: seq<Event>, i: nat)
    requires Inv(s) && IsRun(c, s, run) && i < |run| && Uniform(Before(s, run, i))
    ensures Uniform(run[i].post) <==> SharesAt(s, run, i)
    ensures Single(Before(s, run, i)) ==> (Single(run[i].post) <==> SingleAt(c, s, run, i))
  {
    var pre, e := Before(s, run, i), run[i];
    RunKeepsInv(c, s, run, i);
    assert StepAt(c, s, run, i);
    NextKeepsUniform(c, pre, e.op, e.post, e.out);
    if Single(pre) { NextKeepsSingle(c, pre, e.op, e.post, e.out); }
  }

  /** The members of every access group share one mapping up to step `n` exactly if
      every step before it fails or keeps sharing. */
  lemma {:induction false} RunKeepsGroups(c: Config, s: State, run: seq<Event>, n: nat)
    requires Inv(s) && Uniform(s) && IsRun(c, s, run) && n <= |run|
    ensures (forall i :: 0 <= i < n ==> Uniform(run[i].post)) <==> forall i :: 0 <= i < n ==> SharesAt(s, run, i)
  {
    if n > 0 {
      RunKeepsGroups(c, s, run, n - 1);
      if forall i :: 0 <= i < n - 1 ==> Uniform(run[i].post) {
        assert Uniform(Before(s, run, n - 1));
        StepSharing(c, s, run, n - 1);
      }
    }
  }

  /** While they do, no member comes to see a volume twice exactly if every step
      fails or keeps that. */
  lemma {:induction false} RunKeepsSingle(c: Config, s: State, run: seq<Event>, n: nat)
    requires Inv(s) && Uniform(s) && Single(s) && IsRun(c, s, run) && n <= |run|
    requires forall i :: 0 <= i < n ==> Uniform(run[i].post)
    ensures (forall i :: 0 <= i < n ==> Single(run[i].post)) <==> forall i :: 0 <= i < n ==> SingleAt(c, s, run, i)
  {
    if n > 0 {
      RunKeepsSingle(c, s, run, n - 1);
      if forall i :: 0 <= i < n - 1 ==> Single(run[i].post) {
        assert Uniform(Before(s, run, n - 1)) && Single(Before(s, run, n - 1));
        StepSharing(c, s, run, n - 1);
      }
    }
  }

  // ----- The relation -----

  /** What the API promises of one call and its answer. */
  ghost predicate Promised(c: Config, s: State, e: Event) {
    if e.out.Failed? then SameRelation(s, e.post)
    else if e.op.ExportCreate? || e.op.ExportDestroy? || e.op.MapCreate? || e.op.MapDestroy? then
      && Resolve(c, e.op.pool).Ok?
      && MappingPromised(s, e.op, Vol(Resolve(c, e.op.pool).value, e.op.vol), e.post)
    else
      && GroupPromised(s, e.op, e.post)
      && (e.op.GroupDestroy? || e.op.GroupAdd? || e.op.GroupDel? || SameRelation(s, e.post))
  }

  /** Over every run in which groups share, every call does to the relation what its
      answer says. */
  lemma RunMeans(c: Config, s: State, run: seq<Event>, i: nat)
    requires Inv(s) && Uniform(s) && IsRun(c, s, run) && i < |run|
    requires forall j :: 0 <= j < i ==> SharesAt(s, run, j)
    ensures Promised(c, Before(s, run, i), run[i])
  {
    RunKeepsGroups(c, s, run, i);
    RunKeepsInv(c, s, run, i);
    assert StepAt(c, s, run, i);
    var pre, e := Before(s, run, i), run[i];
    assert Uniform(pre);
    if e.out.Failed? {
      FailureKeepsRelation(c, pre, e.op, e.post, e.out);
    } else if e.op.ExportCreate? || e.op.ExportDestroy? || e.op.MapCreate? || e.op.MapDestroy? {
      MappingSucceeds(c, pre, e.op, e.post);
    } else {
      GroupSucceeds(c, pre, e.op, e.post);
    }
  }

  // ----- Runs in which the promises fail -----

  /** A service that has been used for the volumes `used` only. */
  function Using(vols: map<Vol, Kind>, used: set<Vol>, acls: map<string, Acl>): State {
    State(vols, true, used, used, acls)
  }

  function Unused(vols: map<Vol, Kind>): State {
    State(vols, false, {}, {}, map[])
  }

  function Member(ag: string, maps: map<int, Vol>): Acl {
    Acl(Some(ag), maps)
  }

  lemma IsRunOf3(c: Config, s: State, a: Event, b: Event, d: Event)
    requires Next(c, s, a.op, a.post, a.out) && Next(c, a.post, b.op, b.post, b.out)
    requires Next(c, b.post, d.op, d.post, d.out)
    ensures IsRun(c, s, [a, b, d])
  {
    var run := [a, b, d];
    assert StepAt(c, s, run, 0) && StepAt(c, s, run, 1) && StepAt(c, s, run, 2);
  }

  lemma FirstOfGroup(c: Config, vols: map<Vol, Kind>, ag: string, a: string)
    requires NameCheck(ag)
    ensures Next(c, Unused(vols), GroupCreate(ag, a, "iscsi"), Using(vols, {}, map[a := Member(ag, map[])]), Done)
  {
    NoMembers(Unused(vols), ag);
    var none: map<string, Acl> := map[];
    assert none[a := Member(ag, map[])] == map[a := Member(ag, map[])];
  }

  lemma SecondOfGroup(c: Config, vols: map<Vol, Kind>, ag: string, a: string, b: string)
    requires a != b
    ensures Next(c, Using(vols, {}, map[a := Member(ag, map[])]), GroupAdd(ag, b, "iscsi"),
                 Using(vols, {}, map[a := Member(ag, map[]), b := Member(ag, map[])]), Done)
  {
    var s := Using(vols, {}, map[a := Member(ag, map[])]);
    assert a in Members(s, ag) && b !in Members(s, ag);
    assert s.acls[b := s.acls[a]] == map[a := Member(ag, map[]), b := Member(ag, map[])];
  }

  /** An export created for one member of a group of two: from then on the members do
      not share one mapping. The calls are those of an ordinary set-up, and all of
      them succeed. */
  lemma SharingBreaks(c: Config, vols: map<Vol, Kind>, pool: string, vol: string, dev: string,
                      ag: string, a: string, b: string, lun: int) returns (run: seq<Event>)
    requires Resolve(c, pool) == Ok(dev) && Vol(dev, vol) in vols && '/' !in vol && NameCheck(ag) && a != b
    ensures IsRun(c, Unused(vols), run) && |run| == 3 && (forall i :: 0 <= i < 3 ==> run[i].out == Done)
    ensures run[0].op == GroupCreate(ag, a, "iscsi") && run[1].op == GroupAdd(ag, b, "iscsi")
    ensures run[2].op == ExportCreate(pool, vol, a, lun)
    ensures run[2].post == Apart(vols, Vol(dev, vol), ag, a, b, lun) && !Uniform(run[2].post)
  {
    var v := Vol(dev, vol);
    var s1 := Using(vols, {}, map[a := Member(ag, map[])]);
    var s2 := Using(vols, {}, map[a := Member(ag, map[]), b := Member(ag, map[])]);
    var s3 := Apart(vols, v, ag, a, b, lun);
    FirstOfGroup(c, vols, ag, a);
    SecondOfGroup(c, vols, ag, a, b);
    OneExported(c, vols, pool, v, ag, a, b, lun);
    run := [Event(GroupCreate(ag, a, "iscsi"), Done, s1), Event(GroupAdd(ag, b, "iscsi"), Done, s2),
            Event(ExportCreate(pool, vol, a, lun), Done, s3)];
    IsRunOf3(c, Unused(vols), run[0], run[1], run[2]);
    assert s3.acls[a] != s3.acls[b] by { assert lun in s3.acls[a].maps && lun !in s3.acls[b].maps; }
  }

  /** Of the members `a` and `b` of a group only `a` sees `v`. */
  function Apart(vols: map<Vol, Kind>, v: Vol, ag: string, a: string, b: string, lun: int): State {
    Using(vols, {v}, map[a := Member(ag, map[lun := v]), b := Member(ag, map[])])
  }

  lemma OneExported(c: Config, vols: map<Vol, Kind>, pool: string, v: Vol, ag: string, a: string, b: string, lun: int)
    requires Resolve(c, pool) == Ok(v.dev) && v in vols && '/' !in v.name && a != b
    ensures Next(c, Using(vols, {}, map[a := Member(ag, map[]), b := Member(ag, map[])]),
                 ExportCreate(pool, v.name, a, lun), Apart(vols, v, ag, a, b, lun), Done)
  {
    var s := Using(vols, {}, map[a := Member(ag, map[]), b := Member(ag, map[])]);
    var s1 := Using(vols, {v}, s.acls);
    assert WithAcl(Open(s), a) == s && {} + {v} == {v};
    assert LunOf(c, s, pool, v.name) == (Ok(v), s1);
    assert MapsOf(s, a) == map[] && lun !in MapsOf(s, a);
    MapsOfOne(v, lun);
    assert MapOn(s1, {a}, lun, v).acls == Apart(vols, v, ag, a, b, lun).acls;
  }

  lemma MapsOfOne(v: Vol, lun: int)
    ensures var none: map<int, Vol> := map[]; none[lun := v] == map[lun := v]
  {
  }

  /** In the state so reached a refused group mapping may map the volume on some
      members and not on others. */
  lemma RefusalHalfMaps(c: Config, vols: map<Vol, Kind>, pool: string, vol: string, dev: string,
                        ag: string, a: string, b: string, lun: int) returns (s': State)
    requires Resolve(c, pool) == Ok(dev) && Vol(dev, vol) in vols && '/' !in vol && a != b
    ensures var s := Apart(vols, Vol(dev, vol), ag, a, b, lun);
      Next(c, s, MapCreate(pool, vol, ag, Some(lun)), s', Failed(Refused)) && !SameRelation(s, s')
  {
    var v := Vol(dev, vol);
    var s := Apart(vols, v, ag, a, b, lun);
    s' := MapOn(s, {b}, lun, v);
    assert Open(s) == s && s.objects + {v} == s.objects;
    assert LunOf(c, s, pool, vol) == (Ok(v), s);
    assert a in Members(s, ag) && b in Members(s, ag) && a !in {b};
    assert lun in MapsOf(s, a);
    assert MappedOnAll(s, Members(s, ag), lun, v, s', Failed(Refused));
    assert MapCreatedBy(c, s, pool, v, ag, Some(lun), b, s', Failed(Refused));
    assert lun in MapsOf(s', b) && lun !in MapsOf(s, b);
  }

  /** Two thin pools of one volume group: a good configuration in which a pool is not
      the one that listings name. */
  lemma AliasExists(vg: string, t: string, u: string)
    requires '/' !in vg && ':' !in vg && '%' !in vg && '/' !in t && '/' !in u && t != u
    ensures var pool, alias := ThinPool(vg, u), ThinPool(vg, t);
            var c := Config([alias, pool], []);
      Good(c) && Canon(c, vg) == pool != alias && Resolve(c, alias) == Resolve(c, pool) == Ok(vg)
  {
    var pool, alias := ThinPool(vg, u), ThinPool(vg, t);
    var c := Config([alias, pool], []);
    ThinPoolParts(vg, t);
    ThinPoolParts(vg, u);
    SharedGroupCollapses(vg, t, u);
    assert alias in c.lvm && vg in Vgs(c);
    assert pool[|vg| + 1..] == u && alias[|vg| + 1..] == t;
  }

  lemma AliasOfThinPools()
    ensures var c := Config(["g/t", "g/u"], []);
      Good(c) && Resolve(c, "g/t") == Ok("g") && "g/t" != Canon(c, "g")
  {
    AliasExists("g", "t", "u");
    assert ThinPool("g", "t") == "g/t" && ThinPool("g", "u") == "g/u";
  }

  /** Mapping a volume under one name of its pool and then under another: the group
      sees it twice. */
  lemma SeenTwice(c: Config, vols: map<Vol, Kind>, pool: string, alias: string, v: Vol, ag: string, a: string)
    returns (run: seq<Event>)
    requires Resolve(c, pool) == Resolve(c, alias) == Ok(v.dev) && alias != Canon(c, v.dev)
    requires v in vols && '/' !in v.name && NameCheck(ag)
    ensures IsRun(c, Unused(vols), run) && |run| == 3 && (forall i :: 0 <= i < 3 ==> run[i].out == Done)
    ensures run[1].op == MapCreate(pool, v.name, ag, Some(0)) && run[2].op == MapCreate(alias, v.name, ag, Some(1))
    ensures Uniform(run[2].post) && !Single(run[2].post)
  {
    var none: map<int, Vol> := map[];
    var one := none[0 := v];
    var two := one[1 := v];
    var s1 := Using(vols, {}, map[a := Member(ag, none)]);
    var s2 := Using(vols, {} + {v}, map[a := Member(ag, one)]);
    var s3 := Using(vols, {} + {v} + {v}, map[a := Member(ag, two)]);
    FirstOfGroup(c, vols, ag, a);
    LoneMapped(c, vols, {}, pool, v, ag, a, none, 0);
    LoneMapped(c, vols, {} + {v}, alias, v, ag, a, one, 1);
    var e0 := Event(GroupCreate(ag, a, "iscsi"), Done, s1);
    var e1 := Event(MapCreate(pool, v.name, ag, Some(0)), Done, s2);
    var e2 := Event(MapCreate(alias, v.name, ag, Some(1)), Done, s3);
    IsRunOf3(c, Unused(vols), e0, e1, e2);
    run := [e0, e1, e2];
    TwiceIsNotOnce(two, v);
    OneMember(s3, a);
  }

  lemma OneMember(s: State, a: string)
    requires s.acls.Keys == {a}
    ensures Uniform(s) && (Single(s) <==> (s.acls[a].tag != None ==> Injective(s.acls[a].maps)))
  {
  }

  lemma TwiceIsNotOnce(maps: map<int, Vol>, v: Vol)
    requires 0 in maps && 1 in maps && maps[0] == maps[1] == v
    ensures !Injective(maps)
  {
    assert 0 != 1 && maps[0] == maps[1];
  }

  /** A new mapping for the only member of a group. */
  lemma LoneMapped(c: Config, vols: map<Vol, Kind>, used: set<Vol>, pool: string, v: Vol, ag: string, a: string,
                   maps: map<int, Vol>, h: int)
    requires Resolve(c, pool) == Ok(v.dev) && v in vols && '/' !in v.name && h !in maps
    requires v in maps.Values ==> pool != Canon(c, v.dev)
    ensures Next(c, Using(vols, used, map[a := Member(ag, maps)]), MapCreate(pool, v.name, ag, Some(h)),
                 Using(vols, used + {v}, map[a := Member(ag, maps[h := v])]), Done)
  {
    var s := Using(vols, used, map[a := Member(ag, maps)]);
    var s1, s' := Using(vols, used + {v}, s.acls), Using(vols, used + {v}, map[a := Member(ag, maps[h := v])]);
    assert LunOf(c, Open(s), pool, v.name) == (Ok(v), s1);
    assert Members(s, ag) == {a} == Members(s1, ag);
    assert MapOn(s1, {a}, h, v).acls == s'.acls;
    assert MappedOnAll(s1, {a}, h, v, s', Done);
    assert MapCreatedBy(c, s1, pool, v, ag, Some(h), a, s', Done);
    assert a in Members(s, ag);
  }
}
