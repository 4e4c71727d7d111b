/** What every call and every run of the export machine keeps. */
module ExportLaws {
  import opened Wrappers
  import opened Naming
  import opened Exports

  // ----- Invariants -----

  /** Every LUN serves a volume that still exists, every mapping refers to a live
      LUN, and without a target there is nothing. */
  predicate Inv(s: State) {
    && s.luns <= s.vols.Keys
    && s.luns <= s.objects
    && (forall w :: w in s.acls ==> s.acls[w].maps.Values <= s.luns)
    && (!s.target ==> s.acls == map[] && s.luns == {})
  }

  /** The members of an access group share one mapping. */
  predicate Uniform(s: State) {
    Shared(s.acls)
  }

  predicate Shared(acls: map<string, Acl>) {
    forall a, b :: a in acls && b in acls && acls[a].tag == acls[b].tag != None ==> acls[a] == acls[b]
  }

  predicate Injective(m: map<int, Vol>) {
    forall h, h' :: h in m && h' in m && m[h] == m[h'] ==> h == h'
  }

  /** A member of an access group sees each volume at most once. */
  predicate Single(s: State) {
    forall w :: w in s.acls && s.acls[w].tag != None ==> Injective(s.acls[w].maps)
  }

  /** The initiator is in no group, or alone in one. */
  predicate Lone(s: State, wwn: string) {
    wwn in s.acls && s.acls[wwn].tag.Some? ==> Members(s, s.acls[wwn].tag.value) == {wwn}
  }

  /** The call, if it succeeds, leaves the members of every group with one mapping:
      a per-initiator export for a member among others must add nothing, and a
      removal must take its last mapping, which takes it out of the group. */
  predicate KeepsSharing(s: State, op: Op) {
    match op
    case ExportCreate(_, _, wwn, lun) => Lone(s, wwn) || lun in MapsOf(s, wwn)
    case ExportDestroy(_, _, wwn) => Lone(s, wwn) || |MapsOf(s, wwn)| == 1
    case _ => true
  }

  /** Some member of the group sees `v`; in a uniform group, all do. */
  ghost predicate GroupSees(s: State, ag: string, v: Vol) {
    exists w :: w in Members(s, ag) && v in MapsOf(s, w).Values
  }

  /** The call, if it succeeds, lets no group member see a volume twice. */
  ghost predicate KeepsSingle(c: Config, s: State, op: Op) {
    match op
    case ExportCreate(pool, vol, wwn, lun) =>
      wwn in s.acls && s.acls[wwn].tag != None && lun !in MapsOf(s, wwn) && Resolve(c, pool).Ok? ==>
        Vol(Resolve(c, pool).value, vol) !in MapsOf(s, wwn).Values
    case MapCreate(pool, vol, ag, _) =>
      Resolve(c, pool).Ok? && GroupSees(s, ag, Vol(Resolve(c, pool).value, vol)) ==>
        pool == Canon(c, Resolve(c, pool).value)
    case _ => true
  }

  ghost predicate SameRelation(s: State, s': State) {
    forall w :: MapsOf(s', w) == MapsOf(s, w)
  }

  // ----- Volume safety -----

  lemma LunOfKeepsInv(c: Config, s: State, pool: string, vol: string)
    requires Inv(s) && s.target
    ensures var (r, s') := LunOf(c, s, pool, vol);
            && Inv(s') && s'.target && s'.acls == s.acls && s'.vols == s.vols
            && (r.Ok? ==> r.value in s'.luns && r.value.name == vol && Resolve(c, pool) == Ok(r.value.dev))
            && (r.Err? ==> s' == s)
  {
  }

  lemma DropKeepsInv(s: State, v: Vol)
    requires Inv(s)
    ensures Inv(DropLunIfUnused(s, v))
    ensures v in DropLunIfUnused(s, v).luns <==> Used(s, v)
    ensures v in s.objects ==> (v in DropLunIfUnused(s, v).objects <==> Used(s, v))
  {
    forall w | w in s.acls && !Used(s, v) ensures v !in s.acls[w].maps.Values {}
  }

  lemma TidyKeepsInv(s: State, wwn: string)
    requires Inv(s) && s.target && wwn in s.acls
    ensures var s' := Tidy(s, wwn);
            && Inv(s') && SameRelation(s, s') && s'.vols == s.vols && s'.objects == s.objects
            && s'.acls == (if s.acls[wwn].maps == map[] then s.acls - {wwn} else s.acls)
            && (s'.target <==> s'.acls != map[])
            && s'.luns == (if s'.target then s.luns else {})
  {
  }

  /** One mapping, of `wwn` at `h` to `v`, is gone, with exactly the LUN, storage
      object, NodeACL and target that nothing else needed; every other mapping
      stays. */
  ghost predicate Cascade(s: State, wwn: string, h: int, v: Vol, s': State) {
    && wwn in s.acls && h in s.acls[wwn].maps && s.acls[wwn].maps[h] == v
    && s'.vols == s.vols
    && MapsOf(s', wwn) == s.acls[wwn].maps - {h}
    && s'.acls - {wwn} == s.acls - {wwn}
    && (wwn in s'.acls <==> MapsOf(s', wwn) != map[])
    && (wwn in s'.acls ==> s'.acls[wwn].tag == s.acls[wwn].tag)
    && (s'.target <==> s'.acls != map[])
    && (v in s'.luns <==> Used(s', v)) && (v in s'.objects <==> Used(s', v))
    && s'.objects - {v} == s.objects - {v}
    && s'.luns - {v} == if s'.target then s.luns - {v} else {}
  }

  /** The mapping is gone; nothing else is yet. */
  function WithoutMapping(s: State, wwn: string, h: int): State
    requires wwn in s.acls
  {
    s.(acls := s.acls[wwn := s.acls[wwn].(maps := s.acls[wwn].maps - {h})])
  }

  lemma WithoutMappingKeepsInv(s: State, wwn: string, h: int)
    requires Inv(s) && wwn in s.acls
    ensures Inv(WithoutMapping(s, wwn, h))
  {
    var s2 := WithoutMapping(s, wwn, h);
    assert s2.acls[wwn].maps.Values <= s.acls[wwn].maps.Values;
  }

  lemma SameUse(s: State, s': State, v: Vol)
    requires SameRelation(s, s')
    ensures Used(s', v) <==> Used(s, v)
  {
    if w :| w in s.acls && v in s.acls[w].maps.Values { assert v in MapsOf(s', w).Values; }
    if w :| w in s'.acls && v in s'.acls[w].maps.Values { assert v in MapsOf(s, w).Values; }
  }

  /** Dropping the LUN if that was its last use, and the NodeACL and the target if
      they are empty. */
  lemma TidiedIsCascade(s: State, s2: State, wwn: string, v: Vol)
    requires Inv(s2) && s2.target && wwn in s2.acls && v in s2.luns && v in s2.objects
    requires s2 == s.(acls := s2.acls)
    ensures var s' := Tidy(DropLunIfUnused(s2, v), wwn);
            && Inv(s') && SameRelation(s2, s') && s'.vols == s.vols
            && s'.acls == (if s2.acls[wwn].maps == map[] then s2.acls - {wwn} else s2.acls)
            && (s'.target <==> s'.acls != map[])
            && (v in s'.luns <==> Used(s', v)) && (v in s'.objects <==> Used(s', v))
            && s'.objects - {v} == s.objects - {v}
            && s'.luns - {v} == if s'.target then s.luns - {v} else {}
  {
    var s3 := DropLunIfUnused(s2, v);
    var s' := Tidy(s3, wwn);
    DropKeepsInv(s2, v);
    TidyKeepsInv(s3, wwn);
    SameUse(s3, s', v);
    SameUse(s2, s3, v);
    if w :| w in s'.acls && v in s'.acls[w].maps.Values { assert s'.target; }
  }

  lemma DroppedIsCascade(s: State, wwn: string, h: int, v: Vol)
    requires Inv(s) && s.target && wwn in s.acls && h in s.acls[wwn].maps && s.acls[wwn].maps[h] == v
    ensures Inv(ExportDropped(s, wwn, h, v)) && Cascade(s, wwn, h, v, ExportDropped(s, wwn, h, v))
  {
    var s2 := WithoutMapping(s, wwn, h);
    WithoutMappingKeepsInv(s, wwn, h);
    assert v in s.luns && v in s.objects by { assert s.acls[wwn].maps[h] in s.acls[wwn].maps.Values; }
    TidiedIsCascade(s, s2, wwn, v);
    assert s2.acls - {wwn} == s.acls - {wwn};
  }

  /** What a successful `export_destroy` does. */
  lemma CascadeExact(c: Config, s: State, pool: string, vol: string, wwn: string, s': State)
    requires Inv(s) && ExportDestroyed(c, s, pool, vol, wwn, s', Done)
    ensures Inv(s') && Resolve(c, pool).Ok?
    ensures exists h :: Cascade(s, wwn, h, Vol(Resolve(c, pool).value, vol), s')
  {
    var v := Vol(Resolve(c, pool).value, vol);
    assert wwn in s.acls && s.target && WithAcl(Open(s), wwn) == s;
    var h :| h in MapsOf(s, wwn) && MapsOf(s, wwn)[h] == v && s' == ExportDropped(s, wwn, h, v);
    DroppedIsCascade(s, wwn, h, v);
  }

  lemma MapCreateKeepsInv(c: Config, s: State, pool: string, vol: string, ag: string, hLun: Option<int>,
                          s': State, out: Outcome)
    requires Inv(s) && MapCreated(c, s, pool, vol, ag, hLun, s', out)
    ensures Inv(s')
  {
    LunOfKeepsInv(c, Open(s), pool, vol);
  }

  lemma MapDestroyKeepsInv(c: Config, s: State, pool: string, vol: string, ag: string, s': State, out: Outcome)
    requires Inv(s) && MapDestroyed(c, s, pool, vol, ag, s', out)
    ensures Inv(s')
  {
    LunOfKeepsInv(c, Open(s), pool, vol);
    var (r, s1) := LunOf(c, Open(s), pool, vol);
    if r.Ok? { UnmappingKeepsInv(s1, ag, r.value, s'); }
  }

  lemma UnmappingKeepsInv(s: State, ag: string, v: Vol, s': State)
    requires Inv(s) && UnmappedByOne(s, ag, v, s')
    ensures Inv(s')
  {
    if Members(s, ag) == {} {
      DropKeepsInv(s, v);
    } else {
      var rep :| rep in Members(s, ag) && s' == DropLunIfUnused(Unmapped(s, ag, rep, v), v);
      var s2 := Unmapped(s, ag, rep, v);
      forall w | w in s2.acls ensures s2.acls[w].maps.Values <= s.acls[w].maps.Values {}
      DropKeepsInv(s2, v);
    }
  }

  lemma ExportCreateKeepsInv(c: Config, s: State, pool: string, vol: string, wwn: string, lun: int)
    requires Inv(s)
    ensures Inv(ExportCreated(c, s, pool, vol, wwn, lun).0)
  {
    LunOfKeepsInv(c, WithAcl(Open(s), wwn), pool, vol);
  }

  /** Volume safety, one call: whatever is called, in any state that satisfies
      the invariant, with uniform groups or not. */
  lemma NextKeepsInv(c: Config, s: State, op: Op, s': State, out: Outcome)
    requires Inv(s) && Next(c, s, op, s', out)
    ensures Inv(s')
  {
    match op
    case ExportCreate(pool, vol, wwn, lun) => ExportCreateKeepsInv(c, s, pool, vol, wwn, lun);
    case ExportDestroy(pool, vol, wwn) => if out == Done { CascadeExact(c, s, pool, vol, wwn, s'); }
    case MapCreate(pool, vol, ag, hLun) => MapCreateKeepsInv(c, s, pool, vol, ag, hLun, s', out);
    case MapDestroy(pool, vol, ag) => MapDestroyKeepsInv(c, s, pool, vol, ag, s', out);
    case _ => OthersKeepInv(c, s, op, s', out);
  }

  lemma OthersKeepInv(c: Config, s: State, op: Op, s': State, out: Outcome)
    requires Inv(s) && Next(c, s, op, s', out)
    requires !op.ExportCreate? && !op.ExportDestroy? && !op.MapCreate? && !op.MapDestroy?
    ensures Inv(s')
  {
    match op
    case VolCreate(_, _) => VolumesKeepInv(s, s');
    case VolDestroy(_, _) => VolumesKeepInv(s, s');
    case VolCopy(_, _, _) => VolumesKeepInv(s, s');
    case GroupAdd(ag, wwn, initType) => GroupAddKeepsInv(s, ag, wwn, initType, s', out);
    case GroupCreate(ag, wwn, initType) => GroupCreateKeepsInv(s, ag, wwn, initType);
    case GroupDestroy(ag) => GroupDestroyKeepsInv(s, ag);
    case GroupDel(ag, wwn, initType) => GroupDelKeepsInv(s, ag, wwn, initType);
    case SetAuth(wwn) => SetAuthKeepsInv(s, wwn);
    case Query => SetAuthKeepsInv(s, "");
  }

  lemma GroupCreateKeepsInv(s: State, ag: string, wwn: string, initType: string)
    requires Inv(s)
    ensures Inv(GroupCreated(s, ag, wwn, initType).0)
  {
    GroupsKeepInv(s, GroupCreated(s, ag, wwn, initType).0);
  }

  lemma GroupDestroyKeepsInv(s: State, ag: string)
    requires Inv(s)
    ensures Inv(Open(s).(acls := s.acls - Members(s, ag)))
  {
    GroupsKeepInv(s, Open(s).(acls := s.acls - Members(s, ag)));
  }

  lemma GroupDelKeepsInv(s: State, ag: string, wwn: string, initType: string)
    requires Inv(s)
    ensures Inv(GroupDeled(s, ag, wwn, initType).0)
  {
    GroupsKeepInv(s, GroupDeled(s, ag, wwn, initType).0);
  }

  lemma SetAuthKeepsInv(s: State, wwn: string)
    requires Inv(s)
    ensures Inv(Open(s)) && Inv(WithAcl(Open(s), wwn))
  {
    GroupsKeepInv(s, Open(s));
    GroupsKeepInv(s, WithAcl(Open(s), wwn));
  }

  lemma GroupAddKeepsInv(s: State, ag: string, wwn: string, initType: string, s': State, out: Outcome)
    requires Inv(s) && GroupAdded(s, ag, wwn, initType, s', out)
    ensures Inv(s')
  {
    GroupsKeepInv(s, s');
  }

  lemma VolumesKeepInv(s: State, s': State)
    requires Inv(s) && s' == s.(vols := s'.vols) && s.luns <= s'.vols.Keys
    ensures Inv(s')
  {
  }

  /** Initiators may come without mappings or with another's, and may go. */
  lemma GroupsKeepInv(s: State, s': State)
    requires Inv(s) && s'.luns == s.luns && s'.objects == s.objects && s'.vols == s.vols
    requires s'.target || s' == s
    requires forall w :: w in s'.acls ==>
      s'.acls[w].maps == map[] || exists m :: m in s.acls && s'.acls[w].maps == s.acls[m].maps
    ensures Inv(s')
  {
    forall w | w in s'.acls ensures s'.acls[w].maps.Values <= s'.luns {
      if s'.acls[w].maps != map[] {
        var m :| m in s.acls && s'.acls[w].maps == s.acls[m].maps;
      }
    }
  }

  // ----- Access groups -----

  lemma TaggedKept(s: State, s': State)
    requires Uniform(s)
    requires forall w :: w in s'.acls && s'.acls[w].tag != None ==> w in s.acls && s.acls[w] == s'.acls[w]
    ensures Uniform(s')
    ensures Single(s) ==> Single(s')
  {
  }

  /** In a uniform group a host LUN is mapped on all members or refused by the
      first, so a refusal changes nothing. */
  lemma MappedAllOrNone(s: State, ag: string, h: int, v: Vol, s': State, out: Outcome)
    requires Uniform(s) && Members(s, ag) != {} && MappedOnAll(s, Members(s, ag), h, v, s', out)
    ensures out == Failed(Refused) || out == Done
    ensures out.Failed? ==> s' == s
    ensures out == Done ==> s' == MapOn(s, Members(s, ag), h, v)
    ensures out == Done <==> forall w :: w in Members(s, ag) ==> h !in MapsOf(s, w)
  {
    if out.Failed? {
      var some :| some < Members(s, ag) && s' == MapOn(s, some, h, v);
      assert s'.acls == s.acls;
    }
  }

  lemma MapOnKeepsUniform(s: State, ag: string, h: int, v: Vol)
    requires Uniform(s)
    ensures Uniform(MapOn(s, Members(s, ag), h, v))
  {
  }

  lemma MapOnSingle(s: State, ag: string, h: int, v: Vol)
    requires Single(s) && forall w :: w in Members(s, ag) ==> h !in MapsOf(s, w)
    ensures Single(MapOn(s, Members(s, ag), h, v)) <==> !GroupSees(s, ag, v)
  {
    var s' := MapOn(s, Members(s, ag), h, v);
    if GroupSees(s, ag, v) {
      var w :| w in Members(s, ag) && v in MapsOf(s, w).Values;
      var g := KeyOf(MapsOf(s, w), v);
      assert MapsOf(s', w)[g] == v == MapsOf(s', w)[h] && g != h;
      assert !Injective(s'.acls[w].maps);
    } else {
      forall w | w in s'.acls && s'.acls[w].tag != None ensures Injective(s'.acls[w].maps) {
        assert Injective(s.acls[w].maps);
        if w in Members(s, ag) { assert v !in MapsOf(s, w).Values; }
      }
    }
  }

  /** The group `ag` got `v` at one new host LUN, on all members. */
  ghost predicate GroupMapped(s: State, ag: string, hLun: Option<int>, v: Vol, h: int, acls: map<string, Acl>) {
    && (hLun == None ==> 0 <= h <= MAX_LUN && h !in LunsOnVol(s, v))
    && (hLun.Some? ==> hLun == Some(h))
    && (forall w :: w in Members(s, ag) ==> h !in MapsOf(s, w))
    && acls == MapOn(s, Members(s, ag), h, v).acls
  }

  lemma MapCreatedByExact(c: Config, s: State, pool: string, v: Vol, ag: string, hLun: Option<int>,
                          rep: string, s': State, out: Outcome)
    requires Uniform(s) && rep in Members(s, ag) && MapCreatedBy(c, s, pool, v, ag, hLun, rep, s', out)
    ensures out.Failed? ==> s' == s
    ensures out == Done ==> if pool == Canon(c, v.dev) && v in MapsOf(s, rep).Values then s' == s
                            else exists h :: GroupMapped(s, ag, hLun, v, h, s'.acls)
  {
    if !(pool == Canon(c, v.dev) && v in MapsOf(s, rep).Values) && out != Failed(NoFreeHostLun) {
      var h :| MappedOnAll(s, Members(s, ag), h, v, s', out)
               && (hLun == None ==> 0 <= h <= MAX_LUN && h !in LunsOnVol(s, v)) && (hLun.Some? ==> hLun == Some(h));
      MappedAllOrNone(s, ag, h, v, s', out);
      assert out == Done ==> GroupMapped(s, ag, hLun, v, h, s'.acls);
    }
  }

  /** What `access_group_map_create` does to a uniform group. */
  lemma MapCreateExact(c: Config, s: State, pool: string, vol: string, ag: string, hLun: Option<int>,
                       s': State, out: Outcome)
    requires Inv(s) && Uniform(s) && MapCreated(c, s, pool, vol, ag, hLun, s', out)
    ensures out.Failed? ==> s'.acls == s.acls
    ensures out == Done ==> Resolve(c, pool).Ok? && Members(s, ag) != {}
    ensures out == Done ==>
              var v := Vol(Resolve(c, pool).value, vol);
              if pool == Canon(c, v.dev) && GroupSees(s, ag, v) then s'.acls == s.acls
              else exists h :: GroupMapped(s, ag, hLun, v, h, s'.acls)
  {
    LunOfKeepsInv(c, Open(s), pool, vol);
    var (r, s1) := LunOf(c, Open(s), pool, vol);
    if r.Ok? && Members(s, ag) != {} {
      var rep :| rep in Members(s, ag) && MapCreatedBy(c, s1, pool, r.value, ag, hLun, rep, s', out);
      MapCreatedByMeans(c, s, s1, pool, r.value, ag, hLun, rep, s', out);
    }
  }

  lemma MapCreatedByMeans(c: Config, s: State, s1: State, pool: string, v: Vol, ag: string, hLun: Option<int>,
                          rep: string, s': State, out: Outcome)
    requires Uniform(s) && s1.acls == s.acls && rep in Members(s, ag)
    requires MapCreatedBy(c, s1, pool, v, ag, hLun, rep, s', out)
    ensures out.Failed? ==> s'.acls == s.acls
    ensures out == Done ==>
              if pool == Canon(c, v.dev) && GroupSees(s, ag, v) then s'.acls == s.acls
              else exists h :: GroupMapped(s, ag, hLun, v, h, s'.acls)
  {
    MapCreatedByExact(c, s1, pool, v, ag, hLun, rep, s', out);
    SeenByOneOrAll(s, ag, rep, v);
    if h :| GroupMapped(s1, ag, hLun, v, h, s'.acls) {
      GroupMappedSame(s1, s, ag, hLun, v, h, s'.acls);
    }
  }

  lemma SeenByOneOrAll(s: State, ag: string, rep: string, v: Vol)
    requires Uniform(s) && rep in Members(s, ag)
    ensures GroupSees(s, ag, v) <==> v in MapsOf(s, rep).Values
  {
  }

  lemma GroupMappedSame(s: State, s': State, ag: string, hLun: Option<int>, v: Vol, h: int, acls: map<string, Acl>)
    requires GroupMapped(s, ag, hLun, v, h, acls) && s'.acls == s.acls
    ensures GroupMapped(s', ag, hLun, v, h, acls)
  {
  }

  lemma MapCreateKeepsUniform(c: Config, s: State, pool: string, vol: string, ag: string, hLun: Option<int>,
                              s': State, out: Outcome)
    requires Inv(s) && Uniform(s) && MapCreated(c, s, pool, vol, ag, hLun, s', out)
    ensures Uniform(s')
  {
    MapCreateExact(c, s, pool, vol, ag, hLun, s', out);
    if out == Done {
      var v := Vol(Resolve(c, pool).value, vol);
      MappedKeeps(s, ag, hLun, v, pool == Canon(c, v.dev) && GroupSees(s, ag, v), s');
    } else {
      SameAcls(s, s');
    }
  }

  lemma MapCreateSingle(c: Config, s: State, pool: string, vol: string, ag: string, hLun: Option<int>,
                        s': State, out: Outcome)
    requires Inv(s) && Uniform(s) && Single(s) && MapCreated(c, s, pool, vol, ag, hLun, s', out)
    ensures out.Failed? ==> Single(s')
    ensures out == Done ==> Resolve(c, pool).Ok?
    ensures out == Done ==>
      var v := Vol(Resolve(c, pool).value, vol);
      Single(s') <==> (GroupSees(s, ag, v) ==> pool == Canon(c, v.dev))
  {
    MapCreateExact(c, s, pool, vol, ag, hLun, s', out);
    if out == Done {
      var v := Vol(Resolve(c, pool).value, vol);
      MappedKeeps(s, ag, hLun, v, pool == Canon(c, v.dev) && GroupSees(s, ag, v), s');
    } else {
      SameAcls(s, s');
    }
  }

  lemma MappedKeeps(s: State, ag: string, hLun: Option<int>, v: Vol, there: bool, s': State)
    requires Uniform(s) && (there ==> GroupSees(s, ag, v))
    requires if there then s'.acls == s.acls else exists h :: GroupMapped(s, ag, hLun, v, h, s'.acls)
    ensures Uniform(s')
    ensures Single(s) ==> (Single(s') <==> there || !GroupSees(s, ag, v))
  {
    if there {
      SameAcls(s, s');
    } else {
      var h :| GroupMapped(s, ag, hLun, v, h, s'.acls);
      GroupMappedKeeps(s, ag, hLun, v, h, s');
    }
  }

  lemma SameAcls(s: State, s': State)
    requires s'.acls == s.acls
    ensures Uniform(s') <==> Uniform(s)
    ensures Single(s') <==> Single(s)
  {
  }

  lemma GroupMappedKeeps(s: State, ag: string, hLun: Option<int>, v: Vol, h: int, s': State)
    requires Uniform(s) && GroupMapped(s, ag, hLun, v, h, s'.acls)
    ensures Uniform(s')
    ensures Single(s) ==> (Single(s') <==> !GroupSees(s, ag, v))
  {
    SameAcls(MapOn(s, Members(s, ag), h, v), s');
    MapOnKeepsUniform(s, ag, h, v);
    if Single(s) { MapOnSingle(s, ag, h, v); }
  }

  /** From `s` to `s'` exactly the mappings of `v` by members of `ag` went. */
  predicate GroupUnmapped(s: State, ag: string, v: Vol, s': State) {
    && s'.acls.Keys == s.acls.Keys
    && forall w :: w in s.acls ==>
         s'.acls[w] == if s.acls[w].tag == Some(ag) then s.acls[w].(maps := s.acls[w].maps - LunsFor(s.acls[w].maps, v))
                       else s.acls[w]
  }

  lemma UnmappedExact(s: State, ag: string, rep: string, v: Vol)
    requires Uniform(s) && rep in Members(s, ag)
    ensures GroupUnmapped(s, ag, v, Unmapped(s, ag, rep, v))
  {
    forall w | w in Members(s, ag) ensures s.acls[w] == s.acls[rep] {}
  }

  lemma GroupUnmappedKeepsUniform(s: State, ag: string, v: Vol, s': State)
    requires Uniform(s) && GroupUnmapped(s, ag, v, s')
    ensures Uniform(s') && (Single(s) ==> Single(s'))
  {
  }

  /** What `access_group_map_destroy` does to a uniform group: exactly the
      members' mappings of the volume go, and the LUN and the storage object stay
      if and only if somebody still maps the volume. */
  lemma MapDestroyExact(c: Config, s: State, pool: string, vol: string, ag: string, s': State, out: Outcome)
    requires Inv(s) && Uniform(s) && MapDestroyed(c, s, pool, vol, ag, s', out)
    ensures s'.vols == s.vols
    ensures out.Failed? ==> s' == Open(s)
    ensures out == Done ==> Resolve(c, pool).Ok?
    ensures out == Done ==>
              var v := Vol(Resolve(c, pool).value, vol);
              && GroupUnmapped(s, ag, v, s')
              && (v in s'.luns <==> Used(s', v)) && (v in s'.objects <==> Used(s', v))
              && s'.luns - {v} == s.luns - {v} && s'.objects - {v} == s.objects - {v}
  {
    LunOfKeepsInv(c, Open(s), pool, vol);
    var (r, s1) := LunOf(c, Open(s), pool, vol);
    if r.Ok? { UnmappingExact(s, s1, ag, r.value, s'); }
  }

  lemma UnmappingExact(s: State, s1: State, ag: string, v: Vol, s': State)
    requires Uniform(s) && s1.acls == s.acls && s1.vols == s.vols
    requires s1.luns == s.luns + {v} && s1.objects == s.objects + {v} && UnmappedByOne(s1, ag, v, s')
    ensures s'.vols == s.vols && GroupUnmapped(s, ag, v, s')
    ensures (v in s'.luns <==> Used(s', v)) && (v in s'.objects <==> Used(s', v))
    ensures s'.luns - {v} == s.luns - {v} && s'.objects - {v} == s.objects - {v}
  {
    if Members(s, ag) == {} {
      NoMembers(s, ag);
      DropExact(s, s1, s1, v);
    } else {
      var rep :| rep in Members(s1, ag) && s' == DropLunIfUnused(Unmapped(s1, ag, rep, v), v);
      UnmappedExact(s1, ag, rep, v);
      DropExact(s, s1, Unmapped(s1, ag, rep, v), v);
    }
  }

  lemma DropExact(s: State, s1: State, s2: State, v: Vol)
    requires s1.luns == s.luns + {v} && s1.objects == s.objects + {v}
    requires s2.luns == s1.luns && s2.objects == s1.objects
    ensures var s' := DropLunIfUnused(s2, v);
            && s'.acls == s2.acls && s'.vols == s2.vols
            && (v in s'.luns <==> Used(s', v)) && (v in s'.objects <==> Used(s', v))
            && s'.luns - {v} == s.luns - {v} && s'.objects - {v} == s.objects - {v}
  {
  }

  /** Changing one member's mapping keeps sharing exactly if there is no other. */
  lemma OneChanged(s: State, wwn: string, maps: map<int, Vol>, acls: map<string, Acl>)
    requires Uniform(s) && wwn in s.acls && maps != s.acls[wwn].maps
    requires acls == s.acls[wwn := s.acls[wwn].(maps := maps)]
    ensures Shared(acls) <==> Lone(s, wwn)
  {
    var tag := s.acls[wwn].tag;
    if tag.Some? {
      if Lone(s, wwn) {
        forall a | a in s.acls && s.acls[a].tag == tag ensures a == wwn { assert a in Members(s, tag.value); }
      } else {
        assert wwn in Members(s, tag.value);
        var a :| a in Members(s, tag.value) && a != wwn;
        assert acls[a] == s.acls[wwn] && acls[a].tag == acls[wwn].tag;
      }
    }
  }

  lemma OneGone(s: State, wwn: string, acls: map<string, Acl>)
    requires Uniform(s) && acls == s.acls - {wwn}
    ensures Shared(acls)
  {
  }

  lemma ExportCreateSharing(c: Config, s: State, pool: string, vol: string, wwn: string, lun: int)
    requires Uniform(s)
    ensures var (s', out) := ExportCreated(c, s, pool, vol, wwn, lun);
      Uniform(s') <==> out.Failed? || Lone(s, wwn) || lun in MapsOf(s, wwn)
  {
    var (s', out) := ExportCreated(c, s, pool, vol, wwn, lun);
    if out == Done && lun !in MapsOf(s, wwn) {
      var v := Vol(Resolve(c, pool).value, vol);
      CreatedOne(c, s, pool, vol, wwn, lun);
      if wwn in s.acls {
        OneChanged(s, wwn, MapsOf(s, wwn)[lun := v], s'.acls);
      } else {
        TaggedKept(s, s');
      }
    } else {
      CreatedNone(c, s, pool, vol, wwn, lun);
      TaggedKept(s, s');
    }
  }

  lemma CreatedOne(c: Config, s: State, pool: string, vol: string, wwn: string, lun: int)
    requires ExportCreated(c, s, pool, vol, wwn, lun).1 == Done && lun !in MapsOf(s, wwn)
    ensures Resolve(c, pool).Ok?
    ensures var v, s' := Vol(Resolve(c, pool).value, vol), ExportCreated(c, s, pool, vol, wwn, lun).0;
      s'.acls == s.acls[wwn := Acl(if wwn in s.acls then s.acls[wwn].tag else None, MapsOf(s, wwn)[lun := v])]
  {
    var v, s' := Vol(Resolve(c, pool).value, vol), ExportCreated(c, s, pool, vol, wwn, lun).0;
    var acls := WithAcl(s, wwn).acls;
    assert s'.acls == acls[wwn := acls[wwn].(maps := acls[wwn].maps[lun := v])];
  }

  lemma CreatedNone(c: Config, s: State, pool: string, vol: string, wwn: string, lun: int)
    requires ExportCreated(c, s, pool, vol, wwn, lun).1.Failed? || lun in MapsOf(s, wwn)
    ensures ExportCreated(c, s, pool, vol, wwn, lun).0.acls == WithAcl(s, wwn).acls
  {
  }

  lemma CascadeSharing(s: State, wwn: string, h: int, v: Vol, s': State)
    requires Uniform(s) && Cascade(s, wwn, h, v, s')
    ensures Uniform(s') <==> Lone(s, wwn) || |MapsOf(s, wwn)| == 1
    ensures Single(s) ==> Single(s')
  {
    var maps := s.acls[wwn].maps;
    OneKey(maps, h);
    CascadeAcls(s, wwn, h, v, s');
    if maps - {h} == map[] {
      OneGone(s, wwn, s'.acls);
    } else {
      assert h !in maps - {h};
      OneChanged(s, wwn, maps - {h}, s'.acls);
    }
    if Single(s) { SubSingle(s, s'); }
  }

  lemma OneKey<K, V>(m: map<K, V>, k: K)
    requires k in m
    ensures m - {k} == map[] <==> |m| == 1
  {
    assert m.Keys == (m - {k}).Keys + {k};
    assert |m.Keys| == |(m - {k}).Keys| + 1;
  }

  lemma CascadeAcls(s: State, wwn: string, h: int, v: Vol, s': State)
    requires Cascade(s, wwn, h, v, s')
    ensures var maps := s.acls[wwn].maps - {h};
      s'.acls == if maps == map[] then s.acls - {wwn} else s.acls[wwn := s.acls[wwn].(maps := maps)]
  {
    var maps := s.acls[wwn].maps - {h};
    if maps == map[] {
      assert s'.acls == s'.acls - {wwn};
    } else {
      forall w | w != wwn ensures w in s'.acls <==> w in s.acls {
        assert w in s'.acls - {wwn} <==> w in s.acls - {wwn};
      }
      forall w | w in s.acls && w != wwn ensures s'.acls[w] == s.acls[w] {
        assert (s'.acls - {wwn})[w] == (s.acls - {wwn})[w];
      }
    }
  }

  /** Fewer mappings are no reason to see a volume twice. */
  lemma SubSingle(s: State, s': State)
    requires Single(s) && forall w :: w in s'.acls && s'.acls[w].tag != None ==>
      w in s.acls && s.acls[w].tag != None && Within(s'.acls[w].maps, s.acls[w].maps)
    ensures Single(s')
  {
    forall w | w in s'.acls && s'.acls[w].tag != None ensures Injective(s'.acls[w].maps) {
      assert Injective(s.acls[w].maps);
    }
  }

  predicate Within(m: map<int, Vol>, n: map<int, Vol>) {
    forall h :: h in m ==> h in n && m[h] == n[h]
  }

  lemma ExportDestroySharing(c: Config, s: State, pool: string, vol: string, wwn: string, s': State, out: Outcome)
    requires Inv(s) && Uniform(s) && ExportDestroyed(c, s, pool, vol, wwn, s', out)
    ensures Uniform(s') <==> out.Failed? || Lone(s, wwn) || |MapsOf(s, wwn)| == 1
    ensures Single(s) ==> Single(s')
  {
    if out == Done {
      CascadeExact(c, s, pool, vol, wwn, s');
      var v := Vol(Resolve(c, pool).value, vol);
      var h :| Cascade(s, wwn, h, v, s');
      CascadeSharing(s, wwn, h, v, s');
    } else {
      ExportDestroyFails(c, s, pool, vol, wwn, s', out);
      TaggedKept(s, s');
    }
  }

  lemma MapDestroyKeepsUniform(c: Config, s: State, pool: string, vol: string, ag: string, s': State, out: Outcome)
    requires Inv(s) && Uniform(s) && MapDestroyed(c, s, pool, vol, ag, s', out)
    ensures Uniform(s') && (Single(s) ==> Single(s'))
  {
    MapDestroyExact(c, s, pool, vol, ag, s', out);
    if out == Done {
      GroupUnmappedKeepsUniform(s, ag, Vol(Resolve(c, pool).value, vol), s');
    }
  }

  lemma GroupCreateKeepsUniform(s: State, ag: string, wwn: string, initType: string)
    requires Uniform(s)
    ensures var s' := GroupCreated(s, ag, wwn, initType).0; Uniform(s') && (Single(s) ==> Single(s'))
  {
    var (s', out) := GroupCreated(s, ag, wwn, initType);
    if out == Done { FirstMember(s, ag, wwn, s'); }
  }

  /** Sharing, one call: from uniform groups a call leads to uniform groups exactly
      if it fails or `KeepsSharing` holds before it. */
  lemma NextKeepsUniform(c: Config, s: State, op: Op, s': State, out: Outcome)
    requires Inv(s) && Uniform(s) && Next(c, s, op, s', out)
    ensures Uniform(s') <==> out.Failed? || KeepsSharing(s, op)
  {
    match op
    case ExportCreate(pool, vol, wwn, lun) => ExportCreateSharing(c, s, pool, vol, wwn, lun);
    case ExportDestroy(pool, vol, wwn) => ExportDestroySharing(c, s, pool, vol, wwn, s', out);
    case MapCreate(pool, vol, ag, hLun) => MapCreateKeepsUniform(c, s, pool, vol, ag, hLun, s', out);
    case _ => OthersKeepUniform(c, s, op, s', out);
  }

  /** Double sight, one call: a group member comes to see a volume twice exactly if
      the call succeeds and `KeepsSingle` does not hold before it. */
  lemma NextKeepsSingle(c: Config, s: State, op: Op, s': State, out: Outcome)
    requires Inv(s) && Uniform(s) && Single(s) && Next(c, s, op, s', out)
    ensures Single(s') <==> out.Failed? || KeepsSingle(c, s, op)
  {
    match op
    case ExportCreate(pool, vol, wwn, lun) => ExportCreateSingle(c, s, pool, vol, wwn, lun);
    case ExportDestroy(pool, vol, wwn) => ExportDestroySharing(c, s, pool, vol, wwn, s', out);
    case MapCreate(pool, vol, ag, hLun) => MapCreateSingle(c, s, pool, vol, ag, hLun, s', out);
    case _ => OthersKeepUniform(c, s, op, s', out);
  }

  lemma OthersKeepUniform(c: Config, s: State, op: Op, s': State, out: Outcome)
    requires Inv(s) && Uniform(s) && Next(c, s, op, s', out)
    requires !op.ExportCreate? && !op.ExportDestroy? && !op.MapCreate?
    ensures Uniform(s') && (Single(s) ==> Single(s'))
  {
    match op
    case MapDestroy(pool, vol, ag) => MapDestroyKeepsUniform(c, s, pool, vol, ag, s', out);
    case GroupCreate(ag, wwn, initType) => GroupCreateKeepsUniform(s, ag, wwn, initType);
    case GroupAdd(ag, wwn, initType) => GroupAddKeepsUniform(s, ag, wwn, initType, s', out);
    case _ => TaggedKept(s, s');
  }

  lemma ExportCreateSingle(c: Config, s: State, pool: string, vol: string, wwn: string, lun: int)
    requires Single(s)
    ensures var (s', out) := ExportCreated(c, s, pool, vol, wwn, lun);
      Single(s') <==> out.Failed? || KeepsSingle(c, s, Op.ExportCreate(pool, vol, wwn, lun))
  {
    var (s', out) := ExportCreated(c, s, pool, vol, wwn, lun);
    if out == Done && lun !in MapsOf(s, wwn) {
      var v := Vol(Resolve(c, pool).value, vol);
      CreatedOne(c, s, pool, vol, wwn, lun);
      OneMore(MapsOf(s, wwn), lun, v);
      OneAclSingle(s, wwn, Acl(if wwn in s.acls then s.acls[wwn].tag else None, MapsOf(s, wwn)[lun := v]), s');
    } else {
      CreatedNone(c, s, pool, vol, wwn, lun);
    }
  }

  lemma OneAclSingle(s: State, wwn: string, acl: Acl, s': State)
    requires Single(s) && s'.acls == s.acls[wwn := acl]
    ensures Single(s') <==> (acl.tag != None ==> Injective(acl.maps))
    ensures wwn in s.acls && s.acls[wwn].tag != None ==> Injective(s.acls[wwn].maps)
  {
    forall w | w in s'.acls && w != wwn && s'.acls[w].tag != None ensures Injective(s'.acls[w].maps) {
      assert s'.acls[w] == s.acls[w];
    }
    assert s'.acls[wwn] == acl;
  }

  lemma OneMore(maps: map<int, Vol>, lun: int, v: Vol)
    requires lun !in maps
    ensures Injective(maps) ==> (Injective(maps[lun := v]) <==> v !in maps.Values)
  {
    var more := maps[lun := v];
    if v in maps.Values {
      var g := KeyOf(maps, v);
      assert more[g] == more[lun] == v && g != lun;
    } else {
      forall h | h in maps ensures maps[h] in maps.Values {}
    }
  }

  lemma FirstMember(s: State, ag: string, wwn: string, s': State)
    requires Uniform(s) && Members(s, ag) == {} && s'.acls == s.acls[wwn := Acl(Some(ag), map[])] && wwn !in s.acls
    ensures Uniform(s') && (Single(s) ==> Single(s'))
  {
    NoMembers(s, ag);
  }

  lemma GroupAddKeepsUniform(s: State, ag: string, wwn: string, initType: string, s': State, out: Outcome)
    requires Uniform(s) && GroupAdded(s, ag, wwn, initType, s', out)
    ensures Uniform(s') && (Single(s) ==> Single(s'))
  {
    if out == Done && wwn !in s.acls && Members(s, ag) == {} { FirstMember(s, ag, wwn, s'); }
  }

  lemma NoMembers(s: State, ag: string)
    ensures Members(s, ag) == {} <==> forall w :: w in s.acls ==> s.acls[w].tag != Some(ag)
  {
    forall w | w in s.acls && s.acls[w].tag == Some(ag) ensures w in Members(s, ag) {}
  }

  // ----- What calls mean for the relation -----

  /** Nobody's host LUNs changed, except possibly those of `ws`. */
  ghost predicate OthersKept(s: State, s': State, ws: set<string>) {
    forall w :: w !in ws ==> MapsOf(s', w) == MapsOf(s, w)
  }

  /** `v` was newly mapped at `h` on all of `ws`. */
  ghost predicate MappedAt(s: State, s': State, ws: set<string>, h: int, v: Vol) {
    && OthersKept(s, s', ws)
    && forall w :: w in ws ==> h !in MapsOf(s, w) && MapsOf(s', w) == MapsOf(s, w)[h := v]
  }

  /** What the API promises of a successful call on exports and mappings, where
      `v` is the volume that was named. */
  ghost predicate MappingPromised(s: State, op: Op, v: Vol, s': State) {
    match op
    case ExportCreate(_, _, wwn, lun) =>
      OthersKept(s, s', {wwn}) && MapsOf(s', wwn) == MapsOf(s, wwn)[lun := v]
    case ExportDestroy(_, _, wwn) =>
      && OthersKept(s, s', {wwn})
      && exists h :: h in MapsOf(s, wwn) && MapsOf(s, wwn)[h] == v && MapsOf(s', wwn) == MapsOf(s, wwn) - {h}
    case MapCreate(_, _, ag, hLun) =>
      && Members(s, ag) != {}
      && (forall w :: w in Members(s, ag) ==> v in MapsOf(s', w).Values)
      && (SameRelation(s, s') || exists h :: (hLun == None || hLun == Some(h)) && MappedAt(s, s', Members(s, ag), h, v))
    case MapDestroy(_, _, ag) =>
      && OthersKept(s, s', Members(s, ag))
      && forall w :: w in Members(s, ag) ==> MapsOf(s', w) == MapsOf(s, w) - LunsFor(MapsOf(s, w), v)
    case _ => SameRelation(s, s')
  }

  /** What the API promises of a successful call on access groups. */
  ghost predicate GroupPromised(s: State, op: Op, s': State) {
    match op
    case GroupCreate(ag, wwn, _) => SameRelation(s, s') && Members(s', ag) == {wwn} && wwn !in s.acls
    case GroupDestroy(ag) =>
      && Members(s', ag) == {} && OthersKept(s, s', Members(s, ag))
      && forall w :: w in Members(s, ag) ==> MapsOf(s', w) == map[]
    case GroupAdd(ag, wwn, _) =>
      && Members(s', ag) == Members(s, ag) + {wwn} && OthersKept(s, s', {wwn})
      && (forall m :: m in Members(s', ag) ==> MapsOf(s', m) == MapsOf(s', wwn))
      && (Members(s, ag) == {} ==> MapsOf(s', wwn) == map[])
      && (wwn in Members(s, ag) ==> SameRelation(s, s'))
    case GroupDel(ag, wwn, _) =>
      && Members(s', ag) == Members(s, ag) - {wwn} && OthersKept(s, s', {wwn} * Members(s, ag))
      && (wwn in Members(s, ag) ==> MapsOf(s', wwn) == map[])
    case _ => true
  }

  lemma CascadeMeans(s: State, wwn: string, h: int, v: Vol, s': State)
    requires Cascade(s, wwn, h, v, s')
    ensures OthersKept(s, s', {wwn})
  {
    forall w | w != wwn ensures MapsOf(s', w) == MapsOf(s, w) {
      assert w in s.acls - {wwn} <==> w in s'.acls - {wwn};
      assert w in s.acls ==> (s.acls - {wwn})[w] == s.acls[w] && (s'.acls - {wwn})[w] == s'.acls[w];
    }
  }

  lemma MapOnMeans(s: State, s': State, ws: set<string>, h: int, v: Vol)
    requires ws <= s.acls.Keys && s'.acls == MapOn(s, ws, h, v).acls
    requires forall w :: w in ws ==> h !in MapsOf(s, w)
    ensures MappedAt(s, s', ws, h, v)
    ensures forall w :: w in ws ==> v in MapsOf(s', w).Values
  {
    forall w | w in ws ensures v in MapsOf(s', w).Values {
      assert MapsOf(s', w)[h] == v;
    }
  }

  lemma MapCreateMeans(s: State, op: Op, v: Vol, s': State)
    requires Uniform(s) && op.MapCreate? && Members(s, op.ag) != {}
    requires (s'.acls == s.acls && GroupSees(s, op.ag, v)) || exists h :: GroupMapped(s, op.ag, op.hLun, v, h, s'.acls)
    ensures MappingPromised(s, op, v, s')
  {
    var ws := Members(s, op.ag);
    if s'.acls == s.acls && GroupSees(s, op.ag, v) {
      forall w | w in ws ensures v in MapsOf(s', w).Values {
        SeenByOneOrAll(s, op.ag, w, v);
      }
    } else {
      var h :| GroupMapped(s, op.ag, op.hLun, v, h, s'.acls);
      MapOnMeans(s, s', ws, h, v);
    }
  }

  lemma ExportCreateMeans(c: Config, s: State, pool: string, vol: string, wwn: string, lun: int)
    requires ExportCreated(c, s, pool, vol, wwn, lun).1 == Done
    ensures Resolve(c, pool).Ok?
    ensures var v, s' := Vol(Resolve(c, pool).value, vol), ExportCreated(c, s, pool, vol, wwn, lun).0;
            OthersKept(s, s', {wwn}) && MapsOf(s', wwn) == MapsOf(s, wwn)[lun := v]
  {
    var v := Vol(Resolve(c, pool).value, vol);
    if lun in MapsOf(s, wwn) {
      CreatedNone(c, s, pool, vol, wwn, lun);
      assert MapsOf(s, wwn)[lun := v] == MapsOf(s, wwn);
    } else {
      CreatedOne(c, s, pool, vol, wwn, lun);
    }
  }

  lemma ExportDestroyMeans(c: Config, s: State, pool: string, vol: string, wwn: string, s': State)
    requires Inv(s) && ExportDestroyed(c, s, pool, vol, wwn, s', Done)
    ensures Resolve(c, pool).Ok?
    ensures var v := Vol(Resolve(c, pool).value, vol);
            MappingPromised(s, Op.ExportDestroy(pool, vol, wwn), v, s')
  {
    var v := Vol(Resolve(c, pool).value, vol);
    CascadeExact(c, s, pool, vol, wwn, s');
    var h :| Cascade(s, wwn, h, v, s');
    CascadeMeans(s, wwn, h, v, s');
  }

  lemma GroupUnmappedMeans(s: State, ag: string, v: Vol, s': State)
    requires GroupUnmapped(s, ag, v, s')
    ensures OthersKept(s, s', Members(s, ag))
    ensures forall w :: w in Members(s, ag) ==> MapsOf(s', w) == MapsOf(s, w) - LunsFor(MapsOf(s, w), v)
  {
    forall w | w !in Members(s, ag) ensures MapsOf(s', w) == MapsOf(s, w) {
      assert w in s.acls <==> w in s'.acls;
    }
  }

  /** Every successful export or mapping call changes the relation as the API
      says. */
  lemma MappingSucceeds(c: Config, s: State, op: Op, s': State)
    requires Inv(s) && Uniform(s) && Next(c, s, op, s', Done)
    requires op.ExportCreate? || op.ExportDestroy? || op.MapCreate? || op.MapDestroy?
    ensures Resolve(c, op.pool).Ok? && MappingPromised(s, op, Vol(Resolve(c, op.pool).value, op.vol), s')
  {
    match op
    case ExportCreate(pool, vol, wwn, lun) => ExportCreateMeans(c, s, pool, vol, wwn, lun);
    case ExportDestroy(pool, vol, wwn) => ExportDestroyMeans(c, s, pool, vol, wwn, s');
    case MapCreate(pool, vol, ag, hLun) =>
      MapCreateExact(c, s, pool, vol, ag, hLun, s', Done);
      MapCreateMeans(s, op, Vol(Resolve(c, pool).value, vol), s');
    case MapDestroy(pool, vol, ag) =>
      MapDestroyExact(c, s, pool, vol, ag, s', Done);
      GroupUnmappedMeans(s, ag, Vol(Resolve(c, pool).value, vol), s');
  }

  /** Every successful group call changes the groups and the relation as the API
      says, and every other successful call leaves the relation alone. */
  lemma GroupSucceeds(c: Config, s: State, op: Op, s': State)
    requires Uniform(s) && Next(c, s, op, s', Done)
    requires !(op.ExportCreate? || op.ExportDestroy? || op.MapCreate? || op.MapDestroy?)
    ensures GroupPromised(s, op, s')
    ensures !(op.GroupDestroy? || op.GroupAdd? || op.GroupDel?) ==> SameRelation(s, s')
  {
    match op
    case GroupAdd(ag, wwn, _) => GroupAddMeans(s, op, s');
    case GroupDestroy(ag) => MembersGone(s, ag, Members(s, ag), s');
    case GroupDel(ag, wwn, _) => MembersGone(s, ag, {wwn} * Members(s, ag), s');
    case GroupCreate(ag, wwn, initType) => GroupCreateMeans(s, ag, wwn, initType);
    case SetAuth(wwn) => SetAuthMeans(s, wwn);
    case _ => VolumesMean(c, s, op, s');
  }

  lemma SetAuthMeans(s: State, wwn: string)
    ensures SameRelation(s, WithAcl(Open(s), wwn))
  {
  }

  lemma VolumesMean(c: Config, s: State, op: Op, s': State)
    requires Next(c, s, op, s', Done) && (op.VolCreate? || op.VolDestroy? || op.VolCopy? || op.Query?)
    ensures SameRelation(s, s')
  {
  }

  lemma GroupCreateMeans(s: State, ag: string, wwn: string, initType: string)
    requires GroupCreated(s, ag, wwn, initType).1 == Done
    ensures GroupPromised(s, Op.GroupCreate(ag, wwn, initType), GroupCreated(s, ag, wwn, initType).0)
  {
    NewAcl(s, wwn, Acl(Some(ag), map[]), GroupCreated(s, ag, wwn, initType).0);
  }

  /** An unknown initiator got a NodeACL. */
  lemma NewAcl(s: State, wwn: string, acl: Acl, s': State)
    requires wwn !in s.acls && s'.acls == s.acls[wwn := acl]
    ensures OthersKept(s, s', {wwn}) && MapsOf(s', wwn) == acl.maps && MapsOf(s, wwn) == map[]
    ensures forall ag :: Members(s', ag) == if acl.tag == Some(ag) then Members(s, ag) + {wwn} else Members(s, ag)
  {
    forall ag ensures Members(s', ag) == if acl.tag == Some(ag) then Members(s, ag) + {wwn} else Members(s, ag) {
      assert forall w :: w in s'.acls <==> w in s.acls || w == wwn;
    }
  }

  lemma MembersGone(s: State, ag: string, gone: set<string>, s': State)
    requires s'.acls == s.acls - gone && gone <= Members(s, ag)
    ensures Members(s', ag) == Members(s, ag) - gone && OthersKept(s, s', gone)
    ensures forall w :: w in gone ==> MapsOf(s', w) == map[]
  {
  }

  lemma GroupAddMeans(s: State, op: Op, s': State)
    requires Uniform(s) && op.GroupAdd? && GroupAdded(s, op.ag, op.wwn, op.initType, s', Done)
    ensures GroupPromised(s, op, s')
  {
    var ag, wwn := op.ag, op.wwn;
    if wwn in Members(s, ag) {
      assert Members(s', ag) == Members(s, ag) == Members(s, ag) + {wwn};
      forall m | m in Members(s, ag) ensures s.acls[m] == s.acls[wwn] {}
    } else if Members(s, ag) == {} {
      NewAcl(s, wwn, Acl(Some(ag), map[]), s');
    } else {
      var rep :| rep in Members(s, ag) && s' == Open(s).(acls := s.acls[wwn := s.acls[rep]]);
      NewAcl(s, wwn, s.acls[rep], s');
      forall m | m in Members(s, ag) ensures MapsOf(s', m) == MapsOf(s', wwn) {
        assert s.acls[m] == s.acls[rep] && m != wwn;
      }
    }
  }

  /** Every failed call leaves the relation as it was, whatever it left in the
      tree. */
  lemma FailureKeepsRelation(c: Config, s: State, op: Op, s': State, out: Outcome)
    requires Inv(s) && Uniform(s) && Next(c, s, op, s', out) && out.Failed?
    ensures SameRelation(s, s')
  {
    match op
    case ExportCreate(pool, vol, wwn, lun) => ExportCreateFails(c, s, pool, vol, wwn, lun);
    case MapCreate(pool, vol, ag, h) => MapCreateExact(c, s, pool, vol, ag, h, s', out);
    case MapDestroy(pool, vol, ag) => MapDestroyExact(c, s, pool, vol, ag, s', out);
    case ExportDestroy(pool, vol, wwn) => ExportDestroyFails(c, s, pool, vol, wwn, s', out);
    case _ => OtherFails(c, s, op, s', out);
  }

  lemma OtherFails(c: Config, s: State, op: Op, s': State, out: Outcome)
    requires Next(c, s, op, s', out) && out.Failed?
    requires !op.ExportCreate? && !op.ExportDestroy? && !op.MapCreate? && !op.MapDestroy?
    ensures s'.acls == s.acls
  {
  }

  /** It may leave an empty NodeACL behind. */
  lemma ExportDestroyFails(c: Config, s: State, pool: string, vol: string, wwn: string, s': State, out: Outcome)
    requires ExportDestroyed(c, s, pool, vol, wwn, s', out) && out.Failed?
    ensures s' == s || s' == WithAcl(Open(s), wwn)
  {
  }

  lemma ExportCreateFails(c: Config, s: State, pool: string, vol: string, wwn: string, lun: int)
    ensures var (s', out) := ExportCreated(c, s, pool, vol, wwn, lun);
            out.Failed? ==> s'.acls == WithAcl(s, wwn).acls
  {
  }

  /** Uniformity is what makes a refusal harmless: whatever order the members are
      visited in, a refused host LUN changes nothing exactly when every member
      already uses it. */
  lemma RefusalHarmless(s: State, ws: set<string>, h: int, v: Vol)
    requires ws <= s.acls.Keys && exists w :: w in ws && h in MapsOf(s, w)
    ensures (forall s' :: MappedOnAll(s, ws, h, v, s', Failed(Refused)) ==> s' == s)
            <==> (forall w :: w in ws ==> h in MapsOf(s, w))
  {
    if w :| w in ws && h !in MapsOf(s, w) {
      assert {w} < ws;
      var s' := MapOn(s, {w}, h, v);
      assert MappedOnAll(s, ws, h, v, s', Failed(Refused));
      assert h in s'.acls[w].maps;
    } else {
      forall some | some < ws ensures MapOn(s, some, h, v) == s {
        assert MapOn(s, some, h, v).acls == s.acls;
      }
    }
  }

  /** Asking again for a mapping that a uniform group has changes nothing exactly
      when the pool is named as listings name it; under another alias of the same
      device a free host LUN is mapped a second time. */
  lemma RepeatedMapCreate(c: Config, s: State, pool: string, vol: string, ag: string, h: int, s': State, out: Outcome)
    requires Inv(s) && Uniform(s) && Resolve(c, pool).Ok?
    requires GroupSees(s, ag, Vol(Resolve(c, pool).value, vol))
    requires forall w :: w in Members(s, ag) ==> h !in MapsOf(s, w)
    requires MapCreated(c, s, pool, vol, ag, Some(h), s', out)
    ensures out == Done
    ensures SameRelation(s, s') <==> pool == Canon(c, Resolve(c, pool).value)
  {
    MapCreateExact(c, s, pool, vol, ag, Some(h), s', out);
    var v := Vol(Resolve(c, pool).value, vol);
    var m :| m in Members(s, ag) && v in MapsOf(s, m).Values;
    assert v in s.luns && v in s.vols && v in s.objects;
    var s1 := LunOf(c, Open(s), pool, vol).1;
    assert Members(s1, ag) == Members(s, ag);
    if pool != Canon(c, v.dev) {
      assert h in MapsOf(s', m);
    }
  }

  /** Creating an export for an unknown initiator and an unexported volume and
      destroying it again restores the whole state, exactly unless a target
      without initiators was there before: that one is deleted with its LUNs. */
  lemma CreateThenDestroy(c: Config, s: State, pool: string, vol: string, wwn: string, lun: int,
                          s1: State, s2: State, out: Outcome)
    requires Inv(s) && wwn !in s.acls
    requires ExportCreated(c, s, pool, vol, wwn, lun) == (s1, Done)
    requires Vol(Resolve(c, pool).value, vol) !in s.objects
    requires ExportDestroyed(c, s1, pool, vol, wwn, s2, out)
    ensures out == Done
    ensures s2 == s <==> !s.target || s.acls != map[]
  {
    var v := Vol(Resolve(c, pool).value, vol);
    CreatedFresh(c, s, pool, vol, wwn, lun);
    ExportCreateKeepsInv(c, s, pool, vol, wwn, lun);
    assert MapsOf(s1, wwn)[lun] == v;
    CascadeExact(c, s1, pool, vol, wwn, s2);
    var h :| Cascade(s1, wwn, h, v, s2);
    CascadeUndoes(s, s1, wwn, h, v, s2);
  }

  lemma CreatedFresh(c: Config, s: State, pool: string, vol: string, wwn: string, lun: int)
    requires Inv(s) && wwn !in s.acls && Resolve(c, pool).Ok?
    requires ExportCreated(c, s, pool, vol, wwn, lun).1 == Done
    ensures var v := Vol(Resolve(c, pool).value, vol);
            ExportCreated(c, s, pool, vol, wwn, lun).0
            == State(s.vols, true, s.objects + {v}, s.luns + {v}, s.acls[wwn := Acl(None, map[lun := v])])
  {
    var v := Vol(Resolve(c, pool).value, vol);
    var s1 := LunOf(c, WithAcl(Open(s), wwn), pool, vol).1;
    assert MapOn(s1, {wwn}, lun, v).acls == s.acls[wwn := Acl(None, map[lun := v])];
  }

  lemma CascadeUndoes(s: State, s1: State, wwn: string, h: int, v: Vol, s2: State)
    requires Inv(s) && wwn !in s.acls && v !in s.objects
    requires s1 == State(s.vols, true, s.objects + {v}, s.luns + {v}, s.acls[wwn := Acl(None, map[h := v])])
    requires Cascade(s1, wwn, h, v, s2)
    ensures s2 == s <==> !s.target || s.acls != map[]
  {
    assert s1.acls - {wwn} == s.acls && MapsOf(s2, wwn) == map[];
    assert wwn !in s2.acls;
    assert s2.acls - {wwn} == s2.acls;
    assert !Used(s2, v) by {
      assert forall w :: w in s.acls ==> v !in s.acls[w].maps.Values;
    }
    assert s2.objects == s2.objects - {v} && s1.objects - {v} == s.objects;
    assert s2.luns == s2.luns - {v} && s1.luns - {v} == s.luns;
  }

  /** Creating a volume and destroying it again, in any state: if the command
      succeeds, the state is restored; the volume is not found exactly when its
      thin pool had no room and a linear volume was made instead. */
  lemma CreateThenDestroyVolume(c: Config, s: State, pool: string, vol: string, s1: State, s2: State, out: Outcome)
    requires Inv(s) && VolCreated(c, s, pool, vol, s1, Done) && VolDestroyed(c, s1, pool, vol, s2, out)
    ensures Resolve(c, pool).Ok?
    ensures var dev := Resolve(c, pool).value;
            && (out == Failed(NotFoundVolume) <==> s1.vols[Vol(dev, vol)] != KindIn(c, dev, pool))
            && (out == Done ==> s2 == s)
            && (out.Failed? ==> s2 == s1 && (out.failure.NotFoundVolume? || out.failure.Unexpected?))
  {
    var v := Vol(Resolve(c, pool).value, vol);
    assert s1.vols - {v} == s.vols;
    assert v !in s1.luns;
  }

  // ----- Automatic host LUNs -----

  lemma {:induction false} SomeIdFree(used: set<int>, n: nat)
    requires |used| < n
    ensures exists h :: 0 <= h < n && h !in used
  {
    if n - 1 in used {
      SomeIdFree(used - {n - 1}, n - 1);
    }
  }

  /** With at most `MAX_LUN` host LUN ids in use for the volume, one is found. */
  lemma FreeHostLunFound(c: Config, s: State, pool: string, vol: string, ag: string, s': State, out: Outcome)
    requires MapCreated(c, s, pool, vol, ag, None, s', out)
    requires Resolve(c, pool).Ok? && |LunsOnVol(s, Vol(Resolve(c, pool).value, vol))| <= MAX_LUN
    ensures out != Failed(NoFreeHostLun)
  {
    var v := Vol(Resolve(c, pool).value, vol);
    SomeIdFree(LunsOnVol(s, v), MAX_LUN + 1);
    assert LunsOnVol(LunOf(c, Open(s), pool, vol).1, v) == LunsOnVol(s, v);
  }
}
