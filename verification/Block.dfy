/** The block export calls over the configuration tree. Every call is proved to
    be one step of the abstract machine on the state the tree stands for. */
module Block {
  import opened Wrappers
  import opened Strings
  import opened Naming
  import opened Exports
  import opened ExportAnswers
  import opened ExportLaws
  import opened Lio

  /** A directory listing: all entries, in no particular order. */
  method Listing<T(==)>(s: set<T>) returns (l: seq<T>)
    ensures forall x :: x in l <==> x in s
    ensures forall i, j :: 0 <= i < j < |l| ==> l[i] != l[j]
  {
    l := [];
    var rest := s;
    while rest != {}
      invariant rest <= s
      invariant forall x :: x in l <==> x in s - rest
      invariant forall i, j :: 0 <= i < j < |l| ==> l[i] != l[j]
      decreases rest
    {
      var x :| x in rest;
      assert x !in l;
      l := l + [x];
      rest := rest - {x};
    }
  }

  function Range(l: seq<string>): set<string> {
    set x | x in l
  }

  lemma RangeStep(l: seq<string>, k: nat)
    requires k < |l|
    ensures Range(l[..k + 1]) == Range(l[..k]) + {l[k]}
  {
    assert l[..k + 1] == l[..k] + [l[k]];
  }

  // ----- Searches, which change nothing -----

  method FindLun(t: Tree, so: string) returns (r: Option<nat>)
    ensures r.Some? ==> r.value in t.luns && t.luns[r.value] == so
    ensures r.None? ==> so !in t.luns.Values
  {
    var luns := Listing(t.luns.Keys);
    for k := 0 to |luns|
      invariant forall j :: 0 <= j < k ==> t.luns[luns[j]] != so
    {
      if t.luns[luns[k]] == so { return Some(luns[k]); }
    }
    return None;
  }

  /** The search among the mapped LUNs of a LUN. */
  method FindMapped(t: Tree, wwn: string, h: int, i: nat) returns (found: bool)
    requires wwn in t.acls
    ensures found <==> h in t.acls[wwn].mapped && t.acls[wwn].mapped[h] == i
  {
    var all := set w, g | w in t.acls && g in t.acls[w].mapped && t.acls[w].mapped[g] == i :: (w, g);
    assert (wwn, h) in all <==> h in t.acls[wwn].mapped && t.acls[wwn].mapped[h] == i;
    var mapped := Listing(all);
    for k := 0 to |mapped|
      invariant forall j :: 0 <= j < k ==> mapped[j] != (wwn, h)
    {
      if mapped[k] == (wwn, h) { return true; }
    }
    return false;
  }

  method CopyMapped<K(==), V>(model: map<K, V>) returns (mapped: map<K, V>)
    ensures mapped == model
  {
    var hs := Listing(model.Keys);
    mapped := map[];
    for k := 0 to |hs|
      invariant forall j :: 0 <= j < k ==> hs[j] in mapped
      invariant forall h :: h in mapped ==> h in model && mapped[h] == model[h]
    {
      mapped := mapped[hs[k] := model[hs[k]]];
    }
    forall h | h in model ensures h in mapped { assert h in hs; }
  }

  /** The test that `export_destroy` applies to the device path of a mapped LUN. */
  predicate PathIs(c: Config, mod: Backend, path: string, dev: string, vol: string) {
    HasUdev(c, mod, path) && SplitUdev(c, mod, path) == Some((dev, vol))
  }

  function PathAt(t: Tree, i: nat): string {
    if i in t.luns && t.luns[i] in t.objects then t.objects[t.luns[i]] else ""
  }

  /** On the paths of this tree the test picks out one volume. */
  lemma PathIsExact(c: Config, t: Tree, i: nat, mod: Backend, v: Vol)
    requires Good(c) && WellFormed(c, t) && i in t.luns && IsDev(c, v.dev) && BackendOf(c, v.dev) == mod
    ensures PathIs(c, mod, PathAt(t, i), v.dev, v.name) <==> VolAt(t.luns, i) == v
  {
    var so := t.luns[i];
    assert GoodObject(c, so, t.objects[so]);
    PathRoundTrip(c, SoVol(so));
  }

  /** The search among the mapped LUNs of an initiator. */
  method FindExport(c: Config, t: Tree, mapped: map<int, nat>, mod: Backend, dev: string, vol: string)
    returns (r: Option<int>)
    ensures Hit(c, t, mapped, mod, dev, vol, r)
  {
    var hs := Listing(mapped.Keys);
    for k := 0 to |hs|
      invariant forall j :: 0 <= j < k ==> !PathIs(c, mod, PathAt(t, mapped[hs[j]]), dev, vol)
    {
      if PathIs(c, mod, PathAt(t, mapped[hs[k]]), dev, vol) { return Some(hs[k]); }
    }
    return None;
  }

  predicate Hit(c: Config, t: Tree, mapped: map<int, nat>, mod: Backend, dev: string, vol: string, r: Option<int>) {
    match r
    case Some(h) => h in mapped && PathIs(c, mod, PathAt(t, mapped[h]), dev, vol)
    case None => forall h :: h in mapped ==> !PathIs(c, mod, PathAt(t, mapped[h]), dev, vol)
  }

  /** What that search finds. */
  lemma HitIsFound(c: Config, t: Tree, wwn: string, mod: Backend, v: Vol, r: Option<int>)
    requires Good(c) && WellFormed(c, t) && IsDev(c, v.dev) && BackendOf(c, v.dev) == mod && wwn in t.acls
    requires Hit(c, t, t.acls[wwn].mapped, mod, v.dev, v.name, r)
    ensures Found(AbsMaps(t.luns, t.acls[wwn].mapped), v, r)
  {
    var mapped := t.acls[wwn].mapped;
    if r.Some? {
      MappedLive(c, t, wwn, r.value);
      PathIsExact(c, t, mapped[r.value], mod, v);
    } else if v in AbsMaps(t.luns, mapped).Values {
      var h := KeyOf(AbsMaps(t.luns, mapped), v);
      MappedLive(c, t, wwn, h);
      PathIsExact(c, t, mapped[h], mod, v);
      assert false;
    }
  }

  method ExportOf(c: Config, t: Tree, wwn: string, mod: Backend, v: Vol) returns (r: Option<int>)
    requires Good(c) && WellFormed(c, t) && IsDev(c, v.dev) && BackendOf(c, v.dev) == mod && wwn in t.acls
    ensures Found(AbsMaps(t.luns, t.acls[wwn].mapped), v, r)
  {
    r := FindExport(c, t, t.acls[wwn].mapped, mod, v.dev, v.name);
    HitIsFound(c, t, wwn, mod, v, r);
  }

  /** A host LUN that serves `v`, or none if there is none. */
  predicate Found(maps: map<int, Vol>, v: Vol, r: Option<int>) {
    match r
    case Some(h) => h in maps && maps[h] == v
    case None => v !in maps.Values
  }

  lemma DestroyedBy(c: Config, s: State, pool: string, vol: string, wwn: string, h: Option<int>)
    requires Resolve(c, pool).Ok?
    requires Found(MapsOf(WithAcl(Open(s), wwn), wwn), Vol(Resolve(c, pool).value, vol), h)
    ensures var s1, v := WithAcl(Open(s), wwn), Vol(Resolve(c, pool).value, vol);
            match h
            case Some(h) => ExportDestroyed(c, s, pool, vol, wwn, ExportDropped(s1, wwn, h, v), Done)
            case None => ExportDestroyed(c, s, pool, vol, wwn, s1, Failed(NotFoundExport))
  {
    assert MapsOf(WithAcl(Open(s), wwn), wwn) == MapsOf(s, wwn);
  }

  // ----- Listings -----

  datatype GroupEntry = GroupEntry(ag: string, hLun: int, pool: string, vol: string)

  datatype ExportEntry = ExportEntry(wwn: string, lun: int, pool: string, vol: string)

  /** An entry of `access_group_map_list`, when `reps` are the members that the
      groups' mappings are read off. */
  ghost predicate InMapList(c: Config, s: State, reps: map<string, string>, e: GroupEntry) {
    && e.ag in reps && e.hLun in MapsOf(s, reps[e.ag])
    && var v := MapsOf(s, reps[e.ag])[e.hLun]; e.pool == Canon(c, v.dev) && e.vol == v.name
  }

  /** An entry of `export_list`. */
  ghost predicate InExportList(c: Config, s: State, e: ExportEntry) {
    && e.lun in MapsOf(s, e.wwn)
    && var v := MapsOf(s, e.wwn)[e.lun]; e.pool == Canon(c, v.dev) && e.vol == v.name
  }

  /** An entry of the list names its volume so that other calls find it: destroying the
      export that it shows may succeed, and cannot fail. */
  lemma ExportListLeadsBack(c: Config, s: State, e: ExportEntry)
    requires Good(c) && InExportList(c, s, e) && IsDev(c, MapsOf(s, e.wwn)[e.lun].dev)
    ensures Resolve(c, e.pool).Ok? && MapsOf(s, e.wwn)[e.lun] == Vol(Resolve(c, e.pool).value, e.vol)
    ensures forall out :: MayAnswer(c, s, Op.ExportDestroy(e.pool, e.vol, e.wwn), out) <==> out == Done
  {
    ListedPoolResolves(c, MapsOf(s, e.wwn)[e.lun].dev);
  }

  /** So does an entry of a group's list. */
  lemma MapListLeadsBack(c: Config, s: State, reps: map<string, string>, e: GroupEntry)
    requires Good(c) && Inv(s) && InMapList(c, s, reps, e) && IsDev(c, MapsOf(s, reps[e.ag])[e.hLun].dev)
    ensures Resolve(c, e.pool).Ok? && MapsOf(s, reps[e.ag])[e.hLun] == Vol(Resolve(c, e.pool).value, e.vol)
    ensures forall out :: MayAnswer(c, s, Op.MapDestroy(e.pool, e.vol, e.ag), out) <==> out == Done
  {
    var v := MapsOf(s, reps[e.ag])[e.hLun];
    ListedPoolResolves(c, v.dev);
    assert v in s.acls[reps[e.ag]].maps.Values;
  }

  /** No group lists a host LUN twice. */
  predicate Distinct(l: seq<GroupEntry>) {
    forall i, j :: 0 <= i < j < |l| ==> l[i].ag != l[j].ag || l[i].hLun != l[j].hLun
  }

  /** No group lists a volume twice. */
  predicate Once(l: seq<GroupEntry>) {
    forall i, j :: 0 <= i < j < |l| ==> l[i].ag != l[j].ag || l[i].pool != l[j].pool || l[i].vol != l[j].vol
  }

  /** The names in a listing tell the devices apart. */
  lemma CanonInjective(c: Config, dev: string, dev': string)
    requires Good(c) && IsDev(c, dev) && IsDev(c, dev')
    ensures Canon(c, dev) == Canon(c, dev') <==> dev == dev'
  {
    ListedPoolResolves(c, dev);
    ListedPoolResolves(c, dev');
  }

  lemma ListedOnce(c: Config, vols: map<Vol, Kind>, t: Tree, reps: map<string, string>, l: seq<GroupEntry>)
    requires Good(c) && WellFormed(c, t) && Single(Abs(vols, t)) && Distinct(l)
    requires forall ag :: ag in reps ==> reps[ag] in Members(Abs(vols, t), ag)
    requires forall e :: e in l ==> InMapList(c, Abs(vols, t), reps, e)
    ensures Once(l)
  {
    var s := Abs(vols, t);
    forall i, j | 0 <= i < j < |l| && l[i].ag == l[j].ag
      ensures l[i].pool != l[j].pool || l[i].vol != l[j].vol
    {
      assert InMapList(c, s, reps, l[i]) && InMapList(c, s, reps, l[j]);
      var w := reps[l[i].ag];
      assert w in Members(s, l[i].ag) && w in t.acls;
      assert MapsOf(s, w) == AbsMaps(t.luns, t.acls[w].mapped);
      MapsToDevs(c, t, w, l[i].hLun);
      MapsToDevs(c, t, w, l[j].hLun);
      CanonInjective(c, MapsOf(s, w)[l[i].hLun].dev, MapsOf(s, w)[l[j].hLun].dev);
      assert Injective(MapsOf(s, w));
    }
  }

  lemma DistinctConcat(l: seq<GroupEntry>, more: seq<GroupEntry>, ag: string)
    requires Distinct(l) && Distinct(more)
    requires (forall e :: e in l ==> e.ag != ag) && (forall e :: e in more ==> e.ag == ag)
    ensures Distinct(l + more)
  {
    var all := l + more;
    forall i, j | 0 <= i < j < |all| ensures all[i].ag != all[j].ag || all[i].hLun != all[j].hLun {
      if i < |l| <= j {
        assert all[i] in l && all[j] in more;
      } else if |l| <= i {
        assert all[i] == more[i - |l|] && all[j] == more[j - |l|];
      }
    }
  }

  /** Reading a LUN's volume back from its storage object's name. */
  method NamedVolume(c: Config, t: Tree, i: nat) returns (r: (string, string))
    requires Good(c) && WellFormed(c, t) && i in t.luns
    ensures var v := VolAt(t.luns, i); r == (Canon(c, v.dev), v.name)
  {
    var so := t.luns[i];
    assert GoodObject(c, so, t.objects[so]);
    SoNameRoundTrip(c, SoVol(so));
    var mod := SoModule(c, so).value;
    return SoVolume(c, mod, so).value;
  }

  /** Reading it back from the device path, and looking the volume up. */
  method PathVolume(c: Config, vols: map<Vol, Kind>, t: Tree, i: nat) returns (r: (string, string))
    requires Good(c) && WellFormed(c, t) && i in t.luns && VolAt(t.luns, i) in vols
    ensures var v := VolAt(t.luns, i); r == (Canon(c, v.dev), v.name)
  {
    var so := t.luns[i];
    var path := t.objects[so];
    assert GoodObject(c, so, path);
    PathRoundTrip(c, SoVol(so));
    ListedPoolResolves(c, SoVol(so).dev);
    var mod := UdevModule(c, path).value;
    var parts := SplitUdev(c, mod, path).value;
    var pool := Dev2Pool(c, mod, parts.0).value;
    assert Vol(Pool2Dev(mod, pool).value, parts.1) in vols;
    return (pool, parts.1);
  }

  function EntryAt(c: Config, maps: map<int, Vol>, ag: string, h: int): GroupEntry {
    if h in maps then GroupEntry(ag, h, Canon(c, maps[h].dev), maps[h].name) else GroupEntry(ag, h, "", "")
  }

  function EntriesOf(c: Config, maps: map<int, Vol>, ag: string): map<int, GroupEntry> {
    map h | h in maps :: EntryAt(c, maps, ag, h)
  }

  predicate EntryIs<E(==)>(entries: map<int, E>, h: int, e: E) {
    h in entries && entries[h] == e
  }

  method EntryOf(c: Config, t: Tree, ag: string, rep: string, h: int) returns (e: GroupEntry)
    requires Good(c) && WellFormed(c, t) && rep in t.acls && h in t.acls[rep].mapped
    ensures EntryIs(EntriesOf(c, AbsMaps(t.luns, t.acls[rep].mapped), ag), h, e)
  {
    MappedLive(c, t, rep, h);
    var named := NamedVolume(c, t, t.acls[rep].mapped[h]);
    e := GroupEntry(ag, h, named.0, named.1);
    assert e == EntryAt(c, AbsMaps(t.luns, t.acls[rep].mapped), ag, h);
  }

  /** The list has the entry of each of the first keys, in order. */
  ghost predicate Follows<K, E>(keys: seq<K>, entries: map<K, E>, l: seq<E>) {
    |l| <= |keys| && forall j :: 0 <= j < |l| ==> keys[j] in entries && l[j] == entries[keys[j]]
  }

  lemma FollowsOn<K, E>(keys: seq<K>, entries: map<K, E>, l: seq<E>, e: E)
    requires |l| < |keys| && Follows(keys, entries, l) && keys[|l|] in entries && e == entries[keys[|l|]]
    ensures Follows(keys, entries, l + [e])
  {
  }

  ghost predicate AllIn<K, V>(keys: seq<K>, m: map<K, V>) {
    forall k :: k in keys ==> k in m
  }

  lemma AllInAt<K, V>(keys: seq<K>, m: map<K, V>, j: nat)
    requires AllIn(keys, m) && j < |keys|
    ensures keys[j] in m
  {
  }

  /** A list that runs through the keys of a map has exactly its values. */
  lemma ListOfMap<K, E>(keys: seq<K>, entries: map<K, E>, l: seq<E>)
    requires forall k :: k in keys <==> k in entries
    requires |l| == |keys| && Follows(keys, entries, l)
    ensures forall e :: e in l <==> e in entries.Values
  {
    forall e | e in entries.Values ensures e in l {
      var k := KeyOf(entries, e);
      var j :| 0 <= j < |keys| && keys[j] == k;
      assert l[j] == e;
    }
    forall e | e in l ensures e in entries.Values {
      var j :| 0 <= j < |l| && l[j] == e;
      assert keys[j] in entries;
    }
  }

  lemma DistinctByLun(hs: seq<int>, l: seq<GroupEntry>)
    requires forall i, j :: 0 <= i < j < |hs| ==> hs[i] != hs[j]
    requires |l| == |hs| && forall j :: 0 <= j < |hs| ==> l[j].hLun == hs[j]
    ensures Distinct(l)
  {
  }

  method EntriesFor(c: Config, t: Tree, ag: string, rep: string, hs: seq<int>) returns (l: seq<GroupEntry>)
    requires Good(c) && WellFormed(c, t) && rep in t.acls && AllIn(hs, t.acls[rep].mapped)
    ensures |l| == |hs| && Follows(hs, EntriesOf(c, AbsMaps(t.luns, t.acls[rep].mapped), ag), l)
  {
    l := [];
    ghost var entries := EntriesOf(c, AbsMaps(t.luns, t.acls[rep].mapped), ag);
    for k := 0 to |hs|
      invariant |l| == k && Follows(hs, entries, l)
    {
      AllInAt(hs, t.acls[rep].mapped, k);
      var e := EntryOf(c, t, ag, rep, hs[k]);
      FollowsOn(hs, entries, l, e);
      l := l + [e];
    }
  }

  method GroupEntries(c: Config, t: Tree, ag: string, rep: string) returns (l: seq<GroupEntry>)
    requires Good(c) && WellFormed(c, t) && rep in t.acls
    ensures forall e :: e in l <==> e in EntriesOf(c, AbsMaps(t.luns, t.acls[rep].mapped), ag).Values
    ensures Distinct(l)
  {
    var mapped := t.acls[rep].mapped;
    var hs := Listing(mapped.Keys);
    ghost var entries := EntriesOf(c, AbsMaps(t.luns, mapped), ag);
    l := EntriesFor(c, t, ag, rep, hs);
    ListOfMap(hs, entries, l);
    DistinctByLun(hs, l);
  }

  /** They are the group's entries in the whole list. */
  lemma EntriesListed(c: Config, s: State, ag: string, rep: string, e: GroupEntry)
    ensures e in EntriesOf(c, MapsOf(s, rep), ag).Values <==> e.ag == ag && InMapList(c, s, map[ag := rep], e)
  {
    var maps := MapsOf(s, rep);
    var entries := EntriesOf(c, maps, ag);
    if e in entries.Values {
      var h := KeyOf(entries, e);
      assert e == EntryAt(c, maps, ag, h);
    } else if e.ag == ag && e.hLun in maps {
      assert entries[e.hLun] == EntryAt(c, maps, ag, e.hLun);
    }
  }

  function ExportAt(c: Config, maps: map<int, Vol>, wwn: string, h: int): ExportEntry
    requires h in maps
  {
    ExportEntry(wwn, h, Canon(c, maps[h].dev), maps[h].name)
  }

  function ExportsOf(c: Config, maps: map<int, Vol>, wwn: string): map<int, ExportEntry> {
    map h | h in maps :: ExportAt(c, maps, wwn, h)
  }

  /** One entry of the list. */
  method ExportOn(c: Config, vols: map<Vol, Kind>, t: Tree, wwn: string, h: int) returns (e: ExportEntry)
    requires Good(c) && WellFormed(c, t) && wwn in t.acls && Inv(Abs(vols, t)) && h in t.acls[wwn].mapped
    ensures EntryIs(ExportsOf(c, AbsMaps(t.luns, t.acls[wwn].mapped), wwn), h, e)
  {
    ghost var maps := AbsMaps(t.luns, t.acls[wwn].mapped);
    assert MapsOf(Abs(vols, t), wwn) == maps && maps[h] in maps.Values;
    MappedLive(c, t, wwn, h);
    var found := PathVolume(c, vols, t, t.acls[wwn].mapped[h]);
    e := ExportEntry(wwn, h, found.0, found.1);
    assert e == ExportAt(c, maps, wwn, h);
  }

  method ExportsFor(c: Config, vols: map<Vol, Kind>, t: Tree, wwn: string, hs: seq<int>) returns (l: seq<ExportEntry>)
    requires Good(c) && WellFormed(c, t) && wwn in t.acls && Inv(Abs(vols, t)) && AllIn(hs, t.acls[wwn].mapped)
    ensures |l| == |hs| && Follows(hs, ExportsOf(c, AbsMaps(t.luns, t.acls[wwn].mapped), wwn), l)
  {
    l := [];
    ghost var entries := ExportsOf(c, AbsMaps(t.luns, t.acls[wwn].mapped), wwn);
    for k := 0 to |hs|
      invariant |l| == k && Follows(hs, entries, l)
    {
      AllInAt(hs, t.acls[wwn].mapped, k);
      var e := ExportOn(c, vols, t, wwn, hs[k]);
      FollowsOn(hs, entries, l, e);
      l := l + [e];
    }
  }

  lemma ExportsListed(c: Config, s: State, wwn: string, e: ExportEntry)
    ensures e in ExportsOf(c, MapsOf(s, wwn), wwn).Values <==> e.wwn == wwn && InExportList(c, s, e)
  {
    var maps := MapsOf(s, wwn);
    var entries := ExportsOf(c, maps, wwn);
    if e in entries.Values {
      var h := KeyOf(entries, e);
      assert e == ExportAt(c, maps, wwn, h);
    } else if e.wwn == wwn && e.lun in maps {
      assert entries[e.lun] == ExportAt(c, maps, wwn, e.lun);
    }
  }

  lemma ExportsByLun(hs: seq<int>, l: seq<ExportEntry>)
    requires forall i, j :: 0 <= i < j < |hs| ==> hs[i] != hs[j]
    requires |l| == |hs| && forall j :: 0 <= j < |hs| ==> l[j].lun == hs[j]
    ensures forall i, j :: 0 <= i < j < |l| ==> l[i].lun != l[j].lun
  {
  }

  method InitiatorEntries(c: Config, vols: map<Vol, Kind>, t: Tree, wwn: string) returns (l: seq<ExportEntry>)
    requires Good(c) && WellFormed(c, t) && wwn in t.acls && Inv(Abs(vols, t))
    ensures forall e :: e in l <==> e in ExportsOf(c, MapsOf(Abs(vols, t), wwn), wwn).Values
    ensures forall i, j :: 0 <= i < j < |l| ==> l[i].lun != l[j].lun
  {
    var mapped := t.acls[wwn].mapped;
    var hs := Listing(mapped.Keys);
    ghost var maps := AbsMaps(t.luns, mapped);
    ghost var entries := ExportsOf(c, maps, wwn);
    assert MapsOf(Abs(vols, t), wwn) == maps;
    l := ExportsFor(c, vols, t, wwn, hs);
    ListOfMap(hs, entries, l);
    ExportsByLun(hs, l);
  }

  // ----- The calls -----

  lemma MapOnMore(s: State, ms: seq<string>, k: nat, h: int, v: Vol)
    requires k < |ms| && ms[k] in s.acls && ms[k] !in ms[..k]
    ensures var s' := MapOn(s, Range(ms[..k]), h, v);
            && ms[k] in s'.acls && MapsOf(s', ms[k]) == MapsOf(s, ms[k])
            && MapOn(s', {ms[k]}, h, v) == MapOn(s, Range(ms[..k + 1]), h, v)
  {
    RangeStep(ms, k);
    var s' := MapOn(s, Range(ms[..k]), h, v);
    assert MapOn(s', {ms[k]}, h, v).acls == MapOn(s, Range(ms[..k + 1]), h, v).acls;
  }

  lemma MapOnNone(s: State, ms: seq<string>, h: int, v: Vol)
    ensures MapOn(s, Range(ms[..0]), h, v) == s
  {
    assert MapOn(s, Range(ms[..0]), h, v).acls == s.acls;
  }

  /** `h` got mapped on the first `n` of `ms`. */
  ghost predicate MappedFirst(s: State, ms: seq<string>, n: nat, h: int, v: Vol, s': State) {
    && n <= |ms| && s' == MapOn(s, Range(ms[..n]), h, v)
    && forall j :: 0 <= j < n ==> h !in MapsOf(s, ms[j])
  }

  lemma MappedNext(s: State, ms: seq<string>, n: nat, h: int, v: Vol, s': State)
    requires MappedFirst(s, ms, n, h, v, s') && n < |ms| && Range(ms) <= s.acls.Keys
    requires forall i, j :: 0 <= i < j < |ms| ==> ms[i] != ms[j]
    ensures ms[n] in s'.acls && MapsOf(s', ms[n]) == MapsOf(s, ms[n])
    ensures h !in MapsOf(s, ms[n]) ==> MappedFirst(s, ms, n + 1, h, v, MapOn(s', {ms[n]}, h, v))
  {
    assert ms[n] in Range(ms);
    MapOnMore(s, ms, n, h, v);
  }

  /** `h` got mapped on the first `n` of `ms`, and the next one refused it. */
  ghost predicate MappedUpTo(s: State, ms: seq<string>, n: nat, h: int, v: Vol, s': State) {
    MappedFirst(s, ms, n, h, v, s') && (n < |ms| ==> h in MapsOf(s, ms[n]))
  }

  lemma MappedUpToMeans(s: State, ms: seq<string>, n: nat, h: int, v: Vol, s': State)
    requires MappedUpTo(s, ms, n, h, v, s') && forall i, j :: 0 <= i < j < |ms| ==> ms[i] != ms[j]
    ensures MappedOnAll(s, Range(ms), h, v, s', if n == |ms| then Done else Failed(Refused))
  {
    if n == |ms| {
      assert ms[..n] == ms;
    } else {
      assert ms[n] in Range(ms) && ms[n] !in Range(ms[..n]);
      assert Range(ms[..n]) < Range(ms);
    }
  }

  lemma MoreGroups(c: Config, s: State, reps: map<string, string>, ag: string, rep: string)
    requires ag !in reps
    ensures forall e :: InMapList(c, s, reps[ag := rep], e)
                        <==> InMapList(c, s, reps, e) || (e.ag == ag && InMapList(c, s, map[ag := rep], e))
  {
  }

  /** Matching the listing by names is matching by volume: only the pool name can
      differ from the one that listings use. */
  lemma EntryNamesVolume(c: Config, t: Tree, w: string, h: int, pool: string, v: Vol)
    requires Good(c) && WellFormed(c, t) && w in t.acls && h in t.acls[w].mapped && Resolve(c, pool) == Ok(v.dev)
    ensures var u := AbsMaps(t.luns, t.acls[w].mapped)[h];
            Canon(c, u.dev) == pool && u.name == v.name <==> u == v && pool == Canon(c, v.dev)
  {
    MapsToDevs(c, t, w, h);
    ListedPoolResolves(c, AbsMaps(t.luns, t.acls[w].mapped)[h].dev);
  }

  method FindEntry(l: seq<GroupEntry>, ag: string, pool: string, vol: string) returns (r: bool)
    ensures r <==> exists e :: e in l && e.ag == ag && e.pool == pool && e.vol == vol
  {
    for k := 0 to |l|
      invariant forall j :: 0 <= j < k ==> !(l[j].ag == ag && l[j].pool == pool && l[j].vol == vol)
    {
      if l[k].ag == ag && l[k].pool == pool && l[k].vol == vol {
        assert l[k] in l;
        return true;
      }
    }
    return false;
  }

  lemma FoundEntry(c: Config, vols: map<Vol, Kind>, t: Tree, reps: map<string, string>,
                   ag: string, pool: string, v: Vol)
    requires Good(c) && WellFormed(c, t) && Resolve(c, pool) == Ok(v.dev)
    requires ag in reps && reps[ag] in t.acls
    ensures (exists e :: InMapList(c, Abs(vols, t), reps, e) && e.ag == ag && e.pool == pool && e.vol == v.name)
            <==> pool == Canon(c, v.dev) && v in MapsOf(Abs(vols, t), reps[ag]).Values
  {
    var maps := AbsMaps(t.luns, t.acls[reps[ag]].mapped);
    assert MapsOf(Abs(vols, t), reps[ag]) == maps;
    forall h | h in maps
      ensures Canon(c, maps[h].dev) == pool && maps[h].name == v.name <==> maps[h] == v && pool == Canon(c, v.dev)
    {
      EntryNamesVolume(c, t, reps[ag], h, pool, v);
    }
    if pool == Canon(c, v.dev) && v in maps.Values {
      var h := KeyOf(maps, v);
      assert InMapList(c, Abs(vols, t), reps, GroupEntry(ag, h, pool, v.name));
    }
  }

  function UnmapSome(t: Tree, ms: seq<string>, h: int): Tree {
    t.(acls := map w | w in t.acls ::
                 if w in ms then t.acls[w].(mapped := t.acls[w].mapped - {h}) else t.acls[w])
  }

  lemma UnmapMore(t: Tree, ms: seq<string>, k: nat, h: int)
    requires k < |ms| && ms[k] in t.acls && ms[k] !in ms[..k]
    ensures ms[k] in UnmapSome(t, ms[..k], h).acls
    ensures UnmapSome(t, ms[..k], h).DeleteMapped(ms[k], h) == UnmapSome(t, ms[..k + 1], h)
  {
    assert ms[..k + 1] == ms[..k] + [ms[k]];
    assert UnmapSome(t, ms[..k], h).DeleteMapped(ms[k], h).acls == UnmapSome(t, ms[..k + 1], h).acls;
  }

  lemma UnmapNone(t: Tree, ms: seq<string>, h: int)
    ensures UnmapSome(t, ms[..0], h) == t
  {
    assert UnmapSome(t, ms[..0], h).acls == t.acls;
  }

  lemma UnmapAll(t: Tree, ag: string, ms: seq<string>, h: int)
    requires forall w :: w in ms <==> w in t.acls && t.acls[w].tag == Some(ag)
    ensures UnmapSome(t, ms[..|ms|], h) == DropHosts(t, ag, {h})
  {
    assert ms[..|ms|] == ms;
    assert UnmapSome(t, ms, h).acls == DropHosts(t, ag, {h}).acls;
  }

  /** Deleting a mapped LUN on every member of a group. */
  method UnmapGroup(t: Tree, ag: string, ms: seq<string>, h: int) returns (t': Tree)
    requires forall w :: w in ms <==> w in t.acls && t.acls[w].tag == Some(ag)
    requires forall i, j :: 0 <= i < j < |ms| ==> ms[i] != ms[j]
    ensures t' == DropHosts(t, ag, {h})
  {
    t' := t;
    UnmapNone(t, ms, h);
    for k := 0 to |ms|
      invariant t' == UnmapSome(t, ms[..k], h)
    {
      UnmapMore(t, ms, k, h);
      t' := t'.DeleteMapped(ms[k], h);
    }
    UnmapAll(t, ag, ms, h);
  }

  /** The loop over a group's mapped LUNs, listed off its first member. */
  method UnmapVolume(t: Tree, ag: string, ms: seq<string>, i: nat) returns (t': Tree, ghost gone: set<int>)
    requires forall w :: w in ms <==> w in t.acls && t.acls[w].tag == Some(ag)
    requires ms != [] && forall i, j :: 0 <= i < j < |ms| ==> ms[i] != ms[j]
    ensures t' == DropHosts(t, ag, gone)
    ensures forall h :: h in gone <==> h in t.acls[ms[0]].mapped && t.acls[ms[0]].mapped[h] == i
  {
    var mapped := t.acls[ms[0]].mapped;
    t', gone := t, {};
    var hs := Listing(mapped.Keys);
    DropHostsTwice(t, ag, {}, 0);
    for k := 0 to |hs|
      invariant t' == DropHosts(t, ag, gone)
      invariant forall h :: h in gone ==> h in mapped && mapped[h] == i
      invariant forall j :: 0 <= j < k && mapped[hs[j]] == i ==> hs[j] in gone
      invariant forall j :: k <= j < |hs| ==> hs[j] !in gone
    {
      var rep := t'.acls[ms[0]];
      if hs[k] in rep.mapped && rep.mapped[hs[k]] == i {
        t' := UnmapGroup(t', ag, ms, hs[k]);
        DropHostsTwice(t, ag, gone, hs[k]);
        gone := gone + {hs[k]};
      }
    }
    forall h | h in mapped && mapped[h] == i ensures h in gone { assert h in hs; }
  }

  lemma LunThere(c: Config, vols: map<Vol, Kind>, t: Tree, i: nat, v: Vol)
    requires Good(c) && WellFormed(c, t) && IsDev(c, v.dev) && ':' !in v.name && i in t.luns && t.luns[i] == VolSo(v)
    ensures var s := Abs(vols, t); s.(luns := s.luns + {v}) == s
  {
    AbsHas(c, vols, t, v);
    assert t.luns[i] in t.luns.Values;
    assert Abs(vols, t).luns + {v} == Abs(vols, t).luns;
  }

  lemma NewLun(c: Config, vols: map<Vol, Kind>, t: Tree, i: nat, v: Vol)
    requires Good(c) && WellFormed(c, t) && t.tpg && IsDev(c, v.dev) && ':' !in v.name && VolSo(v) in t.objects
    requires i !in t.luns && VolSo(v) !in t.luns.Values
    ensures var t' := t.AddLun(i, VolSo(v)); var s := Abs(vols, t);
            WellFormed(c, t') && Abs(vols, t') == s.(luns := s.luns + {v})
  {
    SoNameRoundTrip(c, v);
    forall j | j in t.luns ensures t.luns[j] != VolSo(v) { assert t.luns[j] in t.luns.Values; }
    AbsAddLun(c, vols, t, i, VolSo(v));
  }

  /** The requested host LUN, or one that is free on the LUN. */
  method ChooseHostLun(t: Tree, i: nat, hLun: Option<int>) returns (r: Option<int>)
    ensures hLun.Some? ==> r == hLun
    ensures hLun.None? && r.Some? ==> 0 <= r.value <= MAX_LUN && r.value !in HostsOf(t, i)
    ensures hLun.None? && r.None? ==> forall h :: 0 <= h <= MAX_LUN ==> h in HostsOf(t, i)
  {
    if hLun.Some? { return hLun; }
    var all: set<int> := {};
    for h := 0 to MAX_LUN + 1
      invariant forall g :: g in all <==> 0 <= g < h
    {
      all := all + {h};
    }
    var free := all - HostsOf(t, i);
    if free == {} {
      forall h | 0 <= h <= MAX_LUN ensures h in HostsOf(t, i) { assert h in all && h !in free; }
      return None;
    }
    var h :| h in free;
    return Some(h);
  }

  lemma ExportsDistinct(l: seq<ExportEntry>, more: seq<ExportEntry>, wwn: string)
    requires forall i, j :: 0 <= i < j < |l| ==> l[i].wwn != l[j].wwn || l[i].lun != l[j].lun
    requires forall i, j :: 0 <= i < j < |more| ==> more[i].lun != more[j].lun
    requires (forall e :: e in l ==> e.wwn != wwn) && (forall e :: e in more ==> e.wwn == wwn)
    ensures var all := l + more;
            forall i, j :: 0 <= i < j < |all| ==> all[i].wwn != all[j].wwn || all[i].lun != all[j].lun
  {
    var all := l + more;
    forall i, j | 0 <= i < j < |all| ensures all[i].wwn != all[j].wwn || all[i].lun != all[j].lun {
      if i < |l| <= j {
        assert all[i] in l && all[j] in more;
      } else if |l| <= i {
        assert all[i] == more[i - |l|] && all[j] == more[j - |l|];
      }
    }
  }

  /** What the outside world answers while a call runs. */
  datatype Env = Env(commandOk: bool, thinOk: bool, copyEnabled: bool, sizeOk: bool, resizeOk: bool)

  class Exporter {
    const c: Config
    var vols: map<Vol, Kind>
    var tree: Tree

    /** The state the tree stands for. */
    ghost function Now(): State
      reads this
    {
      Abs(vols, tree)
    }

    ghost predicate Fits()
      reads this
    {
      && Good(c) && WellFormed(c, tree)
      && forall v :: v in vols ==> ':' !in v.name
    }

    ghost predicate Valid()
      reads this
    {
      Fits() && Inv(Now())
    }

    constructor (c: Config, vols: map<Vol, Kind>)
      requires Good(c) && forall v :: v in vols ==> ':' !in v.name
      ensures Valid() && this.c == c
      ensures Now() == State(vols, false, {}, {}, map[])
    {
      this.c := c;
      this.vols := vols;
      this.tree := Tree(false, false, map[], map[], map[]);
    }

    method GetTpg()
      requires Fits()
      modifies this`tree
      ensures Fits() && Now() == Open(old(Now())) && tree.tpg
    {
      AbsOpen(c, vols, tree);
      tree := tree.OpenTpg();
    }

    method GetNodeAcl(wwn: string)
      requires Fits() && tree.tpg
      modifies this`tree
      ensures Fits() && Now() == WithAcl(old(Now()), wwn) && tree.tpg && wwn in tree.acls
    {
      AbsWithAcl(c, vols, tree, wwn);
      tree := tree.WithNodeAcl(wwn);
    }

    /** Looking up or creating the storage object of a volume; its name must not
        contain a slash. */
    method StorageObject(v: Vol) returns (ok: bool)
      requires Fits() && IsDev(c, v.dev) && ':' !in v.name
      modifies this`tree
      ensures Fits() && tree.tpg == old(tree.tpg) && tree.luns == old(tree.luns)
      ensures ok <==> v in old(Now()).objects || '/' !in v.name
      ensures ok ==> VolSo(v) in tree.objects
      ensures Now() == if ok then old(Now()).(objects := old(Now()).objects + {v}) else old(Now())
    {
      AbsHas(c, vols, tree, v);
      if VolSo(v) in tree.objects {
        assert old(Now()).objects + {v} == old(Now()).objects;
        return true;
      }
      if '/' in v.name { return false; }
      AbsAddObject(c, vols, tree, v);
      tree := tree.AddObject(VolSo(v), DevPath(v));
      return true;
    }

    method LunOn(v: Vol) returns (i: nat)
      requires Fits() && tree.tpg && IsDev(c, v.dev) && ':' !in v.name && VolSo(v) in tree.objects
      modifies this`tree
      ensures Fits() && tree.tpg && Now() == old(Now()).(luns := old(Now()).luns + {v})
      ensures i in tree.luns && tree.luns[i] == VolSo(v)
    {
      var found := FindLun(tree, VolSo(v));
      if found.Some? {
        LunThere(c, vols, tree, found.value, v);
        return found.value;
      }
      SomeIdFree(tree.luns.Keys, |tree.luns.Keys| + 1);
      i :| i !in tree.luns;
      assert VolSo(v) !in tree.luns.Values;
      NewLun(c, vols, tree, i, v);
      tree := tree.AddLun(i, VolSo(v));
    }

    /** The LUN found or made stands for the volume that `LunOf` finds. */
    ghost predicate LunFound(found: Result<Vol, Failure>, r: Result<nat, Failure>)
      reads this
    {
      match found
      case Err(e) => r == Err(e)
      case Ok(v) => r.Ok? && r.value in tree.luns && tree.luns[r.value] == VolSo(v) && VolAt(tree.luns, r.value) == v
    }

    method TpgLunOf(pool: string, vol: string) returns (r: Result<nat, Failure>)
      requires Fits() && tree.tpg
      modifies this`tree
      ensures Fits() && tree.tpg && Now() == LunOf(c, old(Now()), pool, vol).1
      ensures LunFound(LunOf(c, old(Now()), pool, vol).0, r)
    {
      var mod := PoolModule(c, pool);
      if mod.None? { return Err(InvalidPool); }
      var dev := Pool2Dev(mod.value, pool);
      if dev.None? { return Err(Unexpected); }
      var v := Vol(dev.value, vol);
      if v !in vols { return Err(Unexpected); }
      PoolResolves(c, pool, mod.value, dev.value);
      var so := SoName(mod.value, pool, vol);
      assert so == VolSo(v);
      var ok := StorageObject(v);
      if !ok { return Err(Refused); }
      var i := LunOn(v);
      SoNameRoundTrip(c, v);
      return Ok(i);
    }

    /** Looking for, and otherwise creating, one mapped LUN of a NodeACL; a host
        LUN that is taken is refused. */
    method MappedLun(wwn: string, h: int, i: nat) returns (ok: bool)
      requires Fits() && wwn in tree.acls && i in tree.luns
      modifies this`tree
      ensures Fits() && tree.tpg == old(tree.tpg) && tree.luns == old(tree.luns)
      ensures ok <==> h !in MapsOf(old(Now()), wwn)
      ensures Now() == if ok then MapOn(old(Now()), {wwn}, h, VolAt(tree.luns, i)) else old(Now())
    {
      if h in tree.acls[wwn].mapped { return false; }
      AbsAddMapped(c, vols, tree, wwn, h, i);
      tree := tree.AddMapped(wwn, h, i);
      return true;
    }

    /** Deleting a LUN that nobody maps, with its storage object. */
    method DropIfUnused(i: nat)
      requires Fits() && i in tree.luns
      modifies this`tree
      ensures Fits() && tree.tpg == old(tree.tpg) && tree.acls.Keys == old(tree.acls).Keys
      ensures Now() == DropLunIfUnused(old(Now()), VolAt(old(tree.luns), i))
    {
      AbsUsed(c, vols, tree, i);
      if !AnyMapped(tree, i) {
        AbsDropLun(c, vols, tree, i);
        var so := tree.luns[i];
        tree := tree.DeleteLun(i);
        tree := tree.DeleteObject(so);
      }
    }

    /** Cleaning up a branch of the tree that has no leaf left. */
    method TidyUp(wwn: string)
      requires Fits() && tree.tpg && wwn in tree.acls
      modifies this`tree
      ensures Fits() && Now() == Tidy(old(Now()), wwn)
    {
      AbsTidy(c, vols, tree, wwn);
      if tree.acls[wwn].mapped == map[] {
        tree := tree.DeleteAcl(wwn);
        if tree.acls == map[] {
          tree := tree.DeleteTpg();
          tree := tree.DeleteTarget();
        }
      }
    }

    method DropAcl(wwn: string)
      requires Fits()
      modifies this`tree
      ensures Fits() && tree == old(tree).DeleteAcl(wwn)
      ensures Now() == old(Now()).(acls := old(Now()).acls - {wwn})
    {
      AbsDeleteAcl(c, vols, tree, wwn);
      tree := tree.DeleteAcl(wwn);
    }

    method ExportCreate(pool: string, vol: string, wwn: string, lun: int) returns (out: Outcome)
      requires Fits()
      modifies this`tree
      ensures Fits() && (Now(), out) == ExportCreated(c, old(Now()), pool, vol, wwn, lun)
    {
      GetTpg();
      GetNodeAcl(wwn);
      var r := TpgLunOf(pool, vol);
      if r.Err? { return Failed(r.error); }
      assert wwn in Now().acls;
      out := MapUnlessThere(wwn, lun, r.value);
    }

    /** The search among the LUN's mapped LUNs, and the new one if it finds none. */
    method MapUnlessThere(wwn: string, lun: int, i: nat) returns (out: Outcome)
      requires Fits() && wwn in tree.acls && i in tree.luns
      modifies this`tree
      ensures Fits()
      ensures var s, v := old(Now()), VolAt(old(tree.luns), i);
              if lun in MapsOf(s, wwn)
              then Now() == s && out == if MapsOf(s, wwn)[lun] == v then Done else Failed(Refused)
              else Now() == MapOn(s, {wwn}, lun, v) && out == Done
    {
      AbsMapsServe(c, tree, tree.acls[wwn].mapped, i);
      assert MapsOf(Now(), wwn) == AbsMaps(tree.luns, tree.acls[wwn].mapped);
      var found := FindMapped(tree, wwn, lun, i);
      if found { return Done; }
      var ok := MappedLun(wwn, lun, i);
      return if ok then Done else Failed(Refused);
    }

    method ExportDestroy(pool: string, vol: string, wwn: string) returns (out: Outcome)
      requires Fits()
      modifies this`tree
      ensures Fits() && ExportDestroyed(c, old(Now()), pool, vol, wwn, Now(), out)
    {
      var mod := PoolModule(c, pool);
      if mod.None? { return Failed(InvalidPool); }
      GetTpg();
      GetNodeAcl(wwn);
      var dev := Pool2Dev(mod.value, pool);
      if dev.None? { return Failed(Unexpected); }
      PoolResolves(c, pool, mod.value, dev.value);
      var h := ExportOf(c, tree, wwn, mod.value, Vol(dev.value, vol));
      assert MapsOf(Now(), wwn) == AbsMaps(tree.luns, tree.acls[wwn].mapped);
      DestroyedBy(c, old(Now()), pool, vol, wwn, h);
      if h.None? { return Failed(NotFoundExport); }
      DropExport(wwn, h.value);
      return Done;
    }

    /** Deleting one mapped LUN with its cascade. */
    method DropExport(wwn: string, h: int)
      requires Fits() && tree.tpg && wwn in tree.acls && h in tree.acls[wwn].mapped
      modifies this`tree
      ensures Fits() && Now() == ExportDropped(old(Now()), wwn, h, MapsOf(old(Now()), wwn)[h])
    {
      MappedLive(c, tree, wwn, h);
      var i := tree.acls[wwn].mapped[h];
      AbsDeleteMapped(c, vols, tree, wwn, h);
      tree := tree.DeleteMapped(wwn, h);
      DropIfUnused(i);
      TidyUp(wwn);
    }

    // ----- Access groups -----

    method GroupMembers(ag: string) returns (ms: seq<string>)
      requires Fits()
      ensures Range(ms) == Members(Now(), ag)
      ensures forall w :: w in ms <==> w in tree.acls && tree.acls[w].tag == Some(ag)
      ensures forall i, j :: 0 <= i < j < |ms| ==> ms[i] != ms[j]
    {
      AbsMembers(vols, tree, ag);
      ms := Listing(set w | w in tree.acls && tree.acls[w].tag == Some(ag));
    }

    /** Adding a new NodeACL to a group copies the mapped LUNs of some member. */
    method AddAcl(ag: string, wwn: string)
      requires Fits() && tree.tpg && wwn !in tree.acls
      modifies this`tree
      ensures Fits()
      ensures var s := old(Now());
              if Members(s, ag) == {} then Now() == s.(acls := s.acls[wwn := Acl(Some(ag), map[])])
              else exists m :: m in Members(s, ag) && Now() == s.(acls := s.acls[wwn := s.acls[m]])
    {
      var ms := GroupMembers(ag);
      var mapped: map<int, nat> := map[];
      if |ms| > 0 {
        assert ms[0] in Range(ms);
        mapped := CopyMapped(tree.acls[ms[0]].mapped);
        assert AbsAcl(tree.luns, tree.acls[ms[0]]) == Now().acls[ms[0]];
      } else {
        assert Range(ms) == {} && AbsMaps(tree.luns, mapped) == map[];
      }
      AbsSetAcl(c, vols, tree, wwn, NodeAcl(Some(ag), mapped));
      tree := tree.(acls := tree.acls[wwn := NodeAcl(Some(ag), mapped)]);
    }

    method GroupCreate(ag: string, wwn: string, initType: string) returns (out: Outcome)
      requires Fits()
      modifies this`tree
      ensures Fits() && (Now(), out) == GroupCreated(old(Now()), ag, wwn, initType)
    {
      if initType != "iscsi" { return Failed(NoSupport); }
      if !NameCheck(ag) { return Failed(IllegalName); }
      GetTpg();
      var ms := GroupMembers(ag);
      assert |ms| > 0 ==> ms[0] in Range(ms);
      if |ms| > 0 { return Failed(NameConflict); }
      assert Range(ms) == {};
      if wwn in tree.acls { return Failed(ExistsInitiator); }
      AddAcl(ag, wwn);
      return Done;
    }

    method GroupDestroy(ag: string) returns (out: Outcome)
      requires Fits()
      modifies this`tree
      ensures Fits() && Now() == Open(old(Now())).(acls := old(Now()).acls - Members(old(Now()), ag)) && out == Done
    {
      GetTpg();
      ghost var s := Now();
      var ms := GroupMembers(ag);
      for k := 0 to |ms|
        invariant Fits() && Now() == s.(acls := s.acls - Range(ms[..k]))
      {
        DropAcl(ms[k]);
        RangeStep(ms, k);
        assert s.acls - Range(ms[..k]) - {ms[k]} == s.acls - Range(ms[..k + 1]);
      }
      assert ms[..|ms|] == ms;
      return Done;
    }

    method GroupAdd(ag: string, wwn: string, initType: string) returns (out: Outcome)
      requires Fits()
      modifies this`tree
      ensures Fits() && GroupAdded(old(Now()), ag, wwn, initType, Now(), out)
    {
      if initType != "iscsi" { return Failed(NoSupport); }
      GetTpg();
      assert wwn in Members(Now(), ag) <==> wwn in tree.acls && tree.acls[wwn].tag == Some(ag) by {
        AbsMembers(vols, tree, ag);
      }
      if wwn in tree.acls && tree.acls[wwn].tag == Some(ag) { return Done; }
      if wwn in tree.acls { return Failed(ExistsInitiator); }
      AddAcl(ag, wwn);
      return Done;
    }

    method GroupDel(ag: string, wwn: string, initType: string) returns (out: Outcome)
      requires Fits()
      modifies this`tree
      ensures Fits() && (Now(), out) == GroupDeled(old(Now()), ag, wwn, initType)
    {
      if initType != "iscsi" { return Failed(NoSupport); }
      GetTpg();
      AbsMembers(vols, tree, ag);
      if wwn in tree.acls && tree.acls[wwn].tag == Some(ag) {
        DropAcl(wwn);
      }
      return Done;
    }

    // ----- Group mappings -----

    /** Mapping a host LUN on the members of a group, one after the other, up to the
        first that refuses it. */
    method MapEach(ms: seq<string>, h: int, i: nat) returns (n: nat)
      requires Fits() && i in tree.luns && Range(ms) <= Now().acls.Keys
      requires forall i, j :: 0 <= i < j < |ms| ==> ms[i] != ms[j]
      modifies this`tree
      ensures Fits() && n <= |ms|
      ensures MappedUpTo(old(Now()), ms, n, h, VolAt(old(tree.luns), i), Now())
    {
      ghost var s, v := Now(), VolAt(tree.luns, i);
      n := 0;
      MapOnNone(s, ms, h, v);
      while n < |ms|
        invariant Fits() && tree.luns == old(tree.luns) && MappedFirst(s, ms, n, h, v, Now())
      {
        MappedNext(s, ms, n, h, v, Now());
        var ok := MappedLun(ms[n], h, i);
        if !ok { return; }
        n := n + 1;
      }
    }

    /** `mapped_lun_group` */
    method MappedLunGroup(ag: string, h: int, i: nat) returns (ok: bool)
      requires Fits() && i in tree.luns
      modifies this`tree
      ensures Fits()
      ensures MappedOnAll(old(Now()), Members(old(Now()), ag), h, VolAt(old(tree.luns), i), Now(),
                          if ok then Done else Failed(Refused))
    {
      var ms := GroupMembers(ag);
      var n := MapEach(ms, h, i);
      MappedUpToMeans(old(Now()), ms, n, h, VolAt(old(tree.luns), i), Now());
      ok := n == |ms|;
    }

    /** The mappings of one group, read off some member. */
    method GroupPart(ag: string) returns (more: seq<GroupEntry>, ghost rep: string)
      requires Fits() && exists w :: w in tree.acls && tree.acls[w].tag == Some(ag)
      ensures rep in Members(Now(), ag)
      ensures forall e :: e in more <==> e.ag == ag && InMapList(c, Now(), map[ag := rep], e)
      ensures Distinct(more)
    {
      var ms := GroupMembers(ag);
      var first := ms[0];
      rep := first;
      assert first in Range(ms);
      more := GroupEntries(c, tree, ag, first);
      assert MapsOf(Now(), rep) == AbsMaps(tree.luns, tree.acls[rep].mapped);
      forall e ensures e in more <==> e.ag == ag && InMapList(c, Now(), map[ag := rep], e) {
        EntriesListed(c, Now(), ag, rep, e);
      }
    }

    /** `access_group_map_list`; none of the look-ups in it can fail. */
    method GroupMapList() returns (l: seq<GroupEntry>, ghost reps: map<string, string>)
      requires Fits()
      ensures forall ag :: ag in reps ==> reps[ag] in Members(Now(), ag)
      ensures forall ag :: Members(Now(), ag) != {} ==> ag in reps
      ensures forall e :: e in l <==> InMapList(c, Now(), reps, e)
      ensures Distinct(l) && (Single(Now()) ==> Once(l))
    {
      l, reps := [], map[];
      var groups := Listing(set w | w in tree.acls && tree.acls[w].tag.Some? :: tree.acls[w].tag.value);
      for k := 0 to |groups|
        invariant forall j :: 0 <= j < k ==> groups[j] in reps
        invariant forall ag :: ag in reps ==> ag in groups[..k] && reps[ag] in Members(Now(), ag)
        invariant forall e :: e in l <==> InMapList(c, Now(), reps, e)
        invariant Distinct(l)
      {
        var ag := groups[k];
        assert ag in groups && ag !in groups[..k];
        var more, rep := GroupPart(ag);
        MoreGroups(c, Now(), reps, ag, rep);
        DistinctConcat(l, more, ag);
        assert groups[..k + 1] == groups[..k] + [ag];
        l, reps := l + more, reps[ag := rep];
      }
      forall ag | Members(Now(), ag) != {} ensures ag in groups {
        AbsMembers(vols, tree, ag);
        var w :| w in Members(Now(), ag);
      }
      if Single(Now()) { ListedOnce(c, vols, tree, reps, l); }
    }

    /** The check for a mapping that is already there, by a search of the list. */
    method AlreadyMapped(pool: string, v: Vol, ag: string, i: nat) returns (r: bool, ghost rep: string)
      requires Fits() && i in tree.luns && VolAt(tree.luns, i) == v && Resolve(c, pool) == Ok(v.dev)
      ensures Members(Now(), ag) != {} ==> rep in Members(Now(), ag)
      ensures r <==> Members(Now(), ag) != {} && pool == Canon(c, v.dev) && v in MapsOf(Now(), rep).Values
    {
      r, rep := false, "";
      AbsUsed(c, vols, tree, i);
      if AnyMapped(tree, i) {
        var l, reps := GroupMapList();
        r := FindEntry(l, ag, pool, v.name);
        if ag in reps {
          rep := reps[ag];
          FoundEntry(c, vols, tree, reps, ag, pool, v);
        }
      } else if Members(Now(), ag) != {} {
        rep :| rep in Members(Now(), ag);
      }
    }

    method MapCreate(pool: string, vol: string, ag: string, hLun: Option<int>) returns (out: Outcome)
      requires Fits()
      modifies this`tree
      ensures Fits() && MapCreated(c, old(Now()), pool, vol, ag, hLun, Now(), out)
    {
      GetTpg();
      ghost var s0 := Now();
      var r := TpgLunOf(pool, vol);
      if r.Err? { return Failed(r.error); }
      var i := r.value;
      ghost var s, v := Now(), VolAt(tree.luns, i);
      assert Members(s, ag) == Members(old(Now()), ag);
      out := MapNew(pool, v, ag, hLun, i);
    }

    /** The part after the LUN is there. */
    method MapNew(pool: string, ghost v: Vol, ag: string, hLun: Option<int>, i: nat) returns (out: Outcome)
      requires Fits() && i in tree.luns && VolAt(tree.luns, i) == v && Resolve(c, pool) == Ok(v.dev)
      modifies this`tree
      ensures Fits()
      ensures var s := old(Now());
              if Members(s, ag) == {} then Now() == s && out == Failed(NotFoundGroup)
              else exists rep :: rep in Members(s, ag) && MapCreatedBy(c, s, pool, v, ag, hLun, rep, Now(), out)
    {
      ghost var s := Now();
      var already, rep := AlreadyMapped(pool, VolAt(tree.luns, i), ag, i);
      if already { return Done; }
      var ms := GroupMembers(ag);
      assert |ms| > 0 ==> ms[0] in Range(ms);
      if |ms| == 0 { return Failed(NotFoundGroup); }
      AbsHostsOf(c, vols, tree, i);
      var h := ChooseHostLun(tree, i, hLun);
      if h.None? {
        assert MapCreatedBy(c, s, pool, v, ag, hLun, rep, s, Failed(NoFreeHostLun));
        return Failed(NoFreeHostLun);
      }
      var ok := MappedLunGroup(ag, h.value, i);
      out := if ok then Done else Failed(Refused);
      assert MapCreatedBy(c, s, pool, v, ag, hLun, rep, Now(), out);
    }

    method MapDestroy(pool: string, vol: string, ag: string) returns (out: Outcome)
      requires Fits()
      modifies this`tree
      ensures Fits() && MapDestroyed(c, old(Now()), pool, vol, ag, Now(), out)
    {
      GetTpg();
      var r := TpgLunOf(pool, vol);
      if r.Err? { return Failed(r.error); }
      var i := r.value;
      ghost var s := Now();
      assert Members(s, ag) == Members(old(Now()), ag);
      var ms := GroupMembers(ag);
      if |ms| == 0 {
        assert Range(ms) == {};
      } else {
        assert ms[0] in Range(ms);
        var t, gone := UnmapVolume(tree, ag, ms, i);
        AbsDropHosts(c, vols, tree, ag, gone, ms[0], i);
        tree := t;
      }
      DropIfUnused(i);
      return Done;
    }

    // ----- Listings -----

    /** `export_list`: exactly the relation, each entry once. No look-up in it can
        fail, because no mapping leads to a missing volume. */
    method ExportList() returns (l: seq<ExportEntry>)
      requires Valid()
      ensures forall e :: e in l <==> InExportList(c, Now(), e)
      ensures forall i, j :: 0 <= i < j < |l| ==> l[i].wwn != l[j].wwn || l[i].lun != l[j].lun
    {
      l := [];
      if !tree.target || !tree.tpg { return; }
      var ws := Listing(tree.acls.Keys);
      for k := 0 to |ws|
        invariant forall e :: e in l <==> e.wwn in ws[..k] && InExportList(c, Now(), e)
        invariant forall i, j :: 0 <= i < j < |l| ==> l[i].wwn != l[j].wwn || l[i].lun != l[j].lun
      {
        var more := InitiatorEntries(c, vols, tree, ws[k]);
        forall e ensures e in more <==> e.wwn == ws[k] && InExportList(c, Now(), e) {
          ExportsListed(c, Now(), ws[k], e);
        }
        assert ws[k] !in ws[..k] && ws[..k + 1] == ws[..k] + [ws[k]];
        ExportsDistinct(l, more, ws[k]);
        l := l + more;
      }
      assert ws[..|ws|] == ws;
    }

    // ----- Volumes -----

    method VolCreate(pool: string, vol: string, env: Env) returns (out: Outcome)
      requires Fits()
      modifies this`vols
      ensures Fits() && VolCreated(c, old(Now()), pool, vol, Now(), out)
      ensures out == Done <==> env.commandOk && MaySucceed(c, old(Now()), Op.VolCreate(pool, vol))
      ensures out == Done ==> (vols[Vol(Resolve(c, pool).value, vol)] == Linear <==>
                                 !InZfs(c, pool) && (ThinOf(pool) == "" || !env.thinOk))
    {
      var dev := Resolve(c, pool);
      if dev.Err? { return Failed(dev.error); }
      if Listed(c, vols, pool, vol) { return Failed(NameConflict); }
      var zfs := BackendOf(c, dev.value).Zfs?;
      if zfs && !DatasetCheck(vol) { return Failed(IllegalName); }
      // The back end refuses names in use and names outside its alphabet.
      if !env.commandOk || Vol(dev.value, vol) in vols || ':' in vol { return Failed(Unexpected); }
      var kind := if zfs then Zvol else if ThinOf(pool) != "" && env.thinOk then Thin(ThinOf(pool)) else Linear;
      vols := vols[Vol(dev.value, vol) := kind];
      return Done;
    }

    method VolDestroy(pool: string, vol: string, env: Env) returns (out: Outcome)
      requires Fits()
      modifies this`vols
      ensures Fits() && VolDestroyed(c, old(Now()), pool, vol, Now(), out)
      ensures out == Done <==> env.commandOk && MaySucceed(c, old(Now()), Op.VolDestroy(pool, vol))
    {
      var dev := Resolve(c, pool);
      if dev.Err? { return Failed(dev.error); }
      if !Listed(c, vols, pool, vol) { return Failed(NotFoundVolume); }
      var mod := PoolModule(c, pool).value;
      PoolResolves(c, pool, mod, dev.value);
      var v := Vol(dev.value, vol);
      AbsHas(c, vols, tree, v);
      if tree.target && tree.tpg && SoName(mod, pool, vol) in tree.luns.Values { return Failed(VolumeMasked); }
      if mod.Zfs? && !DatasetCheck(vol) { return Failed(IllegalName); }
      if !env.commandOk { return Failed(Unexpected); }
      vols := vols - {v};
      return Done;
    }

    method VolCopy(pool: string, vol: string, copy: string, env: Env) returns (out: Outcome)
      requires Fits()
      modifies this`vols
      ensures Fits() && VolCopied(c, old(Now()), pool, vol, copy, Now(), out)
      ensures var zfs := InZfs(c, pool);
        && (out == Done <==>
              && MaySucceed(c, old(Now()), Op.VolCopy(pool, vol, copy))
              && env.sizeOk && env.commandOk && if zfs then env.copyEnabled else env.resizeOk)
        && (out == Failed(InvalidArgument) <==> !env.sizeOk && Listed(c, old(vols), pool, vol))
        && (out == Failed(NoSupport) <==> env.sizeOk && !env.copyEnabled && zfs && Listed(c, old(vols), pool, vol))
    {
      var dev := Resolve(c, pool);
      if dev.Err? { return Failed(dev.error); }
      if !Listed(c, vols, pool, vol) { return Failed(NotFoundVolume); }
      if !env.sizeOk { return Failed(InvalidArgument); }
      var v := Vol(dev.value, copy);
      if BackendOf(c, dev.value).Zfs? {
        if !env.copyEnabled { return Failed(NoSupport); }
        if !DatasetCheck(vol) || !DatasetCheck(copy) { return Failed(IllegalName); }
        if v in vols { return Failed(NameConflict); }
        if !env.commandOk || ':' in copy { return Failed(Unexpected); }
        vols := vols[v := Zvol];
        return Done;
      }
      if Listed(c, vols, pool, copy) { return Failed(NameConflict); }
      if ThinOf(pool) == "" { return Failed(Unexpected); }
      if !env.commandOk || v in vols || ':' in copy { return Failed(Unexpected); }
      vols := vols[v := Thin(ThinOf(pool))];
      // The new volume stays when growing it fails.
      return if env.resizeOk then Done else Failed(Unexpected);
    }

    // ----- Dispatch -----

    /** `initiator_set_auth` up to its credentials. */
    method SetAuth(wwn: string)
      requires Fits()
      modifies this`tree
      ensures Fits() && Now() == WithAcl(Open(old(Now())), wwn)
    {
      GetTpg();
      GetNodeAcl(wwn);
    }

    method DispatchVolume(op: Op, env: Env) returns (out: Outcome)
      requires Fits() && (op.VolCreate? || op.VolDestroy? || op.VolCopy?)
      modifies this
      ensures Fits() && Next(c, old(Now()), op, Now(), out)
    {
      match op {
        case VolCreate(pool, vol) => out := VolCreate(pool, vol, env);
        case VolDestroy(pool, vol) => out := VolDestroy(pool, vol, env);
        case VolCopy(pool, vol, copy) => out := VolCopy(pool, vol, copy, env);
      }
    }

    method DispatchGroup(op: Op) returns (out: Outcome)
      requires Valid() && (op.GroupCreate? || op.GroupDestroy? || op.GroupAdd? || op.GroupDel?)
      modifies this
      ensures Fits() && Next(c, old(Now()), op, Now(), out)
    {
      match op {
        case GroupCreate(ag, wwn, initType) => out := GroupCreate(ag, wwn, initType);
        case GroupDestroy(ag) => out := GroupDestroy(ag);
        case GroupAdd(ag, wwn, initType) => out := GroupAdd(ag, wwn, initType);
        case GroupDel(ag, wwn, initType) => out := GroupDel(ag, wwn, initType);
      }
    }

    method DispatchExport(op: Op) returns (out: Outcome)
      requires Valid() && !op.VolCreate? && !op.VolDestroy? && !op.VolCopy?
      requires !op.GroupCreate? && !op.GroupDestroy? && !op.GroupAdd? && !op.GroupDel?
      modifies this
      ensures Fits() && Next(c, old(Now()), op, Now(), out)
    {
      match op {
        case ExportCreate(pool, vol, wwn, lun) => out := ExportCreate(pool, vol, wwn, lun);
        case ExportDestroy(pool, vol, wwn) => out := ExportDestroy(pool, vol, wwn);
        case SetAuth(wwn) => SetAuth(wwn); out := Done;
        case Query => GetTpg(); out := Done;
        case MapCreate(pool, vol, ag, hLun) => out := MapCreate(pool, vol, ag, hLun);
        case MapDestroy(pool, vol, ag) => out := MapDestroy(pool, vol, ag);
      }
    }

    /** One request: whatever is called, the tree makes one step of the abstract
        machine and the invariant holds again. */
    method Call(op: Op, env: Env) returns (out: Outcome)
      requires Valid()
      modifies this
      ensures Valid() && Next(c, old(Now()), op, Now(), out)
    {
      ghost var s := Now();
      if op.VolCreate? || op.VolDestroy? || op.VolCopy? {
        out := DispatchVolume(op, env);
      } else if op.GroupCreate? || op.GroupDestroy? || op.GroupAdd? || op.GroupDel? {
        out := DispatchGroup(op);
      } else {
        out := DispatchExport(op);
      }
      NextKeepsInv(c, s, op, Now(), out);
    }
  }
}
