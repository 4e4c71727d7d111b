/** The kernel target's configuration tree as the code sees it through its
    library: names and numbers, no volumes. The functions are the assumed
    behaviour of the library; `Abs` reads the abstract state off a tree, and the
    lemmas say what each step of the library does to it. */
module Lio {
  import opened Wrappers
  import opened Naming
  import opened Exports

  datatype NodeAcl = NodeAcl(tag: Option<string>, mapped: map<int, nat>)

  datatype Tree = Tree(
    target: bool,
    tpg: bool,
    objects: map<string, string>,    // storage object name -> device path
    luns: map<nat, string>,          // TPG LUN number -> storage object name
    acls: map<string, NodeAcl>)      // initiator -> host LUN -> TPG LUN number
  {
    /** Looking up or creating the Target and its TPG. */
    function OpenTpg(): Tree {
      this.(target := true, tpg := true)
    }

    function WithNodeAcl(wwn: string): Tree {
      if wwn in acls then this else this.(acls := acls[wwn := NodeAcl(None, map[])])
    }

    function DeleteAcl(wwn: string): Tree {
      this.(acls := acls - {wwn})
    }

    function AddObject(so: string, path: string): Tree {
      this.(objects := objects[so := path])
    }

    function DeleteObject(so: string): Tree {
      this.(objects := objects - {so})
    }

    function AddLun(i: nat, so: string): Tree {
      this.(luns := luns[i := so])
    }

    /** Deleting a LUN deletes the mapped LUNs that refer to it. */
    function DeleteLun(i: nat): Tree {
      this.(luns := luns - {i},
            acls := map w | w in acls ::
                      acls[w].(mapped := map h | h in acls[w].mapped && acls[w].mapped[h] != i :: acls[w].mapped[h]))
    }

    function AddMapped(wwn: string, h: int, i: nat): Tree
      requires wwn in acls
    {
      this.(acls := acls[wwn := acls[wwn].(mapped := acls[wwn].mapped[h := i])])
    }

    function DeleteMapped(wwn: string, h: int): Tree
      requires wwn in acls
    {
      this.(acls := acls[wwn := acls[wwn].(mapped := acls[wwn].mapped - {h})])
    }

    /** Deleting a TPG deletes its LUNs and NodeACLs, not the storage objects. */
    function DeleteTpg(): Tree {
      this.(tpg := false, luns := map[], acls := map[])
    }

    function DeleteTarget(): Tree {
      this.(target := false)
    }
  }

  /** A LUN has mapped LUNs. */
  predicate AnyMapped(t: Tree, i: nat) {
    exists w :: w in t.acls && i in t.acls[w].mapped.Values
  }

  // ----- Well-formed trees and what they mean -----

  /** A storage object made by `_tpg_lun_of`. */
  predicate GoodObject(c: Config, so: string, path: string) {
    var v := SoVol(so);
    IsDev(c, v.dev) && '/' !in v.name && ':' !in v.name && VolSo(v) == so && path == DevPath(v)
  }

  predicate GoodObjects(c: Config, objects: map<string, string>) {
    forall so :: so in objects ==> GoodObject(c, so, objects[so])
  }

  /** Mapped LUNs refer to live LUNs. */
  predicate AclsFit(acls: map<string, NodeAcl>, live: set<nat>) {
    forall w :: w in acls ==> acls[w].mapped.Values <= live
  }

  /** LUNs refer to live storage objects, each to its own. */
  predicate LunsFit(luns: map<nat, string>, objects: map<string, string>) {
    && (forall i :: i in luns ==> luns[i] in objects)
    && (forall i, j :: i in luns && j in luns && luns[i] == luns[j] ==> i == j)
  }

  predicate WellFormed(c: Config, t: Tree) {
    && t.tpg == t.target
    && (!t.tpg ==> t.luns == map[] && t.acls == map[])
    && AclsFit(t.acls, t.luns.Keys) && LunsFit(t.luns, t.objects) && GoodObjects(c, t.objects)
  }

  function VolAt(luns: map<nat, string>, i: nat): Vol {
    if i in luns then SoVol(luns[i]) else Vol("", "")
  }

  function AbsMaps(luns: map<nat, string>, mapped: map<int, nat>): map<int, Vol> {
    map h | h in mapped :: VolAt(luns, mapped[h])
  }

  function AbsAcl(luns: map<nat, string>, acl: NodeAcl): Acl {
    Acl(acl.tag, AbsMaps(luns, acl.mapped))
  }

  function AbsAcls(luns: map<nat, string>, acls: map<string, NodeAcl>): map<string, Acl> {
    map w | w in acls :: AbsAcl(luns, acls[w])
  }

  function AbsVols(names: set<string>): set<Vol> {
    set so | so in names :: SoVol(so)
  }

  function Abs(vols: map<Vol, Kind>, t: Tree): State {
    State(vols, t.target, AbsVols(t.objects.Keys), AbsVols(t.luns.Values), AbsAcls(t.luns, t.acls))
  }

  // ----- The steps of the library, seen from above -----

  lemma NamesDistinct(c: Config, objects: map<string, string>, a: string, b: string)
    requires GoodObjects(c, objects) && a in objects && b in objects
    ensures SoVol(a) == SoVol(b) <==> a == b
  {
    assert GoodObject(c, a, objects[a]) && GoodObject(c, b, objects[b]);
  }

  lemma AbsVolsPlus(names: set<string>, so: string)
    ensures AbsVols(names + {so}) == AbsVols(names) + {SoVol(so)}
  {
  }

  lemma AbsVolsMinus(c: Config, objects: map<string, string>, names: set<string>, so: string)
    requires GoodObjects(c, objects) && so in objects && names <= objects.Keys
    ensures AbsVols(names - {so}) == AbsVols(names) - {SoVol(so)}
  {
    forall a | a in names ensures SoVol(a) == SoVol(so) <==> a == so { NamesDistinct(c, objects, a, so); }
  }

  lemma AbsHas(c: Config, vols: map<Vol, Kind>, t: Tree, v: Vol)
    requires WellFormed(c, t) && Good(c) && IsDev(c, v.dev) && ':' !in v.name
    ensures v in Abs(vols, t).objects <==> VolSo(v) in t.objects
    ensures v in Abs(vols, t).luns <==> VolSo(v) in t.luns.Values
  {
    SoNameRoundTrip(c, v);
    forall so | so in t.objects && SoVol(so) == v ensures so == VolSo(v) {
      assert GoodObject(c, so, t.objects[so]);
    }
    forall so | so in t.luns.Values ensures so in t.objects {
      var i :| i in t.luns && t.luns[i] == so;
    }
  }

  lemma AbsOpen(c: Config, vols: map<Vol, Kind>, t: Tree)
    requires WellFormed(c, t)
    ensures WellFormed(c, t.OpenTpg()) && Abs(vols, t.OpenTpg()) == Open(Abs(vols, t))
  {
  }

  lemma AbsSetAcl(c: Config, vols: map<Vol, Kind>, t: Tree, wwn: string, acl: NodeAcl)
    requires WellFormed(c, t) && t.tpg && acl.mapped.Values <= t.luns.Keys
    ensures var t' := t.(acls := t.acls[wwn := acl]); var s := Abs(vols, t);
            WellFormed(c, t') && Abs(vols, t') == s.(acls := s.acls[wwn := AbsAcl(t.luns, acl)])
  {
    var t' := t.(acls := t.acls[wwn := acl]);
    assert AbsAcls(t.luns, t'.acls) == AbsAcls(t.luns, t.acls)[wwn := AbsAcl(t.luns, acl)];
  }

  lemma AbsWithAcl(c: Config, vols: map<Vol, Kind>, t: Tree, wwn: string)
    requires WellFormed(c, t) && t.tpg
    ensures WellFormed(c, t.WithNodeAcl(wwn)) && Abs(vols, t.WithNodeAcl(wwn)) == WithAcl(Abs(vols, t), wwn)
  {
    var acl := NodeAcl(None, map[]);
    AbsSetAcl(c, vols, t, wwn, acl);
    assert AbsMaps(t.luns, acl.mapped) == map[];
  }

  lemma AbsDeleteAcl(c: Config, vols: map<Vol, Kind>, t: Tree, wwn: string)
    requires WellFormed(c, t)
    ensures var t' := t.DeleteAcl(wwn); var s := Abs(vols, t);
            WellFormed(c, t') && Abs(vols, t') == s.(acls := s.acls - {wwn})
  {
    assert AbsAcls(t.luns, t.acls - {wwn}) == AbsAcls(t.luns, t.acls) - {wwn};
  }

  lemma AbsAclsKeys(luns: map<nat, string>, acls: map<string, NodeAcl>)
    ensures AbsAcls(luns, acls).Keys == acls.Keys
    ensures AbsAcls(luns, acls) == map[] <==> acls == map[]
  {
    if acls != map[] {
      var w :| w in acls;
      assert w in AbsAcls(luns, acls);
    }
  }

  lemma AbsAddMapped(c: Config, vols: map<Vol, Kind>, t: Tree, wwn: string, h: int, i: nat)
    requires WellFormed(c, t) && wwn in t.acls && h !in t.acls[wwn].mapped && i in t.luns
    ensures var t' := t.AddMapped(wwn, h, i);
            WellFormed(c, t') && Abs(vols, t') == MapOn(Abs(vols, t), {wwn}, h, VolAt(t.luns, i))
  {
    var s := Abs(vols, t);
    var acl := t.acls[wwn].(mapped := t.acls[wwn].mapped[h := i]);
    assert acl.mapped.Values <= t.acls[wwn].mapped.Values + {i};
    AbsSetAcl(c, vols, t, wwn, acl);
    AbsMapsPlus(t.luns, t.acls[wwn].mapped, h, i);
    MapOnOne(s, wwn, h, VolAt(t.luns, i));
  }

  lemma AbsMapsPlus(luns: map<nat, string>, mapped: map<int, nat>, h: int, i: nat)
    ensures AbsMaps(luns, mapped[h := i]) == AbsMaps(luns, mapped)[h := VolAt(luns, i)]
  {
  }

  lemma MapOnOne(s: State, wwn: string, h: int, v: Vol)
    requires wwn in s.acls && h !in s.acls[wwn].maps
    ensures MapOn(s, {wwn}, h, v) == s.(acls := s.acls[wwn := s.acls[wwn].(maps := s.acls[wwn].maps[h := v])])
  {
    assert MapOn(s, {wwn}, h, v).acls == s.acls[wwn := s.acls[wwn].(maps := s.acls[wwn].maps[h := v])];
  }

  lemma FewerMapped(acls: map<string, NodeAcl>, live: set<nat>, wwn: string, hs: set<int>)
    requires AclsFit(acls, live) && wwn in acls
    ensures (acls[wwn].mapped - hs).Values <= live
  {
    forall i | i in (acls[wwn].mapped - hs).Values ensures i in acls[wwn].mapped.Values {}
  }

  lemma AbsDeleteMapped(c: Config, vols: map<Vol, Kind>, t: Tree, wwn: string, h: int)
    requires WellFormed(c, t) && wwn in t.acls
    ensures var t' := t.DeleteMapped(wwn, h); var s := Abs(vols, t);
            && WellFormed(c, t')
            && Abs(vols, t') == s.(acls := s.acls[wwn := s.acls[wwn].(maps := s.acls[wwn].maps - {h})])
  {
    var acl := t.acls[wwn].(mapped := t.acls[wwn].mapped - {h});
    FewerMapped(t.acls, t.luns.Keys, wwn, {h});
    AbsSetAcl(c, vols, t, wwn, acl);
    AbsMapsMinus(t.luns, t.acls[wwn].mapped, {h});
  }

  lemma AbsAddObject(c: Config, vols: map<Vol, Kind>, t: Tree, v: Vol)
    requires WellFormed(c, t) && Good(c) && IsDev(c, v.dev) && '/' !in v.name && ':' !in v.name
    requires VolSo(v) !in t.objects
    ensures var t' := t.AddObject(VolSo(v), DevPath(v)); var s := Abs(vols, t);
            WellFormed(c, t') && Abs(vols, t') == s.(objects := s.objects + {v})
  {
    SoNameRoundTrip(c, v);
    AbsVolsPlus(t.objects.Keys, VolSo(v));
    var t' := t.AddObject(VolSo(v), DevPath(v));
    assert t'.objects.Keys == t.objects.Keys + {VolSo(v)};
    assert GoodObject(c, VolSo(v), DevPath(v));
  }

  lemma AbsAclsKept(luns: map<nat, string>, luns': map<nat, string>, acls: map<string, NodeAcl>)
    requires forall w, h :: w in acls && h in acls[w].mapped ==>
               var i := acls[w].mapped[h]; i in luns && i in luns' && luns[i] == luns'[i]
    ensures AbsAcls(luns', acls) == AbsAcls(luns, acls)
  {
    forall w | w in acls ensures AbsAcl(luns', acls[w]) == AbsAcl(luns, acls[w]) {
      forall h | h in acls[w].mapped ensures VolAt(luns', acls[w].mapped[h]) == VolAt(luns, acls[w].mapped[h]) {}
      assert AbsMaps(luns', acls[w].mapped) == AbsMaps(luns, acls[w].mapped);
    }
  }

  lemma MappedLive(c: Config, t: Tree, w: string, h: int)
    requires WellFormed(c, t) && w in t.acls && h in t.acls[w].mapped
    ensures t.acls[w].mapped[h] in t.luns
  {
    assert t.acls[w].mapped[h] in t.acls[w].mapped.Values;
  }

  lemma ValuesPlus(m: map<nat, string>, i: nat, so: string)
    requires i !in m
    ensures m[i := so].Values == m.Values + {so}
  {
    var m' := m[i := so];
    assert m'[i] == so;
    forall a | a in m.Values ensures a in m'.Values {
      var j :| j in m && m[j] == a;
      assert m'[j] == a;
    }
  }

  lemma ValuesMinus(m: map<nat, string>, i: nat)
    requires i in m && forall j :: j in m && m[j] == m[i] ==> j == i
    ensures (m - {i}).Values == m.Values - {m[i]}
  {
    var m' := m - {i};
    forall a | a in m.Values - {m[i]} ensures a in m'.Values {
      var j :| j in m && m[j] == a;
      assert j in m' && m'[j] == a;
    }
  }

  lemma AddLunFits(t: Tree, i: nat, so: string)
    requires AclsFit(t.acls, t.luns.Keys) && LunsFit(t.luns, t.objects) && so in t.objects
    requires i !in t.luns && forall j :: j in t.luns ==> t.luns[j] != so
    ensures AclsFit(t.acls, t.luns[i := so].Keys) && LunsFit(t.luns[i := so], t.objects)
  {
    assert t.luns.Keys <= t.luns[i := so].Keys;
  }

  lemma AbsAddLun(c: Config, vols: map<Vol, Kind>, t: Tree, i: nat, so: string)
    requires WellFormed(c, t) && t.tpg && so in t.objects
    requires i !in t.luns && forall j :: j in t.luns ==> t.luns[j] != so
    ensures var t' := t.AddLun(i, so); var s := Abs(vols, t);
            WellFormed(c, t') && Abs(vols, t') == s.(luns := s.luns + {SoVol(so)})
  {
    AddLunFits(t, i, so);
    AbsVolsPlus(t.luns.Values, so);
    ValuesPlus(t.luns, i, so);
    forall w, h | w in t.acls && h in t.acls[w].mapped ensures t.acls[w].mapped[h] in t.luns { MappedLive(c, t, w, h); }
    AbsAclsKept(t.luns, t.luns[i := so], t.acls);
  }

  lemma AbsUsed(c: Config, vols: map<Vol, Kind>, t: Tree, i: nat)
    requires WellFormed(c, t) && i in t.luns
    ensures AnyMapped(t, i) <==> Used(Abs(vols, t), VolAt(t.luns, i))
  {
    forall w | w in t.acls
      ensures i in t.acls[w].mapped.Values <==> VolAt(t.luns, i) in AbsMaps(t.luns, t.acls[w].mapped).Values
    {
      AbsMapsServe(c, t, t.acls[w].mapped, i);
    }
    if AnyMapped(t, i) {
      var w :| w in t.acls && i in t.acls[w].mapped.Values;
      assert w in Abs(vols, t).acls && Abs(vols, t).acls[w].maps == AbsMaps(t.luns, t.acls[w].mapped);
    }
  }

  lemma AbsMapsServe(c: Config, t: Tree, mapped: map<int, nat>, i: nat)
    requires WellFormed(c, t) && i in t.luns && mapped.Values <= t.luns.Keys
    ensures i in mapped.Values <==> VolAt(t.luns, i) in AbsMaps(t.luns, mapped).Values
    ensures forall h :: h in mapped ==> (AbsMaps(t.luns, mapped)[h] == VolAt(t.luns, i) <==> mapped[h] == i)
  {
    var maps := AbsMaps(t.luns, mapped);
    forall h | h in mapped ensures maps[h] == VolAt(t.luns, i) <==> mapped[h] == i {
      assert mapped[h] in mapped.Values;
      NamesDistinct(c, t.objects, t.luns[mapped[h]], t.luns[i]);
    }
  }

  lemma UnmappedLunGoes(t: Tree, i: nat)
    requires !AnyMapped(t, i)
    ensures t.DeleteLun(i) == t.(luns := t.luns - {i})
  {
    forall w | w in t.acls ensures t.DeleteLun(i).acls[w] == t.acls[w] {
      assert i !in t.acls[w].mapped.Values;
      assert t.DeleteLun(i).acls[w].mapped == t.acls[w].mapped;
    }
    assert t.DeleteLun(i).acls == t.acls;
  }

  /** Deleting an unmapped LUN and then its storage object. */
  lemma AbsDropLun(c: Config, vols: map<Vol, Kind>, t: Tree, i: nat)
    requires WellFormed(c, t) && i in t.luns && !AnyMapped(t, i)
    ensures var t' := t.DeleteLun(i).DeleteObject(t.luns[i]);
            WellFormed(c, t') && Abs(vols, t') == DropLunIfUnused(Abs(vols, t), VolAt(t.luns, i))
  {
    var so := t.luns[i];
    UnmappedLunGoes(t, i);
    AbsUsed(c, vols, t, i);
    ValuesMinus(t.luns, i);
    AbsVolsMinus(c, t.objects, t.luns.Values, so);
    AbsVolsMinus(c, t.objects, t.objects.Keys, so);
    assert (t.objects - {so}).Keys == t.objects.Keys - {so};
    forall w, h | w in t.acls && h in t.acls[w].mapped ensures t.acls[w].mapped[h] in t.luns - {i} {
      MappedLive(c, t, w, h);
      assert i !in t.acls[w].mapped.Values;
    }
    AbsAclsKept(t.luns, t.luns - {i}, t.acls);
    GoodObjectsMinus(c, t.objects, so);
    DropLunFits(c, t, i);
  }

  lemma DropLunFits(c: Config, t: Tree, i: nat)
    requires WellFormed(c, t) && i in t.luns && !AnyMapped(t, i) && GoodObjects(c, t.objects - {t.luns[i]})
    ensures WellFormed(c, t.(luns := t.luns - {i}).DeleteObject(t.luns[i]))
  {
    LiveAclsFit(t, i);
    OtherLunsFit(t.luns, t.objects, i);
  }

  lemma LiveAclsFit(t: Tree, i: nat)
    requires AclsFit(t.acls, t.luns.Keys) && !AnyMapped(t, i)
    ensures AclsFit(t.acls, (t.luns - {i}).Keys)
  {
    forall w | w in t.acls ensures t.acls[w].mapped.Values <= (t.luns - {i}).Keys {
      assert i !in t.acls[w].mapped.Values;
    }
  }

  lemma OtherLunsFit(luns: map<nat, string>, objects: map<string, string>, i: nat)
    requires LunsFit(luns, objects) && i in luns
    ensures LunsFit(luns - {i}, objects - {luns[i]})
  {
  }

  lemma GoodObjectsMinus(c: Config, objects: map<string, string>, so: string)
    requires GoodObjects(c, objects)
    ensures GoodObjects(c, objects - {so})
  {
  }

  lemma AbsDeleteTpg(c: Config, vols: map<Vol, Kind>, t: Tree)
    requires WellFormed(c, t) && t.acls == map[]
    ensures var t' := t.DeleteTpg().DeleteTarget(); var s := Abs(vols, t);
            WellFormed(c, t') && Abs(vols, t') == s.(target := false, luns := {})
  {
    assert AbsAcls(t.luns, map[]) == map[];
  }

  lemma AbsBare(t: Tree, vols: map<Vol, Kind>, wwn: string)
    requires wwn in t.acls
    ensures MapsOf(Abs(vols, t), wwn) == map[] <==> t.acls[wwn].mapped == map[]
  {
    var mapped := t.acls[wwn].mapped;
    assert AbsMaps(t.luns, mapped).Keys == mapped.Keys;
    assert mapped.Keys == {} ==> mapped == map[];
  }

  /** The branch clean-up, step by step as it happens. */
  lemma AbsTidy(c: Config, vols: map<Vol, Kind>, t: Tree, wwn: string)
    requires WellFormed(c, t) && t.tpg && wwn in t.acls
    ensures var t1 := t.DeleteAcl(wwn); var t' := t1.DeleteTpg().DeleteTarget(); var s' := Tidy(Abs(vols, t), wwn);
            if t.acls[wwn].mapped != map[] then Abs(vols, t) == s'
            else if t1.acls != map[] then WellFormed(c, t1) && Abs(vols, t1) == s'
            else WellFormed(c, t') && Abs(vols, t') == s'
  {
    AbsBare(t, vols, wwn);
    if t.acls[wwn].mapped == map[] {
      var t1 := t.DeleteAcl(wwn);
      AbsDeleteAcl(c, vols, t, wwn);
      AbsAclsKeys(t1.luns, t1.acls);
      if t1.acls == map[] { AbsDeleteTpg(c, vols, t1); }
    }
  }

  /** `h` deleted, on every member of a group, for each `h` in `hs`. */
  function DropHosts(t: Tree, ag: string, hs: set<int>): Tree {
    t.(acls := map w | w in t.acls ::
                 if t.acls[w].tag == Some(ag) then t.acls[w].(mapped := t.acls[w].mapped - hs) else t.acls[w])
  }

  lemma DropHostsTwice(t: Tree, ag: string, hs: set<int>, h: int)
    ensures DropHosts(DropHosts(t, ag, hs), ag, {h}) == DropHosts(t, ag, hs + {h})
    ensures DropHosts(t, ag, {}) == t
  {
    forall w | w in t.acls ensures t.acls[w].mapped - {} == t.acls[w].mapped {}
    assert DropHosts(t, ag, {}).acls == t.acls;
    forall w | w in t.acls ensures t.acls[w].mapped - hs - {h} == t.acls[w].mapped - (hs + {h}) {}
    assert DropHosts(DropHosts(t, ag, hs), ag, {h}).acls == DropHosts(t, ag, hs + {h}).acls;
  }

  lemma AbsDropHosts(c: Config, vols: map<Vol, Kind>, t: Tree, ag: string, hs: set<int>, rep: string, i: nat)
    requires WellFormed(c, t) && rep in t.acls && i in t.luns
    requires forall h :: h in hs <==> h in t.acls[rep].mapped && t.acls[rep].mapped[h] == i
    ensures WellFormed(c, DropHosts(t, ag, hs))
    ensures Abs(vols, DropHosts(t, ag, hs)) == Unmapped(Abs(vols, t), ag, rep, VolAt(t.luns, i))
  {
    var s, s' := Abs(vols, t), Unmapped(Abs(vols, t), ag, rep, VolAt(t.luns, i));
    DropHostsFits(c, t, ag, hs);
    assert MapsOf(s, rep) == AbsMaps(t.luns, t.acls[rep].mapped);
    AbsLunsFor(c, t, t.acls[rep].mapped, i, hs);
    AbsDroppedAcls(t, ag, hs);
    assert s'.acls == DroppedFrom(s.acls, ag, hs);
  }

  /** The host LUNs `hs` removed from the members of a group. */
  function DroppedFrom(acls: map<string, Acl>, ag: string, hs: set<int>): map<string, Acl> {
    map w | w in acls :: if acls[w].tag == Some(ag) then acls[w].(maps := acls[w].maps - hs) else acls[w]
  }

  lemma AbsDroppedAcls(t: Tree, ag: string, hs: set<int>)
    ensures AbsAcls(t.luns, DropHosts(t, ag, hs).acls) == DroppedFrom(AbsAcls(t.luns, t.acls), ag, hs)
  {
    forall w | w in t.acls
      ensures AbsAcl(t.luns, DropHosts(t, ag, hs).acls[w]) == DroppedFrom(AbsAcls(t.luns, t.acls), ag, hs)[w]
    {
      AbsMapsMinus(t.luns, t.acls[w].mapped, hs);
    }
  }

  lemma AbsLunsFor(c: Config, t: Tree, mapped: map<int, nat>, i: nat, hs: set<int>)
    requires WellFormed(c, t) && i in t.luns && mapped.Values <= t.luns.Keys
    requires forall h :: h in hs <==> h in mapped && mapped[h] == i
    ensures LunsFor(AbsMaps(t.luns, mapped), VolAt(t.luns, i)) == hs
  {
    AbsMapsServe(c, t, mapped, i);
    SameLuns(AbsMaps(t.luns, mapped), VolAt(t.luns, i), mapped, i, hs);
  }

  lemma SameLuns(maps: map<int, Vol>, v: Vol, mapped: map<int, nat>, i: nat, hs: set<int>)
    requires maps.Keys == mapped.Keys
    requires forall h :: h in mapped ==> (maps[h] == v <==> mapped[h] == i)
    requires forall h :: h in hs <==> h in mapped && mapped[h] == i
    ensures LunsFor(maps, v) == hs
  {
    forall h ensures h in LunsFor(maps, v) <==> h in hs {
      assert h in maps <==> h in mapped;
    }
  }

  lemma DropHostsFits(c: Config, t: Tree, ag: string, hs: set<int>)
    requires WellFormed(c, t)
    ensures WellFormed(c, DropHosts(t, ag, hs))
  {
    forall w | w in t.acls ensures (t.acls[w].mapped - hs).Values <= t.luns.Keys {
      FewerMapped(t.acls, t.luns.Keys, w, hs);
    }
  }

  lemma AbsMapsMinus(luns: map<nat, string>, mapped: map<int, nat>, hs: set<int>)
    ensures AbsMaps(luns, mapped - hs) == AbsMaps(luns, mapped) - hs
  {
  }

  lemma AbsMembers(vols: map<Vol, Kind>, t: Tree, ag: string)
    ensures Members(Abs(vols, t), ag) == set w | w in t.acls && t.acls[w].tag == Some(ag)
  {
  }

  /** The host LUNs at which a LUN is mapped by anyone. */
  function HostsOf(t: Tree, i: nat): set<int> {
    set w, h | w in t.acls && h in t.acls[w].mapped && t.acls[w].mapped[h] == i :: h
  }

  lemma AbsHostsOf(c: Config, vols: map<Vol, Kind>, t: Tree, i: nat)
    requires WellFormed(c, t) && i in t.luns
    ensures LunsOnVol(Abs(vols, t), VolAt(t.luns, i)) == HostsOf(t, i)
  {
    var s, v := Abs(vols, t), VolAt(t.luns, i);
    forall w, h | w in t.acls && h in t.acls[w].mapped
      ensures s.acls[w].maps[h] == v <==> t.acls[w].mapped[h] == i
    {
      AbsMapsServe(c, t, t.acls[w].mapped, i);
    }
    forall h | h in HostsOf(t, i) ensures h in LunsOnVol(s, v) {
      var w :| w in t.acls && h in t.acls[w].mapped && t.acls[w].mapped[h] == i;
      assert w in s.acls && h in s.acls[w].maps && s.acls[w].maps[h] == v;
    }
    forall h | h in LunsOnVol(s, v) ensures h in HostsOf(t, i) {
      var w :| w in s.acls && h in s.acls[w].maps && s.acls[w].maps[h] == v;
      assert w in t.acls && h in t.acls[w].mapped && t.acls[w].mapped[h] == i;
    }
  }

  /** Every mapping leads to a device of the configuration. */
  lemma MapsToDevs(c: Config, t: Tree, w: string, h: int)
    requires WellFormed(c, t) && w in t.acls && h in t.acls[w].mapped
    ensures IsDev(c, AbsMaps(t.luns, t.acls[w].mapped)[h].dev)
  {
    MappedLive(c, t, w, h);
    var so := t.luns[t.acls[w].mapped[h]];
    assert GoodObject(c, so, t.objects[so]);
  }
}
