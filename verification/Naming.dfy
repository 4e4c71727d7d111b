/** How volumes are named: pool names, device paths and storage object names of
    the two back ends, and the search for the back end that owns a name. */
module Naming {
  import opened Wrappers
  import opened Strings

  datatype Backend = Zfs | Lvm

  /** The configured pools. An LVM pool is `vg` or `vg/thinpool`. */
  datatype Config = Config(lvm: seq<string>, zfs: seq<string>)

  /** A volume by its device: a volume group or a ZFS pool, and a name in it. */
  datatype Vol = Vol(dev: string, name: string)

  datatype Error = Invalid | NotFoundVolumeGroup | Unpack

  // ----- Pools -----

  /** `get_vg_lv(pool)[0]` */
  function VgOf(pool: string): string {
    Split(pool, '/')[0]
  }

  /** The thin pool part, absent or empty for a plain volume group. */
  function ThinOf(pool: string): string {
    var parts := Split(pool, '/');
    if |parts| == 2 then parts[1] else ""
  }

  function Vgs(c: Config): set<string> {
    set p | p in c.lvm :: VgOf(p)
  }

  /** The ZFS module is asked first. */
  function PoolModule(c: Config, pool: string): Option<Backend> {
    if pool in c.zfs then Some(Zfs)
    else if VgOf(pool) in Vgs(c) then Some(Lvm)
    else None
  }

  /** `pool2dev_name`; `None` is the unpacking error of a pool with two slashes. */
  function Pool2Dev(b: Backend, pool: string): Option<string> {
    if b.Zfs? then Some(pool)
    else if |Split(pool, '/')| <= 2 then Some(VgOf(pool))
    else None
  }

  /** `dev2pool_name` of the LVM module: the last configured pool of the group. */
  function LastPool(pools: seq<string>, vg: string): Option<string> {
    if pools == [] then None
    else if VgOf(pools[|pools| - 1]) == vg then Some(pools[|pools| - 1])
    else LastPool(pools[..|pools| - 1], vg)
  }

  function Dev2Pool(c: Config, b: Backend, dev: string): Option<string> {
    if b.Zfs? then Some(dev) else LastPool(c.lvm, dev)
  }

  predicate IsDev(c: Config, dev: string) {
    dev in c.zfs || dev in Vgs(c)
  }

  function BackendOf(c: Config, dev: string): Backend {
    if dev in c.zfs then Zfs else Lvm
  }

  // ----- Storage object names -----

  /** `get_so_name` of either back end. */
  function SoName(b: Backend, pool: string, name: string): string {
    (if b.Zfs? then Replace(pool, '/', '%') else VgOf(pool)) + ":" + name
  }

  /** The storage object name that both back ends give a volume. */
  function VolSo(v: Vol): string {
    Replace(v.dev, '/', '%') + ":" + v.name
  }

  /** The volume that a storage object name denotes. */
  function SoVol(so: string): Vol {
    var parts := Split(so, ':');
    Vol(Replace(parts[0], '%', '/'), parts[|parts| - 1])
  }

  /** `has_so_name`, for a name that splits into two parts. */
  predicate HasSo(c: Config, b: Backend, pool: string) {
    if b.Zfs? then Replace(pool, '%', '/') in c.zfs else VgOf(pool) in Vgs(c)
  }

  /** `so_name_module`; `None` is any of its exceptions. */
  function SoModule(c: Config, so: string): Option<Backend> {
    var parts := Split(so, ':');
    if |parts| != 2 then None
    else if HasSo(c, Zfs, parts[0]) then Some(Zfs)
    else if HasSo(c, Lvm, parts[0]) then Some(Lvm)
    else None
  }

  /** `so_name2pool_volume`; `None` is any of its exceptions. */
  function SoVolume(c: Config, b: Backend, so: string): Option<(string, string)> {
    var parts := Split(so, ':');
    if |parts| != 2 then None
    else match Dev2Pool(c, b, if b.Zfs? then Replace(parts[0], '%', '/') else parts[0])
      case None => None
      case Some(pool) => Some((pool, parts[1]))
  }

  // ----- Device paths -----

  function DevPath(v: Vol): string {
    "/dev/" + v.dev + "/" + v.name
  }

  /** The part of a path after its second slash, `path.split("/", 2)[2]`. */
  function AfterTwo(path: string): Option<string> {
    var parts := Split(path, '/');
    if |parts| < 3 then None else Some(Join(parts[2..], '/'))
  }

  /** The first pool whose name and a slash start the data set name. */
  function FindPool(pools: seq<string>, dataset: string): Option<string> {
    if pools == [] then None
    else if pools[0] + "/" <= dataset then Some(pools[0])
    else FindPool(pools[1..], dataset)
  }

  /** `split_udev_path` unpacked into two; `None` is any of the three exceptions
      that `has_udev_path` catches. */
  function SplitUdev(c: Config, b: Backend, path: string): Option<(string, string)> {
    match b
    case Zfs => (
      match AfterTwo(path)
      case None => None
      case Some(dataset) =>
        match FindPool(c.zfs, dataset)
        case None => None
        case Some(p) => FindPoolIsPrefix(c.zfs, dataset); Some((p, dataset[|p| + 1..]))
    )
    case Lvm =>
      var parts := Split(path, '/');
      if |parts| == 4 then Some((parts[2], parts[3])) else None
  }

  predicate HasUdev(c: Config, b: Backend, path: string) {
    match SplitUdev(c, b, path)
    case None => false
    case Some((dev, _)) => b.Zfs? || VgOf(dev) in Vgs(c)
  }

  function UdevModule(c: Config, path: string): Option<Backend> {
    if HasUdev(c, Zfs, path) then Some(Zfs)
    else if HasUdev(c, Lvm, path) then Some(Lvm)
    else None
  }

  // ----- Configuration -----

  predicate NoNesting(pools: seq<string>) {
    forall p, q :: p in pools && q in pools ==> !(p + "/" <= q)
  }

  /** One LVM pool passes `check_pools_access`; `found` are the pools that exist. */
  predicate LvmPoolFits(pools: seq<string>, found: set<string>, pool: string) {
    && |Split(pool, '/')| <= 2
    && pool in found
    && (ThinOf(pool) != "" ==> VgOf(pool) !in pools)
  }

  /** No slash stands behind another. */
  predicate OneSlash(s: string) {
    forall i, j :: 0 <= i < j < |s| && s[i] == '/' ==> s[j] != '/'
  }

  function ThinPool(vg: string, thin: string): string {
    vg + "/" + thin
  }

  /** A thin pool beside the volume group that it is in. */
  ghost predicate Mixed(pools: seq<string>, pool: string) {
    exists vg, thin :: pool == ThinPool(vg, thin) && thin != "" && vg in pools
  }

  /** Why a pool is refused. */
  ghost predicate PoolFault(pools: seq<string>, found: set<string>, pool: string, e: Error) {
    match e
    case Unpack => !OneSlash(pool)
    case NotFoundVolumeGroup => OneSlash(pool) && pool !in found
    case Invalid => OneSlash(pool) && pool in found && Mixed(pools, pool)
  }

  /** What `block.initialize` accepts. */
  predicate Accepted(c: Config, found: set<string>) {
    && (forall p :: p in c.lvm ==> p !in c.zfs)
    && (forall p :: p in c.zfs ==> ':' !in p && p in found)
    && NoNesting(c.zfs)
    && (forall p :: p in c.lvm ==> LvmPoolFits(c.lvm, found, p))
  }

  /** The naming rules of LVM and ZFS themselves, where the code relies on them. */
  predicate LegalNames(c: Config) {
    && (forall p :: p in c.zfs ==> '%' !in p)
    && (forall p :: p in c.lvm ==> '%' !in VgOf(p) && ':' !in VgOf(p))
  }

  /** No volume group is named like a ZFS pool. The code checks this for whole
      pool names only. */
  predicate Separate(c: Config) {
    forall vg :: vg in Vgs(c) ==> vg !in c.zfs
  }

  ghost predicate Good(c: Config) {
    (exists found :: Accepted(c, found)) && LegalNames(c) && Separate(c)
  }

  /** The search loop of the ZFS `split_udev_path`. */
  method SplitZfsPath(pools: seq<string>, path: string) returns (r: Option<(string, string)>)
    ensures r == SplitUdev(Config([], pools), Zfs, path)
  {
    var parts := Split(path, '/');
    if |parts| < 3 { return None; }
    var dataset := Join(parts[2..], '/');
    for i := 0 to |pools|
      invariant FindPool(pools, dataset) == FindPool(pools[i..], dataset)
    {
      if pools[i] + "/" <= dataset {
        return Some((pools[i], dataset[|pools[i]| + 1..]));
      }
    }
    return None;
  }

  /** `initialize` of the LVM module with its pool check: the dictionary from
      volume groups to pools, or the exception. */
  method InitializeLvm(pools: seq<string>, found: set<string>) returns (r: Result<map<string, string>, Error>)
    ensures r.Ok? <==> forall p :: p in pools ==> p in found && OneSlash(p) && !Mixed(pools, p)
    ensures r.Err? ==> exists i :: 0 <= i < |pools| && PoolFault(pools, found, pools[i], r.error)
                                   && forall j :: 0 <= j < i ==> LvmPoolFits(pools, found, pools[j])
    ensures r.Ok? ==> r.value.Keys == Vgs(Config(pools, []))
    ensures r.Ok? ==> forall vg :: vg in r.value ==> LastPool(pools, vg) == Some(r.value[vg])
  {
    for i := 0 to |pools|
      invariant forall j :: 0 <= j < i ==> LvmPoolFits(pools, found, pools[j])
    {
      var pool := pools[i];
      assert pool in pools;
      PoolFitsExact(pools, found, pool);
      if |Split(pool, '/')| > 2 { return Err(Unpack); }
      if pool !in found { return Err(NotFoundVolumeGroup); }
      if ThinOf(pool) != "" && VgOf(pool) in pools { return Err(Invalid); }
    }
    forall p | p in pools ensures p in found && OneSlash(p) && !Mixed(pools, p) {
      PoolFitsExact(pools, found, p);
    }
    var dict: map<string, string> := map[];
    for i := 0 to |pools|
      invariant dict.Keys == Vgs(Config(pools[..i], []))
      invariant forall vg :: vg in dict ==> LastPool(pools[..i], vg) == Some(dict[vg])
    {
      assert pools[..i + 1][..i] == pools[..i];
      assert forall p :: p in pools[..i + 1] <==> p in pools[..i] || p == pools[i];
      dict := dict[VgOf(pools[i]) := pools[i]];
    }
    assert pools[..|pools|] == pools;
    return Ok(dict);
  }

  /** `block.initialize` with both pool checks; the dictionary is that of the LVM module. */
  method Initialize(c: Config, found: set<string>) returns (r: Result<map<string, string>, Error>)
    ensures r.Ok? <==>
      && (forall p :: p in c.lvm ==> p !in c.zfs && p in found && OneSlash(p) && !Mixed(c.lvm, p))
      && (forall p :: p in c.zfs ==> p in found && ':' !in p)
      && (forall p, q :: p in c.zfs && q in c.zfs ==> !(p + "/" <= q))
    ensures r.Ok? <==> Accepted(c, found)
  {
    forall p | p in c.lvm ensures LvmPoolFits(c.lvm, found, p) <==> p in found && OneSlash(p) && !Mixed(c.lvm, p) {
      PoolFitsExact(c.lvm, found, p);
    }
    if exists p :: p in c.lvm && p in c.zfs { return Err(Invalid); }
    if exists p, q :: p in c.zfs && q in c.zfs && p + "/" <= q { return Err(Invalid); }
    if exists p :: p in c.zfs && ':' in p { return Err(Invalid); }
    for i := 0 to |c.zfs|
      invariant forall j :: 0 <= j < i ==> c.zfs[j] in found
    {
      assert c.zfs[i] in c.zfs;
      if c.zfs[i] !in found { return Err(Invalid); }
    }
    r := InitializeLvm(c.lvm, found);
  }

  // ----- Pool lists -----

  lemma SplitTwo(a: string, b: string)
    requires '/' !in a
    ensures |Split(ThinPool(a, b), '/')| <= 2 <==> '/' !in b
    ensures '/' !in b ==> Split(ThinPool(a, b), '/') == [a, b]
  {
    SplitAt(a, b, '/');
    SplitAlone(b, '/');
  }

  /** A pool name is a group, or a group, a slash and the rest. */
  lemma PoolForm(pool: string) returns (vg: string, rest: string)
    ensures '/' !in vg && VgOf(pool) == vg
    ensures '/' in pool ==> pool == ThinPool(vg, rest)
    ensures '/' !in pool ==> pool == vg
  {
    if '/' !in pool {
      SplitPlain(pool, '/');
      vg, rest := pool, "";
    } else {
      vg, rest := FirstSlash(pool);
      SplitAt(vg, rest, '/');
    }
  }

  lemma {:induction false} FirstSlash(s: string) returns (a: string, b: string)
    requires '/' in s
    ensures s == ThinPool(a, b) && '/' !in a
  {
    if s[0] == '/' {
      a, b := "", s[1..];
    } else {
      a, b := FirstSlash(s[1..]);
      a := [s[0]] + a;
    }
  }

  /** The group of a pool is what stands before its first slash. */
  lemma GroupIsHead(pool: string, vg: string)
    ensures VgOf(pool) == vg <==> '/' !in vg && (pool == vg || vg + "/" <= pool)
  {
    VgHasNoSlash(pool);
    var head, rest := PoolForm(pool);
    if '/' in pool { assert head + "/" <= pool; }
    if '/' !in vg {
      if pool == vg {
        SplitPlain(pool, '/');
      } else if vg + "/" <= pool {
        var tail := pool[|vg| + 1..];
        assert pool == vg + "/" + tail;
        SplitAt(vg, tail, '/');
      }
    }
  }

  /** The listed pool of a group is the last one that is configured. */
  lemma {:induction false} LastPoolExact(pools: seq<string>, vg: string, pool: string)
    ensures LastPool(pools, vg) == Some(pool)
      <==> exists i :: 0 <= i < |pools| && pools[i] == pool && LastIn(pools, vg, i)
  {
    if pools != [] {
      var n := |pools| - 1;
      LastInNext(pools, vg);
      if VgOf(pools[n]) == vg {
        assert LastIn(pools, vg, n);
      } else {
        LastPoolExact(pools[..n], vg, pool);
        if i :| 0 <= i < n && pools[..n][i] == pool && LastIn(pools[..n], vg, i) {
          assert pools[i] == pool && LastIn(pools, vg, i);
        }
      }
    }
  }

  /** The pool at `i` is of the group, and none behind it is. */
  predicate LastIn(pools: seq<string>, vg: string, i: nat)
    requires i < |pools|
  {
    VgOf(pools[i]) == vg && forall j :: i < j < |pools| ==> VgOf(pools[j]) != vg
  }

  lemma LastInNext(pools: seq<string>, vg: string)
    requires pools != []
    ensures var n := |pools| - 1; forall i :: 0 <= i < n ==>
      (LastIn(pools, vg, i) <==> LastIn(pools[..n], vg, i) && VgOf(pools[n]) != vg)
  {
  }

  /** How the names look, with a group's thin pool and with a nested ZFS pool. */
  lemma NamesLookLike(a: string, b: string, name: string)
    requires '/' !in a && '/' !in b
    ensures SoName(Lvm, a, name) == SoName(Lvm, ThinPool(a, b), name) == a + ":" + name
    ensures SoName(Zfs, a + "/" + b, name) == a + "%" + b + ":" + name
    ensures DevPath(Vol(a, name)) == "/dev/" + a + "/" + name
  {
    SplitPlain(a, '/');
    SplitTwo(a, b);
    assert Replace(a + "/" + b, '/', '%') == a + "%" + b;
  }

  lemma OneSlashParts(vg: string, rest: string)
    requires '/' !in vg
    ensures OneSlash(ThinPool(vg, rest)) <==> '/' !in rest
  {
    var pool := ThinPool(vg, rest);
    assert pool[|vg|] == '/' && forall j :: 0 <= j < |rest| ==> pool[|vg| + 1 + j] == rest[j];
    assert forall j :: 0 <= j < |vg| ==> pool[j] == vg[j];
    if j :| 0 <= j < |rest| && rest[j] == '/' {
      assert pool[|vg| + 1 + j] == '/';
    }
  }

  /** A pool of the list fits exactly if it exists, has at most one slash, and does not
      stand beside its own volume group as a thin pool. */
  lemma PoolFitsExact(pools: seq<string>, found: set<string>, pool: string)
    ensures |Split(pool, '/')| <= 2 <==> OneSlash(pool)
    ensures OneSlash(pool) ==> (ThinOf(pool) != "" && VgOf(pool) in pools <==> Mixed(pools, pool))
    ensures LvmPoolFits(pools, found, pool) <==> pool in found && OneSlash(pool) && !Mixed(pools, pool)
  {
    var vg, rest := PoolForm(pool);
    if '/' in pool {
      SplitTwo(vg, rest);
      OneSlashParts(vg, rest);
      if OneSlash(pool) { MixedParts(pools, vg, rest); }
    } else {
      SplitPlain(pool, '/');
      forall a, b ensures pool != ThinPool(a, b) { assert ThinPool(a, b)[|a|] == '/'; }
    }
  }

  lemma MixedParts(pools: seq<string>, vg: string, thin: string)
    requires '/' !in vg && '/' !in thin
    ensures Mixed(pools, ThinPool(vg, thin)) <==> thin != "" && vg in pools
  {
    if a, b :| ThinPool(vg, thin) == ThinPool(a, b) && b != "" && a in pools {
      SlashesMeet(vg, thin, a, b);
    }
  }

  lemma SlashesMeet(vg: string, thin: string, a: string, b: string)
    requires '/' !in vg && '/' !in thin && ThinPool(vg, thin) == ThinPool(a, b)
    ensures a == vg && b == thin
  {
    var s := ThinPool(a, b);
    assert s[|a|] == '/';
    assert forall i :: 0 <= i < |vg| ==> s[i] == vg[i];
    assert forall i :: |vg| < i < |s| ==> s[i] == thin[i - |vg| - 1];
    assert |a| == |vg|;
    assert a == s[..|a|] == vg && b == s[|a| + 1..] == thin;
  }

  /** A volume group and a thin pool of it are never accepted together, whatever exists
      and whatever else is configured. */
  lemma MixedGroupRefused(c: Config, found: set<string>, vg: string, thin: string)
    requires vg in c.lvm && ThinPool(vg, thin) in c.lvm && thin != ""
    ensures !Accepted(c, found)
  {
    PoolFitsExact(c.lvm, found, ThinPool(vg, thin));
  }

  // ----- Lemmas -----

  lemma FindPoolIsPrefix(pools: seq<string>, dataset: string)
    ensures match FindPool(pools, dataset)
            case Some(p) => p in pools && p + "/" <= dataset
            case None => forall p :: p in pools ==> !(p + "/" <= dataset)
  {
  }

  lemma VgHasNoSlash(pool: string)
    ensures '/' !in VgOf(pool) && VgOf(VgOf(pool)) == VgOf(pool)
  {
    assert VgOf(pool) in Split(pool, '/');
    SplitPlain(VgOf(pool), '/');
  }

  /** In an accepted configuration at most one pool owns a data set, so the order
      in which the pools are searched does not matter. */
  lemma ZfsOwnerUnique(pools: seq<string>, dataset: string, p: string)
    requires NoNesting(pools) && p in pools && p + "/" <= dataset
    ensures FindPool(pools, dataset) == Some(p)
  {
    FindPoolIsPrefix(pools, dataset);
    var q := FindPool(pools, dataset).value;
    if |p| <= |q| { PrefixesNest(p, q, dataset, '/'); } else { PrefixesNest(q, p, dataset, '/'); }
  }

  lemma ZfsSplitOrderFree(pools: seq<string>, pools': seq<string>, path: string)
    requires NoNesting(pools) && multiset(pools) == multiset(pools')
    ensures SplitUdev(Config([], pools), Zfs, path) == SplitUdev(Config([], pools'), Zfs, path)
  {
    assert forall p :: p in pools <==> p in multiset(pools);
    assert forall p :: p in pools' <==> p in multiset(pools');
    match AfterTwo(path)
    case None =>
    case Some(dataset) =>
      FindPoolIsPrefix(pools, dataset);
      FindPoolIsPrefix(pools', dataset);
      match FindPool(pools, dataset)
      case None =>
      case Some(p) => ZfsOwnerUnique(pools', dataset, p);
  }

  lemma DevNames(c: Config, dev: string)
    requires Good(c) && IsDev(c, dev)
    ensures ':' !in dev && '%' !in dev
    ensures dev !in c.zfs ==> '/' !in dev && VgOf(dev) == dev
    ensures dev in c.zfs ==> dev !in Vgs(c)
  {
    if dev !in c.zfs {
      var p :| p in c.lvm && VgOf(p) == dev;
      VgHasNoSlash(p);
    }
  }

  /** A pool that resolves, under whatever alias, resolves to a device of the
      back end that answered. */
  lemma PoolResolves(c: Config, pool: string, b: Backend, dev: string)
    requires Good(c) && PoolModule(c, pool) == Some(b) && Pool2Dev(b, pool) == Some(dev)
    ensures IsDev(c, dev) && BackendOf(c, dev) == b
    ensures forall name :: SoName(b, pool, name) == VolSo(Vol(dev, name))
  {
    VgHasNoSlash(pool);
    if b.Lvm? {
      assert Replace(dev, '/', '%') == dev;
    }
  }

  lemma {:induction false} LastPoolExists(pools: seq<string>, vg: string)
    requires exists p :: p in pools && VgOf(p) == vg
    ensures LastPool(pools, vg).Some?
    ensures LastPool(pools, vg).value in pools && VgOf(LastPool(pools, vg).value) == vg
  {
    var n := |pools| - 1;
    if VgOf(pools[n]) != vg {
      assert forall p :: p in pools <==> p in pools[..n] || p == pools[n];
      LastPoolExists(pools[..n], vg);
    }
  }

  /** The pool name that listings give a device resolves to that device. */
  lemma ListedPoolResolves(c: Config, dev: string)
    requires Good(c) && IsDev(c, dev)
    ensures Dev2Pool(c, BackendOf(c, dev), dev).Some?
    ensures var pool := Dev2Pool(c, BackendOf(c, dev), dev).value;
            PoolModule(c, pool) == Some(BackendOf(c, dev)) && Pool2Dev(BackendOf(c, dev), pool) == Some(dev)
  {
    if dev !in c.zfs {
      LastPoolExists(c.lvm, dev);
      var found :| Accepted(c, found);
      assert LvmPoolFits(c.lvm, found, LastPool(c.lvm, dev).value);
    }
  }

  lemma SoParts(c: Config, v: Vol)
    requires Good(c) && IsDev(c, v.dev) && ':' !in v.name
    ensures Split(VolSo(v), ':') == [Replace(v.dev, '/', '%'), v.name]
    ensures Replace(Replace(v.dev, '/', '%'), '%', '/') == v.dev
  {
    DevNames(c, v.dev);
    SplitAt(Replace(v.dev, '/', '%'), v.name, ':');
    SplitPlain(v.name, ':');
    assert Replace(Replace(v.dev, '/', '%'), '%', '/') == v.dev;
  }

  /** Storage object names decode to the volume they were made from, through the
      module dispatch, for both back ends together. */
  lemma SoNameRoundTrip(c: Config, v: Vol)
    requires Good(c) && IsDev(c, v.dev) && ':' !in v.name
    ensures SoVol(VolSo(v)) == v
    ensures SoModule(c, VolSo(v)) == Some(BackendOf(c, v.dev))
    ensures Dev2Pool(c, BackendOf(c, v.dev), v.dev).Some?
    ensures SoVolume(c, BackendOf(c, v.dev), VolSo(v))
         == Some((Dev2Pool(c, BackendOf(c, v.dev), v.dev).value, v.name))
  {
    SoParts(c, v);
    DevNames(c, v.dev);
    if v.dev !in c.zfs {
      assert Replace(v.dev, '/', '%') == v.dev;
      LastPoolExists(c.lvm, v.dev);
    }
  }

  /** Over both back ends together, two volumes get one storage object name
      exactly when they are one volume of one device. */
  lemma SoNamesInjective(c: Config, p: string, b: Backend, dev: string, name: string,
                         p': string, b': Backend, dev': string, name': string)
    requires Good(c) && ':' !in name && ':' !in name'
    requires PoolModule(c, p) == Some(b) && Pool2Dev(b, p) == Some(dev)
    requires PoolModule(c, p') == Some(b') && Pool2Dev(b', p') == Some(dev')
    ensures SoName(b, p, name) == SoName(b', p', name') <==> dev == dev' && name == name'
  {
    PoolResolves(c, p, b, dev);
    PoolResolves(c, p', b', dev');
    SoNameRoundTrip(c, Vol(dev, name));
    SoNameRoundTrip(c, Vol(dev', name'));
  }

  lemma PathParts(v: Vol)
    requires '/' !in v.name
    ensures Split(DevPath(v), '/') == ["", "dev"] + Split(v.dev, '/') + [v.name]
  {
    var tail := v.dev + "/" + v.name;
    SplitEnd(v.dev, v.name, '/');
    SplitAt("dev", tail, '/');
    SplitAt("", "dev" + "/" + tail, '/');
    assert DevPath(v) == "" + "/" + ("dev" + "/" + tail);
  }

  lemma SlashFixesDev(p: string, dev: string, name: string)
    requires '/' !in dev && '/' !in name && p + "/" <= dev + "/" + name
    ensures p == dev
  {
    var dataset := dev + "/" + name;
    assert (p + "/")[|p|] == dataset[|p|];
    assert forall i :: 0 <= i < |p| ==> p[i] == (p + "/")[i] == dataset[i];
  }

  /** Device paths too: the owning back end recognises and inverts the path, and
      the other back end does not recognise it. */
  lemma PathRoundTrip(c: Config, v: Vol)
    requires Good(c) && IsDev(c, v.dev) && '/' !in v.name
    ensures SplitUdev(c, BackendOf(c, v.dev), DevPath(v)) == Some((v.dev, v.name))
    ensures forall b :: HasUdev(c, b, DevPath(v)) <==> b == BackendOf(c, v.dev)
    ensures UdevModule(c, DevPath(v)) == Some(BackendOf(c, v.dev))
  {
    PathParts(v);
    DevNames(c, v.dev);
    var dataset := v.dev + "/" + v.name;
    SplitEnd(v.dev, v.name, '/');
    JoinSplit(dataset, '/');
    assert Split(DevPath(v), '/')[2..] == Split(dataset, '/');
    assert AfterTwo(DevPath(v)) == Some(dataset);
    if v.dev in c.zfs {
      assert v.dev + "/" <= dataset;
      ZfsOwnerUnique(c.zfs, dataset, v.dev);
      assert dataset[|v.dev| + 1..] == v.name;
      if |Split(DevPath(v), '/')| == 4 {
        JoinSplit(v.dev, '/');
      }
    } else {
      SplitPlain(v.dev, '/');
      FindPoolIsPrefix(c.zfs, dataset);
      forall p | p + "/" <= dataset ensures p == v.dev {
        SlashFixesDev(p, v.dev, v.name);
      }
    }
  }

  /** For a configured pool the whole round trip closes exactly when the pool is
      the last one of its volume group and no ZFS pool has the group's name. */
  lemma ConfiguredRoundTrip(c: Config, found: set<string>, pool: string, name: string)
    requires Accepted(c, found) && LegalNames(c) && pool in c.lvm && ':' !in name
    ensures PoolModule(c, pool) == Some(Lvm) && Pool2Dev(Lvm, pool) == Some(VgOf(pool))
    ensures var so := SoName(Lvm, pool, name);
            && SoModule(c, so).Some?
            && (SoModule(c, so) == PoolModule(c, pool) && SoVolume(c, SoModule(c, so).value, so) == Some((pool, name))
                <==> VgOf(pool) !in c.zfs && LastPool(c.lvm, VgOf(pool)) == Some(pool))
  {
    var vg := VgOf(pool);
    VgHasNoSlash(pool);
    SplitAt(vg, name, ':');
    SplitPlain(name, ':');
    assert Replace(vg, '%', '/') == vg;
    LastPoolExists(c.lvm, vg);
  }

  lemma ConfiguredRoundTripZfs(c: Config, found: set<string>, pool: string, name: string)
    requires Accepted(c, found) && LegalNames(c) && pool in c.zfs && ':' !in name
    ensures PoolModule(c, pool) == Some(Zfs)
    ensures SoModule(c, SoName(Zfs, pool, name)) == Some(Zfs)
    ensures SoVolume(c, Zfs, SoName(Zfs, pool, name)) == Some((pool, name))
  {
    SplitAt(Replace(pool, '/', '%'), name, ':');
    SplitPlain(name, ':');
    assert Replace(Replace(pool, '/', '%'), '%', '/') == pool;
  }

  lemma ThinPoolParts(vg: string, thin: string)
    requires '/' !in vg && '/' !in thin
    ensures VgOf(ThinPool(vg, thin)) == vg && |Split(ThinPool(vg, thin), '/')| == 2
    ensures ThinPool(vg, thin) != vg
  {
    SplitOne(vg, thin);
  }

  /** Both deviations occur in accepted configurations. Here a thin pool's volume
      group is named like a ZFS pool, and two volumes get one storage object name. */
  lemma SharedNameCollides(vg: string, thin: string, name: string)
    requires '/' !in vg && ':' !in vg && '/' !in thin
    ensures var pool := ThinPool(vg, thin);
      && Accepted(Config([pool], [vg]), {pool, vg})
      && SoName(Lvm, pool, name) == SoName(Zfs, vg, name)
  {
    ThinPoolParts(vg, thin);
    assert Replace(vg, '/', '%') == vg;
  }

  /** Here two thin pools share a volume group, and the first one's volumes are
      reported under the second one's name. */
  lemma SharedGroupCollapses(vg: string, t: string, u: string)
    requires '/' !in vg && '/' !in t && '/' !in u
    ensures var first, second := ThinPool(vg, t), ThinPool(vg, u);
      && Accepted(Config([first, second], []), {first, second})
      && LastPool([first, second], VgOf(first)) == Some(second)
  {
    ThinPoolParts(vg, t);
    ThinPoolParts(vg, u);
  }

  lemma SplitOne(vg: string, thin: string)
    requires '/' !in vg && '/' !in thin
    ensures Split(vg + "/" + thin, '/') == [vg, thin]
  {
    SplitAt(vg, thin, '/');
    SplitPlain(thin, '/');
  }
}
