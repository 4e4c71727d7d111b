/** The abstract export machine: volumes are pairs of a device and a name, a LUN
    is the volume it serves, and the whole purpose of the tree is the relation
    of initiators, host LUNs and volumes. `Next` says what every API call
    may do to this state; the class in `Block` is proved to do no more. */
module Exports {
  import opened Wrappers
  import opened Strings
  import opened Naming

  datatype Kind = Linear | Thin(pool: string) | Internal | Zvol

  /** A NodeACL: its group tag and the volume behind each host LUN. */
  datatype Acl = Acl(tag: Option<string>, maps: map<int, Vol>)

  datatype State = State(
    vols: map<Vol, Kind>,      // the back ends' volume tables
    target: bool,              // the Target and its TPG exist
    objects: set<Vol>,         // volumes with a storage object
    luns: set<Vol>,            // volumes with a TPG LUN
    acls: map<string, Acl>)

  datatype Failure =
    | InvalidPool | Unexpected | NotFoundVolume | VolumeMasked | NotFoundExport
    | NotFoundGroup | NoSupport | IllegalName | NameConflict | ExistsInitiator
    | NoFreeHostLun | Refused | InvalidArgument

  datatype Outcome = Done | Failed(failure: Failure)

  datatype Op =
    | VolCreate(pool: string, vol: string)
    | VolDestroy(pool: string, vol: string)
    | VolCopy(pool: string, vol: string, copy: string)
    | ExportCreate(pool: string, vol: string, wwn: string, lun: int)
    | ExportDestroy(pool: string, vol: string, wwn: string)
    | SetAuth(wwn: string)
    | Query
    | GroupCreate(ag: string, wwn: string, initType: string)
    | GroupDestroy(ag: string)
    | GroupAdd(ag: string, wwn: string, initType: string)
    | GroupDel(ag: string, wwn: string, initType: string)
    | MapCreate(pool: string, vol: string, ag: string, hLun: Option<int>)
    | MapDestroy(pool: string, vol: string, ag: string)

  /** The fallback for the constant that newer library versions no longer have. */
  const MAX_LUN := 256

  // ----- Pieces of the transitions -----

  function Open(s: State): State {
    s.(target := true)
  }

  function WithAcl(s: State, wwn: string): State {
    if wwn in s.acls then s else s.(acls := s.acls[wwn := Acl(None, map[])])
  }

  /** The host LUNs of an initiator, none if it is unknown. */
  function MapsOf(s: State, wwn: string): map<int, Vol> {
    if wwn in s.acls then s.acls[wwn].maps else map[]
  }

  predicate Used(s: State, v: Vol) {
    exists w :: w in s.acls && v in s.acls[w].maps.Values
  }

  function Resolve(c: Config, pool: string): Result<string, Failure> {
    match PoolModule(c, pool)
    case None => Err(InvalidPool)
    case Some(b) =>
      match Pool2Dev(b, pool)
      case None => Err(Unexpected)
      case Some(dev) => Ok(dev)
  }

  /** `_tpg_lun_of`: the volume must exist; its storage object and LUN are made
      when missing. A storage object name must not contain a slash. */
  function LunOf(c: Config, s: State, pool: string, vol: string): (Result<Vol, Failure>, State) {
    match Resolve(c, pool)
    case Err(e) => (Err(e), s)
    case Ok(dev) =>
      var v := Vol(dev, vol);
      if v !in s.vols then (Err(Unexpected), s)
      else if v !in s.objects && '/' in vol then (Err(Refused), s)
      else (Ok(v), s.(objects := s.objects + {v}, luns := s.luns + {v}))
  }

  function DropLunIfUnused(s: State, v: Vol): State {
    if Used(s, v) then s
    else s.(luns := s.luns - {v}, objects := s.objects - {v})
  }

  /** Cleaning up a branch without leaves. Deleting the TPG deletes its LUNs and
      leaves their storage objects behind. */
  function Tidy(s: State, wwn: string): State {
    if MapsOf(s, wwn) != map[] then s
    else
      var s1 := s.(acls := s.acls - {wwn});
      if s1.acls == map[] then s1.(target := false, luns := {}) else s1
  }

  function Members(s: State, ag: string): set<string> {
    set w | w in s.acls && s.acls[w].tag == Some(ag)
  }

  /** `h` mapped to `v` on the initiators `ws`, where it is free. */
  function MapOn(s: State, ws: set<string>, h: int, v: Vol): State {
    s.(acls := map w | w in s.acls ::
                 if w in ws && h !in s.acls[w].maps then s.acls[w].(maps := s.acls[w].maps[h := v]) else s.acls[w])
  }

  function LunsOnVol(s: State, v: Vol): set<int> {
    set w, h | w in s.acls && h in s.acls[w].maps && s.acls[w].maps[h] == v :: h
  }

  /** The pool name under which listings report a device. */
  function Canon(c: Config, dev: string): string {
    match Dev2Pool(c, BackendOf(c, dev), dev)
    case Some(pool) => pool
    case None => dev
  }

  /** The kind of volume that listing a pool shows. */
  function KindIn(c: Config, dev: string, pool: string): Kind {
    if BackendOf(c, dev).Zfs? then Zvol
    else if ThinOf(pool) == "" then Linear else Thin(ThinOf(pool))
  }

  predicate Listed(c: Config, vols: map<Vol, Kind>, pool: string, vol: string) {
    match Resolve(c, pool)
    case Err(_) => false
    case Ok(dev) =>
      && Vol(dev, vol) in vols
      && vols[Vol(dev, vol)] == KindIn(c, dev, pool)
  }

  predicate NameChar(ch: char) {
    'a' <= ch <= 'z' || 'A' <= ch <= 'Z' || '0' <= ch <= '9' || ch == '_' || ch == '-'
  }

  /** Python's `$` also matches before a final newline. */
  function UpToNewline(s: string): string {
    if s != "" && s[|s| - 1] == '\n' then s[..|s| - 1] else s
  }

  /** `name_check` */
  predicate NameCheck(s: string) {
    var t := UpToNewline(s);
    t != "" && forall i :: 0 <= i < |t| ==> NameChar(t[i])
  }

  /** `_check_dataset_name` */
  predicate DatasetCheck(s: string) {
    var t := UpToNewline(s);
    && t != "" && NameChar(t[0]) && t[0] != '_' && t[0] != '-'
    && forall i :: 0 <= i < |t| ==> NameChar(t[i]) || t[i] == '.'
  }

  // ----- Transitions -----

  predicate VolAdded(s: State, v: Vol, kind: Kind, s': State) {
    v !in s.vols && s' == s.(vols := s.vols[v := kind])
  }

  /** A thin pool without room gives a linear volume instead. */
  ghost predicate VolCreated(c: Config, s: State, pool: string, vol: string, s': State, out: Outcome) {
    match Resolve(c, pool)
    case Err(e) => s' == s && out == Failed(e)
    case Ok(dev) =>
      var v := Vol(dev, vol);
      if Listed(c, s.vols, pool, vol) then s' == s && out == Failed(NameConflict)
      else if BackendOf(c, dev).Zfs? && !DatasetCheck(vol) then s' == s && out == Failed(IllegalName)
      else
        || (s' == s && out == Failed(Unexpected))
        || (':' !in vol && out == Done && VolAdded(s, v, KindIn(c, dev, pool), s'))
        || (':' !in vol && out == Done && VolAdded(s, v, Linear, s') && KindIn(c, dev, pool).Thin?)
  }

  ghost predicate VolDestroyed(c: Config, s: State, pool: string, vol: string, s': State, out: Outcome) {
    match Resolve(c, pool)
    case Err(e) => s' == s && out == Failed(e)
    case Ok(dev) =>
      var v := Vol(dev, vol);
      if !Listed(c, s.vols, pool, vol) then s' == s && out == Failed(NotFoundVolume)
      else if v in s.luns then s' == s && out == Failed(VolumeMasked)
      else if BackendOf(c, dev).Zfs? && !DatasetCheck(vol) then s' == s && out == Failed(IllegalName)
      else
        || (s' == s && out == Failed(Unexpected))
        || (s' == s.(vols := s.vols - {v}) && out == Done)
  }

  /** A size that is given must be above the original's. An LVM copy that fails late,
      in growing it, leaves the new volume behind. */
  ghost predicate VolCopied(c: Config, s: State, pool: string, vol: string, copy: string, s': State, out: Outcome) {
    match Resolve(c, pool)
    case Err(e) => s' == s && out == Failed(e)
    case Ok(dev) =>
      var v := Vol(dev, copy);
      if !Listed(c, s.vols, pool, vol) then s' == s && out == Failed(NotFoundVolume)
      else if out == Failed(InvalidArgument) then s' == s
      else if BackendOf(c, dev).Zfs? then
        || (s' == s && out == Failed(NoSupport))
        || if !DatasetCheck(vol) || !DatasetCheck(copy) then s' == s && out == Failed(IllegalName)
           else if v in s.vols then s' == s && out == Failed(NameConflict)
           else (s' == s && out == Failed(Unexpected)) || (':' !in copy && out == Done && VolAdded(s, v, Zvol, s'))
      else if Listed(c, s.vols, pool, copy) then s' == s && out == Failed(NameConflict)
      else
        || (s' == s && out == Failed(Unexpected))
        || (':' !in copy && ThinOf(pool) != "" && (out == Done || out == Failed(Unexpected))
            && VolAdded(s, v, Thin(ThinOf(pool)), s'))
  }

  function ExportCreated(c: Config, s: State, pool: string, vol: string, wwn: string, lun: int): (State, Outcome) {
    match LunOf(c, WithAcl(Open(s), wwn), pool, vol)
    case (Err(e), s1) => (s1, Failed(e))
    case (Ok(v), s1) =>
      if lun in MapsOf(s, wwn) then
        (s1, if MapsOf(s, wwn)[lun] == v then Done else Failed(Refused))
      else
        (MapOn(s1, {wwn}, lun, v), Done)
  }

  /** Removing one mapping, with the whole cascade. */
  function ExportDropped(s: State, wwn: string, h: int, v: Vol): State
    requires wwn in s.acls
  {
    var acl := s.acls[wwn];
    Tidy(DropLunIfUnused(s.(acls := s.acls[wwn := acl.(maps := acl.maps - {h})]), v), wwn)
  }

  /** Which of several mappings of one volume goes first is not fixed. */
  ghost predicate ExportDestroyed(c: Config, s: State, pool: string, vol: string, wwn: string,
                                  s': State, out: Outcome) {
    match PoolModule(c, pool)
    case None => s' == s && out == Failed(InvalidPool)
    case Some(b) =>
      var s1 := WithAcl(Open(s), wwn);
      match Pool2Dev(b, pool)
      case None => s' == s1 && out == Failed(Unexpected)
      case Some(dev) =>
        var v := Vol(dev, vol);
        if v !in MapsOf(s, wwn).Values then s' == s1 && out == Failed(NotFoundExport)
        else
          && out == Done
          && exists h :: h in MapsOf(s, wwn) && MapsOf(s, wwn)[h] == v && s' == ExportDropped(s1, wwn, h, v)
  }

  function GroupCreated(s: State, ag: string, wwn: string, initType: string): (State, Outcome) {
    if initType != "iscsi" then (s, Failed(NoSupport))
    else if !NameCheck(ag) then (s, Failed(IllegalName))
    else if Members(s, ag) != {} then (Open(s), Failed(NameConflict))
    else if wwn in s.acls then (Open(s), Failed(ExistsInitiator))
    else (Open(s).(acls := s.acls[wwn := Acl(Some(ag), map[])]), Done)
  }

  /** A new member takes over the mappings of some member. */
  ghost predicate GroupAdded(s: State, ag: string, wwn: string, initType: string, s': State, out: Outcome) {
    if initType != "iscsi" then s' == s && out == Failed(NoSupport)
    else if wwn in Members(s, ag) then s' == Open(s) && out == Done
    else if wwn in s.acls then s' == Open(s) && out == Failed(ExistsInitiator)
    else
      && out == Done
      && if Members(s, ag) == {} then s' == Open(s).(acls := s.acls[wwn := Acl(Some(ag), map[])])
         else exists m :: m in Members(s, ag) && s' == Open(s).(acls := s.acls[wwn := s.acls[m]])
  }

  function GroupDeled(s: State, ag: string, wwn: string, initType: string): (State, Outcome) {
    if initType != "iscsi" then (s, Failed(NoSupport))
    else if wwn in Members(s, ag) then (Open(s).(acls := s.acls - {wwn}), Done)
    else (Open(s), Done)
  }

  /** Mapping one host LUN on every member stops at the first refusal. */
  ghost predicate MappedOnAll(s: State, ws: set<string>, h: int, v: Vol, s': State, out: Outcome) {
    if forall w :: w in ws ==> h !in MapsOf(s, w) then
      s' == MapOn(s, ws, h, v) && out == Done
    else
      out == Failed(Refused) && exists some :: some < ws && s' == MapOn(s, some, h, v)
  }

  /** A group's mappings are read off one of its members, `rep`. */
  ghost predicate MapCreatedBy(c: Config, s: State, pool: string, v: Vol, ag: string, hLun: Option<int>,
                               rep: string, s': State, out: Outcome)
  {
    if pool == Canon(c, v.dev) && v in MapsOf(s, rep).Values then s' == s && out == Done
    else match hLun
      case Some(h) => MappedOnAll(s, Members(s, ag), h, v, s', out)
      case None =>
        || (s' == s && out == Failed(NoFreeHostLun) && forall h :: 0 <= h <= MAX_LUN ==> h in LunsOnVol(s, v))
        || exists h :: 0 <= h <= MAX_LUN && h !in LunsOnVol(s, v) && MappedOnAll(s, Members(s, ag), h, v, s', out)
  }

  ghost predicate MapCreated(c: Config, s: State, pool: string, vol: string, ag: string, hLun: Option<int>,
                             s': State, out: Outcome)
  {
    match LunOf(c, Open(s), pool, vol)
    case (Err(e), s1) => s' == s1 && out == Failed(e)
    case (Ok(v), s1) =>
      if Members(s, ag) == {} then s' == s1 && out == Failed(NotFoundGroup)
      else exists rep :: rep in Members(s, ag) && MapCreatedBy(c, s1, pool, v, ag, hLun, rep, s', out)
  }

  function LunsFor(m: map<int, Vol>, v: Vol): set<int> {
    set h | h in m && m[h] == v
  }

  /** The host LUNs that serve `v` according to the member `rep`, removed on every
      member. */
  function Unmapped(s: State, ag: string, rep: string, v: Vol): State {
    var hs := LunsFor(MapsOf(s, rep), v);
    s.(acls := map w | w in s.acls ::
                 if s.acls[w].tag == Some(ag) then s.acls[w].(maps := s.acls[w].maps - hs) else s.acls[w])
  }

  /** The mappings of `v` that one member has go from all members, and then what
      nobody uses. */
  ghost predicate UnmappedByOne(s: State, ag: string, v: Vol, s': State) {
    if Members(s, ag) == {} then s' == DropLunIfUnused(s, v)
    else exists rep :: rep in Members(s, ag) && s' == DropLunIfUnused(Unmapped(s, ag, rep, v), v)
  }

  ghost predicate MapDestroyed(c: Config, s: State, pool: string, vol: string, ag: string, s': State, out: Outcome) {
    match LunOf(c, Open(s), pool, vol)
    case (Err(e), s1) => s' == s1 && out == Failed(e)
    case (Ok(v), s1) => out == Done && UnmappedByOne(s1, ag, v, s')
  }

  /** One API call. */
  ghost predicate Next(c: Config, s: State, op: Op, s': State, out: Outcome) {
    match op
    case VolCreate(pool, vol) => VolCreated(c, s, pool, vol, s', out)
    case VolDestroy(pool, vol) => VolDestroyed(c, s, pool, vol, s', out)
    case VolCopy(pool, vol, copy) => VolCopied(c, s, pool, vol, copy, s', out)
    case ExportCreate(pool, vol, wwn, lun) => (s', out) == ExportCreated(c, s, pool, vol, wwn, lun)
    case ExportDestroy(pool, vol, wwn) => ExportDestroyed(c, s, pool, vol, wwn, s', out)
    case SetAuth(wwn) => s' == WithAcl(Open(s), wwn) && out == Done
    case Query => s' == Open(s) && out == Done
    case GroupCreate(ag, wwn, initType) => (s', out) == GroupCreated(s, ag, wwn, initType)
    case GroupDestroy(ag) => s' == Open(s).(acls := s.acls - Members(s, ag)) && out == Done
    case GroupAdd(ag, wwn, initType) => GroupAdded(s, ag, wwn, initType, s', out)
    case GroupDel(ag, wwn, initType) => (s', out) == GroupDeled(s, ag, wwn, initType)
    case MapCreate(pool, vol, ag, hLun) => MapCreated(c, s, pool, vol, ag, hLun, s', out)
    case MapDestroy(pool, vol, ag) => MapDestroyed(c, s, pool, vol, ag, s', out)
  }
}
