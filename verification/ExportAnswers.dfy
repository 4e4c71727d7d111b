/** What every call may answer, for what reason, and what it leaves in each part of
    the state: the same machine as in `Exports`, seen from its answers and its
    parts. */
module ExportAnswers {
  import opened Wrappers
  import opened Strings
  import opened Naming
  import opened Exports
  import opened ExportLaws

  // ----- Names -----

  lemma GroupNamed(c: Config, vg: string)
    ensures vg in Vgs(c) <==> '/' !in vg && exists p :: p in c.lvm && (p == vg || vg + "/" <= p)
  {
    forall p | p in c.lvm ensures VgOf(p) == vg <==> '/' !in vg && (p == vg || vg + "/" <= p) {
      GroupIsHead(p, vg);
    }
  }

  /** A pool is a ZFS pool, a volume group, or a group with a thin pool. */
  lemma ResolveExact(c: Config, pool: string, dev: string)
    ensures Resolve(c, pool) == Ok(dev) <==>
      if pool in c.zfs then dev == pool
      else dev in Vgs(c) && (pool == dev || (dev + "/" <= pool && '/' !in pool[|dev| + 1..]))
  {
    if pool !in c.zfs {
      var vg, rest := PoolForm(pool);
      if '/' in pool {
        SplitTwo(vg, rest);
        assert vg + "/" <= pool && pool[|vg| + 1..] == rest;
      } else {
        SplitPlain(pool, '/');
      }
      if dev in Vgs(c) {
        var p :| p in c.lvm && VgOf(p) == dev;
        VgHasNoSlash(p);
        GroupIsHead(pool, dev);
      }
    }
  }

  /** Otherwise no group has that name, or there are too many slashes. */
  lemma ResolveFails(c: Config, pool: string)
    ensures Resolve(c, pool) == Err(InvalidPool)
      <==> pool !in c.zfs && forall vg :: vg in Vgs(c) ==> pool != vg && !(vg + "/" <= pool)
    ensures Resolve(c, pool) == Err(Unexpected)
      <==> pool !in c.zfs && !OneSlash(pool) && exists vg :: vg in Vgs(c) && vg + "/" <= pool
    ensures Resolve(c, pool).Ok? || Resolve(c, pool) == Err(InvalidPool) || Resolve(c, pool) == Err(Unexpected)
  {
    PoolFitsExact([], {}, pool);
    forall vg | vg in Vgs(c) ensures VgOf(pool) == vg <==> pool == vg || vg + "/" <= pool {
      var p :| p in c.lvm && VgOf(p) == vg;
      VgHasNoSlash(p);
      GroupIsHead(pool, vg);
    }
    if !OneSlash(pool) { SlashInside(pool); }
  }

  lemma SlashInside(pool: string)
    requires !OneSlash(pool)
    ensures '/' !in VgOf(pool) && VgOf(pool) != pool
  {
    VgHasNoSlash(pool);
    var i :| 0 <= i < |pool| && pool[i] == '/';
  }

  /** The volumes that are listed in a pool: those of its kind. */
  lemma ListedExact(c: Config, vols: map<Vol, Kind>, pool: string, vol: string)
    ensures Listed(c, vols, pool, vol) <==>
      && Resolve(c, pool).Ok?
      && var v := Vol(Resolve(c, pool).value, vol);
      && v in vols
      && match vols[v]
         case Zvol => v.dev in c.zfs
         case Linear => v.dev !in c.zfs && (pool == v.dev || pool == v.dev + "/")
         case Thin(thin) => v.dev !in c.zfs && thin != "" && pool == v.dev + "/" + thin
         case Internal => false
  {
    if Resolve(c, pool).Ok? {
      var dev := Resolve(c, pool).value;
      ResolveExact(c, pool, dev);
      if dev !in c.zfs {
        var vg, rest := PoolForm(pool);
        if '/' in pool { SplitTwo(vg, rest); } else { SplitPlain(pool, '/'); }
      }
    }
  }

  predicate Letter(ch: char) {
    'A' <= ch <= 'Z' || 'a' <= ch <= 'z' || '0' <= ch <= '9'
  }

  /** The text, with or without a line feed behind it. */
  predicate Written(s: string, text: string) {
    s == text || s == text + "\n"
  }

  predicate GroupText(s: string) {
    s != "" && forall i :: 0 <= i < |s| ==> Letter(s[i]) || s[i] in {'_', '-'}
  }

  predicate DatasetText(s: string) {
    s != "" && Letter(s[0]) && forall i :: 0 <= i < |s| ==> Letter(s[i]) || s[i] in {'_', '.', '-'}
  }

  /** The names of access groups. */
  lemma NameCheckExact(s: string)
    ensures NameCheck(s) <==> exists text :: Written(s, text) && GroupText(text)
  {
    assert Written(s, UpToNewline(s));
  }

  /** The names of ZFS volumes. */
  lemma DatasetCheckExact(s: string)
    ensures DatasetCheck(s) <==> exists text :: Written(s, text) && DatasetText(text)
  {
    assert Written(s, UpToNewline(s));
  }

  // ----- Answers -----

  /** The volume exists and has a storage object, or may get one. */
  predicate Servable(c: Config, s: State, pool: string, vol: string) {
    && Resolve(c, pool).Ok?
    && var v := Vol(Resolve(c, pool).value, vol);
    && v in s.vols && (v in s.objects || '/' !in vol)
  }

  /** The volume exists, but its name cannot be that of a storage object. */
  predicate Unservable(c: Config, s: State, pool: string, vol: string) {
    && Resolve(c, pool).Ok?
    && var v := Vol(Resolve(c, pool).value, vol);
    && v in s.vols && v !in s.objects && '/' in vol
  }

  predicate Known(c: Config, s: State, pool: string, vol: string) {
    Resolve(c, pool).Ok? && Vol(Resolve(c, pool).value, vol) in s.vols
  }

  /** The pool is of LVM, or ZFS accepts the names. */
  predicate Namable(c: Config, pool: string, names: set<string>) {
    InZfs(c, pool) ==> forall name :: name in names ==> DatasetCheck(name)
  }

  predicate InZfs(c: Config, pool: string) {
    Resolve(c, pool).Ok? && Resolve(c, pool).value in c.zfs
  }

  /** The host LUN that is asked for, or one that is free on the volume. */
  predicate Wanted(s: State, v: Vol, hLun: Option<int>, h: int) {
    match hLun
    case Some(asked) => h == asked
    case None => 0 <= h <= 256 && forall w :: w in s.acls && h in s.acls[w].maps ==> s.acls[w].maps[h] != v
  }

  /** That member of the group shows the mapping, under the listed name of the pool. */
  predicate Shows(c: Config, s: State, pool: string, v: Vol, ag: string, rep: string) {
    rep in s.acls && s.acls[rep].tag == Some(ag) && pool == Canon(c, v.dev) && v in s.acls[rep].maps.Values
  }

  predicate Hides(c: Config, s: State, pool: string, v: Vol, ag: string, rep: string) {
    rep in s.acls && s.acls[rep].tag == Some(ag) && !(pool == Canon(c, v.dev) && v in s.acls[rep].maps.Values)
  }

  predicate Empty(s: State, ag: string) {
    forall w :: w in s.acls ==> s.acls[w].tag != Some(ag)
  }

  predicate FreeInGroup(s: State, ag: string, h: int) {
    forall w :: w in s.acls && s.acls[w].tag == Some(ag) ==> h !in s.acls[w].maps
  }

  /** When a call may succeed. A volume command may fail whatever the state. */
  ghost predicate MaySucceed(c: Config, s: State, op: Op) {
    match op
    case VolCreate(pool, vol) =>
      && Resolve(c, pool).Ok? && Vol(Resolve(c, pool).value, vol) !in s.vols
      && ':' !in vol && Namable(c, pool, {vol})
    case VolDestroy(pool, vol) =>
      Listed(c, s.vols, pool, vol) && Vol(Resolve(c, pool).value, vol) !in s.luns && Namable(c, pool, {vol})
    case VolCopy(pool, vol, copy) =>
      && Listed(c, s.vols, pool, vol) && Vol(Resolve(c, pool).value, copy) !in s.vols
      && ':' !in copy && Namable(c, pool, {vol, copy}) && (InZfs(c, pool) || ThinOf(pool) != "")
    case ExportCreate(pool, vol, wwn, lun) =>
      && Servable(c, s, pool, vol)
      && (lun in MapsOf(s, wwn) ==> MapsOf(s, wwn)[lun] == Vol(Resolve(c, pool).value, vol))
    case ExportDestroy(pool, vol, wwn) =>
      Resolve(c, pool).Ok? && Vol(Resolve(c, pool).value, vol) in MapsOf(s, wwn).Values
    case GroupCreate(ag, wwn, initType) => initType == "iscsi" && NameCheck(ag) && Empty(s, ag) && wwn !in s.acls
    case GroupAdd(ag, wwn, initType) => initType == "iscsi" && (wwn in s.acls ==> s.acls[wwn].tag == Some(ag))
    case GroupDel(_, _, initType) => initType == "iscsi"
    case MapCreate(pool, vol, ag, hLun) =>
      && Servable(c, s, pool, vol) && !Empty(s, ag)
      && var v := Vol(Resolve(c, pool).value, vol);
      || (exists rep :: Shows(c, s, pool, v, ag, rep))
      || (exists h :: Wanted(s, v, hLun, h) && FreeInGroup(s, ag, h))
    case MapDestroy(pool, vol, _) => Servable(c, s, pool, vol)
    case _ => true
  }

  predicate Pooled(op: Op) {
    !op.SetAuth? && !op.Query? && !op.GroupCreate? && !op.GroupDestroy? && !op.GroupAdd? && !op.GroupDel?
  }

  /** When and why a call may fail, failure by failure. */
  ghost predicate MayFail(c: Config, s: State, op: Op, f: Failure) {
    match f
    case InvalidPool => Pooled(op) && Resolve(c, op.pool) == Err(InvalidPool)
    case Unexpected => Pooled(op) && (Resolve(c, op.pool) == Err(Unexpected) || Unlucky(c, s, op))
    case NotFoundVolume =>
      (op.VolDestroy? || op.VolCopy?) && Resolve(c, op.pool).Ok? && !Listed(c, s.vols, op.pool, op.vol)
    case VolumeMasked =>
      op.VolDestroy? && Listed(c, s.vols, op.pool, op.vol) && Vol(Resolve(c, op.pool).value, op.vol) in s.luns
    case NotFoundExport =>
      && op.ExportDestroy? && Resolve(c, op.pool).Ok?
      && Vol(Resolve(c, op.pool).value, op.vol) !in MapsOf(s, op.wwn).Values
    case NotFoundGroup => op.MapCreate? && Servable(c, s, op.pool, op.vol) && Empty(s, op.ag)
    case NoSupport =>
      || ((op.GroupCreate? || op.GroupAdd? || op.GroupDel?) && op.initType != "iscsi")
      || (op.VolCopy? && Listed(c, s.vols, op.pool, op.vol) && InZfs(c, op.pool))
    case IllegalName => (
      match op
      case GroupCreate(ag, _, initType) => initType == "iscsi" && !NameCheck(ag)
      case VolCreate(pool, vol) =>
        Resolve(c, pool).Ok? && !Listed(c, s.vols, pool, vol) && !Namable(c, pool, {vol})
      case VolDestroy(pool, vol) =>
        Listed(c, s.vols, pool, vol) && Vol(Resolve(c, pool).value, vol) !in s.luns && !Namable(c, pool, {vol})
      case VolCopy(pool, vol, copy) => Listed(c, s.vols, pool, vol) && !Namable(c, pool, {vol, copy})
      case _ => false
    )
    case NameConflict => (
      match op
      case GroupCreate(ag, _, initType) => initType == "iscsi" && NameCheck(ag) && !Empty(s, ag)
      case VolCreate(pool, vol) => Listed(c, s.vols, pool, vol)
      case VolCopy(pool, vol, copy) =>
        && Listed(c, s.vols, pool, vol) && Namable(c, pool, {vol, copy})
        && if InZfs(c, pool) then Known(c, s, pool, copy) else Listed(c, s.vols, pool, copy)
      case _ => false
    )
    case ExistsInitiator => (
      match op
      case GroupCreate(ag, wwn, initType) => initType == "iscsi" && NameCheck(ag) && Empty(s, ag) && wwn in s.acls
      case GroupAdd(ag, wwn, initType) => initType == "iscsi" && wwn in s.acls && s.acls[wwn].tag != Some(ag)
      case _ => false
    )
    case NoFreeHostLun =>
      && op.MapCreate? && Servable(c, s, op.pool, op.vol) && op.hLun == None
      && var v := Vol(Resolve(c, op.pool).value, op.vol);
      && (exists rep :: Hides(c, s, op.pool, v, op.ag, rep)) && forall h :: !Wanted(s, v, None, h)
    case Refused => (
      match op
      case ExportCreate(pool, vol, wwn, lun) =>
        || Unservable(c, s, pool, vol)
        || (Servable(c, s, pool, vol) && lun in MapsOf(s, wwn)
            && MapsOf(s, wwn)[lun] != Vol(Resolve(c, pool).value, vol))
      case MapCreate(pool, vol, ag, hLun) =>
        || Unservable(c, s, pool, vol)
        || (&& Servable(c, s, pool, vol)
            && var v := Vol(Resolve(c, pool).value, vol);
            && (exists rep :: Hides(c, s, pool, v, ag, rep))
            && exists h :: Wanted(s, v, hLun, h) && !FreeInGroup(s, ag, h))
      case MapDestroy(pool, vol, _) => Unservable(c, s, pool, vol)
      case _ => false
    )
    case InvalidArgument => op.VolCopy? && Listed(c, s.vols, op.pool, op.vol)
  }

  /** A volume command fails, or the volume to serve does not exist. */
  ghost predicate Unlucky(c: Config, s: State, op: Op)
    requires Pooled(op)
  {
    && Resolve(c, op.pool).Ok?
    && match op
       case VolCreate(pool, vol) => !Listed(c, s.vols, pool, vol) && Namable(c, pool, {vol})
       case VolDestroy(pool, vol) =>
         Listed(c, s.vols, pool, vol) && Vol(Resolve(c, pool).value, vol) !in s.luns && Namable(c, pool, {vol})
       case VolCopy(pool, vol, copy) =>
         && Listed(c, s.vols, pool, vol) && Namable(c, pool, {vol, copy})
         && !(if InZfs(c, pool) then Known(c, s, pool, copy) else Listed(c, s.vols, pool, copy))
       case ExportDestroy(_, _, _) => false
       case _ => !Known(c, s, op.pool, op.vol)
  }

  ghost predicate MayAnswer(c: Config, s: State, op: Op, out: Outcome) {
    match out
    case Done => MaySucceed(c, s, op)
    case Failed(f) => MayFail(c, s, op, f)
  }

  lemma VolCreateAnswers(c: Config, s: State, pool: string, vol: string, out: Outcome)
    ensures (exists s' :: VolCreated(c, s, pool, vol, s', out)) <==> MayAnswer(c, s, Op.VolCreate(pool, vol), out)
  {
    if MayAnswer(c, s, Op.VolCreate(pool, vol), out) {
      if out == Done {
        var dev := Resolve(c, pool).value;
        var s' := s.(vols := s.vols[Vol(dev, vol) := KindIn(c, dev, pool)]);
        assert VolCreated(c, s, pool, vol, s', out);
      } else {
        assert VolCreated(c, s, pool, vol, s, out);
      }
    }
  }

  lemma VolDestroyAnswers(c: Config, s: State, pool: string, vol: string, out: Outcome)
    ensures (exists s' :: VolDestroyed(c, s, pool, vol, s', out)) <==> MayAnswer(c, s, Op.VolDestroy(pool, vol), out)
  {
    if MayAnswer(c, s, Op.VolDestroy(pool, vol), out) {
      if out == Done {
        assert VolDestroyed(c, s, pool, vol, s.(vols := s.vols - {Vol(Resolve(c, pool).value, vol)}), out);
      } else {
        assert VolDestroyed(c, s, pool, vol, s, out);
      }
    }
  }

  lemma VolCopyAnswers(c: Config, s: State, pool: string, vol: string, copy: string, out: Outcome)
    ensures (exists s' :: VolCopied(c, s, pool, vol, copy, s', out))
      <==> MayAnswer(c, s, Op.VolCopy(pool, vol, copy), out)
  {
    if out == Done {
      VolCopySucceeds(c, s, pool, vol, copy);
    } else {
      VolCopyFails(c, s, pool, vol, copy, out.failure);
    }
  }

  lemma VolCopySucceeds(c: Config, s: State, pool: string, vol: string, copy: string)
    ensures (exists s' :: VolCopied(c, s, pool, vol, copy, s', Done))
      <==> MaySucceed(c, s, Op.VolCopy(pool, vol, copy))
  {
    if MaySucceed(c, s, Op.VolCopy(pool, vol, copy)) {
      var kind := if InZfs(c, pool) then Zvol else Thin(ThinOf(pool));
      var s' := s.(vols := s.vols[Vol(Resolve(c, pool).value, copy) := kind]);
      assert VolCopied(c, s, pool, vol, copy, s', Done);
    }
  }

  lemma VolCopyFails(c: Config, s: State, pool: string, vol: string, copy: string, f: Failure)
    ensures (exists s' :: VolCopied(c, s, pool, vol, copy, s', Failed(f)))
      <==> MayFail(c, s, Op.VolCopy(pool, vol, copy), f)
  {
    if MayFail(c, s, Op.VolCopy(pool, vol, copy), f) {
      assert VolCopied(c, s, pool, vol, copy, s, Failed(f));
    }
  }

  lemma ExportCreateAnswers(c: Config, s: State, pool: string, vol: string, wwn: string, lun: int, out: Outcome)
    ensures ExportCreated(c, s, pool, vol, wwn, lun).1 == out
      <==> MayAnswer(c, s, Op.ExportCreate(pool, vol, wwn, lun), out)
  {
  }

  lemma ExportDestroyAnswers(c: Config, s: State, pool: string, vol: string, wwn: string, out: Outcome)
    ensures (exists s' :: ExportDestroyed(c, s, pool, vol, wwn, s', out))
      <==> MayAnswer(c, s, Op.ExportDestroy(pool, vol, wwn), out)
  {
    if MayAnswer(c, s, Op.ExportDestroy(pool, vol, wwn), out) {
      var s1 := WithAcl(Open(s), wwn);
      if out == Done {
        var v := Vol(Resolve(c, pool).value, vol);
        var h := KeyOf(MapsOf(s, wwn), v);
        assert ExportDestroyed(c, s, pool, vol, wwn, ExportDropped(s1, wwn, h, v), Done);
      } else {
        assert ExportDestroyed(c, s, pool, vol, wwn, if PoolModule(c, pool).None? then s else s1, out);
      }
    }
  }

  lemma GroupCreateAnswers(c: Config, s: State, ag: string, wwn: string, initType: string, out: Outcome)
    ensures GroupCreated(s, ag, wwn, initType).1 == out <==> MayAnswer(c, s, Op.GroupCreate(ag, wwn, initType), out)
  {
    NoMembers(s, ag);
  }

  lemma GroupAddAnswers(c: Config, s: State, ag: string, wwn: string, initType: string, out: Outcome)
    ensures (exists s' :: GroupAdded(s, ag, wwn, initType, s', out))
      <==> MayAnswer(c, s, Op.GroupAdd(ag, wwn, initType), out)
  {
    if MayAnswer(c, s, Op.GroupAdd(ag, wwn, initType), out) {
      if out == Done && wwn !in s.acls {
        var acl := Acl(Some(ag), map[]);
        if m :| m in Members(s, ag) { acl := s.acls[m]; }
        assert GroupAdded(s, ag, wwn, initType, Open(s).(acls := s.acls[wwn := acl]), Done);
      } else {
        assert GroupAdded(s, ag, wwn, initType, if initType == "iscsi" then Open(s) else s, out);
      }
    }
  }

  lemma GroupDelAnswers(c: Config, s: State, ag: string, wwn: string, initType: string, out: Outcome)
    ensures GroupDeled(s, ag, wwn, initType).1 == out <==> MayAnswer(c, s, Op.GroupDel(ag, wwn, initType), out)
  {
  }

  lemma WantedIs(s: State, v: Vol, hLun: Option<int>, h: int)
    ensures Wanted(s, v, hLun, h) <==> match hLun
      case Some(asked) => h == asked
      case None => 0 <= h <= MAX_LUN && h !in LunsOnVol(s, v)
  {
  }

  lemma FreeForMembers(s: State, ag: string, h: int)
    ensures FreeInGroup(s, ag, h) <==> forall w :: w in Members(s, ag) ==> h !in MapsOf(s, w)
  {
    if forall w :: w in Members(s, ag) ==> h !in MapsOf(s, w) {
      forall w | w in s.acls && s.acls[w].tag == Some(ag) ensures h !in s.acls[w].maps {
        assert w in Members(s, ag);
      }
    }
  }

  lemma MappedAnswers(s: State, ag: string, h: int, v: Vol, out: Outcome)
    requires Members(s, ag) != {}
    ensures (exists s' :: MappedOnAll(s, Members(s, ag), h, v, s', out))
      <==> out == if FreeInGroup(s, ag, h) then Done else Failed(Refused)
  {
    FreeForMembers(s, ag, h);
    if FreeInGroup(s, ag, h) {
      assert MappedOnAll(s, Members(s, ag), h, v, MapOn(s, Members(s, ag), h, v), Done);
    } else {
      assert {} < Members(s, ag);
      assert MappedOnAll(s, Members(s, ag), h, v, MapOn(s, {}, h, v), Failed(Refused));
    }
  }

  /** What one member's listing leads to. */
  ghost predicate MayMap(c: Config, s: State, pool: string, v: Vol, ag: string, hLun: Option<int>, rep: string,
                         out: Outcome)
  {
    if Shows(c, s, pool, v, ag, rep) then out == Done
    else
      || (out == Done && exists h :: Wanted(s, v, hLun, h) && FreeInGroup(s, ag, h))
      || (out == Failed(Refused) && exists h :: Wanted(s, v, hLun, h) && !FreeInGroup(s, ag, h))
      || (out == Failed(NoFreeHostLun) && hLun == None && forall h :: !Wanted(s, v, None, h))
  }

  lemma MapCreatedByAnswers(c: Config, s: State, pool: string, v: Vol, ag: string, hLun: Option<int>,
                            rep: string, out: Outcome)
    requires rep in Members(s, ag)
    ensures (exists s' :: MapCreatedBy(c, s, pool, v, ag, hLun, rep, s', out))
      <==> MayMap(c, s, pool, v, ag, hLun, rep, out)
  {
    forall h ensures Wanted(s, v, hLun, h) <==> match hLun
      case Some(asked) => h == asked
      case None => 0 <= h <= MAX_LUN && h !in LunsOnVol(s, v)
    {
      WantedIs(s, v, hLun, h);
    }
    if Shows(c, s, pool, v, ag, rep) {
      if out == Done { assert MapCreatedBy(c, s, pool, v, ag, hLun, rep, s, Done); }
    } else {
      if s' :| MapCreatedBy(c, s, pool, v, ag, hLun, rep, s', out) {
        if out != Failed(NoFreeHostLun) || hLun.Some? {
          var h :| Wanted(s, v, hLun, h) && MappedOnAll(s, Members(s, ag), h, v, s', out);
          MappedAnswers(s, ag, h, v, out);
        }
      }
      if MayMap(c, s, pool, v, ag, hLun, rep, out) {
        if out == Failed(NoFreeHostLun) {
          assert MapCreatedBy(c, s, pool, v, ag, hLun, rep, s, out);
        } else {
          var h :| Wanted(s, v, hLun, h) && (out == Done <==> FreeInGroup(s, ag, h));
          MappedAnswers(s, ag, h, v, out);
          var s' :| MappedOnAll(s, Members(s, ag), h, v, s', out);
          assert MapCreatedBy(c, s, pool, v, ag, hLun, rep, s', out);
        }
      }
    }
  }

  /** The members of a group taken together. */
  lemma GroupMayMap(c: Config, s: State, pool: string, vol: string, ag: string, hLun: Option<int>, out: Outcome)
    requires Servable(c, s, pool, vol)
    ensures var v := Vol(Resolve(c, pool).value, vol);
      MayAnswer(c, s, Op.MapCreate(pool, vol, ag, hLun), out)
      <==> if Empty(s, ag) then out == Failed(NotFoundGroup)
           else exists rep :: rep in Members(s, ag) && MayMap(c, s, pool, v, ag, hLun, rep, out)
  {
    NoMembers(s, ag);
    var v := Vol(Resolve(c, pool).value, vol);
    if Empty(s, ag) {
      forall rep ensures !Shows(c, s, pool, v, ag, rep) && !Hides(c, s, pool, v, ag, rep) {}
    } else {
      var m :| m in Members(s, ag);
      if MayAnswer(c, s, Op.MapCreate(pool, vol, ag, hLun), out) {
        var rep := GroupMaps(c, s, pool, vol, ag, hLun, m, out);
      }
      if rep :| rep in Members(s, ag) && MayMap(c, s, pool, v, ag, hLun, rep, out) {
        MemberMaps(c, s, pool, vol, ag, hLun, rep, out);
      }
    }
  }

  lemma MemberMaps(c: Config, s: State, pool: string, vol: string, ag: string, hLun: Option<int>, rep: string,
                   out: Outcome)
    requires Servable(c, s, pool, vol) && rep in Members(s, ag)
    requires MayMap(c, s, pool, Vol(Resolve(c, pool).value, vol), ag, hLun, rep, out)
    ensures MayAnswer(c, s, Op.MapCreate(pool, vol, ag, hLun), out)
  {
    var v := Vol(Resolve(c, pool).value, vol);
    assert Shows(c, s, pool, v, ag, rep) || Hides(c, s, pool, v, ag, rep);
  }

  /** The member whose listing leads to an answer. */
  lemma GroupMaps(c: Config, s: State, pool: string, vol: string, ag: string, hLun: Option<int>, m: string,
                  out: Outcome) returns (rep: string)
    requires Servable(c, s, pool, vol) && m in Members(s, ag) && MayAnswer(c, s, Op.MapCreate(pool, vol, ag, hLun), out)
    ensures rep in Members(s, ag) && MayMap(c, s, pool, Vol(Resolve(c, pool).value, vol), ag, hLun, rep, out)
  {
    var v := Vol(Resolve(c, pool).value, vol);
    rep := m;
    if w :| Shows(c, s, pool, v, ag, w) && out == Done {
      rep := w;
    } else if w :| Hides(c, s, pool, v, ag, w) {
      rep := w;
    }
  }

  lemma MapCreateAnswers(c: Config, s: State, pool: string, vol: string, ag: string, hLun: Option<int>, out: Outcome)
    ensures (exists s' :: MapCreated(c, s, pool, vol, ag, hLun, s', out))
      <==> MayAnswer(c, s, Op.MapCreate(pool, vol, ag, hLun), out)
  {
    var (r, s1) := LunOf(c, Open(s), pool, vol);
    assert r.Ok? <==> Servable(c, s, pool, vol);
    if r.Err? || Members(s, ag) == {} {
      var failure := if r.Err? then r.error else NotFoundGroup;
      assert MapCreated(c, s, pool, vol, ag, hLun, s1, Failed(failure));
      if r.Ok? { GroupMayMap(c, s, pool, vol, ag, hLun, out); NoMembers(s, ag); }
    } else {
      GroupMayMap(c, s, pool, vol, ag, hLun, out);
      NoMembers(s, ag);
      MembersMayMap(c, s, s1, pool, r.value, ag, hLun, out);
      if s' :| MapCreated(c, s, pool, vol, ag, hLun, s', out) {
        var rep :| rep in Members(s, ag) && MapCreatedBy(c, s1, pool, r.value, ag, hLun, rep, s', out);
      }
      if rep, s' :| rep in Members(s, ag) && MapCreatedBy(c, s1, pool, r.value, ag, hLun, rep, s', out) {
        assert MapCreated(c, s, pool, vol, ag, hLun, s', out);
      }
    }
  }

  /** A new LUN changes nothing about what a member's listing leads to. */
  lemma MembersMayMap(c: Config, s: State, s1: State, pool: string, v: Vol, ag: string, hLun: Option<int>, out: Outcome)
    requires s1.acls == s.acls
    ensures (exists rep, s' :: rep in Members(s, ag) && MapCreatedBy(c, s1, pool, v, ag, hLun, rep, s', out))
      <==> exists rep :: rep in Members(s, ag) && MayMap(c, s, pool, v, ag, hLun, rep, out)
  {
    forall h
      ensures Wanted(s1, v, hLun, h) == Wanted(s, v, hLun, h) && FreeInGroup(s1, ag, h) == FreeInGroup(s, ag, h)
    {
    }
    forall rep | rep in Members(s, ag)
      ensures (exists s' :: MapCreatedBy(c, s1, pool, v, ag, hLun, rep, s', out))
        <==> MayMap(c, s, pool, v, ag, hLun, rep, out)
    {
      MapCreatedByAnswers(c, s1, pool, v, ag, hLun, rep, out);
    }
  }

  lemma MapDestroyAnswers(c: Config, s: State, pool: string, vol: string, ag: string, out: Outcome)
    ensures (exists s' :: MapDestroyed(c, s, pool, vol, ag, s', out))
      <==> MayAnswer(c, s, Op.MapDestroy(pool, vol, ag), out)
  {
    var (r, s1) := LunOf(c, Open(s), pool, vol);
    if r.Err? {
      assert MapDestroyed(c, s, pool, vol, ag, s1, Failed(r.error));
    } else {
      var s' := DropLunIfUnused(s1, r.value);
      if Members(s1, ag) != {} {
        var rep :| rep in Members(s1, ag);
        s' := DropLunIfUnused(Unmapped(s1, ag, rep, r.value), r.value);
      }
      assert UnmappedByOne(s1, ag, r.value, s');
      assert MapDestroyed(c, s, pool, vol, ag, s', Done);
    }
  }

  /** Exactly these answers are possible, in every state. */
  lemma AnswersExact(c: Config, s: State, op: Op, out: Outcome)
    ensures (exists s' :: Next(c, s, op, s', out)) <==> MayAnswer(c, s, op, out)
  {
    match op
    case VolCreate(pool, vol) =>
      VolCreateAnswers(c, s, pool, vol, out);
      if s' :| VolCreated(c, s, pool, vol, s', out) { assert Next(c, s, op, s', out); }
    case VolDestroy(pool, vol) =>
      VolDestroyAnswers(c, s, pool, vol, out);
      if s' :| VolDestroyed(c, s, pool, vol, s', out) { assert Next(c, s, op, s', out); }
    case VolCopy(pool, vol, copy) =>
      VolCopyAnswers(c, s, pool, vol, copy, out);
      if s' :| VolCopied(c, s, pool, vol, copy, s', out) { assert Next(c, s, op, s', out); }
    case ExportCreate(pool, vol, wwn, lun) =>
      ExportCreateAnswers(c, s, pool, vol, wwn, lun, out);
      var (s', told) := ExportCreated(c, s, pool, vol, wwn, lun);
      assert Next(c, s, op, s', told);
    case ExportDestroy(pool, vol, wwn) =>
      ExportDestroyAnswers(c, s, pool, vol, wwn, out);
      if s' :| ExportDestroyed(c, s, pool, vol, wwn, s', out) { assert Next(c, s, op, s', out); }
    case SetAuth(wwn) => assert Next(c, s, op, WithAcl(Open(s), wwn), Done);
    case Query => assert Next(c, s, op, Open(s), Done);
    case GroupCreate(ag, wwn, initType) =>
      GroupCreateAnswers(c, s, ag, wwn, initType, out);
      var (s', told) := GroupCreated(s, ag, wwn, initType);
      assert Next(c, s, op, s', told);
    case GroupDestroy(ag) => assert Next(c, s, op, Open(s).(acls := s.acls - Members(s, ag)), Done);
    case GroupAdd(ag, wwn, initType) =>
      GroupAddAnswers(c, s, ag, wwn, initType, out);
      if s' :| GroupAdded(s, ag, wwn, initType, s', out) { assert Next(c, s, op, s', out); }
    case GroupDel(ag, wwn, initType) =>
      GroupDelAnswers(c, s, ag, wwn, initType, out);
      var (s', told) := GroupDeled(s, ag, wwn, initType);
      assert Next(c, s, op, s', told);
    case MapCreate(pool, vol, ag, hLun) =>
      MapCreateAnswers(c, s, pool, vol, ag, hLun, out);
      if s' :| MapCreated(c, s, pool, vol, ag, hLun, s', out) { assert Next(c, s, op, s', out); }
    case MapDestroy(pool, vol, ag) =>
      MapDestroyAnswers(c, s, pool, vol, ag, out);
      if s' :| MapDestroyed(c, s, pool, vol, ag, s', out) { assert Next(c, s, op, s', out); }
  }

  /** An export is made exactly for a volume that exists and has a storage object or may
      get one, at a host LUN that is free for the initiator or serves that volume. */
  lemma ExportCreateSucceeds(c: Config, s: State, pool: string, vol: string, wwn: string, lun: int,
                             s': State, out: Outcome)
    requires Next(c, s, Op.ExportCreate(pool, vol, wwn, lun), s', out)
    ensures out == Done <==>
      && Resolve(c, pool).Ok?
      && var v := Vol(Resolve(c, pool).value, vol);
      && v in s.vols && (v in s.objects || '/' !in vol)
      && (lun !in MapsOf(s, wwn) || MapsOf(s, wwn)[lun] == v)
  {
    ExportCreateAnswers(c, s, pool, vol, wwn, lun, Done);
  }

  // ----- What a call leaves, part by part -----

  /** The kinds of volume that a pool may come to have. */
  predicate Fits(c: Config, pool: string, kind: Kind) {
    && Resolve(c, pool).Ok?
    && match kind
       case Zvol => InZfs(c, pool)
       case Linear => !InZfs(c, pool)
       case Thin(thin) => !InZfs(c, pool) && thin != "" && pool == ThinPool(Resolve(c, pool).value, thin)
       case Internal => false
  }

  lemma KindsFit(c: Config, pool: string)
    requires Resolve(c, pool).Ok?
    ensures Fits(c, pool, KindIn(c, Resolve(c, pool).value, pool))
    ensures !InZfs(c, pool) ==> Fits(c, pool, Linear) && (ThinOf(pool) != "" ==> Fits(c, pool, Thin(ThinOf(pool))))
  {
    var vg, rest := PoolForm(pool);
    if '/' in pool { SplitTwo(vg, rest); } else { SplitPlain(pool, '/'); }
  }

  predicate SameUnits(s: State, s': State) {
    s'.luns == s.luns && s'.objects == s.objects
  }

  /** The group of an initiator never changes while it is known. */
  predicate TagsLeft(s: State, tag: Option<string>, s': State) {
    forall w :: w in s'.acls ==> s'.acls[w].tag == if w in s.acls then s.acls[w].tag else tag
  }

  /** A new volume of the pool. */
  ghost predicate Made(c: Config, s: State, pool: string, name: string, s': State) {
    && Resolve(c, pool).Ok? && Vol(Resolve(c, pool).value, name) !in s.vols
    && exists kind :: Fits(c, pool, kind) && s'.vols == s.vols[Vol(Resolve(c, pool).value, name) := kind]
  }

  /** The volume tables. */
  ghost predicate TablesLeft(c: Config, s: State, op: Op, out: Outcome, s': State) {
    match op
    case VolCreate(pool, vol) => if out == Done then Made(c, s, pool, vol, s') else s'.vols == s.vols
    case VolDestroy(pool, vol) =>
      if out == Done then Resolve(c, pool).Ok? && s'.vols == s.vols - {Vol(Resolve(c, pool).value, vol)}
      else s'.vols == s.vols
    case VolCopy(pool, _, copy) =>
      if out == Done then Made(c, s, pool, copy, s')
      else s'.vols == s.vols || (out == Failed(Unexpected) && !InZfs(c, pool) && Made(c, s, pool, copy, s'))
    case _ => s'.vols == s.vols
  }

  lemma TablesAfter(c: Config, s: State, op: Op, s': State, out: Outcome)
    requires Next(c, s, op, s', out)
    ensures TablesLeft(c, s, op, out, s')
  {
    match op
    case VolCreate(pool, vol) => VolCreateTables(c, s, pool, vol, s', out);
    case VolCopy(pool, vol, copy) => VolCopyTables(c, s, pool, vol, copy, s', out);
    case ExportDestroy(pool, vol, wwn) => ExportDestroyTables(c, s, pool, vol, wwn, s', out);
    case MapCreate(pool, vol, ag, hLun) => MapCreateShape(c, s, pool, vol, ag, hLun, s', out);
    case MapDestroy(pool, vol, ag) => MapDestroyShape(c, s, pool, vol, ag, s', out);
    case _ =>
  }

  lemma MapCreateShape(c: Config, s: State, pool: string, vol: string, ag: string, hLun: Option<int>,
                       s': State, out: Outcome)
    requires MapCreated(c, s, pool, vol, ag, hLun, s', out)
    ensures s'.vols == s.vols && s'.target
    ensures var s1 := LunOf(c, Open(s), pool, vol).1;
      SameUnits(s1, s') && (s'.acls == s.acls || exists ws, h, v :: s'.acls == MapOn(s, ws, h, v).acls)
  {
    var (r, s1) := LunOf(c, Open(s), pool, vol);
    if r.Ok? && Members(s, ag) != {} {
      var rep :| rep in Members(s, ag) && MapCreatedBy(c, s1, pool, r.value, ag, hLun, rep, s', out);
      if h :| MappedOnAll(s1, Members(s1, ag), h, r.value, s', out) {
        MappedShape(s1, Members(s1, ag), h, r.value, s', out);
        var ws :| s' == MapOn(s1, ws, h, r.value);
        assert s'.acls == MapOn(s, ws, h, r.value).acls;
      }
    }
  }

  lemma MappedShape(s: State, ws: set<string>, h: int, v: Vol, s': State, out: Outcome)
    requires MappedOnAll(s, ws, h, v, s', out)
    ensures exists some :: s' == MapOn(s, some, h, v)
  {
  }

  lemma MapDestroyShape(c: Config, s: State, pool: string, vol: string, ag: string, s': State, out: Outcome)
    requires MapDestroyed(c, s, pool, vol, ag, s', out)
    ensures s'.vols == s.vols && s'.target
    ensures s'.acls.Keys == s.acls.Keys && TagsLeft(s, None, s')
  {
  }

  lemma VolCreateTables(c: Config, s: State, pool: string, vol: string, s': State, out: Outcome)
    requires VolCreated(c, s, pool, vol, s', out)
    ensures if out == Done then Made(c, s, pool, vol, s') else s'.vols == s.vols
  {
    if Resolve(c, pool).Ok? { KindsFit(c, pool); }
  }

  lemma VolCopyTables(c: Config, s: State, pool: string, vol: string, copy: string, s': State, out: Outcome)
    requires VolCopied(c, s, pool, vol, copy, s', out)
    ensures TablesLeft(c, s, Op.VolCopy(pool, vol, copy), out, s')
  {
    if Resolve(c, pool).Ok? { KindsFit(c, pool); }
  }

  lemma ExportDestroyTables(c: Config, s: State, pool: string, vol: string, wwn: string, s': State, out: Outcome)
    requires ExportDestroyed(c, s, pool, vol, wwn, s', out)
    ensures s'.vols == s.vols
    ensures s'.target == if out == Done then s'.acls != map[] else s.target || out != Failed(InvalidPool)
  {
  }

  /** Without a target calls on exports and groups make one, unless they are refused
      before they look; removing the last export takes it away. */
  predicate TargetLeft(c: Config, s: State, op: Op, out: Outcome, s': State) {
    match op
    case VolCreate(_, _) => s'.target == s.target
    case VolDestroy(_, _) => s'.target == s.target
    case VolCopy(_, _, _) => s'.target == s.target
    case GroupCreate(_, _, _) => s'.target == (s.target || out !in {Failed(NoSupport), Failed(IllegalName)})
    case GroupAdd(_, _, _) => s'.target == (s.target || out != Failed(NoSupport))
    case GroupDel(_, _, _) => s'.target == (s.target || out != Failed(NoSupport))
    case ExportDestroy(_, _, _) =>
      s'.target == if out == Done then s'.acls != map[] else s.target || out != Failed(InvalidPool)
    case _ => s'.target
  }

  lemma TargetAfter(c: Config, s: State, op: Op, s': State, out: Outcome)
    requires Next(c, s, op, s', out)
    ensures TargetLeft(c, s, op, out, s')
  {
    match op
    case ExportDestroy(pool, vol, wwn) => ExportDestroyTables(c, s, pool, vol, wwn, s', out);
    case MapCreate(pool, vol, ag, hLun) => MapCreateShape(c, s, pool, vol, ag, hLun, s', out);
    case MapDestroy(pool, vol, ag) => MapDestroyShape(c, s, pool, vol, ag, s', out);
    case _ =>
  }

  /** The initiators with a NodeACL: per-initiator calls make one even if they fail. */
  function KnownAfter(s: State, op: Op, out: Outcome, s': State): set<string> {
    match op
    case ExportCreate(_, _, wwn, _) => s.acls.Keys + {wwn}
    case SetAuth(wwn) => s.acls.Keys + {wwn}
    case ExportDestroy(_, _, wwn) =>
      if out == Failed(InvalidPool) then s.acls.Keys
      else if out == Done && MapsOf(s', wwn) == map[] then s.acls.Keys - {wwn}
      else s.acls.Keys + {wwn}
    case GroupCreate(_, wwn, _) => if out == Done then s.acls.Keys + {wwn} else s.acls.Keys
    case GroupAdd(_, wwn, _) => if out == Done then s.acls.Keys + {wwn} else s.acls.Keys
    case GroupDestroy(ag) => s.acls.Keys - Members(s, ag)
    case GroupDel(ag, wwn, _) => if out == Done then s.acls.Keys - ({wwn} * Members(s, ag)) else s.acls.Keys
    case _ => s.acls.Keys
  }

  /** The group that an initiator comes to be in. */
  function NewTag(op: Op): Option<string> {
    if op.GroupCreate? || op.GroupAdd? then Some(op.ag) else None
  }

  lemma InitiatorsAfter(c: Config, s: State, op: Op, s': State, out: Outcome)
    requires Next(c, s, op, s', out)
    ensures s'.acls.Keys == KnownAfter(s, op, out, s')
    ensures TagsLeft(s, NewTag(op), s')
  {
    match op
    case ExportCreate(pool, vol, wwn, lun) => ExportCreateInitiators(c, s, pool, vol, wwn, lun);
    case ExportDestroy(pool, vol, wwn) => ExportDestroyInitiators(c, s, pool, vol, wwn, s', out);
    case MapCreate(pool, vol, ag, hLun) => MapCreateInitiators(c, s, pool, vol, ag, hLun, s', out);
    case MapDestroy(pool, vol, ag) => MapDestroyShape(c, s, pool, vol, ag, s', out);
    case GroupAdd(ag, wwn, initType) => GroupAddInitiators(s, ag, wwn, initType, s', out);
    case GroupCreate(ag, wwn, initType) => GroupCreateInitiators(s, ag, wwn, initType);
    case _ => OtherInitiators(c, s, op, s', out);
  }

  lemma ExportCreateInitiators(c: Config, s: State, pool: string, vol: string, wwn: string, lun: int)
    ensures var s' := ExportCreated(c, s, pool, vol, wwn, lun).0;
      s'.acls.Keys == s.acls.Keys + {wwn} && TagsLeft(s, None, s')
  {
    WithAclInitiators(s, wwn);
  }

  lemma WithAclInitiators(s: State, wwn: string)
    ensures WithAcl(s, wwn).acls.Keys == s.acls.Keys + {wwn} && TagsLeft(s, None, WithAcl(s, wwn))
    ensures WithAcl(Open(s), wwn).acls == WithAcl(s, wwn).acls
  {
  }

  lemma ExportDestroyInitiators(c: Config, s: State, pool: string, vol: string, wwn: string, s': State, out: Outcome)
    requires ExportDestroyed(c, s, pool, vol, wwn, s', out)
    ensures s'.acls.Keys == KnownAfter(s, Op.ExportDestroy(pool, vol, wwn), out, s') && TagsLeft(s, None, s')
  {
    var s1 := WithAcl(Open(s), wwn);
    WithAclInitiators(s, wwn);
    if out == Done {
      var v := Vol(Resolve(c, pool).value, vol);
      var h :| h in MapsOf(s, wwn) && MapsOf(s, wwn)[h] == v && s' == ExportDropped(s1, wwn, h, v);
      DroppedInitiators(s1, wwn, h, v);
    }
  }

  lemma DroppedInitiators(s: State, wwn: string, h: int, v: Vol)
    requires wwn in s.acls
    ensures var s' := ExportDropped(s, wwn, h, v);
      && s'.acls.Keys == (if MapsOf(s', wwn) == map[] then s.acls.Keys - {wwn} else s.acls.Keys)
      && TagsLeft(s, None, s')
  {
  }

  lemma MapCreateInitiators(c: Config, s: State, pool: string, vol: string, ag: string, hLun: Option<int>,
                            s': State, out: Outcome)
    requires MapCreated(c, s, pool, vol, ag, hLun, s', out)
    ensures s'.acls.Keys == s.acls.Keys && TagsLeft(s, None, s')
  {
    MapCreateShape(c, s, pool, vol, ag, hLun, s', out);
  }

  lemma GroupAddInitiators(s: State, ag: string, wwn: string, initType: string, s': State, out: Outcome)
    requires GroupAdded(s, ag, wwn, initType, s', out)
    ensures s'.acls.Keys == (if out == Done then s.acls.Keys + {wwn} else s.acls.Keys) && TagsLeft(s, Some(ag), s')
  {
    if wwn in s.acls { assert s.acls.Keys + {wwn} == s.acls.Keys; }
  }

  lemma GroupCreateInitiators(s: State, ag: string, wwn: string, initType: string)
    ensures var (s', out) := GroupCreated(s, ag, wwn, initType);
      s'.acls.Keys == (if out == Done then s.acls.Keys + {wwn} else s.acls.Keys) && TagsLeft(s, Some(ag), s')
  {
  }

  lemma OtherInitiators(c: Config, s: State, op: Op, s': State, out: Outcome)
    requires Next(c, s, op, s', out)
    requires !op.ExportCreate? && !op.ExportDestroy? && !op.MapCreate? && !op.MapDestroy?
    requires !op.GroupAdd? && !op.GroupCreate?
    ensures s'.acls.Keys == KnownAfter(s, op, out, s') && TagsLeft(s, None, s')
  {
    match op
    case SetAuth(wwn) => WithAclInitiators(s, wwn);
    case GroupDestroy(ag) => assert s'.acls == s.acls - Members(s, ag);
    case GroupDel(ag, wwn, _) =>
      assert s'.acls == if out == Done then s.acls - ({wwn} * Members(s, ag)) else s.acls;
    case _ =>
  }

  /** `v` has a LUN and a storage object exactly if somebody maps it. */
  predicate Collected(s: State, v: Vol, s': State) {
    && (v in s'.luns <==> Used(s', v)) && (v in s'.objects <==> Used(s', v))
    && s'.objects - {v} == s.objects - {v}
  }

  /** LUNs and storage objects: a call that needs the volume served makes both, even if
      it fails later; removing a mapping takes them once nobody maps the volume. */
  ghost predicate UnitsLeft(c: Config, s: State, op: Op, out: Outcome, s': State) {
    if op.ExportDestroy? && out == Done then
      && Resolve(c, op.pool).Ok? && Collected(s, Vol(Resolve(c, op.pool).value, op.vol), s')
      && var v := Vol(Resolve(c, op.pool).value, op.vol);
         s'.luns - {v} == if s'.target then s.luns - {v} else {}
    else if (op.ExportCreate? || op.MapCreate? || op.MapDestroy?) && Servable(c, s, op.pool, op.vol) then
      var v := Vol(Resolve(c, op.pool).value, op.vol);
      if op.MapDestroy? then Collected(s, v, s') && s'.luns - {v} == s.luns - {v}
      else s'.luns == s.luns + {v} && s'.objects == s.objects + {v}
    else SameUnits(s, s')
  }

  lemma UnitsAfter(c: Config, s: State, op: Op, s': State, out: Outcome)
    requires Inv(s) && Next(c, s, op, s', out)
    ensures UnitsLeft(c, s, op, out, s')
  {
    match op
    case ExportDestroy(pool, vol, wwn) => ExportDestroyUnits(c, s, pool, vol, wwn, s', out);
    case MapDestroy(pool, vol, ag) => MapDestroyUnits(c, s, pool, vol, ag, s', out);
    case MapCreate(pool, vol, ag, hLun) => MapCreateUnits(c, s, pool, vol, ag, hLun, s', out);
    case ExportCreate(pool, vol, wwn, lun) => ExportCreateUnits(c, s, pool, vol, wwn, lun);
    case _ => OtherUnits(c, s, op, s', out);
  }

  lemma ExportCreateUnits(c: Config, s: State, pool: string, vol: string, wwn: string, lun: int)
    ensures var (s', out) := ExportCreated(c, s, pool, vol, wwn, lun);
      UnitsLeft(c, s, Op.ExportCreate(pool, vol, wwn, lun), out, s')
  {
  }

  lemma OtherUnits(c: Config, s: State, op: Op, s': State, out: Outcome)
    requires Next(c, s, op, s', out)
    requires !op.ExportCreate? && !op.ExportDestroy? && !op.MapCreate? && !op.MapDestroy?
    ensures SameUnits(s, s')
  {
  }

  lemma ExportDestroyUnits(c: Config, s: State, pool: string, vol: string, wwn: string, s': State, out: Outcome)
    requires Inv(s) && ExportDestroyed(c, s, pool, vol, wwn, s', out)
    ensures UnitsLeft(c, s, Op.ExportDestroy(pool, vol, wwn), out, s')
  {
    if out == Done {
      CascadeExact(c, s, pool, vol, wwn, s');
      var h :| Cascade(s, wwn, h, Vol(Resolve(c, pool).value, vol), s');
    } else {
      ExportDestroyFails(c, s, pool, vol, wwn, s', out);
    }
  }

  lemma MapDestroyUnits(c: Config, s: State, pool: string, vol: string, ag: string, s': State, out: Outcome)
    requires Inv(s) && MapDestroyed(c, s, pool, vol, ag, s', out)
    ensures UnitsLeft(c, s, Op.MapDestroy(pool, vol, ag), out, s')
  {
    var (r, s1) := LunOf(c, Open(s), pool, vol);
    if r.Ok? {
      var v := r.value;
      if Members(s1, ag) == {} {
        DropExact(s, s1, s1, v);
      } else {
        var rep :| rep in Members(s1, ag) && s' == DropLunIfUnused(Unmapped(s1, ag, rep, v), v);
        DropExact(s, s1, Unmapped(s1, ag, rep, v), v);
      }
    }
  }

  lemma MapCreateUnits(c: Config, s: State, pool: string, vol: string, ag: string, hLun: Option<int>,
                       s': State, out: Outcome)
    requires MapCreated(c, s, pool, vol, ag, hLun, s', out)
    ensures UnitsLeft(c, s, Op.MapCreate(pool, vol, ag, hLun), out, s')
  {
    MapCreateShape(c, s, pool, vol, ag, hLun, s', out);
  }

  // ----- A group whose members differ -----

  /** Exactly when removing a group's mappings of a volume does what it says, whichever
      member's host LUNs it goes by: at the host LUNs of each member the others have that
      volume, too, or nothing, and no other host LUN has it. */
  lemma UnmapHarmless(s: State, ag: string, v: Vol)
    ensures (forall rep :: rep in Members(s, ag) ==> GroupUnmapped(s, ag, v, Unmapped(s, ag, rep, v)))
      <==> forall rep, w :: rep in Members(s, ag) && w in Members(s, ag) ==>
             LunsFor(MapsOf(s, w), v) == LunsFor(MapsOf(s, rep), v) * MapsOf(s, w).Keys
  {
    forall rep, w | rep in Members(s, ag) && w in Members(s, ag)
      ensures MapsOf(s, w) - LunsFor(MapsOf(s, rep), v) == MapsOf(s, w) - LunsFor(MapsOf(s, w), v)
        <==> LunsFor(MapsOf(s, w), v) == LunsFor(MapsOf(s, rep), v) * MapsOf(s, w).Keys
    {
      SameRemoval(MapsOf(s, w), LunsFor(MapsOf(s, rep), v), LunsFor(MapsOf(s, w), v));
    }
    forall rep | rep in Members(s, ag)
      ensures GroupUnmapped(s, ag, v, Unmapped(s, ag, rep, v))
        <==> forall w :: w in Members(s, ag) ==>
               MapsOf(s, w) - LunsFor(MapsOf(s, rep), v) == MapsOf(s, w) - LunsFor(MapsOf(s, w), v)
    {
      UnmappedBy(s, ag, v, rep);
    }
  }

  lemma SameRemoval<K, V>(m: map<K, V>, a: set<K>, b: set<K>)
    requires b <= m.Keys
    ensures m - a == m - b <==> b == a * m.Keys
  {
    if m - a == m - b {
      forall k ensures k in b <==> k in a && k in m {
        assert k in (m - a).Keys <==> k in (m - b).Keys;
      }
    }
    if b == a * m.Keys { assert m - a == m - b; }
  }

  lemma UnmappedBy(s: State, ag: string, v: Vol, rep: string)
    requires rep in Members(s, ag)
    ensures GroupUnmapped(s, ag, v, Unmapped(s, ag, rep, v))
      <==> forall w :: w in Members(s, ag) ==>
             MapsOf(s, w) - LunsFor(MapsOf(s, rep), v) == MapsOf(s, w) - LunsFor(MapsOf(s, w), v)
  {
    var s' := Unmapped(s, ag, rep, v);
    forall w | w in Members(s, ag) ensures s'.acls[w].maps == MapsOf(s, w) - LunsFor(MapsOf(s, rep), v) {}
    if GroupUnmapped(s, ag, v, s') {
      forall w | w in Members(s, ag)
        ensures MapsOf(s, w) - LunsFor(MapsOf(s, rep), v) == MapsOf(s, w) - LunsFor(MapsOf(s, w), v)
      {
        assert s'.acls[w] == s.acls[w].(maps := s.acls[w].maps - LunsFor(s.acls[w].maps, v));
      }
    } else if forall w :: w in Members(s, ag) ==>
             MapsOf(s, w) - LunsFor(MapsOf(s, rep), v) == MapsOf(s, w) - LunsFor(MapsOf(s, w), v)
    {
      forall w | w in s.acls && s.acls[w].tag == Some(ag)
        ensures s'.acls[w] == s.acls[w].(maps := s.acls[w].maps - LunsFor(s.acls[w].maps, v))
      {
        assert w in Members(s, ag);
      }
    }
  }
}
