/** The NFS calls: the kernel's export table, the file that makes it survive a
    restart, and the administrator's own exports file. */
module NfsStore {
  import opened Wrappers
  import opened NfsOptions
  import opened NfsExports
  import opened NfsFiles
  import opened NfsRoundTrip

  /** The kernel's table as `exportfs -v` lists it, and `targetd.exports`. */
  datatype Disk = Disk(kernel: seq<Export>, managed: Option<string>)

  /** `Export.__eq__` */
  predicate Same(e: Export, f: Export) {
    e.path == f.path && e.host == f.host
  }

  predicate Listed(e: Export, l: seq<Export>) {
    exists i :: 0 <= i < |l| && Same(e, l[i])
  }

  /** The exports that are not in the administrator's file. */
  function Kept(kernel: seq<Export>, user: seq<Export>): seq<Export> {
    if kernel == [] then []
    else
      var n := |kernel| - 1;
      Kept(kernel[..n], user) + if Listed(kernel[n], user) then [] else [kernel[n]]
  }

  /** The administrator's exports: no file and no reading of it are different errors. */
  datatype Main = Missing | Unreadable | Exports(user: seq<Export>)

  function ReadMain(main: Option<string>): Main {
    match main
    case None => Missing
    case Some(text) => if FileExports(text).None? then Unreadable else Exports(FileExports(text).value)
  }

  /** `_save_exports`: the old file is gone before the administrator's is read. */
  function SavedFile(kernel: seq<Export>, main: Option<string>): Option<string> {
    match ReadMain(main)
    case Exports(user) => Some(FileText(Kept(kernel, user)))
    case _ => None
  }

  // ----- exportfs -----

  /** `exportfs host:path`: an export of the same path to the same host is replaced. */
  function Added(kernel: seq<Export>, e: Export): seq<Export> {
    if kernel == [] then [e]
    else if Same(kernel[0], e) then [e] + kernel[1..]
    else [kernel[0]] + Added(kernel[1..], e)
  }

  /** `exportfs -u host:path` */
  function Removed(kernel: seq<Export>, host: string, path: string): seq<Export> {
    if kernel == [] then []
    else
      var rest := Removed(kernel[1..], host, path);
      if kernel[0].host == host && kernel[0].path == path then rest else [kernel[0]] + rest
  }

  /** No path is exported twice to one host. */
  predicate Unique(kernel: seq<Export>) {
    forall i, j :: 0 <= i < j < |kernel| ==> kernel[i].path != kernel[j].path || kernel[i].host != kernel[j].host
  }

  // ----- The calls -----

  /** `NotSaved` is an exception after the kernel's table was changed. */
  datatype Answer = Success | BadOption | InvalidArgument | NotFound | UnexpectedExit | NotSaved

  /** What `nfs_export_add` answers and does. The exit code of `exportfs` and the
      options it then lists are the environment's. */
  function AddStep(d: Disk, host: string, path: string, options: seq<string>, ec: int, shown: Options,
                   main: Option<string>): (Answer, Disk)
  {
    match Fold(options)
    case None => (BadOption, d)
    case Some(o) =>
      match Make(host, path, o)
      case None => (InvalidArgument, d)
      case Some(e) =>
        if ec == 22 then (InvalidArgument, d)
        else if ec != 0 then (UnexpectedExit, d)
        else
          var kernel := Added(d.kernel, e.(options := shown));
          var answer := match ReadMain(main)
            case Exports(_) => Success
            case Unreadable => InvalidArgument
            case Missing => NotSaved;
          (answer, Disk(kernel, SavedFile(kernel, main)))
  }

  function RemoveStep(d: Disk, host: string, path: string, ec: int, main: Option<string>): (Answer, Disk) {
    if !exists i :: 0 <= i < |d.kernel| && d.kernel[i].host == host && d.kernel[i].path == path then (NotFound, d)
    else if ec != 0 then (UnexpectedExit, d)
    else
      var kernel := Removed(d.kernel, host, path);
      (if ReadMain(main).Exports? then Success else NotSaved, Disk(kernel, SavedFile(kernel, main)))
  }

  lemma KeptNext(kernel: seq<Export>, user: seq<Export>, k: nat)
    requires k < |kernel|
    ensures Kept(kernel[..k + 1], user) ==
      if Listed(kernel[k], user) then Kept(kernel[..k], user) else Kept(kernel[..k], user) + [kernel[k]]
  {
    var init := kernel[..k + 1];
    assert init[..k] == kernel[..k] && init[k] == kernel[k];
    assert Kept(init[..k], user) + [] == Kept(init[..k], user);
  }

  lemma Regroup(a: string, b: string, c: string)
    ensures a + (b + c) == (a + b) + c
  {
  }

  lemma {:induction false} FileTextEnd(exports: seq<Export>, e: Export)
    ensures FileText(exports + [e]) == FileText(exports) + FileFormat(e)
  {
    if exports == [] {
      assert [e][1..] == [];
      assert FileFormat(e) + "" == FileFormat(e) == "" + FileFormat(e);
    } else {
      var all := exports + [e];
      FileTextEnd(exports[1..], e);
      assert all[0] == exports[0] && all[1..] == exports[1..] + [e];
      Regroup(FileFormat(exports[0]), FileText(exports[1..]), FileFormat(e));
    }
  }

  lemma {:induction false} RemovedAgain(kernel: seq<Export>, host: string, path: string)
    ensures Removed(Removed(kernel, host, path), host, path) == Removed(kernel, host, path)
  {
    if kernel != [] {
      RemovedAgain(kernel[1..], host, path);
    }
  }

  class Nfs {
    var kernel: seq<Export>
    var managed: Option<string>

    function Now(): Disk
      reads this
    {
      Disk(kernel, managed)
    }

    /** `_save_exports` */
    method SaveExports(main: Option<string>) returns (read: Main)
      modifies this`managed
      ensures read == ReadMain(main)
      ensures managed == SavedFile(kernel, main)
    {
      managed := None;
      if main.None? { return Missing; }
      var user := ParseExportsFile(main.value);
      if user.None? { return Unreadable; }
      var text := "";
      for k := 0 to |kernel|
        invariant managed == None
        invariant text == FileText(Kept(kernel[..k], user.value))
      {
        var e := kernel[k];
        KeptNext(kernel, user.value, k);
        if !Listed(e, user.value) {
          FileTextEnd(Kept(kernel[..k], user.value), e);
          text := text + FileFormat(e);
        }
      }
      assert kernel[..|kernel|] == kernel;
      managed := Some(text);
      return Exports(user.value);
    }

    /** `nfs_export_add`, with `Nfs.export_add` */
    method ExportAdd(host: string, path: string, options: seq<string>, ec: int, shown: Options,
                     main: Option<string>) returns (answer: Answer)
      modifies this
      ensures (answer, Now()) == AddStep(old(Now()), host, path, options, ec, shown, main)
    {
      var o := FoldPieces(options);
      if o.None? { return BadOption; }
      var e := Make(host, path, o.value);
      if e.None? { return InvalidArgument; }
      if ec == 0 {
        kernel := Added(kernel, e.value.(options := shown));
        var read := SaveExports(main);
        match read
        case Exports(_) => return Success;
        case Unreadable => return InvalidArgument;
        case Missing => return NotSaved;
      } else if ec == 22 {
        return InvalidArgument;
      } else {
        return UnexpectedExit;
      }
    }

    /** `nfs_export_remove`, with `Nfs.export_remove` */
    method ExportRemove(host: string, path: string, ec: int, main: Option<string>) returns (answer: Answer)
      modifies this
      ensures (answer, Now()) == RemoveStep(old(Now()), host, path, ec, main)
    {
      var table := kernel;
      var found := false;
      RemovedAgain(table, host, path);
      for k := 0 to |table|
        invariant found <==> exists i :: 0 <= i < k && table[i].host == host && table[i].path == path
        invariant if found
          then
            && ec == 0 && ReadMain(main).Exports?
            && kernel == Removed(table, host, path) && managed == SavedFile(kernel, main)
          else Now() == old(Now())
      {
        if table[k].host == host && table[k].path == path {
          if ec != 0 { return UnexpectedExit; }
          kernel := Removed(kernel, host, path);
          var read := SaveExports(main);
          if !read.Exports? { return NotSaved; }
          found := true;
        }
      }
      if !found { return NotFound; }
      return Success;
    }
  }

  // ----- Laws -----

  predicate AllStorable(kernel: seq<Export>) {
    forall i :: 0 <= i < |kernel| ==> Storable(kernel[i])
  }

  /** The administrator's file exports that path to that host. */
  predicate Has(user: seq<Export>, path: string, host: string) {
    exists u :: u in user && u.path == path && u.host == host
  }

  /** `l` is what `kernel` has at the places `at`: those of exports whose path the
      administrator's file does not export to the same host, from first to last. */
  ghost predicate Picked(kernel: seq<Export>, user: seq<Export>, at: seq<nat>, l: seq<Export>) {
    && (forall i, j :: 0 <= i < j < |at| ==> at[i] < at[j])
    && (forall i: nat :: i in at <==> i < |kernel| && !Has(user, kernel[i].path, kernel[i].host))
    && |l| == |at| && forall i :: 0 <= i < |at| ==> at[i] < |kernel| && l[i] == kernel[at[i]]
  }

  /** Reading the written file gives exactly those exports of the kernel, in order. */
  ghost predicate Persisted(d: Disk, main: Option<string>) {
    && ReadMain(main).Exports? && d.managed.Some? && FileExports(d.managed.value).Some?
    && exists at :: Picked(d.kernel, ReadMain(main).user, at, FileExports(d.managed.value).value)
  }

  lemma ListedHas(e: Export, user: seq<Export>)
    ensures Listed(e, user) <==> Has(user, e.path, e.host)
  {
    if Has(user, e.path, e.host) {
      var u :| u in user && u.path == e.path && u.host == e.host;
      var i :| 0 <= i < |user| && user[i] == u;
      assert Same(e, user[i]);
    }
  }

  lemma {:induction false} KeptInOrder(kernel: seq<Export>, user: seq<Export>) returns (at: seq<nat>)
    ensures Picked(kernel, user, at, Kept(kernel, user))
  {
    at := [];
    if kernel != [] {
      var n := |kernel| - 1;
      at := KeptInOrder(kernel[..n], user);
      ListedHas(kernel[n], user);
      PickedNext(kernel, user, at, Kept(kernel[..n], user));
      if !Listed(kernel[n], user) { at := at + [n]; }
    }
  }

  lemma PickedNext(kernel: seq<Export>, user: seq<Export>, at: seq<nat>, l: seq<Export>)
    requires kernel != [] && Picked(kernel[..|kernel| - 1], user, at, l)
    ensures var n := |kernel| - 1;
      if Has(user, kernel[n].path, kernel[n].host) then Picked(kernel, user, at, l + [])
      else Picked(kernel, user, at + [n], l + [kernel[n]])
  {
    var n := |kernel| - 1;
    var more := at + [n];
    forall i: nat ensures i in more <==> i in at || i == n {
      if i in at { var k :| 0 <= k < |at| && at[k] == i; assert more[k] == i; }
      if i == n { assert more[|at|] == i; }
    }
  }

  lemma {:induction false} KeptIsKernel(kernel: seq<Export>, user: seq<Export>, e: Export)
    ensures e in Kept(kernel, user) <==> e in kernel && forall u :: u in user ==> u.path != e.path || u.host != e.host
  {
    if kernel != [] {
      var n := |kernel| - 1;
      KeptIsKernel(kernel[..n], user, e);
      ListedHas(kernel[n], user);
      assert kernel == kernel[..n] + [kernel[n]];
    }
  }

  lemma SavePersists(kernel: seq<Export>, main: Option<string>)
    requires AllStorable(kernel)
    ensures Persisted(Disk(kernel, SavedFile(kernel, main)), main) <==> ReadMain(main).Exports?
  {
    if ReadMain(main).Exports? {
      var user := ReadMain(main).user;
      forall e | e in Kept(kernel, user) ensures Storable(e) {
        KeptIsKernel(kernel, user, e);
      }
      FileRoundTrip(Kept(kernel, user));
      var at := KeptInOrder(kernel, user);
    }
  }

  lemma {:induction false} RemovedExact(kernel: seq<Export>, host: string, path: string, e: Export)
    ensures e in Removed(kernel, host, path) <==> e in kernel && !(e.host == host && e.path == path)
  {
    if kernel != [] {
      RemovedExact(kernel[1..], host, path, e);
      assert kernel == [kernel[0]] + kernel[1..];
    }
  }

  /** Adding replaces exactly the export with the same path and host. */
  lemma {:induction false} AddedExact(kernel: seq<Export>, e: Export, f: Export)
    requires Unique(kernel)
    ensures f in Added(kernel, e) <==> f == e || (f in kernel && (f.path != e.path || f.host != e.host))
  {
    if kernel != [] {
      assert kernel == [kernel[0]] + kernel[1..];
      if Same(kernel[0], e) {
        assert forall i :: 1 <= i < |kernel| ==> !Same(kernel[0], kernel[i]);
      } else {
        AddedExact(kernel[1..], e, f);
      }
    }
  }

  lemma {:induction false} RemovedUnique(kernel: seq<Export>, host: string, path: string)
    requires Unique(kernel)
    ensures Unique(Removed(kernel, host, path))
  {
    if kernel != [] {
      var rest := Removed(kernel[1..], host, path);
      RemovedUnique(kernel[1..], host, path);
      forall i | 0 <= i < |rest| ensures !Same(kernel[0], rest[i]) {
        RemovedExact(kernel[1..], host, path, rest[i]);
      }
    }
  }

  lemma {:induction false} AddedUnique(kernel: seq<Export>, e: Export)
    requires Unique(kernel)
    ensures Unique(Added(kernel, e))
  {
    if kernel != [] {
      if Same(kernel[0], e) {
        assert forall i :: 1 <= i < |kernel| ==> !Same(kernel[0], kernel[i]);
      } else {
        var rest := Added(kernel[1..], e);
        AddedUnique(kernel[1..], e);
        forall i | 0 <= i < |rest| ensures !Same(kernel[0], rest[i]) {
          AddedExact(kernel[1..], e, rest[i]);
        }
      }
    }
  }

  // ----- Runs -----

  datatype Call =
    | Add(host: string, path: string, options: seq<string>, ec: int, shown: Options)
    | Remove(host: string, path: string, ec: int)

  function Step(d: Disk, call: Call, main: Option<string>): (Answer, Disk) {
    match call
    case Add(host, path, options, ec, shown) => AddStep(d, host, path, options, ec, shown, main)
    case Remove(host, path, ec) => RemoveStep(d, host, path, ec, main)
  }

  function Run(d: Disk, calls: seq<Call>, main: Option<string>): Disk {
    if calls == [] then d else Step(Run(d, calls[..|calls| - 1], main), calls[|calls| - 1], main).1
  }

  /** What `exportfs` lists for an added export can be written and read back. */
  predicate Readable(call: Call) {
    call.Add? ==> Storable(Export(if call.host == "<world>" then "*" else call.host, call.path, call.shown))
  }

  ghost predicate Good(d: Disk) {
    Unique(d.kernel) && AllStorable(d.kernel)
  }

  lemma AddedGood(kernel: seq<Export>, e: Export)
    requires Unique(kernel) && AllStorable(kernel) && Storable(e)
    ensures Unique(Added(kernel, e)) && AllStorable(Added(kernel, e))
  {
    AddedUnique(kernel, e);
    var k := Added(kernel, e);
    forall i | 0 <= i < |k| ensures Storable(k[i]) { AddedExact(kernel, e, k[i]); }
  }

  lemma RemovedGood(kernel: seq<Export>, host: string, path: string)
    requires Unique(kernel) && AllStorable(kernel)
    ensures Unique(Removed(kernel, host, path)) && AllStorable(Removed(kernel, host, path))
  {
    RemovedUnique(kernel, host, path);
    var k := Removed(kernel, host, path);
    forall i | 0 <= i < |k| ensures Storable(k[i]) { RemovedExact(kernel, host, path, k[i]); }
  }

  /** A call either leaves everything as it was, or it changes the table and then
      the file says so exactly if the administrator's file can be read. */
  lemma StepPersists(d: Disk, call: Call, main: Option<string>)
    requires Good(d) && Readable(call)
    ensures var (answer, d') := Step(d, call, main);
      && Good(d')
      && (d' == d || (Persisted(d', main) <==> ReadMain(main).Exports?))
      && (answer == Success ==> Persisted(d', main))
  {
    match call
    case Add(host, path, options, ec, shown) =>
      var e := Export(if host == "<world>" then "*" else host, path, shown);
      AddedGood(d.kernel, e);
      SavePersists(Added(d.kernel, e), main);
    case Remove(host, path, ec) =>
      RemovedGood(d.kernel, host, path);
      SavePersists(Removed(d.kernel, host, path), main);
  }

  /** Over every run with a readable administrator's file, the written file read
      back is the kernel's table without the administrator's exports. */
  lemma {:induction false} RunPersists(d: Disk, calls: seq<Call>, main: Option<string>)
    requires Good(d) && Persisted(d, main) && forall c :: c in calls ==> Readable(c)
    ensures Good(Run(d, calls, main)) && Persisted(Run(d, calls, main), main)
  {
    if calls != [] {
      var n := |calls| - 1;
      RunPersists(d, calls[..n], main);
      StepPersists(Run(d, calls[..n], main), calls[n], main);
    }
  }

  // ----- Answers -----

  /** The options of an add: readable names and pairs, no rivals, and known keys. */
  ghost predicate GoodOptions(options: seq<string>) {
    Fold(options).Some? && Usable(Fold(options).value)
  }

  /** When an add gives which answer, and what it does to the table. */
  lemma AddAnswers(d: Disk, host: string, path: string, options: seq<string>, ec: int, shown: Options,
                   main: Option<string>)
    ensures var (answer, d') := AddStep(d, host, path, options, ec, shown, main);
      var e := Export(if host == "<world>" then "*" else host, path, shown);
      && (answer == Success <==> GoodOptions(options) && ec == 0 && ReadMain(main).Exports?)
      && (answer == BadOption <==> Fold(options) == None)
      && (answer == InvalidArgument <==>
            && Fold(options).Some?
            && (!GoodOptions(options) || ec == 22 || (ec == 0 && ReadMain(main) == Unreadable)))
      && (answer == UnexpectedExit <==> GoodOptions(options) && ec != 0 && ec != 22)
      && (answer == NotSaved <==> GoodOptions(options) && ec == 0 && ReadMain(main) == Missing)
      && (!(GoodOptions(options) && ec == 0) ==> d' == d)
      && (GoodOptions(options) && ec == 0 ==>
            && e in d'.kernel && (d'.managed.Some? <==> ReadMain(main).Exports?)
            && forall f: Export :: f.path != path || f.host != e.host ==> (f in d'.kernel <==> f in d.kernel))
  {
    var e := Export(if host == "<world>" then "*" else host, path, shown);
    if Fold(options).Some? { UsableIs(Fold(options).value); }
    AddedHas(d.kernel, e);
    forall f: Export | f.path != path || f.host != e.host ensures f in Added(d.kernel, e) <==> f in d.kernel {
      AddedOthers(d.kernel, e, f);
    }
  }

  lemma {:induction false} AddedOthers(kernel: seq<Export>, e: Export, f: Export)
    requires f.path != e.path || f.host != e.host
    ensures f in Added(kernel, e) <==> f in kernel
  {
    if kernel != [] {
      assert kernel == [kernel[0]] + kernel[1..];
      if !Same(kernel[0], e) { AddedOthers(kernel[1..], e, f); }
    }
  }

  /** When a removal gives which answer. */
  lemma RemoveAnswers(d: Disk, host: string, path: string, ec: int, main: Option<string>)
    ensures var (answer, d') := RemoveStep(d, host, path, ec, main);
      && (answer == NotFound <==> !Has(d.kernel, path, host))
      && (answer == UnexpectedExit <==> Has(d.kernel, path, host) && ec != 0)
      && (answer == NotSaved <==> Has(d.kernel, path, host) && ec == 0 && !ReadMain(main).Exports?)
      && (answer == Success <==> Has(d.kernel, path, host) && ec == 0 && ReadMain(main).Exports?)
      && (!(Has(d.kernel, path, host) && ec == 0) ==> d' == d)
      && (Has(d.kernel, path, host) && ec == 0 ==>
            && !Has(d'.kernel, path, host) && (d'.managed.Some? <==> ReadMain(main).Exports?)
            && forall f: Export :: f.path != path || f.host != host ==> (f in d'.kernel <==> f in d.kernel))
  {
    if Has(d.kernel, path, host) {
      var u :| u in d.kernel && u.path == path && u.host == host;
      var i :| 0 <= i < |d.kernel| && d.kernel[i] == u;
    }
    forall f ensures f in Removed(d.kernel, host, path) <==> f in d.kernel && !(f.host == host && f.path == path) {
      RemovedExact(d.kernel, host, path, f);
    }
  }

  /** A successful removal takes every export of that path to that host, and only those. */
  lemma RemovalExact(d: Disk, host: string, path: string, ec: int, main: Option<string>, e: Export)
    requires RemoveStep(d, host, path, ec, main).0 == Success
    ensures var d' := RemoveStep(d, host, path, ec, main).1;
      && (e in d'.kernel <==> e in d.kernel && !(e.host == host && e.path == path))
      && exists f :: f in d.kernel && f.host == host && f.path == path
  {
    RemovedExact(d.kernel, host, path, e);
  }

  /** A file with nothing but a double quote in it cannot be read. */
  lemma QuoteIsUnreadable()
    ensures ReadMain(Some("\"")) == Unreadable
  {
    var text := "\"";
    assert text[1..] == "" && Universal(text) == text && Lines(text) == [text];
    PlainHasNoCodes(text);
    assert NfsFiles.Step('"', Gap, "") == Scan(None, Double, "") && Tokens(text) == None;
    assert LinesExports([text]) == None;
  }

  /** An administrator's file that does not parse: the export is added, the call is
      answered as invalid, and the written file is lost. */
  lemma UnreadableMain(d: Disk, host: string, path: string, options: seq<string>, shown: Options, main: Option<string>)
    requires ReadMain(main) == Unreadable && Fold(options).Some? && Acceptable(Fold(options).value)
    ensures var (answer, d') := AddStep(d, host, path, options, 0, shown, main);
      && answer == InvalidArgument && d'.managed == None
      && exists e :: e in d'.kernel && e.path == path && e.options == shown
  {
    var e := Export(if host == "<world>" then "*" else host, path, shown);
    AddedHas(d.kernel, e);
  }

  lemma {:induction false} AddedHas(kernel: seq<Export>, e: Export)
    ensures e in Added(kernel, e)
  {
    if kernel != [] && !Same(kernel[0], e) {
      AddedHas(kernel[1..], e);
    }
  }
}
