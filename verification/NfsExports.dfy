/** The lines of an exports file: the export record, the scan of a line's tokens,
    and what the printed form of an export reads back as. */
module NfsExports {
  import opened Wrappers
  import opened Strings
  import opened NfsOptions

  datatype Export = Export(host: string, path: string, options: Options)

  /** The mask and the dictionary that the constructor accepts. */
  predicate Acceptable(o: Options) {
    ConflictFree(o.bits) && forall i :: 0 <= i < |o.pairs| ==> o.pairs[i].0 in KEYS
  }

  /** `Export(host, path, options)`; `None` is a `ValueError`. */
  function Make(host: string, path: string, o: Options): Option<Export> {
    if Acceptable(o) then Some(Export(if host == "<world>" then "*" else host, path, o)) else None
  }

  /** What every constructed export satisfies. */
  predicate Proper(e: Export) {
    e.host != "<world>" && Acceptable(e.options) && DistinctKeys(e.options.pairs)
  }

  // ----- The meaning of a token list -----

  predicate Dash(t: string) {
    t != "" && t[0] == '-'
  }

  /** The first dash token that says anything; later ones are hosts. */
  function Global(tokens: seq<string>): string {
    if tokens == [] then ""
    else if Dash(tokens[0]) && |tokens[0]| > 1 then tokens[0][1..]
    else Global(tokens[1..])
  }

  /** Token `i` after the path names a host. */
  predicate IsHost(tokens: seq<string>, i: nat)
    requires i < |tokens|
  {
    i > 0 && tokens[i] != "" && !(Dash(tokens[i]) && Global(tokens[1..i]) == "")
  }

  predicate IsGroup(t: string) {
    ')' in t
  }

  /** The host and the options text of a group token. */
  function GroupParts(t: string): Option<(string, string)>
    requires IsGroup(t)
  {
    if t[0] == '(' then Some(("*", t[1..|t| - 1]))
    else
      var parts := Split(t[..|t| - 1], '(');
      if |parts| == 2 then Some((parts[0], parts[1])) else None
  }

  /** The last group before token `i`: position 0 if there is none. */
  function LastGroup(tokens: seq<string>, i: nat): (g: nat)
    requires i <= |tokens|
    ensures g == 0 || (g < i && IsHost(tokens, g) && IsGroup(tokens[g]))
    ensures forall j :: g < j < i && IsHost(tokens, j) ==> !IsGroup(tokens[j])
  {
    if i == 0 then 0
    else if IsHost(tokens, i - 1) && IsGroup(tokens[i - 1]) then i - 1
    else LastGroup(tokens, i - 1)
  }

  /** The options text in force after token `i - 1`. */
  function Carried(tokens: seq<string>, i: nat): string
    requires i <= |tokens|
  {
    var g := LastGroup(tokens, i);
    if g == 0 || GroupParts(tokens[g]).None? then "" else GroupParts(tokens[g]).value.1
  }

  /** The host that token `i` names and the options text that applies to it. */
  function HostParts(tokens: seq<string>, i: nat): Option<(string, string)>
    requires i < |tokens|
  {
    if IsGroup(tokens[i]) then GroupParts(tokens[i]) else Some((tokens[i], Carried(tokens, i)))
  }

  function Construct(host: string, path: string, global: string, specific: string): Option<Export> {
    match Combine(global, specific)
    case None => None
    case Some(o) => Make(host, path, o)
  }

  /** The export that host token `i` stands for. */
  function ExportAt(tokens: seq<string>, i: nat): Option<Export>
    requires 0 < i < |tokens|
  {
    match HostParts(tokens, i)
    case None => None
    case Some((host, specific)) => Construct(host, tokens[0], Global(tokens[1..i]), specific)
  }

  /** Token `i` spoils the line. */
  predicate Bad(tokens: seq<string>, i: nat)
    requires i < |tokens|
  {
    i > 0 && (tokens[i] == "" || (IsHost(tokens, i) && ExportAt(tokens, i) == None))
  }

  /** The positions of the host tokens before `n`, in order. */
  function Hosts(tokens: seq<string>, n: nat): (h: seq<nat>)
    requires n <= |tokens|
    ensures forall k :: 0 <= k < |h| ==> 0 < h[k] < n && IsHost(tokens, h[k])
    ensures forall j, k :: 0 <= j < k < |h| ==> h[j] < h[k]
  {
    if n == 0 then []
    else if IsHost(tokens, n - 1) then Hosts(tokens, n - 1) + [n - 1]
    else Hosts(tokens, n - 1)
  }

  lemma {:induction false} HostsComplete(tokens: seq<string>, n: nat, i: nat)
    requires i < n <= |tokens| && IsHost(tokens, i)
    ensures i in Hosts(tokens, n)
  {
    if i < n - 1 {
      HostsComplete(tokens, n - 1, i);
    }
  }

  predicate NoneBad(tokens: seq<string>, n: nat)
    requires n <= |tokens|
  {
    forall j :: 0 <= j < n ==> !Bad(tokens, j)
  }

  function GoodExport(tokens: seq<string>, i: nat): (e: Export)
    requires i < |tokens| && IsHost(tokens, i) && !Bad(tokens, i)
    ensures ExportAt(tokens, i) == Some(e)
  {
    ExportAt(tokens, i).value
  }

  /** One export per host token before `n`, in order. */
  function ExportsOf(tokens: seq<string>, n: nat): seq<Export>
    requires n <= |tokens| && NoneBad(tokens, n)
  {
    var hosts := Hosts(tokens, n);
    seq(|hosts|, k requires 0 <= k < |hosts| => GoodExport(tokens, hosts[k]))
  }

  /** The meaning of a line: all its exports, or nothing if any token is bad. */
  function Parsed(tokens: seq<string>): Option<seq<Export>> {
    if tokens == [] then Some([])
    else if |tokens| == 1 then Some([Export("*", tokens[0], NONE)])
    else if NoneBad(tokens, |tokens|) then Some(ExportsOf(tokens, |tokens|))
    else None
  }

  lemma ExportsNone(tokens: seq<string>)
    requires tokens != []
    ensures NoneBad(tokens, 1) && ExportsOf(tokens, 1) == []
  {
    assert Hosts(tokens, 1) == Hosts(tokens, 0) == [];
  }

  lemma ExportsNext(tokens: seq<string>, n: nat)
    requires n < |tokens| && NoneBad(tokens, n) && !Bad(tokens, n)
    ensures NoneBad(tokens, n + 1)
    ensures ExportsOf(tokens, n + 1) ==
      if IsHost(tokens, n) then ExportsOf(tokens, n) + [ExportAt(tokens, n).value] else ExportsOf(tokens, n)
  {
  }

  lemma {:induction false} GlobalEnd(tokens: seq<string>, t: string)
    ensures Global(tokens + [t]) ==
      if Global(tokens) == "" && Dash(t) then t[1..] else Global(tokens)
  {
    if tokens == [] {
      assert (tokens + [t])[1..] == [];
    } else {
      GlobalEnd(tokens[1..], t);
      assert (tokens + [t])[1..] == tokens[1..] + [t];
    }
  }

  /** The host and the options of one token, as the scan takes them. */
  method ReadHost(t: string, options: string) returns (r: Option<(string, string)>)
    requires t != ""
    ensures r == if IsGroup(t) then GroupParts(t) else Some((t, options))
  {
    if ')' !in t { return Some((t, options)); }
    if t[0] != '(' {
      var parts := Split(t[..|t| - 1], '(');
      if |parts| != 2 { return None; }
      return Some((parts[0], parts[1]));
    }
    return Some(("*", t[1..|t| - 1]));
  }

  /** `Export(host, path, *Export.parse_opt(global, specific))` */
  method Build(host: string, path: string, global: string, specific: string) returns (r: Option<Export>)
    ensures r == Construct(host, path, global, specific)
  {
    var o := ParseBoth(global, specific);
    if o.None? { return None; }
    return Make(host, path, o.value);
  }

  lemma CarriedNext(tokens: seq<string>, i: nat)
    requires i < |tokens|
    ensures !IsHost(tokens, i) ==> Carried(tokens, i + 1) == Carried(tokens, i)
    ensures IsHost(tokens, i) && HostParts(tokens, i).Some? ==>
      Carried(tokens, i + 1) == HostParts(tokens, i).value.1
  {
  }

  lemma GlobalNext(tokens: seq<string>, i: nat)
    requires 0 < i < |tokens|
    ensures Global(tokens[1..i + 1]) ==
      if Dash(tokens[i]) && Global(tokens[1..i]) == "" then tokens[i][1..] else Global(tokens[1..i])
  {
    assert tokens[1..i + 1] == tokens[1..i] + [tokens[i]];
    GlobalEnd(tokens[1..i], tokens[i]);
  }

  /** `parse_export` */
  method ParseExport(tokens: seq<string>) returns (r: Option<seq<Export>>)
    ensures r == Parsed(tokens)
  {
    if |tokens| == 0 { return Some([]); }
    var path := tokens[0];
    if |tokens| == 1 { return Some([Make("*", path, NONE).value]); }
    var rc: seq<Export> := [];
    var global, options := "", "";
    ExportsNone(tokens);
    for i := 1 to |tokens|
      invariant global == Global(tokens[1..i])
      invariant options == Carried(tokens, i)
      invariant NoneBad(tokens, i)
      invariant rc == ExportsOf(tokens, i)
    {
      var t := tokens[i];
      GlobalNext(tokens, i);
      CarriedNext(tokens, i);
      if t == "" { assert Bad(tokens, i); return None; }
      if t[0] == '-' && global == "" {
        global := t[1..];
        ExportsNext(tokens, i);
        continue;
      }
      var part := ReadHost(t, options);
      if part.None? { assert Bad(tokens, i); return None; }
      options := part.value.1;
      var e := Build(part.value.0, path, global, options);
      if e.None? { assert Bad(tokens, i); return None; }
      ExportsNext(tokens, i);
      rc := rc + [e.value];
    }
    return Some(rc);
  }

  // ----- Which options a host gets -----

  /** The options that token `i` itself states. */
  function Own(tokens: seq<string>, i: nat): string
    requires i < |tokens|
  {
    if IsGroup(tokens[i]) && GroupParts(tokens[i]).Some? then GroupParts(tokens[i]).value.1 else ""
  }

  /** Host `i` states no options, and the last group before it, at `g`, states some. */
  ghost predicate Inherits(tokens: seq<string>, g: nat, i: nat)
    requires g < i < |tokens|
  {
    && IsHost(tokens, g) && IsHost(tokens, i) && IsGroup(tokens[g]) && !IsGroup(tokens[i])
    && Own(tokens, g) != "" && forall j :: g < j < i && IsHost(tokens, j) ==> !IsGroup(tokens[j])
  }

  /** A readable host gets its own options exactly if it inherits none. */
  lemma OwnOptions(tokens: seq<string>, i: nat)
    requires 0 < i < |tokens| && IsHost(tokens, i) && HostParts(tokens, i).Some?
    ensures HostParts(tokens, i).value.1 == Own(tokens, i) <==> !exists g :: 0 < g < i && Inherits(tokens, g, i)
  {
    var g := LastGroup(tokens, i);
    if HostParts(tokens, i).value.1 != Own(tokens, i) {
      assert Inherits(tokens, g, i);
    }
  }

  // ----- What a line says -----

  /** No option stands beside its rival, and every key is one that exports know. */
  ghost predicate Usable(o: Options) {
    && !({Rw, Ro} <= o.bits) && !({Insecure, Secure} <= o.bits) && !({Sync, Async} <= o.bits)
    && !({Hide, Nohide} <= o.bits) && !({Wdelay, NoWdelay} <= o.bits) && !({RootSquash, NoRootSquash} <= o.bits)
    && forall i :: 0 <= i < |o.pairs| ==>
         o.pairs[i].0 in {"mountpoint", "mp", "fsid", "refer", "replicas", "anonuid", "anongid", "sec"}
  }

  /** The host's own options, and the global ones that they do not override. */
  ghost predicate Combines(o: Options, g: Options, s: Options) {
    && (forall x :: x in o.bits <==> x in s.bits || (x in g.bits && !(Rival(x).Some? && Rival(x).value in s.bits)))
    && AsMap(o.pairs) == AsMap(g.pairs) + AsMap(s.pairs)
  }

  lemma {:induction false} PairKeys(pairs: Pairs, key: string)
    ensures key in AsMap(pairs) <==> exists i :: 0 <= i < |pairs| && pairs[i].0 == key
  {
    if pairs != [] {
      var n := |pairs| - 1;
      PairKeys(pairs[..n], key);
      assert forall i :: 0 <= i < n ==> pairs[..n][i] == pairs[i];
    }
  }

  predicate KeysIn(pairs: Pairs, keys: set<string>) {
    forall i :: 0 <= i < |pairs| ==> pairs[i].0 in keys
  }

  lemma KeysInMap(pairs: Pairs, keys: set<string>)
    ensures KeysIn(pairs, keys) <==> AsMap(pairs).Keys <= keys
  {
    forall key ensures key in AsMap(pairs).Keys <==> exists i :: 0 <= i < |pairs| && pairs[i].0 == key {
      PairKeys(pairs, key);
    }
  }

  lemma UpdateKeys(pairs: Pairs, more: Pairs, keys: set<string>)
    ensures KeysIn(Update(pairs, more), keys) <==> KeysIn(pairs, keys) && KeysIn(more, keys)
  {
    UpdateMeans(pairs, more);
    KeysInMap(pairs, keys);
    KeysInMap(more, keys);
    KeysInMap(Update(pairs, more), keys);
  }

  lemma UsableIs(o: Options)
    ensures Usable(o) <==> ConflictFree(o.bits) && KeysIn(o.pairs, KEYS)
  {
  }

  /** When an export comes about, and what it is. */
  lemma ConstructExact(host: string, path: string, global: string, specific: string)
    ensures var (g, s) := (ParseOptions(global), ParseOptions(specific));
      var made := Construct(host, path, global, specific);
      && (made.Some? <==> g.Some? && s.Some? && Usable(g.value) && Usable(s.value))
      && (made.Some? ==>
            && made.value.path == path && made.value.host == (if host == "<world>" then "*" else host)
            && Combines(made.value.options, g.value, s.value))
  {
    if ParseOptions(global).Some? && ParseOptions(specific).Some? {
      var g, s := ParseOptions(global).value, ParseOptions(specific).value;
      CombineMeans(global, specific, g, s);
      UpdateKeys(g.pairs, s.pairs, KEYS);
      UsableIs(g);
      UsableIs(s);
    }
  }

  /** The token starts with a dash and says something. */
  predicate Says(t: string) {
    |t| > 1 && t[0] == '-'
  }

  /** The global options before a token are those of the first dash token that says
      something, and there are none without one. */
  lemma {:induction false} GlobalExact(tokens: seq<string>, j: nat)
    requires j <= |tokens| && forall k :: 0 <= k < j ==> !Says(tokens[k])
    ensures j == |tokens| ==> Global(tokens) == ""
    ensures j < |tokens| && Says(tokens[j]) ==> Global(tokens) == tokens[j][1..]
  {
    if j > 0 {
      GlobalExact(tokens[1..], j - 1);
    }
  }

  lemma GlobalNone(tokens: seq<string>)
    ensures Global(tokens) == "" <==> forall k :: 0 <= k < |tokens| ==> !Says(tokens[k])
  {
    var j := 0;
    while j < |tokens| && !Says(tokens[j])
      invariant j <= |tokens| && forall k :: 0 <= k < j ==> !Says(tokens[k])
    {
      j := j + 1;
    }
    GlobalExact(tokens, j);
  }

  /** A token behind the path is a host unless it starts with a dash and no token
      before it said what the global options are. */
  lemma HostExact(tokens: seq<string>, i: nat)
    requires 0 < i < |tokens|
    ensures IsHost(tokens, i) <==>
      tokens[i] != "" && (tokens[i][0] == '-' ==> exists k :: 0 < k < i && Says(tokens[k]))
  {
    GlobalNone(tokens[1..i]);
    if k :| 0 < k < i && Says(tokens[k]) { assert tokens[1..i][k - 1] == tokens[k]; }
  }

  /** What a group token says: what is in front of the only parenthesis that opens, and
      what is behind it; the last character is dropped. */
  lemma GroupExact(t: string, host: string, text: string)
    requires IsGroup(t)
    ensures GroupParts(t) == Some((host, text)) <==>
      if t[0] == '(' then host == "*" && text == t[1..|t| - 1]
      else '(' !in host && '(' !in text && t[..|t| - 1] == host + "(" + text
  {
    var front := t[..|t| - 1];
    JoinSplit(front, '(');
    if front == host + "(" + text && '(' !in host && '(' !in text {
      SplitAt(host, text, '(');
      SplitPlain(text, '(');
    }
    if |Split(front, '(')| == 2 {
      var parts := Split(front, '(');
      assert parts[0] in parts && parts[1] in parts;
      assert Join(parts[1..], '(') == parts[1];
    }
  }

  /** Token `i` is a host that can be read. */
  ghost predicate Readable(tokens: seq<string>, i: nat)
    requires 0 < i < |tokens|
  {
    && HostParts(tokens, i).Some?
    && var g := ParseOptions(Global(tokens[1..i]));
       var s := ParseOptions(HostParts(tokens, i).value.1);
       g.Some? && s.Some? && Usable(g.value) && Usable(s.value)
  }

  /** A line is read exactly if no token is empty and every host can be read; otherwise
      all of it is lost. */
  lemma LineRead(tokens: seq<string>)
    requires |tokens| > 1
    ensures Parsed(tokens).Some? <==>
      forall i :: 0 < i < |tokens| ==> tokens[i] != "" && (IsHost(tokens, i) ==> Readable(tokens, i))
  {
    forall i | 0 < i < |tokens|
      ensures Bad(tokens, i) <==> !(tokens[i] != "" && (IsHost(tokens, i) ==> Readable(tokens, i)))
    {
      if HostParts(tokens, i).Some? {
        var (host, specific) := HostParts(tokens, i).value;
        ConstructExact(host, tokens[0], Global(tokens[1..i]), specific);
      }
    }
    assert !Bad(tokens, 0);
  }

  /** A path alone is exported to everybody. */
  lemma LonePath(path: string)
    ensures Parsed([]) == Some([])
    ensures Parsed([path]) == Some([Export("*", path, Options({}, []))])
  {
  }

  /** What each export of a line is: its host token's host, the line's path, and the
      options that it states, or takes over from the last group before it, over the
      global ones so far. */
  lemma LineMeaning(tokens: seq<string>, k: nat, g: Options, s: Options)
    requires |tokens| > 1 && Parsed(tokens).Some? && k < |Parsed(tokens).value|
    ensures |Parsed(tokens).value| == |Hosts(tokens, |tokens|)|
    ensures var (i, e) := (Hosts(tokens, |tokens|)[k], Parsed(tokens).value[k]);
      && HostParts(tokens, i).Some? && e.path == tokens[0]
      && e.host == (if HostParts(tokens, i).value.0 == "<world>" then "*" else HostParts(tokens, i).value.0)
      && (ParseOptions(Global(tokens[1..i])) == Some(g) ==>
            && (ParseOptions(Own(tokens, i)) == Some(s) && (forall j :: 0 < j < i ==> !Inherits(tokens, j, i)) ==>
                  Combines(e.options, g, s))
            && (forall j :: 0 < j < i && Inherits(tokens, j, i) && ParseOptions(Own(tokens, j)) == Some(s) ==>
                  Combines(e.options, g, s)))
  {
    var i := Hosts(tokens, |tokens|)[k];
    assert !Bad(tokens, i);
    var (host, specific) := HostParts(tokens, i).value;
    ConstructExact(host, tokens[0], Global(tokens[1..i]), specific);
    OwnOptions(tokens, i);
    forall j | 0 < j < i && Inherits(tokens, j, i) ensures specific == Own(tokens, j) {
      InheritedOptions(tokens, j, i);
    }
  }

  /** What a host inherits. */
  lemma InheritedOptions(tokens: seq<string>, g: nat, i: nat)
    requires 0 < g < i < |tokens| && Inherits(tokens, g, i)
    ensures HostParts(tokens, i) == Some((tokens[i], Own(tokens, g)))
  {
    assert LastGroup(tokens, i) == g;
  }

  // ----- One and two hosts -----

  /** A host as it may stand before a group: the scan reads it back. */
  predicate Nameable(h: string) {
    h != "" && h[0] != '-' && '(' !in h && h != "<world>"
  }

  function GroupToken(host: string, text: string): string {
    host + "(" + text + ")"
  }

  lemma GroupRead(host: string, text: string)
    requires Nameable(host) && '(' !in text
    ensures var t := GroupToken(host, text);
      t != "" && !Dash(t) && IsGroup(t) && GroupParts(t) == Some((host, text))
  {
    var t := GroupToken(host, text);
    assert t[|t| - 1] == ')' && t[0] == host[0];
    assert t[..|t| - 1] == host + ['('] + text;
    SplitAt(host, text, '(');
    SplitPlain(text, '(');
  }

  lemma GroupExport(path: string, host: string, text: string, o: Options)
    requires Nameable(host) && ParseOptions(text) == Some(o) && Acceptable(o)
    ensures Construct(host, path, "", text) == Some(Export(host, path, o))
  {
    CombineAlone(text, o);
  }

  lemma OneHost(path: string, host: string, text: string, o: Options)
    requires Nameable(host) && '(' !in text && ParseOptions(text) == Some(o) && Acceptable(o)
    ensures Parsed([path, GroupToken(host, text)]) == Some([Export(host, path, o)])
  {
    var tokens := [path, GroupToken(host, text)];
    GroupExport(path, host, text, o);
    FirstHost(tokens, host, text, Export(host, path, o));
  }

  lemma GroupHost(tokens: seq<string>, i: nat, host: string, text: string, e: Export)
    requires 0 < i < |tokens| && tokens[i] == GroupToken(host, text) && Nameable(host) && '(' !in text
    requires Construct(host, tokens[0], Global(tokens[1..i]), text) == Some(e)
    ensures IsHost(tokens, i) && !Bad(tokens, i) && ExportAt(tokens, i) == Some(e)
  {
    GroupRead(host, text);
  }

  lemma FirstHost(tokens: seq<string>, host: string, text: string, e: Export)
    requires |tokens| > 1 && tokens[1] == GroupToken(host, text)
    requires Nameable(host) && '(' !in text && Construct(host, tokens[0], "", text) == Some(e)
    ensures NoneBad(tokens, 2) && ExportsOf(tokens, 2) == [e]
    ensures Carried(tokens, 2) == text && Global(tokens[1..2]) == ""
  {
    GroupRead(host, text);
    assert tokens[1..1] == [];
    GlobalNext(tokens, 1);
    GroupHost(tokens, 1, host, text, e);
    CarriedNext(tokens, 1);
    ExportsNone(tokens);
    ExportsNext(tokens, 1);
  }

  lemma BareHost(tokens: seq<string>, i: nat, bare: string, e: Export)
    requires 0 < i < |tokens| && tokens[i] == bare && bare != "" && !Dash(bare) && !IsGroup(bare)
    requires Construct(bare, tokens[0], Global(tokens[1..i]), Carried(tokens, i)) == Some(e)
    ensures IsHost(tokens, i) && !Bad(tokens, i) && ExportAt(tokens, i) == Some(e)
  {
  }

  lemma ParsedTwo(tokens: seq<string>, a: Export, b: Export)
    requires |tokens| == 3 && NoneBad(tokens, 3) && ExportsOf(tokens, 3) == [a] + [b]
    ensures Parsed(tokens) == Some([a, b])
  {
    assert [a] + [b] == [a, b];
  }

  /** A host without options takes over the options of the host before it, for all
      hosts and options. */
  lemma OptionsLeak(path: string, host: string, text: string, bare: string, o: Options)
    requires Nameable(host) && '(' !in text && ParseOptions(text) == Some(o) && Acceptable(o)
    requires Nameable(bare) && ')' !in bare
    ensures Parsed([path, GroupToken(host, text), bare]) == Some([Export(host, path, o), Export(bare, path, o)])
  {
    var tokens := [path, GroupToken(host, text), bare];
    GroupExport(path, host, text, o);
    GroupExport(path, bare, text, o);
    FirstHost(tokens, host, text, Export(host, path, o));
    var a, b := Export(host, path, o), Export(bare, path, o);
    BareHost(tokens, 2, bare, b);
    ExportsNext(tokens, 2);
    ParsedTwo(tokens, a, b);
  }

  /** A host without options in front takes nothing over. */
  lemma BareFirst(path: string, bare: string, host: string, text: string, o: Options)
    requires Nameable(host) && '(' !in text && ParseOptions(text) == Some(o) && Acceptable(o)
    requires Nameable(bare) && ')' !in bare
    ensures Parsed([path, bare, GroupToken(host, text)]) == Some([Export(bare, path, NONE), Export(host, path, o)])
  {
    var tokens := [path, bare, GroupToken(host, text)];
    var a, b := Export(bare, path, NONE), Export(host, path, o);
    FirstBare(tokens, bare, a);
    GroupExport(path, host, text, o);
    GroupHost(tokens, 2, host, text, b);
    ExportsNext(tokens, 2);
    ParsedTwo(tokens, a, b);
  }

  lemma FirstBare(tokens: seq<string>, bare: string, e: Export)
    requires |tokens| > 1 && tokens[1] == bare && Nameable(bare) && ')' !in bare
    requires e == Export(bare, tokens[0], NONE)
    ensures NoneBad(tokens, 2) && ExportsOf(tokens, 2) == [e] && Global(tokens[1..2]) == ""
  {
    assert tokens[1..1] == [];
    GroupExport(tokens[0], bare, "", NONE);
    BareHost(tokens, 1, bare, e);
    ExportsNone(tokens);
    ExportsNext(tokens, 1);
    GlobalNext(tokens, 1);
  }

  /** Every export that a line yields is one that the constructor accepts, with
      distinct keys. */
  lemma ParsedProper(tokens: seq<string>, e: Export)
    requires Parsed(tokens).Some? && e in Parsed(tokens).value
    ensures Proper(e) && e.path == tokens[0]
  {
    if |tokens| > 1 {
      var k :| 0 <= k < |Parsed(tokens).value| && Parsed(tokens).value[k] == e;
      var i := Hosts(tokens, |tokens|)[k];
      assert !Bad(tokens, i);
      CombineDistinct(Global(tokens[1..i]), HostParts(tokens, i).value.1);
    }
  }
}
