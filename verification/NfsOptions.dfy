/** The NFS export options: bit masks with conflicting pairs, ordered key/value
    pairs, their text form, and the merge of global and specific options. A mask is
    the set of its bits. */
module NfsOptions {
  import opened Wrappers
  import opened Strings

  datatype Opt =
    | Secure | Rw | Ro | Sync | Async | NoWdelay | Nohide | Crossmnt | NoSubtreeCheck
    | InsecureLocks | RootSquash | AllSquash | Wdelay | Hide | Insecure | NoRootSquash | NoAllSquash

  type Mask = set<Opt>

  function Name(o: Opt): string {
    match o
    case Secure => "secure"
    case Rw => "rw"
    case Ro => "ro"
    case Sync => "sync"
    case Async => "async"
    case NoWdelay => "no_wdelay"
    case Nohide => "nohide"
    case Crossmnt => "crossmnt"
    case NoSubtreeCheck => "no_subtree_check"
    case InsecureLocks => "insecure_locks"
    case RootSquash => "root_squash"
    case AllSquash => "all_squash"
    case Wdelay => "wdelay"
    case Hide => "hide"
    case Insecure => "insecure"
    case NoRootSquash => "no_root_squash"
    case NoAllSquash => "no_all_squash"
  }

  /** The order of the option dictionary. */
  const ORDER: seq<Opt> := [
    Secure, Rw, Ro, Sync, Async, NoWdelay, Nohide, Crossmnt, NoSubtreeCheck, InsecureLocks,
    RootSquash, AllSquash, Wdelay, Hide, Insecure, NoRootSquash, NoAllSquash]

  function ByName(s: string): Option<Opt> {
    if s == "secure" then Some(Secure) else if s == "rw" then Some(Rw) else if s == "ro" then Some(Ro)
    else if s == "sync" then Some(Sync) else if s == "async" then Some(Async)
    else if s == "no_wdelay" then Some(NoWdelay) else if s == "nohide" then Some(Nohide)
    else if s == "crossmnt" then Some(Crossmnt) else if s == "no_subtree_check" then Some(NoSubtreeCheck)
    else if s == "insecure_locks" then Some(InsecureLocks) else if s == "root_squash" then Some(RootSquash)
    else if s == "all_squash" then Some(AllSquash) else if s == "wdelay" then Some(Wdelay)
    else if s == "hide" then Some(Hide) else if s == "insecure" then Some(Insecure)
    else if s == "no_root_squash" then Some(NoRootSquash) else if s == "no_all_squash" then Some(NoAllSquash)
    else None
  }

  const KEYS: set<string> := {"mountpoint", "mp", "fsid", "refer", "replicas", "anonuid", "anongid", "sec"}

  /** A dictionary in insertion order. */
  type Pairs = seq<(string, string)>

  datatype Options = Options(bits: Mask, pairs: Pairs)

  predicate DistinctKeys(pairs: Pairs) {
    forall i, j :: 0 <= i < j < |pairs| ==> pairs[i].0 != pairs[j].0
  }

  function KeyAt(pairs: Pairs, key: string): (i: int)
    ensures -1 <= i < |pairs|
    ensures i >= 0 ==> pairs[i].0 == key
    ensures i < 0 ==> forall j :: 0 <= j < |pairs| ==> pairs[j].0 != key
  {
    if pairs == [] then -1
    else if pairs[|pairs| - 1].0 == key then |pairs| - 1
    else KeyAt(pairs[..|pairs| - 1], key)
  }

  /** `d[key] = value`: an existing key keeps its place. */
  function Put(pairs: Pairs, key: string, value: string): Pairs {
    var i := KeyAt(pairs, key);
    if i < 0 then pairs + [(key, value)] else pairs[i := (key, value)]
  }

  /** `d.update(e)` */
  function Update(pairs: Pairs, more: Pairs): Pairs {
    if more == [] then pairs
    else Put(Update(pairs, more[..|more| - 1]), more[|more| - 1].0, more[|more| - 1].1)
  }

  function AsMap(pairs: Pairs): map<string, string> {
    if pairs == [] then map[]
    else AsMap(pairs[..|pairs| - 1])[pairs[|pairs| - 1].0 := pairs[|pairs| - 1].1]
  }

  // ----- Conflicts and merging -----

  predicate Both(m: Mask, a: Opt, b: Opt) {
    a in m && b in m
  }

  /** `_validate_options` raises nothing. */
  predicate ConflictFree(m: Mask) {
    && !Both(m, Rw, Ro) && !Both(m, Insecure, Secure) && !Both(m, Sync, Async)
    && !Both(m, Hide, Nohide) && !Both(m, Wdelay, NoWdelay) && !Both(m, RootSquash, NoRootSquash)
  }

  /** `_override`: what `test` chooses clears its opposite. */
  function Override(combined: Mask, test: Mask, a: Opt, b: Opt): Mask {
    var c1 := if a in test then combined - {b} else combined;
    if b in test then c1 - {a} else c1
  }

  /** Global bits without those that specific bits override. */
  function Merge(g: Mask, s: Mask): Mask {
    var c1 := Override(g + s, s, Ro, Rw);
    var c2 := Override(c1, s, Insecure, Secure);
    var c3 := Override(c2, s, Sync, Async);
    var c4 := Override(c3, s, Hide, Nohide);
    var c5 := Override(c4, s, Wdelay, NoWdelay);
    Override(c5, s, RootSquash, NoRootSquash)
  }

  /** The option that an option excludes. */
  function Rival(o: Opt): Option<Opt> {
    match o
    case Rw => Some(Ro) case Ro => Some(Rw)
    case Insecure => Some(Secure) case Secure => Some(Insecure)
    case Sync => Some(Async) case Async => Some(Sync)
    case Hide => Some(Nohide) case Nohide => Some(Hide)
    case Wdelay => Some(NoWdelay) case NoWdelay => Some(Wdelay)
    case RootSquash => Some(NoRootSquash) case NoRootSquash => Some(RootSquash)
    case _ => None
  }

  /** Two options conflict exactly if each is the other's rival. */
  lemma ConflictsAreRivals(m: Mask)
    ensures ConflictFree(m) <==> forall o :: o in m && Rival(o).Some? ==> Rival(o).value !in m
  {
    if forall o :: o in m && Rival(o).Some? ==> Rival(o).value !in m {
      assert !(Rw in m && Rival(Rw).value in m) && !(Insecure in m && Rival(Insecure).value in m);
      assert !(Sync in m && Rival(Sync).value in m) && !(Hide in m && Rival(Hide).value in m);
      assert !(Wdelay in m && Rival(Wdelay).value in m) && !(RootSquash in m && Rival(RootSquash).value in m);
    }
  }

  /** Option by option: a specific choice wins, and a global choice stays exactly
      if the specific options are silent on its rival. */
  lemma MergeMeans(g: Mask, s: Mask, o: Opt)
    requires ConflictFree(s)
    ensures o in Merge(g, s) <==> o in s || (o in g && !(Rival(o).Some? && Rival(o).value in s))
  {
  }

  /** The merge has no conflict of its own making. */
  lemma MergeConflictFree(g: Mask, s: Mask)
    requires ConflictFree(g) && ConflictFree(s)
    ensures ConflictFree(Merge(g, s)) && s <= Merge(g, s) <= g + s
  {
    forall o ensures o in Merge(g, s) <==> o in s || (o in g && !(Rival(o).Some? && Rival(o).value in s)) {
      MergeMeans(g, s, o);
    }
  }

  lemma MergeIdentity(m: Mask)
    requires ConflictFree(m)
    ensures Merge(m, {}) == m && Merge({}, m) == m
  {
    forall o ensures (o in Merge(m, {}) <==> o in m) && (o in Merge({}, m) <==> o in m) {
      MergeMeans(m, {}, o);
      MergeMeans({}, m, o);
    }
  }

  lemma MergeBoth(a: Mask, b: Mask, c: Mask, o: Opt)
    requires ConflictFree(b) && ConflictFree(c)
    ensures o in Merge(Merge(a, b), c) <==> o in Merge(a, Merge(b, c))
  {
    MergeConflictFree(b, c);
    MergeMeans(Merge(a, b), c, o);
    MergeMeans(a, b, o);
    MergeMeans(a, Merge(b, c), o);
    MergeMeans(b, c, o);
    if Rival(o).Some? {
      MergeMeans(b, c, Rival(o).value);
    }
  }

  lemma MergeAssociative(a: Mask, b: Mask, c: Mask)
    requires ConflictFree(b) && ConflictFree(c)
    ensures Merge(Merge(a, b), c) == Merge(a, Merge(b, c))
  {
    forall o ensures o in Merge(Merge(a, b), c) <==> o in Merge(a, Merge(b, c)) {
      MergeBoth(a, b, c, o);
    }
  }

  lemma AsMapEnd(pairs: Pairs, pair: (string, string))
    ensures AsMap(pairs + [pair]) == AsMap(pairs)[pair.0 := pair.1]
  {
    assert (pairs + [pair])[..|pairs|] == pairs;
  }

  /** Where `Put` puts, seen from the last entry. */
  lemma PutEnd(init: Pairs, last: (string, string), key: string, value: string)
    ensures Put(init + [last], key, value) ==
      if last.0 == key then init + [(key, value)]
      else if KeyAt(init, key) < 0 then init + [last] + [(key, value)]
      else Put(init, key, value) + [last]
  {
    assert (init + [last])[..|init|] == init;
  }

  lemma {:induction false} PutMeans(pairs: Pairs, key: string, value: string)
    ensures AsMap(Put(pairs, key, value)) == AsMap(pairs)[key := value]
  {
    if pairs == [] {
      AsMapEnd([], (key, value));
    } else {
      var init, last := pairs[..|pairs| - 1], pairs[|pairs| - 1];
      assert pairs == init + [last];
      PutEnd(init, last, key, value);
      AsMapEnd(init, last);
      if last.0 == key {
        AsMapEnd(init, (key, value));
      } else if KeyAt(init, key) < 0 {
        AsMapEnd(pairs, (key, value));
      } else {
        PutMeans(init, key, value);
        AsMapEnd(Put(init, key, value), last);
      }
    }
  }

  lemma PutDistinct(pairs: Pairs, key: string, value: string)
    requires DistinctKeys(pairs)
    ensures DistinctKeys(Put(pairs, key, value))
  {
  }

  /** `update` is the right-biased union of dictionaries. */
  lemma {:induction false} UpdateMeans(pairs: Pairs, more: Pairs)
    ensures AsMap(Update(pairs, more)) == AsMap(pairs) + AsMap(more)
  {
    if more != [] {
      var n := |more| - 1;
      UpdateMeans(pairs, more[..n]);
      PutMeans(Update(pairs, more[..n]), more[n].0, more[n].1);
      UnionPut(AsMap(pairs), AsMap(more[..n]), more[n].0, more[n].1);
    }
  }

  lemma {:induction false} UpdateDistinct(pairs: Pairs, more: Pairs)
    requires DistinctKeys(pairs)
    ensures DistinctKeys(Update(pairs, more))
  {
    if more != [] {
      var n := |more| - 1;
      UpdateDistinct(pairs, more[..n]);
      PutDistinct(Update(pairs, more[..n]), more[n].0, more[n].1);
    }
  }

  lemma UnionPut<K, V>(a: map<K, V>, b: map<K, V>, k: K, v: V)
    ensures (a + b)[k := v] == a + b[k := v]
  {
  }

  lemma UnionAssociative<K, V>(a: map<K, V>, b: map<K, V>, c: map<K, V>)
    ensures (a + b) + c == a + (b + c)
  {
  }

  lemma UpdateAssociative(a: Pairs, b: Pairs, c: Pairs)
    ensures AsMap(Update(Update(a, b), c)) == AsMap(Update(a, Update(b, c)))
  {
    UpdateMeans(Update(a, b), c);
    UpdateMeans(a, b);
    UpdateMeans(a, Update(b, c));
    UpdateMeans(b, c);
    UnionAssociative(AsMap(a), AsMap(b), AsMap(c));
  }

  // ----- Parsing -----

  const NONE := Options({}, [])

  /** One comma-separated piece; `None` is an exception. */
  function Apply(acc: Options, piece: string): Option<Options> {
    if '=' in piece then
      var kv := Split(piece, '=');
      if |kv| != 2 then None else Some(acc.(pairs := Put(acc.pairs, kv[0], kv[1])))
    else match ByName(piece)
      case None => None
      case Some(o) => Some(acc.(bits := acc.bits + {o}))
  }

  function Fold(pieces: seq<string>): Option<Options> {
    if pieces == [] then Some(NONE)
    else match Fold(pieces[..|pieces| - 1])
      case None => None
      case Some(acc) => Apply(acc, pieces[|pieces| - 1])
  }

  /** `_parse_opt` */
  function ParseOptions(text: string): Option<Options> {
    if text == "" then Some(NONE) else Fold(Split(text, ','))
  }

  lemma {:induction false} FoldFails(pieces: seq<string>, k: nat)
    requires k <= |pieces| && Fold(pieces[..k]) == None
    ensures Fold(pieces) == None
    decreases |pieces| - k
  {
    if k < |pieces| {
      assert pieces[..k + 1][..k] == pieces[..k];
      FoldFails(pieces, k + 1);
    } else {
      assert pieces[..k] == pieces;
    }
  }

  /** The loop over the pieces, as `_parse_opt` and `nfs_export_add` have it. */
  method FoldPieces(pieces: seq<string>) returns (r: Option<Options>)
    ensures r == Fold(pieces)
  {
    var bits: Mask := {};
    var pairs: Pairs := [];
    for k := 0 to |pieces|
      invariant Fold(pieces[..k]) == Some(Options(bits, pairs))
    {
      var o := pieces[k];
      assert pieces[..k + 1][..k] == pieces[..k];
      FoldStops(pieces, k);
      if '=' in o {
        var kv := Split(o, '=');
        if |kv| != 2 { return None; }
        pairs := Put(pairs, kv[0], kv[1]);
      } else {
        var opt := ByName(o);
        if opt.None? { return None; }
        bits := bits + {opt.value};
      }
    }
    assert pieces[..|pieces|] == pieces;
    return Some(Options(bits, pairs));
  }

  lemma FoldStops(pieces: seq<string>, k: nat)
    requires k < |pieces|
    ensures Fold(pieces[..k + 1]) == None ==> Fold(pieces) == None
  {
    if Fold(pieces[..k + 1]) == None { FoldFails(pieces, k + 1); }
  }

  method ParseOpt(text: string) returns (r: Option<Options>)
    ensures r == ParseOptions(text)
  {
    if |text| == 0 { return Some(NONE); }
    r := FoldPieces(Split(text, ','));
  }

  /** What global and specific options come to together; `None` is an exception. */
  function Combine(global: string, specific: string): Option<Options> {
    match (ParseOptions(global), ParseOptions(specific))
    case (Some(g), Some(s)) =>
      if ConflictFree(g.bits) && ConflictFree(s.bits)
      then Some(Options(Merge(g.bits, s.bits), Update(g.pairs, s.pairs)))
      else None
    case _ => None
  }

  /** `parse_opt` with both arguments. */
  method ParseBoth(global: string, specific: string) returns (r: Option<Options>)
    ensures r == Combine(global, specific)
  {
    var g := ParseOpt(global);
    if g.None? { return None; }
    var s := ParseOpt(specific);
    if s.None? || !ConflictFree(g.value.bits) || !ConflictFree(s.value.bits) { return None; }
    var test := s.value.bits;
    var culled := g.value.bits + test;
    culled := Override(culled, test, Ro, Rw);
    culled := Override(culled, test, Insecure, Secure);
    culled := Override(culled, test, Sync, Async);
    culled := Override(culled, test, Hide, Nohide);
    culled := Override(culled, test, Wdelay, NoWdelay);
    culled := Override(culled, test, RootSquash, NoRootSquash);
    return Some(Options(culled, Update(g.value.pairs, s.value.pairs)));
  }

  /** The combination of two readable, conflict-free option texts: every specific
      choice, the global choices they leave standing, and the dictionaries' union. */
  lemma CombineMeans(global: string, specific: string, g: Options, s: Options)
    requires ParseOptions(global) == Some(g) && ParseOptions(specific) == Some(s)
    ensures Combine(global, specific).Some? <==> ConflictFree(g.bits) && ConflictFree(s.bits)
    ensures Combine(global, specific).Some? ==>
      var r := Combine(global, specific).value;
      && ConflictFree(r.bits)
      && (forall o :: o in r.bits <==> o in s.bits || (o in g.bits && !(Rival(o).Some? && Rival(o).value in s.bits)))
      && AsMap(r.pairs) == AsMap(g.pairs) + AsMap(s.pairs)
  {
    if ConflictFree(g.bits) && ConflictFree(s.bits) {
      MergeConflictFree(g.bits, s.bits);
      forall o ensures o in Merge(g.bits, s.bits)
        <==> o in s.bits || (o in g.bits && !(Rival(o).Some? && Rival(o).value in s.bits))
      {
        MergeMeans(g.bits, s.bits, o);
      }
    }
    UpdateMeans(g.pairs, s.pairs);
  }

  lemma {:induction false} FoldDistinct(pieces: seq<string>)
    ensures Fold(pieces).Some? ==> DistinctKeys(Fold(pieces).value.pairs)
  {
    if pieces != [] {
      var init, last := pieces[..|pieces| - 1], pieces[|pieces| - 1];
      FoldDistinct(init);
      if Fold(init).Some? && '=' in last {
        var kv := Split(last, '=');
        if |kv| == 2 { PutDistinct(Fold(init).value.pairs, kv[0], kv[1]); }
      }
    }
  }

  /** What is parsed and combined is a dictionary again. */
  lemma CombineDistinct(global: string, specific: string)
    ensures Combine(global, specific).Some? ==> DistinctKeys(Combine(global, specific).value.pairs)
  {
    if Combine(global, specific).Some? {
      FoldDistinct(Split(global, ','));
      UpdateDistinct(ParseOptions(global).value.pairs, ParseOptions(specific).value.pairs);
    }
  }

  lemma {:induction false} UpdateEmpty(more: Pairs)
    requires DistinctKeys(more)
    ensures Update([], more) == more
  {
    if more != [] {
      var n := |more| - 1;
      UpdateEmpty(more[..n]);
      PutFresh(more[..n], more[n]);
      assert more[..n] + [more[n]] == more;
    }
  }

  lemma CombineAlone(text: string, o: Options)
    requires ParseOptions(text) == Some(o) && ConflictFree(o.bits)
    ensures Combine("", text) == Some(o)
  {
    FoldDistinct(Split(text, ','));
    UpdateEmpty(o.pairs);
    MergeIdentity(o.bits);
  }

  // ----- Printing -----

  function NamesOf(order: seq<Opt>, bits: Mask): seq<string> {
    if order == [] then []
    else
      var o := order[|order| - 1];
      NamesOf(order[..|order| - 1], bits) + (if o in bits then [Name(o)] else [])
  }

  function PairText(pair: (string, string)): string {
    pair.0 + "=" + pair.1
  }

  function PairTexts(pairs: Pairs): seq<string> {
    seq(|pairs|, i requires 0 <= i < |pairs| => PairText(pairs[i]))
  }

  function Pieces(o: Options): seq<string> {
    NamesOf(ORDER, o.bits) + PairTexts(o.pairs)
  }

  /** `options_string` */
  function Text(o: Options): string {
    Join(Pieces(o), ',')
  }

  /** `options_list` */
  method OptionsList(o: Options) returns (l: seq<string>)
    ensures l == Pieces(o)
  {
    l := [];
    for k := 0 to |ORDER|
      invariant l == NamesOf(ORDER[..k], o.bits)
    {
      assert ORDER[..k + 1][..k] == ORDER[..k];
      if ORDER[k] in o.bits { l := l + [Name(ORDER[k])]; }
    }
    assert ORDER[..|ORDER|] == ORDER;
    for k := 0 to |o.pairs|
      invariant l == NamesOf(ORDER, o.bits) + PairTexts(o.pairs[..k])
    {
      l := l + [PairText(o.pairs[k])];
    }
    assert o.pairs[..|o.pairs|] == o.pairs;
  }

  // ----- The round trip -----

  predicate Plain(s: string) {
    ',' !in s && '=' !in s
  }

  predicate PlainPairs(pairs: Pairs) {
    DistinctKeys(pairs) && forall i :: 0 <= i < |pairs| ==> Plain(pairs[i].0) && Plain(pairs[i].1)
  }

  lemma NamesResolve(o: Opt)
    ensures ByName(Name(o)) == Some(o)
  {
  }

  /** The dictionary knows no other names. */
  lemma OnlyNamesResolve(s: string)
    ensures ByName(s).Some? ==> Name(ByName(s).value) == s
  {
  }

  /** Lower-case letters and underscores. */
  predicate IsWord(s: string) {
    s != "" && forall i :: 0 <= i < |s| ==> 'a' <= s[i] <= 'z' || s[i] == '_'
  }

  lemma ShortNamesAreWords(o: Opt)
    requires |Name(o)| <= 8
    ensures IsWord(Name(o))
  {
  }

  lemma LongNamesAreWords(o: Opt)
    requires |Name(o)| > 8
    ensures IsWord(Name(o))
  {
  }

  lemma NamesAreWords(o: Opt)
    ensures IsWord(Name(o))
  {
    if |Name(o)| <= 8 { ShortNamesAreWords(o); } else { LongNamesAreWords(o); }
  }

  lemma KeysAreWords(key: string)
    requires key in KEYS
    ensures IsWord(key)
  {
  }

  lemma FoldStep(pieces: seq<string>, acc: Options, piece: string)
    requires Fold(pieces) == Some(acc)
    ensures Fold(pieces + [piece]) == Apply(acc, piece)
  {
    assert (pieces + [piece])[..|pieces|] == pieces;
  }

  function Chosen(order: seq<Opt>, bits: Mask): Mask {
    set o | o in order && o in bits
  }

  lemma ChosenEnd(order: seq<Opt>, bits: Mask)
    requires order != []
    ensures var n := |order| - 1;
      Chosen(order, bits)
      == if order[n] in bits then Chosen(order[..n], bits) + {order[n]} else Chosen(order[..n], bits)
  {
    var n := |order| - 1;
    assert forall o :: o in order <==> o in order[..n] || o == order[n];
  }

  lemma {:induction false} FoldNames(order: seq<Opt>, bits: Mask)
    ensures Fold(NamesOf(order, bits)) == Some(Options(Chosen(order, bits), []))
  {
    if order == [] {
      assert Chosen(order, bits) == {};
    } else {
      var n, o := |order| - 1, order[|order| - 1];
      FoldNames(order[..n], bits);
      ChosenEnd(order, bits);
      var names, acc := NamesOf(order[..n], bits), Options(Chosen(order[..n], bits), []);
      if o in bits {
        NamesResolve(o);
        NamesAreWords(o);
        FoldStep(names, acc, Name(o));
      } else {
        assert NamesOf(order, bits) == names + [] == names;
      }
    }
  }

  lemma ApplyPair(acc: Options, pair: (string, string))
    requires Plain(pair.0) && Plain(pair.1)
    ensures Apply(acc, PairText(pair)) == Some(acc.(pairs := Put(acc.pairs, pair.0, pair.1)))
  {
    SplitAt(pair.0, pair.1, '=');
    SplitPlain(pair.1, '=');
    assert PairText(pair) == pair.0 + ['='] + pair.1;
    assert PairText(pair)[|pair.0|] == '=';
  }

  lemma PairTextsEnd(pairs: Pairs, pair: (string, string))
    ensures PairTexts(pairs + [pair]) == PairTexts(pairs) + [PairText(pair)]
  {
  }

  lemma PutFresh(pairs: Pairs, pair: (string, string))
    requires forall i :: 0 <= i < |pairs| ==> pairs[i].0 != pair.0
    ensures Put(pairs, pair.0, pair.1) == pairs + [pair]
  {
    assert pair == (pair.0, pair.1);
  }

  lemma FoldPair(pieces: seq<string>, bits: Mask, pairs: Pairs, pair: (string, string))
    requires Fold(pieces) == Some(Options(bits, pairs)) && PlainPairs(pairs + [pair])
    ensures Fold(pieces + [PairText(pair)]) == Some(Options(bits, pairs + [pair]))
  {
    var all, n := pairs + [pair], |pairs|;
    assert all[n] == pair && forall i :: 0 <= i < n ==> all[i] == pairs[i];
    FoldStep(pieces, Options(bits, pairs), PairText(pair));
    ApplyPair(Options(bits, pairs), pair);
    PutFresh(pairs, pair);
  }

  lemma PlainInit(init: Pairs, last: (string, string))
    requires PlainPairs(init + [last])
    ensures PlainPairs(init)
  {
    assert forall i :: 0 <= i < |init| ==> (init + [last])[i] == init[i];
  }

  lemma {:induction false} FoldPairs(names: seq<string>, bits: Mask, pairs: Pairs)
    requires Fold(names) == Some(Options(bits, [])) && PlainPairs(pairs)
    ensures Fold(names + PairTexts(pairs)) == Some(Options(bits, pairs))
  {
    if pairs == [] {
      assert names + PairTexts(pairs) == names;
    } else {
      var init, last := pairs[..|pairs| - 1], pairs[|pairs| - 1];
      assert pairs == init + [last];
      PlainInit(init, last);
      FoldPairs(names, bits, init);
      PairTextsEnd(init, last);
      assert names + (PairTexts(init) + [PairText(last)]) == (names + PairTexts(init)) + [PairText(last)];
      FoldPair(names + PairTexts(init), bits, init, last);
    }
  }

  lemma AllOptions(o: Opt)
    ensures o in ORDER
  {
    assert ORDER[0] == Secure && ORDER[1] == Rw && ORDER[2] == Ro && ORDER[3] == Sync && ORDER[4] == Async;
    assert ORDER[5] == NoWdelay && ORDER[6] == Nohide && ORDER[7] == Crossmnt && ORDER[8] == NoSubtreeCheck;
    assert ORDER[9] == InsecureLocks && ORDER[10] == RootSquash && ORDER[11] == AllSquash && ORDER[12] == Wdelay;
    assert ORDER[13] == Hide && ORDER[14] == Insecure && ORDER[15] == NoRootSquash && ORDER[16] == NoAllSquash;
  }

  lemma PiecesFold(o: Options)
    requires PlainPairs(o.pairs)
    ensures Fold(Pieces(o)) == Some(o)
  {
    FoldNames(ORDER, o.bits);
    forall x ensures x in Chosen(ORDER, o.bits) <==> x in o.bits { AllOptions(x); }
    assert Chosen(ORDER, o.bits) == o.bits;
    FoldPairs(NamesOf(ORDER, o.bits), o.bits, o.pairs);
  }

  lemma {:induction false} NamesOnly(order: seq<Opt>, bits: Mask, p: string)
    requires p in NamesOf(order, bits)
    ensures ',' !in p && p != ""
  {
    var n := |order| - 1;
    if p in NamesOf(order[..n], bits) {
      NamesOnly(order[..n], bits, p);
    } else {
      NamesAreWords(order[n]);
    }
  }

  lemma PiecesArePlain(o: Options, p: string)
    requires PlainPairs(o.pairs) && p in Pieces(o)
    ensures ',' !in p && p != ""
  {
    if p in NamesOf(ORDER, o.bits) {
      NamesOnly(ORDER, o.bits, p);
    } else {
      var i :| 0 <= i < |o.pairs| && p == PairText(o.pairs[i]);
      assert p[|o.pairs[i].0|] == '=';
    }
  }

  lemma JoinIsText(parts: seq<string>, sep: char)
    requires parts != [] && parts[0] != ""
    ensures Join(parts, sep) != ""
  {
  }

  lemma PutPlain(pairs: Pairs, key: string, value: string)
    requires PlainPairs(pairs) && Plain(key) && Plain(value)
    ensures PlainPairs(Put(pairs, key, value))
  {
    PutDistinct(pairs, key, value);
  }

  /** Parsing can only ever give plain keys and values. */
  lemma {:induction false} FoldPlain(pieces: seq<string>)
    requires Fold(pieces).Some? && forall p :: p in pieces ==> ',' !in p
    ensures PlainPairs(Fold(pieces).value.pairs)
  {
    if pieces != [] {
      var init, last := pieces[..|pieces| - 1], pieces[|pieces| - 1];
      FoldPlain(init);
      assert last in pieces;
      if '=' in last { PartsPlain(last, Fold(init).value.pairs); }
    }
  }

  lemma PartsPlain(piece: string, pairs: Pairs)
    requires ',' !in piece && |Split(piece, '=')| == 2 && PlainPairs(pairs)
    ensures PlainPairs(Put(pairs, Split(piece, '=')[0], Split(piece, '=')[1]))
  {
    var kv := Split(piece, '=');
    JoinSplit(piece, '=');
    assert kv[0] in kv && kv[1] in kv;
    assert Join(kv, '=') == kv[0] + ['='] + Join(kv[1..], '=') && Join(kv[1..], '=') == kv[1];
    assert piece == kv[0] + ['='] + kv[1];
    PutPlain(pairs, kv[0], kv[1]);
  }

  lemma PlainReadsBack(o: Options)
    requires PlainPairs(o.pairs)
    ensures ParseOptions(Text(o)) == Some(o)
  {
    PiecesFold(o);
    var pieces := Pieces(o);
    forall p | p in pieces ensures ',' !in p && p != "" { PiecesArePlain(o, p); }
    if pieces != [] {
      assert pieces[0] in pieces;
      SplitJoin(pieces, ',');
      JoinIsText(pieces, ',');
    }
  }

  /** Parsing the printed options gives the options back, for every mask, exactly if
      the dictionary has distinct keys and no comma or equals sign; also when there
      is nothing to print. */
  lemma OptionsRoundTrip(o: Options)
    ensures ParseOptions(Text(o)) == Some(o) <==> PlainPairs(o.pairs)
  {
    if PlainPairs(o.pairs) {
      PlainReadsBack(o);
    } else if ParseOptions(Text(o)) == Some(o) {
      FoldPlain(Split(Text(o), ','));
    }
  }
}
