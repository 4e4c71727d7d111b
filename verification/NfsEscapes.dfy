/** Octal escapes in exports files: the decoder made of replace-alls, against a
    decoder that reads the text once from left to right. */
module NfsEscapes {

  predicate Octal(c: char) {
    '0' <= c <= '7'
  }

  /** The text starts with `\nnn`. */
  predicate Escaped(s: string) {
    |s| >= 4 && s[0] == '\\' && Octal(s[1]) && Octal(s[2]) && Octal(s[3])
  }

  predicate IsCode(code: string) {
    |code| == 3 && Octal(code[0]) && Octal(code[1]) && Octal(code[2])
  }

  function Digit(c: char): (d: int)
    requires Octal(c)
    ensures 0 <= d < 8
  {
    c as int - '0' as int
  }

  /** `chr(int(nnn, 8))` */
  function Chr(code: string): char
    requires IsCode(code)
  {
    (64 * Digit(code[0]) + 8 * Digit(code[1]) + Digit(code[2])) as char
  }

  /** `re.finditer`: the codes of all escapes, from left to right. */
  function Codes(s: string): (codes: seq<string>)
    ensures forall c :: c in codes ==> IsCode(c)
  {
    if s == "" then []
    else if Escaped(s) then [s[1..4]] + Codes(s[4..])
    else Codes(s[1..])
  }

  /** `s.replace("\\" + code, c)` */
  function ReplaceAll(s: string, code: string, c: char): string
    requires IsCode(code)
  {
    if s == "" then ""
    else if Escaped(s) && s[1..4] == code then [c] + ReplaceAll(s[4..], code, c)
    else [s[0]] + ReplaceAll(s[1..], code, c)
  }

  /** One left-to-right reading that decodes the codes in `known`. */
  function DecodeSome(s: string, known: set<string>): string {
    if s == "" then ""
    else if Escaped(s) && s[1..4] in known then [Chr(s[1..4])] + DecodeSome(s[4..], known)
    else [s[0]] + DecodeSome(s[1..], known)
  }

  /** One left-to-right reading. */
  function Decode(s: string): string {
    if s == "" then ""
    else if Escaped(s) then [Chr(s[1..4])] + Decode(s[4..])
    else [s[0]] + Decode(s[1..])
  }

  /** A backslash that starts no escape, or one that an escape in `known` stands for,
      is followed by the digits of `code` once the codes in `known` are decoded. */
  predicate NewEscape(s: string, known: set<string>, code: string) {
    if s == "" then false
    else if Escaped(s) then
      || (s[1..4] in known && Chr(s[1..4]) == '\\' && code <= DecodeSome(s[4..], known))
      || NewEscape(s[4..], known, code)
    else
      || (s[0] == '\\' && code <= DecodeSome(s[1..], known))
      || NewEscape(s[1..], known, code)
  }

  function SetOf(codes: seq<string>): set<string> {
    set c | c in codes
  }

  /** The `j`-th code, when its turn comes, meets an escape that was not in the text. */
  predicate Disturbed(s: string, j: nat)
    requires j < |Codes(s)|
  {
    NewEscape(s, SetOf(Codes(s)[..j]), Codes(s)[j])
  }

  predicate Steady(s: string) {
    forall j :: 0 <= j < |Codes(s)| ==> !Disturbed(s, j)
  }

  /** What the loop over the matches computes. */
  function ReplaceEach(s: string, codes: seq<string>): string
    requires forall c :: c in codes ==> IsCode(c)
    decreases |codes|
  {
    if codes == [] then s
    else ReplaceEach(ReplaceAll(s, codes[0], Chr(codes[0])), codes[1..])
  }

  function ChrEncoded(s: string): string {
    ReplaceEach(s, Codes(s))
  }

  /** `_chr_encode` */
  method ChrEncode(s: string) returns (r: string)
    ensures r == ChrEncoded(s)
  {
    var codes := Codes(s);
    r := s;
    for k := 0 to |codes|
      invariant ReplaceEach(r, codes[k..]) == ReplaceEach(s, codes)
    {
      assert codes[k..][0] == codes[k] && codes[k..][1..] == codes[k + 1..];
      r := ReplaceAll(r, codes[k], Chr(codes[k]));
    }
  }

  /** No escape stands for a character that an escape is made of. */
  predicate Inert(code: string)
    requires IsCode(code)
  {
    Chr(code) != '\\' && !Octal(Chr(code))
  }

  ghost predicate AllInert(s: string) {
    forall c :: c in Codes(s) ==> Inert(c)
  }

  predicate DigitFirst(s: string) {
    s != "" && Octal(s[0])
  }

  /** Decoding puts no octal digit in front. */
  lemma DigitStays(t: string, known: set<string>)
    requires AllInert(t) && DigitFirst(DecodeSome(t, known))
    ensures DigitFirst(t) && AllInert(t[1..]) && DecodeSome(t, known)[1..] == DecodeSome(t[1..], known)
  {
    assert Escaped(t) ==> t[1..4] in Codes(t);
  }

  predicate DigitsFirst(s: string) {
    |s| >= 3 && Octal(s[0]) && Octal(s[1]) && Octal(s[2])
  }

  lemma DigitsStay(t: string, known: set<string>)
    requires AllInert(t) && DigitsFirst(DecodeSome(t, known))
    ensures DigitsFirst(t)
  {
    DigitStays(t, known);
    DigitStays(t[1..], known);
    DigitStays(t[2..], known);
  }

  /** Decoding inert escapes makes no new one. */
  lemma {:induction false} InertMakesNone(s: string, known: set<string>, code: string)
    requires AllInert(s) && IsCode(code)
    ensures !NewEscape(s, known, code)
  {
    if s == "" {
    } else if Escaped(s) {
      assert s[1..4] in Codes(s);
      InertMakesNone(s[4..], known, code);
    } else {
      InertMakesNone(s[1..], known, code);
      if DigitsFirst(DecodeSome(s[1..], known)) { DigitsStay(s[1..], known); }
    }
  }

  /** An escape that is not decoded stays in the text. */
  lemma EscapeStays(s: string, known: set<string>)
    requires Escaped(s) && s[1..4] !in known
    ensures DecodeSome(s, known) == s[..4] + DecodeSome(s[4..], known)
  {
    var a, b := s[1..], s[2..];
    assert DecodeSome(s, known) == [s[0]] + DecodeSome(a, known);
    assert a[1..] == b && DecodeSome(a, known) == [s[1]] + DecodeSome(b, known);
    assert b[1..] == s[3..] && DecodeSome(b, known) == [s[2]] + DecodeSome(s[3..], known);
    assert s[3..][1..] == s[4..] && DecodeSome(s[3..], known) == [s[3]] + DecodeSome(s[4..], known);
  }

  lemma ReplaceEscape(s: string, rest: string, code: string)
    requires |s| == 4 && Escaped(s) && IsCode(code)
    ensures ReplaceAll(s + rest, code, Chr(code)) ==
      if s[1..] == code then [Chr(code)] + ReplaceAll(rest, code, Chr(code))
      else s + ReplaceAll(rest, code, Chr(code))
  {
    var t := s + rest;
    assert t[4..] == rest && t[1..4] == s[1..];
    var c := Chr(code);
    if s[1..] != code {
      assert ReplaceAll(t, code, c) == [s[0]] + ReplaceAll(t[1..], code, c);
      assert t[1..][1..] == t[2..] && ReplaceAll(t[1..], code, c) == [s[1]] + ReplaceAll(t[2..], code, c);
      assert t[2..][1..] == t[3..] && ReplaceAll(t[2..], code, c) == [s[2]] + ReplaceAll(t[3..], code, c);
      assert t[3..][1..] == t[4..] && ReplaceAll(t[3..], code, c) == [s[3]] + ReplaceAll(t[4..], code, c);
    }
  }

  /** Replacing one more code everywhere decodes exactly that code more, unless it
      meets a new escape. */
  lemma {:induction false} ReplaceOne(s: string, known: set<string>, code: string)
    requires IsCode(code) && !NewEscape(s, known, code)
    ensures ReplaceAll(DecodeSome(s, known), code, Chr(code)) == DecodeSome(s, known + {code})
  {
    if s == "" {
    } else if Escaped(s) {
      ReplaceOne(s[4..], known, code);
      if s[1..4] !in known {
        EscapeStays(s, known);
        ReplaceEscape(s[..4], DecodeSome(s[4..], known), code);
        if s[1..4] != code { EscapeStays(s, known + {code}); }
      } else {
        NotReplaced(Chr(s[1..4]), DecodeSome(s[4..], known), code);
      }
    } else {
      ReplaceOne(s[1..], known, code);
      NotReplaced(s[0], DecodeSome(s[1..], known), code);
    }
  }

  lemma NotReplaced(c: char, rest: string, code: string)
    requires IsCode(code) && !(c == '\\' && code <= rest)
    ensures ReplaceAll([c] + rest, code, Chr(code)) == [c] + ReplaceAll(rest, code, Chr(code))
  {
    var t := [c] + rest;
    assert t[1..] == rest;
    if |rest| >= 3 { assert t[1..4] == rest[..3]; }
  }

  lemma {:induction false} DecodeNothing(s: string)
    ensures DecodeSome(s, {}) == s
  {
    if s != "" {
      DecodeNothing(s[1..]);
    }
  }

  lemma {:induction false} DecodeAll(s: string, known: set<string>)
    requires forall c :: c in Codes(s) ==> c in known
    ensures DecodeSome(s, known) == Decode(s)
  {
    if s == "" {
    } else if Escaped(s) {
      assert s[1..4] in Codes(s);
      DecodeAll(s[4..], known);
    } else {
      DecodeAll(s[1..], known);
    }
  }

  lemma SetOfNext(codes: seq<string>, j: nat)
    requires j < |codes|
    ensures SetOf(codes[..j + 1]) == SetOf(codes[..j]) + {codes[j]}
    ensures codes[j..][0] == codes[j] && codes[j..][1..] == codes[j + 1..]
  {
    assert codes[..j + 1] == codes[..j] + [codes[j]];
  }

  lemma SteadyStep(s: string, known: set<string>, codes: seq<string>)
    requires codes != [] && (forall c :: c in codes ==> IsCode(c)) && !NewEscape(s, known, codes[0])
    ensures ReplaceEach(DecodeSome(s, known), codes) == ReplaceEach(DecodeSome(s, known + {codes[0]}), codes[1..])
  {
    ReplaceOne(s, known, codes[0]);
  }

  /** As long as nothing new is met, the loop decodes code after code. Repeated
      codes are harmless. */
  lemma {:induction false} SteadySteps(s: string, j: nat)
    requires j <= |Codes(s)| && forall i :: 0 <= i < j ==> !Disturbed(s, i)
    ensures ReplaceEach(s, Codes(s)) == ReplaceEach(DecodeSome(s, SetOf(Codes(s)[..j])), Codes(s)[j..])
  {
    var codes := Codes(s);
    if j == 0 {
      DecodeNothing(s);
      assert SetOf(codes[..0]) == {} && codes[0..] == codes;
    } else {
      SteadySteps(s, j - 1);
      SetOfNext(codes, j - 1);
      assert !Disturbed(s, j - 1);
      SteadyStep(s, SetOf(codes[..j - 1]), codes[j - 1..]);
    }
  }

  // ----- Counting escapes -----

  /** The number of escapes with a code in `codes`. */
  function Escapes(s: string, codes: set<string>): nat {
    if s == "" then 0
    else if Escaped(s) then (if s[1..4] in codes then 1 else 0) + Escapes(s[4..], codes)
    else Escapes(s[1..], codes)
  }

  lemma {:induction false} DecodedLength(s: string, known: set<string>)
    ensures |DecodeSome(s, known)| == |s| - 3 * Escapes(s, known)
  {
    if s == "" {
    } else if Escaped(s) {
      DecodedLength(s[4..], known);
      if s[1..4] !in known { EscapeStays(s, known); }
    } else {
      DecodedLength(s[1..], known);
    }
  }

  lemma {:induction false} EscapesSplit(s: string, a: set<string>, b: set<string>)
    ensures Escapes(s, a + b) == Escapes(s, a) + Escapes(s, b - a)
  {
    if s == "" {
    } else if Escaped(s) {
      EscapesSplit(s[4..], a, b);
    } else {
      EscapesSplit(s[1..], a, b);
    }
  }

  /** Counting goes past a character, and counts the escape that it starts. */
  lemma EscapesFront(c: char, rest: string, codes: set<string>)
    ensures Escapes([c] + rest, codes)
            == (if Escaped([c] + rest) && rest[..3] in codes then 1 else 0) + Escapes(rest, codes)
  {
    var t := [c] + rest;
    assert t[1..] == rest;
    if Escaped(t) {
      assert t[1..4] == rest[..3] && t[4..] == rest[3..];
      DigitsCountNothing(rest, codes);
    }
  }

  lemma DigitsCountNothing(t: string, codes: set<string>)
    requires DigitsFirst(t)
    ensures Escapes(t, codes) == Escapes(t[3..], codes)
  {
    assert t[1..][1..] == t[2..] && t[2..][1..] == t[3..];
    assert Escapes(t, codes) == Escapes(t[1..], codes) == Escapes(t[2..], codes);
  }

  lemma {:induction false} EscapesKept(s: string, known: set<string>, codes: set<string>)
    ensures Escapes(DecodeSome(s, known), codes) >= Escapes(s, codes - known)
    ensures (exists code :: code in codes && IsCode(code) && NewEscape(s, known, code))
            ==> Escapes(DecodeSome(s, known), codes) > Escapes(s, codes - known)
  {
    if s == "" {
    } else if Escaped(s) {
      var rest := DecodeSome(s[4..], known);
      EscapesKept(s[4..], known, codes);
      if s[1..4] in known {
        EscapesFront(Chr(s[1..4]), rest, codes);
        StartsEscape(Chr(s[1..4]), rest, codes);
      } else {
        EscapeStays(s, known);
        assert (s[..4] + rest)[1..4] == s[1..4] && (s[..4] + rest)[4..] == rest;
      }
    } else {
      EscapesKept(s[1..], known, codes);
      EscapesFront(s[0], DecodeSome(s[1..], known), codes);
      StartsEscape(s[0], DecodeSome(s[1..], known), codes);
    }
  }

  lemma StartsEscape(c: char, rest: string, codes: set<string>)
    ensures forall code :: code in codes && IsCode(code) && c == '\\' && code <= rest ==>
              Escaped([c] + rest) && rest[..3] in codes
  {
    forall code | code in codes && IsCode(code) && c == '\\' && code <= rest
      ensures Escaped([c] + rest) && rest[..3] in codes
    {
      assert rest[..3] == code;
      assert ([c] + rest)[1] == code[0] && ([c] + rest)[2] == code[1] && ([c] + rest)[3] == code[2];
    }
  }

  lemma {:induction false} ReplaceIsDecode(s: string, code: string)
    requires IsCode(code)
    ensures ReplaceAll(s, code, Chr(code)) == DecodeSome(s, {code})
  {
    if s == "" {
    } else if Escaped(s) && s[1..4] == code {
      ReplaceIsDecode(s[4..], code);
    } else {
      ReplaceIsDecode(s[1..], code);
    }
  }

  /** The loop takes out at least the escapes that the text has. */
  lemma {:induction false} LoopShortens(s: string, codes: seq<string>)
    requires forall c :: c in codes ==> IsCode(c)
    ensures |ReplaceEach(s, codes)| <= |s| - 3 * Escapes(s, SetOf(codes))
    decreases |codes|
  {
    if codes == [] {
      assert SetOf(codes) == {};
      DecodeNothing(s);
      DecodedLength(s, {});
    } else {
      var k, rest := codes[0], codes[1..];
      var t := ReplaceAll(s, k, Chr(k));
      LoopShortens(t, rest);
      ReplaceIsDecode(s, k);
      DecodedLength(s, {k});
      EscapesKept(s, {k}, SetOf(rest));
      EscapesSplit(s, {k}, SetOf(rest));
      assert {k} + SetOf(rest) == SetOf(codes);
    }
  }

  lemma TooShort(s: string, known: set<string>, later: set<string>, code: string)
    requires code in later && IsCode(code) && NewEscape(s, known, code)
    ensures var d := DecodeSome(s, known);
      |d| - 3 * Escapes(d, later) < |DecodeSome(s, known + later)|
  {
    EscapesKept(s, known, later);
    EscapesSplit(s, known, later);
    DecodedLength(s, known);
    DecodedLength(s, known + later);
  }

  lemma SetOfSplit(codes: seq<string>, j: nat)
    requires j <= |codes|
    ensures SetOf(codes[..j]) + SetOf(codes[j..]) == SetOf(codes)
  {
    assert codes == codes[..j] + codes[j..];
  }

  /** Meeting a new escape makes the result too short. */
  lemma NewEscapeShortens(s: string, j: nat)
    requires j < |Codes(s)| && forall i :: 0 <= i < j ==> !Disturbed(s, i)
    requires Disturbed(s, j)
    ensures |ReplaceEach(s, Codes(s))| < |Decode(s)|
  {
    var codes := Codes(s);
    var known, later := SetOf(codes[..j]), codes[j..];
    SteadySteps(s, j);
    LoopShortens(DecodeSome(s, known), later);
    assert later[0] == codes[j] && codes[j] in SetOf(later) && IsCode(codes[j]);
    TooShort(s, known, SetOf(later), codes[j]);
    SetOfSplit(codes, j);
    DecodeAll(s, SetOf(codes));
  }

  lemma {:induction false} FirstNew(s: string, n: nat) returns (j: nat)
    requires n <= |Codes(s)| && exists i :: 0 <= i < n && Disturbed(s, i)
    ensures j < n && Disturbed(s, j)
    ensures forall i :: 0 <= i < j ==> !Disturbed(s, i)
  {
    if i :| 0 <= i < n - 1 && Disturbed(s, i) {
      j := FirstNew(s, n - 1);
    } else {
      j := n - 1;
    }
  }

  /** The loop of replace-alls is the left-to-right decoder exactly for the texts in
      which no code meets a new escape. */
  lemma LoopIsDecoder(s: string)
    ensures ReplaceEach(s, Codes(s)) == Decode(s) <==> Steady(s)
  {
    var codes := Codes(s);
    if Steady(s) {
      SteadySteps(s, |codes|);
      assert codes[..|codes|] == codes && codes[|codes|..] == [];
      DecodeAll(s, SetOf(codes));
    } else {
      var j := FirstNew(s, |codes|);
      NewEscapeShortens(s, j);
    }
  }

  /** In particular for every text without an escape for a backslash or an octal
      digit. */
  lemma InertIsSteady(s: string)
    requires AllInert(s)
    ensures Steady(s) && ReplaceEach(s, Codes(s)) == Decode(s)
  {
    var codes := Codes(s);
    forall j | 0 <= j < |codes| ensures !Disturbed(s, j) {
      InertMakesNone(s, SetOf(codes[..j]), codes[j]);
    }
    LoopIsDecoder(s);
  }

  lemma CharRead(c: char, rest: string, code: string)
    requires c != '\\' && IsCode(code)
    ensures Codes([c] + rest) == Codes(rest) && Decode([c] + rest) == [c] + Decode(rest)
    ensures ReplaceAll([c] + rest, code, Chr(code)) == [c] + ReplaceAll(rest, code, Chr(code))
  {
    assert ([c] + rest)[1..] == rest;
  }

  lemma {:induction false} PlainCodes(w: string, rest: string)
    requires '\\' !in w
    ensures Codes(w + rest) == Codes(rest)
  {
    if w == "" {
      assert w + rest == rest;
    } else {
      PlainCodes(w[1..], rest);
      CharRead(w[0], w[1..] + rest, "000");
      assert w + rest == [w[0]] + (w[1..] + rest);
    }
  }

  lemma {:induction false} PlainDecoded(w: string, rest: string)
    requires '\\' !in w
    ensures Decode(w + rest) == w + Decode(rest)
  {
    var d := Decode(rest);
    if w == "" {
      assert w + rest == rest && w + d == d;
    } else {
      var c, v := w[0], w[1..];
      assert w == [c] + v;
      PlainDecoded(v, rest);
      CharRead(c, v + rest, "000");
      Regroup(c, v, rest);
      Regroup(c, v, d);
    }
  }

  lemma {:induction false} PlainReplaced(w: string, rest: string, code: string)
    requires '\\' !in w && IsCode(code)
    ensures ReplaceAll(w + rest, code, Chr(code)) == w + ReplaceAll(rest, code, Chr(code))
  {
    var r := ReplaceAll(rest, code, Chr(code));
    if w == "" {
      assert w + rest == rest && w + r == r;
    } else {
      var c, v := w[0], w[1..];
      assert w == [c] + v;
      PlainReplaced(v, rest, code);
      CharReplaced(c, v + rest, code);
      Regroup(c, v, rest);
      Regroup(c, v, r);
    }
  }

  lemma CharReplaced(c: char, rest: string, code: string)
    requires c != '\\' && IsCode(code)
    ensures ReplaceAll([c] + rest, code, Chr(code)) == [c] + ReplaceAll(rest, code, Chr(code))
  {
    CharRead(c, rest, code);
  }

  lemma Regroup(c: char, v: string, rest: string)
    ensures [c] + v + rest == [c] + (v + rest)
  {
  }

  function Esc(code: string): string {
    "\\" + code
  }

  lemma EscapeRead(code: string, rest: string)
    requires IsCode(code)
    ensures Codes(Esc(code) + rest) == [code] + Codes(rest)
    ensures Decode(Esc(code) + rest) == [Chr(code)] + Decode(rest)
  {
    var s := Esc(code) + rest;
    assert s[1..4] == code && s[4..] == rest && Escaped(s);
  }

  /** A text without backslashes is left alone. */
  lemma PlainIsFixed(s: string)
    requires '\\' !in s
    ensures ReplaceEach(s, Codes(s)) == s
  {
    PlainCodes(s, "");
    assert s + "" == s;
  }

  /** Two equal escapes in a row become two characters. */
  lemma ReplaceTwice(code: string)
    requires IsCode(code)
    ensures ReplaceAll(Esc(code) + Esc(code), code, Chr(code)) == [Chr(code), Chr(code)]
  {
    assert Esc(code) + "" == Esc(code) && Esc(code)[1..] == code;
    ReplaceEscape(Esc(code), Esc(code), code);
    ReplaceEscape(Esc(code), "", code);
  }

  lemma ReplaceBoth(s: string, a: string, b: string)
    requires IsCode(a) && IsCode(b)
    ensures ReplaceEach(s, [a, b]) == ReplaceAll(ReplaceAll(s, a, Chr(a)), b, Chr(b))
  {
    assert [a, b][1..] == [b] && [b][1..] == [];
    var t := ReplaceAll(s, a, Chr(a));
    assert ReplaceEach(t, [b]) == ReplaceEach(ReplaceAll(t, b, Chr(b)), []);
  }

  /** Reading two escapes with plain text between them, and replacing the first. */
  lemma TwoEscapes(a: string, mid: string, b: string)
    requires IsCode(a) && IsCode(b) && a != b && '\\' !in mid
    ensures var s := Esc(a) + (mid + Esc(b));
      && Codes(s) == [a, b] && Decode(s) == [Chr(a)] + (mid + [Chr(b)])
      && ReplaceAll(s, a, Chr(a)) == [Chr(a)] + (mid + Esc(b))
  {
    assert Esc(b) + "" == Esc(b) && Esc(a)[1..] == a && Esc(b)[1..] == b;
    EscapeRead(a, mid + Esc(b));
    PlainCodes(mid, Esc(b));
    PlainDecoded(mid, Esc(b));
    PlainReplaced(mid, Esc(b), a);
    EscapeRead(b, "");
    ReplaceEscape(Esc(a), mid + Esc(b), a);
    ReplaceEscape(Esc(b), "", a);
  }

  /** The exclusion of the backslash is needed: for any other code, an escape for a
      backslash completes an escape that the loop replaces next. */
  lemma LoopMeetsNewBackslash(code: string)
    requires IsCode(code) && code != "134"
    ensures var s := Esc("134") + (code + Esc(code));
      ReplaceEach(s, Codes(s)) == [Chr(code), Chr(code)] && Decode(s) == Esc(code) + [Chr(code)]
  {
    var s := Esc("134") + (code + Esc(code));
    TwoEscapes("134", code, code);
    assert ['\\'] + (code + Esc(code)) == Esc(code) + Esc(code);
    assert ['\\'] + (code + [Chr(code)]) == Esc(code) + [Chr(code)];
    ReplaceTwice(code);
    ReplaceBoth(s, "134", code);
  }

  lemma BackslashRead(u: string, code: string)
    requires u != "" && u[0] == '\\' && IsCode(code)
    ensures Codes("\\" + u) == Codes(u) && Decode("\\" + u) == "\\" + Decode(u)
    ensures ReplaceAll("\\" + u, code, Chr(code)) == "\\" + ReplaceAll(u, code, Chr(code))
  {
    assert ("\\" + u)[1] == '\\' && ("\\" + u)[1..] == u;
  }

  /** So is the exclusion of the digits: the escape for the first digit of a code
      completes an escape for that code. */
  lemma LoopMeetsNewDigit(code: string)
    requires IsCode(code) && code != "06" + [code[0]]
    ensures var s := "\\" + (Esc("06" + [code[0]]) + (code[1..] + Esc(code)));
      ReplaceEach(s, Codes(s)) == [Chr(code), Chr(code)] && Decode(s) == Esc(code) + [Chr(code)]
  {
    var digit := "06" + [code[0]];
    var u := Esc(digit) + (code[1..] + Esc(code));
    var s := "\\" + u;
    BackslashRead(u, digit);
    TwoEscapes(digit, code[1..], code);
    DigitJoins(code, Esc(code));
    DigitJoins(code, [Chr(code)]);
    ReplaceTwice(code);
    ReplaceBoth(s, digit, code);
  }

  lemma DigitJoins(code: string, rest: string)
    requires code != ""
    ensures "\\" + ([code[0]] + (code[1..] + rest)) == Esc(code) + rest
  {
    assert code == [code[0]] + code[1..];
  }

  // ----- Texts in their surroundings -----

  lemma EscapeInside(w: string, rest: string)
    requires w != "" && rest != "" && !Octal(rest[0]) && Escaped(w + rest)
    ensures Escaped(w) && (w + rest)[1..4] == w[1..4] && (w + rest)[4..] == w[4..] + rest
  {
    var s := w + rest;
    assert s[|w|] == rest[0];
    assert |w| >= 4;
    assert s[0] == w[0] && s[1] == w[1] && s[2] == w[2] && s[3] == w[3];
  }

  lemma EscapeStaysInside(w: string, rest: string)
    requires Escaped(w)
    ensures Escaped(w + rest) && (w + rest)[1..4] == w[1..4] && (w + rest)[4..] == w[4..] + rest
  {
    var s := w + rest;
    assert s[0] == w[0] && s[1] == w[1] && s[2] == w[2] && s[3] == w[3];
  }

  /** Text that no escape reaches into. */
  predicate Outside(rest: string) {
    rest != "" && !Octal(rest[0]) && '\\' !in rest
  }

  lemma {:induction false} CodesBefore(w: string, rest: string)
    requires Outside(rest)
    ensures Codes(w + rest) == Codes(w)
  {
    var s := w + rest;
    if w == "" {
      assert s == rest && rest + "" == rest;
      PlainCodes(rest, "");
    } else if Escaped(w) {
      EscapeStaysInside(w, rest);
      CodesBefore(w[4..], rest);
    } else {
      if Escaped(s) { EscapeInside(w, rest); }
      assert s[1..] == w[1..] + rest;
      CodesBefore(w[1..], rest);
    }
  }

  lemma {:induction false} ReplacedBefore(w: string, rest: string, code: string)
    requires Outside(rest) && IsCode(code)
    ensures ReplaceAll(w + rest, code, Chr(code)) == ReplaceAll(w, code, Chr(code)) + rest
  {
    var s, c := w + rest, Chr(code);
    if w == "" {
      assert s == rest && rest + "" == rest && "" + rest == rest;
      PlainReplaced(rest, "", code);
    } else if Escaped(w) && w[1..4] == code {
      EscapeStaysInside(w, rest);
      ReplacedBefore(w[4..], rest, code);
      assert [c] + (ReplaceAll(w[4..], code, c) + rest) == [c] + ReplaceAll(w[4..], code, c) + rest;
    } else {
      if Escaped(s) { EscapeInside(w, rest); }
      assert s[1..] == w[1..] + rest && s[0] == w[0];
      ReplacedBefore(w[1..], rest, code);
      assert [w[0]] + (ReplaceAll(w[1..], code, c) + rest) == [w[0]] + ReplaceAll(w[1..], code, c) + rest;
    }
  }

  lemma {:induction false} ReplacedEachBefore(w: string, rest: string, codes: seq<string>)
    requires Outside(rest) && forall c :: c in codes ==> IsCode(c)
    ensures ReplaceEach(w + rest, codes) == ReplaceEach(w, codes) + rest
    decreases |codes|
  {
    if codes != [] {
      ReplacedBefore(w, rest, codes[0]);
      ReplacedEachBefore(ReplaceAll(w, codes[0], Chr(codes[0])), rest, codes[1..]);
    }
  }

  /** Such text may be cut off before decoding. */
  lemma EncodedBefore(w: string, rest: string)
    requires Outside(rest)
    ensures ChrEncoded(w + rest) == ChrEncoded(w) + rest
  {
    CodesBefore(w, rest);
    ReplacedEachBefore(w, rest, Codes(w));
  }

  lemma {:induction false} ReplacedEachAfter(c: char, w: string, codes: seq<string>)
    requires c != '\\' && forall k :: k in codes ==> IsCode(k)
    ensures ReplaceEach([c] + w, codes) == [c] + ReplaceEach(w, codes)
    decreases |codes|
  {
    if codes != [] {
      CharRead(c, w, codes[0]);
      ReplacedEachAfter(c, ReplaceAll(w, codes[0], Chr(codes[0])), codes[1..]);
    }
  }

  lemma EncodedAfter(c: char, w: string)
    requires c != '\\'
    ensures ChrEncoded([c] + w) == [c] + ChrEncoded(w)
  {
    CharRead(c, w, "000");
    ReplacedEachAfter(c, w, Codes(w));
  }

  lemma {:induction false} SomeEscapes(s: string, codes: set<string>)
    requires Codes(s) != [] && forall c :: c in Codes(s) ==> c in codes
    ensures Escapes(s, codes) > 0
  {
    if Escaped(s) {
      assert s[1..4] in Codes(s);
    } else {
      SomeEscapes(s[1..], codes);
    }
  }

  /** Decoding makes a text shorter, unless there is nothing to decode. */
  lemma EncodedIsShorter(s: string)
    ensures if Codes(s) == [] then ChrEncoded(s) == s else |ChrEncoded(s)| < |s|
  {
    if Codes(s) != [] {
      LoopShortens(s, Codes(s));
      SomeEscapes(s, SetOf(Codes(s)));
    }
  }

  lemma {:induction false} NoCodesNoEscapes(s: string, i: nat)
    requires Codes(s) == [] && i < |s|
    ensures !Escaped(s[i..])
  {
    if i > 0 {
      NoCodesNoEscapes(s[1..], i - 1);
      assert s[1..][i - 1..] == s[i..];
    } else {
      assert s[0..] == s;
    }
  }

  // ----- Escaping and decoding -----

  /** Three octal digits. */
  function OctalOf(c: char): (code: string)
    requires c as int < 512
    ensures IsCode(code)
  {
    var n := c as int;
    [('0' as int + n / 64) as char, ('0' as int + n / 8 % 8) as char, ('0' as int + n % 8) as char]
  }

  /** The digits are those of the character's number. */
  lemma OctalRead(c: char)
    requires c as int < 512
    ensures Chr(OctalOf(c)) == c
  {
  }

  /** Every character written as an escape. */
  function EscapeAll(s: string): string
    requires forall i :: 0 <= i < |s| ==> s[i] as int < 512
  {
    if s == "" then "" else Esc(OctalOf(s[0])) + EscapeAll(s[1..])
  }

  /** Reading undoes escaping, for every text of characters that escapes can stand for. */
  lemma {:induction false} EscapeRoundTrip(s: string)
    requires forall i :: 0 <= i < |s| ==> s[i] as int < 512
    ensures Decode(EscapeAll(s)) == s
  {
    if s != "" {
      EscapeRoundTrip(s[1..]);
      EscapeRead(OctalOf(s[0]), EscapeAll(s[1..]));
      OctalRead(s[0]);
    }
  }

  lemma {:induction false} EscapedCodes(s: string)
    requires forall i :: 0 <= i < |s| ==> s[i] as int < 512 && s[i] != '\\' && !Octal(s[i])
    ensures AllInert(EscapeAll(s))
  {
    if s != "" {
      EscapedCodes(s[1..]);
      EscapeRead(OctalOf(s[0]), EscapeAll(s[1..]));
      OctalRead(s[0]);
    }
  }

  /** The loop undoes it, too, for texts without backslashes and octal digits. */
  lemma LoopUndoesEscapes(s: string)
    requires forall i :: 0 <= i < |s| ==> s[i] as int < 512 && s[i] != '\\' && !Octal(s[i])
    ensures ChrEncoded(EscapeAll(s)) == s
  {
    EscapeRoundTrip(s);
    EscapedCodes(s);
    InertIsSteady(EscapeAll(s));
    LoopIsDecoder(EscapeAll(s));
  }
}
