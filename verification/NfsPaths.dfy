/** Which paths survive being written and read: the ones that `PathReadsBack`
    describes, and no other. Whatever else stands in a path costs the tokeniser or
    the decoder characters, so that what is read is shorter than what was written. */
module NfsPaths {
  import opened Wrappers
  import opened NfsOptions
  import opened NfsExports
  import opened NfsFiles
  import opened NfsRoundTrip
  import opened NfsEscapes

  // ----- The first token of a text -----

  /** The first token that ends in a text, or where its end is reached without one. */
  datatype Head = Found(token: string) | Open(st: LexState, token: string)

  function HeadOf(w: string, st: LexState, token: string): Head {
    if w == "" then Open(st, token)
    else
      var next := Step(w[0], st, token);
      if next.ended.Some? then Found(next.ended.value) else HeadOf(w[1..], next.st, next.token)
  }

  lemma {:induction false} HeadLex(w: string, r: string, st: LexState, token: string)
    ensures match HeadOf(w, st, token)
      case Found(x) => Lex(w + r, st, token).Some? ==>
        Lex(w + r, st, token).value != [] && Lex(w + r, st, token).value[0] == x
      case Open(st', token') => Lex(w + r, st, token) == Lex(r, st', token')
  {
    var s := w + r;
    if w == "" {
      assert s == r;
    } else {
      var next := Step(w[0], st, token);
      assert s[0] == w[0] && s[1..] == w[1..] + r;
      if next.ended.None? { HeadLex(w[1..], r, next.st, next.token); }
    }
  }

  lemma {:induction false} HeadAppend(w: string, c: char, st: LexState, token: string)
    ensures match HeadOf(w, st, token)
      case Found(x) => HeadOf(w + [c], st, token) == Found(x)
      case Open(st', token') => HeadOf(w + [c], st, token) == HeadOf([c], st', token')
  {
    var s := w + [c];
    if w == "" {
      assert s == [c];
    } else {
      assert s[0] == w[0] && s[1..] == w[1..] + [c];
      var next := Step(w[0], st, token);
      if next.ended.None? { HeadAppend(w[1..], c, next.st, next.token); }
    }
  }

  /** One character more. */
  function HeadNext(h: Head, c: char): Head {
    match h
    case Found(_) => h
    case Open(st, token) =>
      var next := Step(c, st, token);
      if next.ended.Some? then Found(next.ended.value) else Open(next.st, next.token)
  }

  lemma HeadThen(w: string, c: char, st: LexState, token: string)
    ensures HeadOf(w + [c], st, token) == HeadNext(HeadOf(w, st, token), c)
  {
    HeadAppend(w, c, st, token);
    assert [c][1..] == "";
  }

  /** An escape character that has been read and not yet been resolved. */
  function Pending(st: LexState): nat {
    if st == WordEscape || st == DoubleEscape then 1 else 0
  }

  /** Tokens are not longer than what was read for them. */
  lemma {:induction false} HeadBound(w: string, st: LexState, token: string)
    ensures match HeadOf(w, st, token)
      case Found(x) => |x| < |token| + Pending(st) + |w|
      case Open(st', token') => |token'| + Pending(st') <= |token| + Pending(st) + |w|
  {
    if w != "" {
      var next := Step(w[0], st, token);
      if next.ended.None? { HeadBound(w[1..], next.st, next.token); }
    }
  }

  /** Outside quotes, anything that is not kept as it is costs a character. */
  lemma {:induction false} HeadStrict(w: string, st: LexState, token: string)
    requires (st == Word || (st == Gap && token == "")) && !Clean(w) && HeadOf(w, st, token).Open?
    ensures |HeadOf(w, st, token).token| < |token| + |w|
  {
    var next := Step(w[0], st, token);
    if Safe(w[0]) {
      CleanTail(w);
      HeadStrict(w[1..], next.st, next.token);
    } else if w[0] == '\\' {
      if |w| > 1 {
        assert w[1..][1..] == w[2..];
        HeadBound(w[2..], Word, next.token + [w[1]]);
      }
    } else {
      HeadBound(w[1..], next.st, next.token);
    }
  }

  lemma CleanTail(w: string)
    requires w != "" && Safe(w[0])
    ensures Clean(w) <==> Clean(w[1..])
  {
    if Clean(w[1..]) {
      assert forall i :: 1 <= i < |w| ==> w[i] == w[1..][i - 1];
    } else {
      assert forall i :: 0 <= i < |w[1..]| ==> w[1..][i] == w[i + 1];
    }
  }

  /** Leaving double quotes costs the quote. */
  lemma {:induction false} LeavingDouble(w: string, st: LexState, token: string)
    requires (st == Double || st == DoubleEscape) && HeadOf(w, st, token).Open?
    ensures var h := HeadOf(w, st, token);
      h.st == Double || h.st == DoubleEscape || |h.token| + Pending(h.st) < |token| + Pending(st) + |w|
  {
    if w != "" {
      var next := Step(w[0], st, token);
      if next.st == Word {
        HeadBound(w[1..], Word, token);
      } else {
        LeavingDouble(w[1..], next.st, next.token);
      }
    }
  }

  /** Inside double quotes, a quote or an escape that means something costs a
      character. */
  lemma {:induction false} StayingDouble(w: string, token: string)
    requires HeadOf(w, Double, token).Open? && HeadOf(w, Double, token).st == Double
    ensures var h := HeadOf(w, Double, token);
      |h.token| < |token| + |w| || ('"' !in w && KeepsBackslashes(w))
    decreases |w|, 1
  {
    if w != "" {
      var c, next := w[0], Step(w[0], Double, token);
      if c == '"' {
        HeadBound(w[1..], Word, token);
      } else if c == '\\' {
        StayingEscape(w, token);
      } else {
        StayingDouble(w[1..], token + [c]);
        if KeepsBackslashes(w[1..]) { KeepsMore(w, 1); }
      }
    }
  }

  lemma {:induction false} StayingEscape(w: string, token: string)
    requires w != "" && w[0] == '\\' && HeadOf(w, Double, token).Open? && HeadOf(w, Double, token).st == Double
    ensures var h := HeadOf(w, Double, token);
      |h.token| < |token| + |w| || ('"' !in w && KeepsBackslashes(w))
    decreases |w|, 0
  {
    var d := w[1];
    assert w[1..][0] == d && w[1..][1..] == w[2..];
    if d == '"' || d == '\\' {
      HeadBound(w[2..], Double, token + [d]);
    } else {
      StayingDouble(w[2..], token + ['\\', d]);
      if KeepsBackslashes(w[2..]) { KeepsMore(w, 2); }
    }
  }

  /** One kept character, or a backslash with a character that leaves it alone. */
  lemma KeepsMore(w: string, n: nat)
    requires 1 <= n <= 2 && n <= |w| && KeepsBackslashes(w[n..])
    requires if n == 1 then w[0] != '\\' else w[0] == '\\' && w[1] != '\\' && w[1] != '"'
    ensures KeepsBackslashes(w)
  {
    forall i | 0 <= i < |w| && w[i] == '\\' ensures i + 1 < |w| && w[i + 1] != '\\' && w[i + 1] != '"' {
      if i >= n {
        assert w[n..][i - n] == '\\';
        assert i - n + 1 < |w[n..]| && w[n..][i - n + 1] == w[i + 1];
      }
    }
  }

  // ----- Lines -----

  lemma {:induction false} Unclosed(w: string, st: LexState, token: string)
    requires '"' !in w && '\'' !in w && '\\' !in w && (st == Single || st == Double || st == DoubleEscape)
    ensures Lex(w, st, token) == None
  {
    if w != "" {
      var next := Step(w[0], st, token);
      Unclosed(w[1..], next.st, next.token);
    }
  }

  lemma {:induction false} LexCommentEnd(t: string, token: string)
    requires '\n' !in t
    ensures Lex(t + "\n", Comment, token) == Some([])
  {
    var s := t + "\n";
    if t == "" {
      assert s[0] == '\n' && s[1..] == "";
    } else {
      assert s[0] == t[0] && s[1..] == t[1..] + "\n";
      LexCommentEnd(t[1..], "");
    }
  }

  lemma LexEscapedEnd(t: string, token: string)
    requires Clean(t) && t != ""
    ensures Lex(LineEnd(t), WordEscape, token) == Some([token + " " + t])
  {
    var r := LineEnd(t);
    assert r[0] == ' ' && r[1..] == t + "\n";
    LexWord(t, "\n", token + " ");
    assert "\n"[1..] == "" && [token + " " + t] + [] == [token + " " + t];
  }

  /** What the line end makes of each place in which it may be met. */
  lemma EndTokens(t: string, st: LexState, token: string)
    requires Clean(t) && t != ""
    ensures Lex(LineEnd(t), st, if st == Gap then "" else token) ==
      match st
      case Gap => Some([t])
      case Word => Some([token, t])
      case WordEscape => Some([token + " " + t])
      case Comment => Some([])
      case _ => None
  {
    match st
    case Gap => LexEnd(t, token);
    case Word => LexEnd(t, token);
    case WordEscape => LexEscapedEnd(t, token);
    case Comment =>
      CleanHasNoBackslash(t);
      LexCommentEnd(" " + t, token);
    case _ =>
      CleanHasNoBackslash(t);
      NoSingleQuote(t);
      Unclosed(LineEnd(t), st, token);
  }

  lemma NoSingleQuote(t: string)
    requires Clean(t)
    ensures '\'' !in t
  {
  }

  lemma {:induction false} GapHasNoToken(w: string, st: LexState, token: string)
    requires st == Gap ==> token == ""
    ensures HeadOf(w, st, token).Open? && HeadOf(w, st, token).st == Gap ==> HeadOf(w, st, token).token == ""
  {
    if w != "" {
      var next := Step(w[0], st, token);
      if next.ended.None? { GapHasNoToken(w[1..], next.st, next.token); }
    }
  }

  /** The path of an export is the first token of its line. */
  predicate Yields(line: string, e: Export) {
    LineExports(line).Some? && e in LineExports(line).value
  }

  lemma PathIsFirst(line: string, e: Export)
    requires Yields(line, e)
    ensures var tokens := Tokens(ChrEncoded(line));
      tokens.Some? && tokens.value != [] && e.path == tokens.value[0]
  {
    ParsedProper(Tokens(ChrEncoded(line)).value, e);
  }

  /** What the first token is, when the line goes on with a clean last one. */
  predicate FirstToken(h: Head, t: string, path: string) {
    match h
    case Found(y) => path == y
    case Open(st, token) =>
      (st == Gap && path == t) || (st == Word && path == token) || (st == WordEscape && path == token + " " + t)
  }

  /** The first token of a line that ends in a clean one. */
  lemma LastLine(x: string, t: string, e: Export)
    requires Clean(t) && t != "" && Yields(x + LineEnd(t), e)
    ensures FirstToken(HeadOf(ChrEncoded(x), Gap, ""), t, e.path)
  {
    var d := ChrEncoded(x);
    CleanHasNoBackslash(t);
    EncodedBefore(x, LineEnd(t));
    PathIsFirst(x + LineEnd(t), e);
    HeadLex(d, LineEnd(t), Gap, "");
    GapHasNoToken(d, Gap, "");
    var h := HeadOf(d, Gap, "");
    if h.Open? { EndTokens(t, h.st, h.token); }
  }

  lemma SpaceInside(a: string, b: string)
    ensures ' ' in a + " " + b
  {
    assert (a + " " + b)[|a|] == ' ';
  }

  /** An unquoted line: a path without a space that is not the last token is no
      longer than what stands before that token, and shorter if that is not clean. */
  lemma UnquotedLine(x: string, t: string, e: Export)
    requires Clean(t) && t != "" && Yields(x + LineEnd(t), e) && ' ' !in e.path && e.path != t
    ensures var d := ChrEncoded(x);
      d != "" && |e.path| <= |d| && (Clean(d) || |e.path| < |d|)
  {
    var d := ChrEncoded(x);
    LastLine(x, t, e);
    HeadBound(d, Gap, "");
    var h := HeadOf(d, Gap, "");
    if h.Open? {
      SpaceInside(h.token, t);
      if h.st == Word && !Clean(d) { HeadStrict(d, Gap, ""); }
    }
  }

  /** A line that ends in a double quote and a clean token. */
  lemma QuoteEnds(y: string, t: string, e: Export)
    requires Clean(t) && t != "" && Yields(y + "\"" + LineEnd(t), e) && e.path != t
    ensures |e.path| <= |y|
  {
    EncodedBefore(y, "\"");
    EncodedIsShorter(y);
    LastLine(y + "\"", t, e);
    QuoteEnd(ChrEncoded(y), t, e.path);
  }

  /** A double quote ends a token that is in double quotes, or is escaped. */
  lemma QuoteMeans(h: Head, t: string, path: string)
    requires path != t && FirstToken(HeadNext(h, '"'), t, path)
    ensures match h
      case Found(y) => path == y
      case Open(st, token) => (st == Double && path == token) || (st == WordEscape && path == token + ['"'])
  {
  }

  lemma QuoteEnd(d: string, t: string, path: string)
    requires path != t && FirstToken(HeadOf(d + "\"", Gap, ""), t, path)
    ensures |path| <= |d|
  {
    assert d + "\"" == d + ['"'];
    HeadThen(d, '"', Gap, "");
    QuoteMeans(HeadOf(d, Gap, ""), t, path);
    HeadBound(d, Gap, "");
  }

  /** A line that is all in double quotes but for the last token. */
  lemma QuotedPath(p: string, t: string, e: Export)
    requires Clean(t) && t != "" && Yields("\"" + p + "\"" + LineEnd(t), e) && e.path != t
    ensures var d := ChrEncoded(p);
      |e.path| < |d| || (|e.path| == |d| && '"' !in d && KeepsBackslashes(d))
  {
    var d := ChrEncoded(p);
    LastLine("\"" + p + "\"", t, e);
    QuotesEncoded(p);
    QuoteEnters(d + ['"']);
    InnerQuote(d, t, e.path);
  }

  lemma QuotesEncoded(p: string)
    ensures ChrEncoded("\"" + p + "\"") == ['"'] + (ChrEncoded(p) + ['"'])
  {
    EncodedBefore("\"" + p, "\"");
    EncodedAfter('"', p);
    assert "\"" + ChrEncoded(p) + "\"" == ['"'] + (ChrEncoded(p) + ['"']);
  }

  lemma QuoteEnters(d: string)
    ensures HeadOf(['"'] + d, Gap, "") == HeadOf(d, Double, "")
  {
    assert (['"'] + d)[1..] == d;
  }

  lemma InnerQuote(d: string, t: string, path: string)
    requires path != t
    requires FirstToken(HeadOf(d + ['"'], Double, ""), t, path)
    ensures |path| < |d| || (|path| == |d| && '"' !in d && KeepsBackslashes(d))
  {
    var h := HeadOf(d, Double, "");
    HeadThen(d, '"', Double, "");
    QuoteMeans(h, t, path);
    HeadBound(d, Double, "");
    if h.Open? {
      if h.st == Double { StayingDouble(d, ""); } else { LeavingDouble(d, Double, ""); }
    }
  }

  /** A line of a path that has line ends in it. */
  lemma InnerLine(a: string, e: Export)
    requires Yields(a + "\n", e)
    ensures |e.path| <= |a|
    ensures a != "" && a[0] == '"' ==> |e.path| < |a|
  {
    var d := ChrEncoded(a);
    EncodedBefore(a, "\n");
    EncodedIsShorter(a);
    PathIsFirst(a + "\n", e);
    HeadLex(d, "\n", Gap, "");
    HeadBound(d, Gap, "");
    InnerEnd(d, e.path);
    if a != "" && a[0] == '"' { QuotedBound(a); }
  }

  /** The head of a text that starts with a double quote leaves it out. */
  lemma QuotedBound(a: string)
    requires a != "" && a[0] == '"'
    ensures match HeadOf(ChrEncoded(a), Gap, "")
      case Found(y) => |y| < |a|
      case Open(st, token) => |token| + Pending(st) < |a|
  {
    var b := a[1..];
    assert a == ['"'] + b;
    EncodedAfter('"', b);
    EncodedIsShorter(b);
    QuoteEnters(ChrEncoded(b));
    HeadBound(ChrEncoded(b), Double, "");
  }

  lemma InnerEnd(d: string, path: string)
    requires Lex(d + "\n", Gap, "").Some? && Lex(d + "\n", Gap, "").value != []
    requires path == Lex(d + "\n", Gap, "").value[0]
    ensures match HeadOf(d, Gap, "")
      case Found(y) => path == y
      case Open(st, token) => (st == Word && path == token) || (st == WordEscape && path == token + "\n")
  {
    HeadLex(d, "\n", Gap, "");
    var h := HeadOf(d, Gap, "");
    assert "\n"[1..] == "";
    if h.Open? && h.st == WordEscape { assert Lex("\n", h.st, h.token) == Some([h.token + "\n"]); }
  }

  // ----- Files -----

  predicate Holds(text: string, e: Export) {
    LinesExports(Lines(text)).Some? && e in LinesExports(Lines(text)).value
  }

  /** An export of a text comes from its first line or from the rest. */
  lemma FirstOrRest(a: string, rest: string, e: Export)
    requires '\n' !in a && Holds(a + "\n" + rest, e)
    ensures Yields(a + "\n", e) || Holds(rest, e)
  {
    FirstLine(a, rest);
    var lines := [a + "\n"] + Lines(rest);
    assert lines[1..] == Lines(rest);
  }

  lemma OnlyLine(x: string, t: string, e: Export)
    requires '\n' !in x && Clean(t) && Holds(x + LineEnd(t), e)
    ensures Yields(x + LineEnd(t), e)
  {
    CleanHasNoBackslash(t);
    var a := x + " " + t;
    assert x + LineEnd(t) == a + "\n" + "" == a + "\n";
    FirstOrRest(a, "", e);
  }

  /** A text with a line end, cut at the first. */
  lemma {:induction false} FirstBreak(u: string) returns (a: string, b: string)
    requires '\n' in u
    ensures u == a + "\n" + b && '\n' !in a
  {
    if u[0] == '\n' {
      a, b := "", u[1..];
    } else {
      a, b := FirstBreak(u[1..]);
      a := [u[0]] + a;
    }
  }

  /** The file of an unquoted path with line ends in it. */
  lemma {:induction false} UnquotedFile(u: string, t: string, e: Export)
    requires Clean(t) && t != "" && ' ' !in e.path && e.path != t && '\n' in u && Holds(u + LineEnd(t), e)
    ensures |e.path| < |u|
    decreases |u|
  {
    var a, b := FirstBreak(u);
    assert u + LineEnd(t) == a + "\n" + (b + LineEnd(t));
    FirstOrRest(a, b + LineEnd(t), e);
    if Yields(a + "\n", e) {
      InnerLine(a, e);
    } else if '\n' in b {
      UnquotedFile(b, t, e);
    } else {
      OnlyLine(b, t, e);
      UnquotedLine(b, t, e);
      EncodedIsShorter(b);
    }
  }

  lemma BreakInside(a: string, b: string, rest: string)
    ensures a + "\n" + b + rest == a + "\n" + (b + rest)
  {
  }

  /** What follows an opening quote, up to the closing one. */
  lemma {:induction false} QuoteEndsFile(y: string, t: string, e: Export)
    requires Clean(t) && t != "" && e.path != t && Holds(y + ("\"" + LineEnd(t)), e)
    ensures |e.path| <= |y|
    decreases |y|
  {
    if '\n' in y {
      var a, b := FirstBreak(y);
      BreakInside(a, b, "\"" + LineEnd(t));
      FirstOrRest(a, b + ("\"" + LineEnd(t)), e);
      if Yields(a + "\n", e) { InnerLine(a, e); } else { QuoteEndsFile(b, t, e); }
    } else {
      assert y + ("\"" + LineEnd(t)) == y + "\"" + LineEnd(t);
      OnlyLine(y + "\"", t, e);
      QuoteEnds(y, t, e);
    }
  }

  /** The file of a quoted path with line ends in it. */
  lemma QuotedFile(v: string, t: string, e: Export)
    requires Clean(t) && t != "" && e.path != t && '\n' in v && Holds("\"" + v + "\"" + LineEnd(t), e)
    ensures |e.path| < |v|
  {
    var a, b := FirstBreak(v);
    var first, rest := "\"" + a, b + ("\"" + LineEnd(t));
    assert "\"" + v + "\"" + LineEnd(t) == first + "\n" + rest;
    FirstOrRest(first, rest, e);
    if Yields(first + "\n", e) { InnerLine(first, e); } else { QuoteEndsFile(b, t, e); }
  }

  // ----- Line ends -----

  lemma {:induction false} UniversalBefore(x: string, rest: string)
    requires rest != "" && rest[0] != '\n' && '\r' !in rest
    ensures Universal(x + rest) == Universal(x) + rest
  {
    var s := x + rest;
    if x == "" {
      assert s == rest;
      UniversalKeeps(rest);
    } else {
      assert s[0] == x[0] && s[1..] == x[1..] + rest;
      UniversalBefore(x[1..], rest);
      if |x| == 1 { assert s[1] == rest[0]; } else { assert s[1] == x[1]; }
    }
  }

  lemma {:induction false} UniversalLength(x: string)
    ensures |Universal(x)| <= |x|
    ensures '\n' !in Universal(x) ==> Universal(x) == x && '\n' !in x && '\r' !in x
  {
    if x != "" {
      UniversalLength(x[1..]);
      var u := Universal(x[1..]);
      if x[0] == '\r' {
        if |x| > 1 && x[1] == '\n' {
          assert x[1..][0] == '\n' && u[0] == '\n';
        } else {
          assert Universal(x)[0] == '\n';
        }
      } else {
        assert Universal(x) == [x[0]] + u;
        assert Universal(x)[0] == x[0];
        forall i | 0 <= i < |u| ensures u[i] == Universal(x)[i + 1] {}
      }
    }
  }

  // ----- The paths that survive -----

  lemma UnquotedSurvivor(p: string, t: string, e: Export)
    requires Clean(t) && t != "" && ' ' !in p && e.path == p && Holds(Universal(p + LineEnd(t)), e)
    ensures PathReadsBack(p)
  {
    if p != t {
      CleanHasNoBackslash(t);
      UniversalBefore(p, LineEnd(t));
      UniversalLength(p);
      if '\n' in Universal(p) {
        UnquotedFile(Universal(p), t, e);
      } else {
        OnlyLine(p, t, e);
        UnquotedLine(p, t, e);
        EncodedIsShorter(p);
      }
    }
  }

  lemma RegroupQuote(p: string, rest: string)
    ensures "\"" + p + "\"" + rest == "\"" + p + ("\"" + rest)
  {
  }

  lemma QuotedUniversal(p: string, rest: string)
    requires rest != "" && rest[0] == '"' && '\r' !in rest
    ensures Universal("\"" + p + rest) == "\"" + Universal(p) + rest
  {
    var x := "\"" + p;
    assert x[1..] == p && Universal(x) == "\"" + Universal(p);
    UniversalBefore(x, rest);
  }

  /** Only the path of a quoted line can have line ends in it. */
  lemma QuotedText(p: string, t: string)
    requires Clean(t)
    ensures Universal("\"" + p + "\"" + LineEnd(t)) == "\"" + Universal(p) + "\"" + LineEnd(t)
  {
    CleanHasNoBackslash(t);
    QuotedUniversal(p, "\"" + LineEnd(t));
    RegroupQuote(p, LineEnd(t));
    RegroupQuote(Universal(p), LineEnd(t));
  }

  lemma QuotedSurvivor(p: string, t: string, e: Export)
    requires Clean(t) && t != "" && ' ' in p && e.path == p && Holds(Universal("\"" + p + "\"" + LineEnd(t)), e)
    ensures PathReadsBack(p)
  {
    var u := Universal(p);
    QuotedText(p, t);
    UniversalLength(p);
    if '\n' in u {
      QuotedFile(u, t, e);
    } else {
      OnlyLine("\"" + p + "\"", t, e);
      QuotedPath(p, t, e);
      EncodedIsShorter(p);
      forall i | 0 <= i < |p| ensures !Escaped(p[i..]) { NoCodesNoEscapes(p, i); }
    }
  }

  /** Writing an export and reading the file gives exactly the export back for the
      paths that `PathReadsBack` describes, and for no others. */
  lemma PathsThatSurvive(e: Export)
    requires Proper(e) && Nameable(e.host) && Clean(e.host)
    requires forall i :: 0 <= i < |e.options.pairs| ==> StorableValue(e.options.pairs[i].1)
    ensures FileExports(FileFormat(e)) == Some([e]) <==> PathReadsBack(e.path)
  {
    if PathReadsBack(e.path) {
      FileRoundTrip([e]);
      FileOfOne(e);
    } else if FileExports(FileFormat(e)) == Some([e]) {
      var t := GroupToken(e.host, Text(e.options));
      HostReads(e.(path := "/"));
      GroupTokenIsClean(e.host, Text(e.options));
      FormatAndEnd(e);
      assert e in [e];
      if ' ' in e.path { QuotedSurvivor(e.path, t, e); } else { UnquotedSurvivor(e.path, t, e); }
    }
  }

  lemma FileOfOne(e: Export)
    ensures FileText([e]) == FileFormat(e)
  {
    assert [e][1..] == [] && FileFormat(e) + "" == FileFormat(e);
  }

  lemma FormatAndEnd(e: Export)
    ensures FileFormat(e) == DoubleQuoteSpace(e.path) + LineEnd(GroupToken(e.host, Text(e.options)))
  {
  }
}
