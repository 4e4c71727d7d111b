/** What is read back of what was written: options, lines and whole files. */
module NfsRoundTrip {
  import opened Wrappers
  import opened Strings
  import opened NfsOptions
  import opened NfsExports
  import opened NfsFiles
  import NfsEscapes

  predicate Clean(s: string) {
    forall i :: 0 <= i < |s| ==> Safe(s[i])
  }

  /** Double quotes keep the text as it is, and no decoding changes it: there is no
      double quote, no line end and no octal escape, and every backslash has a
      character behind it that is no backslash. */
  predicate Quotable(p: string) {
    && '"' !in p && '\n' !in p && '\r' !in p
    && (forall i :: 0 <= i < |p| ==> !NfsEscapes.Escaped(p[i..]))
    && KeepsBackslashes(p)
  }

  predicate KeepsBackslashes(p: string) {
    forall i :: 0 <= i < |p| && p[i] == '\\' ==> i + 1 < |p| && p[i + 1] != '\\' && p[i + 1] != '"'
  }

  /** The paths that survive being written and read: one with a space stands in
      double quotes, any other stands for itself. */
  predicate PathReadsBack(p: string) {
    p != "" && if ' ' in p then Quotable(p) else Clean(p)
  }

  predicate StorableValue(v: string) {
    Clean(v) && Plain(v) && '(' !in v
  }

  /** A constructed export whose path, host and values avoid the characters that
      the tokeniser and the parser give a meaning to. */
  predicate Storable(e: Export) {
    && Proper(e) && PathReadsBack(e.path) && Nameable(e.host) && Clean(e.host)
    && forall i :: 0 <= i < |e.options.pairs| ==> StorableValue(e.options.pairs[i].1)
  }

  lemma {:induction false} LexWord(w: string, rest: string, token: string)
    requires Clean(w)
    ensures Lex(w + rest, Word, token) == Lex(rest, Word, token + w)
  {
    if w == "" {
      assert w + rest == rest && token + w == token;
    } else {
      var s := w + rest;
      assert s[0] == w[0] && s[1..] == w[1..] + rest && Safe(w[0]);
      LexWord(w[1..], rest, token + [w[0]]);
      assert token + [w[0]] + w[1..] == token + w;
    }
  }

  lemma KeepsTail(w: string, n: nat)
    requires KeepsBackslashes(w) && n <= |w|
    ensures KeepsBackslashes(w[n..])
  {
    forall i | 0 <= i < |w[n..]| && w[n..][i] == '\\'
      ensures i + 1 < |w[n..]| && w[n..][i + 1] != '\\' && w[n..][i + 1] != '"'
    {
      assert w[n + i] == '\\';
    }
  }

  lemma {:induction false} LexQuoted(w: string, rest: string, token: string)
    requires '"' !in w && KeepsBackslashes(w)
    ensures Lex(w + "\"" + rest, Double, token) == Lex(rest, Word, token + w)
  {
    var s := w + "\"" + rest;
    if w == "" {
      assert s[0] == '"' && s[1..] == rest && token + w == token;
    } else if w[0] == '\\' {
      var t := w[2..] + "\"" + rest;
      assert s[0] == '\\' && s[1..][0] == w[1] && s[1..][1..] == t;
      KeepsTail(w, 2);
      LexQuoted(w[2..], rest, token + ['\\', w[1]]);
      assert token + ['\\', w[1]] + w[2..] == token + w;
    } else {
      assert s[0] == w[0] && s[1..] == w[1..] + "\"" + rest;
      KeepsTail(w, 1);
      LexQuoted(w[1..], rest, token + [w[0]]);
      assert token + [w[0]] + w[1..] == token + w;
    }
  }

  lemma LexClean(w: string, rest: string)
    requires Clean(w) && w != ""
    ensures Lex(w + rest, Gap, "") == Lex(rest, Word, w)
  {
    var s := w + rest;
    assert s[0] == w[0] && s[1..] == w[1..] + rest && Safe(w[0]);
    LexWord(w[1..], rest, [w[0]]);
    assert [w[0]] + w[1..] == w;
  }

  lemma LexString(p: string, rest: string)
    requires '"' !in p && KeepsBackslashes(p)
    ensures Lex("\"" + p + "\"" + rest, Gap, "") == Lex(rest, Word, p)
  {
    var s := "\"" + p + "\"" + rest;
    assert s[0] == '"' && s[1..] == p + "\"" + rest;
    LexQuoted(p, rest, "");
    assert "" + p == p;
  }

  /** A single-quoted string is taken as it is. */
  lemma {:induction false} LexSingle(w: string, rest: string, token: string)
    requires '\'' !in w
    ensures Lex(w + "'" + rest, Single, token) == Lex(rest, Word, token + w)
  {
    var s := w + "'" + rest;
    if w == "" {
      assert s[0] == '\'' && s[1..] == rest && token + w == token;
    } else {
      assert s[0] == w[0] && s[1..] == w[1..] + "'" + rest;
      LexSingle(w[1..], rest, token + [w[0]]);
      assert token + [w[0]] + w[1..] == token + w;
    }
  }

  /** `w` with a backslash before each double quote and each backslash. */
  function Backslashed(w: string): string {
    if w == "" then ""
    else (if w[0] == '"' || w[0] == '\\' then ['\\', w[0]] else [w[0]]) + Backslashed(w[1..])
  }

  /** Every string at all can stand in double quotes, with backslashes. */
  lemma {:induction false} LexBackslashed(w: string, rest: string, token: string)
    ensures Lex(Backslashed(w) + "\"" + rest, Double, token) == Lex(rest, Word, token + w)
  {
    var s := Backslashed(w) + "\"" + rest;
    if w == "" {
      assert s[0] == '"' && s[1..] == rest && token + w == token;
    } else {
      var t := Backslashed(w[1..]) + "\"" + rest;
      LexBackslashed(w[1..], rest, token + [w[0]]);
      assert token + [w[0]] + w[1..] == token + w;
      if w[0] == '"' || w[0] == '\\' {
        assert s[0] == '\\' && s[1] == w[0] && s[1..][1..] == t;
      } else {
        assert s[0] == w[0] && s[1..] == t;
      }
    }
  }

  /** A comment is skipped up to the end of its line. */
  lemma {:induction false} LexComment(w: string, rest: string)
    requires '\n' !in w
    ensures Lex(w + "\n" + rest, Comment, "") == Lex(rest, Gap, "")
  {
    var s := w + "\n" + rest;
    if w == "" {
      assert s[0] == '\n' && s[1..] == rest;
    } else {
      assert s[0] == w[0] && s[1..] == w[1..] + "\n" + rest;
      LexComment(w[1..], rest);
    }
  }

  lemma LexPath(p: string, rest: string)
    requires PathReadsBack(p)
    ensures Lex(DoubleQuoteSpace(p) + rest, Gap, "") == Lex(rest, Word, p)
  {
    if ' ' in p {
      LexString(p, rest);
    } else {
      LexClean(p, rest);
    }
  }

  lemma LexToken(w: string, white: char, rest: string)
    requires Clean(w) && w != "" && White(white)
    ensures Lex(w + ([white] + rest), Gap, "") == After([w], Lex(rest, Gap, ""))
  {
    LexClean(w, [white] + rest);
    assert ([white] + rest)[1..] == rest;
  }

  /** What follows a path on its line. */
  function LineEnd(t: string): string {
    " " + t + "\n"
  }

  /** A clean token before the line end, from inside another token or between two. */
  lemma LexEnd(t: string, token: string)
    requires Clean(t) && t != ""
    ensures Lex(LineEnd(t), Gap, "") == Some([t]) && Lex(LineEnd(t), Word, token) == Some([token, t])
  {
    var r := LineEnd(t);
    assert r[0] == ' ' && r[1..] == t + (['\n'] + "");
    LexToken(t, '\n', "");
    assert [t] + [] == [t] && [token] + [t] == [token, t];
    assert Lex(r[1..], Gap, "") == Some([t]);
  }

  lemma LineTokens(p: string, t: string)
    requires PathReadsBack(p) && Clean(t) && t != ""
    ensures Tokens(DoubleQuoteSpace(p) + " " + t + "\n") == Some([p, t])
  {
    assert DoubleQuoteSpace(p) + " " + t + "\n" == DoubleQuoteSpace(p) + LineEnd(t);
    LexPath(p, LineEnd(t));
    LexEnd(t, p);
  }

  // ----- The line round trip -----

  lemma WordIsClean(s: string)
    requires IsWord(s)
    ensures Clean(s) && Plain(s) && '(' !in s
  {
  }

  predicate Piece(p: string) {
    Clean(p) && '(' !in p
  }

  lemma {:induction false} NamesArePieces(order: seq<Opt>, bits: Mask, p: string)
    requires p in NamesOf(order, bits)
    ensures Piece(p)
  {
    var n := |order| - 1;
    if p in NamesOf(order[..n], bits) {
      NamesArePieces(order[..n], bits, p);
    } else {
      NamesAreWords(order[n]);
      WordIsClean(p);
    }
  }

  lemma PairIsPiece(pair: (string, string))
    requires pair.0 in KEYS && StorableValue(pair.1)
    ensures Piece(PairText(pair)) && Plain(pair.0)
  {
    KeysAreWords(pair.0);
    WordIsClean(pair.0);
  }

  lemma {:induction false} JoinedIsPiece(parts: seq<string>)
    requires forall p :: p in parts ==> Piece(p)
    ensures Piece(Join(parts, ','))
  {
    if |parts| > 1 {
      JoinedIsPiece(parts[1..]);
      assert Piece(parts[0]);
    }
  }

  lemma TextIsPiece(e: Export)
    requires Storable(e)
    ensures Piece(Text(e.options)) && PlainPairs(e.options.pairs)
  {
    var o := e.options;
    forall i | 0 <= i < |o.pairs| ensures Piece(PairText(o.pairs[i])) && Plain(o.pairs[i].0) {
      PairIsPiece(o.pairs[i]);
    }
    forall p | p in Pieces(o) ensures Piece(p) {
      if p in NamesOf(ORDER, o.bits) { NamesArePieces(ORDER, o.bits, p); }
    }
    JoinedIsPiece(Pieces(o));
  }

  lemma {:induction false} NoCodes(w: string)
    requires forall i :: 0 <= i < |w| ==> !NfsEscapes.Escaped(w[i..])
    ensures NfsEscapes.Codes(w) == []
  {
    if w != "" {
      assert w[0..] == w;
      forall i | 0 <= i < |w[1..]| ensures !NfsEscapes.Escaped(w[1..][i..]) {
        assert w[1..][i..] == w[i + 1..];
      }
      NoCodes(w[1..]);
    }
  }

  lemma CleanHasNoBackslash(s: string)
    requires Clean(s)
    ensures '\\' !in s && '"' !in s && '\n' !in s && '\r' !in s && ' ' !in s
  {
  }

  lemma PlainHasNoCodes(s: string)
    requires '\\' !in s
    ensures NfsEscapes.Codes(s) == []
  {
    NfsEscapes.PlainCodes(s, "");
    assert s + "" == s;
  }

  lemma QuotedHasNoCodes(p: string, t: string)
    requires Quotable(p) && Clean(t)
    ensures NfsEscapes.Codes("\"" + (p + ("\"" + LineEnd(t)))) == []
  {
    CleanHasNoBackslash(t);
    NoCodes(p);
    NfsEscapes.CodesBefore(p, "\"" + LineEnd(t));
    NfsEscapes.PlainCodes("\"", p + ("\"" + LineEnd(t)));
  }

  lemma QuotedLine(p: string, t: string)
    ensures "\"" + p + "\"" + " " + t + "\n" == "\"" + (p + ("\"" + LineEnd(t)))
  {
  }

  lemma FormatIsDecoded(p: string, t: string)
    requires PathReadsBack(p) && Clean(t)
    ensures NfsEscapes.Codes(DoubleQuoteSpace(p) + " " + t + "\n") == []
  {
    if ' ' in p {
      QuotedHasNoCodes(p, t);
      QuotedLine(p, t);
    } else {
      CleanHasNoBackslash(p);
      CleanHasNoBackslash(t);
      PlainHasNoCodes(p + " " + t + "\n");
    }
  }

  lemma LineReads(line: string, tokens: seq<string>, l: seq<Export>)
    requires NfsEscapes.Codes(line) == [] && Tokens(line) == Some(tokens) && Parsed(tokens) == Some(l)
    ensures LineExports(line) == Some(l)
  {
  }

  lemma GroupTokenIsClean(host: string, text: string)
    requires Clean(host) && Clean(text)
    ensures Clean(GroupToken(host, text)) && GroupToken(host, text) != ""
  {
  }

  lemma HostReads(e: Export)
    requires Storable(e)
    ensures var text := Text(e.options);
      Clean(text) && '(' !in text && ParseOptions(text) == Some(e.options)
  {
    TextIsPiece(e);
    PlainReadsBack(e.options);
  }

  /** Reading the printed form of an export gives exactly that export: host, path,
      mask, and key/value pairs in order. */
  lemma LineRoundTrip(e: Export)
    requires Storable(e)
    ensures LineExports(FileFormat(e)) == Some([e])
  {
    var text, t := Text(e.options), GroupToken(e.host, Text(e.options));
    HostReads(e);
    GroupTokenIsClean(e.host, text);
    FormatIsDecoded(e.path, t);
    LineTokens(e.path, t);
    OneHost(e.path, e.host, text, e.options);
    LineReads(FileFormat(e), [e.path, t], [e]);
  }

  function ThreeWords(a: string, b: string, t: string): string {
    a + ("\t" + (b + (" " + (t + ("\n" + "")))))
  }

  lemma ThreeTokens(a: string, b: string, t: string)
    requires Piece(a) && Piece(b) && Clean(t) && a != "" && b != "" && t != ""
    ensures Tokens(ThreeWords(a, b, t)) == Some([a, b, t])
  {
    LexToken(a, '\t', b + (" " + (t + ("\n" + ""))));
    LexToken(b, ' ', t + ("\n" + ""));
    LexToken(t, '\n', "");
    assert [t] + [] == [t] && [b] + [t] == [b, t] && [a] + [b, t] == [a, b, t];
  }

  lemma ThreeFixed(a: string, b: string, t: string)
    requires Clean(a) && Clean(b) && Clean(t)
    ensures NfsEscapes.Codes(ThreeWords(a, b, t)) == []
  {
    PlainHasNoCodes(ThreeWords(a, b, t));
  }

  lemma TabLine(a: string, b: string, t: string)
    requires Clean(a) && Clean(b)
    ensures var p := a + "\t" + b; DoubleQuoteSpace(p) + " " + t + "\n" == ThreeWords(a, b, t)
  {
    assert ' ' !in a + "\t" + b;
  }

  /** Only a space makes the printer quote a path. One with a tab instead is read
      back as a shorter path with an additional host, for all such paths. */
  lemma TabSplitsPath(a: string, b: string, e: Export)
    requires Storable(e.(path := a)) && e.path == a + "\t" + b && Piece(a)
    requires Piece(b) && Nameable(b) && ')' !in b
    ensures LineExports(FileFormat(e)) == Some([Export(b, a, NONE), Export(e.host, a, e.options)])
  {
    var text, t := Text(e.options), GroupToken(e.host, Text(e.options));
    HostReads(e.(path := a));
    GroupTokenIsClean(e.host, text);
    TabLine(a, b, t);
    ThreeFixed(a, b, t);
    ThreeTokens(a, b, t);
    BareFirst(a, b, e.host, text, e.options);
    LineReads(FileFormat(e), [a, b, t], [Export(b, a, NONE), Export(e.host, a, e.options)]);
  }

  // ----- The file round trip -----

  lemma {:induction false} FirstLine(body: string, rest: string)
    requires '\n' !in body
    ensures Lines(body + "\n" + rest) == [body + "\n"] + Lines(rest)
  {
    var s := body + "\n" + rest;
    if body == "" {
      assert s[0] == '\n' && s[1..] == rest && body + "\n" == "\n";
      assert [['\n']] == ["\n"];
    } else {
      assert s[0] == body[0] && s[1..] == body[1..] + "\n" + rest;
      FirstLine(body[1..], rest);
      assert [body[0]] + (body[1..] + "\n") == body + "\n";
    }
  }

  lemma FormatIsLine(e: Export, rest: string)
    requires Storable(e)
    ensures Lines(FileFormat(e) + rest) == [FileFormat(e)] + Lines(rest)
    ensures '\r' !in FileFormat(e)
  {
    TextIsPiece(e);
    var t := GroupToken(e.host, Text(e.options));
    assert Clean(t);
    CleanHasNoBackslash(t);
    BodyHasNoLineEnd(e.path, t);
    FirstLine(DoubleQuoteSpace(e.path) + " " + t, rest);
  }

  lemma BodyHasNoLineEnd(p: string, t: string)
    requires PathReadsBack(p) && Clean(t)
    ensures '\n' !in DoubleQuoteSpace(p) + " " + t && '\r' !in DoubleQuoteSpace(p) + " " + t
  {
    CleanHasNoBackslash(t);
    if ' ' !in p { CleanHasNoBackslash(p); }
  }

  lemma {:induction false} NoReturns(exports: seq<Export>)
    requires forall e :: e in exports ==> Storable(e)
    ensures '\r' !in FileText(exports)
  {
    if exports != [] {
      FormatIsLine(exports[0], "");
      NoReturns(exports[1..]);
    }
  }

  lemma {:induction false} UniversalKeeps(s: string)
    requires '\r' !in s
    ensures Universal(s) == s
  {
    if s != "" {
      UniversalKeeps(s[1..]);
    }
  }

  lemma {:induction false} WrittenLines(exports: seq<Export>)
    requires forall e :: e in exports ==> Storable(e)
    ensures LinesExports(Lines(FileText(exports))) == Some(exports)
  {
    if exports != [] {
      var e, rest := exports[0], exports[1..];
      WrittenLines(rest);
      FormatIsLine(e, FileText(rest));
      LineRoundTrip(e);
      var lines := [FileFormat(e)] + Lines(FileText(rest));
      assert lines[1..] == Lines(FileText(rest));
      assert [e] + rest == exports;
    }
  }

  /** Reading a written file gives exactly the exports written, in order. */
  lemma FileRoundTrip(exports: seq<Export>)
    requires forall e :: e in exports ==> Storable(e)
    ensures FileExports(FileText(exports)) == Some(exports)
  {
    NoReturns(exports);
    UniversalKeeps(FileText(exports));
    WrittenLines(exports);
  }
}
