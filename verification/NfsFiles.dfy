/** Exports files as text: the tokeniser, the printed form of an export, and the
    proof that what is written is read back. */
module NfsFiles {
  import opened Wrappers
  import opened Strings
  import opened NfsOptions
  import opened NfsExports
  import NfsEscapes

  // ----- The tokeniser -----

  /** Where `shlex.split(line, "#")` stands: between tokens, inside one, in a comment,
      inside quotes, or behind a backslash. */
  datatype LexState = Gap | Word | Comment | Single | Double | WordEscape | DoubleEscape

  predicate White(c: char) {
    c == ' ' || c == '\t' || c == '\r' || c == '\n'
  }

  predicate Quote(c: char) {
    c == '"' || c == '\''
  }

  /** A character that the tokeniser keeps inside a word. */
  predicate Safe(c: char) {
    !White(c) && !Quote(c) && c != '#' && c != '\\'
  }

  /** `first`, and then what the rest gives if it gives anything. */
  function After<T>(first: seq<T>, rest: Option<seq<T>>): Option<seq<T>> {
    match rest
    case None => None
    case Some(more) => Some(first + more)
  }

  /** What one character does: perhaps a token ends, and where the tokeniser stands
      then, with the token so far. */
  datatype Scan = Scan(ended: Option<string>, st: LexState, token: string)

  function Step(c: char, st: LexState, token: string): Scan {
    match st
    case Gap =>
      if White(c) then Scan(None, Gap, "")
      else if c == '#' then Scan(None, Comment, "")
      else Scan(None, Inside(c), if Safe(c) then [c] else "")
    case Comment => Scan(None, if c == '\n' then Gap else Comment, "")
    case Word =>
      if White(c) then Scan(Some(token), Gap, "")
      else if c == '#' then Scan(Some(token), Comment, "")
      else Scan(None, Inside(c), if Safe(c) then token + [c] else token)
    case Single => if c == '\'' then Scan(None, Word, token) else Scan(None, Single, token + [c])
    case Double =>
      if c == '"' then Scan(None, Word, token)
      else if c == '\\' then Scan(None, DoubleEscape, token)
      else Scan(None, Double, token + [c])
    case WordEscape => Scan(None, Word, token + [c])
    case DoubleEscape =>
      Scan(None, Double, if c == '"' || c == '\\' then token + [c] else token + ['\\', c])
  }

  /** Where a character leads that ends no token. */
  function Inside(c: char): LexState {
    if c == '\\' then WordEscape else if c == '"' then Double else if c == '\'' then Single else Word
  }

  function Before(ended: Option<string>, rest: Option<seq<string>>): Option<seq<string>> {
    match ended
    case None => rest
    case Some(token) => After([token], rest)
  }

  /** The tokens from here on; `None` is an unclosed quote or escape. */
  function Lex(s: string, st: LexState, token: string): Option<seq<string>> {
    if s == "" then
      if st == Word then Some([token]) else if st == Gap || st == Comment then Some([]) else None
    else
      var next := Step(s[0], st, token);
      Before(next.ended, Lex(s[1..], next.st, next.token))
  }

  function Tokens(line: string): Option<seq<string>> {
    Lex(line, Gap, "")
  }

  lemma AfterAfter<T>(a: seq<T>, b: seq<T>, rest: Option<seq<T>>)
    ensures After(a, After(b, rest)) == After(a + b, rest)
  {
    if rest.Some? { assert a + (b + rest.value) == (a + b) + rest.value; }
  }

  lemma AfterNothing<T>(rest: Option<seq<T>>)
    ensures After([], rest) == rest
  {
    if rest.Some? { assert [] + rest.value == rest.value; }
  }

  // ----- Reading -----

  /** The exports that one line adds; `None` is an exception. */
  function LineExports(line: string): Option<seq<Export>> {
    match Tokens(NfsEscapes.ChrEncoded(line))
    case None => None
    case Some(tokens) => if Parsed(tokens).Some? then Parsed(tokens) else Some([])
  }

  /** The lines of a text, each with its line break. */
  function Lines(s: string): seq<string> {
    if s == "" then []
    else
      var rest := Lines(s[1..]);
      if s[0] == '\n' || rest == [] then [[s[0]]] + rest else [[s[0]] + rest[0]] + rest[1..]
  }

  function LinesExports(lines: seq<string>): Option<seq<Export>> {
    if lines == [] then Some([])
    else match LineExports(lines[0])
      case None => None
      case Some(l) => After(l, LinesExports(lines[1..]))
  }

  /** Reading a text file turns every line end into a line feed. */
  function Universal(s: string): string {
    if s == "" then ""
    else if s[0] == '\r' then
      if |s| > 1 && s[1] == '\n' then Universal(s[1..]) else "\n" + Universal(s[1..])
    else [s[0]] + Universal(s[1..])
  }

  function FileExports(text: string): Option<seq<Export>> {
    LinesExports(Lines(Universal(text)))
  }

  /** A line that adds `e`. */
  predicate Adds(line: string, e: Export) {
    && Tokens(NfsEscapes.ChrEncoded(line)).Some?
    && var l := Parsed(Tokens(NfsEscapes.ChrEncoded(line)).value);
       l.Some? && e in l.value
  }

  /** Lines are read exactly if each one can be cut into tokens; those whose tokens make no
      exports are left out, and the others are not affected. */
  lemma {:induction false} LinesRead(lines: seq<string>)
    ensures LinesExports(lines).Some? <==>
      forall k :: 0 <= k < |lines| ==> Tokens(NfsEscapes.ChrEncoded(lines[k])).Some?
    ensures LinesExports(lines).Some? ==>
      forall e :: e in LinesExports(lines).value <==> exists k :: 0 <= k < |lines| && Adds(lines[k], e)
  {
    if lines != [] {
      var rest := lines[1..];
      LinesRead(rest);
      assert lines == [lines[0]] + rest;
      forall e ensures (exists k :: 0 <= k < |lines| && Adds(lines[k], e))
        <==> Adds(lines[0], e) || exists k :: 0 <= k < |rest| && Adds(rest[k], e)
      {
        if k :| 0 <= k < |rest| && Adds(rest[k], e) { assert Adds(lines[k + 1], e); }
        if k :| 0 <= k < |lines| && Adds(lines[k], e) && k > 0 { assert Adds(rest[k - 1], e); }
      }
    }
  }

  /** A return and a line feed are one line end, and a return alone is one. */
  lemma LineEnds(a: string, rest: string)
    requires '\r' !in a
    ensures Universal(a + "\r\n" + rest) == a + "\n" + Universal(rest)
    ensures (rest == "" || rest[0] != '\n') ==> Universal(a + "\r" + rest) == a + "\n" + Universal(rest)
    ensures Universal(a + "\n" + rest) == a + "\n" + Universal(rest)
  {
    var ends := ["\r\n", "\r", "\n"];
    forall i | 0 <= i < 3 ensures Universal(a + ends[i] + rest) == a + Universal(ends[i] + rest) {
      assert a + ends[i] + rest == a + (ends[i] + rest);
      UniversalAfter(a, ends[i] + rest);
    }
    assert ("\r\n" + rest)[1..] == "\n" + rest && ("\n" + rest)[1..] == rest && ("\r" + rest)[1..] == rest;
    assert a + ("\n" + Universal(rest)) == a + "\n" + Universal(rest);
    assert ends[0] == "\r\n" && ends[1] == "\r" && ends[2] == "\n";
  }

  lemma {:induction false} UniversalAfter(a: string, rest: string)
    requires '\r' !in a
    ensures Universal(a + rest) == a + Universal(rest)
  {
    if a == "" {
      assert a + rest == rest && a + Universal(rest) == Universal(rest);
    } else {
      UniversalAfter(a[1..], rest);
      assert (a + rest)[1..] == a[1..] + rest;
      assert [a[0]] + (a[1..] + Universal(rest)) == a + Universal(rest);
    }
  }

  /** `parse_exports_file` */
  method ParseExportsFile(text: string) returns (r: Option<seq<Export>>)
    ensures r == FileExports(text)
  {
    var lines := Lines(Universal(text));
    var rc: seq<Export> := [];
    assert lines[0..] == lines;
    AfterNothing(LinesExports(lines));
    for k := 0 to |lines|
      invariant LinesExports(lines) == After(rc, LinesExports(lines[k..]))
    {
      var line := lines[k];
      assert lines[k..][0] == line && lines[k..][1..] == lines[k + 1..];
      var text := NfsEscapes.ChrEncode(line);
      var tokens := Tokens(text);
      if tokens.None? { return None; }
      var exp := ParseExport(tokens.value);
      ghost var l := if exp.Some? then exp.value else [];
      assert LinesExports(lines[k..]) == After(l, LinesExports(lines[k + 1..]));
      AfterAfter(rc, l, LinesExports(lines[k + 1..]));
      assert rc + [] == rc;
      if exp.Some? { rc := rc + exp.value; }
    }
    assert rc + [] == rc;
    return Some(rc);
  }

  // ----- Writing -----

  /** `_double_quote_space` */
  function DoubleQuoteSpace(s: string): string {
    if ' ' in s then "\"" + s + "\"" else s
  }

  /** `export_file_format` */
  function FileFormat(e: Export): string {
    DoubleQuoteSpace(e.path) + " " + GroupToken(e.host, Text(e.options)) + "\n"
  }

  function FileText(exports: seq<Export>): string {
    if exports == [] then "" else FileFormat(exports[0]) + FileText(exports[1..])
  }
}
