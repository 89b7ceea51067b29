/**
 The SQL script splitter. `Lex` is the reference: it reads a script as quoted strings, comments,
 keywords, terminators and plain characters; `Pieces` cuts the token list at the terminators that
 lie outside every BEGIN...END block. `SplitSqlScript` is the one-pass character loop, proved to
 return exactly what the reference says.
 */
module SqlSplit {
  import opened Chars
  import opened Wrappers

  datatype Kind =
    | Quoted
    | LineComment
    | BlockComment
    | Directive(newDelim: string)
    | Begin
    | Terminator(delim: string)
    | End
    | Plain

  /** A token and the characters of the script it consumes. */
  datatype Token = Token(kind: Kind, text: string) {
    /** What the token adds to the statement being read: a terminator adds the delimiter itself. */
    function Kept(): string {
      match kind
      case Directive(_) => ""
      case Terminator(d) => d
      case _ => text
    }
  }

  /** What the meaning of the next character depends on besides the text ahead. */
  datatype Mode = Mode(delim: string, depth: nat, blank: bool)

  const INITIAL := Mode(";", 0, true)

  // ── Look-ahead tests ──

  predicate IsLineCommentStart(s: string)
    requires s != ""
  {
    || s[0] == '#'
    || (s[0] == '-' && |s| > 1 && s[1] == '-' && (|s| == 2 || IsWhitespace(s[2])))
  }

  predicate IsBlockCommentStart(s: string)
    requires s != ""
  {
    s[0] == '/' && |s| > 1 && s[1] == '*'
  }

  predicate IsQuote(c: char) {
    c == '\'' || c == '"' || c == '`'
  }

  /** Does `s` start with `kw`, ignoring ASCII case, and does the word end there? Only the right side is a boundary. */
  predicate MatchKeyword(u: Unicode, s: string, kw: string)
    ensures MatchKeyword(u, s, kw) ==> |kw| <= |s|
  {
    && |kw| <= |s|
    && (forall k :: 0 <= k < |kw| ==> ToAsciiUppercase(s[k]) == kw[k])
    && (|s| == |kw| || !(IsAlphanumeric(u, s[|kw|]) || s[|kw|] == '_'))
  }

  predicate MatchesStr(s: string, d: string) {
    d <= s
  }

  /** The number of leading blanks of `s` on its first line. */
  function LineBlanks(s: string): (n: nat)
    ensures n <= |s|
  {
    if s != "" && IsWhitespace(s[0]) && s[0] != '\n' then 1 + LineBlanks(s[1..]) else 0
  }

  /** END closes a block only when the terminator follows on the same line, or the input ends there. */
  predicate ClosesBlock(u: Unicode, s: string, delim: string)
    ensures ClosesBlock(u, s, delim) ==> 3 <= |s|
  {
    && MatchKeyword(u, s, "END")
    && var k := 3 + LineBlanks(s[3..]);
       (MatchesStr(s[k..], delim) || k == |s|)
  }

  // ── Token lengths ──

  /** The number of characters from inside a quoted string up to and including the closing quote. */
  function QuotedLen(s: string, q: char): (n: nat)
    ensures n <= |s|
    ensures s != "" ==> n > 0
  {
    if s == "" then 0
    else if s[0] == '\\' && |s| > 1 then 2 + QuotedLen(s[2..], q)
    else if s[0] == q then 1
    else 1 + QuotedLen(s[1..], q)
  }

  /** The number of characters before the end of the line. */
  function LineLen(s: string): (n: nat)
    ensures n <= |s|
    ensures forall i :: 0 <= i < n ==> s[i] != '\n'
    ensures n < |s| ==> s[n] == '\n'
  {
    if s == "" || s[0] == '\n' then 0 else 1 + LineLen(s[1..])
  }

  /** The number of characters from inside a block comment up to and including its end mark. */
  function BlockLen(s: string): (n: nat)
    ensures n <= |s|
  {
    if s == "" then 0
    else if s[0] == '*' && |s| > 1 && s[1] == '/' then 2
    else 1 + BlockLen(s[1..])
  }

  function Min(a: nat, b: nat): nat {
    if a <= b then a else b
  }

  /** The delimiter a DELIMITER line leaves in force; a line naming none changes nothing. */
  function DirectiveDelim(s: string, delim: string): (d: string)
    requires 9 <= LineLen(s)
    requires delim != ""
    ensures d != ""
  {
    var named := Trim(s[9..LineLen(s)]);
    if named != "" then named else delim
  }

  lemma KeywordOnLine(u: Unicode, s: string)
    requires MatchKeyword(u, s, "DELIMITER")
    ensures 9 <= LineLen(s)
  {
    forall k | 0 <= k < 9 ensures s[k] != '\n' {
      assert ToAsciiUppercase(s[k]) == "DELIMITER"[k];
    }
  }

  // ── The reference lexer ──

  /** The token at the head of `s`. */
  function Scan(u: Unicode, s: string, m: Mode): (t: Token)
    requires s != "" && m.delim != ""
    ensures 1 <= |t.text| <= |s| && t.text == s[..|t.text|]
    ensures t.kind.Directive? ==> m.blank && t.kind.newDelim != ""
    ensures t.kind.Terminator? ==> t.kind.delim == m.delim && |t.text| == Min(Utf8Len(m.delim), |s|)
    ensures t.kind.End? ==> m.depth > 0
  {
    if IsLineCommentStart(s) then
      Token(LineComment, s[..LineLen(s)])
    else if IsBlockCommentStart(s) then
      Token(BlockComment, s[..2 + BlockLen(s[2..])])
    else if IsQuote(s[0]) then
      Token(Quoted, s[..1 + QuotedLen(s[1..], s[0])])
    else if m.blank && MatchKeyword(u, s, "DELIMITER") then
      KeywordOnLine(u, s);
      Token(Directive(DirectiveDelim(s, m.delim)), s[..LineLen(s)])
    else if MatchKeyword(u, s, "BEGIN") then
      Token(Begin, s[..5])
    else if MatchesStr(s, m.delim) then
      Token(Terminator(m.delim), s[..Min(Utf8Len(m.delim), |s|)])
    else if m.depth > 0 && ClosesBlock(u, s, m.delim) then
      Token(End, s[..3])
    else
      Token(Plain, s[..1])
  }

  /** A character that starts no comment, quoted string or keyword read outside blocks. */
  predicate IsOrdinary(c: char) {
    c != '#' && c != '-' && c != '/' && !IsQuote(c) && ToAsciiUppercase(c) != 'D' && ToAsciiUppercase(c) != 'B'
  }

  lemma ScanOrdinary(u: Unicode, s: string, m: Mode)
    requires m.delim != "" && m.depth == 0 && s != "" && IsOrdinary(s[0])
    ensures Scan(u, s, m) ==
            if m.delim <= s then Token(Terminator(m.delim), s[..Min(Utf8Len(m.delim), |s|)])
            else Token(Plain, s[..1])
  {
    hide LineLen, BlockLen, QuotedLen, Utf8Len;
    assert "DELIMITER"[0] == 'D' && "BEGIN"[0] == 'B';
  }

  /** A token that ends the statement being read: a directive, or a terminator outside every block. */
  predicate Cuts(t: Token, depth: nat) {
    t.kind.Directive? || (t.kind.Terminator? && depth == 0)
  }

  function DepthAfter(t: Token, depth: nat): nat {
    match t.kind
    case Begin => depth + 1
    case End => if depth > 0 then depth - 1 else 0
    case _ => depth
  }

  function After(m: Mode, t: Token): (m': Mode)
    requires t.text != ""
    requires t.kind.Directive? ==> t.kind.newDelim != ""
    ensures m.delim != "" ==> m'.delim != ""
  {
    Mode(if t.kind.Directive? then t.kind.newDelim else m.delim,
         DepthAfter(t, m.depth),
         Cuts(t, m.depth) || (m.blank && t.kind.Plain? && IsWhitespace(t.text[0])))
  }

  function Lex(u: Unicode, s: string, m: Mode): seq<Token>
    requires m.delim != ""
    decreases |s|
  {
    if s == "" then []
    else
      var t := Scan(u, s, m);
      [t] + Lex(u, s[|t.text|..], After(m, t))
  }

  lemma LexHead(u: Unicode, s: string, m: Mode)
    requires m.delim != "" && s != ""
    ensures var t := Scan(u, s, m);
            Lex(u, s, m) == [t] + Lex(u, s[|t.text|..], After(m, t)) &&
            Lex(u, s[|t.text|..], After(m, t)) == Lex(u, s, m)[1..]
  {
    hide Scan;
  }

  // ── From tokens to statements ──

  /** The text between two cuts, and the token that cut it off; the last piece ends with the input. */
  datatype Piece = Piece(body: string, cut: Option<Token>)

  function Pieces(ts: seq<Token>, depth: nat, buf: string): (ps: seq<Piece>)
    ensures ps != [] && buf <= ps[0].body
  {
    if ts == [] then [Piece(buf, None)]
    else if Cuts(ts[0], depth) then
      [Piece(buf, Some(ts[0]))] + Pieces(ts[1..], depth, "")
    else
      Pieces(ts[1..], DepthAfter(ts[0], depth), buf + ts[0].Kept())
  }

  function Statements(ps: seq<Piece>): seq<string> {
    if ps == [] then []
    else Flush(ps[0].body) + Statements(ps[1..])
  }

  function Flush(buf: string): seq<string> {
    if Trim(buf) != "" then [Trim(buf)] else []
  }

  /** The statements read from `s` when `buf` has been read before it. */
  function Read(u: Unicode, s: string, m: Mode, buf: string): seq<string>
    requires m.delim != ""
  {
    Statements(Pieces(Lex(u, s, m), m.depth, buf))
  }

  /** What splitting a script means. */
  function Split(u: Unicode, script: string): seq<string> {
    Read(u, script, INITIAL, "")
  }

  // ── The one-pass loop ──

  /** One token consumed: a cut flushes the buffer, any other token extends it. */
  lemma ReadStep(u: Unicode, s: string, m: Mode, buf: string, t: Token)
    requires m.delim != "" && s != "" && t == Scan(u, s, m)
    ensures Read(u, s, m, buf) ==
            if Cuts(t, m.depth) then Flush(buf) + Read(u, s[|t.text|..], After(m, t), "")
            else Read(u, s[|t.text|..], After(m, t), buf + t.Kept())
  {
    hide Scan, Lex, Pieces, Statements;
    var ts := Lex(u, s[|t.text|..], After(m, t));
    LexHead(u, s, m);
    PiecesHead(t, ts, m.depth, buf);
    if Cuts(t, m.depth) {
      StatementsHead(Piece(buf, Some(t)), Pieces(ts, m.depth, ""));
    }
  }

  lemma PiecesHead(t: Token, ts: seq<Token>, depth: nat, buf: string)
    ensures Pieces([t] + ts, depth, buf) ==
            if Cuts(t, depth) then [Piece(buf, Some(t))] + Pieces(ts, depth, "")
            else Pieces(ts, DepthAfter(t, depth), buf + t.Kept())
  {
    assert ([t] + ts)[1..] == ts;
    assert Cuts(t, depth) ==> DepthAfter(t, depth) == depth;
  }

  lemma StatementsHead(p: Piece, ps: seq<Piece>)
    ensures Statements([p] + ps) == Flush(p.body) + Statements(ps)
  {
    assert ([p] + ps)[1..] == ps;
  }

  lemma ReadEnd(u: Unicode, m: Mode, buf: string)
    requires m.delim != ""
    ensures Read(u, "", m, buf) == Flush(buf)
  {
    var p := Piece(buf, None);
    assert Lex(u, "", m) == [];
    assert Pieces([], m.depth, buf) == [p];
    assert Statements([p]) == Flush(buf) + Statements([p][1..]);
  }

  /** What is still to come, seen from inside a quoted string `q` (if any). */
  function Pending(u: Unicode, s: string, delim: string, depth: nat, buf: string, inQuote: Option<char>): seq<string>
    requires delim != ""
  {
    match inQuote
    case None => Read(u, s, Mode(delim, depth, Blank(buf)), buf)
    case Some(q) =>
      var n := QuotedLen(s, q);
      Read(u, s[n..], Mode(delim, depth, false), buf + s[..n])
  }

  lemma SplitIsPending(u: Unicode, script: string)
    ensures Split(u, script) == Pending(u, script[0..], ";", 0, "", None)
  {
    hide Read;
    assert script[0..] == script;
    assert Blank("");
  }

  lemma PendingEscape(u: Unicode, s: string, delim: string, depth: nat, buf: string, q: char)
    requires delim != "" && |s| > 1 && s[0] == '\\'
    ensures Pending(u, s, delim, depth, buf, Some(q)) == Pending(u, s[2..], delim, depth, buf + s[..2], Some(q))
  {
    hide Read;
    var n := QuotedLen(s[2..], q);
    assert QuotedLen(s, q) == 2 + n;
    assert s[2..][n..] == s[2 + n..];
    assert buf + s[..2 + n] == buf + s[..2] + s[2..][..n];
  }

  lemma PendingInside(u: Unicode, s: string, delim: string, depth: nat, buf: string, q: char)
    requires delim != "" && s != "" && !(s[0] == '\\' && |s| > 1) && s[0] != q
    ensures Pending(u, s, delim, depth, buf, Some(q)) == Pending(u, s[1..], delim, depth, buf + s[..1], Some(q))
  {
    hide Read;
    var n := QuotedLen(s[1..], q);
    assert QuotedLen(s, q) == 1 + n;
    assert s[1..][n..] == s[1 + n..];
    assert buf + s[..1 + n] == buf + s[..1] + s[1..][..n];
  }

  lemma PendingClose(u: Unicode, s: string, delim: string, depth: nat, buf: string, q: char)
    requires delim != "" && s != "" && !(s[0] == '\\' && |s| > 1) && s[0] == q
    requires !Blank(buf)
    ensures Pending(u, s, delim, depth, buf, Some(q)) == Pending(u, s[1..], delim, depth, buf + s[..1], None)
  {
    hide Read;
    assert QuotedLen(s, q) == 1;
    BlankConcat(buf, s[..1]);
  }

  /** The blank flag of the reference is the state of the buffer, and no block is open on a blank buffer. */
  lemma BlankTracksBuffer(u: Unicode, s: string, m: Mode, buf: string, t: Token)
    requires m.delim != "" && s != "" && t == Scan(u, s, m)
    requires m.blank == Blank(buf) && (m.depth > 0 ==> !m.blank)
    requires !Cuts(t, m.depth)
    ensures After(m, t).blank == Blank(buf + t.Kept())
    ensures After(m, t).depth > 0 ==> !After(m, t).blank
  {
    BlankConcat(buf, t.Kept());
    if !t.kind.Terminator? {
      assert t.Kept() == t.text && t.text[0] == s[0];
      if t.kind.Begin? {
        assert ToAsciiUppercase(s[0]) == "BEGIN"[0];
      }
      if t.kind.Plain? {
        assert t.text == [s[0]];
      }
    }
  }

  /** One token of the reference, in the loop's own variables. */
  lemma PendingToken(u: Unicode, s: string, delim: string, depth: nat, buf: string, t: Token)
    requires delim != "" && s != "" && t == Scan(u, s, Mode(delim, depth, Blank(buf)))
    requires depth > 0 ==> !Blank(buf)
    ensures t.kind.Directive? ==>
              Blank(buf) && t.kind.newDelim != "" &&
              Pending(u, s, delim, depth, buf, None) == Pending(u, s[|t.text|..], t.kind.newDelim, depth, "", None)
    ensures t.kind.Terminator? && depth == 0 ==>
              Pending(u, s, delim, depth, buf, None) == Flush(buf) + Pending(u, s[|t.text|..], delim, depth, "", None)
    ensures !Cuts(t, depth) ==>
              var depth' := DepthAfter(t, depth);
              Pending(u, s, delim, depth, buf, None) == Pending(u, s[|t.text|..], delim, depth', buf + t.Kept(), None) &&
              (depth' > 0 ==> !Blank(buf + t.Kept()))
  {
    hide Lex, Scan, Pieces, Statements;
    var m := Mode(delim, depth, Blank(buf));
    ReadStep(u, s, m, buf, t);
    if Cuts(t, depth) {
      if t.kind.Directive? {
        TrimBlank(buf);
      }
    } else {
      BlankTracksBuffer(u, s, m, buf, t);
    }
  }

  lemma ScanQuote(u: Unicode, s: string, m: Mode)
    requires m.delim != "" && s != ""
    requires IsQuote(s[0])
    ensures Scan(u, s, m) == Token(Quoted, s[..1 + QuotedLen(s[1..], s[0])])
  {
  }

  /** Entering a quoted string: the token is the rest of the string, however long. */
  lemma PendingQuote(u: Unicode, s: string, delim: string, depth: nat, buf: string)
    requires delim != "" && s != "" && (depth > 0 ==> !Blank(buf))
    requires IsQuote(s[0])
    ensures Pending(u, s, delim, depth, buf, None) == Pending(u, s[1..], delim, depth, buf + s[..1], Some(s[0]))
    ensures !Blank(buf + s[..1])
  {
    hide Read, Scan, QuotedLen;
    var n := QuotedLen(s[1..], s[0]);
    var t := Token(Quoted, s[..1 + n]);
    ScanQuote(u, s, Mode(delim, depth, Blank(buf)));
    PendingToken(u, s, delim, depth, buf, t);
    assert s[1..][n..] == s[1 + n..];
    assert buf + t.Kept() == buf + s[..1] + s[1..][..n];
    BlankConcat(buf, s[..1]);
    BlankConcat(buf, t.Kept());
  }

  lemma PendingEnd(u: Unicode, delim: string, depth: nat, buf: string, inQuote: Option<char>)
    requires delim != ""
    ensures Pending(u, "", delim, depth, buf, inQuote) == Flush(buf)
  {
    ReadEnd(u, Mode(delim, depth, Blank(buf)), buf);
    ReadEnd(u, Mode(delim, depth, false), buf);
    assert buf + "" == buf;
  }

  lemma TrimSkipsBlanks(a: string, b: string)
    requires Blank(a)
    ensures Trim(a + b) == Trim(b)
  {
    if a == "" {
      assert a + b == b;
    } else {
      assert (a + b)[1..] == a[1..] + b;
      TrimSkipsBlanks(a[1..], b);
    }
  }

  /** The splitting loop. */
  method SplitSqlScript(u: Unicode, script: string) returns (statements: seq<string>)
    ensures statements == Split(u, script)
  {
    hide Split, Pending, Blank, Flush;
    ghost var goal := Split(u, script);
    SplitIsPending(u, script);
    statements := [];
    var buf := "";
    var delimiter := ";";
    var inQuote: Option<char> := None;
    var beginDepth: nat := 0;
    var i: nat := 0;
    while i < |script|
      invariant delimiter != ""
      invariant inQuote.Some? || beginDepth > 0 ==> !Blank(buf)
      invariant statements + Pending(u, script[Min(i, |script|)..], delimiter, beginDepth, buf, inQuote) == goal
      decreases |script| - i
    {
      if inQuote.Some? {
        i, buf, inQuote := StepInQuote(u, script, i, delimiter, beginDepth, buf, inQuote.value);
      } else {
        var flushed;
        i, delimiter, beginDepth, buf, inQuote, flushed := StepInCode(u, script, i, delimiter, beginDepth, buf);
        statements := statements + flushed;
      }
    }
    assert script[Min(i, |script|)..] == "";
    PendingEnd(u, delimiter, beginDepth, buf, inQuote);
    var last := Flush(buf);
    statements := statements + last;
  }

  /** One turn of the loop inside a quoted string. */
  method StepInQuote(u: Unicode, script: string, start: nat, delimiter: string, depth: nat, before: string, q: char)
    returns (i: nat, buf: string, inQuote: Option<char>)
    requires start < |script| && delimiter != "" && !Blank(before)
    ensures start < i <= |script| && !Blank(buf)
    ensures Pending(u, script[start..], delimiter, depth, before, Some(q)) ==
            Pending(u, script[i..], delimiter, depth, buf, inQuote)
  {
    hide Pending;
    var c := script[start];
    ghost var s := script[start..];
    if c == '\\' && start + 1 < |script| {
      PendingEscape(u, s, delimiter, depth, before, q);
      assert s[2..] == script[start + 2..];
      assert s[..2] == [c] + [script[start + 1]];
      BlankConcat(before, s[..2]);
      assert before + s[..2] == before + [c] + [script[start + 1]];
      return start + 2, before + [c] + [script[start + 1]], Some(q);
    }
    assert s[1..] == script[start + 1..] && s[..1] == [c];
    BlankConcat(before, [c]);
    if c == q {
      PendingClose(u, s, delimiter, depth, before, q);
      return start + 1, before + [c], None;
    }
    PendingInside(u, s, delimiter, depth, before, q);
    return start + 1, before + [c], Some(q);
  }

  /** One turn of the loop outside quoted strings. */
  method StepInCode(u: Unicode, script: string, start: nat, delim: string, depth: nat, before: string)
    returns (i: nat, delimiter: string, beginDepth: nat, buf: string, inQuote: Option<char>, flushed: seq<string>)
    requires start < |script| && delim != "" && (depth > 0 ==> !Blank(before))
    ensures start < i && delimiter != "" && (inQuote.Some? || beginDepth > 0 ==> !Blank(buf))
    ensures Pending(u, script[start..], delim, depth, before, None) ==
            flushed + Pending(u, script[Min(i, |script|)..], delimiter, beginDepth, buf, inQuote)
  {
    hide Pending, Scan, Blank, Trim, QuotedLen, Utf8Len;
    var c := script[start];
    i, delimiter, beginDepth, buf, inQuote, flushed := start + 1, delim, depth, before + [c], None, [];
    if IsQuote(c) {
      PendingQuote(u, script[start..], delim, depth, before);
      assert script[start..][1..] == script[start + 1..] && script[start..][..1] == [c];
      inQuote := Some(c);
      return;
    }
    TrimBlank(before);
    var t := ReadToken(u, script, start, delim, depth, Trim(before) == "");
    PendingToken(u, script[start..], delim, depth, before, t);
    assert script[start..][|t.text|..] == script[start + |t.text|..];
    match t.kind
    case Directive(d) =>
      delimiter := d;
      buf := "";
      i := start + |t.text|;
    case Terminator(_) =>
      i := start + Utf8Len(delim);
      if depth > 0 {
        buf := before + delim;
      } else {
        flushed := Flush(before);
        buf := "";
      }
    case _ =>
      beginDepth := DepthAfter(t, depth);
      buf := before + t.text;
      i := start + |t.text|;
  }

  /** The tests of the loop body in their order, none of which a quote character passes. */
  method ReadToken(u: Unicode, script: string, start: nat, delim: string, depth: nat, blank: bool) returns (t: Token)
    requires start < |script| && delim != "" && !IsQuote(script[start])
    ensures t == Scan(u, script[start..], Mode(delim, depth, blank))
  {
    hide MatchKeyword, ClosesBlock, LineLen, BlockLen, Trim, Utf8Len;
    var ahead := script[start..];
    if IsLineCommentStart(ahead) {
      var text, _ := CopyLine(script, start, "");
      return Token(LineComment, text);
    }
    if ahead[0] == '/' && |ahead| > 1 && ahead[1] == '*' {
      var text, _ := CopyBlockComment(script, start, "");
      return Token(BlockComment, text);
    }
    if blank && MatchKeyword(u, ahead, "DELIMITER") {
      var named, j := ReadDirective(u, script, start);
      assert script[start..j] == ahead[..j - start];
      return Token(Directive(if named != "" then named else delim), script[start..j]);
    }
    if MatchKeyword(u, ahead, "BEGIN") {
      return Token(Begin, ahead[..5]);
    }
    if MatchesStr(ahead, delim) {
      return Token(Terminator(delim), ahead[..Min(Utf8Len(delim), |ahead|)]);
    }
    if depth > 0 {
      var closes := EndClosesBlock(u, script, start, delim);
      if closes {
        return Token(End, ahead[..3]);
      }
    }
    return Token(Plain, ahead[..1]);
  }

  /** Consume a line comment: everything before the end of the line. */
  method CopyLine(script: string, start: nat, before: string) returns (buf: string, i: nat)
    requires start < |script|
    ensures i == start + LineLen(script[start..])
    ensures buf == before + script[start..][..LineLen(script[start..])]
  {
    buf, i := before, start;
    while i < |script| && script[i] != '\n'
      invariant start <= i <= |script|
      invariant forall k :: start <= k < i ==> script[k] != '\n'
      invariant buf == before + script[start..i]
    {
      buf := buf + [script[i]];
      i := i + 1;
    }
    var n := LineLen(script[start..]);
    assert forall k :: start <= k < |script| ==> script[start..][k - start] == script[k];
  }

  /** Consume a block comment from its opening mark to its end mark, or to the end of the input. */
  method CopyBlockComment(script: string, start: nat, before: string) returns (buf: string, i: nat)
    requires start + 1 < |script|
    ensures i == start + 2 + BlockLen(script[start..][2..])
    ensures buf == before + script[start..][..2 + BlockLen(script[start..][2..])]
  {
    buf := before + [script[start]] + [script[start + 1]];
    i := start + 2;
    ghost var n := BlockLen(script[start..][2..]);
    assert script[start..][2..] == script[i..];
    while i < |script|
      invariant start + 2 <= i <= |script|
      invariant start + 2 + n == i + BlockLen(script[i..])
      invariant buf == before + script[start..i]
    {
      buf := buf + [script[i]];
      if script[i] == '*' && i + 1 < |script| && script[i + 1] == '/' {
        buf := buf + [script[i + 1]];
        i := i + 2;
        break;
      }
      assert script[i..][1..] == script[i + 1..];
      i := i + 1;
    }
    assert start + 2 + n == i;
  }

  /** Read the delimiter named on a DELIMITER line; `j` is the end of that line. */
  method ReadDirective(u: Unicode, script: string, start: nat) returns (named: string, j: nat)
    requires start < |script| && MatchKeyword(u, script[start..], "DELIMITER")
    ensures j == start + LineLen(script[start..])
    ensures 9 <= LineLen(script[start..])
    ensures named == Trim(script[start..][9..LineLen(script[start..])])
  {
    hide MatchKeyword, LineLen, Trim;
    ghost var s := script[start..];
    ghost var n := LineLen(s);
    KeywordOnLine(u, s);
    j := start + 9;
    while j < |script| && IsWhitespace(script[j]) && script[j] != '\n'
      invariant start + 9 <= j <= start + n
      invariant Blank(script[start + 9..j])
    {
      assert script[start + 9..j + 1] == script[start + 9..j] + [script[j]];
      assert s[j - start] == script[j];
      j := j + 1;
    }
    ghost var first := j;
    named := "";
    while j < |script| && script[j] != '\n'
      invariant first <= j <= start + n
      invariant named == script[first..j]
    {
      assert s[j - start] == script[j];
      named := named + [script[j]];
      j := j + 1;
    }
    assert forall k :: start <= k < |script| ==> s[k - start] == script[k];
    assert s[9..n] == script[start + 9..j] == script[start + 9..first] + named;
    TrimSkipsBlanks(script[start + 9..first], named);
    named := Trim(named);
  }

  /** The look-ahead after END. */
  method EndClosesBlock(u: Unicode, script: string, i: nat, delimiter: string) returns (closes: bool)
    requires i < |script| && delimiter != ""
    ensures closes == ClosesBlock(u, script[i..], delimiter)
  {
    if !MatchKeyword(u, script[i..], "END") {
      return false;
    }
    var k := i + 3;
    ghost var n := LineBlanks(script[i..][3..]);
    assert script[i..][3..] == script[k..];
    while k < |script| && IsWhitespace(script[k]) && script[k] != '\n'
      invariant i + 3 <= k <= |script|
      invariant i + 3 + n == k + LineBlanks(script[k..])
    {
      assert script[k..][1..] == script[k + 1..];
      k := k + 1;
    }
    assert script[i..][3 + n..] == script[k..];
    closes := MatchesStr(script[k..], delimiter) || k >= |script|;
  }
}
