/**
 Which token the lexer reads from text built by hand: where comments and quoted strings end, where a
 keyword is one, and when END closes a block.
 */
module SqlSplitTokens {
  import opened Chars
  import opened Wrappers
  import opened SqlSplit

  // ── Comments ──

  /** Two dashes begin a comment exactly when white space or the end of the input follows. */
  lemma DashCommentsExactly(u: Unicode, rest: string, m: Mode)
    requires m.delim != ""
    ensures Scan(u, "--" + rest, m).kind.LineComment? <==> rest == "" || IsWhitespace(rest[0])
  {
    hide LineLen, BlockLen, QuotedLen, MatchKeyword, ClosesBlock, Utf8Len, IsWhitespace;
    var s := "--" + rest;
    assert s[0] == '-' && s[1] == '-';
    assert rest != "" ==> s[2] == rest[0];
  }

  lemma {:induction false} LineEnds(line: string, rest: string)
    requires '\n' !in line && (rest == "" || rest[0] == '\n')
    ensures LineLen(line + rest) == |line|
  {
    if line == "" {
      assert line + rest == rest;
    } else {
      assert line[0] in line && (line + rest)[1..] == line[1..] + rest;
      LineEnds(line[1..], rest);
    }
  }

  /** A hash comment reaches to the end of its line. */
  lemma HashCommentText(u: Unicode, line: string, rest: string, m: Mode)
    requires m.delim != "" && '\n' !in line && (rest == "" || rest[0] == '\n')
    ensures Scan(u, "#" + line + rest, m) == Token(LineComment, "#" + line)
  {
    hide LineLen, BlockLen, QuotedLen, MatchKeyword, ClosesBlock, Utf8Len;
    LineEnds("#" + line, rest);
  }

  /** And so does a dash comment. */
  lemma DashCommentText(u: Unicode, line: string, rest: string, m: Mode)
    requires m.delim != "" && '\n' !in line && (rest == "" || rest[0] == '\n')
    ensures Scan(u, "-- " + line + rest, m) == Token(LineComment, "-- " + line)
  {
    hide LineLen, BlockLen, QuotedLen, MatchKeyword, ClosesBlock, Utf8Len;
    LineEnds("-- " + line, rest);
    var s := "-- " + line + rest;
    assert s[0] == '-' && s[1] == '-' && s[2] == ' ';
  }

  /** No star is followed by a slash. */
  predicate NeverCloses(body: string) {
    forall i :: 0 <= i < |body| - 1 ==> !(body[i] == '*' && body[i + 1] == '/')
  }

  lemma {:induction false} BlockCloses(body: string, rest: string)
    requires NeverCloses(body)
    ensures BlockLen(body + "*/" + rest) == |body| + 2
  {
    if body == "" {
      assert body + "*/" + rest == "*/" + rest;
    } else {
      var s := body + "*/" + rest;
      assert s[1..] == body[1..] + "*/" + rest;
      assert forall i :: 0 <= i < |body| - 1 ==> body[1..][i] == body[i + 1];
      assert s[0] == body[0] && s[1] == (if |body| > 1 then body[1] else '*');
      BlockCloses(body[1..], rest);
    }
  }

  lemma {:induction false} BlockStaysOpen(body: string)
    requires NeverCloses(body)
    ensures BlockLen(body) == |body|
  {
    if body != "" {
      assert forall i :: 0 <= i < |body| - 1 ==> body[1..][i] == body[i + 1];
      BlockStaysOpen(body[1..]);
    }
  }

  /** A block comment reaches to its first end mark, or to the end of the input. */
  lemma BlockCommentText(u: Unicode, body: string, rest: string, m: Mode)
    requires m.delim != "" && NeverCloses(body)
    ensures Scan(u, "/*" + (body + "*/" + rest), m) == Token(BlockComment, "/*" + body + "*/")
    ensures Scan(u, "/*" + body, m) == Token(BlockComment, "/*" + body)
  {
    hide LineLen, BlockLen, QuotedLen, MatchKeyword, ClosesBlock, Utf8Len;
    BlockCloses(body, rest);
    BlockStaysOpen(body);
    var s := "/*" + (body + "*/" + rest);
    assert s[2..] == body + "*/" + rest;
    assert s[..2 + |body| + 2] == "/*" + body + "*/";
    assert ("/*" + body)[2..] == body;
    assert ("/*" + body)[..2 + |body|] == "/*" + body;
  }

  // ── Quoted strings ──

  /** No closing quote: each backslash hides the character after it. */
  predicate StaysQuoted(body: string, q: char) {
    body == "" ||
    if body[0] == '\\' then |body| > 1 && StaysQuoted(body[2..], q) else body[0] != q && StaysQuoted(body[1..], q)
  }

  lemma {:induction false} QuoteCloses(body: string, q: char, rest: string)
    requires StaysQuoted(body, q) && q != '\\'
    ensures QuotedLen(body + [q] + rest, q) == |body| + 1
    decreases |body|
  {
    var s := body + [q] + rest;
    if body == "" {
      assert s[0] == q;
    } else {
      var n := if body[0] == '\\' then 2 else 1;
      assert s[0] == body[0] && s[n..] == body[n..] + [q] + rest;
      QuoteCloses(body[n..], q, rest);
    }
  }

  /** A quoted string reaches to its first quote that no backslash hides, whatever it holds. */
  lemma QuotedText(u: Unicode, q: char, body: string, rest: string, m: Mode)
    requires m.delim != "" && q in ['\'', '"', '`'] && StaysQuoted(body, q)
    ensures Scan(u, [q] + (body + [q] + rest), m) == Token(Quoted, [q] + body + [q])
  {
    hide LineLen, BlockLen, QuotedLen, MatchKeyword, ClosesBlock, Utf8Len, StaysQuoted;
    QuoteCloses(body, q, rest);
    var s := [q] + (body + [q] + rest);
    assert s[1..] == body + [q] + rest;
    assert s[..1 + |body| + 1] == [q] + body + [q];
  }

  // ── Keywords ──

  /** `w` spells `kw` in any letter case. */
  predicate Spells(w: string, kw: string) {
    |w| == |kw| && forall k :: 0 <= k < |w| ==> ToAsciiUppercase(w[k]) == kw[k]
  }

  predicate WordEnds(u: Unicode, rest: string) {
    rest == "" || !(IsAlphanumeric(u, rest[0]) || rest[0] == '_')
  }

  lemma KeywordIsAWord(u: Unicode, w: string, rest: string, kw: string)
    requires Spells(w, kw)
    ensures MatchKeyword(u, w + rest, kw) <==> WordEnds(u, rest)
  {
    hide IsAlphanumeric, ToAsciiUppercase;
    var s := w + rest;
    assert forall k :: 0 <= k < |w| ==> s[k] == w[k];
    assert rest != "" ==> s[|w|] == rest[0];
  }

  lemma OtherKeyword(u: Unicode, w: string, rest: string, kw: string, other: string)
    requires Spells(w, kw) && kw != "" && other != "" && kw[0] != other[0]
    ensures !MatchKeyword(u, w + rest, other)
  {
    hide IsAlphanumeric;
    assert (w + rest)[0] == w[0];
  }

  /** BEGIN, in any letter case, opens a block exactly when the word ends there; what stands before it is not looked at. */
  lemma BeginIsAWord(u: Unicode, w: string, rest: string, m: Mode)
    requires m.delim != "" && Spells(w, "BEGIN")
    ensures Scan(u, w + rest, m).kind.Begin? <==> WordEnds(u, rest)
    ensures WordEnds(u, rest) ==> Scan(u, w + rest, m) == Token(Begin, w)
  {
    hide LineLen, BlockLen, QuotedLen, MatchKeyword, ClosesBlock, Utf8Len;
    KeywordIsAWord(u, w, rest, "BEGIN");
    OtherKeyword(u, w, rest, "BEGIN", "DELIMITER");
    assert (w + rest)[0] == w[0] && ToAsciiUppercase(w[0]) == 'B';
    assert (w + rest)[..5] == w;
  }

  /** DELIMITER is a directive exactly where nothing but blanks was read before it and the word ends there. */
  lemma DirectiveIsAWord(u: Unicode, w: string, rest: string, m: Mode)
    requires m.delim != "" && Spells(w, "DELIMITER")
    ensures Scan(u, w + rest, m).kind.Directive? <==> m.blank && WordEnds(u, rest)
  {
    hide LineLen, BlockLen, QuotedLen, MatchKeyword, ClosesBlock, Utf8Len, DirectiveDelim;
    KeywordIsAWord(u, w, rest, "DELIMITER");
    assert (w + rest)[0] == w[0] && ToAsciiUppercase(w[0]) == 'D';
  }

  lemma SpelledOnOneLine(w: string, kw: string)
    requires Spells(w, kw) && '\n' !in kw
    ensures '\n' !in w
  {
    forall k | 0 <= k < |w| ensures w[k] != '\n' {
      assert ToAsciiUppercase(w[k]) == kw[k];
      assert kw[k] in kw;
    }
  }

  lemma RestOfTheLine(w: string, name: string, rest: string)
    requires |w| == 9 && '\n' !in w && '\n' !in name && (rest == "" || rest[0] == '\n')
    ensures var s := w + (name + rest);
            LineLen(s) == 9 + |name| && s[9..LineLen(s)] == name && s[..LineLen(s)] == w + name
  {
    hide LineLen;
    assert w + (name + rest) == w + name + rest;
    LineEnds(w + name, rest);
  }

  /** Its line is dropped, and the trimmed rest of the line is the new delimiter unless it is empty. */
  lemma DirectiveNames(u: Unicode, w: string, name: string, rest: string, m: Mode)
    requires m.delim != "" && m.blank && Spells(w, "DELIMITER") && WordEnds(u, name + rest)
    requires '\n' !in name && (rest == "" || rest[0] == '\n')
    ensures Scan(u, w + (name + rest), m) == Token(Directive(if Trim(name) == "" then m.delim else Trim(name)), w + name)
  {
    hide LineLen, BlockLen, QuotedLen, MatchKeyword, ClosesBlock, Utf8Len, Trim, IsWhitespace, WordEnds, IsAlphanumeric;
    var s := w + (name + rest);
    KeywordIsAWord(u, w, name + rest, "DELIMITER");
    SpelledOnOneLine(w, "DELIMITER");
    RestOfTheLine(w, name, rest);
    assert s[0] == w[0] && ToAsciiUppercase(w[0]) == 'D';
  }

  // ── END ──

  /** Blanks that do not leave the line. */
  predicate LineOfBlanks(b: string) {
    forall i :: 0 <= i < |b| ==> IsWhitespace(b[i]) && b[i] != '\n'
  }

  lemma {:induction false} BlanksCounted(b: string, rest: string)
    requires LineOfBlanks(b) && (rest == "" || !IsWhitespace(rest[0]) || rest[0] == '\n')
    ensures LineBlanks(b + rest) == |b|
  {
    hide IsWhitespace;
    if b == "" {
      assert b + rest == rest;
    } else {
      assert (b + rest)[0] == b[0] && (b + rest)[1..] == b[1..] + rest;
      assert forall i :: 0 <= i < |b| - 1 ==> b[1..][i] == b[i + 1];
      BlanksCounted(b[1..], rest);
    }
  }

  /**
   In an open block, END closes it exactly when nothing but blanks stand between it and the end of the
   input or the terminator, all on its line: `END IF` or an END before a line break closes nothing.
   */
  lemma EndClosesExactly(u: Unicode, w: string, b: string, rest: string, m: Mode)
    requires m.delim != "" && m.depth > 0 && Spells(w, "END")
    requires LineOfBlanks(b) && (rest == "" || !IsWhitespace(rest[0]) || rest[0] == '\n')
    requires WordEnds(u, b + rest) && !(m.delim <= w + (b + rest))
    ensures Scan(u, w + (b + rest), m).kind.End? <==> rest == "" || m.delim <= rest
  {
    hide LineLen, BlockLen, QuotedLen, MatchKeyword, Utf8Len, LineBlanks, IsWhitespace, LineOfBlanks;
    var s := w + (b + rest);
    KeywordIsAWord(u, w, b + rest, "END");
    OtherKeyword(u, w, b + rest, "END", "DELIMITER");
    OtherKeyword(u, w, b + rest, "END", "BEGIN");
    BlanksCounted(b, rest);
    assert s[0] == w[0] && ToAsciiUppercase(w[0]) == 'E';
    assert s[3..] == b + rest && s[3 + |b|..] == rest;
    assert 3 + |b| == |s| <==> rest == "";
    assert ClosesBlock(u, s, m.delim) <==> rest == "" || m.delim <= rest;
  }
}
