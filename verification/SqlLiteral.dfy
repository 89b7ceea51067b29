/** The MySQL string-literal printer, and its agreement with the digest lexer and the splitter. */
module SqlLiteral {
  import opened Chars
  import opened Wrappers
  import Digest = SqlDigest
  import Split = SqlSplit

  /** `str::replace` with a one-character pattern. */
  function Replace(s: string, c: char, with: string): string {
    if s == "" then ""
    else (if s[0] == c then with else [s[0]]) + Replace(s[1..], c, with)
  }

  function Escaped(s: string): string {
    Replace(Replace(s, '\\', "\\\\"), '\'', "''")
  }

  function MysqlStrLiteral(s: string): string {
    "'" + Escaped(s) + "'"
  }

  function EscapedChar(c: char): string {
    if c == '\\' then "\\\\" else if c == '\'' then "''" else [c]
  }

  lemma {:induction false} ReplaceConcat(a: string, b: string, c: char, with: string)
    ensures Replace(a + b, c, with) == Replace(a, c, with) + Replace(b, c, with)
  {
    if a == "" {
      assert a + b == b;
    } else {
      assert (a + b)[1..] == a[1..] + b;
      ReplaceConcat(a[1..], b, c, with);
    }
  }

  lemma EscapedCons(s: string)
    requires s != ""
    ensures Escaped(s) == EscapedChar(s[0]) + Escaped(s[1..])
  {
    var head := if s[0] == '\\' then "\\\\" else [s[0]];
    var rest := Replace(s[1..], '\\', "\\\\");
    ReplaceConcat(head, rest, '\'', "''");
    assert head[1..] == if s[0] == '\\' then "\\" else "";
    assert Replace(head, '\'', "''") == EscapedChar(s[0]);
  }

  // ── The digest lexer ──

  /** Inside the literal the digest lexer runs through every escape to the closing quote. */
  /** What MySQL reads between the quotes: a backslash stands before the character meant, a quote is doubled. */
  function Meaning(body: string): Option<string> {
    if body == "" then Some("")
    else if body[0] == '\\' || body[0] == '\'' then
      (if |body| > 1 && body[1] == body[0] && Meaning(body[2..]).Some? then Some([body[0]] + Meaning(body[2..]).value) else None)
    else if Meaning(body[1..]).Some? then Some([body[0]] + Meaning(body[1..]).value)
    else None
  }

  lemma MeaningOfChar(c: char, rest: string)
    requires Meaning(rest).Some?
    ensures Meaning(EscapedChar(c) + rest) == Some([c] + Meaning(rest).value)
  {
    var head := EscapedChar(c);
    assert (head + rest)[|head|..] == rest;
  }

  /** A printed literal means the string it was printed from. */
  lemma {:induction false} LiteralMeansItsString(s: string)
    ensures Meaning(Escaped(s)) == Some(s)
    ensures |MysqlStrLiteral(s)| >= 2 && MysqlStrLiteral(s)[1..|MysqlStrLiteral(s)| - 1] == Escaped(s)
    ensures MysqlStrLiteral(s)[0] == MysqlStrLiteral(s)[|MysqlStrLiteral(s)| - 1] == '\''
  {
    hide Escaped, EscapedChar, Meaning;
    if s == "" {
      EscapedEmpty();
      NoMeaning();
    } else {
      EscapedCons(s);
      LiteralMeansItsString(s[1..]);
      MeaningOfChar(s[0], Escaped(s[1..]));
      assert s == [s[0]] + s[1..];
    }
  }

  lemma NoMeaning()
    ensures Meaning("") == Some("")
  {
  }

  lemma TailOfEscaped(c: char, rest: string)
    ensures Digest.StringTail(EscapedChar(c) + rest) == |EscapedChar(c)| + Digest.StringTail(rest)
  {
    var head := EscapedChar(c);
    assert (head + rest)[|head|..] == rest;
  }

  lemma {:induction false} LiteralTail(s: string, post: string)
    requires post == "" || post[0] != '\''
    ensures Digest.StringTail(Escaped(s) + ("'" + post)) == |Escaped(s)| + 1
  {
    hide Escaped, EscapedChar, Digest.StringTail;
    var close := "'" + post;
    if s == "" {
      EscapedEmpty();
      assert "" + close == close;
      ClosingQuote(post);
    } else {
      EscapedCons(s);
      LiteralTail(s[1..], post);
      TailOfEscaped(s[0], Escaped(s[1..]) + close);
      Regroup(EscapedChar(s[0]), Escaped(s[1..]), close);
    }
  }

  lemma ClosingQuote(post: string)
    requires post == "" || post[0] != '\''
    ensures Digest.StringTail("'" + post) == 1
  {
  }

  lemma Regroup(a: string, b: string, c: string)
    ensures (a + b) + c == a + (b + c)
  {
  }

  /** A literal is read as exactly one placeholder, whatever string it holds. */
  lemma LiteralIsOnePlaceholder(s: string, post: string, mayGap: bool)
    requires post == "" || post[0] != '\''
    ensures Digest.Norm(MysqlStrLiteral(s) + post, mayGap) == "?" + Digest.Norm(post, true)
  {
    hide Escaped;
    var all := MysqlStrLiteral(s) + post;
    assert all[0] == '\'' && all[1..] == Escaped(s) + ("'" + post);
    LiteralTail(s, post);
    assert all[Digest.TokenLen(all)..] == post;
  }

  /** The digest lexer, having read `pre`, stands outside string literals and not right after one. */
  predicate EndsInCode(pre: string)
    decreases |pre|
  {
    pre == "" ||
    var n := Digest.TokenLen(pre);
    (pre[0] == '\'' ==> n < |pre|) && EndsInCode(pre[n..])
  }

  lemma {:induction false} RunLenConcat(a: string, b: string, p: char -> bool)
    requires b != "" && !p(b[0])
    ensures Digest.RunLen(a + b, p) == Digest.RunLen(a, p)
  {
    if a == "" {
      assert a + b == b;
    } else if p(a[0]) {
      assert (a + b)[1..] == a[1..] + b;
      RunLenConcat(a[1..], b, p);
    }
  }

  lemma {:induction false} StringTailConcat(a: string, b: string)
    requires Digest.StringTail(a) < |a|
    ensures Digest.StringTail(a + b) == Digest.StringTail(a)
    decreases |a|
  {
    var n := if a[0] == '\\' then 2 else if a[0] == '\'' && a[1] == '\'' then 2 else 1;
    if a[0] != '\'' || a[1] == '\'' {
      assert (a + b)[n..] == a[n..] + b;
      StringTailConcat(a[n..], b);
    }
  }

  lemma NumberTailConcat(a: string, b: string, hexPrefix: bool)
    requires b != "" && b[0] == '\''
    ensures Digest.NumberTail(a + b, hexPrefix) == Digest.NumberTail(a, hexPrefix)
  {
    hide Digest.RunLen;
    if a != "" {
      assert (a + b)[1..] == a[1..] + b;
      RunLenConcat(a[1..], b, IsAsciiHexDigit);
    }
    RunLenConcat(a, b, Digest.IsDigitOrDot);
    var n := Digest.RunLen(a, Digest.IsDigitOrDot);
    assert (a + b)[n..] == a[n..] + b;
    ExponentConcat(a[n..], b);
  }

  lemma ExponentConcat(a: string, b: string)
    requires b != "" && b[0] == '\''
    ensures Digest.ExponentLen(a + b) == Digest.ExponentLen(a)
  {
    hide Digest.RunLen;
    if |a| > 0 {
      assert (a + b)[1..] == a[1..] + b;
      RunLenConcat(a[1..], b, IsAsciiDigit);
    }
    if |a| > 1 {
      assert (a + b)[2..] == a[2..] + b;
      RunLenConcat(a[2..], b, IsAsciiDigit);
    }
  }

  lemma TokenLenConcat(a: string, b: string)
    requires a != "" && b != "" && b[0] == '\'' && (a[0] == '\'' ==> Digest.TokenLen(a) < |a|)
    ensures Digest.TokenLen(a + b) == Digest.TokenLen(a)
    ensures Digest.SignedNumberStart(a + b) == Digest.SignedNumberStart(a)
  {
    hide Digest.RunLen, Digest.NumberTail, Digest.StringTail;
    assert (a + b)[1..] == a[1..] + b;
    if a[0] == '\'' {
      StringTailConcat(a[1..], b);
    } else if IsAsciiDigit(a[0]) {
      NumberTailConcat(a[1..], b, a[0] == '0');
    } else if Digest.SignedNumberStart(a) {
      assert (a + b)[2..] == a[2..] + b;
      NumberTailConcat(a[2..], b, false);
    } else if IsWhitespace(a[0]) {
      assert !IsWhitespace('\'') && !IsWhitespace(b[0]);
      RunLenConcat(a[1..], b, IsWhitespace);
    }
  }

  lemma {:induction false} NormConcat(pre: string, t: string, mayGap: bool)
    requires EndsInCode(pre) && t != "" && t[0] == '\''
    ensures Digest.Norm(pre + t, mayGap) == Digest.Norm(pre, mayGap) + Digest.Norm(t, true)
    decreases |pre|
  {
    hide Digest.TokenLen, Digest.Norm, Digest.SignedNumberStart;
    if pre == "" {
      assert pre + t == t;
      Digest.NormEmpty(mayGap);
      Digest.NormStep(t, mayGap);
      Digest.NormStep(t, true);
    } else {
      TokenLenConcat(pre, t);
      Digest.NormStep(pre, mayGap);
      Digest.NormStep(pre + t, mayGap);
      var n := Digest.TokenLen(pre);
      assert (pre + t)[n..] == pre[n..] + t;
      assert Digest.TokenText(pre + t, mayGap) == Digest.TokenText(pre, mayGap);
      NormConcat(pre[n..], t, !IsWhitespace(pre[0]));
    }
  }

  /** Changing the string inside a literal never changes the digest text around its placeholder. */
  lemma LiteralInContext(pre: string, s: string, post: string)
    requires EndsInCode(pre) && (post == "" || post[0] != '\'')
    ensures Digest.Norm(pre + MysqlStrLiteral(s) + post, false) ==
            Digest.Norm(pre, false) + "?" + Digest.Norm(post, true)
  {
    hide Digest.Norm;
    var t := MysqlStrLiteral(s) + post;
    assert t[0] == '\'';
    assert pre + MysqlStrLiteral(s) + post == pre + t;
    NormConcat(pre, t, false);
    LiteralIsOnePlaceholder(s, post, true);
  }

  lemma DigestHidesLiterals(pre: string, s1: string, s2: string, post: string)
    requires EndsInCode(pre) && (post == "" || post[0] != '\'')
    ensures Digest.Digest(pre + MysqlStrLiteral(s1) + post) == Digest.Digest(pre + MysqlStrLiteral(s2) + post)
  {
    LiteralInContext(pre, s1, post);
    LiteralInContext(pre, s2, post);
  }

  // ── The splitter ──

  /** The splitter inside a single-quoted string. */
  function ReadQuoted(u: Unicode, s: string, delim: string, depth: nat, buf: string): seq<string>
    requires delim != ""
  {
    Split.Pending(u, s, delim, depth, buf, Some('\''))
  }

  lemma {:induction false} SplitterReadsLiteral(u: Unicode, s: string, post: string, delim: string, depth: nat, buf: string)
    requires delim != "" && !Blank(buf)
    ensures ReadQuoted(u, Escaped(s) + ("'" + post), delim, depth, buf) ==
            Split.Pending(u, post, delim, depth, buf + Escaped(s) + "'", None)
    decreases |s|
  {
    hide Split.Pending, Escaped;
    var all := Escaped(s) + ("'" + post);
    if s == "" {
      EscapedEmpty();
      assert all == "'" + post && all[1..] == post && all[..1] == "'";
      Split.PendingClose(u, all, delim, depth, buf, '\'');
      assert buf + Escaped(s) + "'" == buf + all[..1];
    } else {
      EscapedCons(s);
      var head := EscapedChar(s[0]);
      var rest := Escaped(s[1..]) + ("'" + post);
      assert all == head + rest && all[|head|..] == rest && all[..|head|] == head;
      BlankConcat(buf, head);
      SplitterReadsLiteral(u, s[1..], post, delim, depth, buf + head);
      assert buf + head + Escaped(s[1..]) == buf + Escaped(s);
      if s[0] == '\\' {
        Split.PendingEscape(u, all, delim, depth, buf, '\'');
      } else if s[0] == '\'' {
        ReopensQuote(u, all, rest, delim, depth, buf);
      } else {
        Split.PendingInside(u, all, delim, depth, buf, '\'');
      }
    }
  }

  lemma EscapedEmpty()
    ensures Escaped("") == ""
  {
  }

  /** A doubled quote closes the string and opens the next one at once. */
  lemma ReopensQuote(u: Unicode, all: string, rest: string, delim: string, depth: nat, buf: string)
    requires delim != "" && !Blank(buf) && all == "''" + rest
    ensures ReadQuoted(u, all, delim, depth, buf) == ReadQuoted(u, rest, delim, depth, buf + "''")
  {
    hide Split.Pending;
    Split.PendingClose(u, all, delim, depth, buf, '\'');
    assert all[1..] == "'" + rest && all[..1] == "'";
    BlankConcat(buf, "'");
    Split.PendingQuote(u, all[1..], delim, depth, buf + "'");
    assert all[1..][1..] == rest && all[1..][..1] == "'";
    assert buf + "'" + "'" == buf + "''";
  }

  /** A literal met in code is kept whole in the statement: no boundary inside it, and code follows it. */
  lemma LiteralHasNoBoundary(u: Unicode, s: string, post: string, m: Split.Mode, buf: string)
    requires m.delim != "" && m.blank == Blank(buf) && (m.depth > 0 ==> !m.blank)
    ensures Split.Read(u, MysqlStrLiteral(s) + post, m, buf) ==
            Split.Read(u, post, m.(blank := false), buf + MysqlStrLiteral(s))
  {
    hide Split.Read, Escaped;
    var all := MysqlStrLiteral(s) + post;
    assert all[1..] == Escaped(s) + ("'" + post) && all[..1] == "'";
    Split.PendingQuote(u, all, m.delim, m.depth, buf);
    SplitterReadsLiteral(u, s, post, m.delim, m.depth, buf + "'");
    assert buf + "'" + Escaped(s) + "'" == buf + MysqlStrLiteral(s);
    BlankConcat(buf, MysqlStrLiteral(s));
    assert MysqlStrLiteral(s)[0] == '\'';
  }
}
