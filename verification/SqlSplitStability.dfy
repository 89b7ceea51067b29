/**
 Splitting is stable: in a script with no DELIMITER directive, every returned statement is itself
 split into exactly that statement. Trimming moves the end of the input next to the last token, so
 each look-ahead of the lexer is shown to survive the move. It follows where a terminator can stand
 inside a statement: only in a block that is still open.
 */
module SqlSplitStability {
  import opened Chars
  import opened Wrappers
  import opened SqlSplit
  import opened SqlSplitTheorems

  predicate NoDirective(ts: seq<Token>) {
    forall k :: 0 <= k < |ts| ==> !ts[k].kind.Directive?
  }

  /** The number of characters before the first token that ends a statement. */
  function SegmentLen(u: Unicode, s: string, m: Mode): (n: nat)
    requires m.delim != ""
    ensures n <= |s|
    decreases |s|
  {
    if s == "" then 0
    else
      var t := Scan(u, s, m);
      if Cuts(t, m.depth) then 0 else |t.text| + SegmentLen(u, s[|t.text|..], After(m, t))
  }

  lemma KeepsSemicolonText(u: Unicode, s: string, m: Mode)
    requires m.delim == ";" && s != ""
    ensures var t := Scan(u, s, m);
            (!t.kind.Directive? ==> t.Kept() == t.text && After(m, t).delim == ";") &&
            (t.kind.Terminator? ==> t.text == ";" && s[0] == ';')
  {
    hide MatchKeyword, ClosesBlock, LineLen, BlockLen, QuotedLen;
    assert Utf8Len(";") == 1;
  }

  lemma SegmentHead(u: Unicode, s: string, m: Mode)
    requires m.delim != "" && s != ""
    ensures var t := Scan(u, s, m);
            SegmentLen(u, s, m) == if Cuts(t, m.depth) then 0 else |t.text| + SegmentLen(u, s[|t.text|..], After(m, t))
  {
    hide Scan;
  }

  /** `out` is the first segment's statement, then everything read after its terminator. */
  predicate FirstSegment(u: Unicode, s: string, buf: string, n: nat, out: seq<string>)
    requires n <= |s|
  {
    if n == |s| then out == Flush(buf + s)
    else s[n] == ';' && NoDirective(Lex(u, s[n + 1..], INITIAL)) &&
         out == Flush(buf + s[..n]) + Read(u, s[n + 1..], INITIAL, "")
  }

  lemma FirstSegmentExtends(u: Unicode, s: string, buf: string, k: nat, n: nat, out: seq<string>)
    requires k + n <= |s| && FirstSegment(u, s[k..], buf + s[..k], n, out)
    ensures FirstSegment(u, s, buf, k + n, out)
  {
    hide Lex, Read, Flush;
    if k + n == |s| {
      assert buf + s[..k] + s[k..] == buf + s;
    } else {
      assert buf + s[..k] + s[k..][..n] == buf + s[..k + n];
      assert s[k..][n + 1..] == s[k + n + 1..];
    }
  }

  /** Reading is the first segment, then everything after its terminator. */
  lemma {:induction false} ReadBySegment(u: Unicode, s: string, m: Mode, buf: string)
    requires m.delim == ";" && NoDirective(Lex(u, s, m))
    ensures FirstSegment(u, s, buf, SegmentLen(u, s, m), Read(u, s, m, buf))
    decreases |s|
  {
    hide Scan, Flush, Read, Lex, FirstSegment, SegmentLen;
    if s == "" {
      ReadNothing(u, m, buf);
    } else {
      var t := Scan(u, s, m);
      LexHead(u, s, m);
      SegmentHead(u, s, m);
      KeepsSemicolonText(u, s, m);
      ReadStep(u, s, m, buf, t);
      assert Lex(u, s, m)[0] == t && !t.kind.Directive?;
      if Cuts(t, m.depth) {
        CutSegment(u, s, m, buf);
      } else {
        ReadBySegment(u, s[|t.text|..], After(m, t), buf + t.text);
        FirstSegmentExtends(u, s, buf, |t.text|, SegmentLen(u, s[|t.text|..], After(m, t)), Read(u, s, m, buf));
      }
    }
  }

  lemma ReadNothing(u: Unicode, m: Mode, buf: string)
    requires m.delim != ""
    ensures FirstSegment(u, "", buf, SegmentLen(u, "", m), Read(u, "", m, buf))
  {
    hide Read;
    ReadEnd(u, m, buf);
    assert buf + "" == buf;
  }

  lemma CutSegment(u: Unicode, s: string, m: Mode, buf: string)
    requires m.delim == ";" && s != "" && NoDirective(Lex(u, s, m)) && Cuts(Scan(u, s, m), m.depth)
    ensures FirstSegment(u, s, buf, 0, Read(u, s, m, buf))
  {
    hide Scan, Flush, Read, Lex;
    var t := Scan(u, s, m);
    LexHead(u, s, m);
    KeepsSemicolonText(u, s, m);
    ReadStep(u, s, m, buf, t);
    assert Lex(u, s, m)[0] == t && !t.kind.Directive?;
    assert After(m, t) == INITIAL;
    assert buf + s[..0] == buf;
  }

  /** A text that no token cuts is read as one statement. */
  lemma {:induction false} ReadUncut(u: Unicode, s: string, m: Mode, buf: string)
    requires m.delim == ";" && SegmentLen(u, s, m) == |s|
    ensures Read(u, s, m, buf) == Flush(buf + s)
    decreases |s|
  {
    hide Scan, Flush, Read;
    if s == "" {
      ReadEnd(u, m, buf);
      assert buf + s == buf;
    } else {
      var t := Scan(u, s, m);
      KeepsSemicolonText(u, s, m);
      ReadStep(u, s, m, buf, t);
      ReadUncut(u, s[|t.text|..], After(m, t), buf + t.text);
      assert buf + t.text + s[|t.text|..] == buf + s;
    }
  }

  // ── Look-aheads at a trimmed end ──

  /** `c` is a prefix of `s` ending in a non-blank; after it come blanks, then a semicolon or the end. */
  predicate TrimmedHere(s: string, c: string) {
    && c <= s
    && (c != "" ==> !IsWhitespace(c[|c| - 1]))
    && (|c| < |s| ==> IsWhitespace(s[|c|]) || s[|c|] == ';')
    && SemicolonAfterBlanks(s[|c|..])
  }

  predicate SemicolonAfterBlanks(s: string) {
    s == "" || s[0] == ';' || (IsWhitespace(s[0]) && SemicolonAfterBlanks(s[1..]))
  }

  lemma {:induction false} LineLenOfPrefix(s: string, c: string)
    requires c <= s
    ensures LineLen(c) == Min(LineLen(s), |c|)
  {
    if c != "" && s[0] != '\n' {
      assert c[1..] <= s[1..];
      LineLenOfPrefix(s[1..], c[1..]);
    }
  }

  lemma {:induction false} BlockLenOfPrefix(s: string, c: string)
    requires c <= s
    ensures BlockLen(c) == Min(BlockLen(s), |c|)
  {
    if c != "" && !(s[0] == '*' && |s| > 1 && s[1] == '/') {
      BlockLenOfPrefix(s[1..], c[1..]);
    }
  }

  lemma {:induction false} QuotedLenOfPrefix(s: string, c: string, q: char)
    requires c <= s && q != '\\'
    ensures QuotedLen(c, q) == Min(QuotedLen(s, q), |c|)
    decreases |c|
  {
    if c == "" {
    } else if s[0] == '\\' && |c| > 1 {
      QuotedLenOfPrefix(s[2..], c[2..], q);
    } else if s[0] == '\\' {
      assert c[1..] == "";
    } else if s[0] != q {
      QuotedLenOfPrefix(s[1..], c[1..], q);
    }
  }

  lemma {:induction false} LineBlanksOfPrefix(s: string, c: string)
    requires c <= s
    ensures LineBlanks(c) == Min(LineBlanks(s), |c|)
  {
    if c != "" && IsWhitespace(s[0]) && s[0] != '\n' {
      LineBlanksOfPrefix(s[1..], c[1..]);
    }
  }

  lemma LineBlanksAreBlank(s: string)
    ensures forall i :: 0 <= i < LineBlanks(s) ==> IsWhitespace(s[i])
  {
  }

  predicate IsUpperWord(kw: string) {
    kw != "" && forall k :: 0 <= k < |kw| ==> 'A' <= kw[k] <= 'Z'
  }

  /** A keyword is recognised at the trimmed end exactly when it was recognised before trimming. */
  lemma KeywordAgrees(u: Unicode, s: string, c: string, kw: string)
    requires TrimmedHere(s, c) && IsUpperWord(kw)
    ensures MatchKeyword(u, s, kw) <==> MatchKeyword(u, c, kw)
  {
    if |c| < |kw| && |c| < |s| {
      assert ToAsciiUppercase(s[|c|]) != kw[|c|];
    }
  }

  /** END before the terminator stays END; an END that becomes the last word may newly close its block. */
  lemma EndAgrees(u: Unicode, s: string, c: string)
    requires TrimmedHere(s, c) && c != ""
    ensures ClosesBlock(u, s, ";") ==> ClosesBlock(u, c, ";")
    ensures ClosesBlock(u, c, ";") && !ClosesBlock(u, s, ";") ==> |c| == 3
  {
    KeywordAgrees(u, s, c, "END");
    if MatchKeyword(u, s, "END") {
      var a, b := c[3..], s[3..];
      LineBlanksOfPrefix(b, a);
      var n := LineBlanks(b);
      LineBlanksAreBlank(b);
      assert a != "" ==> b[|a| - 1] == c[|c| - 1];
      if n < |a| {
        assert c[3 + n..][0] == s[3 + n..][0];
      }
    }
  }

  /** The first token of the trimmed text is the first token of the text, or takes all that is left. */
  lemma HeadAgrees(u: Unicode, s: string, c: string, m: Mode)
    requires TrimmedHere(s, c) && c != "" && m.delim == ";" && !Cuts(Scan(u, s, m), m.depth)
    ensures SameOrAll(Scan(u, s, m), Scan(u, c, m), |c|, m.depth)
  {
    hide Scan, TrimmedHere, SameOrAll;
    if IsLineCommentStart(c) || IsLineCommentStart(s) {
      LineCommentAgrees(u, s, c, m);
    } else if IsBlockCommentStart(c) || IsBlockCommentStart(s) {
      BlockCommentAgrees(u, s, c, m);
    } else if IsQuote(c[0]) {
      QuoteAgrees(u, s, c, m);
    } else {
      CodeAgrees(u, s, c, m);
    }
  }

  predicate SameOrAll(t: Token, t': Token, left: nat, depth: nat) {
    || (t' == t && |t.text| <= left)
    || (|t'.text| == left && !Cuts(t', depth))
  }

  lemma BlockCommentAgrees(u: Unicode, s: string, c: string, m: Mode)
    requires TrimmedHere(s, c) && c != "" && m.delim == ";"
    requires !IsLineCommentStart(c) && !IsLineCommentStart(s)
    requires IsBlockCommentStart(c) || IsBlockCommentStart(s)
    ensures SameOrAll(Scan(u, s, m), Scan(u, c, m), |c|, m.depth)
  {
    hide MatchKeyword, ClosesBlock, LineLen, BlockLen, QuotedLen, Utf8Len, SemicolonAfterBlanks, IsWhitespace, DirectiveDelim;
    assert c[0] == s[0] && c == s[..|c|];
    if |c| == 1 && |s| > 1 {
      BlankIsNotMark(s[1]);
    }
    assert |c| > 1 && IsBlockCommentStart(s);
    BlockLenOfPrefix(s[2..], c[2..]);
    var n := BlockLen(c[2..]);
    assert s[..2 + n] == c[..2 + n];
  }

  lemma QuoteAgrees(u: Unicode, s: string, c: string, m: Mode)
    requires TrimmedHere(s, c) && c != "" && m.delim == ";" && IsQuote(c[0])
    ensures SameOrAll(Scan(u, s, m), Scan(u, c, m), |c|, m.depth)
  {
    hide Scan, QuotedLen, SemicolonAfterBlanks, IsWhitespace;
    assert c[0] == s[0] && c == s[..|c|];
    ScanQuote(u, s, m);
    ScanQuote(u, c, m);
    QuotedLenOfPrefix(s[1..], c[1..], c[0]);
    var n := QuotedLen(c[1..], c[0]);
    assert s[..1 + n] == c[..1 + n];
  }

  lemma CodeAgrees(u: Unicode, s: string, c: string, m: Mode)
    requires TrimmedHere(s, c) && c != "" && m.delim == ";" && !Cuts(Scan(u, s, m), m.depth)
    requires !IsLineCommentStart(c) && !IsLineCommentStart(s)
    requires !IsBlockCommentStart(c) && !IsBlockCommentStart(s) && !IsQuote(c[0])
    ensures SameOrAll(Scan(u, s, m), Scan(u, c, m), |c|, m.depth)
  {
    hide MatchKeyword, ClosesBlock, LineLen, BlockLen, QuotedLen, Utf8Len, SemicolonAfterBlanks, IsWhitespace, DirectiveDelim,
         IsLineCommentStart, IsBlockCommentStart;
    assert c[0] == s[0] && c == s[..|c|];
    SemicolonWidth();
    KeywordAgrees(u, s, c, "DELIMITER");
    KeywordAgrees(u, s, c, "BEGIN");
    EndAgrees(u, s, c);
  }

  lemma SemicolonWidth()
    ensures Utf8Len(";") == 1
  {
  }

  lemma BlankIsNotMark(c: char)
    requires IsWhitespace(c) || c == ';'
    ensures c != '-' && c != '*' && c != '/'
  {
  }

  lemma LineCommentAgrees(u: Unicode, s: string, c: string, m: Mode)
    requires TrimmedHere(s, c) && c != "" && m.delim == ";"
    requires IsLineCommentStart(c) || IsLineCommentStart(s)
    ensures SameOrAll(Scan(u, s, m), Scan(u, c, m), |c|, m.depth)
  {
    hide MatchKeyword, ClosesBlock, BlockLen, QuotedLen, Utf8Len, SemicolonAfterBlanks;
    LineLenOfPrefix(s, c);
    if |c| == 1 && |s| > 1 {
      BlankIsNotMark(s[1]);
    }
    assert IsLineCommentStart(c);
    if !IsLineCommentStart(s) {
      assert c == "--";
      assert LineLen(c) == 2;
    }
  }

  lemma TrimmedFurther(s: string, c: string, n: nat)
    requires TrimmedHere(s, c) && n <= |c|
    ensures TrimmedHere(s[n..], c[n..])
  {
    hide SemicolonAfterBlanks, IsWhitespace;
    assert s[n..][|c[n..]|..] == s[|c|..];
  }

  lemma NothingLeft(u: Unicode, m: Mode)
    requires m.delim != ""
    ensures SegmentLen(u, "", m) == 0
  {
  }

  /** If no token of `s` within `c` ends a statement, none of `c` does. */
  lemma {:induction false} UncutAfterTrim(u: Unicode, s: string, c: string, m: Mode)
    requires TrimmedHere(s, c) && m.delim == ";" && |c| <= SegmentLen(u, s, m)
    ensures SegmentLen(u, c, m) == |c|
    decreases |c|
  {
    hide Scan, TrimmedHere, SegmentLen, After, Cuts;
    if c == "" {
      NothingLeft(u, m);
    } else {
      TrimmedIsPrefix(s, c);
      var t, t' := Scan(u, s, m), Scan(u, c, m);
      SegmentHead(u, s, m);
      SegmentHead(u, c, m);
      HeadAgrees(u, s, c, m);
      UncutIsNoDirective(t, m.depth);
      KeepsSemicolonText(u, s, m);
      if t' == t && |t.text| <= |c| {
        TrimmedFurther(s, c, |t.text|);
        UncutAfterTrim(u, s[|t.text|..], c[|t.text|..], After(m, t));
      } else {
        assert c[|t'.text|..] == "";
        NothingLeft(u, After(m, t'));
      }
    }
  }

  lemma TrimmedIsPrefix(s: string, c: string)
    requires TrimmedHere(s, c)
    ensures c <= s
  {
  }

  lemma UncutIsNoDirective(t: Token, depth: nat)
    ensures !Cuts(t, depth) ==> !t.kind.Directive?
  {
  }

  // ── Leading blanks ──

  lemma {:induction false} BlanksAreSkipped(u: Unicode, s: string, k: nat)
    requires k <= |s| && Blank(s[..k])
    ensures SegmentLen(u, s, INITIAL) == k + SegmentLen(u, s[k..], INITIAL)
    decreases k
  {
    hide Scan;
    if k == 0 {
      assert s[0..] == s;
    } else {
      assert IsWhitespace(s[..k][0]);
      ScanOrdinary(u, s, INITIAL);
      assert s[1..][..k - 1] == s[..k][1..];
      BlanksAreSkipped(u, s[1..], k - 1);
      assert s[1..][k - 1..] == s[k..];
    }
  }

  lemma {:induction false} BlanksThenSemicolon(s: string, k: nat)
    requires k <= |s| && Blank(s[..k]) && (k < |s| ==> s[k] == ';')
    ensures SemicolonAfterBlanks(s)
    decreases k
  {
    if k > 0 {
      assert IsWhitespace(s[..k][0]);
      assert s[1..][..k - 1] == s[..k][1..];
      BlanksThenSemicolon(s[1..], k - 1);
    }
  }

  // ── The theorem ──

  /** The trimmed segment, seen in place. */
  lemma TrimmedSegment(u: Unicode, s: string, n: nat)
    requires n == SegmentLen(u, s, INITIAL) && (n < |s| ==> s[n] == ';')
    ensures var k, st := Leading(s[..n]), Trim(s[..n]);
            k <= |s| && TrimmedHere(s[k..], st) && |st| <= SegmentLen(u, s[k..], INITIAL)
  {
    hide SegmentLen, Trim, Leading, SemicolonAfterBlanks;
    var body := s[..n];
    var st := Trim(body);
    var k := Leading(body);
    TrimIsSlice(body);
    assert s[..k] == body[..k];
    BlanksAreSkipped(u, s, k);
    var tail := s[k..][|st|..];
    var r := n - k - |st|;
    assert tail == s[k + |st|..];
    assert tail[..r] == body[k + |st|..];
    BlanksThenSemicolon(tail, r);
    assert st <= s[k..];
    if |st| < |s[k..]| {
      assert s[k..][|st|] == tail[0];
      assert r > 0 ==> tail[0] == tail[..r][0];
    }
  }

  /** The statement of one segment splits into itself. */
  lemma SegmentIsStable(u: Unicode, s: string, n: nat)
    requires n == SegmentLen(u, s, INITIAL) && (n < |s| ==> s[n] == ';')
    ensures Split(u, Trim(s[..n])) == Flush(s[..n])
    ensures SegmentLen(u, Trim(s[..n]), INITIAL) == |Trim(s[..n])|
  {
    hide SegmentLen, Read, Trim, Leading, TrimmedHere;
    var st := Trim(s[..n]);
    TrimmedSegment(u, s, n);
    UncutAfterTrim(u, s[Leading(s[..n])..], st, INITIAL);
    ReadUncut(u, st, INITIAL, "");
    assert "" + st == st;
    TrimFixed(st);
  }

  lemma FlushMember(body: string, st: string)
    requires st in Flush(body)
    ensures st == Trim(body) && Flush(body) == [st]
  {
    hide Trim;
  }

  lemma FirstStatement(u: Unicode, s: string, n: nat)
    requires n == SegmentLen(u, s, INITIAL) && NoDirective(Lex(u, s, INITIAL))
    ensures n < |s| ==> s[n] == ';' && NoDirective(Lex(u, s[n + 1..], INITIAL))
    ensures Read(u, s, INITIAL, "") == Flush(s[..n]) + if n < |s| then Read(u, s[n + 1..], INITIAL, "") else []
  {
    hide Lex, Read, Flush, SegmentLen, NoDirective;
    ReadBySegment(u, s, INITIAL, "");
    assert s[..n] == "" + s[..n];
    assert n == |s| ==> "" + s == s[..n];
  }

  /** A text that is split into itself alone, with no token that ends a statement. */
  predicate StandsAlone(u: Unicode, st: string) {
    Split(u, st) == [st] && SegmentLen(u, st, INITIAL) == |st|
  }

  lemma {:induction false} StableFrom(u: Unicode, s: string)
    requires NoDirective(Lex(u, s, INITIAL))
    ensures forall st :: st in Read(u, s, INITIAL, "") ==> StandsAlone(u, st)
    decreases |s|
  {
    hide Lex, Read, Split, Trim, Flush, SegmentLen, NoDirective;
    var n := SegmentLen(u, s, INITIAL);
    FirstStatement(u, s, n);
    SegmentIsStable(u, s, n);
    if n < |s| {
      StableFrom(u, s[n + 1..]);
    }
    forall st | st in Flush(s[..n]) ensures StandsAlone(u, st) {
      FlushMember(s[..n], st);
    }
  }

  /** Splitting any returned statement again returns exactly that statement. */
  lemma SplitIsStable(u: Unicode, script: string)
    requires NoDirective(Lex(u, script, INITIAL))
    ensures forall st :: st in Split(u, script) ==> Split(u, st) == [st]
  {
    hide Lex, Read;
    StableFrom(u, script);
  }

  // ── Terminators inside a statement ──

  lemma {:induction false} UncutAt(u: Unicode, s: string, m: Mode, k: nat)
    requires m.delim == ";" && SegmentLen(u, s, m) == |s| && k < |Lex(u, s, m)|
    ensures var (s', m') := At(u, s, m, k);
            s' != "" && !Cuts(Scan(u, s', m'), m'.depth)
    decreases k
  {
    hide Scan, SegmentLen, Lex, After, Cuts;
    LexEmpty(u, m);
    var t := Scan(u, s, m);
    SegmentHead(u, s, m);
    LexHead(u, s, m);
    UncutIsNoDirective(t, m.depth);
    KeepsSemicolonText(u, s, m);
    if k > 0 {
      UncutAt(u, s[|t.text|..], After(m, t), k - 1);
    }
  }

  predicate IsTerminatorAt(ts: seq<Token>, k: nat) {
    k < |ts| && ts[k].kind.Terminator?
  }

  /**
   Inside a returned statement a terminator stands only in an open block: the statement has a terminator
   if and only if it has one with more BEGINs than ENDs before it, and never without a BEGIN.
   */
  lemma InnerTerminatorsAreNested(u: Unicode, script: string, st: string)
    requires NoDirective(Lex(u, script, INITIAL)) && st in Split(u, script)
    ensures var ts := Lex(u, st, INITIAL);
            && (forall k :: IsTerminatorAt(ts, k) ==> Nesting(ts, k) > 0)
            && ((exists k :: IsTerminatorAt(ts, k)) <==> exists k :: IsTerminatorAt(ts, k) && Nesting(ts, k) > 0)
            && (!HasBegin(ts) ==> forall k :: !IsTerminatorAt(ts, k))
  {
    hide Lex, Read, Scan, SegmentLen, HasBegin;
    StableFrom(u, script);
    assert StandsAlone(u, st);
    var ts := Lex(u, st, INITIAL);
    forall k | IsTerminatorAt(ts, k) ensures Nesting(ts, k) > 0 {
      UncutAt(u, st, INITIAL, k);
      LexAt(u, st, INITIAL, k);
    }
    if !HasBegin(ts) {
      forall k | IsTerminatorAt(ts, k) ensures false {
        NoBeginNoNesting(ts, k);
      }
    }
  }
}
