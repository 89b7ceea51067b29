/**
 SQL Server wraps a column default in parentheses. `StripDefaultParens` takes the wrapping layers off;
 `OuterPair` says when the first parenthesis is closed by the last character and not before.
 */
module DefaultParens {
  import opened Chars
  import opened Wrappers

  function Delta(c: char): int {
    if c == '(' then 1 else if c == ')' then -1 else 0
  }

  /** Opening less closing parentheses. */
  function Depth(s: string): int {
    if s == "" then 0 else Depth(s[..|s| - 1]) + Delta(s[|s| - 1])
  }

  predicate Balanced(s: string) {
    Depth(s) == 0 && forall k :: 0 <= k <= |s| ==> Depth(s[..k]) >= 0
  }

  predicate OuterPair(s: string) {
    && |s| >= 2 && s[0] == '(' && s[|s| - 1] == ')'
    && Depth(s) == 0 && forall k :: 0 < k < |s| ==> Depth(s[..k]) > 0
  }

  /** What is left of a trimmed text when its layers are taken off one by one. */
  function Strip(s: string): (r: string)
    decreases |s|
  {
    if OuterPair(s) then
      TrimIsSlice(s[1..|s| - 1]);
      Strip(Trim(s[1..|s| - 1]))
    else s
  }

  // ── The loops ──

  lemma DepthNext(s: string, i: nat)
    requires i < |s|
    ensures Depth(s[..i + 1]) == Depth(s[..i]) + Delta(s[i])
  {
    assert s[..i + 1][..i] == s[..i];
  }

  /** Follow the depth up to where it first returns to zero. */
  method Wraps(s: string) returns (wraps: bool)
    requires s != "" && s[0] == '(' && s[|s| - 1] == ')'
    ensures wraps <==> OuterPair(s)
  {
    hide Depth;
    var depth := 0;
    NoDepth();
    for i := 0 to |s|
      invariant depth == Depth(s[..i])
      invariant forall k :: 0 < k <= i ==> Depth(s[..k]) > 0
    {
      DepthNext(s, i);
      if s[i] == '(' {
        depth := depth + 1;
      } else if s[i] == ')' {
        depth := depth - 1;
        if depth == 0 {
          assert s[..|s|] == s;
          assert i + 1 < |s| ==> Depth(s[..i + 1]) == 0;
          return i + 1 == |s|;
        }
      }
    }
    assert s[..|s|] == s;
    return false;
  }

  lemma NoDepth()
    ensures Depth("") == 0
  {
  }

  /** `None` stands for a default that is absent or no text. */
  method StripDefaultParens(v: Option<string>) returns (r: Option<string>)
    ensures r == match v case None => None case Some(text) => if Strip(Trim(text)) == "" then None else Some(Strip(Trim(text)))
  {
    hide Depth, Trim;
    if v.None? {
      return None;
    }
    var s := Trim(v.value);
    if s == "" {
      assert Strip(s) == s;
      return None;
    }
    ghost var start := s;
    while s != "" && s[0] == '(' && s[|s| - 1] == ')'
      invariant Strip(s) == Strip(start)
      decreases |s|
    {
      var wraps := Wraps(s);
      if !wraps {
        break;
      }
      TrimIsSlice(s[1..|s| - 1]);
      s := Trim(s[1..|s| - 1]);
    }
    assert Strip(s) == s;
    r := if s == "" then None else Some(s);
  }

  // ── The theorems ──

  lemma {:induction false} DepthConcat(a: string, b: string)
    ensures Depth(a + b) == Depth(a) + Depth(b)
  {
    if b == "" {
      assert a + b == a;
    } else {
      assert (a + b)[..|a + b| - 1] == a + b[..|b| - 1];
      DepthConcat(a, b[..|b| - 1]);
    }
  }

  lemma TrimTrimmed(s: string)
    ensures Trim(Trim(s)) == Trim(s)
  {
    TrimFixed(Trim(s));
  }

  /** The result has no outer pair left and no blank at its ends; stripping it again changes nothing. */
  lemma {:induction false} StripIsComplete(s: string)
    requires Trim(s) == s
    ensures !OuterPair(Strip(s)) && Trim(Strip(s)) == Strip(s) && Strip(Strip(s)) == Strip(s)
    decreases |s|
  {
    hide Trim, OuterPair;
    if OuterPair(s) {
      InnerIsShorter(s);
      TrimTrimmed(s[1..|s| - 1]);
      StripIsComplete(Trim(s[1..|s| - 1]));
    }
  }

  lemma InnerIsShorter(s: string)
    requires OuterPair(s)
    ensures |s| >= 2 && |Trim(s[1..|s| - 1])| < |s|
  {
    hide Depth;
    TrimIsSlice(s[1..|s| - 1]);
  }

  /** Nothing but blanks and layers comes off: `n` opening on the left, `n` closing on the right. */
  predicate Peeled(s: string, lo: nat, hi: nat, r: string, n: nat) {
    && lo <= hi <= |s| && s[lo..hi] == r
    && (forall k :: 0 <= k < lo ==> s[k] == '(' || IsWhitespace(s[k]))
    && (forall k :: hi <= k < |s| ==> s[k] == ')' || IsWhitespace(s[k]))
    && Depth(s[..lo]) == n && Depth(s[hi..]) + n == 0
  }

  lemma {:induction false} BlankDepth(s: string)
    requires Blank(s)
    ensures Depth(s) == 0
  {
    if s != "" {
      BlankDepth(s[..|s| - 1]);
    }
  }

  lemma TrimPeels(s: string) returns (lo: nat, hi: nat)
    ensures Peeled(s, lo, hi, Trim(s), 0)
  {
    hide Depth, Trim;
    TrimIsSlice(s);
    lo, hi := Leading(s), Leading(s) + |Trim(s)|;
    BlankDepth(s[..lo]);
    BlankDepth(s[hi..]);
    assert forall k :: 0 <= k < lo ==> s[k] == s[..lo][k];
    assert forall k :: hi <= k < |s| ==> s[k] == s[hi..][k - hi];
  }

  /** Peeling a part peeled before. */
  lemma PeelTwice(s: string, lo: nat, hi: nat, t: string, n: nat, lo': nat, hi': nat, r: string, n': nat)
    requires Peeled(s, lo, hi, t, n) && Peeled(t, lo', hi', r, n')
    ensures Peeled(s, lo + lo', lo + hi', r, n + n')
  {
    hide Depth;
    assert forall k :: lo <= k < hi ==> s[k] == t[k - lo];
    assert s[lo + lo'..lo + hi'] == t[lo'..hi'] == r by {
      assert s[lo..hi][lo'..hi'] == s[lo + lo'..lo + hi'];
    }
    assert s[..lo + lo'] == s[..lo] + t[..lo'];
    assert s[lo + hi'..] == t[hi'..] + s[hi..];
    DepthConcat(s[..lo], t[..lo']);
    DepthConcat(t[hi'..], s[hi..]);
    assert forall k :: lo <= k < lo + lo' ==> s[k] == t[k - lo];
    assert forall k :: lo + hi' <= k < hi ==> s[k] == t[k - lo];
  }

  lemma LayerPeels(s: string)
    requires OuterPair(s)
    ensures Peeled(s, 1, |s| - 1, s[1..|s| - 1], 1)
  {
    assert s[..1] == [s[0]] && s[|s| - 1..] == [s[|s| - 1]];
    assert Depth([s[0]]) == 1 by {
      assert [s[0]][..0] == "";
    }
    assert Depth([s[|s| - 1]]) == -1 by {
      assert [s[|s| - 1]][..0] == "";
    }
  }

  lemma NothingPeels(s: string)
    ensures Peeled(s, 0, |s|, s, 0)
  {
    hide Depth;
    assert s[..0] == "" && s[|s|..] == "" && s[0..|s|] == s;
    NoDepth();
  }

  /** The result is the input less some number of matched layers and the blanks around them. */
  lemma {:induction false} StripPeels(s: string) returns (lo: nat, hi: nat, n: nat)
    ensures Peeled(s, lo, hi, Strip(s), n)
    ensures n > 0 <==> OuterPair(s)
    decreases |s|
  {
    hide Depth, Trim, OuterPair, Peeled;
    if OuterPair(s) {
      InnerIsShorter(s);
      var inner := s[1..|s| - 1];
      LayerPeels(s);
      lo, hi := TrimPeels(inner);
      PeelTwice(s, 1, |s| - 1, inner, 1, lo, hi, Trim(inner), 0);
      lo, hi := 1 + lo, 1 + hi;
      var lo', hi', n' := StripPeels(Trim(inner));
      PeelTwice(s, lo, hi, Trim(inner), 1, lo', hi', Strip(s), n');
      lo, hi, n := lo + lo', lo + hi', 1 + n';
    } else {
      lo, hi, n := 0, |s|, 0;
      NothingPeels(s);
    }
  }

  lemma PaddedDepth(a: string, t: string, b: string, k: nat)
    requires Blank(a) && Blank(b) && k <= |a + t + b|
    ensures Depth((a + t + b)[..k]) ==
            if k <= |a| then 0 else if k <= |a| + |t| then Depth(t[..k - |a|]) else Depth(t)
  {
    hide Depth;
    BlankDepth(a);
    if k <= |a| {
      assert (a + t + b)[..k] == a[..k];
      BlankDepth(a[..k]);
    } else if k <= |a| + |t| {
      assert (a + t + b)[..k] == a + t[..k - |a|];
      DepthConcat(a, t[..k - |a|]);
    } else {
      var tail := b[..k - |a| - |t|];
      assert (a + t + b)[..k] == a + t + tail;
      DepthConcat(a + t, tail);
      DepthConcat(a, t);
      BlankDepth(tail);
    }
  }

  lemma BalancedPad(a: string, t: string, b: string)
    requires Blank(a) && Blank(b)
    ensures Balanced(a + t + b) <==> Balanced(t)
  {
    hide Depth;
    var s := a + t + b;
    NoDepth();
    assert t[..|t|] == t && s[..|s|] == s && t[..0] == "";
    forall k | 0 <= k <= |t| ensures Depth(s[..|a| + k]) == Depth(t[..k]) {
      PaddedDepth(a, t, b, |a| + k);
    }
    PaddedDepth(a, t, b, |s|);
    if Balanced(t) {
      forall k | 0 <= k <= |s| ensures Depth(s[..k]) >= 0 {
        PaddedDepth(a, t, b, k);
      }
    }
  }

  lemma BalancedTrim(s: string)
    ensures Balanced(Trim(s)) <==> Balanced(s)
  {
    hide Trim, Balanced;
    TrimIsSlice(s);
    var a, b := s[..Leading(s)], s[Leading(s) + |Trim(s)|..];
    assert s == a + Trim(s) + b;
    BalancedPad(a, Trim(s), b);
  }

  /** A layer and what it wraps are both balanced. */
  lemma LayerIsBalanced(s: string)
    requires OuterPair(s)
    ensures Balanced(s) && Balanced(s[1..|s| - 1])
  {
    hide Depth;
    var inner := s[1..|s| - 1];
    LayerPeels(s);
    NoDepth();
    assert s[..|s|] == s && s[..0] == "";
    forall k | 0 <= k <= |inner| ensures Depth(inner[..k]) == Depth(s[..k + 1]) - 1 {
      assert s[..k + 1] == s[..1] + inner[..k];
      DepthConcat(s[..1], inner[..k]);
    }
    DepthNext(s, |s| - 1);
    assert inner[..|inner|] == inner;
  }

  /** Stripping never breaks or mends the balance. */
  lemma {:induction false} StripKeepsBalance(s: string)
    ensures Balanced(Strip(s)) <==> Balanced(s)
    decreases |s|
  {
    hide Depth, Trim, OuterPair, Balanced;
    if OuterPair(s) {
      InnerIsShorter(s);
      LayerIsBalanced(s);
      BalancedTrim(s[1..|s| - 1]);
      StripKeepsBalance(Trim(s[1..|s| - 1]));
    }
  }

  /** All of it about the answer for a default's text. */
  lemma StripDefaultIsSound(text: string) returns (lo: nat, hi: nat, n: nat)
    ensures var r := Strip(Trim(text));
            && Peeled(text, lo, hi, r, n)
            && !OuterPair(r) && Trim(r) == r && Strip(r) == r
            && (Balanced(r) <==> Balanced(text))
  {
    hide Trim, Strip, OuterPair, Balanced, Peeled;
    var t := Trim(text);
    lo, hi := TrimPeels(text);
    var lo', hi', n' := StripPeels(t);
    PeelTwice(text, lo, hi, t, 0, lo', hi', Strip(t), n');
    hi := lo + hi';
    lo, n := lo + lo', n';
    TrimTrimmed(text);
    StripIsComplete(t);
    StripKeepsBalance(t);
    BalancedTrim(text);
  }

  // ── Parentheses in quotes and comments ──

  /** What one layer added outside does to the balance, and when it is seen as a layer. */
  lemma WrappedDepth(e: string, k: nat)
    requires k <= |e|
    ensures Depth(("(" + e + ")")[..k + 1]) == 1 + Depth(e[..k])
    ensures Depth("(" + e + ")") == Depth(e)
  {
    hide Depth;
    var s := "(" + e + ")";
    assert s[..k + 1] == "(" + e[..k];
    DepthConcat("(", e[..k]);
    DepthConcat("(" + e, ")");
    DepthConcat("(", e);
    OneParen();
  }

  lemma OneParen()
    ensures Depth("(") == 1 && Depth(")") == -1
  {
    assert "("[..0] == "" && ")"[..0] == "";
  }

  /** A wrapping layer is taken off exactly when what it wraps is balanced, quoted parentheses counted. */
  lemma LayerComesOffExactly(e: string)
    ensures OuterPair("(" + e + ")") <==> Balanced(e)
    ensures Balanced(e) ==> Balanced("(" + e + ")")
  {
    hide Depth;
    var s := "(" + e + ")";
    assert s[0] == '(' && s[|s| - 1] == ')' && |s| == |e| + 2;
    forall k | 0 <= k <= |e| ensures Depth(s[..k + 1]) == 1 + Depth(e[..k]) && Depth(s) == Depth(e) {
      WrappedDepth(e, k);
    }
    WrappedDepth(e, 0);
    assert e[..|e|] == e && s[..|s|] == s && s[..0] == "";
    NoDepth();
    if OuterPair(s) {
      forall k | 0 <= k <= |e| ensures Depth(e[..k]) >= 0 {
        assert Depth(s[..k + 1]) > 0;
      }
    }
    if Balanced(e) {
      forall k | 0 < k < |s| ensures Depth(s[..k]) > 0 {
        assert Depth(s[..(k - 1) + 1]) == 1 + Depth(e[..k - 1]);
      }
    }
  }

  lemma LiteralBalance(x: string)
    ensures Balanced("'" + x + "'") <==> Balanced(x)
  {
    hide Depth;
    var s := "'" + x + "'";
    NoDepth();
    QuoteDepth();
    forall k | 0 <= k <= |x| ensures Depth(s[..k + 1]) == Depth(x[..k]) {
      assert s[..k + 1] == "'" + x[..k];
      DepthConcat("'", x[..k]);
    }
    DepthConcat("'" + x, "'");
    DepthConcat("'", x);
    assert x[..|x|] == x && s[..|s|] == s && s[..0] == "";
    if Balanced(s) {
      forall k | 0 <= k <= |x| ensures Depth(x[..k]) >= 0 {
        assert Depth(s[..k + 1]) >= 0;
      }
    }
    if Balanced(x) {
      forall k | 0 < k < |s| ensures Depth(s[..k]) >= 0 {
        assert Depth(s[..(k - 1) + 1]) == Depth(x[..k - 1]);
      }
    }
  }

  lemma QuoteDepth()
    ensures Depth("'") == 0
  {
    assert "'"[..0] == "";
  }

  /** A default that is one string literal loses its wrapping parentheses exactly when the string is balanced. */
  lemma StringDefaultIsStrippedExactly(x: string)
    ensures Strip("('" + x + "')") == (if Balanced(x) then "'" + x + "'" else "('" + x + "')")
  {
    hide Depth, Trim, Balanced, OuterPair;
    var e := "'" + x + "'";
    assert "('" + x + "')" == "(" + e + ")" && ("(" + e + ")")[1..|e| + 1] == e;
    LayerComesOffExactly(e);
    LiteralBalance(x);
    TrimFixed(e);
    assert !OuterPair(e) by { NoPair(e); }
  }

  /**
   Where a Transact-SQL text stands: in code, after a sign that may begin a comment, in a literal, in a
   quoted or bracketed identifier, or in a line or nested block comment.
   */
  datatype Place =
    | Code
    | Dash
    | Slash
    | Literal
    | Quoted
    | Bracket
    | BracketEnd
    | Line
    | Block(depth: nat)
    | BlockSlash(depth: nat)
    | BlockStar(depth: nat)

  function FromCode(c: char): Place {
    match c
    case '\'' => Literal
    case '"' => Quoted
    case '[' => Bracket
    case '-' => Dash
    case '/' => Slash
    case _ => Code
  }

  function InBlock(depth: nat, c: char): Place {
    match c
    case '/' => BlockSlash(depth)
    case '*' => BlockStar(depth)
    case _ => Block(depth)
  }

  /** A doubled quote or bracket closes and opens again, or is read as one by `BracketEnd`. */
  function Next(p: Place, c: char): Place {
    match p
    case Code => FromCode(c)
    case Dash => if c == '-' then Line else FromCode(c)
    case Slash => if c == '*' then Block(1) else FromCode(c)
    case Literal => if c == '\'' then Code else Literal
    case Quoted => if c == '"' then Code else Quoted
    case Bracket => if c == ']' then BracketEnd else Bracket
    case BracketEnd => if c == ']' then Bracket else FromCode(c)
    case Line => if c == '\n' then Code else Line
    case Block(d) => InBlock(d, c)
    case BlockSlash(d) => if c == '*' then Block(d + 1) else InBlock(d, c)
    case BlockStar(d) => if c == '/' then (if d <= 1 then Code else Block(d - 1)) else InBlock(d, c)
  }

  function PlaceAfter(p: Place, s: string): Place {
    if s == "" then p else Next(PlaceAfter(p, s[..|s| - 1]), s[|s| - 1])
  }

  lemma {:induction false} Staying(p: Place, body: string)
    requires forall i :: 0 <= i < |body| ==> Next(p, body[i]) == p
    ensures PlaceAfter(p, body) == p
  {
    if body != "" {
      Staying(p, body[..|body| - 1]);
    }
  }

  lemma OneMore(p: Place, body: string, c: char)
    ensures PlaceAfter(p, body + [c]) == Next(PlaceAfter(p, body), c)
  {
    assert (body + [c])[..|body|] == body;
  }

  /** A sign that turns out to begin or end nothing was text like any other. */
  lemma LoneSigns(d: nat, c: char)
    ensures c != '-' ==> Next(Dash, c) == Next(Code, c)
    ensures c != '*' ==> Next(Slash, c) == Next(Code, c)
    ensures c != ']' ==> Next(BracketEnd, c) == Next(Code, c)
    ensures c != '*' ==> Next(BlockSlash(d), c) == Next(Block(d), c)
    ensures c != '/' ==> Next(BlockStar(d), c) == Next(Block(d), c)
  {
  }

  /** A literal and a quoted identifier reach from their mark to the next one, a bracketed one to its bracket; a line comment ends with its line. */
  lemma RegionsEnd(body: string)
    ensures '\'' !in body ==> PlaceAfter(Next(Code, '\''), body) == Literal && PlaceAfter(Next(Code, '\''), body + ['\'']) == Code
    ensures '"' !in body ==> PlaceAfter(Next(Code, '"'), body) == Quoted && PlaceAfter(Next(Code, '"'), body + ['"']) == Code
    ensures ']' !in body ==> PlaceAfter(Next(Code, '['), body) == Bracket && IsCode(PlaceAfter(Next(Code, '['), body + [']']))
    ensures '\n' !in body ==> PlaceAfter(Next(Next(Code, '-'), '-'), body) == Line && PlaceAfter(Next(Next(Code, '-'), '-'), body + ['\n']) == Code
  {
    hide PlaceAfter;
    assert forall i :: 0 <= i < |body| ==> body[i] in body;
    OneMore(Literal, body, '\'');
    OneMore(Quoted, body, '"');
    OneMore(Bracket, body, ']');
    OneMore(Line, body, '\n');
    if '\'' !in body {
      Staying(Literal, body);
    }
    if '"' !in body {
      Staying(Quoted, body);
    }
    if ']' !in body {
      Staying(Bracket, body);
    }
    if '\n' !in body {
      Staying(Line, body);
    }
  }

  /** A doubled closing bracket stays in the identifier. */
  lemma DoubledBracketStays()
    ensures Next(Next(Bracket, ']'), ']') == Bracket && IsCode(Next(Bracket, ']'))
    ensures Next(Next(Literal, '\''), '\'') == Literal && Next(Next(Quoted, '"'), '"') == Quoted
  {
  }

  /** A block comment of plain text is left by its end mark; an inner start mark makes it one deeper. */
  lemma BlockCommentsNest(depth: nat, body: string)
    requires depth > 0 && '*' !in body && '/' !in body
    ensures PlaceAfter(Next(Next(Code, '/'), '*'), body) == Block(1)
    ensures PlaceAfter(Block(depth), body) == Block(depth)
    ensures Next(Next(Block(depth), '/'), '*') == Block(depth + 1)
    ensures Next(Next(Block(depth), '*'), '/') == if depth == 1 then Code else Block(depth - 1)
  {
    hide PlaceAfter;
    assert forall i :: 0 <= i < |body| ==> body[i] in body;
    Staying(Block(1), body);
    Staying(Block(depth), body);
  }

  predicate IsCode(p: Place) {
    p.Code? || p.Dash? || p.Slash? || p.BracketEnd?
  }

  /** A character that no comment or quote hides. */
  function CodeDelta(p: Place, c: char): int {
    if IsCode(p) then Delta(c) else 0
  }

  /** The depth that counts only parentheses in code. */
  function CodeDepth(s: string): int {
    if s == "" then 0 else CodeDepth(s[..|s| - 1]) + CodeDelta(PlaceAfter(Code, s[..|s| - 1]), s[|s| - 1])
  }

  /** The pair an SQL parser sees. */
  predicate CodePair(s: string) {
    && |s| >= 2 && s[0] == '(' && s[|s| - 1] == ')'
    && CodeDepth(s) == 0 && forall k :: 0 < k < |s| ==> CodeDepth(s[..k]) > 0
  }

  /** What is left when only layers an SQL parser sees are taken off. */
  function CodeStrip(s: string): (r: string)
    decreases |s|
  {
    if CodePair(s) then
      TrimIsSlice(s[1..|s| - 1]);
      CodeStrip(Trim(s[1..|s| - 1]))
    else s
  }

  lemma Rewrap(s: string)
    requires |s| >= 2 && s[0] == '(' && s[|s| - 1] == ')'
    ensures s == "(" + s[1..|s| - 1] + ")"
  {
  }

  /** If the parser's answer is balanced even with quoted parentheses counted, every layer above it comes off. */
  lemma {:induction false} BalancedCoreIsReached(s: string)
    requires Balanced(CodeStrip(s)) && !OuterPair(CodeStrip(s))
    ensures Strip(s) == CodeStrip(s) && Balanced(s)
    decreases |s|
  {
    hide Depth, CodeDepth, Trim, Balanced, OuterPair, CodePair;
    if CodePair(s) {
      CodeInnerIsShorter(s);
      var e := s[1..|s| - 1];
      BalancedCoreIsReached(Trim(e));
      BalancedTrim(e);
      Rewrap(s);
      LayerComesOffExactly(e);
    }
  }

  lemma CodeInnerIsShorter(s: string)
    requires CodePair(s)
    ensures |s| >= 2 && s[0] == '(' && s[|s| - 1] == ')' && |Trim(s[1..|s| - 1])| < |s|
  {
    hide CodeDepth;
    TrimIsSlice(s[1..|s| - 1]);
  }

  /**
   Stripping gives the parser's answer exactly when that answer is not itself mistaken for a wrapped
   text and, if anything had to come off, is balanced with quoted parentheses counted.
   */
  lemma StripIsRightExactly(s: string)
    requires Trim(s) == s
    ensures Strip(s) == CodeStrip(s) <==>
            !OuterPair(CodeStrip(s)) && (CodePair(s) ==> Balanced(CodeStrip(s)))
  {
    hide Depth, CodeDepth, Trim, Balanced, OuterPair, CodePair;
    if Strip(s) == CodeStrip(s) {
      StripIsComplete(s);
      if CodePair(s) {
        CodeInnerIsShorter(s);
        CodeStripIsShorter(Trim(s[1..|s| - 1]));
        assert OuterPair(s);
        LayerIsBalanced(s);
        StripKeepsBalance(s);
      }
    } else if !OuterPair(CodeStrip(s)) && (CodePair(s) ==> Balanced(CodeStrip(s))) {
      if CodePair(s) {
        BalancedCoreIsReached(s);
      }
    }
  }

  lemma {:induction false} CodeStripIsShorter(s: string)
    ensures |CodeStrip(s)| <= |s|
    decreases |s|
  {
    hide CodePair, Trim;
    if CodePair(s) {
      CodeInnerIsShorter(s);
      CodeStripIsShorter(Trim(s[1..|s| - 1]));
    }
  }

  // ── Texts whose quotes and comments hold no parentheses ──

  predicate NoHiddenParens(s: string) {
    forall i :: 0 <= i < |s| ==> CodeDelta(PlaceAfter(Code, s[..i]), s[i]) == Delta(s[i])
  }

  lemma {:induction false} DepthsAgree(s: string, k: nat)
    requires NoHiddenParens(s) && k <= |s|
    ensures CodeDepth(s[..k]) == Depth(s[..k])
  {
    if k > 0 {
      DepthsAgree(s, k - 1);
      assert s[..k][..k - 1] == s[..k - 1];
    }
  }

  lemma LayersAreReal(s: string)
    requires NoHiddenParens(s)
    ensures OuterPair(s) <==> CodePair(s)
  {
    hide Depth, CodeDepth, NoHiddenParens;
    forall k | 0 <= k <= |s| ensures CodeDepth(s[..k]) == Depth(s[..k]) {
      DepthsAgree(s, k);
    }
    assert s[..|s|] == s;
  }

  lemma {:induction false} PlaceOfConcat(p: Place, a: string, b: string)
    ensures PlaceAfter(p, a + b) == PlaceAfter(PlaceAfter(p, a), b)
  {
    hide Next;
    if b == "" {
      assert a + b == a;
    } else {
      assert (a + b)[..|a + b| - 1] == a + b[..|b| - 1];
      PlaceOfConcat(p, a, b[..|b| - 1]);
    }
  }

  lemma {:induction false} PlaceOfBlanks(s: string)
    requires Blank(s)
    ensures PlaceAfter(Code, s) == Code
  {
    if s != "" {
      assert IsWhitespace(s[|s| - 1]);
      PlaceOfBlanks(s[..|s| - 1]);
    }
  }

  /** A part that is reached in code keeps the property. */
  lemma PartHasNoHiddenParens(s: string, lo: nat, hi: nat)
    requires NoHiddenParens(s) && lo <= hi <= |s| && PlaceAfter(Code, s[..lo]) == Code
    ensures NoHiddenParens(s[lo..hi])
  {
    hide PlaceAfter, CodeDelta;
    forall i | 0 <= i < hi - lo ensures CodeDelta(PlaceAfter(Code, s[lo..hi][..i]), s[lo..hi][i]) == Delta(s[lo..hi][i]) {
      assert s[..lo + i] == s[..lo] + s[lo..hi][..i];
      PlaceOfConcat(Code, s[..lo], s[lo..hi][..i]);
      assert CodeDelta(PlaceAfter(Code, s[..lo + i]), s[lo + i]) == Delta(s[lo + i]);
    }
  }

  lemma InnerHasNoHiddenParens(s: string)
    requires NoHiddenParens(s) && |s| >= 2 && s[0] == '('
    ensures NoHiddenParens(Trim(s[1..|s| - 1]))
  {
    hide NoHiddenParens, Trim;
    var e := s[1..|s| - 1];
    assert s[..1] == "(" && "("[..0] == "";
    assert PlaceAfter(Code, s[..1]) == Code;
    PartHasNoHiddenParens(s, 1, |s| - 1);
    TrimIsSlice(e);
    PlaceOfBlanks(e[..Leading(e)]);
    PartHasNoHiddenParens(e, Leading(e), Leading(e) + |Trim(e)|);
  }

  /** With no parenthesis in a quote or comment, every layer taken off is the parser's, down to the last. */
  lemma {:induction false} PlainTextIsStrippedRight(s: string)
    requires NoHiddenParens(s)
    ensures Strip(s) == CodeStrip(s)
    decreases |s|
  {
    hide Depth, CodeDepth, Trim, NoHiddenParens, CodePair, OuterPair;
    LayersAreReal(s);
    if OuterPair(s) {
      InnerIsShorter(s);
      CodeInnerIsShorter(s);
      InnerHasNoHiddenParens(s);
      PlainTextIsStrippedRight(Trim(s[1..|s| - 1]));
    }
  }

  // ── Inputs that go wrong, and one that does not ──

  const MISREAD := "('(')+(')')"

  const BRACKETED := "([a)b])"

  const QUOTED := "('()')"

  /** Two separate groups are torn apart, and a layer around a bracketed identifier stays; `('()')` is read right. */
  lemma HiddenParensMislead()
    ensures Strip(MISREAD) == "'(')+(')'" && CodeStrip(MISREAD) == MISREAD
    ensures Strip(BRACKETED) == BRACKETED && CodeStrip(BRACKETED) == "[a)b]"
    ensures Strip(QUOTED) == CodeStrip(QUOTED) == "'()'"
  {
    hide Depth, CodeDepth, PlaceAfter, Trim, OuterPair, CodePair;
    MisreadDepths();
    BracketedDepths();
    QuotedDepths();
    assert MISREAD[1..|MISREAD| - 1] == "'(')+(')'" && BRACKETED[1..|BRACKETED| - 1] == "[a)b]" && QUOTED[1..|QUOTED| - 1] == "'()'";
    TrimFixed("'(')+(')'");
    TrimFixed("[a)b]");
    TrimFixed("'()'");
    NoPair("'(')+(')'");
    NoPair("[a)b]");
    NoPair("'()'");
  }

  lemma NoPair(s: string)
    requires s == "" || s[0] != '('
    ensures !OuterPair(s) && !CodePair(s)
  {
    hide Depth, CodeDepth;
  }

  lemma MisreadDepths()
    ensures OuterPair(MISREAD) && !CodePair(MISREAD)
  {
    var s := MISREAD;
    hide Depth, CodeDepth, PlaceAfter;
    NothingRead();
    assert s[..0] == "" && s[..11] == s;
    StepDepths(s, 0);
    StepDepths(s, 1);
    StepDepths(s, 2);
    StepDepths(s, 3);
    StepDepths(s, 4);
    StepDepths(s, 5);
    StepDepths(s, 6);
    StepDepths(s, 7);
    StepDepths(s, 8);
    StepDepths(s, 9);
    StepDepths(s, 10);
    assert CodeDepth(s[..5]) == 0;
  }

  lemma BracketedDepths()
    ensures !OuterPair(BRACKETED) && CodePair(BRACKETED)
  {
    var s := BRACKETED;
    hide Depth, CodeDepth, PlaceAfter;
    NothingRead();
    assert s[..0] == "" && s[..7] == s;
    StepDepths(s, 0);
    StepDepths(s, 1);
    StepDepths(s, 2);
    StepDepths(s, 3);
    StepDepths(s, 4);
    StepDepths(s, 5);
    StepDepths(s, 6);
    assert Depth(s[..4]) == 0;
  }

  lemma QuotedDepths()
    ensures OuterPair(QUOTED) && CodePair(QUOTED)
  {
    var s := QUOTED;
    hide Depth, CodeDepth, PlaceAfter;
    NothingRead();
    assert s[..0] == "" && s[..6] == s;
    StepDepths(s, 0);
    StepDepths(s, 1);
    StepDepths(s, 2);
    StepDepths(s, 3);
    StepDepths(s, 4);
    StepDepths(s, 5);
  }

  lemma NothingRead()
    ensures Depth("") == 0 && CodeDepth("") == 0 && PlaceAfter(Code, "") == Code
  {
  }

  lemma StepDepths(s: string, i: nat)
    requires i < |s|
    ensures Depth(s[..i + 1]) == Depth(s[..i]) + Delta(s[i])
    ensures CodeDepth(s[..i + 1]) == CodeDepth(s[..i]) + CodeDelta(PlaceAfter(Code, s[..i]), s[i])
    ensures PlaceAfter(Code, s[..i + 1]) == Next(PlaceAfter(Code, s[..i]), s[i])
  {
    assert s[..i + 1][..i] == s[..i];
  }
}
