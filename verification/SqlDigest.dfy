/**
 SQL digest normalisation. `Norm` reads a text token by token: string and number literals become one
 `?`, a run of blanks becomes one space. `NormalizeSql` is the iterator loop, proved to return it.
 */
module SqlDigest {
  import opened Chars

  const DIGEST_MAX_CHARS := 1000
  const ELLIPSIS := "\U{2026}"

  // ── Token lengths ──

  /** The length of the longest prefix whose characters all satisfy `p`. */
  function RunLen(s: string, p: char -> bool): (n: nat)
    ensures n <= |s|
    ensures forall i :: 0 <= i < n ==> p(s[i])
    ensures n < |s| ==> !p(s[n])
  {
    if s != "" && p(s[0]) then 1 + RunLen(s[1..], p) else 0
  }

  predicate IsDigitOrDot(c: char) {
    IsAsciiDigit(c) || c == '.'
  }

  /** From inside a string literal through its closing quote: `\x` and `''` do not close it. */
  function StringTail(s: string): (n: nat)
    ensures n <= |s|
  {
    if s == "" then 0
    else if s[0] == '\\' then (if |s| > 1 then 2 + StringTail(s[2..]) else 1)
    else if s[0] == '\'' then (if |s| > 1 && s[1] == '\'' then 2 + StringTail(s[2..]) else 1)
    else 1 + StringTail(s[1..])
  }

  /** An exponent counts only when a digit follows, so identifiers starting with `e` are kept. */
  function ExponentLen(s: string): (n: nat)
    ensures n <= |s|
  {
    if s == "" || (s[0] != 'e' && s[0] != 'E') then 0
    else if |s| > 1 && IsAsciiDigit(s[1]) then 1 + RunLen(s[1..], IsAsciiDigit)
    else if |s| > 2 && (s[1] == '+' || s[1] == '-') && IsAsciiDigit(s[2]) then 2 + RunLen(s[2..], IsAsciiDigit)
    else 0
  }

  function NumberTail(s: string, hexPrefix: bool): (n: nat)
    ensures n <= |s|
  {
    if hexPrefix && s != "" && (s[0] == 'x' || s[0] == 'X') then 1 + RunLen(s[1..], IsAsciiHexDigit)
    else
      var n := RunLen(s, IsDigitOrDot);
      n + ExponentLen(s[n..])
  }

  predicate SignedNumberStart(s: string) {
    |s| > 1 && (s[0] == '-' || s[0] == '+') && IsAsciiDigit(s[1])
  }

  /** The number of characters the first token takes. */
  function TokenLen(s: string): (n: nat)
    requires s != ""
    ensures 1 <= n <= |s|
  {
    if s[0] == '\'' then 1 + StringTail(s[1..])
    else if IsAsciiDigit(s[0]) then 1 + NumberTail(s[1..], s[0] == '0')
    else if SignedNumberStart(s) then 2 + NumberTail(s[2..], false)
    else if IsWhitespace(s[0]) then 1 + RunLen(s[1..], IsWhitespace)
    else 1
  }

  /** What the first token becomes; a run of blanks vanishes unless a space may follow what is written. */
  function TokenText(s: string, mayGap: bool): string
    requires s != ""
  {
    if s[0] == '\'' || IsAsciiDigit(s[0]) || SignedNumberStart(s) then "?"
    else if IsWhitespace(s[0]) then (if mayGap then " " else "")
    else [s[0]]
  }

  /** May a space be written after `out`? */
  predicate MayGap(out: string) {
    out != "" && out[|out| - 1] != ' '
  }

  function Norm(s: string, mayGap: bool): string
    decreases |s|
  {
    if s == "" then ""
    else TokenText(s, mayGap) + Norm(s[TokenLen(s)..], !IsWhitespace(s[0]))
  }

  function TruncateChars(s: string, max: nat): string {
    if |s| <= max then s else s[..max] + ELLIPSIS
  }

  function Digest(sql: string): string {
    TruncateChars(Norm(sql, false), DIGEST_MAX_CHARS)
  }

  // ── The iterator loop ──

  method NormalizeSql(sql: string) returns (out: string)
    ensures out == Norm(sql, false)
  {
    hide TokenLen, TokenText, Norm;
    out := "";
    var i: nat := 0;
    assert sql[0..] == sql && "" + Norm(sql, false) == Norm(sql, false);
    while i < |sql|
      invariant i <= |sql|
      invariant out + Norm(sql[i..], MayGap(out)) == Norm(sql, false)
    {
      ghost var before, ahead := out, sql[i..];
      NormStep(ahead, MayGap(before));
      TextDecidesGap(ahead, before);
      i, out := ReadToken(sql, i, out);
      assert ahead[TokenLen(ahead)..] == sql[i..];
      assert before + (TokenText(ahead, MayGap(before)) + Norm(sql[i..], MayGap(out))) == out + Norm(sql[i..], MayGap(out));
    }
    assert sql[i..] == "";
    NormEmpty(MayGap(out));
  }

  /** One turn of the loop: consume a token and append what it becomes. */
  method ReadToken(sql: string, start: nat, before: string) returns (i: nat, out: string)
    requires start < |sql|
    ensures i == start + TokenLen(sql[start..])
    ensures out == before + TokenText(sql[start..], MayGap(before))
  {
    hide StringTail, NumberTail, RunLen;
    var c := sql[start];
    ghost var ahead := sql[start..];
    i, out := start + 1, before + "?";
    assert ahead[1..] == sql[i..];
    if c == '\'' {
      i := SkipString(sql, i);
    } else if IsAsciiDigit(c) {
      i := ConsumeNumberTail(sql, i, c == '0');
    } else if (c == '-' || c == '+') && i < |sql| && IsAsciiDigit(sql[i]) {
      assert ahead[2..] == sql[i + 1..];
      assert SignedNumberStart(ahead);
      i := ConsumeNumberTail(sql, i + 1, false);
    } else if IsWhitespace(c) {
      i := SkipRun(sql, i, IsWhitespace);
      out := if before != "" && before[|before| - 1] != ' ' then before + " " else before;
    } else {
      out := before + [c];
    }
  }

  lemma TextDecidesGap(s: string, out: string)
    requires s != ""
    ensures MayGap(out + TokenText(s, MayGap(out))) == !IsWhitespace(s[0])
  {
    assert !IsWhitespace('?');
  }

  lemma NormStep(s: string, mayGap: bool)
    requires s != ""
    ensures Norm(s, mayGap) == TokenText(s, mayGap) + Norm(s[TokenLen(s)..], !IsWhitespace(s[0]))
  {
  }

  lemma NormEmpty(mayGap: bool)
    ensures Norm("", mayGap) == ""
  {
  }

  /** What remains of a string literal, one character on. */
  lemma TailNext(sql: string, i: nat)
    requires i < |sql|
    ensures sql[i] == '\\' ==> StringTail(sql[i..]) == if i + 1 < |sql| then 2 + StringTail(sql[i + 2..]) else 1
    ensures sql[i] == '\'' ==>
              StringTail(sql[i..]) == if i + 1 < |sql| && sql[i + 1] == '\'' then 2 + StringTail(sql[i + 2..]) else 1
    ensures sql[i] != '\\' && sql[i] != '\'' ==> StringTail(sql[i..]) == 1 + StringTail(sql[i + 1..])
  {
    var s := sql[i..];
    assert s[1..] == sql[i + 1..];
    if i + 1 < |sql| {
      assert s[2..] == sql[i + 2..];
    }
  }

  lemma TailEnd()
    ensures StringTail("") == 0
  {
  }

  method SkipString(sql: string, start: nat) returns (i: nat)
    requires start <= |sql|
    ensures i == start + StringTail(sql[start..])
  {
    hide StringTail;
    TailEnd();
    assert sql[|sql|..] == "";
    var escaped := false;
    i := start;
    ghost var goal := start + StringTail(sql[start..]);
    while i < |sql|
      invariant start <= i <= |sql|
      invariant !escaped ==> i + StringTail(sql[i..]) == goal
      invariant escaped ==> if i < |sql| then i + 1 + StringTail(sql[i + 1..]) == goal else i == goal
    {
      var c := sql[i];
      TailNext(sql, i);
      i := i + 1;
      if escaped {
        escaped := false;
        continue;
      }
      if c == '\\' {
        escaped := true;
      } else if c == '\'' {
        if i < |sql| && sql[i] == '\'' {
          i := i + 1;
        } else {
          break;
        }
      }
    }
  }

  method SkipRun(sql: string, start: nat, p: char -> bool) returns (i: nat)
    requires start <= |sql|
    ensures i == start + RunLen(sql[start..], p)
  {
    i := start;
    while i < |sql| && p(sql[i])
      invariant start <= i <= |sql|
      invariant i + RunLen(sql[i..], p) == start + RunLen(sql[start..], p)
    {
      assert sql[i..][1..] == sql[i + 1..];
      i := i + 1;
    }
  }

  method ConsumeNumberTail(sql: string, start: nat, hexPrefix: bool) returns (i: nat)
    requires start <= |sql|
    ensures i == start + NumberTail(sql[start..], hexPrefix)
  {
    hide ExponentLen, RunLen;
    ghost var s := sql[start..];
    if hexPrefix && start < |sql| && (sql[start] == 'x' || sql[start] == 'X') {
      assert s[1..] == sql[start + 1..];
      i := SkipRun(sql, start + 1, IsAsciiHexDigit);
      return;
    }
    i := SkipRun(sql, start, IsDigitOrDot);
    assert sql[i..] == s[RunLen(s, IsDigitOrDot)..];
    i := ConsumeExponent(sql, i);
  }

  /** The look-ahead for an exponent. */
  method ConsumeExponent(sql: string, start: nat) returns (i: nat)
    requires start <= |sql|
    ensures i == start + ExponentLen(sql[start..])
  {
    hide RunLen;
    i := start;
    if start < |sql| && (sql[start] == 'e' || sql[start] == 'E') {
      var look := start + 1;
      if look < |sql| && (sql[look] == '+' || sql[look] == '-') {
        look := look + 1;
      }
      if look < |sql| && IsAsciiDigit(sql[look]) {
        assert sql[start..][look - start..] == sql[look..];
        i := SkipRun(sql, look, IsAsciiDigit);
      }
    }
  }

  method NormalizeDigest(sql: string) returns (digest: string)
    ensures digest == Digest(sql)
  {
    var out := NormalizeSql(sql);
    digest := TruncateChars(out, DIGEST_MAX_CHARS);
  }

  // ── The normal form ──

  /** No quote, no ASCII digit, no blank but single spaces, and no space at the start unless `mayGap`. */
  predicate NormalForm(s: string, mayGap: bool) {
    && (forall i :: 0 <= i < |s| ==> s[i] != '\'' && !IsAsciiDigit(s[i]) && (IsWhitespace(s[i]) ==> s[i] == ' '))
    && (forall i :: 0 < i < |s| ==> !(s[i - 1] == ' ' && s[i] == ' '))
    && (s != "" && !mayGap ==> s[0] != ' ')
  }

  lemma NormalFormCons(c: char, s: string, mayGap: bool)
    requires c != '\'' && !IsAsciiDigit(c) && (IsWhitespace(c) ==> c == ' ') && (c == ' ' ==> mayGap)
    requires NormalForm(s, c != ' ')
    ensures NormalForm([c] + s, mayGap)
  {
  }

  lemma {:induction false} NormIsNormal(s: string, mayGap: bool)
    ensures NormalForm(Norm(s, mayGap), mayGap)
    decreases |s|
  {
    hide TokenLen;
    if s != "" {
      NormIsNormal(s[TokenLen(s)..], !IsWhitespace(s[0]));
      var rest := Norm(s[TokenLen(s)..], !IsWhitespace(s[0]));
      if TokenText(s, mayGap) == "" {
        assert "" + rest == rest;
      } else {
        NormalFormCons(TokenText(s, mayGap)[0], rest, mayGap);
      }
    }
  }

  lemma {:induction false} NormalIsFixed(s: string, mayGap: bool)
    requires NormalForm(s, mayGap)
    ensures Norm(s, mayGap) == s
    decreases |s|
  {
    if s != "" {
      assert |s| > 1 ==> s[1] == s[1..][0];
      assert TokenLen(s) == 1;
      assert IsWhitespace(s[0]) <==> s[0] == ' ';
      NormalIsFixed(s[1..], s[0] != ' ');
      assert s == [s[0]] + s[1..];
    }
  }

  /** The texts normalisation leaves alone are exactly those in normal form. */
  lemma NormFixesExactlyNormalForms(s: string)
    ensures Norm(s, false) == s <==> NormalForm(s, false)
  {
    NormIsNormal(s, false);
    if NormalForm(s, false) {
      NormalIsFixed(s, false);
    }
  }

  lemma CutKeepsNormalForm(s: string, max: nat)
    requires NormalForm(s, false)
    ensures NormalForm(TruncateChars(s, max), false)
  {
    if |s| > max {
      var cut := s[..max] + ELLIPSIS;
      assert forall i :: 0 <= i < max ==> cut[i] == s[i];
    }
  }

  /** A digest is in normal form, is at most one character over the limit, and is its own digest. */
  lemma DigestIsNormalForm(sql: string)
    ensures NormalForm(Digest(sql), false)
    ensures |Digest(sql)| <= DIGEST_MAX_CHARS + 1
    ensures Digest(Digest(sql)) == Digest(sql)
  {
    var out := Norm(sql, false);
    NormIsNormal(sql, false);
    CutKeepsNormalForm(out, DIGEST_MAX_CHARS);
    NormalIsFixed(Digest(sql), false);
    if |out| > DIGEST_MAX_CHARS {
      assert (out[..DIGEST_MAX_CHARS] + ELLIPSIS)[..DIGEST_MAX_CHARS] == out[..DIGEST_MAX_CHARS];
    }
  }

  /** A text is a digest exactly when it is in normal form and short enough or visibly cut. */
  lemma DigestsExactly(s: string)
    ensures (exists sql :: Digest(sql) == s) <==>
            NormalForm(s, false) &&
            (|s| <= DIGEST_MAX_CHARS || (|s| == DIGEST_MAX_CHARS + 1 && s[DIGEST_MAX_CHARS..] == ELLIPSIS))
  {
    if sql :| Digest(sql) == s {
      DigestIsNormalForm(sql);
    }
    if NormalForm(s, false) {
      NormalIsFixed(s, false);
      if |s| == DIGEST_MAX_CHARS + 1 && s[DIGEST_MAX_CHARS..] == ELLIPSIS {
        assert Digest(s) == s[..DIGEST_MAX_CHARS] + ELLIPSIS == s;
      } else if |s| <= DIGEST_MAX_CHARS {
        assert Digest(s) == s;
      }
    }
  }

  // ── What the digest hides, literal by literal ──

  lemma {:induction false} RunOf(a: string, b: string, p: char -> bool)
    requires (forall i :: 0 <= i < |a| ==> p(a[i])) && (b == "" || !p(b[0]))
    ensures RunLen(a + b, p) == |a|
  {
    if a == "" {
      assert a + b == b;
    } else {
      assert (a + b)[1..] == a[1..] + b;
      RunOf(a[1..], b, p);
    }
  }

  predicate IsDigits(s: string) {
    forall i :: 0 <= i < |s| ==> '0' <= s[i] <= '9'
  }

  /** An integer or a decimal: digits and dots, a digit first. */
  predicate IsDecimal(d: string) {
    d != "" && '0' <= d[0] <= '9' && forall i :: 0 <= i < |d| ==> '0' <= d[i] <= '9' || d[i] == '.'
  }

  /** `e`, perhaps a sign, and digits. */
  predicate IsExponent(x: string) {
    && |x| >= 2 && (x[0] == 'e' || x[0] == 'E')
    && (IsDigits(x[1..]) || (|x| >= 3 && (x[1] == '+' || x[1] == '-') && IsDigits(x[2..])))
  }

  predicate BeginsExponent(s: string) {
    && |s| >= 2 && (s[0] == 'e' || s[0] == 'E')
    && ('0' <= s[1] <= '9' || (|s| >= 3 && (s[1] == '+' || s[1] == '-') && '0' <= s[2] <= '9'))
  }

  predicate BeginsDigit(s: string) {
    s != "" && '0' <= s[0] <= '9'
  }

  /** What follows does not go on with the number `d + x`. */
  predicate NumberEnds(d: string, x: string, rest: string) {
    if x != "" then !BeginsDigit(rest)
    else !BeginsDigit(rest) && (rest == "" || rest[0] != '.') && !BeginsExponent(rest)
  }

  lemma ExponentIsRead(x: string, rest: string)
    requires (x == "" && !BeginsExponent(rest)) || (IsExponent(x) && !BeginsDigit(rest))
    ensures ExponentLen(x + rest) == |x|
  {
    var s := x + rest;
    if x == "" {
      assert s == rest;
    } else if IsDigits(x[1..]) {
      assert s[0] == x[0] && s[1] == x[1] && x[1..][0] == x[1];
      assert s[1..] == x[1..] + rest;
      RunOf(x[1..], rest, IsAsciiDigit);
    } else {
      assert s[0] == x[0] && s[1] == x[1] && s[2] == x[2] && x[2..][0] == x[2];
      assert s[2..] == x[2..] + rest;
      RunOf(x[2..], rest, IsAsciiDigit);
    }
  }

  lemma NumberIsRead(tail: string, x: string, rest: string, hexPrefix: bool)
    requires forall i :: 0 <= i < |tail| ==> '0' <= tail[i] <= '9' || tail[i] == '.'
    requires x == "" || IsExponent(x)
    requires NumberEnds(tail, x, rest)
    requires hexPrefix && tail == "" && x == "" ==> rest == "" || (rest[0] != 'x' && rest[0] != 'X')
    ensures NumberTail(tail + (x + rest), hexPrefix) == |tail| + |x|
  {
    hide RunLen, ExponentLen;
    var s := tail + (x + rest);
    RunOf(tail, x + rest, IsDigitOrDot);
    assert s[|tail|..] == x + rest;
    ExponentIsRead(x, rest);
    assert s != "" ==> s[0] == if tail != "" then tail[0] else if x != "" then x[0] else rest[0];
  }

  /** An integer, decimal or scientific literal becomes one placeholder, and what follows is read on its own. */
  lemma NumberIsOnePlaceholder(d: string, x: string, rest: string, mayGap: bool)
    requires IsDecimal(d) && (x == "" || IsExponent(x)) && NumberEnds(d, x, rest)
    requires d == "0" && x == "" ==> rest == "" || (rest[0] != 'x' && rest[0] != 'X')
    ensures Norm(d + (x + rest), mayGap) == "?" + Norm(rest, true)
  {
    hide NumberTail, Norm, NumberEnds, IsExponent;
    var s := d + (x + rest);
    assert s[0] == d[0] && s[1..] == d[1..] + (x + rest);
    assert NumberEnds(d[1..], x, rest) by { NumberEndsByTail(d, d[1..], x, rest); }
    NumberIsRead(d[1..], x, rest, d[0] == '0');
    NormStep(s, mayGap);
    assert s[|d| + |x|..] == rest;
    assert !IsWhitespace(d[0]) && d[0] != '\'';
  }

  lemma NumberEndsByTail(d: string, d': string, x: string, rest: string)
    requires NumberEnds(d, x, rest)
    ensures NumberEnds(d', x, rest)
  {
  }

  /** A sign belongs to the number after it. */
  lemma SignedNumberIsOnePlaceholder(sign: char, d: string, x: string, rest: string, mayGap: bool)
    requires (sign == '-' || sign == '+') && IsDecimal(d) && (x == "" || IsExponent(x)) && NumberEnds(d, x, rest)
    ensures Norm([sign] + (d + (x + rest)), mayGap) == "?" + Norm(rest, true)
  {
    hide NumberTail, Norm, NumberEnds, IsExponent;
    var s := [sign] + (d + (x + rest));
    assert s[0] == sign && s[1] == d[0] && s[2..] == d[1..] + (x + rest);
    assert NumberEnds(d[1..], x, rest) by { NumberEndsByTail(d, d[1..], x, rest); }
    NumberIsRead(d[1..], x, rest, false);
    NormStep(s, mayGap);
    assert s[1 + |d| + |x|..] == rest;
    assert !IsWhitespace(sign) && sign != '\'';
  }

  predicate IsHexDigits(s: string) {
    forall i :: 0 <= i < |s| ==> '0' <= s[i] <= '9' || 'a' <= s[i] <= 'f' || 'A' <= s[i] <= 'F'
  }

  /** So does a hexadecimal literal. */
  lemma HexIsOnePlaceholder(mark: char, h: string, rest: string, mayGap: bool)
    requires (mark == 'x' || mark == 'X') && IsHexDigits(h) && (rest == "" || !IsHexDigits(rest[..1]))
    ensures Norm("0" + ([mark] + (h + rest)), mayGap) == "?" + Norm(rest, true)
  {
    hide RunLen, Norm;
    var s := "0" + ([mark] + (h + rest));
    assert s[0] == '0' && s[1..] == [mark] + (h + rest) && s[1..][1..] == h + rest;
    assert rest != "" ==> rest[..1][0] == rest[0];
    RunOf(h, rest, IsAsciiHexDigit);
    NormStep(s, mayGap);
    assert s[2 + |h|..] == rest;
  }

  /** Blanks become one space, or none where a space is already written. */
  lemma BlanksAreOneSpace(b: string, rest: string, mayGap: bool)
    requires b != "" && Blank(b) && (rest == "" || !IsWhitespace(rest[0]))
    ensures Norm(b + rest, mayGap) == (if mayGap then " " else "") + Norm(rest, false)
  {
    hide RunLen, Norm;
    var s := b + rest;
    assert s[0] == b[0] && s[1..] == b[1..] + rest;
    assert forall i :: 0 <= i < |b| - 1 ==> IsWhitespace(b[1..][i]);
    RunOf(b[1..], rest, IsWhitespace);
    NormStep(s, mayGap);
    assert s[|b|..] == rest;
    BlankIsNoToken(b[0]);
  }

  lemma BlankIsNoToken(c: char)
    requires IsWhitespace(c)
    ensures c != '\'' && !IsAsciiDigit(c) && c != '-' && c != '+'
  {
  }

  /** Any other character is kept. */
  lemma OthersAreKept(c: char, rest: string, mayGap: bool)
    requires c != '\'' && !('0' <= c <= '9') && !IsWhitespace(c) && (c == '-' || c == '+' ==> !BeginsDigit(rest))
    ensures Norm([c] + rest, mayGap) == [c] + Norm(rest, true)
  {
    hide Norm;
    var s := [c] + rest;
    assert s[1..] == rest;
    assert rest != "" ==> s[1] == rest[0];
    NormStep(s, mayGap);
  }

  /** A digest holds at most 1000 characters of the normalised text; a longer one is cut and marked. */
  lemma DigestIsCutAt1000(sql: string)
    ensures |Norm(sql, false)| <= 1000 ==> Digest(sql) == Norm(sql, false)
    ensures |Norm(sql, false)| > 1000 ==> |Digest(sql)| == 1001 && Digest(sql)[..1000] == Norm(sql, false)[..1000] && Digest(sql)[1000] == '\U{2026}'
  {
    hide Norm;
  }
}
