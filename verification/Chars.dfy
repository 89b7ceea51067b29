/** Character classes and trimming shared by the text-processing modules. */
module Chars {

  /** The Unicode White_Space property, which both `char::is_whitespace` and `str::trim` use. */
  predicate IsWhitespace(c: char) {
    || '\t' <= c <= '\r'
    || c == ' '
    || c == '\U{85}'
    || c == '\U{A0}'
    || c == '\U{1680}'
    || '\U{2000}' <= c <= '\U{200A}'
    || c == '\U{2028}'
    || c == '\U{2029}'
    || c == '\U{202F}'
    || c == '\U{205F}'
    || c == '\U{3000}'
  }

  predicate IsAsciiDigit(c: char) {
    '0' <= c <= '9'
  }

  predicate IsAsciiHexDigit(c: char) {
    IsAsciiDigit(c) || 'a' <= c <= 'f' || 'A' <= c <= 'F'
  }

  predicate IsAscii(c: char) {
    c < '\U{80}'
  }

  predicate AllAscii(s: string) {
    forall i :: 0 <= i < |s| ==> IsAscii(s[i])
  }

  function ToAsciiUppercase(c: char): char {
    if 'a' <= c <= 'z' then (c as int - 32) as char else c
  }

  /** The Unicode letter and number tables outside ASCII. Every theorem holds for every such table. */
  datatype Unicode = Unicode(letter: char -> bool)

  /** `char::is_alphanumeric`: exact on ASCII, by table elsewhere; no white space is alphanumeric. */
  predicate IsAlphanumeric(u: Unicode, c: char) {
    || IsAsciiDigit(c) || 'a' <= c <= 'z' || 'A' <= c <= 'Z'
    || (!IsAscii(c) && !IsWhitespace(c) && u.letter(c))
  }

  /** The number of bytes of `c` in UTF-8 (section 3 of RFC 3629). */
  function Utf8Width(c: char): (n: nat)
    ensures 1 <= n <= 4
    ensures n == 1 <==> IsAscii(c)
  {
    if c < '\U{80}' then 1 else if c < '\U{800}' then 2 else if c < '\U{10000}' then 3 else 4
  }

  /** `str::len`: the UTF-8 length of a string. */
  function Utf8Len(s: string): (n: nat)
    ensures |s| <= n
    ensures n == |s| <==> AllAscii(s)
  {
    if s == "" then 0
    else
      assert AllAscii(s) <==> IsAscii(s[0]) && AllAscii(s[1..]) by {
        assert forall i :: 0 <= i < |s| - 1 ==> s[1..][i] == s[i + 1];
      }
      Utf8Width(s[0]) + Utf8Len(s[1..])
  }

  predicate Blank(s: string) {
    forall i :: 0 <= i < |s| ==> IsWhitespace(s[i])
  }

  /** One more blank in front of what was trimmed. */
  lemma OneMoreBefore(s: string, r: string)
    requires s != "" && IsWhitespace(s[0]) && |r| < |s|
    requires r == s[1..][|s| - 1 - |r|..] && Blank(s[1..][..|s| - 1 - |r|])
    ensures r == s[|s| - |r|..] && Blank(s[..|s| - |r|])
  {
    hide IsWhitespace;
    var n := |s| - |r|;
    assert forall i :: 0 < i < n ==> s[..n][i] == s[1..][..n - 1][i - 1];
  }

  /** One more blank behind it. */
  lemma OneMoreBehind(s: string, r: string)
    requires s != "" && IsWhitespace(s[|s| - 1]) && |r| < |s|
    requires r == s[..|s| - 1][..|r|] && Blank(s[..|s| - 1][|r|..])
    ensures r == s[..|r|] && Blank(s[|r|..])
  {
    hide IsWhitespace;
    assert forall i :: 0 <= i < |s| - 1 - |r| ==> s[|r|..][i] == s[..|s| - 1][|r|..][i];
  }

  function TrimStart(s: string): (r: string)
    ensures |r| <= |s| && r == s[|s| - |r|..]
    ensures Blank(s[..|s| - |r|])
    ensures r != "" ==> !IsWhitespace(r[0])
  {
    if s != "" && IsWhitespace(s[0]) then
      var r := TrimStart(s[1..]);
      OneMoreBefore(s, r);
      r
    else s
  }

  function TrimEnd(s: string): (r: string)
    ensures |r| <= |s| && r == s[..|r|]
    ensures Blank(s[|r|..])
    ensures r != "" ==> !IsWhitespace(r[|r| - 1])
  {
    if s != "" && IsWhitespace(s[|s| - 1]) then
      var r := TrimEnd(s[..|s| - 1]);
      OneMoreBehind(s, r);
      r
    else s
  }

  /** `str::trim`. */
  function Trim(s: string): (r: string)
    ensures r != "" ==> !IsWhitespace(r[0]) && !IsWhitespace(r[|r| - 1])
  {
    TrimEnd(TrimStart(s))
  }

  /** The number of leading white-space characters `Trim` removes. */
  function Leading(s: string): nat {
    |s| - |TrimStart(s)|
  }

  /** Trimming keeps one slice of the string, and only blanks surround it. */
  lemma TrimIsSlice(s: string)
    ensures Leading(s) + |Trim(s)| <= |s|
    ensures Trim(s) == s[Leading(s)..Leading(s) + |Trim(s)|]
    ensures Blank(s[..Leading(s)]) && Blank(s[Leading(s) + |Trim(s)|..])
  {
    hide IsWhitespace, TrimStart, TrimEnd;
    var a := TrimStart(s);
    var r := TrimEnd(a);
    assert a[|r|..] == s[Leading(s) + |r|..];
    assert r == s[Leading(s)..][..|r|];
  }

  lemma TrimBlank(s: string)
    ensures Trim(s) == "" <==> Blank(s)
  {
    TrimIsSlice(s);
    if Trim(s) == "" {
      assert s == s[..Leading(s)] + s[Leading(s)..];
    } else {
      assert s[Leading(s)] == Trim(s)[0];
    }
  }

  lemma TrimFixed(s: string)
    requires s != "" ==> !IsWhitespace(s[0]) && !IsWhitespace(s[|s| - 1])
    ensures Trim(s) == s
  {
  }

  lemma BlankConcat(a: string, b: string)
    ensures Blank(a + b) <==> Blank(a) && Blank(b)
  {
    if Blank(a + b) {
      assert forall i :: 0 <= i < |a| ==> a[i] == (a + b)[i];
      assert forall i :: 0 <= i < |b| ==> b[i] == (a + b)[|a| + i];
    }
  }

  // ── The tables ──

  /** The 25 white-space characters. */
  lemma WhitespaceExactly(c: char)
    ensures IsWhitespace(c) <==>
            c as int in {0x9, 0xA, 0xB, 0xC, 0xD, 0x20, 0x85, 0xA0, 0x1680, 0x2000, 0x2001, 0x2002, 0x2003, 0x2004, 0x2005, 0x2006,
                         0x2007, 0x2008, 0x2009, 0x200A, 0x2028, 0x2029, 0x202F, 0x205F, 0x3000}
  {
  }

  /** Case mapping moves the 26 small letters onto the capital ones and nothing else. */
  lemma UppercaseExactly(c: char)
    ensures if 'a' <= c <= 'z' then 'A' <= ToAsciiUppercase(c) <= 'Z' && ToAsciiUppercase(c) as int - 'A' as int == c as int - 'a' as int
            else ToAsciiUppercase(c) == c
  {
  }

  /** How many code points fit in `n` bytes of UTF-8: 7 bits in one, 5n + 1 bits in more. */
  function Utf8Capacity(n: nat): nat
    requires 1 <= n <= 4
  {
    match n case 1 => 0x80 case 2 => 0x800 case 3 => 0x1_0000 case 4 => 0x20_0000
  }

  /** A character takes the fewest bytes it fits in. */
  lemma Utf8WidthIsLeast(c: char, n: nat)
    requires 1 <= n <= 4
    ensures Utf8Width(c) <= n <==> (c as int) < Utf8Capacity(n)
  {
  }

  /** On ASCII the alphanumeric characters are the digits and the letters. */
  lemma AsciiAlphanumericExactly(u: Unicode, c: char)
    requires c as int < 0x80
    ensures IsAlphanumeric(u, c) <==> '0' <= c <= '9' || 'A' <= ToAsciiUppercase(c) <= 'Z'
  {
  }
}
