/**
 Whole scripts with a block: a routine whose inner ENDs close nothing is one statement, and a block that
 is never closed takes the rest of the script with it.
 */
module SqlSplitBlocks {
  import opened Chars
  import opened Wrappers
  import opened SqlSplit
  import opened SqlSplitStability
  import opened SqlSplitTokens

  /** No comment and no quoted string starts with it. */
  predicate CodeChar(c: char) {
    c != '#' && c != '-' && c != '/' && c != '\'' && c != '"' && c != '`'
  }

  /** `run`, followed by `tail`, has no comment, no quote and no BEGIN. */
  predicate PlainBefore(u: Unicode, run: string, tail: string) {
    forall i :: 0 <= i < |run| ==> CodeChar(run[i]) && !MatchKeyword(u, (run + tail)[i..], "BEGIN")
  }

  lemma PlainTail(u: Unicode, run: string, tail: string)
    requires run != "" && PlainBefore(u, run, tail)
    ensures CodeChar(run[0]) && !MatchKeyword(u, run + tail, "BEGIN") && PlainBefore(u, run[1..], tail)
  {
    hide MatchKeyword, CodeChar;
    assert (run + tail)[0..] == run + tail;
    forall i | 0 <= i < |run| - 1 ensures CodeChar(run[1..][i]) && !MatchKeyword(u, (run[1..] + tail)[i..], "BEGIN") {
      assert (run[1..] + tail)[i..] == (run + tail)[i + 1..];
      assert run[1..][i] == run[i + 1];
    }
  }

  /** One character that belongs to the statement being read. */
  lemma KeepStep(u: Unicode, s: string, m: Mode, buf: string)
    requires m.delim == ";" && s != "" && CodeChar(s[0]) && !MatchKeyword(u, s, "BEGIN")
    requires m.blank ==> !IsWhitespace(s[0]) && !MatchKeyword(u, s, "DELIMITER")
    requires if m.depth == 0 then s[0] != ';' else !ClosesBlock(u, s, ";")
    ensures Read(u, s, m, buf) == Read(u, s[1..], Mode(";", m.depth, false), buf + s[..1])
  {
    hide Read, LineLen, BlockLen, QuotedLen, MatchKeyword, ClosesBlock, IsWhitespace, Utf8Len;
    SemicolonWidth();
    var t := Scan(u, s, m);
    assert t.text == s[..1] && t.Kept() == s[..1] && !Cuts(t, m.depth);
    ReadStep(u, s, m, buf, t);
  }

  lemma {:induction false} PlainRun(u: Unicode, run: string, tail: string, buf: string)
    requires PlainBefore(u, run, tail) && ';' !in run
    ensures Read(u, run + tail, Mode(";", 0, false), buf) == Read(u, tail, Mode(";", 0, false), buf + run)
  {
    hide Read, MatchKeyword, CodeChar, PlainBefore;
    if run == "" {
      assert run + tail == tail && buf + run == buf;
    } else {
      PlainTail(u, run, tail);
      assert (run + tail)[0] == run[0] && run[0] in run && (run + tail)[1..] == run[1..] + tail;
      KeepStep(u, run + tail, Mode(";", 0, false), buf);
      assert (run + tail)[..1] == run[..1];
      PlainRun(u, run[1..], tail, buf + run[..1]);
      assert buf + run[..1] + run[1..] == buf + run;
    }
  }

  /** The text before BEGIN: it starts with a non-blank and holds no terminator, comment, quote, BEGIN or DELIMITER. */
  predicate Header(u: Unicode, h: string, tail: string) {
    h != "" && !IsWhitespace(h[0]) && ';' !in h && PlainBefore(u, h, tail) && !MatchKeyword(u, h + tail, "DELIMITER")
  }

  lemma HeaderIsRead(u: Unicode, h: string, w: string, tail: string)
    requires Spells(w, "BEGIN") && WordEnds(u, tail) && Header(u, h, w + tail)
    ensures Split(u, h + (w + tail)) == Read(u, tail, Mode(";", 1, false), h + w)
  {
    hide Read, MatchKeyword, CodeChar, PlainBefore, IsWhitespace, Scan;
    var s := h + (w + tail);
    PlainTail(u, h, w + tail);
    assert s[0] == h[0] && h[0] in h && s[1..] == h[1..] + (w + tail);
    KeepStep(u, s, INITIAL, "");
    assert "" + s[..1] == h[..1];
    PlainRun(u, h[1..], w + tail, h[..1]);
    assert h[..1] + h[1..] == h;
    BeginIsAWord(u, w, tail, Mode(";", 0, false));
    ReadStep(u, w + tail, Mode(";", 0, false), h, Token(Begin, w));
    assert (w + tail)[|w|..] == tail;
  }

  // ── A routine with inner ENDs ──

  /** After an END: blanks, then on the same line something that is no terminator, or a line break. */
  predicate GoesOn(t: string) {
    exists n :: 0 <= n < |t| && LineOfBlanks(t[..n]) && (!IsWhitespace(t[n]) || t[n] == '\n') && t[n] != ';'
  }

  /** Every END in `x` is followed by something that keeps the block open. */
  predicate EndsGoOn(u: Unicode, x: string, tail: string) {
    forall i :: 0 <= i < |x| && MatchKeyword(u, (x + tail)[i..], "END") ==> GoesOn((x + tail)[i + 3..])
  }

  lemma EndTail(u: Unicode, x: string, tail: string)
    requires x != "" && EndsGoOn(u, x, tail)
    ensures MatchKeyword(u, x + tail, "END") ==> GoesOn((x + tail)[3..])
    ensures EndsGoOn(u, x[1..], tail)
  {
    hide MatchKeyword, GoesOn;
    assert (x + tail)[0..] == x + tail;
    forall i | 0 <= i < |x| - 1 && MatchKeyword(u, (x[1..] + tail)[i..], "END") ensures GoesOn((x[1..] + tail)[i + 3..]) {
      assert (x[1..] + tail)[i..] == (x + tail)[i + 1..];
      assert (x[1..] + tail)[i + 3..] == (x + tail)[i + 1 + 3..];
    }
  }

  lemma GoingOnClosesNothing(u: Unicode, s: string)
    requires MatchKeyword(u, s, "END") ==> GoesOn(s[3..])
    ensures !ClosesBlock(u, s, ";")
  {
    hide MatchKeyword, IsWhitespace, LineBlanks, LineOfBlanks;
    if MatchKeyword(u, s, "END") {
      var t := s[3..];
      var n :| 0 <= n < |t| && LineOfBlanks(t[..n]) && (!IsWhitespace(t[n]) || t[n] == '\n') && t[n] != ';';
      BlanksCounted(t[..n], t[n..]);
      assert t[..n] + t[n..] == t;
      assert s[3 + n..][0] == t[n];
    }
  }

  lemma {:induction false} BodyRun(u: Unicode, x: string, tail: string, buf: string)
    requires PlainBefore(u, x, tail) && EndsGoOn(u, x, tail)
    ensures Read(u, x + tail, Mode(";", 1, false), buf) == Read(u, tail, Mode(";", 1, false), buf + x)
  {
    hide Read, MatchKeyword, CodeChar, PlainBefore, EndsGoOn, GoesOn, ClosesBlock;
    if x == "" {
      assert x + tail == tail && buf + x == buf;
    } else {
      PlainTail(u, x, tail);
      EndTail(u, x, tail);
      GoingOnClosesNothing(u, x + tail);
      assert (x + tail)[0] == x[0] && (x + tail)[1..] == x[1..] + tail;
      KeepStep(u, x + tail, Mode(";", 1, false), buf);
      assert (x + tail)[..1] == x[..1];
      BodyRun(u, x[1..], tail, buf + x[..1]);
      assert buf + x[..1] + x[1..] == buf + x;
    }
  }

  lemma ClosingIsRead(u: Unicode, e: string, buf: string)
    requires Spells(e, "END")
    ensures Read(u, e + ";", Mode(";", 1, false), buf) == Flush(buf + e)
  {
    hide Read, Scan, Flush, ToAsciiUppercase;
    var m := Mode(";", 1, false);
    assert e + ("" + ";") == e + ";" && "" + ";" == ";";
    assert (e + ";")[0] == e[0] && ToAsciiUppercase(e[0]) == 'E';
    assert ToAsciiUppercase(';') == ';' by { SemicolonStays(); }
    assert WordEnds(u, ";");
    EndClosesExactly(u, e, "", ";", m);
    EndText(u, e, m);
    ReadStep(u, e + ";", m, buf, Token(End, e));
    assert (e + ";")[3..] == ";";
    SemicolonWidth();
    ScanOrdinary(u, ";", Mode(";", 0, false));
    ReadStep(u, ";", Mode(";", 0, false), buf + e, Token(Terminator(";"), ";"));
    assert ";"[1..] == "";
    ReadEnd(u, INITIAL, "");
    assert Flush("") == [] by { EmptyFlush(); }
  }

  lemma SemicolonStays()
    ensures ToAsciiUppercase(';') == ';'
  {
  }

  lemma EmptyFlush()
    ensures Flush("") == []
  {
  }

  lemma EndText(u: Unicode, e: string, m: Mode)
    requires m.delim == ";" && |e| == 3 && Scan(u, e + ";", m).kind.End?
    ensures Scan(u, e + ";", m) == Token(End, e)
  {
    hide LineLen, BlockLen, QuotedLen, MatchKeyword, ClosesBlock, Utf8Len;
    assert (e + ";")[..3] == e;
  }

  /**
   A routine is one statement: terminators inside its block end nothing, and neither does an END that is
   followed on its line by anything but the terminator, as in `END IF`, or by a line break.
   */
  lemma RoutineIsOneStatement(u: Unicode, h: string, w: string, x: string, e: string)
    requires Spells(w, "BEGIN") && Spells(e, "END") && WordEnds(u, x + (e + ";"))
    requires Header(u, h, w + (x + (e + ";")))
    requires PlainBefore(u, x, e + ";") && EndsGoOn(u, x, e + ";")
    ensures Split(u, h + (w + (x + (e + ";")))) == [h + w + x + e]
  {
    hide Read, MatchKeyword, PlainBefore, EndsGoOn, Trim, IsWhitespace;
    HeaderIsRead(u, h, w, x + (e + ";"));
    BodyRun(u, x, e + ";", h + w);
    ClosingIsRead(u, e, h + w + x);
    var st := h + w + x + e;
    assert st[0] == h[0] && st[|st| - 1] == e[2];
    assert !IsWhitespace(e[2]) by { LettersAreNoBlanks(e); }
    TrimFixed(st);
  }

  /** `END IF` inside a routine does not tear it apart. */
  lemma EndIfIsKept(u: Unicode)
    ensures Split(u, "A BEGIN END IF;C; END;") == ["A BEGIN END IF;C; END"]
  {
    hide Split, MatchKeyword, Header;
    var h, w, x, e := "A ", "BEGIN", " END IF;C; ", "END";
    assert Spells(w, "BEGIN") && Spells(e, "END");
    OnlyOneEnd(u, x, e + ";");
    NoBeginInside(u, h, w + (x + (e + ";")));
    NoBeginInside(u, x, e + ";");
    assert Header(u, h, w + (x + (e + ";"))) by { HeaderOfA(u, w + (x + (e + ";"))); }
    RoutineIsOneStatement(u, h, w, x, e);
    assert h + (w + (x + (e + ";"))) == "A BEGIN END IF;C; END;" && h + w + x + e == "A BEGIN END IF;C; END";
  }

  lemma HeaderOfA(u: Unicode, tail: string)
    ensures Header(u, "A ", tail)
  {
    NoBeginInside(u, "A ", tail);
    assert ("A " + tail)[0] == 'A';
  }

  /** Text without the letter B holds no BEGIN. */
  lemma NoBeginInside(u: Unicode, run: string, tail: string)
    requires forall i :: 0 <= i < |run| ==> CodeChar(run[i]) && ToAsciiUppercase(run[i]) != 'B'
    ensures PlainBefore(u, run, tail)
  {
    forall i | 0 <= i < |run| ensures CodeChar(run[i]) && !MatchKeyword(u, (run + tail)[i..], "BEGIN") {
      assert (run + tail)[i..][0] == run[i];
    }
  }

  lemma OnlyOneEnd(u: Unicode, x: string, tail: string)
    requires x == " END IF;C; "
    ensures EndsGoOn(u, x, tail)
  {
    var s := x + tail;
    forall i | 0 <= i < |x| && MatchKeyword(u, s[i..], "END") ensures GoesOn(s[i + 3..]) {
      assert s[i..][0] == x[i] && ToAsciiUppercase(x[i]) == 'E';
      assert i == 1;
      var t := s[4..];
      assert t[0] == ' ' && t[1] == 'I' && LineOfBlanks(t[..1]);
    }
  }

  lemma LettersAreNoBlanks(e: string)
    requires Spells(e, "END")
    ensures !IsWhitespace(e[2])
  {
    assert ToAsciiUppercase(e[2]) == 'D';
  }

  // ── An open block takes all that follows ──

  predicate HasNoEnd(u: Unicode, s: string) {
    forall i :: 0 <= i < |s| ==> !MatchKeyword(u, s[i..], "END")
  }

  lemma TailHasNoEnd(u: Unicode, s: string, n: nat)
    requires HasNoEnd(u, s) && n <= |s|
    ensures HasNoEnd(u, s[n..])
  {
    hide MatchKeyword;
    forall i | 0 <= i < |s| - n ensures !MatchKeyword(u, s[n..][i..], "END") {
      assert s[n..][i..] == s[n + i..];
    }
  }

  lemma ScanInOpenBlock(u: Unicode, s: string, m: Mode)
    requires m.delim == ";" && m.depth > 0 && !m.blank && s != "" && HasNoEnd(u, s)
    ensures var t := Scan(u, s, m);
            && !Cuts(t, m.depth)
            && After(m, t).delim == ";" && After(m, t).depth > 0 && !After(m, t).blank
  {
    hide MatchKeyword, LineLen, BlockLen, QuotedLen, Utf8Len;
    assert s[0..] == s && !MatchKeyword(u, s[0..], "END");
  }

  lemma {:induction false} OpenBlockTakesAll(u: Unicode, s: string, m: Mode)
    requires m.delim == ";" && m.depth > 0 && !m.blank && HasNoEnd(u, s)
    ensures SegmentLen(u, s, m) == |s|
    decreases |s|
  {
    hide Scan, SegmentLen, HasNoEnd, Cuts, After;
    if s == "" {
      NothingLeft(u, m);
    } else {
      var t := Scan(u, s, m);
      SegmentHead(u, s, m);
      ScanInOpenBlock(u, s, m);
      TailHasNoEnd(u, s, |t.text|);
      OpenBlockTakesAll(u, s[|t.text|..], After(m, t));
    }
  }

  /** After an opening BEGIN whatever follows belongs to the one statement, as long as it holds no END. */
  lemma OpenBeginIsOneStatement(u: Unicode, h: string, w: string, x: string)
    requires Spells(w, "BEGIN") && WordEnds(u, x) && Header(u, h, w + x) && HasNoEnd(u, x)
    requires x != "" && !IsWhitespace(x[|x| - 1])
    ensures Split(u, h + (w + x)) == [h + (w + x)]
  {
    hide SegmentLen, Read, Trim, HasNoEnd, IsWhitespace, MatchKeyword, PlainBefore;
    HeaderIsRead(u, h, w, x);
    OpenBlockTakesAll(u, x, Mode(";", 1, false));
    ReadUncut(u, x, Mode(";", 1, false), h + w);
    var st := h + (w + x);
    assert h + w + x == st && st[0] == h[0] && st[|st| - 1] == x[|x| - 1];
    TrimFixed(st);
  }
}
