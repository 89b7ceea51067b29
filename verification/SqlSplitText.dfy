/** Splitting loses no text: pieces and the tokens between them rebuild the script. */
module SqlSplitText {
  import opened Chars
  import opened Wrappers
  import opened SqlSplit
  import opened SqlSplitTheorems

  /** The script as the pieces record it: each body, then the delimiter or directive line that ended it. */
  function Rebuilt(ps: seq<Piece>): string {
    if ps == [] then ""
    else ps[0].body + CutText(ps[0].cut) + Rebuilt(ps[1..])
  }

  function CutText(cut: Option<Token>): string {
    match cut
    case None => ""
    case Some(t) => if t.kind.Terminator? then t.kind.delim else t.text
  }

  /** The text a token stands for. */
  function Spelled(t: Token): string {
    if t.kind.Terminator? then t.kind.delim else t.text
  }

  function AllSpelled(ts: seq<Token>): string {
    if ts == [] then "" else Spelled(ts[0]) + AllSpelled(ts[1..])
  }

  lemma RebuiltHead(p: Piece, ps: seq<Piece>)
    ensures Rebuilt([p] + ps) == p.body + CutText(p.cut) + Rebuilt(ps)
  {
    assert ([p] + ps)[1..] == ps;
  }

  lemma NothingRebuilt()
    ensures Rebuilt([]) == ""
  {
  }

  lemma {:induction false} RebuiltPieces(ts: seq<Token>, depth: nat, buf: string)
    ensures Rebuilt(Pieces(ts, depth, buf)) == buf + AllSpelled(ts)
    decreases |ts|
  {
    hide Rebuilt;
    if ts == [] {
      assert [Piece(buf, None)] + [] == [Piece(buf, None)];
      RebuiltHead(Piece(buf, None), []);
      NothingRebuilt();
    } else if Cuts(ts[0], depth) {
      RebuiltPieces(ts[1..], depth, "");
      RebuiltHead(Piece(buf, Some(ts[0])), Pieces(ts[1..], depth, ""));
      Regroup(buf, Spelled(ts[0]), AllSpelled(ts[1..]));
    } else {
      RebuiltPieces(ts[1..], DepthAfter(ts[0], depth), buf + ts[0].Kept());
      Regroup(buf, Spelled(ts[0]), AllSpelled(ts[1..]));
    }
  }

  lemma Regroup(a: string, b: string, c: string)
    ensures a + b + c == a + (b + c) && "" + c == c
  {
  }

  /** Every terminator consumed exactly the delimiter in force. */
  predicate ConsumesDelimiters(ts: seq<Token>) {
    forall k :: 0 <= k < |ts| ==> Spelled(ts[k]) == ts[k].text
  }

  /** The loop steps over a terminator by its UTF-8 length, so a longer step eats what follows it. */
  lemma TerminatorConsumes(u: Unicode, s: string, m: Mode)
    requires m.delim != "" && s != "" && Scan(u, s, m).kind.Terminator?
    ensures Spelled(Scan(u, s, m)) <= Scan(u, s, m).text
    ensures Spelled(Scan(u, s, m)) == Scan(u, s, m).text <==> AllAscii(m.delim) || |s| == |m.delim|
  {
    hide MatchKeyword, ClosesBlock, LineLen, BlockLen, QuotedLen;
    assert MatchesStr(s, m.delim);
  }

  lemma SpelledFits(u: Unicode, s: string, m: Mode)
    requires m.delim != "" && s != ""
    ensures |Spelled(Scan(u, s, m))| <= |Scan(u, s, m).text|
    ensures |Spelled(Scan(u, s, m))| == |Scan(u, s, m).text| ==> Spelled(Scan(u, s, m)) == Scan(u, s, m).text
  {
    hide Scan;
    if Scan(u, s, m).kind.Terminator? {
      TerminatorConsumes(u, s, m);
    }
  }

  lemma ConsumesHead(t: Token, ts: seq<Token>)
    ensures ConsumesDelimiters([t] + ts) <==> Spelled(t) == t.text && ConsumesDelimiters(ts)
    ensures AllSpelled([t] + ts) == Spelled(t) + AllSpelled(ts)
  {
    hide Spelled;
    var all := [t] + ts;
    assert all[0] == t && all[1..] == ts;
    assert forall k :: 0 <= k < |ts| ==> all[k + 1] == ts[k];
    if ConsumesDelimiters(all) {
      forall k | 0 <= k < |ts| ensures Spelled(ts[k]) == ts[k].text {
        assert Spelled(all[k + 1]) == all[k + 1].text;
      }
    }
  }

  lemma NothingSpelled()
    ensures AllSpelled([]) == "" && ConsumesDelimiters([])
  {
  }

  lemma {:induction false} SpelledLength(u: Unicode, s: string, m: Mode)
    requires m.delim != ""
    ensures |AllSpelled(Lex(u, s, m))| <= |s|
    ensures AllSpelled(Lex(u, s, m)) == s <==> ConsumesDelimiters(Lex(u, s, m))
    decreases |s|
  {
    hide Scan, Lex, AllSpelled, ConsumesDelimiters, Spelled;
    if s == "" {
      LexEmpty(u, m);
      NothingSpelled();
    } else {
      var t := Scan(u, s, m);
      var rest := s[|t.text|..];
      var ts := Lex(u, rest, After(m, t));
      LexHead(u, s, m);
      SpelledFits(u, s, m);
      SpelledLength(u, rest, After(m, t));
      ConsumesHead(t, ts);
      SameConcat(Spelled(t), AllSpelled(ts), t.text, rest);
      assert s == t.text + rest;
    }
  }

  /** Two concatenations of parts no longer than the others are equal only part by part. */
  lemma SameConcat(a: string, b: string, c: string, d: string)
    requires |a| <= |c| && |b| <= |d| && (|a| == |c| ==> a == c)
    ensures a + b == c + d <==> a == c && b == d
  {
    if a + b == c + d {
      assert |a| == |c|;
      assert (a + b)[|a|..] == b && (c + d)[|c|..] == d;
    }
  }

  /** The step over each terminator is as long as its delimiter: it is ASCII, or the input ends with it. */
  predicate StepsFit(ts: seq<Token>) {
    forall k :: 0 <= k < |ts| && ts[k].kind.Terminator? ==>
      AllAscii(ts[k].kind.delim) || (k == |ts| - 1 && |ts[k].text| == |ts[k].kind.delim|)
  }

  lemma TerminatorFits(u: Unicode, s: string, m: Mode, k: nat)
    requires m.delim != "" && (m.depth > 0 ==> !m.blank)
    requires k < |Lex(u, s, m)| && Lex(u, s, m)[k].kind.Terminator?
    ensures var ts := Lex(u, s, m); var t := ts[k];
            Spelled(t) == t.text <==> AllAscii(t.kind.delim) || (k == |ts| - 1 && |t.text| == |t.kind.delim|)
  {
    hide Lex, Scan;
    var ts := Lex(u, s, m);
    LexAt(u, s, m, k);
    var (s', m') := At(u, s, m, k);
    var t := ts[k];
    TerminatorConsumes(u, s', m');
    LexHead(u, s', m');
    assert ts[k + 1..] == ts[k..][1..];
    if |s'| == |m'.delim| {
      assert s'[|t.text|..] == "";
      LexEmpty(u, After(m', t));
    }
  }

  lemma ConsumesExactlyWhenStepsFit(u: Unicode, script: string)
    ensures ConsumesDelimiters(Lex(u, script, INITIAL)) <==> StepsFit(Lex(u, script, INITIAL))
  {
    hide Lex;
    var ts := Lex(u, script, INITIAL);
    forall k | 0 <= k < |ts| && ts[k].kind.Terminator?
      ensures Spelled(ts[k]) == ts[k].text <==>
              AllAscii(ts[k].kind.delim) || (k == |ts| - 1 && |ts[k].text| == |ts[k].kind.delim|)
    {
      TerminatorFits(u, script, INITIAL, k);
    }
  }

  /**
   Splitting loses nothing exactly when every terminator consumed no more than its delimiter, that is,
   when each is ASCII or just fits the end of the input: then the bodies, the delimiters that ended them
   and the dropped DELIMITER lines rebuild the script.
   */
  lemma SplitLosesNothing(u: Unicode, script: string)
    ensures var ts := Lex(u, script, INITIAL);
            && (Rebuilt(Pieces(ts, 0, "")) == script <==> ConsumesDelimiters(ts))
            && (Rebuilt(Pieces(ts, 0, "")) == script <==> StepsFit(ts))
  {
    hide Lex, ConsumesDelimiters, StepsFit;
    var ts := Lex(u, script, INITIAL);
    RebuiltPieces(ts, 0, "");
    SpelledLength(u, script, INITIAL);
    ConsumesExactlyWhenStepsFit(u, script);
    assert "" + AllSpelled(ts) == AllSpelled(ts);
  }

  /** Every DELIMITER line of the script names an ASCII delimiter. */
  predicate AsciiDirectives(ts: seq<Token>) {
    forall k :: 0 <= k < |ts| && ts[k].kind.Directive? ==> AllAscii(ts[k].kind.newDelim)
  }

  lemma {:induction false} AsciiConsumes(u: Unicode, s: string, m: Mode)
    requires m.delim != "" && AllAscii(m.delim) && AsciiDirectives(Lex(u, s, m))
    ensures ConsumesDelimiters(Lex(u, s, m))
    decreases |s|
  {
    hide Scan;
    if s != "" {
      var t := Scan(u, s, m);
      var ts := Lex(u, s[|t.text|..], After(m, t));
      var all := Lex(u, s, m);
      assert all == [t] + ts;
      assert forall k :: 0 <= k < |ts| ==> all[k + 1] == ts[k];
      if t.kind.Terminator? {
        TerminatorConsumes(u, s, m);
      }
      assert t == all[0];
      AsciiConsumes(u, s[|t.text|..], After(m, t));
      forall k | 0 <= k < |all| ensures Spelled(all[k]) == all[k].text {
        if k > 0 {
          assert all[k] == ts[k - 1];
        }
      }
    }
  }

  /** With ASCII delimiters no text is lost. */
  lemma AsciiScriptLosesNothing(u: Unicode, script: string)
    requires AsciiDirectives(Lex(u, script, INITIAL))
    ensures Rebuilt(Pieces(Lex(u, script, INITIAL), 0, "")) == script
  {
    hide Lex;
    AsciiConsumes(u, script, INITIAL);
    SplitLosesNothing(u, script);
  }

  // ── The returned statements ──

  /** The statements are the trimmed non-blank bodies: none is missing, none is empty. */
  lemma {:induction false} StatementsAreTrimmedBodies(ps: seq<Piece>)
    ensures forall st :: st in Statements(ps) ==> st != "" && Trim(st) == st && exists p :: p in ps && Trim(p.body) == st
    ensures forall p :: p in ps && !Blank(p.body) ==> Trim(p.body) in Statements(ps)
  {
    hide Trim;
    if ps != [] {
      TrimBlank(ps[0].body);
      StatementsAreTrimmedBodies(ps[1..]);
      assert ps == [ps[0]] + ps[1..];
      TrimTwice(ps[0].body);
    }
  }

  lemma TrimTwice(s: string)
    ensures Trim(Trim(s)) == Trim(s)
  {
    TrimFixed(Trim(s));
  }

  lemma EmptyIsBlank()
    ensures Blank("")
  {
  }

  /** A body cut off by a directive is blank, so dropping it with the DELIMITER line drops no statement. */
  lemma {:induction false} DirectivesDropBlanks(u: Unicode, s: string, m: Mode, buf: string)
    requires m.delim != "" && m.blank == Blank(buf) && (m.depth > 0 ==> !m.blank)
    ensures forall p :: p in Pieces(Lex(u, s, m), m.depth, buf) && p.cut.Some? && p.cut.value.kind.Directive? ==> Blank(p.body)
    decreases |s|
  {
    hide Scan, Blank;
    if s != "" {
      var t := Scan(u, s, m);
      var ts := Lex(u, s[|t.text|..], After(m, t));
      assert Lex(u, s, m) == [t] + ts && ([t] + ts)[1..] == ts;
      EmptyIsBlank();
      if Cuts(t, m.depth) {
        DirectivesDropBlanks(u, s[|t.text|..], After(m, t), "");
      } else {
        BlankTracksBuffer(u, s, m, buf, t);
        DirectivesDropBlanks(u, s[|t.text|..], After(m, t), buf + t.Kept());
      }
    }
  }

  // ── Behaviour the documentation of the splitter does not state ──

  /** A fragment that is only a comment is returned as a statement. */
  lemma CommentIsReturned(u: Unicode, text: string)
    requires forall i :: 0 <= i < |text| ==> text[i] != '\n'
    ensures Split(u, "#" + text) == [Trim("#" + text)]
  {
    hide Pieces, Statements, Trim;
    var s := "#" + text;
    assert LineLen(s) == |s|;
    var t := Token(LineComment, s[..|s|]);
    assert t == Scan(u, s, INITIAL);
    ReadStep(u, s, INITIAL, "", t);
    assert s[|s|..] == "" && "" + t.Kept() == s;
    ReadEnd(u, After(INITIAL, t), s);
    TrimBlank(s);
    assert s[0] == '#';
  }

  /** A two-byte delimiter eats the character after it: here the B is lost. */
  lemma NonAsciiDelimiterEatsText(u: Unicode)
    ensures Split(u, "DELIMITER \U{D7}\n" + "A\U{D7}BC") == ["A", "C"]
  {
    hide Scan, Lex, Pieces, Statements, Trim;
    var d := "\U{D7}";
    var line := "DELIMITER \U{D7}\n";
    var text := "A\U{D7}BC";
    var s := line + text;
    ScanNamesTimes(u, text);
    var t := Token(Directive(d), s[..11]);
    ReadStep(u, s, INITIAL, "", t);
    assert s[11..] == "\n" + text;
    ReadEatsB(u, text);
    TrimBlank("");
  }

  lemma ScanNamesTimes(u: Unicode, text: string)
    ensures var s := "DELIMITER \U{D7}\n" + text;
            Scan(u, s, INITIAL) == Token(Directive("\U{D7}"), s[..11])
  {
    hide Trim;
    var s := "DELIMITER \U{D7}\n" + text;
    assert LineLen(s) == 11 by {
      assert s[11] == '\n' && forall i :: 0 <= i < 11 ==> s[i] != '\n';
    }
    assert s[9..11] == " " + "\U{D7}";
    TrimSkipsBlanks(" ", "\U{D7}");
    TrimFixed("\U{D7}");
    assert MatchKeyword(u, s, "DELIMITER") by {
      assert s[9] == ' ';
    }
  }

  lemma ReadPlain(u: Unicode, s: string, delim: string, blank: bool, buf: string)
    requires delim != "" && s != "" && IsOrdinary(s[0]) && !(delim <= s)
    ensures Read(u, s, Mode(delim, 0, blank), buf) ==
            Read(u, s[1..], Mode(delim, 0, blank && IsWhitespace(s[0])), buf + s[..1])
  {
    hide Scan, Read, IsOrdinary;
    ScanOrdinary(u, s, Mode(delim, 0, blank));
    ReadStep(u, s, Mode(delim, 0, blank), buf, Token(Plain, s[..1]));
  }

  lemma ReadTerminator(u: Unicode, s: string, delim: string, blank: bool, buf: string)
    requires delim != "" && s != "" && IsOrdinary(s[0]) && delim <= s && Utf8Len(delim) <= |s|
    ensures Read(u, s, Mode(delim, 0, blank), buf) ==
            Flush(buf) + Read(u, s[Utf8Len(delim)..], Mode(delim, 0, true), "")
  {
    hide Scan, Read, IsOrdinary;
    ScanOrdinary(u, s, Mode(delim, 0, blank));
    ReadStep(u, s, Mode(delim, 0, blank), buf, Token(Terminator(delim), s[..Utf8Len(delim)]));
  }

  lemma ReadEatsB(u: Unicode, text: string)
    requires text == "A\U{D7}BC"
    ensures Read(u, "\n" + text, Mode("\U{D7}", 0, true), "") == ["A", "C"]
  {
    hide Read, Flush;
    var d := "\U{D7}";
    ReadPlain(u, "\n" + text, d, true, "");
    assert ("\n" + text)[1..] == text && "" + ("\n" + text)[..1] == "\n";
    ReadPlain(u, text, d, true, "\n");
    assert "\n" + text[..1] == "\nA";
    assert text[1..] == "\U{D7}BC" && text[3..] == "C";
    ReadTerminator(u, text[1..], d, false, "\nA");
    assert text[1..][2..] == text[3..];
    ReadC(u);
    FlushLetters();
  }

  lemma ReadC(u: Unicode)
    ensures Read(u, "C", Mode("\U{D7}", 0, true), "") == Flush("C")
  {
    hide Read, Flush;
    ReadPlain(u, "C", "\U{D7}", true, "");
    assert "C"[1..] == "" && "" + "C"[..1] == "C";
    ReadEnd(u, Mode("\U{D7}", 0, false), "C");
  }

  lemma FlushLetters()
    ensures Flush("\nA") == ["A"] && Flush("C") == ["C"]
  {
    hide Trim;
    TrimSkipsBlanks("\n", "A");
    TrimFixed("A");
    TrimFixed("C");
    assert "\n" + "A" == "\nA";
  }
}
