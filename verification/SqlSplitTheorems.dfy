/** Where statements end: exactly at the terminators that stand outside every block. */
module SqlSplitTheorems {
  import opened Chars
  import opened Wrappers
  import opened SqlSplit

  // ── Where a statement ends ──

  function Opens(t: Token): int {
    match t.kind
    case Begin => 1
    case End => -1
    case _ => 0
  }

  /** BEGIN tokens minus END tokens among the first `k`. */
  function Nesting(ts: seq<Token>, k: nat): int
    requires k <= |ts|
  {
    if k == 0 then 0 else Nesting(ts, k - 1) + Opens(ts[k - 1])
  }

  /** Token `k` ends a statement: it is a directive, or a terminator where no block is open. */
  predicate EndsStatement(ts: seq<Token>, k: nat)
    requires k < |ts|
  {
    ts[k].kind.Directive? || (ts[k].kind.Terminator? && Nesting(ts, k) == 0)
  }

  function KeptText(ts: seq<Token>, k: nat): string
    requires k <= |ts|
  {
    if k == 0 then "" else KeptText(ts, k - 1) + ts[k - 1].Kept()
  }

  lemma {:induction false} NestingShift(t: Token, ts: seq<Token>, k: nat)
    requires k <= |ts|
    ensures Nesting([t] + ts, k + 1) == Opens(t) + Nesting(ts, k)
  {
    if k > 0 {
      NestingShift(t, ts, k - 1);
    }
  }

  /** Between two statements: no block open and nothing but blanks read. */
  predicate Fresh(m: Mode) {
    m.delim != "" && m.depth == 0 && m.blank
  }

  /** The text and mode left after `k` tokens. */
  function At(u: Unicode, s: string, m: Mode, k: nat): (r: (string, Mode))
    requires m.delim != "" && k <= |Lex(u, s, m)|
    ensures r.1.delim != ""
  {
    if k == 0 then (s, m)
    else
      var t := Scan(u, s, m);
      At(u, s[|t.text|..], After(m, t), k - 1)
  }

  lemma LexEmpty(u: Unicode, m: Mode)
    requires m.delim != ""
    ensures Lex(u, "", m) == []
  {
  }

  /** After `k` tokens the lexer's depth is the nesting, and an open block has a non-blank buffer. */
  lemma {:induction false} LexAt(u: Unicode, s: string, m: Mode, k: nat)
    requires m.delim != "" && k <= |Lex(u, s, m)|
    requires m.depth > 0 ==> !m.blank
    ensures var ts := Lex(u, s, m); var (s', m') := At(u, s, m, k);
            && ts[k..] == Lex(u, s', m')
            && m'.depth == m.depth + Nesting(ts, k)
            && (m'.depth > 0 ==> !m'.blank)
            && (k < |ts| ==> s' != "" && ts[k] == Scan(u, s', m'))
    decreases k
  {
    hide Scan, Lex;
    var ts := Lex(u, s, m);
    if k == 0 {
      assert ts[0..] == ts;
      LexEmpty(u, m);
      if s != "" {
        LexHead(u, s, m);
      }
    } else {
      LexEmpty(u, m);
      LexHead(u, s, m);
      var t := Scan(u, s, m);
      var rest := Lex(u, s[|t.text|..], After(m, t));
      assert After(m, t).depth == m.depth + Opens(t);
      LexAt(u, s[|t.text|..], After(m, t), k - 1);
      NestingShift(t, rest, k - 1);
      assert ts[k..] == rest[k - 1..];
    }
  }

  lemma PiecesExtend(ts: seq<Token>, depth: nat, buf: string)
    requires ts != [] && !Cuts(ts[0], depth)
    ensures Pieces(ts, depth, buf) == Pieces(ts[1..], DepthAfter(ts[0], depth), buf + ts[0].Kept())
  {
  }

  /** Tokens that end no statement only extend it. */
  lemma {:induction false} SkipTokens(ts: seq<Token>, buf: string, k: nat)
    requires k <= |ts|
    requires forall j :: 0 <= j < k ==> !EndsStatement(ts, j)
    requires forall j :: 0 <= j < k && ts[j].kind.End? ==> Nesting(ts, j) > 0
    ensures Nesting(ts, k) >= 0
    ensures Pieces(ts, 0, buf) == Pieces(ts[k..], Nesting(ts, k), buf + KeptText(ts, k))
  {
    hide Pieces;
    if k == 0 {
      assert ts[0..] == ts && buf + "" == buf;
    } else {
      SkipTokens(ts, buf, k - 1);
      assert !EndsStatement(ts, k - 1);
      SkipOne(ts, buf, k - 1);
    }
  }

  lemma SkipOne(ts: seq<Token>, buf: string, k: nat)
    requires k < |ts| && Nesting(ts, k) >= 0 && !EndsStatement(ts, k)
    requires ts[k].kind.End? ==> Nesting(ts, k) > 0
    ensures Nesting(ts, k + 1) >= 0
    ensures Pieces(ts[k..], Nesting(ts, k), buf + KeptText(ts, k)) ==
            Pieces(ts[k + 1..], Nesting(ts, k + 1), buf + KeptText(ts, k + 1))
  {
    hide Pieces;
    assert ts[k..][0] == ts[k] && ts[k..][1..] == ts[k + 1..];
    PiecesExtend(ts[k..], Nesting(ts, k), buf + KeptText(ts, k));
    assert buf + KeptText(ts, k) + ts[k].Kept() == buf + KeptText(ts, k + 1);
  }

  /**
   A statement ends exactly at a directive or at a terminator outside every block. Before the first
   such token everything read belongs to the first statement, and after it reading starts afresh.
   */
  lemma StatementEndsExactly(u: Unicode, s: string, m: Mode, k: nat)
    requires Fresh(m) && k < |Lex(u, s, m)|
    requires forall j :: 0 <= j < k ==> !EndsStatement(Lex(u, s, m), j)
    ensures var ts := Lex(u, s, m);
            if EndsStatement(ts, k) then
              var (s', m') := At(u, s, m, k + 1);
              && Pieces(ts, 0, "") == [Piece(KeptText(ts, k), Some(ts[k]))] + Pieces(Lex(u, s', m'), 0, "")
              && Fresh(m')
            else
              KeptText(ts, k + 1) <= Pieces(ts, 0, "")[0].body
  {
    hide Lex, Scan;
    var ts := Lex(u, s, m);
    forall j | 0 <= j < k && ts[j].kind.End? ensures Nesting(ts, j) > 0 {
      LexAt(u, s, m, j);
    }
    SkipTokens(ts, "", k);
    LexAt(u, s, m, k);
    LexAt(u, s, m, k + 1);
    AtNext(u, s, m, k);
    assert "" + KeptText(ts, k) == KeptText(ts, k);
    assert ts[k..][0] == ts[k] && ts[k..][1..] == ts[k + 1..];
  }

  /** With no such token at all, the whole text is one piece. */
  lemma NoStatementEnds(u: Unicode, s: string, m: Mode)
    requires Fresh(m)
    requires forall j :: 0 <= j < |Lex(u, s, m)| ==> !EndsStatement(Lex(u, s, m), j)
    ensures Pieces(Lex(u, s, m), 0, "") == [Piece(KeptText(Lex(u, s, m), |Lex(u, s, m)|), None)]
  {
    hide Lex, Scan;
    var ts := Lex(u, s, m);
    forall j | 0 <= j < |ts| && ts[j].kind.End? ensures Nesting(ts, j) > 0 {
      LexAt(u, s, m, j);
    }
    SkipTokens(ts, "", |ts|);
    assert ts[|ts|..] == [];
    assert "" + KeptText(ts, |ts|) == KeptText(ts, |ts|);
  }

  lemma {:induction false} AtNext(u: Unicode, s: string, m: Mode, k: nat)
    requires m.delim != "" && k < |Lex(u, s, m)|
    ensures var (s', m') := At(u, s, m, k);
            s' != "" && At(u, s, m, k + 1).1 == After(m', Scan(u, s', m'))
    decreases k
  {
    hide Scan;
    var t := Scan(u, s, m);
    assert Lex(u, s, m) == [t] + Lex(u, s[|t.text|..], After(m, t));
    if k > 0 {
      AtNext(u, s[|t.text|..], After(m, t), k - 1);
    }
  }

  // ── Terminators inside a statement ──

  predicate HasBegin(ts: seq<Token>) {
    exists k :: 0 <= k < |ts| && ts[k].kind.Begin?
  }

  /** Without BEGIN no block is ever open. */
  lemma {:induction false} NoBeginNoNesting(ts: seq<Token>, k: nat)
    requires k <= |ts| && !HasBegin(ts)
    ensures Nesting(ts, k) <= 0
  {
    if k > 0 {
      NoBeginNoNesting(ts, k - 1);
    }
  }
}
