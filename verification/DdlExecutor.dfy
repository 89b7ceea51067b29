/**
 Running an approved script on its target: guards, a test of every statement, then the statements one
 by one until the first failure. A backend records what it was sent.
 */
module DdlExecutor {
  import opened Chars
  import opened Wrappers
  import opened SqlSplit
  import opened SqlSplitText
  import opened SqlSplitTheorems
  import opened SqlSplitStability
  import opened SqlSplitTokens
  import opened SqlSplitBlocks

  const DDL_KEYWORDS := ["CREATE", "ALTER", "DROP", "TRUNCATE", "RENAME"]

  function AsciiUpper(s: string): string {
    seq(|s|, k requires 0 <= k < |s| => ToAsciiUppercase(s[k]))
  }

  /** The statement begins, after blanks and in any letter case, with one of the DDL keywords. */
  predicate IsDdlStatement(sql: string) {
    var upper := AsciiUpper(TrimStart(sql));
    exists k :: 0 <= k < |DDL_KEYWORDS| && DDL_KEYWORDS[k] <= upper
  }

  predicate AllDdl(u: Unicode, script: string) {
    forall st :: st in Split(u, script) ==> IsDdlStatement(st)
  }

  datatype Connection = Connection(dbType: string, supported: bool)

  datatype Guard = Guard(kind: string, readOnly: int)

  datatype Refusal =
    | LoadFailed(message: string)
    | NoTransactions
    | ReadOnlyTarget
    | SourceDrift
    | Unsupported
    | NotDdl(statement: string)
    | StatementFailed(message: string)

  /** The checks made before the script is looked at. A guard row that cannot be read lets the script pass. */
  function Admit(connection: Result<Connection, string>, guard: Option<Guard>): Result<Connection, Refusal> {
    match connection
    case Err(message) => Err(LoadFailed(message))
    case Ok(conn) =>
      if AsciiUpper(conn.dbType) == "CLICKHOUSE" then Err(NoTransactions)
      else if guard.Some? && guard.value.readOnly != 0 then Err(ReadOnlyTarget)
      else if guard.Some? && guard.value.kind == "source_drift" then Err(SourceDrift)
      else if !conn.supported then Err(Unsupported)
      else Ok(conn)
  }

  /** The name of ClickHouse, in any letter case. */
  predicate IsClickHouse(dbType: string) {
    |dbType| == |"CLICKHOUSE"| && forall k :: 0 <= k < |dbType| ==> ToAsciiUppercase(dbType[k]) == "CLICKHOUSE"[k]
  }

  /** No guard row stands against writing; an unreadable one does not. */
  predicate Writable(guard: Option<Guard>) {
    guard.None? || (guard.value.readOnly == 0 && guard.value.kind != "source_drift")
  }

  /** The target takes DDL: its connection loaded, and neither its kind nor its guard stands against it. */
  predicate Open(connection: Result<Connection, string>, guard: Option<Guard>) {
    connection.Ok? && !IsClickHouse(connection.value.dbType) && Writable(guard) && connection.value.supported
  }

  lemma ClickHouseInAnyCase(dbType: string)
    ensures AsciiUpper(dbType) == "CLICKHOUSE" <==> IsClickHouse(dbType)
  {
    var up := AsciiUpper(dbType);
    if IsClickHouse(dbType) {
      assert forall k :: 0 <= k < |up| ==> up[k] == "CLICKHOUSE"[k];
    }
    if up == "CLICKHOUSE" {
      assert forall k :: 0 <= k < |up| ==> ToAsciiUppercase(dbType[k]) == up[k];
    }
  }

  class Backend {
    /** The statements received. */
    var sent: seq<string>
    /** The error answered to the k-th statement, if any. */
    const answers: nat -> Option<string>

    constructor (answers: nat -> Option<string>)
      ensures sent == [] && this.answers == answers
    {
      this.sent, this.answers := [], answers;
    }

    method ExecuteQuery(sql: string) returns (error: Option<string>)
      modifies this
      ensures sent == old(sent) + [sql]
      ensures error == answers(|old(sent)|)
    {
      error := answers(|sent|);
      sent := sent + [sql];
    }
  }

  /** Trimming a returned statement again, and skipping empty ones, changes nothing. */
  lemma StatementsStand(u: Unicode, script: string)
    ensures forall st :: st in Split(u, script) ==> st != "" && Trim(st) == st
  {
    hide Lex, Trim;
    StatementsAreTrimmedBodies(Pieces(Lex(u, script, INITIAL), 0, ""));
  }

  method FindNonDdl(statements: seq<string>) returns (bad: Option<string>)
    requires forall st :: st in statements ==> st != "" && Trim(st) == st
    ensures bad.None? <==> forall st :: st in statements ==> IsDdlStatement(st)
    ensures bad.Some? ==>
              exists k :: 0 <= k < |statements| && statements[k] == bad.value && !IsDdlStatement(bad.value) &&
                          forall i :: 0 <= i < k ==> IsDdlStatement(statements[i])
  {
    hide Trim, IsDdlStatement;
    for i := 0 to |statements|
      invariant forall k :: 0 <= k < i ==> IsDdlStatement(statements[k])
    {
      var s := Trim(statements[i]);
      assert statements[i] in statements;
      if s == "" {
        continue;
      }
      if !IsDdlStatement(s) {
        return Some(s);
      }
    }
    return None;
  }

  /**
   What reaches the target is a prefix of the split script, in order: all of it when no statement fails,
   up to and with the first that fails otherwise, and nothing at all when a guard or the test of any
   statement refuses.
   */
  method ExecuteDdlOnTarget(u: Unicode, connection: Result<Connection, string>, guard: Option<Guard>,
                            backend: Backend, script: string)
    returns (r: Result<(), Refusal>, ghost n: nat)
    requires backend.sent == []
    modifies backend
    ensures n <= |Split(u, script)| && backend.sent == Split(u, script)[..n]
    ensures n > 0 ==> Open(connection, guard) && AllDdl(u, script)
    ensures Split(u, script) != [] && AllDdl(u, script) ==> (n > 0 <==> Open(connection, guard))
    ensures connection.Err? ==> r == Err(LoadFailed(connection.error))
    ensures connection.Ok? && IsClickHouse(connection.value.dbType) ==> r == Err(NoTransactions)
    ensures connection.Ok? && !IsClickHouse(connection.value.dbType) && guard.Some? && guard.value.readOnly != 0 ==> r == Err(ReadOnlyTarget)
    ensures connection.Ok? && !IsClickHouse(connection.value.dbType) && guard.Some? && guard.value.readOnly == 0 && guard.value.kind == "source_drift" ==>
              r == Err(SourceDrift)
    ensures connection.Ok? && !IsClickHouse(connection.value.dbType) && Writable(guard) && !connection.value.supported ==> r == Err(Unsupported)
    ensures Open(connection, guard) && !AllDdl(u, script) ==>
              n == 0 && r.Err? && r.error.NotDdl? && r.error.statement in Split(u, script) && !IsDdlStatement(r.error.statement)
    ensures Open(connection, guard) && AllDdl(u, script) ==>
              && (forall k :: 0 <= k < n - 1 ==> backend.answers(k).None?)
              && (r.Ok? ==> n == |Split(u, script)| && (n > 0 ==> backend.answers(n - 1).None?))
              && (r.Err? ==> n > 0 && r.error.StatementFailed? && backend.answers(n - 1) == Some(r.error.message))
  {
    hide Split, Trim, IsDdlStatement, IsClickHouse, AsciiUpper;
    n := 0;
    if connection.Ok? {
      ClickHouseInAnyCase(connection.value.dbType);
    }
    var admitted := Admit(connection, guard);
    if admitted.Err? {
      return Err(admitted.error), 0;
    }
    var statements := SplitSqlScript(u, script);
    StatementsStand(u, script);
    var bad := FindNonDdl(statements);
    if bad.Some? {
      return Err(NotDdl(bad.value)), 0;
    }
    for i := 0 to |statements|
      invariant n == i && backend.sent == statements[..i]
      invariant forall k :: 0 <= k < i ==> backend.answers(k).None?
    {
      var s := Trim(statements[i]);
      assert statements[i] in statements;
      if s == "" {
        continue;
      }
      var error := backend.ExecuteQuery(s);
      n := n + 1;
      assert statements[..i + 1] == statements[..i] + [s];
      if error.Some? {
        return Err(StatementFailed(error.value)), n;
      }
    }
    assert statements[..|statements|] == statements;
    return Ok(()), n;
  }

  /**
   In a script without DELIMITER lines, each statement of an accepted script, split again, is still that
   one statement and still DDL; a terminator stands in it only inside an open block, so never without a
   BEGIN. What stands in an open block is not looked at: see `DmlRidesInAnOpenBlock`.
   */
  lemma AcceptedStatementsStand(u: Unicode, script: string, st: string)
    requires NoDirective(Lex(u, script, INITIAL)) && AllDdl(u, script) && st in Split(u, script)
    ensures Split(u, st) == [st] && AllDdl(u, st)
    ensures var ts := Lex(u, st, INITIAL);
            && ((exists k :: IsTerminatorAt(ts, k)) <==> exists k :: IsTerminatorAt(ts, k) && Nesting(ts, k) > 0)
            && (!HasBegin(ts) ==> forall k :: !IsTerminatorAt(ts, k))
  {
    hide Lex, Split, IsDdlStatement, HasBegin;
    SplitIsStable(u, script);
    InnerTerminatorsAreNested(u, script, st);
    assert forall x :: x in [st] ==> x == st;
  }

  lemma KeywordsAreUpperCase(k: nat)
    requires k < |DDL_KEYWORDS|
    ensures DDL_KEYWORDS[k] != "" && forall i :: 0 <= i < |DDL_KEYWORDS[k]| ==> 'A' <= DDL_KEYWORDS[k][i] <= 'Z'
  {
  }

  /** The five keywords, and no others. */
  lemma DdlExactly(st: string)
    ensures IsDdlStatement(st) <==>
            var up := AsciiUpper(TrimStart(st));
            "CREATE" <= up || "ALTER" <= up || "DROP" <= up || "TRUNCATE" <= up || "RENAME" <= up
  {
    hide AsciiUpper, TrimStart;
    var up := AsciiUpper(TrimStart(st));
    assert DDL_KEYWORDS == ["CREATE", "ALTER", "DROP", "TRUNCATE", "RENAME"];
    if "CREATE" <= up {
      assert DDL_KEYWORDS[0] <= up;
    } else if "ALTER" <= up {
      assert DDL_KEYWORDS[1] <= up;
    } else if "DROP" <= up {
      assert DDL_KEYWORDS[2] <= up;
    } else if "TRUNCATE" <= up {
      assert DDL_KEYWORDS[3] <= up;
    } else if "RENAME" <= up {
      assert DDL_KEYWORDS[4] <= up;
    }
  }

  lemma NothingToTrim(st: string)
    requires st != "" && 'A' <= st[0] <= 'Z'
    ensures TrimStart(st) == st
  {
  }

  /** A statement that begins with a keyword as written in the list is DDL. */
  lemma KeywordIsDdl(st: string, k: nat)
    requires k < |DDL_KEYWORDS| && DDL_KEYWORDS[k] <= st
    ensures IsDdlStatement(st)
  {
    hide AsciiUpper, TrimStart, IsDdlStatement;
    KeywordsAreUpperCase(k);
    UpperStaysUpper(DDL_KEYWORDS[k], st);
    assert st[0] == DDL_KEYWORDS[k][0];
    NothingToTrim(st);
    HasKeyword(st, k);
  }

  lemma HasKeyword(st: string, k: nat)
    requires k < |DDL_KEYWORDS| && DDL_KEYWORDS[k] <= AsciiUpper(TrimStart(st))
    ensures IsDdlStatement(st)
  {
    hide AsciiUpper, TrimStart;
  }

  lemma UpperStaysUpper(kw: string, st: string)
    requires kw <= st && forall i :: 0 <= i < |kw| ==> 'A' <= kw[i] <= 'Z'
    ensures kw <= AsciiUpper(st)
  {
    assert forall i :: 0 <= i < |kw| ==> st[i] == kw[i];
  }

  /** A script that opens with an upper-case keyword and then a block it never closes is accepted whole. */
  lemma OpenBlockIsAccepted(u: Unicode, h: string, x: string, k: nat)
    requires k < |DDL_KEYWORDS| && DDL_KEYWORDS[k] <= h
    requires WordEnds(u, x) && Header(u, h, "BEGIN" + x) && HasNoEnd(u, x) && x != "" && !IsWhitespace(x[|x| - 1])
    ensures Split(u, h + ("BEGIN" + x)) == [h + ("BEGIN" + x)] && AllDdl(u, h + ("BEGIN" + x))
  {
    hide Split, HasNoEnd, IsDdlStatement, Header, WordEnds;
    assert Spells("BEGIN", "BEGIN");
    OpenBeginIsOneStatement(u, h, "BEGIN", x);
    var s := h + ("BEGIN" + x);
    KeywordIsDdl(s, k);
    assert forall st :: st in [s] ==> st == s;
  }

  /** A DELETE reaches the target behind DROP; the block is opened by an identifier that ends in BEGIN. */
  lemma DmlRidesInAnOpenBlock(u: Unicode)
    ensures Split(u, "DROP XBEGIN;DELETE FROM T") == ["DROP XBEGIN;DELETE FROM T"] && AllDdl(u, "DROP XBEGIN;DELETE FROM T")
  {
    hide Split, AllDdl, MatchKeyword;
    var h, x := "DROP X", ";DELETE FROM T";
    assert HasNoEnd(u, x) by {
      forall i | 0 <= i < |x| ensures !MatchKeyword(u, x[i..], "END") {
        NoN(u, x, i);
      }
    }
    HeaderOfExample(u, x);
    assert DDL_KEYWORDS[2] <= h;
    assert h + ("BEGIN" + x) == "DROP XBEGIN;DELETE FROM T";
    OpenBlockIsAccepted(u, h, x, 2);
  }

  lemma NoN(u: Unicode, x: string, i: nat)
    requires x == ";DELETE FROM T" && i < |x|
    ensures !MatchKeyword(u, x[i..], "END")
  {
    assert "END"[1] == 'N';
    assert forall k :: 0 <= k < |x| ==> ToAsciiUppercase(x[k]) != 'N';
    assert |x[i..]| >= 3 ==> x[i..][1] == x[i + 1];
  }

  lemma HeaderOfExample(u: Unicode, x: string)
    ensures Header(u, "DROP X", "BEGIN" + x)
  {
    var h, tail := "DROP X", "BEGIN" + x;
    assert "DELIMITER"[1] == 'E' && (h + tail)[1] == 'R';
    forall i | 0 <= i < |h| ensures CodeChar(h[i]) && !MatchKeyword(u, (h + tail)[i..], "BEGIN") {
      assert (h + tail)[i..][0] == h[i] && ToAsciiUppercase(h[i]) != "BEGIN"[0];
    }
  }

  /** A statement that begins with a comment is not taken for DDL, so a script that opens with one is refused. */
  lemma CommentFirstIsRefused(u: Unicode, script: string, st: string)
    requires st in Split(u, script) && st != "" && st[0] in ['#', '-', '/']
    ensures !AllDdl(u, script)
  {
    hide Split;
    var upper := AsciiUpper(st);
    assert TrimStart(st) == st;
    assert upper != "" && upper[0] == st[0];
    forall k | 0 <= k < |DDL_KEYWORDS| ensures !(DDL_KEYWORDS[k] <= upper) {
      KeywordsAreUpperCase(k);
    }
    assert !IsDdlStatement(st);
  }
}
