/**
 Counter-snapshot differencing of the statement-digest table: the collector remembers the last
 counters it saw and stores the growth of each. The server it reads from is part of the model, with
 its true execution counts, so that "never overcounts" can be said of whole histories.
 */
module PsDigest {
  import opened Wrappers

  const PS_PER_MS := 1_000_000_000
  const I64_MAX := 0x7FFF_FFFF_FFFF_FFFF

  // ── Snapshot keys ──

  function SchemaText(schema: Option<string>): string {
    match schema
    case None => ""
    case Some(s) => s
  }

  function PsKey(digestHex: string, schema: Option<string>): string {
    digestHex + "|" + SchemaText(schema)
  }

  /** The text after the last `|`, if there is one. */
  function AfterLastBar(s: string): Option<string> {
    if s == "" then None
    else
      match AfterLastBar(s[1..])
      case Some(t) => Some(t)
      case None => if s[0] == '|' then Some(s[1..]) else None
  }

  function SchemaOfKey(key: string): Option<string> {
    match AfterLastBar(key)
    case Some(s) => if s == "" then None else Some(s)
    case None => None
  }

  lemma {:induction false} BarOfConcat(a: string, b: string)
    ensures AfterLastBar(a + b) == if AfterLastBar(b).Some? then AfterLastBar(b)
                                   else if AfterLastBar(a).Some? then Some(AfterLastBar(a).value + b)
                                   else None
  {
    if a == "" {
      assert a + b == b;
    } else {
      assert (a + b)[1..] == a[1..] + b;
      BarOfConcat(a[1..], b);
    }
  }

  lemma {:induction false} BarIsShorter(s: string)
    ensures AfterLastBar(s).None? <==> '|' !in s
    ensures AfterLastBar(s).Some? ==> |AfterLastBar(s).value| < |s|
  {
    if s != "" {
      BarIsShorter(s[1..]);
      assert s == [s[0]] + s[1..];
    }
  }

  /** The schema is recovered from the key exactly when it is absent, or is non-empty and has no bar. */
  lemma SchemaRecovered(digestHex: string, schema: Option<string>)
    ensures SchemaOfKey(PsKey(digestHex, schema)) == schema <==>
            schema.None? || (schema.value != "" && '|' !in schema.value)
  {
    var s := SchemaText(schema);
    BarOfConcat(digestHex + "|", s);
    BarOfConcat(digestHex, "|");
    assert AfterLastBar("|") == Some("") by { assert "|"[1..] == ""; }
    assert AfterLastBar(digestHex + "|") == Some("");
    assert "" + s == s;
    BarIsShorter(s);
  }

  lemma {:induction false} FirstBarSplits(a: string, b: string, c: string, d: string)
    requires '|' !in a && '|' !in c && a + "|" + b == c + "|" + d
    ensures a == c && b == d
  {
    var l, r := a + "|" + b, c + "|" + d;
    assert (a != "" ==> a[0] in a) && (c != "" ==> c[0] in c);
    assert l[0] == r[0];
    if a != "" && c != "" {
      assert l[1..] == a[1..] + "|" + b && r[1..] == c[1..] + "|" + d;
      FirstBarSplits(a[1..], b, c[1..], d);
      assert a == [a[0]] + a[1..] && c == [c[0]] + c[1..];
    } else {
      assert l[1..] == b && r[1..] == d;
    }
  }

  /** Two rows share a key exactly when digest and schema text agree, for digests without a bar. */
  lemma KeysAreDistinct(hex1: string, schema1: Option<string>, hex2: string, schema2: Option<string>)
    requires '|' !in hex1 && '|' !in hex2
    ensures PsKey(hex1, schema1) == PsKey(hex2, schema2) <==> hex1 == hex2 && SchemaText(schema1) == SchemaText(schema2)
  {
    if PsKey(hex1, schema1) == PsKey(hex2, schema2) {
      FirstBarSplits(hex1, SchemaText(schema1), hex2, SchemaText(schema2));
    }
  }

  // ── Differencing ──

  function PsToMs(ps: nat): nat {
    ps / PS_PER_MS
  }

  /** `i64::try_from(..).unwrap_or(i64::MAX)`. */
  function Saturate(n: nat): nat {
    if n <= I64_MAX then n else I64_MAX
  }

  /** Whole milliseconds: a million nanoseconds, a thousand million picoseconds. */
  lemma MillisecondsOf(ps: nat)
    ensures PsToMs(ps) * 1_000_000_000 <= ps < (PsToMs(ps) + 1) * 1_000_000_000
    ensures Saturate(ps) == if ps < 0x8000_0000_0000_0000 then ps else 0x7FFF_FFFF_FFFF_FFFF
  {
  }

  datatype PsRow = PsRow(key: string, text: string, count: nat, totalMs: nat)

  type Snapshot = map<string, (nat, nat)>

  /** The growth of one digest. The key is kept here so that growth can be attributed to it. */
  datatype PsDelta = PsDelta(key: string, count: nat, totalMs: nat, digestText: string, schema: Option<string>)

  predicate Regresses(prev: Snapshot, row: PsRow) {
    row.key in prev && row.count < prev[row.key].0
  }

  function DiffRow(prev: Snapshot, row: PsRow): Option<PsDelta> {
    if row.key !in prev || row.count <= prev[row.key].0 then None
    else
      var ms := prev[row.key].1;
      Some(PsDelta(row.key, row.count - prev[row.key].0, if row.totalMs > ms then row.totalMs - ms else 0,
                   row.text, SchemaOfKey(row.key)))
  }

  function DiffRows(prev: Snapshot, cur: seq<PsRow>): seq<PsDelta> {
    if cur == [] then []
    else
      var rest := DiffRows(prev, cur[1..]);
      match DiffRow(prev, cur[0])
      case Some(d) => [d] + rest
      case None => rest
  }

  /** Nothing on the first snapshot, and nothing when any known counter went back. */
  function DiffPsSnapshots(prev: Option<Snapshot>, cur: seq<PsRow>): seq<PsDelta> {
    if prev.None? || (exists i :: 0 <= i < |cur| && Regresses(prev.value, cur[i])) then []
    else DiffRows(prev.value, cur)
  }

  /** The snapshot to remember: every row, whether or not it grew. */
  function Snap(cur: seq<PsRow>): Snapshot {
    if cur == [] then map[]
    else Snap(cur[..|cur| - 1])[cur[|cur| - 1].key := (cur[|cur| - 1].count, cur[|cur| - 1].totalMs)]
  }

  // ── The collector ──

  datatype Stored = Stored(key: string, digestText: string, schema: Option<string>, elapsedMs: nat, queryCount: nat)

  function StoredRow(d: PsDelta): Stored {
    Stored(d.key, d.digestText, d.schema, if d.totalMs > 1 then d.totalMs else 1, d.count)
  }

  /** The rows stored when insert `i` succeeds exactly if `ok[i]`. */
  function Inserted(deltas: seq<PsDelta>, ok: seq<bool>): seq<Stored> {
    if deltas == [] then []
    else
      Inserted(deltas[..|deltas| - 1], ok) +
      if |deltas| - 1 < |ok| && ok[|deltas| - 1] then [StoredRow(deltas[|deltas| - 1])] else []
  }

  predicate DistinctKeys(rows: seq<PsRow>) {
    forall i, j :: 0 <= i < j < |rows| ==> rows[i].key != rows[j].key
  }

  /** Some remembered counter is now lower: the server restarted or its table was truncated. */
  predicate WentBack(prev: Snapshot, rows: seq<PsRow>) {
    exists i :: 0 <= i < |rows| && rows[i].key in prev && rows[i].count < prev[rows[i].key].0
  }

  predicate Grew(prev: Snapshot, row: PsRow) {
    row.key in prev && row.count > prev[row.key].0
  }

  /** `x` tells how much `row` grew; a time below one millisecond is told as one. */
  predicate Reports(prev: Snapshot, row: PsRow, x: Stored) {
    && Grew(prev, row) && x.key == row.key && x.digestText == row.text && x.schema == SchemaOfKey(row.key)
    && x.queryCount == row.count - prev[row.key].0
    && x.elapsedMs >= 1 && (x.elapsedMs == row.totalMs - prev[row.key].1 || (x.elapsedMs == 1 && row.totalMs - prev[row.key].1 <= 1))
  }

  predicate ReportsSome(prev: Snapshot, rows: seq<PsRow>, x: Stored) {
    exists r :: 0 <= r < |rows| && Reports(prev, rows[r], x)
  }

  predicate IsReported(prev: Snapshot, row: PsRow, xs: seq<Stored>) {
    exists i :: 0 <= i < |xs| && Reports(prev, row, xs[i])
  }

  /** One report for each row that grew, and no others. */
  predicate ReportsExactly(prev: Snapshot, rows: seq<PsRow>, xs: seq<Stored>) {
    && (forall i :: 0 <= i < |xs| ==> ReportsSome(prev, rows, xs[i]))
    && (forall r :: 0 <= r < |rows| && Grew(prev, rows[r]) ==> IsReported(prev, rows[r], xs))
    && (forall i, j :: 0 <= i < j < |xs| ==> xs[i].key != xs[j].key)
  }

  /** The snapshot holds exactly the rows. */
  predicate Remembers(snapshot: Snapshot, rows: seq<PsRow>) {
    && (forall r :: 0 <= r < |rows| ==> rows[r].key in snapshot && snapshot[rows[r].key] == (rows[r].count, rows[r].totalMs))
    && (forall key :: key in snapshot ==> exists r :: 0 <= r < |rows| && rows[r].key == key)
  }

  lemma {:induction false} SnapRemembers(rows: seq<PsRow>)
    requires DistinctKeys(rows)
    ensures Remembers(Snap(rows), rows)
  {
    if rows != [] {
      var front := rows[..|rows| - 1];
      assert forall r :: 0 <= r < |front| ==> front[r] == rows[r];
      SnapRemembers(front);
      forall key | key in Snap(rows) ensures exists r :: 0 <= r < |rows| && rows[r].key == key {
        if key != rows[|rows| - 1].key {
          var r :| 0 <= r < |front| && front[r].key == key;
          assert rows[r].key == key;
        }
      }
    }
  }

  lemma {:induction false} AllInserted(deltas: seq<PsDelta>, ok: seq<bool>)
    requires |deltas| <= |ok| && forall i :: 0 <= i < |deltas| ==> ok[i]
    ensures |Inserted(deltas, ok)| == |deltas| && forall i :: 0 <= i < |deltas| ==> Inserted(deltas, ok)[i] == StoredRow(deltas[i])
  {
    if deltas != [] {
      AllInserted(deltas[..|deltas| - 1], ok);
    }
  }

  lemma DiffRowReports(prev: Snapshot, row: PsRow)
    ensures DiffRow(prev, row).Some? <==> Grew(prev, row)
    ensures Grew(prev, row) ==> Reports(prev, row, StoredRow(DiffRow(prev, row).value))
  {
    hide SchemaOfKey;
  }

  function StoredRows(deltas: seq<PsDelta>): (xs: seq<Stored>)
    ensures |xs| == |deltas| && forall i :: 0 <= i < |xs| ==> xs[i] == StoredRow(deltas[i])
  {
    seq(|deltas|, i requires 0 <= i < |deltas| => StoredRow(deltas[i]))
  }

  lemma {:induction false} DiffRowsReport(prev: Snapshot, rows: seq<PsRow>)
    requires DistinctKeys(rows)
    ensures |DiffRows(prev, rows)| <= |rows|
    ensures ReportsExactly(prev, rows, StoredRows(DiffRows(prev, rows)))
  {
    hide DiffRow, Reports, Grew, StoredRow, ReportsSome, IsReported;
    if rows != [] {
      var rest := rows[1..];
      assert forall r :: 0 <= r < |rest| ==> rest[r] == rows[r + 1];
      DiffRowsReport(prev, rest);
      DiffRowReports(prev, rows[0]);
      var ds, xs := DiffRows(prev, rest), StoredRows(DiffRows(prev, rest));
      if Grew(prev, rows[0]) {
        var d := DiffRow(prev, rows[0]).value;
        assert StoredRows([d] + ds) == [StoredRow(d)] + xs;
        MoreReports(prev, rows, StoredRow(d), xs);
      } else {
        SameReports(prev, rows, xs);
      }
    }
  }

  lemma ReportsMore(prev: Snapshot, rows: seq<PsRow>, x: Stored)
    requires rows != [] && ReportsSome(prev, rows[1..], x)
    ensures ReportsSome(prev, rows, x)
    ensures DistinctKeys(rows) ==> x.key != rows[0].key
  {
    hide Grew;
    var r :| 0 <= r < |rows| - 1 && Reports(prev, rows[1..][r], x);
    assert rows[1..][r] == rows[r + 1];
  }

  lemma ReportedMore(prev: Snapshot, row: PsRow, x: Stored, xs: seq<Stored>)
    ensures IsReported(prev, row, xs) || Reports(prev, row, x) ==> IsReported(prev, row, [x] + xs)
  {
    hide Reports;
    var all := [x] + xs;
    assert all[0] == x;
    if IsReported(prev, row, xs) {
      var i :| 0 <= i < |xs| && Reports(prev, row, xs[i]);
      assert all[i + 1] == xs[i];
    }
  }

  lemma SameReports(prev: Snapshot, rows: seq<PsRow>, xs: seq<Stored>)
    requires rows != [] && !Grew(prev, rows[0]) && ReportsExactly(prev, rows[1..], xs)
    ensures ReportsExactly(prev, rows, xs)
  {
    hide Reports, Grew, ReportsSome, IsReported;
    forall i | 0 <= i < |xs| ensures ReportsSome(prev, rows, xs[i]) {
      ReportsMore(prev, rows, xs[i]);
    }
    forall r | 0 <= r < |rows| && Grew(prev, rows[r]) ensures IsReported(prev, rows[r], xs) {
      assert rows[1..][r - 1] == rows[r];
    }
  }

  lemma MoreReports(prev: Snapshot, rows: seq<PsRow>, x: Stored, xs: seq<Stored>)
    requires rows != [] && DistinctKeys(rows) && Reports(prev, rows[0], x) && ReportsExactly(prev, rows[1..], xs)
    ensures ReportsExactly(prev, rows, [x] + xs)
  {
    assert x.key == rows[0].key;
    hide Reports, Grew, ReportsSome, IsReported, DistinctKeys;
    var all := [x] + xs;
    assert forall i :: 0 < i < |all| ==> all[i] == xs[i - 1];
    ReportsHead(prev, rows, x);
    forall j | 0 <= j < |xs| ensures ReportsSome(prev, rows, xs[j]) && xs[j].key != x.key {
      ReportsMore(prev, rows, xs[j]);
    }
    AllGrownReported(prev, rows, x, xs);
    PrependDistinct(x, xs);
  }

  lemma AllGrownReported(prev: Snapshot, rows: seq<PsRow>, x: Stored, xs: seq<Stored>)
    requires rows != [] && Reports(prev, rows[0], x)
    requires forall r :: 0 <= r < |rows[1..]| && Grew(prev, rows[1..][r]) ==> IsReported(prev, rows[1..][r], xs)
    ensures forall r :: 0 <= r < |rows| && Grew(prev, rows[r]) ==> IsReported(prev, rows[r], [x] + xs)
  {
    hide Reports, Grew, IsReported;
    forall r | 0 <= r < |rows| && Grew(prev, rows[r]) ensures IsReported(prev, rows[r], [x] + xs) {
      ReportedMore(prev, rows[r], x, xs);
      if r > 0 {
        assert rows[1..][r - 1] == rows[r];
      }
    }
  }

  lemma PrependDistinct(x: Stored, xs: seq<Stored>)
    requires forall j :: 0 <= j < |xs| ==> xs[j].key != x.key
    requires forall i, j :: 0 <= i < j < |xs| ==> xs[i].key != xs[j].key
    ensures forall i, j :: 0 <= i < j < |[x] + xs| ==> ([x] + xs)[i].key != ([x] + xs)[j].key
  {
    var all := [x] + xs;
    assert forall i :: 0 < i < |all| ==> all[i] == xs[i - 1];
  }

  lemma ReportsHead(prev: Snapshot, rows: seq<PsRow>, x: Stored)
    requires rows != [] && Reports(prev, rows[0], x)
    ensures ReportsSome(prev, rows, x)
  {
    hide Reports;
  }

  lemma WhatIsStored(prev: Option<Snapshot>, rows: seq<PsRow>, ok: seq<bool>)
    ensures prev.None? || WentBack(prev.value, rows) ==> Inserted(DiffPsSnapshots(prev, rows), ok) == []
    ensures prev.Some? && !WentBack(prev.value, rows) && DistinctKeys(rows) && AllOk(ok, |rows|) ==>
              ReportsExactly(prev.value, rows, Inserted(DiffPsSnapshots(prev, rows), ok))
  {
    hide DiffRows, ReportsExactly;
    if prev.Some? {
      assert WentBack(prev.value, rows) <==> exists i :: 0 <= i < |rows| && Regresses(prev.value, rows[i]);
      if !WentBack(prev.value, rows) && DistinctKeys(rows) && AllOk(ok, |rows|) {
        var ds := DiffRows(prev.value, rows);
        DiffRowsReport(prev.value, rows);
        AllInserted(ds, ok);
        assert Inserted(ds, ok) == StoredRows(ds);
      }
    }
  }

  class PsCollector {
    var cursor: Option<Snapshot>
    var stored: seq<Stored>

    constructor ()
      ensures cursor == None && stored == []
    {
      cursor, stored := None, [];
    }

    /** One collection of the table rows; `insertOk` and `saveOk` say which writes succeed. */
    method Collect(rows: seq<PsRow>, insertOk: seq<bool>, saveOk: bool) returns (n: nat)
      modifies this
      ensures stored == old(stored) + Inserted(DiffPsSnapshots(old(cursor), rows), insertOk)
      ensures cursor == if saveOk then Some(Snap(rows)) else old(cursor)
      ensures n == |stored| - |old(stored)|
      ensures old(cursor).None? || WentBack(old(cursor).value, rows) ==> stored == old(stored)
      ensures old(cursor).Some? && !WentBack(old(cursor).value, rows) && DistinctKeys(rows) && AllOk(insertOk, |rows|) ==>
                old(stored) <= stored && ReportsExactly(old(cursor).value, rows, stored[|old(stored)|..])
      ensures saveOk && DistinctKeys(rows) ==> cursor.Some? && Remembers(cursor.value, rows)
    {
      var deltas := DiffPsSnapshots(cursor, rows);
      n := 0;
      var i := 0;
      while i < |deltas|
        invariant 0 <= i <= |deltas|
        invariant cursor == old(cursor)
        invariant stored == old(stored) + Inserted(deltas[..i], insertOk)
        invariant n == |stored| - |old(stored)|
      {
        assert deltas[..i + 1][..i] == deltas[..i];
        if i < |insertOk| && insertOk[i] {
          stored := stored + [StoredRow(deltas[i])];
          n := n + 1;
        }
        i := i + 1;
      }
      assert deltas[..i] == deltas;
      var snapshot: Snapshot := map[];
      i := 0;
      while i < |rows|
        invariant 0 <= i <= |rows|
        invariant snapshot == Snap(rows[..i])
      {
        assert rows[..i + 1][..i] == rows[..i];
        snapshot := snapshot[rows[i].key := (rows[i].count, rows[i].totalMs)];
        i := i + 1;
      }
      assert rows[..i] == rows;
      WhatIsStored(old(cursor), rows, insertOk);
      if DistinctKeys(rows) {
        SnapRemembers(rows);
      }
      if saveOk {
        cursor := Some(snapshot);
      }
    }
  }

  // ── The server and the history ──

  /** Live counters (executions, picoseconds), true execution counts, and the collector's state. */
  datatype World = World(live: map<string, (nat, nat)>, truth: map<string, nat>, cursor: Option<Snapshot>, stored: seq<Stored>)

  const START := World(map[], map[], None, [])

  /**
   What can happen: a statement runs; the server restarts or its table is truncated; one counter is
   dropped; the collector reads any selection of the table; the remembered snapshot becomes unreadable.
   */
  datatype Event =
    | Execute(key: string, ps: nat)
    | Restart
    | Forget(key: string)
    | Collect(rows: seq<PsRow>, insertOk: seq<bool>, saveOk: bool)
    | LoseCursor

  predicate Reads(live: map<string, (nat, nat)>, row: PsRow) {
    row.key in live && row.count == Saturate(live[row.key].0) && row.totalMs == PsToMs(Saturate(live[row.key].1))
  }

  predicate Possible(w: World, e: Event) {
    e.Collect? ==> DistinctKeys(e.rows) && forall i :: 0 <= i < |e.rows| ==> Reads(w.live, e.rows[i])
  }

  function Counter(m: map<string, nat>, key: string): nat {
    if key in m then m[key] else 0
  }

  function Apply(w: World, e: Event): World {
    match e
    case Execute(k, ps) =>
      var (c, t) := if k in w.live then w.live[k] else (0, 0);
      w.(live := w.live[k := (c + 1, t + ps)], truth := w.truth[k := Counter(w.truth, k) + 1])
    case Restart => w.(live := map[])
    case Forget(k) => w.(live := w.live - {k})
    case Collect(rows, insertOk, saveOk) =>
      w.(stored := w.stored + Inserted(DiffPsSnapshots(w.cursor, rows), insertOk),
         cursor := if saveOk then Some(Snap(rows)) else w.cursor)
    case LoseCursor => w.(cursor := None)
  }

  function RunFrom(w: World, events: seq<Event>): World {
    if events == [] then w else Apply(RunFrom(w, events[..|events| - 1]), events[|events| - 1])
  }

  /** Events the server can produce from here. */
  predicate HistoryFrom(w: World, events: seq<Event>) {
    events == [] ||
    (HistoryFrom(w, events[..|events| - 1]) && Possible(RunFrom(w, events[..|events| - 1]), events[|events| - 1]))
  }

  function Run(events: seq<Event>): World {
    RunFrom(START, events)
  }

  predicate History(events: seq<Event>) {
    HistoryFrom(START, events)
  }

  predicate AlwaysSaves(events: seq<Event>) {
    forall i :: 0 <= i < |events| && events[i].Collect? ==> events[i].saveOk
  }

  /** The executions of `key` that the stored rows claim. */
  function Claimed(stored: seq<Stored>, key: string): nat {
    if stored == [] then 0
    else Claimed(stored[..|stored| - 1], key) + if stored[|stored| - 1].key == key then stored[|stored| - 1].queryCount else 0
  }

  /** The growth the next collection could still report for `key`. */
  function Reportable(w: World, key: string): nat {
    if w.cursor.Some? && key in w.cursor.value && key in w.live && Saturate(w.live[key].0) > w.cursor.value[key].0
    then Saturate(w.live[key].0) - w.cursor.value[key].0
    else 0
  }

  /** What is claimed and what could be claimed next never exceed what ran. */
  predicate Honest(w: World, key: string) {
    Claimed(w.stored, key) + Reportable(w, key) <= Counter(w.truth, key)
  }

  lemma {:induction false} ClaimedConcat(a: seq<Stored>, b: seq<Stored>, key: string)
    ensures Claimed(a + b, key) == Claimed(a, key) + Claimed(b, key)
  {
    if b == [] {
      assert a + b == a;
    } else {
      assert (a + b)[..|a + b| - 1] == a + b[..|b| - 1];
      ClaimedConcat(a, b[..|b| - 1], key);
    }
  }

  function SumCount(deltas: seq<PsDelta>, key: string): nat {
    if deltas == [] then 0 else (if deltas[0].key == key then deltas[0].count else 0) + SumCount(deltas[1..], key)
  }

  lemma {:induction false} SumCountConcat(a: seq<PsDelta>, b: seq<PsDelta>, key: string)
    ensures SumCount(a + b, key) == SumCount(a, key) + SumCount(b, key)
  {
    if a == [] {
      assert a + b == b;
    } else {
      assert (a + b)[1..] == a[1..] + b;
      SumCountConcat(a[1..], b, key);
    }
  }

  lemma {:induction false} InsertedClaims(deltas: seq<PsDelta>, ok: seq<bool>, key: string)
    ensures Claimed(Inserted(deltas, ok), key) <= SumCount(deltas, key)
    ensures AllOk(ok, |deltas|) ==> Claimed(Inserted(deltas, ok), key) == SumCount(deltas, key)
  {
    if deltas != [] {
      var front, last := deltas[..|deltas| - 1], deltas[|deltas| - 1];
      InsertedClaims(front, ok, key);
      assert deltas == front + [last];
      SumCountConcat(front, [last], key);
      assert [last][1..] == [] && [StoredRow(last)][..0] == [];
      assert SumCount([last], key) == (if last.key == key then last.count else 0);
      var row := if |deltas| - 1 < |ok| && ok[|deltas| - 1] then [StoredRow(last)] else [];
      assert Claimed(row, key) <= SumCount([last], key);
      ClaimedConcat(Inserted(front, ok), row, key);
    }
  }

  predicate AllOk(ok: seq<bool>, n: nat) {
    n <= |ok| && forall i :: 0 <= i < n ==> ok[i]
  }

  predicate Mentions(rows: seq<PsRow>, key: string) {
    exists i :: 0 <= i < |rows| && rows[i].key == key
  }

  function RowOf(rows: seq<PsRow>, key: string): (row: PsRow)
    requires Mentions(rows, key)
    ensures row in rows && row.key == key
  {
    if rows[0].key == key then rows[0]
    else
      assert forall i :: 0 < i < |rows| ==> rows[i] == rows[1..][i - 1];
      RowOf(rows[1..], key)
  }

  /** With distinct keys, the differences attribute to a key exactly its own row's growth. */
  lemma {:induction false} DiffCounts(prev: Snapshot, rows: seq<PsRow>, key: string)
    requires DistinctKeys(rows)
    ensures SumCount(DiffRows(prev, rows), key) ==
            if Mentions(rows, key) && DiffRow(prev, RowOf(rows, key)).Some? then DiffRow(prev, RowOf(rows, key)).value.count else 0
  {
    if rows != [] {
      var rest := rows[1..];
      assert forall i :: 0 <= i < |rest| ==> rest[i] == rows[i + 1];
      DiffCounts(prev, rest, key);
      var ds := DiffRows(prev, rest);
      if DiffRow(prev, rows[0]).Some? {
        assert ([DiffRow(prev, rows[0]).value] + ds)[1..] == ds;
      }
      if rows[0].key == key {
        assert !Mentions(rest, key);
      } else {
        assert Mentions(rows, key) <==> Mentions(rest, key) by {
          if Mentions(rest, key) {
            assert RowOf(rest, key) in rest;
          }
        }
      }
    }
  }

  lemma {:induction false} SnapHas(rows: seq<PsRow>, key: string)
    requires DistinctKeys(rows)
    ensures key in Snap(rows) <==> Mentions(rows, key)
    ensures Mentions(rows, key) ==> Snap(rows)[key] == (RowOf(rows, key).count, RowOf(rows, key).totalMs)
  {
    if rows != [] {
      var front, last := rows[..|rows| - 1], rows[|rows| - 1];
      assert rows == front + [last];
      SnapHas(front, key);
      if last.key == key {
        assert Mentions(rows, key);
        assert RowOf(rows, key) == last;
      } else if Mentions(front, key) {
        assert RowOf(front, key) in rows;
        assert RowOf(rows, key) == RowOf(front, key);
      }
    }
  }

  lemma CollectIsHonest(w: World, rows: seq<PsRow>, insertOk: seq<bool>, key: string)
    requires Honest(w, key) && Possible(w, Collect(rows, insertOk, true))
    ensures Honest(Apply(w, Collect(rows, insertOk, true)), key)
  {
    var deltas := DiffPsSnapshots(w.cursor, rows);
    ClaimedConcat(w.stored, Inserted(deltas, insertOk), key);
    InsertedClaims(deltas, insertOk, key);
    SnapHas(rows, key);
    if w.cursor.Some? {
      DiffCounts(w.cursor.value, rows, key);
    }
  }

  /** The executions of `key` that one collection stores. */
  function StoredBy(w: World, e: Event, key: string): nat {
    if e.Collect? then Claimed(Inserted(DiffPsSnapshots(w.cursor, e.rows), e.insertOk), key) else 0
  }

  /** Each collection saves its snapshot, or stores nothing of `key`. */
  predicate SavesWhatItStores(w: World, events: seq<Event>, key: string) {
    events == [] ||
    var front, e := events[..|events| - 1], events[|events| - 1];
    SavesWhatItStores(w, front, key) && (e.Collect? ==> e.saveOk || StoredBy(RunFrom(w, front), e, key) == 0)
  }

  /**
   A collection whose snapshot is not saved leaves the account honest exactly when what it stored fits
   in the executions neither claimed nor still reportable.
   */
  lemma UnsavedIsHonestExactly(w: World, e: Event, key: string)
    requires Honest(w, key) && Possible(w, e) && e.Collect? && !e.saveOk
    ensures Honest(Apply(w, e), key) <==>
            StoredBy(w, e, key) <= Counter(w.truth, key) - Claimed(w.stored, key) - Reportable(w, key)
  {
    hide DiffPsSnapshots, Inserted;
    ClaimedConcat(w.stored, Inserted(DiffPsSnapshots(w.cursor, e.rows), e.insertOk), key);
  }

  lemma StepIsHonest(w: World, e: Event, key: string)
    requires Honest(w, key) && Possible(w, e) && (e.Collect? ==> e.saveOk || StoredBy(w, e, key) == 0)
    ensures Honest(Apply(w, e), key)
  {
    hide DiffPsSnapshots, Inserted;
    if e.Collect? {
      if e.saveOk {
        CollectIsHonest(w, e.rows, e.insertOk, key);
      } else {
        UnsavedIsHonestExactly(w, e, key);
      }
    }
  }

  lemma {:induction false} RunIsHonest(w: World, events: seq<Event>, key: string)
    requires Honest(w, key) && HistoryFrom(w, events) && SavesWhatItStores(w, events, key)
    ensures Honest(RunFrom(w, events), key)
  {
    hide Honest, Apply, Possible, StoredBy;
    if events != [] {
      var front := events[..|events| - 1];
      RunIsHonest(w, front, key);
      StepIsHonest(RunFrom(w, front), events[|events| - 1], key);
    }
  }

  /**
   In every history of executions, restarts, dropped counters and collections, no digest is ever
   credited with more executions than it had, as long as a collection that stores some of its growth
   saves its snapshot; even when a restart is not noticed because every known counter has already grown
   past its remembered value.
   */
  lemma NeverOvercounts(events: seq<Event>, key: string)
    requires History(events) && SavesWhatItStores(START, events, key)
    ensures Claimed(Run(events).stored, key) <= Counter(Run(events).truth, key)
  {
    RunIsHonest(START, events, key);
  }

  lemma {:induction false} AlwaysSavingIsEnough(w: World, events: seq<Event>, key: string)
    requires AlwaysSaves(events)
    ensures SavesWhatItStores(w, events, key)
  {
    if events != [] {
      var front := events[..|events| - 1];
      assert forall i :: 0 <= i < |front| ==> front[i] == events[i];
      AlwaysSavingIsEnough(w, front, key);
    }
  }

  // ── Exactly when an account is honest ──

  predicate Overcounts(w: World, key: string) {
    Claimed(w.stored, key) > Counter(w.truth, key)
  }

  /** Some continuation, whose collections all save, credits the key with more than it had. */
  ghost predicate CanOvercount(w: World, key: string) {
    exists events :: HistoryFrom(w, events) && AlwaysSaves(events) && Overcounts(RunFrom(w, events), key)
  }

  lemma HonestExactly(w: World, key: string)
    ensures Honest(w, key) <==> !CanOvercount(w, key)
  {
    hide RunFrom, HistoryFrom, Claimed, Reportable;
    if Honest(w, key) {
      forall events | HistoryFrom(w, events) && AlwaysSaves(events) ensures !Overcounts(RunFrom(w, events), key) {
        AlwaysSavingIsEnough(w, events, key);
        RunIsHonest(w, events, key);
      }
    } else if Overcounts(w, key) {
      NoEvents(w);
      assert HistoryFrom(w, []) && AlwaysSaves([]) && Overcounts(RunFrom(w, []), key);
    } else {
      ReportsAll(w, key);
    }
  }

  lemma NoEvents(w: World)
    ensures RunFrom(w, []) == w && HistoryFrom(w, [])
  {
  }

  /** The next collection can report all that is reportable. */
  lemma ReportsAll(w: World, key: string)
    requires Reportable(w, key) > 0 && !Honest(w, key)
    ensures CanOvercount(w, key)
  {
    var row := PsRow(key, "", Saturate(w.live[key].0), PsToMs(Saturate(w.live[key].1)));
    var e := Collect([row], [true], true);
    OneDifference(w.cursor.value, row);
    ClaimedConcat(w.stored, Inserted(DiffPsSnapshots(w.cursor, [row]), [true]), key);
    assert Overcounts(Apply(w, e), key);
    assert Possible(w, e);
    OneEvent(w, e);
    assert AlwaysSaves([e]);
  }

  lemma OneEvent(w: World, e: Event)
    ensures RunFrom(w, [e]) == Apply(w, e) && (HistoryFrom(w, [e]) <==> Possible(w, e))
  {
    hide Apply, Possible;
    assert [e][..0] == [];
  }

  lemma OneDifference(prev: Snapshot, row: PsRow)
    requires row.key in prev && row.count > prev[row.key].0
    ensures Claimed(Inserted(DiffPsSnapshots(Some(prev), [row]), [true]), row.key) == row.count - prev[row.key].0
  {
    hide SchemaOfKey, Claimed, Inserted;
    var d := DiffRow(prev, row).value;
    assert [row][1..] == [] && [d] + [] == [d];
    assert DiffRows(prev, [row]) == [d] by {
      assert DiffRows(prev, []) == [];
    }
    assert !Regresses(prev, row);
    OneClaim(d);
  }

  lemma OneClaim(d: PsDelta)
    ensures Claimed(Inserted([d], [true]), d.key) == d.count
  {
    assert [d][..0] == [];
    assert Inserted([d], [true]) == [StoredRow(d)];
    assert [StoredRow(d)][..0] == [];
  }

  /** From an honest account, an unsaved collection can lead to overcounting exactly when what it stored does not fit. */
  lemma UnsavedOvercountsExactly(w: World, e: Event, key: string)
    requires Honest(w, key) && Possible(w, e) && e.Collect? && !e.saveOk
    ensures CanOvercount(Apply(w, e), key) <==>
            StoredBy(w, e, key) > Counter(w.truth, key) - Claimed(w.stored, key) - Reportable(w, key)
  {
    hide Apply, StoredBy, Honest, CanOvercount, Possible;
    UnsavedIsHonestExactly(w, e, key);
    HonestExactly(Apply(w, e), key);
  }

  lemma RunAppend(events: seq<Event>, e: Event)
    ensures Run(events + [e]) == Apply(Run(events), e)
    ensures History(events + [e]) <==> History(events) && Possible(Run(events), e)
  {
    hide Apply, Possible;
    assert (events + [e])[..|events|] == events;
    assert Run(events + [e]) == Apply(Run(events), e);
  }

  /** The one growth of the example below. */
  lemma ExampleDiff(key: string, r1: PsRow, r2: PsRow)
    requires r1 == PsRow(key, "q", 1, 0) && r2 == PsRow(key, "q", 2, 0)
    ensures Snap([r1]) == map[key := (1, 0)]
    ensures forall stored :: Claimed(stored + Inserted(DiffPsSnapshots(Some(Snap([r1])), [r2]), [true]), key) == Claimed(stored, key) + 1
  {
    assert [r1][..0] == [] && Snap([]) == map[];
    var prev := Snap([r1]);
    var d := PsDelta(key, 1, 0, "q", SchemaOfKey(key));
    assert DiffRow(prev, r2) == Some(d);
    assert [r2][1..] == [] && DiffRows(prev, []) == [] && [d] + [] == [d];
    assert DiffRows(prev, [r2]) == [d];
    assert !Regresses(prev, r2);
    assert DiffPsSnapshots(Some(prev), [r2]) == [d];
    assert [d][..0] == [] && Inserted([], [true]) == [];
    assert Inserted([d], [true]) == [StoredRow(d)];
    forall stored ensures Claimed(stored + [StoredRow(d)], key) == Claimed(stored, key) + 1 {
      assert (stored + [StoredRow(d)])[..|stored|] == stored;
    }
  }

  /** Two executions with one collection between them. */
  lemma ExampleStart(key: string, r1: PsRow)
    requires r1 == PsRow(key, "q", 1, 0)
    ensures var events := [Execute(key, 0)] + [Collect([r1], [], true)] + [Execute(key, 0)];
            History(events) && Run(events) == World(map[key := (2, 0)], map[key := 2], Some(Snap([r1])), [])
  {
    hide SchemaOfKey, DiffPsSnapshots, Inserted, Snap, Run, History;
    var run, first := Execute(key, 0), Collect([r1], [], true);
    NothingInserted([r1]);
    RunNothing();
    assert [] + [run] == [run];
    RunAppend([], run);
    assert Run([run]) == World(map[key := (1, 0)], map[key := 1], None, []);
    RunAppend([run], first);
    assert Run([run] + [first]) == World(map[key := (1, 0)], map[key := 1], Some(Snap([r1])), []);
    RunAppend([run] + [first], run);
  }

  lemma RunNothing()
    ensures Run([]) == START && History([])
  {
  }

  /** Inserts whose snapshot is not saved overcount: the same growth is stored again. */
  lemma UnsavedSnapshotsOvercount()
    ensures exists events, key :: History(events) && Claimed(Run(events).stored, key) > Counter(Run(events).truth, key)
  {
    hide SchemaOfKey, DiffPsSnapshots, Inserted, Snap, Claimed, Run, History;
    var key := "a|";
    var r1, r2 := PsRow(key, "q", 1, 0), PsRow(key, "q", 2, 0);
    var again := Collect([r2], [true], false);
    ExampleDiff(key, r1, r2);
    ExampleStart(key, r1);
    var c := [Execute(key, 0)] + [Collect([r1], [], true)] + [Execute(key, 0)];
    var c1 := c + [again];
    var c2 := c1 + [again];
    var c3 := c2 + [again];
    RunAppend(c, again);
    RunAppend(c1, again);
    RunAppend(c2, again);
    assert Claimed(Run(c3).stored, key) == Claimed([], key) + 3;
    assert History(c3) && Counter(Run(c3).truth, key) == 2;
  }

  lemma NothingInserted(rows: seq<PsRow>)
    ensures Inserted(DiffPsSnapshots(None, rows), []) == []
  {
  }

  // ── Telescoping ──

  /** All differences over consecutive snapshots, starting from a remembered one. */
  function AllDeltas(prev: Snapshot, snaps: seq<seq<PsRow>>): seq<PsDelta>
    decreases |snaps|
  {
    if snaps == [] then []
    else DiffPsSnapshots(Some(prev), snaps[0]) + AllDeltas(Snap(snaps[0]), snaps[1..])
  }

  function SumMs(deltas: seq<PsDelta>, key: string): nat {
    if deltas == [] then 0 else (if deltas[0].key == key then deltas[0].totalMs else 0) + SumMs(deltas[1..], key)
  }

  function SumStoredMs(deltas: seq<PsDelta>, key: string): nat {
    if deltas == [] then 0 else (if deltas[0].key == key then StoredRow(deltas[0]).elapsedMs else 0) + SumStoredMs(deltas[1..], key)
  }

  function RowCount(deltas: seq<PsDelta>, key: string): nat {
    if deltas == [] then 0 else (if deltas[0].key == key then 1 else 0) + RowCount(deltas[1..], key)
  }

  /** Every snapshot holds `key`, no counter goes back from one to the next, nor does the key's time. */
  predicate NoReset(prev: Snapshot, snaps: seq<seq<PsRow>>, key: string)
    decreases |snaps|
  {
    key in prev &&
    (snaps == [] ||
     (&& DistinctKeys(snaps[0]) && Mentions(snaps[0], key)
      && (forall i :: 0 <= i < |snaps[0]| ==> !Regresses(prev, snaps[0][i]))
      && RowOf(snaps[0], key).totalMs >= prev[key].1
      && NoReset(Snap(snaps[0]), snaps[1..], key)))
  }

  /** The value of `key` in the last snapshot. */
  function Last(prev: Snapshot, snaps: seq<seq<PsRow>>, key: string): (nat, nat)
    requires NoReset(prev, snaps, key)
    decreases |snaps|
  {
    if snaps == [] then prev[key] else Last(Snap(snaps[0]), snaps[1..], key)
  }

  /** Time the key gained in intervals in which its count did not grow. */
  function IdleMs(prev: Snapshot, snaps: seq<seq<PsRow>>, key: string): nat
    requires NoReset(prev, snaps, key)
    decreases |snaps|
  {
    if snaps == [] then 0
    else
      var row := RowOf(snaps[0], key);
      (if row.count == prev[key].0 then row.totalMs - prev[key].1 else 0) + IdleMs(Snap(snaps[0]), snaps[1..], key)
  }

  lemma {:induction false} SumsConcat(a: seq<PsDelta>, b: seq<PsDelta>, key: string)
    ensures SumMs(a + b, key) == SumMs(a, key) + SumMs(b, key)
    ensures SumStoredMs(a + b, key) == SumStoredMs(a, key) + SumStoredMs(b, key)
    ensures RowCount(a + b, key) == RowCount(a, key) + RowCount(b, key)
  {
    if a == [] {
      assert a + b == b;
    } else {
      assert (a + b)[1..] == a[1..] + b;
      SumsConcat(a[1..], b, key);
    }
  }

  /** One difference attributes to a key its own row's growth, in time as in executions. */
  lemma {:induction false} DiffSums(prev: Snapshot, rows: seq<PsRow>, key: string)
    requires DistinctKeys(rows)
    ensures var ds := DiffRows(prev, rows);
            if Mentions(rows, key) && DiffRow(prev, RowOf(rows, key)).Some? then
              var d := DiffRow(prev, RowOf(rows, key)).value;
              SumMs(ds, key) == d.totalMs && SumStoredMs(ds, key) == StoredRow(d).elapsedMs && RowCount(ds, key) == 1
            else SumMs(ds, key) == 0 && SumStoredMs(ds, key) == 0 && RowCount(ds, key) == 0
  {
    if rows != [] {
      var rest := rows[1..];
      assert forall i :: 0 <= i < |rest| ==> rest[i] == rows[i + 1];
      DiffSums(prev, rest, key);
      var ds := DiffRows(prev, rest);
      if DiffRow(prev, rows[0]).Some? {
        assert ([DiffRow(prev, rows[0]).value] + ds)[1..] == ds;
      }
      if rows[0].key == key {
        assert !Mentions(rest, key);
      } else {
        assert Mentions(rows, key) <==> Mentions(rest, key) by {
          if Mentions(rest, key) {
            assert RowOf(rest, key) in rest;
          }
        }
      }
    }
  }

  /**
   Over consecutive snapshots of a key with no reset, the reported executions are exactly last minus
   first. The reported time misses exactly the time gained while the count stood still, so it is last
   minus first if and only if there is none; what is stored exceeds it by at most one per row.
   */
  lemma {:induction false} CountersTelescope(prev: Snapshot, snaps: seq<seq<PsRow>>, key: string)
    requires NoReset(prev, snaps, key)
    ensures var ds := AllDeltas(prev, snaps); var last := Last(prev, snaps, key);
            && SumCount(ds, key) == last.0 - prev[key].0
            && SumMs(ds, key) == last.1 - prev[key].1 - IdleMs(prev, snaps, key)
            && (SumMs(ds, key) == last.1 - prev[key].1 <==> IdleMs(prev, snaps, key) == 0)
            && SumMs(ds, key) <= SumStoredMs(ds, key) <= SumMs(ds, key) + RowCount(ds, key)
    decreases |snaps|
  {
    hide DiffRows;
    if snaps != [] {
      var row := RowOf(snaps[0], key);
      var ds, rest := DiffPsSnapshots(Some(prev), snaps[0]), AllDeltas(Snap(snaps[0]), snaps[1..]);
      assert ds == DiffRows(prev, snaps[0]);
      DiffCounts(prev, snaps[0], key);
      DiffSums(prev, snaps[0], key);
      SnapHas(snaps[0], key);
      CountersTelescope(Snap(snaps[0]), snaps[1..], key);
      SumCountConcat(ds, rest, key);
      SumsConcat(ds, rest, key);
      assert exists i :: 0 <= i < |snaps[0]| && snaps[0][i] == row;
      assert !Regresses(prev, row);
    }
  }
}
