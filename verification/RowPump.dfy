/**
 The streaming row pump. One loop waits on four things at once: cancellation, the deadline, room in
 the event channel and the next row. `Step` is one resolution of that wait, for any resolution the
 environment may choose; `StreamRows` is the loop, proved to follow it. The reference is `Expected`:
 the column description, then the first rows in chunks of 500.
 */
module RowPump {
  import opened Wrappers

  const BATCH_SIZE := 500

  /** A JSON value as text. */
  type Value = string
  type Columns = seq<string>

  datatype MappedRow = MappedRow(columns: Columns, values: seq<Value>, types: Option<seq<string>>)
  datatype Item = Row(row: MappedRow) | Failure(message: string)
  datatype CompleteInfo = CompleteInfo(rowCount: nat, truncated: bool)
  datatype StreamError = Cancelled | Timeout | Engine(message: string)
  type Outcome = Result<CompleteInfo, StreamError>

  datatype Event =
    | Meta(columns: Columns, types: Option<seq<string>>)
    | Rows(rows: seq<seq<Value>>)
    | Complete(info: CompleteInfo)
    | Error(error: StreamError)

  // ── The reference ──

  function Max(a: nat, b: nat): nat {
    if a >= b then a else b
  }

  /** The rows before the first failure, at most `limit` of them. */
  function Taken(source: seq<Item>, limit: nat): (rows: seq<MappedRow>)
    ensures |rows| <= limit && |rows| <= |source|
    ensures forall i :: 0 <= i < |rows| ==> source[i] == Row(rows[i])
    ensures |rows| < limit && |rows| < |source| ==> source[|rows|].Failure?
    decreases limit
  {
    if limit == 0 || source == [] || source[0].Failure? then []
    else
      var rest := Taken(source[1..], limit - 1);
      assert forall i :: 0 <= i < |rest| ==> source[i + 1] == source[1..][i];
      [source[0].row] + rest
  }

  function Values(rows: seq<MappedRow>): (vs: seq<seq<Value>>)
    ensures |vs| == |rows|
    ensures forall i :: 0 <= i < |vs| ==> vs[i] == rows[i].values
  {
    seq(|rows|, i requires 0 <= i < |rows| => rows[i].values)
  }

  /** `slice::chunks(BATCH_SIZE)`. */
  function Chunks<T>(rows: seq<T>): seq<seq<T>> {
    if rows == [] then []
    else if |rows| <= BATCH_SIZE then [rows]
    else [rows[..BATCH_SIZE]] + Chunks(rows[BATCH_SIZE..])
  }

  function RowEvents(chunks: seq<seq<seq<Value>>>): (es: seq<Event>)
    ensures |es| == |chunks|
    ensures forall i :: 0 <= i < |es| ==> es[i] == Rows(chunks[i])
  {
    seq(|chunks|, i requires 0 <= i < |chunks| => Rows(chunks[i]))
  }

  function MetaOf(rows: seq<MappedRow>): Event {
    if rows == [] then Meta([], None) else Meta(rows[0].columns, rows[0].types)
  }

  /** The loop tests the limit after taking a row, so it takes one row even when the limit is 0. */
  function Effective(limit: nat): nat {
    Max(limit, 1)
  }

  function Expected(source: seq<Item>, limit: nat): seq<Event> {
    var rows := Taken(source, Effective(limit));
    [MetaOf(rows)] + RowEvents(Chunks(Values(rows)))
  }

  /** The first event describes the first row's columns and types; the rows follow with their own values. */
  lemma ExpectedSays(source: seq<Item>, limit: nat)
    ensures var rows := Taken(source, Effective(limit));
            && Expected(source, limit)[0] ==
               (if rows == [] then Meta([], None) else Meta(source[0].row.columns, source[0].row.types))
            && Expected(source, limit)[1..] == RowEvents(Chunks(Values(rows)))
            && |Values(rows)| == |rows| && forall i :: 0 <= i < |rows| ==> source[i].Row? && Values(rows)[i] == source[i].row.values
  {
    hide Chunks;
    var rows := Taken(source, Effective(limit));
    assert rows != [] ==> source[0] == Row(rows[0]);
  }

  // ── The step machine ──

  /** What a wait resolves to. `Close` is the client going away, which can happen at any time. */
  datatype Choice = Cancel | Deadline | Reserve | Next | Close

  datatype Phase =
    | Pumping
    | FlushMeta
    | FlushRows
    | Returned(outcome: Outcome, flushed: bool)
    | Ended(outcome: Outcome, flushed: bool, sent: bool)

  datatype Pump = Pump(
    open: bool,
    delivered: seq<Event>,
    rowCount: nat,
    truncated: bool,
    batch: seq<seq<Value>>,
    metaPending: Option<(Columns, Option<seq<string>>)>,
    phase: Phase)

  const START := Pump(true, [], 0, false, [], None, Pumping)

  /** An event reaches the channel unless the client is gone. */
  function Send(p: Pump, e: Event): Pump {
    if p.open then p.(delivered := p.delivered + [e]) else p
  }

  function Info(p: Pump): CompleteInfo {
    CompleteInfo(p.rowCount, p.truncated)
  }

  function PullRow(p: Pump, row: MappedRow, limit: nat): Pump {
    var done := p.rowCount + 1 >= limit;
    p.(metaPending := if p.rowCount == 0 then Some((row.columns, row.types)) else p.metaPending,
       rowCount := p.rowCount + 1,
       batch := p.batch + [row.values],
       truncated := done,
       phase := if done then FlushMeta else Pumping)
  }

  function Terminal(outcome: Outcome): Event {
    match outcome
    case Ok(info) => Complete(info)
    case Err(e) => Error(e)
  }

  /** One resolution of the wait the pump is at; a choice whose branch is disabled changes nothing. */
  function Step(source: seq<Item>, limit: nat, p: Pump, c: Choice): Pump {
    if c.Close? then p.(open := false)
    else
      match p.phase
      case Pumping => (
        match c
        case Cancel => p.(phase := Returned(Err(Cancelled), false))
        case Deadline => p.(phase := Returned(Err(Timeout), false))
        case Reserve =>
          if p.metaPending.Some? then
            (if p.open then Send(p, Meta(p.metaPending.value.0, p.metaPending.value.1)).(metaPending := None) else p)
          else if |p.batch| >= BATCH_SIZE then
            (if p.open then Send(p, Rows(p.batch)).(batch := []) else p)
          else p
        case Close => p
        case Next =>
          if |p.batch| >= BATCH_SIZE then p
          else if p.rowCount >= |source| then p.(phase := FlushMeta)
          else if source[p.rowCount].Failure? then p.(phase := Returned(Err(Engine(source[p.rowCount].message)), false))
          else PullRow(p, source[p.rowCount].row, limit)
      )
      case FlushMeta => (
        match c
        case Reserve =>
          (if p.metaPending.Some? then Send(p, Meta(p.metaPending.value.0, p.metaPending.value.1)) else p)
          .(metaPending := None, phase := FlushRows)
        case Cancel => p.(phase := Returned(Ok(Info(p)), false))
        case Deadline => p.(phase := Returned(Ok(Info(p)), false))
        case _ => p
      )
      case FlushRows => (
        match c
        case Reserve =>
          (if p.batch != [] then Send(p, Rows(p.batch))
           else if p.rowCount == 0 then Send(p, Meta([], None))
           else p).(phase := Returned(Ok(Info(p)), true))
        case Cancel => p.(phase := Returned(Ok(Info(p)), false))
        case Deadline => p.(phase := Returned(Ok(Info(p)), false))
        case _ => p
      )
      case Returned(outcome, flushed) =>
        if c.Reserve? then Send(p, Terminal(outcome)).(phase := Ended(outcome, flushed, p.open)) else p
      case Ended(_, _, _) => p
  }

  function Run(source: seq<Item>, limit: nat, p: Pump, schedule: seq<Choice>): Pump {
    if schedule == [] then p
    else Step(source, limit, Run(source, limit, p, schedule[..|schedule| - 1]), schedule[|schedule| - 1])
  }

  // ── Chunks ──

  lemma {:induction false} ChunksAppend<T>(a: seq<T>, b: seq<T>)
    requires |a| % BATCH_SIZE == 0 && 0 < |b| <= BATCH_SIZE
    ensures Chunks(a + b) == Chunks(a) + [b]
  {
    if a == [] {
      assert a + b == b;
    } else {
      assert (a + b)[..BATCH_SIZE] == a[..BATCH_SIZE];
      assert (a + b)[BATCH_SIZE..] == a[BATCH_SIZE..] + b;
      ChunksAppend(a[BATCH_SIZE..], b);
      if |a| == BATCH_SIZE {
        assert a[..BATCH_SIZE] == a && Chunks(a[BATCH_SIZE..]) == [];
      }
    }
  }

  lemma {:induction false} ChunksPrefix<T>(a: seq<T>, b: seq<T>)
    requires |a| % BATCH_SIZE == 0
    ensures Chunks(a) <= Chunks(a + b)
  {
    if a == [] {
    } else {
      assert (a + b)[..BATCH_SIZE] == a[..BATCH_SIZE];
      assert (a + b)[BATCH_SIZE..] == a[BATCH_SIZE..] + b;
      ChunksPrefix(a[BATCH_SIZE..], b);
      if |a| == BATCH_SIZE {
        assert a[..BATCH_SIZE] == a && Chunks(a[BATCH_SIZE..]) == [];
        if b == [] {
          assert a + b == a;
        }
      }
    }
  }

  function Joined<T>(chunks: seq<seq<T>>): seq<T> {
    if chunks == [] then [] else chunks[0] + Joined(chunks[1..])
  }

  /** Chunks hold the rows in order, 500 each but for a shorter last one. */
  lemma {:induction false} ChunksOf500<T>(rows: seq<T>)
    ensures Joined(Chunks(rows)) == rows
    ensures forall i :: 0 <= i < |Chunks(rows)| ==> 0 < |Chunks(rows)[i]| <= 500 && (i < |Chunks(rows)| - 1 ==> |Chunks(rows)[i]| == 500)
  {
    if |rows| > BATCH_SIZE {
      var rest := Chunks(rows[BATCH_SIZE..]);
      ChunksOf500(rows[BATCH_SIZE..]);
      assert Chunks(rows)[1..] == rest;
      assert rows == rows[..BATCH_SIZE] + rows[BATCH_SIZE..];
    } else if rows != [] {
      assert Chunks(rows)[1..] == [] && rows + [] == rows;
    }
  }

  // ── Safety of every run ──

  predicate IsData(e: Event) {
    e.Meta? || e.Rows?
  }

  /** The events without the terminal one. */
  function Data(p: Pump): seq<Event> {
    if p.phase.Ended? && p.phase.sent && p.delivered != [] then p.delivered[..|p.delivered| - 1] else p.delivered
  }

  /** While rows flow: what was delivered, then what waits in the buffer, is a prefix of the rows. */
  predicate InFlight(p: Pump, rows: seq<MappedRow>) {
    && p.rowCount <= |rows|
    && |p.batch| <= p.rowCount && |p.batch| <= BATCH_SIZE
    && var k := p.rowCount - |p.batch|;
       && k % BATCH_SIZE == 0
       && p.batch == Values(rows)[k..p.rowCount]
       && (if p.rowCount == 0 || p.metaPending.Some? then p.delivered == [] && k == 0
           else p.delivered == [MetaOf(rows)] + RowEvents(Chunks(Values(rows)[..k])))
       && (p.metaPending.Some? ==> p.rowCount > 0 && MetaOf(rows) == Meta(p.metaPending.value.0, p.metaPending.value.1))
  }

  /** In the flush of a closed channel the column description may be lost; nothing follows it then. */
  predicate Flushing(p: Pump, rows: seq<MappedRow>) {
    && p.rowCount == |rows|
    && (p.phase.FlushMeta? || p.delivered != [] || p.rowCount == 0 ==> InFlight(p, rows))
    && (p.delivered == [] && p.rowCount > 0 && p.phase.FlushRows? ==> !p.open && |p.batch| <= BATCH_SIZE)
  }

  predicate Correct(info: CompleteInfo, source: seq<Item>, limit: nat) {
    && info.rowCount == |Taken(source, Effective(limit))|
    && (info.truncated <==> info.rowCount == Effective(limit))
  }

  predicate Inv(source: seq<Item>, limit: nat, p: Pump) {
    var rows := Taken(source, Effective(limit));
    match p.phase
    case Pumping => InFlight(p, rows) && p.rowCount < Effective(limit) && !p.truncated
    case FlushMeta => Flushing(p, rows) && Correct(Info(p), source, limit)
    case FlushRows => Flushing(p, rows) && Correct(Info(p), source, limit) && p.metaPending.None?
    case Returned(outcome, flushed) =>
      && p.delivered <= Expected(source, limit) && |p.batch| <= BATCH_SIZE
      && (outcome.Ok? ==> Correct(outcome.value, source, limit))
      && (flushed && p.open ==> p.delivered == Expected(source, limit))
      && (outcome.Err? && outcome.error.Engine? ==> |rows| < |source| && source[|rows|] == Failure(outcome.error.message) && |rows| < Effective(limit))
    case Ended(outcome, flushed, sent) =>
      && Data(p) <= Expected(source, limit) && |p.batch| <= BATCH_SIZE
      && (outcome.Ok? ==> Correct(outcome.value, source, limit))
      && (sent ==> p.delivered == Data(p) + [Terminal(outcome)])
      && (flushed && p.open ==> sent && Data(p) == Expected(source, limit))
  }

  lemma RowEventsPrefix(a: seq<seq<seq<Value>>>, b: seq<seq<seq<Value>>>)
    requires a <= b
    ensures RowEvents(a) <= RowEvents(b)
  {
  }

  lemma DataPrefix(source: seq<Item>, limit: nat, p: Pump)
    requires InFlight(p, Taken(source, Effective(limit)))
    ensures p.delivered <= Expected(source, limit)
  {
    hide Chunks, RowEvents, Taken;
    var rows := Taken(source, Effective(limit));
    var k := p.rowCount - |p.batch|;
    var vs := Values(rows);
    assert vs == vs[..k] + vs[k..];
    ChunksPrefix(vs[..k], vs[k..]);
    RowEventsPrefix(Chunks(vs[..k]), Chunks(vs));
  }

  lemma PullInFlight(p: Pump, rows: seq<MappedRow>, limit: nat)
    requires InFlight(p, rows) && |p.batch| < BATCH_SIZE && p.rowCount < |rows|
    ensures InFlight(PullRow(p, rows[p.rowCount], limit), rows)
  {
    hide Chunks;
    var k := p.rowCount - |p.batch|;
    assert Values(rows)[k..p.rowCount] + [Values(rows)[p.rowCount]] == Values(rows)[k..p.rowCount + 1];
  }

  lemma PullKeeps(source: seq<Item>, limit: nat, p: Pump)
    requires Inv(source, limit, p) && p.phase.Pumping? && |p.batch| < BATCH_SIZE
    ensures Inv(source, limit, Step(source, limit, p, Next))
  {
    hide InFlight, Expected;
    var rows := Taken(source, Effective(limit));
    InFlightCounts(p, rows);
    if p.rowCount < |source| && source[p.rowCount].Row? {
      assert p.rowCount < |rows| && source[p.rowCount].row == rows[p.rowCount];
      PullInFlight(p, rows, limit);
      InFlightCounts(PullRow(p, rows[p.rowCount], limit), rows);
    } else {
      assert forall i :: 0 <= i < |rows| ==> source[i].Row?;
      DataPrefix(source, limit, p);
      PhaseInFlight(p, rows, FlushMeta);
    }
  }

  lemma InFlightCounts(p: Pump, rows: seq<MappedRow>)
    requires InFlight(p, rows)
    ensures p.rowCount <= |rows| && |p.batch| <= BATCH_SIZE
  {
  }

  lemma NoChunks<T>()
    ensures Chunks<T>([]) == []
  {
  }

  lemma BatchKeeps(source: seq<Item>, limit: nat, p: Pump)
    requires Inv(source, limit, p) && p.phase.Pumping? && p.metaPending.None? && |p.batch| == BATCH_SIZE
    ensures Inv(source, limit, p.(delivered := p.delivered + [Rows(p.batch)], batch := []))
  {
    hide Chunks;
    AppendBatch(p, Taken(source, Effective(limit)));
  }

  /** Delivering the buffer delivers one more chunk. */
  lemma AppendBatch(p: Pump, rows: seq<MappedRow>)
    requires InFlight(p, rows) && p.metaPending.None? && p.batch != []
    ensures p.delivered + [Rows(p.batch)] == [MetaOf(rows)] + RowEvents(Chunks(Values(rows)[..p.rowCount]))
  {
    hide Chunks;
    var k := p.rowCount - |p.batch|;
    var vs := Values(rows);
    assert vs[..k] + p.batch == vs[..p.rowCount];
    ChunksAppend(vs[..k], p.batch);
    assert RowEvents(Chunks(vs[..k]) + [p.batch]) == RowEvents(Chunks(vs[..k])) + [Rows(p.batch)];
  }

  /** Delivering the column description keeps everything else in flight. */
  lemma MetaInFlight(p: Pump, rows: seq<MappedRow>, phase: Phase)
    requires InFlight(p, rows) && p.metaPending.Some?
    ensures InFlight(p.(delivered := p.delivered + [Meta(p.metaPending.value.0, p.metaPending.value.1)], metaPending := None, phase := phase), rows)
  {
    hide Chunks;
    NoChunks<seq<Value>>();
    assert Values(rows)[..0] == [];
  }

  lemma MetaKeeps(source: seq<Item>, limit: nat, p: Pump)
    requires Inv(source, limit, p) && p.phase.Pumping? && p.metaPending.Some?
    ensures Inv(source, limit, p.(delivered := p.delivered + [Meta(p.metaPending.value.0, p.metaPending.value.1)], metaPending := None))
  {
    hide InFlight, Taken;
    MetaInFlight(p, Taken(source, Effective(limit)), Pumping);
  }

  lemma PumpingKeeps(source: seq<Item>, limit: nat, p: Pump, c: Choice)
    requires Inv(source, limit, p) && p.phase.Pumping?
    ensures Inv(source, limit, Step(source, limit, p, c))
  {
    hide Chunks, Taken, Expected, Inv;
    match c
    case Reserve =>
      assert |p.batch| <= BATCH_SIZE by { PumpingBatch(source, limit, p); }
      if p.metaPending.Some? {
        MetaKeeps(source, limit, p);
      } else if |p.batch| == BATCH_SIZE {
        BatchKeeps(source, limit, p);
      }
    case Next =>
      if |p.batch| < BATCH_SIZE {
        PullKeeps(source, limit, p);
      }
    case _ =>
      StopKeeps(source, limit, p, c);
  }

  lemma PumpingBatch(source: seq<Item>, limit: nat, p: Pump)
    requires Inv(source, limit, p) && p.phase.Pumping?
    ensures |p.batch| <= BATCH_SIZE
  {
    hide Chunks, Taken;
  }

  lemma StopKeeps(source: seq<Item>, limit: nat, p: Pump, c: Choice)
    requires Inv(source, limit, p) && p.phase.Pumping? && (c.Cancel? || c.Deadline? || c.Close?)
    ensures Inv(source, limit, Step(source, limit, p, c))
  {
    hide Chunks, Taken;
    DataPrefix(source, limit, p);
  }

  lemma FlushMetaKeeps(source: seq<Item>, limit: nat, p: Pump, c: Choice)
    requires Inv(source, limit, p) && p.phase.FlushMeta?
    ensures Inv(source, limit, Step(source, limit, p, c))
  {
    hide InFlight, Expected, Taken;
    var rows := Taken(source, Effective(limit));
    DataPrefix(source, limit, p);
    InFlightCounts(p, rows);
    if c.Reserve? {
      PhaseInFlight(p, rows, FlushRows);
      if p.metaPending.Some? && p.open {
        MetaInFlight(p, rows, FlushRows);
      }
    } else if c.Close? {
      ClosedInFlight(p, rows);
    }
  }

  lemma PhaseInFlight(p: Pump, rows: seq<MappedRow>, phase: Phase)
    requires InFlight(p, rows)
    ensures InFlight(p.(phase := phase), rows)
    ensures p.metaPending.None? ==> InFlight(p.(metaPending := None, phase := phase), rows)
    ensures p.metaPending.None? && p.rowCount > 0 ==> p.delivered != []
    ensures p.metaPending.Some? ==> p.delivered == [] && p.rowCount > 0
  {
    hide Chunks, Values;
  }

  lemma ClosedInFlight(p: Pump, rows: seq<MappedRow>)
    requires InFlight(p, rows)
    ensures InFlight(p.(open := false), rows)
  {
    hide Chunks, Values;
  }

  /** With all rows taken, delivering what is left in the buffer completes the reference. */
  lemma LastBatchCompletes(source: seq<Item>, limit: nat, p: Pump)
    requires InFlight(p, Taken(source, Effective(limit))) && p.metaPending.None?
    requires p.rowCount == |Taken(source, Effective(limit))|
    ensures p.batch != [] ==> p.delivered + [Rows(p.batch)] == Expected(source, limit)
    ensures p.batch == [] && p.rowCount == 0 ==> p.delivered + [Meta([], None)] == Expected(source, limit)
    ensures p.batch == [] && p.rowCount > 0 ==> p.delivered == Expected(source, limit)
  {
    hide Chunks, Taken;
    var rows := Taken(source, Effective(limit));
    assert Values(rows)[..|rows|] == Values(rows);
    if p.batch != [] {
      AppendBatch(p, rows);
    } else if p.rowCount == 0 {
      NoChunks<seq<Value>>();
      assert Values(rows) == [] && RowEvents([]) == [];
    }
  }

  lemma FlushRowsKeeps(source: seq<Item>, limit: nat, p: Pump, c: Choice)
    requires Inv(source, limit, p) && p.phase.FlushRows?
    ensures Inv(source, limit, Step(source, limit, p, c))
  {
    hide InFlight, Taken, Expected;
    var rows := Taken(source, Effective(limit));
    if p.delivered != [] || p.rowCount == 0 {
      DataPrefix(source, limit, p);
      InFlightCounts(p, rows);
      LastBatchCompletes(source, limit, p);
      if c.Close? {
        ClosedInFlight(p, rows);
      }
    }
  }

  lemma TerminalKeeps(source: seq<Item>, limit: nat, p: Pump, c: Choice)
    requires Inv(source, limit, p) && (p.phase.Returned? || p.phase.Ended?)
    ensures Inv(source, limit, Step(source, limit, p, c))
  {
    hide Taken, Expected;
    if p.phase.Returned? && c.Reserve? && p.open {
      assert (p.delivered + [Terminal(p.phase.outcome)])[..|p.delivered|] == p.delivered;
    }
  }

  lemma StepKeeps(source: seq<Item>, limit: nat, p: Pump, c: Choice)
    requires Inv(source, limit, p)
    ensures Inv(source, limit, Step(source, limit, p, c))
  {
    hide Inv, Step;
    match p.phase
    case Pumping =>
      PumpingKeeps(source, limit, p, c);
    case FlushMeta =>
      FlushMetaKeeps(source, limit, p, c);
    case FlushRows =>
      FlushRowsKeeps(source, limit, p, c);
    case _ =>
      TerminalKeeps(source, limit, p, c);
  }

  lemma {:induction false} RunKeeps(source: seq<Item>, limit: nat, schedule: seq<Choice>)
    ensures Inv(source, limit, Run(source, limit, START, schedule))
  {
    hide Step, Inv;
    if schedule == [] {
      StartInv(source, limit);
    } else {
      RunKeeps(source, limit, schedule[..|schedule| - 1]);
      StepKeeps(source, limit, Run(source, limit, START, schedule[..|schedule| - 1]), schedule[|schedule| - 1]);
    }
  }

  lemma StartInv(source: seq<Item>, limit: nat)
    ensures Inv(source, limit, START)
  {
    assert Values(Taken(source, Effective(limit)))[0..0] == [];
  }

  // ── The theorems ──

  /** The number of rows the source has before its end or its first failure. */
  function Available(source: seq<Item>): nat {
    |Taken(source, |source|)|
  }

  lemma TakenCounts(source: seq<Item>, limit: nat)
    ensures |Taken(source, limit)| == if Available(source) <= limit then Available(source) else limit
  {
    var a, b := Taken(source, limit), Taken(source, |source|);
    assert forall i :: 0 <= i < |a| ==> source[i].Row?;
    assert forall i :: 0 <= i < |b| ==> source[i].Row?;
  }

  predicate Finished(p: Pump) {
    p.phase.Returned? || p.phase.Ended?
  }

  function OutcomeOf(p: Pump): Outcome
    requires Finished(p)
  {
    p.phase.outcome
  }

  /**
   Every run, whatever the environment does: the data delivered is a prefix of the reference, the
   buffer holds at most one batch, the terminal event is the last and the only one, and a run that
   returns Ok counts min(n, limit) rows, marked truncated exactly when n reaches the limit. A flush
   that completes with the client still there has delivered everything.
   */
  lemma EveryRunIsSafe(source: seq<Item>, limit: nat, schedule: seq<Choice>)
    ensures var p := Run(source, limit, START, schedule);
            var n := Available(source);
            && Data(p) <= Expected(source, limit)
            && |p.batch| <= BATCH_SIZE
            && (forall i :: 0 <= i < |p.delivered| && !IsData(p.delivered[i]) ==>
                  i == |p.delivered| - 1 && p.phase.Ended? && p.delivered[i] == Terminal(p.phase.outcome))
            && (Finished(p) && p.phase.flushed && p.open ==> Data(p) == Expected(source, limit))
            && (Finished(p) && OutcomeOf(p).Ok? ==>
                  && OutcomeOf(p).value.rowCount == (if n <= Effective(limit) then n else Effective(limit))
                  && (OutcomeOf(p).value.truncated <==> n >= Effective(limit)))
  {
    hide Run, Step, Expected, Taken;
    var p := Run(source, limit, START, schedule);
    RunKeeps(source, limit, schedule);
    TakenCounts(source, Effective(limit));
    InvIsPrefix(source, limit, p);
    forall i | 0 <= i < |p.delivered| && !IsData(p.delivered[i])
      ensures i == |p.delivered| - 1 && p.phase.Ended? && p.delivered[i] == Terminal(p.phase.outcome)
    {
      if i < |Data(p)| {
        ExpectedIsData(source, limit, i);
      }
    }
  }

  lemma InvIsPrefix(source: seq<Item>, limit: nat, p: Pump)
    requires Inv(source, limit, p)
    ensures Data(p) <= Expected(source, limit) && |p.batch| <= BATCH_SIZE
  {
    hide InFlight, Taken, Expected;
    var rows := Taken(source, Effective(limit));
    if !Finished(p) && (p.phase.Pumping? || p.phase.FlushMeta? || p.delivered != [] || p.rowCount == 0) {
      DataPrefix(source, limit, p);
      InFlightCounts(p, rows);
    }
  }

  lemma ExpectedIsData(source: seq<Item>, limit: nat, i: nat)
    requires i < |Expected(source, limit)|
    ensures IsData(Expected(source, limit)[i])
  {
    hide Taken, Chunks;
  }

  // ── Why a run ends as it does ──

  predicate AllRows(source: seq<Item>, n: nat) {
    n <= |source| && forall i :: 0 <= i < n ==> source[i].Row?
  }

  /** All that was asked for has been read: the rows reach the limit or the end of the source. */
  predicate ReadEnough(source: seq<Item>, limit: nat, n: nat) {
    AllRows(source, n) && (n == |source| || (n > 0 && n >= limit))
  }

  /** The choice `c`, taken while pumping after `n` rows, accounts for the outcome. */
  predicate Explains(source: seq<Item>, limit: nat, n: nat, c: Choice, outcome: Outcome) {
    match outcome
    case Ok(info) => c.Next? && ReadEnough(source, limit, info.rowCount)
    case Err(Cancelled) => c.Cancel?
    case Err(Timeout) => c.Deadline?
    case Err(Engine(message)) => c.Next? && AllRows(source, n) && n < |source| && source[n] == Failure(message)
  }

  predicate Accounted(source: seq<Item>, limit: nat, n: nat, c: Choice, p: Pump) {
    match p.phase
    case Pumping => false
    case FlushMeta => c.Next? && ReadEnough(source, limit, p.rowCount)
    case FlushRows => c.Next? && ReadEnough(source, limit, p.rowCount)
    case Returned(outcome, _) => Explains(source, limit, n, c, outcome)
    case Ended(outcome, _, _) => Explains(source, limit, n, c, outcome)
  }

  lemma {:induction false} PumpedRowsAreRows(source: seq<Item>, limit: nat, schedule: seq<Choice>)
    ensures var p := Run(source, limit, START, schedule);
            AllRows(source, p.rowCount)
  {
    if schedule != [] {
      PumpedRowsAreRows(source, limit, schedule[..|schedule| - 1]);
    }
  }

  lemma LeavingPumping(source: seq<Item>, limit: nat, p: Pump, c: Choice)
    requires p.phase.Pumping? && AllRows(source, p.rowCount) && !Step(source, limit, p, c).phase.Pumping?
    ensures Accounted(source, limit, p.rowCount, c, Step(source, limit, p, c))
  {
  }

  lemma StaysAccounted(source: seq<Item>, limit: nat, n: nat, c: Choice, p: Pump, next: Choice)
    requires Accounted(source, limit, n, c, p)
    ensures Accounted(source, limit, n, c, Step(source, limit, p, next))
    ensures Finished(p) ==> Finished(Step(source, limit, p, next)) && OutcomeOf(Step(source, limit, p, next)) == OutcomeOf(p)
  {
  }

  /** The last choice made while pumping, and the number of rows it was made after. */
  lemma {:induction false} PumpingEndsOnce(source: seq<Item>, limit: nat, schedule: seq<Choice>) returns (k: nat)
    requires !Run(source, limit, START, schedule).phase.Pumping?
    ensures k < |schedule| && Run(source, limit, START, schedule[..k]).phase.Pumping?
    ensures Accounted(source, limit, Run(source, limit, START, schedule[..k]).rowCount, schedule[k], Run(source, limit, START, schedule))
  {
    hide Step, Accounted;
    var n := |schedule| - 1;
    var front := schedule[..n];
    var q := Run(source, limit, START, front);
    PumpedRowsAreRows(source, limit, front);
    if q.phase.Pumping? {
      k := n;
      LeavingPumping(source, limit, q, schedule[n]);
    } else {
      k := PumpingEndsOnce(source, limit, front);
      assert front[..k] == schedule[..k];
      StaysAccounted(source, limit, Run(source, limit, START, schedule[..k]).rowCount, schedule[k], q, schedule[n]);
    }
  }

  /**
   In every run: Ok is returned only when the rows reach the limit or the end of the source; an engine
   error is the failure that stands right after the rows taken; and a cancellation or a timeout is
   returned only when it was the last choice made while rows were still being read.
   */
  lemma EveryOutcomeIsEarned(source: seq<Item>, limit: nat, schedule: seq<Choice>) returns (k: nat)
    requires Finished(Run(source, limit, START, schedule))
    ensures k < |schedule| && Run(source, limit, START, schedule[..k]).phase.Pumping?
    ensures Explains(source, limit, Run(source, limit, START, schedule[..k]).rowCount, schedule[k], OutcomeOf(Run(source, limit, START, schedule)))
  {
    hide Run, Explains;
    k := PumpingEndsOnce(source, limit, schedule);
  }

  /** What a choice made while pumping leads to: a failing row, a cancellation and a timeout are always reported. */
  predicate Fails(source: seq<Item>, p: Pump, c: Choice, error: StreamError) {
    p.phase.Pumping? &&
    match error
    case Cancelled => c.Cancel?
    case Timeout => c.Deadline?
    case Engine(message) => c.Next? && |p.batch| < BATCH_SIZE && p.rowCount < |source| && source[p.rowCount] == Failure(message)
  }

  lemma {:induction false} FailuresAreReported(source: seq<Item>, limit: nat, schedule: seq<Choice>, k: nat, error: StreamError)
    requires k < |schedule| && Fails(source, Run(source, limit, START, schedule[..k]), schedule[k], error)
    ensures var p := Run(source, limit, START, schedule);
            Finished(p) && OutcomeOf(p) == Err(error)
    decreases |schedule|
  {
    var n := |schedule| - 1;
    if k < n {
      assert schedule[..n][..k] == schedule[..k];
      FailuresAreReported(source, limit, schedule[..n], k, error);
      StaysFinished(source, limit, Run(source, limit, START, schedule[..n]), schedule[n]);
    }
  }

  lemma StaysFinished(source: seq<Item>, limit: nat, p: Pump, c: Choice)
    requires Finished(p)
    ensures Finished(Step(source, limit, p, c)) && OutcomeOf(Step(source, limit, p, c)) == OutcomeOf(p)
  {
  }

  /** The row count is min(n, limit) exactly when the limit is positive or there is no row at all. */
  lemma LimitIsKeptUnlessZero(source: seq<Item>, limit: nat)
    ensures var n := Available(source);
            |Taken(source, Effective(limit))| == (if n <= limit then n else limit) <==> limit > 0 || n == 0
  {
    TakenCounts(source, Effective(limit));
  }

  // ── The loop ──

  /** The event channel: sending to a client that is gone is silently dropped. */
  class EventChannel {
    var open: bool
    var events: seq<Event>

    constructor ()
      ensures open && events == []
    {
      open, events := true, [];
    }

    method Post(e: Event)
      modifies this
      ensures open == old(open)
      ensures events == if open then old(events) + [e] else old(events)
    {
      if open {
        events := events + [e];
      }
    }

    method Disconnect()
      modifies this
      ensures !open && events == old(events)
    {
      open := false;
    }
  }

  lemma RunNext(source: seq<Item>, limit: nat, schedule: seq<Choice>, k: nat)
    requires k < |schedule|
    ensures Run(source, limit, START, schedule[..k + 1]) ==
            Step(source, limit, Run(source, limit, START, schedule[..k]), schedule[k])
  {
    hide Step;
    assert schedule[..k + 1][..k] == schedule[..k];
  }

  /** The final flush: the pending meta, then the last batch, unless cancelled or out of time. */
  method FlushRest(source: seq<Item>, rowLimit: nat, schedule: seq<Choice>, start: nat, rowCount: nat, truncated: bool,
                   batch: seq<seq<Value>>, meta: Option<(Columns, Option<seq<string>>)>, ghost pump: Pump, tx: EventChannel)
    returns (result: Option<Outcome>, used: nat, ghost final: Pump)
    requires start <= |schedule| && pump == Run(source, rowLimit, START, schedule[..start])
    requires pump == Pump(tx.open, tx.events, rowCount, truncated, batch, meta, FlushMeta)
    modifies tx
    ensures start <= used <= |schedule|
    ensures final == Run(source, rowLimit, START, schedule[..used])
    ensures tx.open == final.open && tx.events == final.delivered
    ensures result.None? ==> used == |schedule| && !Finished(final)
    ensures result.Some? ==> final.phase.Returned? && final.phase.outcome == result.value
  {
    hide Run, Chunks;
    var metaPending := meta;
    used, final := start, pump;
    var metaSent := false;
    while true
      invariant start <= used <= |schedule|
      invariant final == Run(source, rowLimit, START, schedule[..used])
      invariant final == Pump(tx.open, tx.events, rowCount, truncated, batch, metaPending, if metaSent then FlushRows else FlushMeta)
      decreases |schedule| - used
    {
      if used == |schedule| {
        return None, used, final;
      }
      var choice := schedule[used];
      RunNext(source, rowLimit, schedule, used);
      final := Step(source, rowLimit, final, choice);
      used := used + 1;
      match choice {
        case Close =>
          tx.Disconnect();
        case Next =>
        case Reserve =>
          if !metaSent {
            if metaPending.Some? {
              tx.Post(Meta(metaPending.value.0, metaPending.value.1));
              metaPending := None;
            }
            metaSent := true;
          } else {
            if batch != [] {
              tx.Post(Rows(batch));
            } else if rowCount == 0 {
              tx.Post(Meta([], None));
            }
            return Some(Ok(CompleteInfo(rowCount, truncated))), used, final;
          }
        case _ =>
          return Some(Ok(CompleteInfo(rowCount, truncated))), used, final;
      }
    }
  }

  /**
   The consuming loop and the final flush, run against a schedule of how each wait resolves. `None`
   means that the schedule ends while the pump is still waiting.
   */
  method StreamRows(source: seq<Item>, rowLimit: nat, schedule: seq<Choice>, tx: EventChannel)
    returns (result: Option<Outcome>, used: nat, ghost final: Pump)
    requires tx.open && tx.events == []
    modifies tx
    ensures used <= |schedule|
    ensures final == Run(source, rowLimit, START, schedule[..used])
    ensures tx.open == final.open && tx.events == final.delivered
    ensures result.None? ==> used == |schedule| && !Finished(final)
    ensures result.Some? ==> final.phase.Returned? && final.phase.outcome == result.value
  {
    hide Run, Chunks;
    var rowCount: nat := 0;
    var truncated := false;
    var batch: seq<seq<Value>> := [];
    var metaPending: Option<(Columns, Option<seq<string>>)> := None;
    var streamDone := false;
    used := 0;
    final := START;
    assert final == Run(source, rowLimit, START, schedule[..0]) by { RunEmpty(source, rowLimit); assert schedule[..0] == []; }

    while !streamDone
      invariant used <= |schedule|
      invariant final == Run(source, rowLimit, START, schedule[..used])
      invariant final == Pump(tx.open, tx.events, rowCount, truncated, batch, metaPending, if streamDone then FlushMeta else Pumping)
      invariant !streamDone ==> !truncated
      decreases |schedule| - used, !streamDone
    {
      if used == |schedule| {
        return None, used, final;
      }
      var choice := schedule[used];
      RunNext(source, rowLimit, schedule, used);
      final := Step(source, rowLimit, final, choice);
      used := used + 1;
      match choice {
        case Close =>
          tx.Disconnect();
        case Cancel =>
          return Some(Err(Cancelled)), used, final;
        case Deadline =>
          return Some(Err(Timeout)), used, final;
        case Reserve =>
          if (metaPending.Some? || |batch| >= BATCH_SIZE) && tx.open {
            if metaPending.Some? {
              tx.Post(Meta(metaPending.value.0, metaPending.value.1));
              metaPending := None;
            } else {
              tx.Post(Rows(batch));
              batch := [];
            }
          }
        case Next =>
          if |batch| < BATCH_SIZE {
            if rowCount >= |source| {
              streamDone := true;
            } else if source[rowCount].Failure? {
              return Some(Err(Engine(source[rowCount].message))), used, final;
            } else {
              var row := source[rowCount].row;
              if rowCount == 0 {
                metaPending := Some((row.columns, row.types));
              }
              rowCount := rowCount + 1;
              batch := batch + [row.values];
              if rowCount >= rowLimit {
                truncated := true;
                streamDone := true;
              }
            }
          }
      }
    }

    result, used, final := FlushRest(source, rowLimit, schedule, used, rowCount, truncated, batch, metaPending, final, tx);
  }

  lemma RunEmpty(source: seq<Item>, limit: nat)
    ensures Run(source, limit, START, []) == START
  {
  }

  /** Stream, then send the one terminal event: the outcome, last in the same channel. */
  method RunStreamQuery(source: seq<Item>, rowLimit: nat, schedule: seq<Choice>, tx: EventChannel)
    returns (result: Option<Outcome>, ghost data: seq<Event>)
    requires tx.open && tx.events == []
    modifies tx
    ensures data <= Expected(source, rowLimit)
    ensures result.Some? && result.value.Ok? ==> tx.events == if tx.open then data + [Complete(result.value.value)] else data
    ensures result.Some? && result.value.Err? ==> tx.events == if tx.open then data + [Error(result.value.error)] else data
    ensures result.Some? && result.value.Ok? ==>
              result.value.value == CompleteInfo(|Taken(source, Effective(rowLimit))|, Available(source) >= Effective(rowLimit))
    ensures result.Some? && result.value.Ok? ==> ReadEnough(source, Effective(rowLimit), result.value.value.rowCount)
    ensures result.Some? && result.value.Err? && result.value.error.Engine? ==> Failure(result.value.error.message) in source
    ensures result.Some? && result.value == Err(Cancelled) ==> Cancel in schedule
    ensures result.Some? && result.value == Err(Timeout) ==> Deadline in schedule
  {
    hide Run, Step, Expected, Taken, Inv, InFlight;
    var used;
    ghost var p;
    assert Expected(source, Effective(rowLimit)) == Expected(source, rowLimit) by { LimitIsRaisedOnce(source, rowLimit); }
    result, used, p := StreamRows(source, Effective(rowLimit), schedule, tx);
    EveryRunIsSafe(source, Effective(rowLimit), schedule[..used]);
    TakenCounts(source, Effective(rowLimit));
    data := tx.events;
    assert Data(p) == data;
    if result.Some? {
      ghost var k := EveryOutcomeIsEarned(source, Effective(rowLimit), schedule[..used]);
      assert schedule[..used][k] in schedule;
    }
    if result.Some? {
      tx.Post(Terminal(result.value));
    }
  }

  lemma LimitIsRaisedOnce(source: seq<Item>, limit: nat)
    ensures Expected(source, Effective(limit)) == Expected(source, limit)
  {
  }

  // ── The eager form of the Redis leg ──

  /** All rows at hand: take the limit, then chunk. */
  function Eager(columns: Columns, rows: seq<seq<Value>>, limit: nat): seq<Event> {
    [Meta(columns, None)] + RowEvents(Chunks(if |rows| <= limit then rows else rows[..limit]))
  }

  /** The sends a schedule lets through, and those of them that come before the client disconnects. */
  function Sends(schedule: seq<Choice>): nat {
    if schedule == [] then 0
    else Sends(schedule[..|schedule| - 1]) + if schedule[|schedule| - 1].Reserve? then 1 else 0
  }

  function Landed(schedule: seq<Choice>): (n: nat)
    ensures n <= Sends(schedule)
    ensures Close !in schedule ==> n == Sends(schedule)
  {
    if schedule == [] then 0
    else
      var front := schedule[..|schedule| - 1];
      Landed(front) + if schedule[|schedule| - 1].Reserve? && Close !in front then 1 else 0
  }

  lemma SendsNext(schedule: seq<Choice>, k: nat)
    requires k < |schedule|
    ensures Sends(schedule[..k + 1]) == Sends(schedule[..k]) + if schedule[k].Reserve? then 1 else 0
    ensures Landed(schedule[..k + 1]) == Landed(schedule[..k]) + if schedule[k].Reserve? && Close !in schedule[..k] then 1 else 0
    ensures Close in schedule[..k + 1] <==> Close in schedule[..k] || schedule[k].Close?
  {
    assert schedule[..k + 1][..k] == schedule[..k];
    assert schedule[..k + 1] == schedule[..k] + [schedule[k]];
  }

  /** The events of the eager leg up to row `i`. */
  function EagerUpTo(columns: Columns, taken: seq<seq<Value>>, i: nat): seq<Event>
    requires i <= |taken|
  {
    [Meta(columns, None)] + RowEvents(Chunks(taken[..i]))
  }

  lemma EagerChunk(columns: Columns, taken: seq<seq<Value>>, i: nat, j: nat)
    requires i < j <= |taken| && i % BATCH_SIZE == 0 && (j == i + BATCH_SIZE || (j < i + BATCH_SIZE && j == |taken|))
    ensures EagerUpTo(columns, taken, j) == EagerUpTo(columns, taken, i) + [Rows(taken[i..j])]
  {
    hide Chunks;
    ChunksAppend(taken[..i], taken[i..j]);
    assert taken[..i] + taken[i..j] == taken[..j];
    assert RowEvents(Chunks(taken[..i]) + [taken[i..j]]) == RowEvents(Chunks(taken[..i])) + [Rows(taken[i..j])];
  }

  lemma EagerStarts(columns: Columns, taken: seq<seq<Value>>)
    ensures EagerUpTo(columns, taken, 0) == [Meta(columns, None)]
  {
    assert taken[..0] == [];
    NoChunks<seq<Value>>();
  }

  lemma EagerGrows(columns: Columns, taken: seq<seq<Value>>, i: nat)
    requires i <= |taken| && (i % BATCH_SIZE == 0 || i == |taken|)
    ensures EagerUpTo(columns, taken, i) <= EagerUpTo(columns, taken, |taken|)
  {
    hide Chunks, RowEvents;
    if i == |taken| {
      return;
    }
    ChunksPrefix(taken[..i], taken[i..]);
    assert taken[..i] + taken[i..] == taken[..|taken|];
    RowEventsPrefix(Chunks(taken[..i]), Chunks(taken[..|taken|]));
  }

  /**
   The eager leg: all events in order, each when the channel has room. Cancel and deadline end it with
   their error; a send to a disconnected client is lost.
   */
  method SendEager(columns: Columns, rows: seq<seq<Value>>, limit: nat, schedule: seq<Choice>, tx: EventChannel)
    returns (result: Option<Outcome>, used: nat)
    requires tx.open
    modifies tx
    ensures used <= |schedule| && Sends(schedule[..used]) <= |Eager(columns, rows, limit)|
    ensures tx.open <==> Close !in schedule[..used]
    ensures tx.events == old(tx.events) + Eager(columns, rows, limit)[..Landed(schedule[..used])]
    ensures result.None? ==> used == |schedule| && Sends(schedule) < |Eager(columns, rows, limit)|
    ensures result.Some? && result.value.Err? ==>
              used > 0 && result.value.error == (if schedule[used - 1].Cancel? then Cancelled else Timeout)
              && (schedule[used - 1].Cancel? || schedule[used - 1].Deadline?)
    ensures result.Some? && result.value.Ok? ==>
              && Sends(schedule[..used]) == |Eager(columns, rows, limit)|
              && result.value.value == CompleteInfo(if |rows| <= limit then |rows| else limit, |rows| >= limit)
  {
    hide Chunks, RowEvents, Landed, Sends, EagerUpTo, Eager;
    var taken := if |rows| <= limit then rows else rows[..limit];
    ghost var all := Eager(columns, rows, limit);
    assert all == EagerUpTo(columns, taken, |taken|) by { EagerIsAll(columns, rows, limit); }
    EagerStarts(columns, taken);
    EagerGrows(columns, taken, 0);
    NothingSent();
    assert schedule[..0] == [];
    used := 0;
    var metaSent := false;
    var i: nat := 0;
    while !metaSent || i < |taken|
      invariant used <= |schedule| && i <= |taken| && (i % BATCH_SIZE == 0 || i == |taken|)
      invariant tx.open <==> Close !in schedule[..used]
      invariant metaSent ==> EagerUpTo(columns, taken, i) <= all && Sends(schedule[..used]) == |EagerUpTo(columns, taken, i)|
      invariant !metaSent ==> i == 0 && Sends(schedule[..used]) == 0
      invariant Landed(schedule[..used]) <= Sends(schedule[..used]) <= |all|
      invariant tx.open ==> Landed(schedule[..used]) == Sends(schedule[..used])
      invariant tx.events == old(tx.events) + all[..Landed(schedule[..used])]
      decreases |schedule| - used
    {
      if metaSent {
        MoreToSend(columns, taken, i);
      }
      if used == |schedule| {
        assert schedule[..used] == schedule;
        return None, used;
      }
      var choice := schedule[used];
      SendsNext(schedule, used);
      LandedFits(schedule[..used + 1]);
      ghost var n := Landed(schedule[..used]);
      used := used + 1;
      match choice {
        case Cancel => return Some(Err(Cancelled)), used;
        case Deadline => return Some(Err(Timeout)), used;
        case Close => tx.Disconnect();
        case Next =>
        case Reserve =>
          if !metaSent {
            assert all[0] == Meta(columns, None);
            assert tx.open ==> all[..n + 1] == all[..n] + [Meta(columns, None)];
            tx.Post(Meta(columns, None));
            metaSent := true;
          } else {
            var j := if i + BATCH_SIZE <= |taken| then i + BATCH_SIZE else |taken|;
            EagerChunk(columns, taken, i, j);
            EagerGrows(columns, taken, j);
            assert EagerUpTo(columns, taken, j)[|EagerUpTo(columns, taken, i)|] == Rows(taken[i..j]);
            assert tx.open ==> all[..n + 1] == all[..n] + [Rows(taken[i..j])];
            tx.Post(Rows(taken[i..j]));
            i := j;
          }
      }
    }
    result := Some(Ok(CompleteInfo(|taken|, |rows| >= limit)));
  }

  lemma EagerIsAll(columns: Columns, rows: seq<seq<Value>>, limit: nat)
    ensures var taken := if |rows| <= limit then rows else rows[..limit];
            Eager(columns, rows, limit) == EagerUpTo(columns, taken, |taken|)
  {
    hide Chunks, RowEvents;
    var taken := if |rows| <= limit then rows else rows[..limit];
    assert taken[..|taken|] == taken;
  }

  lemma NothingSent()
    ensures Sends([]) == 0 && Landed([]) == 0
  {
  }

  lemma LandedFits(schedule: seq<Choice>)
    ensures Landed(schedule) <= Sends(schedule)
    ensures Close !in schedule ==> Landed(schedule) == Sends(schedule)
  {
  }

  /** Rows left mean events left. */
  lemma MoreToSend(columns: Columns, taken: seq<seq<Value>>, i: nat)
    requires i < |taken| && i % BATCH_SIZE == 0
    ensures |EagerUpTo(columns, taken, i)| < |EagerUpTo(columns, taken, |taken|)|
  {
    hide EagerUpTo;
    var j := if i + BATCH_SIZE <= |taken| then i + BATCH_SIZE else |taken|;
    EagerChunk(columns, taken, i, j);
    EagerGrows(columns, taken, j);
  }

  function AsItems(columns: Columns, rows: seq<seq<Value>>): (items: seq<Item>)
    ensures |items| == |rows|
    ensures forall i :: 0 <= i < |items| ==> items[i] == Row(MappedRow(columns, rows[i], None))
  {
    seq(|rows|, i requires 0 <= i < |rows| => Row(MappedRow(columns, rows[i], None)))
  }

  lemma TakenOfItems(columns: Columns, rows: seq<seq<Value>>, limit: nat)
    ensures var taken := Taken(AsItems(columns, rows), limit);
            && Values(taken) == (if |rows| <= limit then rows else rows[..limit])
            && (taken != [] ==> MetaOf(taken) == Meta(columns, None))
  {
    var items := AsItems(columns, rows);
    var taken := Taken(items, limit);
    assert forall i :: 0 <= i < |rows| ==> items[i].Row?;
    assert forall i :: 0 <= i < |taken| ==> items[i] == Row(taken[i]);
  }

  /**
   The pump streams what the eager form sends at once, except that an empty result keeps its column
   names only in the eager form.
   */
  lemma PumpRefinesEager(columns: Columns, rows: seq<seq<Value>>, limit: nat)
    requires limit > 0
    ensures Expected(AsItems(columns, rows), limit) == Eager(columns, rows, limit) <==> rows != [] || columns == []
  {
    hide Chunks, Taken, AsItems, RowEvents;
    var taken := Taken(AsItems(columns, rows), limit);
    var vs := if |rows| <= limit then rows else rows[..limit];
    TakenOfItems(columns, rows, limit);
    var e, g := Expected(AsItems(columns, rows), limit), Eager(columns, rows, limit);
    assert e == [MetaOf(taken)] + RowEvents(Chunks(vs));
    assert g == [Meta(columns, None)] + RowEvents(Chunks(vs));
    assert e[0] == MetaOf(taken) && g[0] == Meta(columns, None);
    assert |taken| == |vs|;
  }
}
