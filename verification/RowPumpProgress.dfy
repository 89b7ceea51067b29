/**
 That the row pump gets to its end: with a client that stays, and neither a cancellation nor the
 deadline, every source is delivered in full, however the waits for rows and for room alternate.
 */
module RowPumpProgress {
  import opened Wrappers
  import opened RowPump

  // ── Undisturbed runs ──

  /** Only rows and room in the channel are waited for. */
  predicate Undisturbed(schedule: seq<Choice>) {
    forall i :: 0 <= i < |schedule| ==> schedule[i].Next? || schedule[i].Reserve?
  }

  predicate FlushedIfOk(p: Pump) {
    p.open && (Finished(p) && OutcomeOf(p).Ok? ==> p.phase.flushed) && (p.phase.Ended? ==> p.phase.sent)
  }

  lemma {:induction false} UndisturbedRunFlushes(source: seq<Item>, limit: nat, schedule: seq<Choice>)
    requires Undisturbed(schedule)
    ensures FlushedIfOk(Run(source, limit, START, schedule))
  {
    hide Step, FlushedIfOk;
    if schedule == [] {
      assert FlushedIfOk(START) by { StartFlushes(); }
    } else {
      UndisturbedRunFlushes(source, limit, schedule[..|schedule| - 1]);
      TurnFlushes(source, limit, Run(source, limit, START, schedule[..|schedule| - 1]), schedule[|schedule| - 1]);
    }
  }

  lemma StartFlushes()
    ensures FlushedIfOk(START)
  {
  }

  lemma TurnFlushes(source: seq<Item>, limit: nat, p: Pump, c: Choice)
    requires FlushedIfOk(p) && (c.Next? || c.Reserve?)
    ensures FlushedIfOk(Step(source, limit, p, c))
  {
  }

  /**
   An undisturbed run that ends in success has delivered all of the reference. It ends in success if the
   rows asked for can all be read, and otherwise with the failure that stands among them.
   */
  lemma UndisturbedRunsDeliverAll(source: seq<Item>, limit: nat, schedule: seq<Choice>)
    requires Undisturbed(schedule) && Finished(Run(source, limit, START, schedule))
    ensures var p := Run(source, limit, START, schedule);
            var n := Available(source);
            if n < |source| && n < Effective(limit) then
              source[n].Failure? && OutcomeOf(p) == Err(Engine(source[n].message)) && Data(p) <= Expected(source, limit)
            else
              OutcomeOf(p) == Ok(CompleteInfo(if n <= Effective(limit) then n else Effective(limit), n >= Effective(limit))) &&
              Data(p) == Expected(source, limit)
  {
    hide Run, Expected, Taken;
    var p := Run(source, limit, START, schedule);
    var n := Available(source);
    UndisturbedRunFlushes(source, limit, schedule);
    EveryRunIsSafe(source, limit, schedule);
    var k := EveryOutcomeIsEarned(source, limit, schedule);
    var m := Run(source, limit, START, schedule[..k]).rowCount;
    AvailableExactly(source, n);
    match OutcomeOf(p)
    case Ok(info) =>
      AvailableExactly(source, info.rowCount);
    case Err(e) =>
      PulledBelowLimit(source, limit, schedule[..k]);
      AvailableExactly(source, m);
  }

  lemma PulledBelowLimit(source: seq<Item>, limit: nat, schedule: seq<Choice>)
    requires Run(source, limit, START, schedule).phase.Pumping?
    ensures Run(source, limit, START, schedule).rowCount < Effective(limit)
  {
    hide Run, Step, Taken;
    RunKeeps(source, limit, schedule);
  }

  /** The rows before the end or the first failure. */
  lemma AvailableExactly(source: seq<Item>, n: nat)
    ensures n == Available(source) <==> AllRows(source, n) && (n == |source| || source[n].Failure?)
  {
    var rows := Taken(source, |source|);
    assert forall i :: 0 <= i < |rows| ==> source[i].Row?;
  }

  // ── Progress ──

  /** How many turns are left at most. */
  function Rank(source: seq<Item>, p: Pump): nat {
    match p.phase
    case Pumping =>
      3 + (if p.metaPending.Some? then 1 else 0) + (if |p.batch| >= BATCH_SIZE then 1 else 0) +
      2 * (if p.rowCount <= |source| then |source| - p.rowCount else 0)
    case FlushMeta => 2
    case FlushRows => 1
    case _ => 0
  }

  predicate Sound(source: seq<Item>, p: Pump) {
    p.open && |p.batch| <= BATCH_SIZE && |p.batch| <= p.rowCount
  }

  /** A turn either changes nothing or comes closer to the end, and one of the two kinds always does. */
  lemma TurnsComeCloser(source: seq<Item>, limit: nat, p: Pump, c: Choice)
    requires Sound(source, p) && (c.Next? || c.Reserve?)
    ensures var p' := Step(source, limit, p, c);
            Sound(source, p') && Rank(source, p') <= Rank(source, p) &&
            (!Finished(p) ==> p' == p || Rank(source, p') < Rank(source, p))
    ensures !Finished(p) ==> Step(source, limit, p, Next) != p || Step(source, limit, p, Reserve) != p
  {
  }

  lemma {:induction false} UndisturbedIsSound(source: seq<Item>, limit: nat, schedule: seq<Choice>)
    requires Undisturbed(schedule)
    ensures Sound(source, Run(source, limit, START, schedule))
  {
    hide Step, Sound;
    if schedule == [] {
      assert Sound(source, START) by { StartIsSound(source); }
    } else {
      UndisturbedIsSound(source, limit, schedule[..|schedule| - 1]);
      TurnsComeCloser(source, limit, Run(source, limit, START, schedule[..|schedule| - 1]), schedule[|schedule| - 1]);
    }
  }

  lemma StartIsSound(source: seq<Item>)
    ensures Sound(source, START)
  {
  }

  /** Rows and room each get one turn in every round, in an order that each round chooses anew. */
  function Rounds(rowFirst: seq<bool>): (schedule: seq<Choice>)
    ensures Undisturbed(schedule)
  {
    if rowFirst == [] then []
    else Rounds(rowFirst[..|rowFirst| - 1]) + if rowFirst[|rowFirst| - 1] then [Next, Reserve] else [Reserve, Next]
  }

  lemma TwoTurns(source: seq<Item>, limit: nat, schedule: seq<Choice>, a: Choice, b: Choice)
    ensures Run(source, limit, START, schedule + [a, b]) ==
            Step(source, limit, Step(source, limit, Run(source, limit, START, schedule), a), b)
  {
    hide Step;
    var s := schedule + [a, b];
    assert s[..|s| - 1] == schedule + [a] && s[|s| - 1] == b;
    assert (schedule + [a])[..|schedule|] == schedule;
  }

  lemma ARoundComesCloser(source: seq<Item>, limit: nat, p: Pump, a: Choice, b: Choice)
    requires Sound(source, p) && ((a.Next? && b.Reserve?) || (a.Reserve? && b.Next?))
    ensures var p' := Step(source, limit, Step(source, limit, p, a), b);
            Rank(source, p') < Rank(source, p) || Rank(source, p') == Rank(source, p) == 0
  {
    hide Step, Rank, Sound;
    var q := Step(source, limit, p, a);
    TurnsComeCloser(source, limit, p, a);
    TurnsComeCloser(source, limit, q, b);
    RankIsZero(source, p);
  }

  lemma RankIsZero(source: seq<Item>, p: Pump)
    ensures Rank(source, p) == 0 <==> Finished(p)
  {
  }

  lemma {:induction false} RoundsComeCloser(source: seq<Item>, limit: nat, rowFirst: seq<bool>)
    ensures var p := Run(source, limit, START, Rounds(rowFirst));
            Rank(source, p) + |rowFirst| <= 2 * |source| + 3 || Rank(source, p) == 0
  {
    hide Run, Step, Rank, Sound;
    if rowFirst == [] {
      RunEmpty(source, limit);
      assert Rank(source, START) == 2 * |source| + 3 by { StartRank(source); }
    } else {
      var n := |rowFirst| - 1;
      var before := Rounds(rowFirst[..n]);
      var a, b := if rowFirst[n] then Next else Reserve, if rowFirst[n] then Reserve else Next;
      RoundsComeCloser(source, limit, rowFirst[..n]);
      UndisturbedIsSound(source, limit, before);
      TwoTurns(source, limit, before, a, b);
      ARoundComesCloser(source, limit, Run(source, limit, START, before), a, b);
      assert Rounds(rowFirst) == before + [a, b];
    }
  }

  lemma StartRank(source: seq<Item>)
    ensures Rank(source, START) == 2 * |source| + 3
  {
  }

  /**
   With two rounds for each item of the source and three more the pump has ended, and all rows asked
   for have been delivered unless a failure stands among them.
   */
  lemma EveryRunGetsThere(source: seq<Item>, limit: nat, rowFirst: seq<bool>)
    requires |rowFirst| >= 2 * |source| + 3
    ensures var p := Run(source, limit, START, Rounds(rowFirst));
            var n := Available(source);
            && Finished(p)
            && (n == |source| || n >= Effective(limit) ==> OutcomeOf(p).Ok? && Data(p) == Expected(source, limit))
  {
    hide Run, Rank, Data;
    RoundsComeCloser(source, limit, rowFirst);
    RankIsZero(source, Run(source, limit, START, Rounds(rowFirst)));
    UndisturbedRunsDeliverAll(source, limit, Rounds(rowFirst));
  }
}
