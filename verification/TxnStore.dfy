/**
 The transaction session store as interleaved atomic steps. A statement holds a reference into the
 session map until it ends, so removing the session waits for it; whoever removes a session owns it.
 `Apply` is one atomic step of any task; the class carries the same steps out on its fields.
 */
module TxnStore {
  import opened Wrappers

  type Id = string
  type Task = nat

  datatype Control = Commit | Rollback

  /** What the session's connection sees. A refresh carries the time of `last_used`. */
  datatype Wire =
    | BeginTxn(at: int)
    | StmtStart(task: Task)
    | Probe(task: Task)
    | StmtDone(task: Task, at: int)
    | StmtFailed(task: Task)
    | Control(control: Control)
    | Close

  datatype Holder = Free | Running(task: Task) | Probing(task: Task)

  /** In the map, taken out of it by one task, after its control statement, or gone. */
  datatype Stage = Live | Owned(owner: Task, control: Control) | Controlled(owner: Task) | Gone

  datatype Session = Session(log: seq<Wire>, stage: Stage, lastUsed: int, refs: set<Task>, holder: Holder, takers: seq<Task>)

  datatype Sweep = Sweep(start: int, ttl: nat, victims: set<Id>)

  datatype Store = Store(clock: int, sessions: map<Id, Session>, sweeps: map<Task, Sweep>)

  const EMPTY := Store(0, map[], map[])

  datatype Action =
    | Tick(delta: nat)
    | Open(id: Id)
    | Get(task: Task, id: Id)
    | Lock(task: Task, id: Id)
    | AskThreadId(task: Task, id: Id)
    | Refresh(task: Task, id: Id)
    | Abandon(task: Task, id: Id)
    | Remove(task: Task, id: Id, control: Control)
    | StartSweep(task: Task, ttl: nat)
    | Scan(task: Task, id: Id)
    | RemoveIf(task: Task, id: Id)
    | Issue(task: Task, id: Id)
    | Drop(task: Task, id: Id)

  predicate IsLive(s: Store, id: Id) {
    id in s.sessions && s.sessions[id].stage.Live?
  }

  /** A statement in flight keeps its reference, and removal needs there to be none. */
  predicate Enabled(s: Store, a: Action) {
    match a
    case Tick(_) => true
    case Open(id) => id !in s.sessions
    case Get(task, id) => IsLive(s, id) && task !in s.sessions[id].refs
    case Lock(task, id) => IsLive(s, id) && task in s.sessions[id].refs && s.sessions[id].holder.Free?
    case AskThreadId(task, id) => IsLive(s, id) && s.sessions[id].holder == Running(task)
    case Refresh(task, id) => IsLive(s, id) && (s.sessions[id].holder == Running(task) || s.sessions[id].holder == Probing(task))
    case Abandon(task, id) => IsLive(s, id) && task in s.sessions[id].refs
    case Remove(task, id, _) => IsLive(s, id) && s.sessions[id].refs == {}
    case StartSweep(_, _) => true
    case Scan(task, id) => task in s.sweeps && IsLive(s, id)
    case RemoveIf(task, id) => task in s.sweeps && id in s.sweeps[task].victims && IsLive(s, id) && s.sessions[id].refs == {}
    case Issue(task, id) => id in s.sessions && s.sessions[id].stage.Owned? && s.sessions[id].stage.owner == task
    case Drop(task, id) => id in s.sessions && !s.sessions[id].stage.Live? && !s.sessions[id].stage.Gone? && s.sessions[id].stage.owner == task
  }

  predicate Idle(w: Sweep, lastUsed: int) {
    w.start - lastUsed > w.ttl
  }

  predicate Holds(x: Session, task: Task) {
    x.holder == Running(task) || x.holder == Probing(task)
  }

  function Take(x: Session, task: Task, control: Control): Session {
    x.(stage := Owned(task, control), takers := x.takers + [task])
  }

  function Put(s: Store, id: Id, x: Session): Store {
    s.(sessions := s.sessions[id := x])
  }

  function Apply(s: Store, a: Action): Store
    requires Enabled(s, a)
  {
    match a
    case Tick(delta) => s.(clock := s.clock + delta)
    case Open(id) => Put(s, id, Session([BeginTxn(s.clock)], Live, s.clock, {}, Free, []))
    case Get(task, id) =>
      var x := s.sessions[id];
      Put(s, id, x.(refs := x.refs + {task}))
    case Lock(task, id) =>
      var x := s.sessions[id];
      Put(s, id, x.(holder := Running(task), log := x.log + [StmtStart(task)]))
    case AskThreadId(task, id) =>
      var x := s.sessions[id];
      Put(s, id, x.(holder := Probing(task), log := x.log + [Probe(task)]))
    case Refresh(task, id) =>
      var x := s.sessions[id];
      Put(s, id, x.(holder := Free, refs := x.refs - {task}, lastUsed := s.clock, log := x.log + [StmtDone(task, s.clock)]))
    case Abandon(task, id) =>
      var x := s.sessions[id];
      Put(s, id, if Holds(x, task) then x.(holder := Free, refs := x.refs - {task}, log := x.log + [StmtFailed(task)])
                 else x.(refs := x.refs - {task}))
    case Remove(task, id, control) => Put(s, id, Take(s.sessions[id], task, control))
    case StartSweep(task, ttl) => s.(sweeps := s.sweeps[task := Sweep(s.clock, ttl, {})])
    case Scan(task, id) =>
      var w := s.sweeps[task];
      if Idle(w, s.sessions[id].lastUsed) then s.(sweeps := s.sweeps[task := w.(victims := w.victims + {id})]) else s
    case RemoveIf(task, id) =>
      if Idle(s.sweeps[task], s.sessions[id].lastUsed) then Put(s, id, Take(s.sessions[id], task, Rollback)) else s
    case Issue(task, id) =>
      var x := s.sessions[id];
      Put(s, id, x.(stage := Controlled(task), log := x.log + [Control(x.stage.control)]))
    case Drop(task, id) =>
      var x := s.sessions[id];
      Put(s, id, x.(stage := Gone, log := x.log + [Close]))
  }

  /** A run of steps, each enabled where it happens. */
  predicate Legal(s: Store, run: seq<Action>)
    decreases |run|
  {
    run == [] || (Enabled(s, run[0]) && Legal(Apply(s, run[0]), run[1..]))
  }

  function After(s: Store, run: seq<Action>): Store
    requires Legal(s, run)
    decreases |run|
  {
    if run == [] then s else After(Apply(s, run[0]), run[1..])
  }

  // ── The traffic of one connection ──

  /** BEGIN first and once; a statement is followed by its own probe or end before anything else;
      after COMMIT or ROLLBACK only the close; after the close nothing. */
  predicate WellOrdered(log: seq<Wire>) {
    && (forall i :: 0 <= i < |log| ==> (log[i].BeginTxn? <==> i == 0))
    && (forall i :: 0 <= i < |log| - 1 && log[i].StmtStart? ==> Follows(log[i].task, log[i + 1], true))
    && (forall i :: 0 <= i < |log| - 1 && log[i].Probe? ==> Follows(log[i].task, log[i + 1], false))
    && (forall i :: 0 < i < |log| && (log[i].Probe? || log[i].StmtDone? || log[i].StmtFailed?) ==> InStatement(log[i - 1], log[i].task))
    && (forall i :: 0 <= i < |log| - 1 && log[i].Control? ==> log[i + 1].Close? && i + 2 == |log|)
    && (forall i :: 0 <= i < |log| && log[i].Close? ==> i + 1 == |log|)
  }

  predicate Follows(task: Task, next: Wire, mayProbe: bool) {
    (mayProbe && next == Probe(task)) || (next.StmtDone? && next.task == task) || next == StmtFailed(task)
  }

  predicate InStatement(w: Wire, task: Task) {
    w == StmtStart(task) || w == Probe(task)
  }

  /** The time `last_used` records: the last successful statement, or the opening. */
  function LastTouch(log: seq<Wire>): int {
    if log == [] then 0
    else
      match log[|log| - 1]
      case BeginTxn(at) => at
      case StmtDone(_, at) => at
      case _ => LastTouch(log[..|log| - 1])
  }

  /** No statement is on the wire. */
  predicate Quiet(log: seq<Wire>) {
    log != [] && !log[|log| - 1].StmtStart? && !log[|log| - 1].Probe?
  }

  // ── The invariant ──

  predicate LogMatches(x: Session)
    requires x.log != []
  {
    var last := x.log[|x.log| - 1];
    match x.stage
    case Live => (
      match x.holder
      case Free => Quiet(x.log) && !last.Control? && !last.Close?
      case Running(task) => last == StmtStart(task) && task in x.refs
      case Probing(task) => last == Probe(task) && task in x.refs
    )
    case Owned(_, _) => x.holder.Free? && x.refs == {} && Quiet(x.log) && !last.Control? && !last.Close?
    case Controlled(_) => x.holder.Free? && x.refs == {} && last.Control?
    case Gone => x.holder.Free? && x.refs == {} && last.Close?
  }

  predicate SessionInv(x: Session) {
    && x.log != [] && WellOrdered(x.log)
    && x.lastUsed == LastTouch(x.log)
    && LogMatches(x)
    && |x.takers| == (if x.stage.Live? then 0 else 1)
    && (x.stage.Owned? || x.stage.Controlled? ==> x.takers == [x.stage.owner])
  }

  predicate Inv(s: Store) {
    forall id :: id in s.sessions ==> SessionInv(s.sessions[id])
  }

  lemma Extend(log: seq<Wire>, w: Wire)
    requires log != [] && WellOrdered(log) && !w.BeginTxn?
    requires var last := log[|log| - 1];
             && !last.Close?
             && (last.Control? ==> w.Close?)
             && (last.StmtStart? ==> Follows(last.task, w, true))
             && (last.Probe? ==> Follows(last.task, w, false))
             && (w.Probe? || w.StmtDone? || w.StmtFailed? ==> InStatement(last, w.task))
    ensures WellOrdered(log + [w])
    ensures LastTouch(log + [w]) == if w.StmtDone? then w.at else LastTouch(log)
  {
    assert (log + [w])[..|log|] == log;
  }

  lemma InvAt(s: Store, id: Id)
    requires Inv(s) && id in s.sessions
    ensures SessionInv(s.sessions[id])
  {
  }

  lemma SessionKeeps(s: Store, a: Action, id: Id)
    requires Enabled(s, a) && Inv(s) && id in s.sessions
    ensures id in Apply(s, a).sessions && SessionInv(Apply(s, a).sessions[id])
  {
    hide WellOrdered, Inv, LastTouch;
    var x := s.sessions[id];
    var y := Apply(s, a).sessions[id];
    InvAt(s, id);
    if y.log != x.log {
      var w := y.log[|x.log|];
      assert y.log == x.log + [w];
      Extend(x.log, w);
    }
  }

  lemma StepKeeps(s: Store, a: Action)
    requires Enabled(s, a) && Inv(s)
    ensures Inv(Apply(s, a))
  {
    hide SessionInv;
    var s' := Apply(s, a);
    forall id | id in s'.sessions ensures SessionInv(s'.sessions[id]) {
      if id in s.sessions {
        SessionKeeps(s, a, id);
      } else {
        OpenedInv(s.clock);
      }
    }
  }

  lemma OpenedInv(now: int)
    ensures SessionInv(Session([BeginTxn(now)], Live, now, {}, Free, []))
  {
  }

  lemma {:induction false} RunKeeps(s: Store, run: seq<Action>)
    requires Legal(s, run) && Inv(s)
    ensures Inv(After(s, run))
    decreases |run|
  {
    hide Inv, Apply;
    if run != [] {
      StepKeeps(s, run[0]);
      RunKeeps(Apply(s, run[0]), run[1..]);
    }
  }

  // ── The theorems ──

  /**
   In every interleaving, each connection sees BEGIN, then statements one at a time, then at most one
   COMMIT or ROLLBACK, then its close; and at most one finisher ever takes a session.
   */
  lemma EveryConnectionIsWellOrdered(run: seq<Action>, id: Id)
    requires Legal(EMPTY, run) && id in After(EMPTY, run).sessions
    ensures var x := After(EMPTY, run).sessions[id];
            && WellOrdered(x.log)
            && (forall i, j :: 0 <= i < j < |x.log| ==> !(x.log[i].Control? && x.log[j].Control?))
            && |x.takers| <= 1
            && (|x.takers| == 0 <==> x.stage.Live?)
  {
    RunKeeps(EMPTY, run);
  }

  /** The owner of a session never changes: taking it is for good. */
  lemma TakenForGood(s: Store, a: Action, id: Id)
    requires Enabled(s, a) && id in s.sessions && !IsLive(s, id)
    ensures id in Apply(s, a).sessions && !IsLive(Apply(s, a), id)
    ensures Apply(s, a).sessions[id].takers == s.sessions[id].takers
  {
  }

  /**
   A sweep removes a session exactly when, at that moment, it has been quiet for more than the time
   to live before the sweep began; no statement is then on the wire. Otherwise nothing changes, so a
   session touched after the scan survives.
   */
  lemma SweepTakesOnlyIdleSessions(run: seq<Action>, task: Task, id: Id)
    requires Legal(EMPTY, run) && Enabled(After(EMPTY, run), RemoveIf(task, id))
    ensures var s := After(EMPTY, run);
            var s' := Apply(s, RemoveIf(task, id));
            var x, w := s.sessions[id], s.sweeps[task];
            && (!IsLive(s', id) <==> w.start - LastTouch(x.log) > w.ttl)
            && (!IsLive(s', id) ==> Quiet(x.log) && s'.sessions[id].stage == Owned(task, Rollback))
            && (IsLive(s', id) ==> s' == s)
  {
    RunKeeps(EMPTY, run);
    var s := After(EMPTY, run);
    assert SessionInv(s.sessions[id]);
  }

  /** The scan marks a session exactly when it has been quiet for more than the time to live before the sweep began. */
  lemma ScanMarksIdleSessions(run: seq<Action>, task: Task, id: Id)
    requires Legal(EMPTY, run) && Enabled(After(EMPTY, run), Scan(task, id))
    ensures var s := After(EMPTY, run);
            var s' := Apply(s, Scan(task, id));
            var w := s.sweeps[task];
            && s'.sessions == s.sessions && task in s'.sweeps
            && s'.sweeps[task].victims == w.victims + (if w.start - LastTouch(s.sessions[id].log) > w.ttl then {id} else {})
  {
    RunKeeps(EMPTY, run);
    assert SessionInv(After(EMPTY, run).sessions[id]);
  }

  lemma StepScans(s: Store, a: Action, task: Task, id: Id)
    requires Enabled(s, a) && task in Apply(s, a).sweeps && id in Apply(s, a).sweeps[task].victims
    ensures a == Scan(task, id) || (task in s.sweeps && id in s.sweeps[task].victims)
  {
  }

  /** A sweep removes only sessions that it has looked at. */
  lemma {:induction false} OnlyScannedAreRemoved(run: seq<Action>, task: Task, id: Id) returns (k: nat)
    requires Legal(EMPTY, run) && task in After(EMPTY, run).sweeps && id in After(EMPTY, run).sweeps[task].victims
    ensures k < |run| && run[k] == Scan(task, id)
    decreases |run|
  {
    hide Enabled, Apply, Legal, After;
    if run == [] {
      NoSteps(EMPTY);
    }
    LastStep(EMPTY, run);
    var front, a := run[..|run| - 1], run[|run| - 1];
    StepScans(After(EMPTY, front), a, task, id);
    if a == Scan(task, id) {
      k := |run| - 1;
    } else {
      k := OnlyScannedAreRemoved(front, task, id);
    }
  }

  lemma RemovalNeedsAVictim(s: Store, task: Task, id: Id)
    ensures Enabled(s, RemoveIf(task, id)) <==>
            task in s.sweeps && id in s.sweeps[task].victims && id in s.sessions && s.sessions[id].stage.Live? && s.sessions[id].refs == {}
  {
  }

  /** One statement on the wire: its start, the probe for the thread id if asked for, and its end. */
  lemma StatementTraffic(s: Store, task: Task, id: Id, asks: bool)
    requires IsLive(s, id) && task in s.sessions[id].refs && s.sessions[id].holder.Free?
    ensures var log := s.sessions[id].log;
            var locked := Apply(s, Lock(task, id));
            var asked := if asks then Apply(locked, AskThreadId(task, id)) else locked;
            var ended, failed := Apply(asked, Refresh(task, id)), Apply(asked, Abandon(task, id));
            var sent := log + [StmtStart(task)] + if asks then [Probe(task)] else [];
            && ended.sessions[id].log == sent + [StmtDone(task, s.clock)] && ended.sessions[id].lastUsed == s.clock
            && failed.sessions[id].log == sent + [StmtFailed(task)] && failed.sessions[id].lastUsed == s.sessions[id].lastUsed
            && ended.sessions[id].refs == failed.sessions[id].refs == s.sessions[id].refs - {task}
            && ended.sessions[id].holder.Free? && failed.sessions[id].holder.Free?
  {
  }

  /** The time that passes in a run. */
  function Elapsed(run: seq<Action>): nat {
    if run == [] then 0 else (if run[0].Tick? then run[0].delta else 0) + Elapsed(run[1..])
  }

  lemma {:induction false} ClockTells(s: Store, run: seq<Action>)
    requires Legal(s, run)
    ensures After(s, run).clock == s.clock + Elapsed(run)
    decreases |run|
  {
    if run != [] {
      ClockTells(Apply(s, run[0]), run[1..]);
    }
  }

  // ── Statements in flight ──

  /** The task has begun a statement on the session and not ended it: read off the run alone. */
  predicate InFlight(run: seq<Action>, task: Task, id: Id) {
    run != [] &&
    var a := run[|run| - 1];
    if a == Get(task, id) then true
    else a != Refresh(task, id) && a != Abandon(task, id) && InFlight(run[..|run| - 1], task, id)
  }

  predicate Refers(s: Store, task: Task, id: Id) {
    id in s.sessions && task in s.sessions[id].refs
  }

  lemma StepRefers(s: Store, a: Action, task: Task, id: Id)
    requires Enabled(s, a) && Inv(s)
    ensures Refers(Apply(s, a), task, id) <==>
            a == Get(task, id) || (a != Refresh(task, id) && a != Abandon(task, id) && Refers(s, task, id))
  {
    hide WellOrdered, LastTouch;
    if id in s.sessions {
      InvAt(s, id);
    }
  }

  lemma {:induction false} RefersExactly(run: seq<Action>, task: Task, id: Id)
    requires Legal(EMPTY, run)
    ensures Refers(After(EMPTY, run), task, id) <==> InFlight(run, task, id)
    decreases |run|
  {
    hide Enabled, Apply, Inv, Legal, After, Refers;
    if run == [] {
      NoSteps(EMPTY);
      assert !Refers(EMPTY, task, id) by { NothingRefers(task, id); }
    } else {
      LastStep(EMPTY, run);
      var front, a := run[..|run| - 1], run[|run| - 1];
      RefersExactly(front, task, id);
      StartsWell();
      RunKeeps(EMPTY, front);
      StepRefers(After(EMPTY, front), a, task, id);
    }
  }

  lemma NothingRefers(task: Task, id: Id)
    ensures !Refers(EMPTY, task, id)
  {
  }

  /**
   In every interleaving, what a task may do with a live session depends on the statements in flight
   alone: it may begin one when it has none itself, whatever others do; its turn comes when nothing is
   on the wire; and a finisher may take the session exactly when no task has one.
   */
  lemma AvailableExactly(run: seq<Action>, task: Task, id: Id, control: Control)
    requires Legal(EMPTY, run)
    ensures var s := After(EMPTY, run);
            && (Enabled(s, Get(task, id)) <==> IsLive(s, id) && !InFlight(run, task, id))
            && (Enabled(s, Lock(task, id)) <==> IsLive(s, id) && InFlight(run, task, id) && Quiet(s.sessions[id].log))
            && (Enabled(s, Remove(task, id, control)) <==> IsLive(s, id) && forall t: Task :: !InFlight(run, t, id))
  {
    hide After, Legal, WellOrdered, LastTouch, InFlight;
    var s := After(EMPTY, run);
    StartsWell();
    RunKeeps(EMPTY, run);
    RefersExactly(run, task, id);
    if IsLive(s, id) {
      InvAt(s, id);
      LockIsFree(s.sessions[id]);
      NoReference(run, id);
    }
  }

  lemma NoReference(run: seq<Action>, id: Id)
    requires Legal(EMPTY, run) && id in After(EMPTY, run).sessions
    ensures After(EMPTY, run).sessions[id].refs == {} <==> forall t: Task :: !InFlight(run, t, id)
  {
    hide After, Legal, InFlight;
    var refs := After(EMPTY, run).sessions[id].refs;
    if refs == {} {
      forall t: Task ensures !InFlight(run, t, id) {
        RefersExactly(run, t, id);
      }
    } else {
      var t: Task :| t in refs;
      RefersExactly(run, t, id);
      assert InFlight(run, t, id);
    }
  }

  lemma LockIsFree(x: Session)
    requires SessionInv(x) && x.stage.Live?
    ensures x.holder.Free? <==> Quiet(x.log)
  {
    hide WellOrdered, LastTouch;
  }

  // ── The control statement on the wire ──

  lemma {:induction false} SplitRun(s: Store, a: seq<Action>, b: seq<Action>)
    requires Legal(s, a + b)
    ensures Legal(s, a) && Legal(After(s, a), b) && After(s, a + b) == After(After(s, a), b)
    decreases |a|
  {
    hide Enabled, Apply;
    if a == [] {
      assert a + b == b;
    } else {
      assert (a + b)[1..] == a[1..] + b;
      SplitRun(Apply(s, a[0]), a[1..], b);
    }
  }

  lemma LastStep(s: Store, run: seq<Action>)
    requires Legal(s, run) && run != []
    ensures var front, a := run[..|run| - 1], run[|run| - 1];
            Legal(s, front) && Enabled(After(s, front), a) && After(s, run) == Apply(After(s, front), a)
  {
    hide Enabled, Apply;
    var front, a := run[..|run| - 1], run[|run| - 1];
    assert run == front + [a];
    SplitRun(s, front, [a]);
    assert [a][1..] == [];
    assert Enabled(After(s, front), [a][0]);
  }

  /** The step takes the session out of the map for `control`: the one a finisher names, ROLLBACK for a sweep. */
  predicate Takes(a: Action, id: Id, control: Control) {
    (a.Remove? && a.id == id && a.control == control) || (a.RemoveIf? && a.id == id && control == Rollback)
  }

  /** Every control statement of the session, sent or to be sent, is `control`. */
  predicate Sends(x: Session, control: Control) {
    && (forall i :: 0 <= i < |x.log| && x.log[i].Control? ==> x.log[i].control == control)
    && (x.stage.Owned? ==> x.stage.control == control)
    && (x.stage.Controlled? ==> Control(control) in x.log)
  }

  predicate NoControl(log: seq<Wire>) {
    forall i :: 0 <= i < |log| ==> !log[i].Control?
  }

  lemma LiveHasNoControl(x: Session)
    requires SessionInv(x) && x.stage.Live?
    ensures NoControl(x.log)
  {
    forall i | 0 <= i < |x.log| - 1 ensures !x.log[i].Control? {
      var next := x.log[i + 1];
      assert x.log[i].Control? ==> next.Close?;
    }
  }

  lemma TakingDecides(s: Store, a: Action, id: Id) returns (control: Control)
    requires Inv(s) && Enabled(s, a) && IsLive(s, id) && !IsLive(Apply(s, a), id)
    ensures Takes(a, id, control) && id in Apply(s, a).sessions && Sends(Apply(s, a).sessions[id], control)
    ensures Apply(s, a).sessions[id].stage == Owned(a.task, control)
  {
    hide Inv, WellOrdered, LastTouch;
    InvAt(s, id);
    LiveHasNoControl(s.sessions[id]);
    control := if a.Remove? then a.control else Rollback;
  }

  lemma StepKeepsSends(s: Store, a: Action, id: Id, control: Control)
    requires Enabled(s, a) && id in s.sessions && !IsLive(s, id) && Sends(s.sessions[id], control)
    ensures id in Apply(s, a).sessions && !IsLive(Apply(s, a), id) && Sends(Apply(s, a).sessions[id], control)
  {
  }

  lemma OpenedIsLive(s: Store, a: Action, id: Id)
    requires Enabled(s, a) && id !in s.sessions && id in Apply(s, a).sessions
    ensures IsLive(Apply(s, a), id)
  {
  }

  /**
   In every interleaving, whatever control statement a connection sees is the one named by the removal
   that took its session: the finisher's own, or ROLLBACK when a sweep took it.
   */
  lemma {:induction false} ControlIsTheOneAsked(run: seq<Action>, id: Id) returns (k: nat, control: Control)
    requires Legal(EMPTY, run) && id in After(EMPTY, run).sessions && !IsLive(After(EMPTY, run), id)
    ensures k < |run| && Takes(run[k], id, control)
    ensures Legal(EMPTY, run[..k]) && IsLive(After(EMPTY, run[..k]), id)
    ensures Sends(After(EMPTY, run).sessions[id], control)
    decreases |run|
  {
    hide Enabled, Apply, Legal, After, IsLive, Sends;
    if run == [] {
      NoSteps(EMPTY);
    }
    LastStep(EMPTY, run);
    var n := |run| - 1;
    var front, a := run[..n], run[n];
    var s := After(EMPTY, front);
    StartsWell();
    RunKeeps(EMPTY, front);
    if id !in s.sessions {
      OpenedIsLive(s, a, id);
    } else if IsLive(s, id) {
      control := TakingDecides(s, a, id);
      k := n;
    } else {
      k, control := ControlIsTheOneAsked(front, id);
      assert front[..k] == run[..k];
      StepKeepsSends(s, a, id, control);
    }
  }

  lemma StartsWell()
    ensures Inv(EMPTY)
  {
  }

  // ── Sessions touched after the scan ──

  predicate SweepsPast(s: Store) {
    forall t :: t in s.sweeps ==> s.sweeps[t].start <= s.clock
  }

  /** The session's last success, or its opening, is not before the sweep's start. */
  predicate TouchedSince(s: Store, task: Task, id: Id) {
    && SweepsPast(s) && task in s.sweeps && id in s.sessions
    && s.sweeps[task].start <= s.sessions[id].lastUsed
  }

  lemma StepKeepsPast(s: Store, a: Action)
    requires Enabled(s, a) && SweepsPast(s)
    ensures SweepsPast(Apply(s, a))
  {
  }

  lemma StepKeepsTouched(s: Store, a: Action, task: Task, id: Id)
    requires Enabled(s, a) && TouchedSince(s, task, id) && !(a.StartSweep? && a.task == task)
    ensures TouchedSince(Apply(s, a), task, id)
  {
  }

  lemma {:induction false} RunKeepsPast(s: Store, run: seq<Action>)
    requires Legal(s, run) && SweepsPast(s)
    ensures SweepsPast(After(s, run))
    decreases |run|
  {
    hide Enabled, Apply, SweepsPast;
    if run != [] {
      StepKeepsPast(s, run[0]);
      RunKeepsPast(Apply(s, run[0]), run[1..]);
    }
  }

  predicate Restarts(run: seq<Action>, task: Task) {
    exists k :: 0 <= k < |run| && run[k].StartSweep? && run[k].task == task
  }

  lemma {:induction false} RunKeepsTouched(s: Store, run: seq<Action>, task: Task, id: Id)
    requires Legal(s, run) && TouchedSince(s, task, id) && !Restarts(run, task)
    ensures TouchedSince(After(s, run), task, id)
    decreases |run|
  {
    hide Enabled, Apply, TouchedSince;
    if run != [] {
      assert forall k :: 0 <= k < |run[1..]| ==> run[1..][k] == run[k + 1];
      StepKeepsTouched(s, run[0], task, id);
      RunKeepsTouched(Apply(s, run[0]), run[1..], task, id);
    }
  }

  /**
   A session whose statement succeeds after a sweep has started survives that sweep: whatever happens
   next, the sweep's conditional removal leaves it, and the whole store, as it is.
   */
  lemma TouchedAfterTheScanSurvives(before: seq<Action>, touch: Action, more: seq<Action>, task: Task, id: Id)
    requires Legal(EMPTY, before) && task in After(EMPTY, before).sweeps
    requires touch.Refresh? && touch.id == id && Enabled(After(EMPTY, before), touch)
    requires Legal(Apply(After(EMPTY, before), touch), more) && !Restarts(more, task)
    requires Enabled(After(Apply(After(EMPTY, before), touch), more), RemoveIf(task, id))
    ensures var s := After(Apply(After(EMPTY, before), touch), more);
            Apply(s, RemoveIf(task, id)) == s && IsLive(s, id)
  {
    hide Legal, After;
    var start := After(EMPTY, before);
    RunKeepsPast(EMPTY, before);
    var touched := Apply(start, touch);
    assert TouchedSince(touched, task, id);
    RunKeepsTouched(touched, more, task, id);
  }

  // ── The store ──

  lemma {:induction false} RunConcat(s: Store, a: seq<Action>, b: seq<Action>)
    requires Legal(s, a) && Legal(After(s, a), b)
    ensures Legal(s, a + b) && After(s, a + b) == After(After(s, a), b)
    decreases |a|
  {
    hide Enabled, Apply;
    if a == [] {
      assert a + b == b;
    } else {
      assert (a + b)[1..] == a[1..] + b;
      RunConcat(Apply(s, a[0]), a[1..], b);
    }
  }

  lemma RunOne(s: Store, a: Action)
    requires Enabled(s, a)
    ensures Legal(s, [a]) && After(s, [a]) == Apply(s, a)
  {
    hide Enabled, Apply;
    assert [a][1..] == [];
  }

  /** What was taken out of the map stays out. */
  predicate KeepsTaken(s: Store, s': Store) {
    forall id :: id in s.sessions && !IsLive(s, id) ==> id in s'.sessions && !IsLive(s', id)
  }

  lemma StepKeepsTaken(s: Store, a: Action)
    requires Enabled(s, a)
    ensures KeepsTaken(s, Apply(s, a))
  {
    hide Enabled, Apply;
    forall id | id in s.sessions && !IsLive(s, id) ensures id in Apply(s, a).sessions && !IsLive(Apply(s, a), id) {
      TakenForGood(s, a, id);
    }
  }

  /** Steps that are not `task`'s. */
  predicate ByOthers(actions: seq<Action>, task: Task) {
    forall k :: 0 <= k < |actions| ==> !Mine(actions[k], task)
  }

  predicate Mine(a: Action, task: Task) {
    !a.Tick? && !a.Open? && a.task == task
  }

  predicate OwnedBy(s: Store, id: Id, task: Task) {
    id in s.sessions && (s.sessions[id].stage.Owned? || s.sessions[id].stage.Controlled?) && s.sessions[id].stage.owner == task
  }

  lemma OthersLeaveOwned(s: Store, a: Action, id: Id, task: Task)
    requires Enabled(s, a) && OwnedBy(s, id, task) && !Mine(a, task)
    ensures id in Apply(s, a).sessions && Apply(s, a).sessions[id] == s.sessions[id]
  {
  }

  /** How a finisher fares: it takes the session, finds none, or is still made to wait. */
  datatype Removal = Taken | NotFound | Waiting

  lemma RemovalIsReady(s: Store, task: Task, id: Id, control: Control)
    requires IsLive(s, id)
    ensures Enabled(s, Remove(task, id, control)) <==> s.sessions[id].refs == {}
  {
  }

  lemma RemovalTakes(s: Store, task: Task, id: Id, control: Control)
    requires Enabled(s, Remove(task, id, control))
    ensures id in Apply(s, Remove(task, id, control)).sessions && !IsLive(Apply(s, Remove(task, id, control)), id)
    ensures Apply(s, Remove(task, id, control)).sessions[id].stage == Owned(task, control)
  {
  }

  predicate EndsWith(log: seq<Wire>, tail: seq<Wire>) {
    |tail| <= |log| && log[|log| - |tail|..] == tail
  }

  /** The owner's two last steps put its control statement and the close on the wire. */
  lemma IssueThenDrop(s: Store, task: Task, id: Id, control: Control)
    requires id in s.sessions && s.sessions[id].stage == Owned(task, control)
    ensures Enabled(s, Issue(task, id)) && Enabled(Apply(s, Issue(task, id)), Drop(task, id))
    ensures var s' := Apply(Apply(s, Issue(task, id)), Drop(task, id));
            id in s'.sessions && s'.sessions[id].stage.Gone? && EndsWith(s'.sessions[id].log, [Control(control), Close])
  {
    var log := s.sessions[id].log;
    assert log + [Control(control)] + [Close] == log + [Control(control), Close];
    assert (log + [Control(control), Close])[|log|..] == [Control(control), Close];
  }

  /** A step a method tried when `at` steps had been taken. */
  datatype Attempt = Attempt(at: nat, action: Action)

  /** Every attempt was carried out in `run`, unless it was not enabled where it was made. */
  predicate Carried(s: Store, run: seq<Action>, tries: seq<Attempt>) {
    forall k :: 0 <= k < |tries| ==> CarriedOne(s, run, tries[k])
  }

  predicate CarriedOne(s: Store, run: seq<Action>, t: Attempt) {
    && t.at <= |run| && Legal(s, run[..t.at])
    && (Enabled(After(s, run[..t.at]), t.action) ==> t.at < |run| && run[t.at] == t.action)
  }

  lemma CarriedExtends(s: Store, run: seq<Action>, more: seq<Action>, tries: seq<Attempt>)
    requires Carried(s, run, tries) && run <= more
    ensures Carried(s, more, tries)
  {
    hide Enabled, Legal, After;
    forall k | 0 <= k < |tries| ensures CarriedOne(s, more, tries[k]) {
      assert CarriedOne(s, run, tries[k]);
      assert more[..tries[k].at] == run[..tries[k].at];
    }
  }

  function Actions(tries: seq<Attempt>): (acts: seq<Action>)
    ensures |acts| == |tries|
    ensures forall k :: 0 <= k < |acts| ==> acts[k] == tries[k].action
  {
    seq(|tries|, k requires 0 <= k < |tries| => tries[k].action)
  }

  /** The attempt was made where its step could happen. */
  predicate Took(s: Store, run: seq<Action>, t: Attempt) {
    t.at <= |run| && Legal(s, run[..t.at]) && Enabled(After(s, run[..t.at]), t.action)
  }

  /** How many of the attempted control statements were issued. */
  function Issued(s: Store, run: seq<Action>, tries: seq<Attempt>): nat {
    if tries == [] then 0
    else
      var last := tries[|tries| - 1];
      Issued(s, run, tries[..|tries| - 1]) + if last.action.Issue? && Took(s, run, last) then 1 else 0
  }

  lemma {:induction false} IssuedExtends(s: Store, run: seq<Action>, more: seq<Action>, tries: seq<Attempt>)
    requires Carried(s, run, tries) && run <= more
    ensures Issued(s, more, tries) == Issued(s, run, tries)
  {
    hide Enabled, Legal, After;
    if tries != [] {
      var init, last := tries[..|tries| - 1], tries[|tries| - 1];
      assert CarriedOne(s, run, last);
      assert more[..last.at] == run[..last.at];
      assert Carried(s, run, init) by {
        assert forall k :: 0 <= k < |init| ==> init[k] == tries[k];
      }
      IssuedExtends(s, run, more, init);
    }
  }

  lemma IssuedNext(s: Store, before: seq<Action>, run: seq<Action>, tried: seq<Attempt>, a: Action, done: bool)
    requires Carried(s, before, tried) && before <= run
    requires Legal(s, before) && (done <==> Enabled(After(s, before), a))
    ensures Issued(s, run, tried + [Attempt(|before|, a)]) == Issued(s, before, tried) + if a.Issue? && done then 1 else 0
  {
    hide Enabled, Legal, After, Carried;
    IssuedExtends(s, before, run, tried);
    assert (tried + [Attempt(|before|, a)])[..|tried|] == tried;
    assert run[..|before|] == before;
  }

  function Scans(task: Task, ids: seq<Id>): seq<Action> {
    if ids == [] then [] else Scans(task, ids[..|ids| - 1]) + [Scan(task, ids[|ids| - 1])]
  }

  /** The same step tried `n` times, as a statement in flight makes it wait. */
  function Repeated(a: Action, n: nat): seq<Action> {
    if n == 0 then [] else Repeated(a, n - 1) + [a]
  }

  function Reclaims(task: Task, victims: seq<Id>, turns: seq<nat>): seq<Action>
    requires |victims| == |turns|
  {
    if victims == [] then []
    else
      var last := |victims| - 1;
      Reclaims(task, victims[..last], turns[..last]) + Repeated(RemoveIf(task, victims[last]), turns[last]) +
      [Issue(task, victims[last]), Drop(task, victims[last])]
  }

  /** The ids the sweep of `task` has found idle. */
  function VictimsOf(s: Store, task: Task, ids: seq<Id>): seq<Id> {
    if ids == [] then []
    else
      var id := ids[|ids| - 1];
      VictimsOf(s, task, ids[..|ids| - 1]) + if task in s.sweeps && id in s.sweeps[task].victims then [id] else []
  }

  lemma ReclaimsNone(task: Task)
    ensures Reclaims(task, [], []) == []
  {
  }

  lemma ReclaimsNext(task: Task, victims: seq<Id>, turns: seq<nat>, id: Id, n: nat)
    requires |victims| == |turns|
    ensures Reclaims(task, victims + [id], turns + [n]) ==
            Reclaims(task, victims, turns) + Repeated(RemoveIf(task, id), n) + [Issue(task, id), Drop(task, id)]
  {
    assert (victims + [id])[..|victims|] == victims && (turns + [n])[..|turns|] == turns;
  }

  /**
   The shared map of sessions. Each method makes the source's sequence of atomic steps, recorded in
   `tries`; between two of them other tasks take the steps `others` offers, as far as they are
   enabled. `run` is everything that happened.
   */
  class DbTxnSessionStore {
    var clock: int
    var sessions: map<Id, Session>
    var sweeps: map<Task, Sweep>

    function State(): Store
      reads this
    {
      Store(clock, sessions, sweeps)
    }

    ghost predicate Reached(s: Store, run: seq<Action>, tries: seq<Attempt>)
      reads this
    {
      Legal(s, run) && State() == After(s, run) && Carried(s, run, tries)
    }

    constructor ()
      ensures State() == EMPTY
    {
      clock, sessions, sweeps := 0, map[], map[];
    }

    /** One more atomic step, if it is enabled now. */
    method Try(ghost s: Store, ghost before: seq<Action>, ghost tried: seq<Attempt>, a: Action)
      returns (done: bool, ghost run: seq<Action>, ghost tries: seq<Attempt>)
      requires Reached(s, before, tried)
      modifies this
      ensures done <==> Enabled(old(State()), a)
      ensures run == before + (if done then [a] else []) && tries == tried + [Attempt(|before|, a)]
      ensures Reached(s, run, tries)
      ensures Issued(s, run, tries) == Issued(s, before, tried) + if a.Issue? && done then 1 else 0
      ensures State() == (if done then Apply(old(State()), a) else old(State())) && KeepsTaken(old(State()), State())
    {
      hide Apply, Issued;
      run := before;
      done := Enabled(State(), a);
      if done {
        RunOne(State(), a);
        RunConcat(s, before, [a]);
        StepKeepsTaken(State(), a);
        var next := Apply(State(), a);
        clock, sessions, sweeps := next.clock, next.sessions, next.sweeps;
        run := before + [a];
      }
      assert run[..|before|] == before;
      CarriedExtends(s, before, run, tried);
      IssuedNext(s, before, run, tried, a, done);
      tries := tried + [Attempt(|before|, a)];
    }

    /** Steps of other tasks. */
    method Meanwhile(ghost s: Store, ghost before: seq<Action>, ghost tried: seq<Attempt>, others: seq<Action>)
      returns (ghost run: seq<Action>)
      requires Reached(s, before, tried)
      modifies this
      ensures before <= run && Reached(s, run, tried)
      ensures Issued(s, run, tried) == Issued(s, before, tried)
      ensures KeepsTaken(old(State()), State())
      ensures forall id, task :: OwnedBy(old(State()), id, task) && ByOthers(others, task) ==> id in sessions && sessions[id] == old(sessions)[id]
    {
      hide Enabled, Apply, Legal, After, Carried, Issued;
      run := before;
      for i := 0 to |others|
        invariant before <= run && Reached(s, run, tried)
        invariant KeepsTaken(old(State()), State())
        invariant forall id, task :: OwnedBy(old(State()), id, task) && ByOthers(others, task) ==> id in sessions && sessions[id] == old(sessions)[id]
      {
        var did;
        ghost var before', unused := run, [];
        NothingTried(s, run);
        ghost var now := State();
        did, run, unused := Try(s, run, [], others[i]);
        if did {
          forall id, task | OwnedBy(old(State()), id, task) && ByOthers(others, task) ensures id in sessions && sessions[id] == old(sessions)[id] {
            OthersLeaveOwned(now, others[i], id, task);
          }
        }
        CarriedExtends(s, before', run, tried);
      }
      IssuedExtends(s, before, run, tried);
    }

    /**
     Open a session under a fresh id. When the pool does not open or BEGIN fails, the connection is
     dropped and nothing is registered.
     */
    method Begin(id: Id, poolOpens: bool, begins: bool) returns (r: Result<Id, string>, ghost run: seq<Action>)
      requires id !in sessions
      modifies this
      ensures r.Ok? <==> poolOpens && begins
      ensures r.Err? ==> run == [] && State() == old(State()) && r.error == if poolOpens then "begin failed" else "open failed"
      ensures r.Ok? ==> r.value == id && run == [Open(id)] && Reached(old(State()), run, [])
      ensures r.Ok? ==> IsLive(State(), id) && sessions[id].log == [BeginTxn(old(clock))]
    {
      hide Issued;
      run := [];
      if !poolOpens {
        return Err("open failed"), [];
      }
      if !begins {
        return Err("begin failed"), [];
      }
      NothingTried(State(), []);
      NoSteps(State());
      var did;
      ghost var tries;
      did, run, tries := Try(State(), [], [], Open(id));
      assert run == [Open(id)];
      RunOne(old(State()), Open(id));
      r := Ok(id);
    }

    /** Try a step that may have to wait, until it happens, the entry is gone, or the turns of waiting end. */
    method WaitFor(ghost s: Store, ghost before: seq<Action>, ghost tried: seq<Attempt>, id: Id, a: Action, others: seq<seq<Action>>)
      returns (ready: bool, turns: nat, ghost run: seq<Action>, ghost tries: seq<Attempt>, ghost at: Store)
      requires Reached(s, before, tried) && !a.Issue?
      modifies this
      ensures before <= run && Reached(s, run, tries)
      ensures Actions(tries) == Actions(tried) + Repeated(a, turns)
      ensures Issued(s, run, tries) == Issued(s, before, tried)
      ensures ready ==> Enabled(at, a) && State() == Apply(at, a) && a in run
      ensures !ready && IsLive(State(), id) ==> turns == |others| + 1 && !Enabled(State(), a)
    {
      hide Enabled, Apply, Legal, After, Carried, Issued, IsLive;
      run, tries, at := before, tried, State();
      ready, turns := false, 0;
      while turns <= |others| && !ready && IsLive(State(), id)
        invariant before <= run && Reached(s, run, tries)
        invariant Actions(tries) == Actions(tried) + Repeated(a, turns)
        invariant Issued(s, run, tries) == Issued(s, before, tried)
        invariant turns <= |others| + 1
        invariant ready ==> Enabled(at, a) && State() == Apply(at, a) && a in run
        invariant !ready && turns == |others| + 1 ==> !Enabled(State(), a)
        decreases |others| + 1 - turns
      {
        at := State();
        ready, run, tries := Try(s, run, tries, a);
        turns := turns + 1;
        if !ready && turns <= |others| {
          run := Meanwhile(s, run, tries, others[turns - 1]);
        }
      }
    }

    /**
     COMMIT or ROLLBACK: take the session out of the map, then issue the statement and close. While a
     statement is in flight the removal waits; `others` gives what happens in each turn of waiting.
     */
    method Finish(task: Task, id: Id, control: Control, others: seq<seq<Action>>, afterwards: seq<Action>)
      returns (outcome: Removal, turns: nat, ghost run: seq<Action>, ghost tries: seq<Attempt>)
      requires ByOthers(afterwards, task)
      modifies this
      ensures Reached(old(State()), run, tries)
      ensures Actions(tries) ==
              Repeated(Remove(task, id, control), turns) + if outcome.Taken? then [Issue(task, id), Drop(task, id)] else []
      ensures outcome.Taken? ==> id in sessions && !sessions[id].stage.Live? && Remove(task, id, control) in run
      ensures outcome.Taken? ==> EndsWith(sessions[id].log, [Control(control), Close]) && sessions[id].stage.Gone?
      ensures outcome.NotFound? ==> !IsLive(State(), id)
      ensures outcome.Waiting? ==> IsLive(State(), id) && sessions[id].refs != {} && turns == |others| + 1
    {
      hide Enabled, Apply, Legal, After, Carried, Issued;
      ghost var s := State();
      NothingTried(s, []);
      NoSteps(s);
      var ready, did;
      ghost var at;
      ready, turns, run, tries, at := WaitFor(s, [], [], id, Remove(task, id, control), others);
      if !ready {
        outcome := if IsLive(State(), id) then Waiting else NotFound;
        if outcome.Waiting? {
          RemovalIsReady(State(), task, id, control);
        }
        return;
      }
      outcome := Taken;
      RemovalTakes(at, task, id, control);
      run := Meanwhile(s, run, tries, afterwards);
      ghost var taken := State();
      IssueThenDrop(taken, task, id, control);
      did, run, tries := Try(s, run, tries, Issue(task, id));
      did, run, tries := Try(s, run, tries, Drop(task, id));
    }

    /** The sweeper's first pass: every entry of the map is looked at once. */
    method ScanAll(ghost s: Store, ghost before: seq<Action>, ghost tried: seq<Attempt>, task: Task, ids: seq<Id>)
      returns (ghost run: seq<Action>, ghost tries: seq<Attempt>)
      requires Reached(s, before, tried)
      modifies this
      ensures Reached(s, run, tries)
      ensures Actions(tries) == Actions(tried) + Scans(task, ids)
      ensures Issued(s, run, tries) == Issued(s, before, tried)
    {
      hide Enabled, Apply, Legal, After, Carried, Issued;
      run, tries := before, tried;
      var did;
      for i := 0 to |ids|
        invariant Reached(s, run, tries)
        invariant Actions(tries) == Actions(tried) + Scans(task, ids[..i])
        invariant Issued(s, run, tries) == Issued(s, before, tried)
      {
        did, run, tries := Try(s, run, tries, Scan(task, ids[i]));
        assert ids[..i + 1][..i] == ids[..i];
      }
      assert ids[..|ids|] == ids;
    }

    /** The sweeper's second pass, for one victim: remove it if it is still idle, roll it back, close it. */
    method ReclaimOne(ghost s: Store, ghost before: seq<Action>, ghost tried: seq<Attempt>, task: Task, id: Id, others: seq<seq<Action>>)
      returns (taken: bool, turns: nat, ghost run: seq<Action>, ghost tries: seq<Attempt>)
      requires Reached(s, before, tried)
      modifies this
      ensures before <= run && Reached(s, run, tries)
      ensures Actions(tries) == Actions(tried) + Repeated(RemoveIf(task, id), turns) + [Issue(task, id), Drop(task, id)]
      ensures Issued(s, run, tries) == Issued(s, before, tried) + if taken then 1 else 0
    {
      hide Enabled, Apply, Legal, After, Carried, Issued;
      var ready, did;
      ghost var at;
      ready, turns, run, tries, at := WaitFor(s, before, tried, id, RemoveIf(task, id), others);
      taken, run, tries := Try(s, run, tries, Issue(task, id));
      did, run, tries := Try(s, run, tries, Drop(task, id));
    }

    method FindVictims(task: Task, ids: seq<Id>) returns (victims: seq<Id>)
      ensures victims == VictimsOf(State(), task, ids)
    {
      victims := [];
      for i := 0 to |ids|
        invariant victims == VictimsOf(State(), task, ids[..i])
      {
        assert ids[..i + 1][..i] == ids[..i];
        if task in sweeps && ids[i] in sweeps[task].victims {
          victims := victims + [ids[i]];
        }
      }
      assert ids[..|ids|] == ids;
    }

    /**
     The sweeper: scan, then remove each victim that is still idle and roll it back. The scan ends after
     the first `mid` steps of the run.
     */
    method CleanupExpired(task: Task, ttl: nat, ids: seq<Id>, others: seq<seq<seq<Action>>>)
      returns (reclaimed: nat, ghost mid: nat, victims: seq<Id>, turns: seq<nat>, ghost run: seq<Action>, ghost tries: seq<Attempt>)
      modifies this
      ensures Reached(old(State()), run, tries)
      ensures mid <= |run| && Legal(old(State()), run[..mid]) && victims == VictimsOf(After(old(State()), run[..mid]), task, ids)
      ensures |turns| == |victims|
      ensures Actions(tries) == [StartSweep(task, ttl)] + Scans(task, ids) + Reclaims(task, victims, turns)
      ensures reclaimed == Issued(old(State()), run, tries)
    {
      hide Enabled, Apply, Legal, After, Carried, Issued, Reclaims, Scans, VictimsOf;
      ghost var s := State();
      NothingTried(s, []);
      NoSteps(s);
      NothingIssued(s);
      var did;
      did, run, tries := Try(s, [], [], StartSweep(task, ttl));
      run, tries := ScanAll(s, run, tries, task, ids);
      victims := FindVictims(task, ids);
      mid := |run|;
      ghost var atScan := run;
      assert run[..mid] == run;
      ghost var scanned := Actions(tries);
      reclaimed, turns := 0, [];
      ReclaimsNone(task);
      for i := 0 to |victims|
        invariant Reached(s, run, tries) && atScan <= run && |turns| == i
        invariant Actions(tries) == scanned + Reclaims(task, victims[..i], turns)
        invariant reclaimed == Issued(s, run, tries)
      {
        var n;
        did, n, run, tries := ReclaimOne(s, run, tries, task, victims[i], if i < |others| then others[i] else []);
        if did {
          reclaimed := reclaimed + 1;
        }
        assert victims[..i + 1] == victims[..i] + [victims[i]];
        ReclaimsNext(task, victims[..i], turns, victims[i], n);
        turns := turns + [n];
      }
      assert victims[..|victims|] == victims;
      assert run[..mid] == atScan;
    }

    /** Run one statement: hold the map entry, wait for the session's lock, run, refresh, let go. */
    method ExecuteInTxn(task: Task, id: Id, succeeds: bool, asksThreadId: bool, others: seq<seq<Action>>)
      returns (found: bool, locked: bool, waits: nat, ghost run: seq<Action>, ghost tries: seq<Attempt>)
      modifies this
      ensures Reached(old(State()), run, tries)
      ensures found <==> Enabled(old(State()), Get(task, id))
      ensures Actions(tries) ==
              [Get(task, id)] +
              if !found then []
              else Repeated(Lock(task, id), waits) +
                   if locked && succeeds then (if asksThreadId then [AskThreadId(task, id)] else []) + [Refresh(task, id)]
                   else [Abandon(task, id)]
      ensures !found ==> run == []
    {
      hide Enabled, Apply, Legal, After, Carried, Issued, IsLive, Repeated;
      ghost var s := State();
      NothingTried(s, []);
      NoSteps(s);
      var did;
      locked, waits := false, 0;
      found, run, tries := Try(s, [], [], Get(task, id));
      if !found {
        return;
      }
      ghost var at;
      locked, waits, run, tries, at := WaitFor(s, run, tries, id, Lock(task, id), others);
      if locked && succeeds {
        if asksThreadId {
          did, run, tries := Try(s, run, tries, AskThreadId(task, id));
        }
        did, run, tries := Try(s, run, tries, Refresh(task, id));
      } else {
        did, run, tries := Try(s, run, tries, Abandon(task, id));
      }
    }
  }

  lemma NothingTried(s: Store, run: seq<Action>)
    ensures Carried(s, run, [])
  {
  }

  lemma NothingIssued(s: Store)
    ensures Issued(s, [], []) == 0
  {
  }

  lemma NoSteps(s: Store)
    ensures Legal(s, []) && After(s, []) == s
  {
  }
}
