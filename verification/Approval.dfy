/**
 The approval table and the tasks that work on it. Two doors lead to execution: an approver's approval
 over HTTP, and `execute_write` for an agent. Each reads the row first and claims it later with one
 guarded UPDATE. `Apply` is one atomic step of any task; a step that cannot happen changes nothing.
 */
module Approval {
  import opened Chars
  import opened Wrappers
  import opened SqlSplit
  import opened DdlExecutor

  type Id = string
  type Task = nat

  /** The words of both columns, `status` and `exec_status`. */
  datatype Status = Pending | Executing | Approved | Rejected | Failed

  datatype Door = Http | Agent

  /** A row, with what history it has: who claimed it, how often, and what its target was sent. */
  datatype Row = Row(sql: string, submitter: string, status: Status, exec: Status,
                     claimedBy: Option<Door>, claims: nat, sent: seq<string>)

  /** What a handler keeps between reading a row and claiming it. */
  datatype Loaded = Loaded(id: Id, sql: string, door: Door)

  datatype Stage = Spawned | Sending(next: nat) | Stopped

  datatype Job = Job(id: Id, sql: string, stage: Stage)

  datatype Table = Table(rows: map<Id, Row>, loads: map<Task, Loaded>, jobs: map<Task, Job>)

  datatype Action =
    | Submit(id: Id, sql: string, submitter: string)
    | LoadPending(task: Task, id: Id)
    | LoadOwn(task: Task, id: Id, submitter: string)
    | Claim(task: Task)
    | Reject(id: Id)
    | Start(task: Task, admitted: bool)
    | Send(task: Task, ok: bool)
    | Complete(task: Task, saved: bool)
    | Cancel(task: Task)

  function NewRow(sql: string, submitter: string): Row {
    Row(sql, submitter, Pending, Pending, None, 0, [])
  }

  /** The WHERE clause of the claim: on `status` for one door, on `exec_status` for the other. */
  predicate Claimable(r: Row, door: Door) {
    match door
    case Http => r.status == Pending
    case Agent => r.exec == Pending
  }

  function Claimed(r: Row, door: Door): Row {
    r.(status := if door.Http? then Executing else r.status, exec := Executing,
       claimedBy := Some(door), claims := r.claims + 1)
  }

  function Resolved(r: Row, ok: bool): Row {
    r.(status := if ok then Approved else Failed, exec := if ok then Approved else Failed)
  }

  predicate Finished(u: Unicode, j: Job) {
    j.stage.Stopped? || (j.stage.Sending? && j.stage.next == |Split(u, j.sql)|)
  }

  function Apply(u: Unicode, s: Table, a: Action): Table {
    match a
    case Submit(id, sql, submitter) =>
      if id in s.rows then s else s.(rows := s.rows[id := NewRow(sql, submitter)])
    case LoadPending(task, id) =>
      if task !in s.jobs && id in s.rows && s.rows[id].status == Pending then s.(loads := s.loads[task := Loaded(id, s.rows[id].sql, Http)])
      else s
    case LoadOwn(task, id, submitter) =>
      if task !in s.jobs && id in s.rows && s.rows[id].submitter == submitter && s.rows[id].status == Approved
      then s.(loads := s.loads[task := Loaded(id, s.rows[id].sql, Agent)])
      else s
    case Claim(task) =>
      if task in s.loads && task !in s.jobs && s.loads[task].id in s.rows then
        var l := s.loads[task];
        if Claimable(s.rows[l.id], l.door) then
          Table(s.rows[l.id := Claimed(s.rows[l.id], l.door)], s.loads - {task}, s.jobs[task := Job(l.id, l.sql, Spawned)])
        else s.(loads := s.loads - {task})
      else s
    case Reject(id) =>
      if id in s.rows then s.(rows := s.rows[id := s.rows[id].(status := Rejected)]) else s
    case Start(task, admitted) =>
      if task in s.jobs && s.jobs[task].stage.Spawned? then
        var next := if admitted && AllDdl(u, s.jobs[task].sql) then Sending(0) else Stopped;
        s.(jobs := s.jobs[task := s.jobs[task].(stage := next)])
      else s
    case Send(task, ok) =>
      if task in s.jobs && s.jobs[task].stage.Sending? && s.jobs[task].stage.next < |Split(u, s.jobs[task].sql)| && s.jobs[task].id in s.rows then
        var j := s.jobs[task];
        var r := s.rows[j.id];
        var next := if ok then Sending(j.stage.next + 1) else Stopped;
        s.(rows := s.rows[j.id := r.(sent := r.sent + [Split(u, j.sql)[j.stage.next]])], jobs := s.jobs[task := j.(stage := next)])
      else s
    case Complete(task, saved) =>
      if task in s.jobs && Finished(u, s.jobs[task]) && s.jobs[task].id in s.rows then
        var j := s.jobs[task];
        Table(if saved then s.rows[j.id := Resolved(s.rows[j.id], !j.stage.Stopped?)] else s.rows, s.loads, s.jobs - {task})
      else s
    case Cancel(task) => s.(loads := s.loads - {task}, jobs := s.jobs - {task})
  }

  function AfterSteps(u: Unicode, s: Table, run: seq<Action>): Table
    decreases |run|
  {
    if run == [] then s else AfterSteps(u, Apply(u, s, run[0]), run[1..])
  }

  lemma Unfold(u: Unicode, s: Table, run: seq<Action>)
    requires run != []
    ensures AfterSteps(u, s, run) == AfterSteps(u, Apply(u, s, run[0]), run[1..])
  {
  }

  // ── The invariant ──

  predicate RowInv(u: Unicode, r: Row) {
    && (r.claims == 0 <==> r.claimedBy.None?) && r.claims <= 1
    && (r.claims == 0 ==> r.sent == [])
    && (r.claims > 0 ==> r.status != Pending && r.exec != Pending)
    && r.sent <= Split(u, r.sql)
    && (r.sent != [] ==> AllDdl(u, r.sql))
    && (r.claims > 0 && r.exec == Approved ==> r.sent == Split(u, r.sql) && AllDdl(u, r.sql))
  }

  predicate JobInv(u: Unicode, j: Job, r: Row) {
    && r.claims == 1 && r.exec == Executing && r.sql == j.sql
    && (j.stage.Spawned? ==> r.sent == [])
    && (j.stage.Sending? ==> j.stage.next <= |Split(u, j.sql)| && r.sent == Split(u, j.sql)[..j.stage.next] && AllDdl(u, j.sql))
  }

  /** A row an agent has read as approved is never pending again. */
  predicate LoadInv(l: Loaded, r: Row) {
    l.sql == r.sql && (l.door.Agent? ==> r.status != Pending)
  }

  predicate RowsInv(u: Unicode, s: Table) {
    forall id :: id in s.rows ==> RowInv(u, s.rows[id])
  }

  predicate JobsInv(u: Unicode, s: Table) {
    && (forall t :: t in s.jobs ==> s.jobs[t].id in s.rows && JobInv(u, s.jobs[t], s.rows[s.jobs[t].id]))
    && (forall t, t' :: t in s.jobs && t' in s.jobs && s.jobs[t].id == s.jobs[t'].id ==> t == t')
  }

  predicate LoadsInv(s: Table) {
    forall t :: t in s.loads ==> t !in s.jobs && s.loads[t].id in s.rows && LoadInv(s.loads[t], s.rows[s.loads[t].id])
  }

  predicate Inv(u: Unicode, s: Table) {
    RowsInv(u, s) && JobsInv(u, s) && LoadsInv(s)
  }

  /** Any table at rest: rows in whatever status, none claimed yet by a task of this run. */
  predicate AtRest(s: Table) {
    s.loads == map[] && s.jobs == map[] && forall id :: id in s.rows ==> s.rows[id].claims == 0 && s.rows[id].claimedBy.None? && s.rows[id].sent == []
  }

  lemma AtRestInv(u: Unicode, s: Table)
    requires AtRest(s)
    ensures Inv(u, s)
  {
    hide Split, AllDdl;
  }

  lemma InvRow(u: Unicode, s: Table, id: Id)
    requires Inv(u, s) && id in s.rows
    ensures RowInv(u, s.rows[id])
  {
    hide RowInv;
  }

  lemma InvJob(u: Unicode, s: Table, t: Task)
    requires Inv(u, s) && t in s.jobs
    ensures s.jobs[t].id in s.rows && JobInv(u, s.jobs[t], s.rows[s.jobs[t].id])
    ensures forall t' :: t' in s.jobs && s.jobs[t'].id == s.jobs[t].id ==> t == t'
  {
    hide JobInv;
  }

  lemma InvLoad(u: Unicode, s: Table, t: Task)
    requires Inv(u, s) && t in s.loads
    ensures t !in s.jobs && s.loads[t].id in s.rows && LoadInv(s.loads[t], s.rows[s.loads[t].id])
  {
    hide LoadInv;
  }

  /** The task a step belongs to: its own load and job are well-formed. */
  lemma InvActor(u: Unicode, s: Table, t: Task)
    requires Inv(u, s)
    ensures t in s.loads ==> t !in s.jobs && s.loads[t].id in s.rows && LoadInv(s.loads[t], s.rows[s.loads[t].id])
    ensures t in s.jobs ==> s.jobs[t].id in s.rows && JobInv(u, s.jobs[t], s.rows[s.jobs[t].id])
  {
    hide Inv, JobInv, LoadInv;
    if t in s.loads {
      InvLoad(u, s, t);
    }
    if t in s.jobs {
      InvJob(u, s, t);
    }
  }

  function Actor(a: Action): Task {
    if a.Claim? || a.Start? || a.Send? || a.Complete? || a.Cancel? || a.LoadPending? || a.LoadOwn? then a.task else 0
  }

  lemma NextPrefix(stmts: seq<string>, k: nat)
    requires k < |stmts|
    ensures stmts[..k + 1] == stmts[..k] + [stmts[k]] && stmts[..k + 1] <= stmts
  {
  }

  lemma RowStep(u: Unicode, s: Table, a: Action, id: Id)
    requires Inv(u, s) && id in s.rows
    ensures id in Apply(u, s, a).rows && RowInv(u, Apply(u, s, a).rows[id])
  {
    hide Inv, Split, AllDdl;
    InvRow(u, s, id);
    InvActor(u, s, Actor(a));
    if a.Send? && a.task in s.jobs && s.jobs[a.task].stage.Sending? && s.jobs[a.task].stage.next < |Split(u, s.jobs[a.task].sql)| {
      NextPrefix(Split(u, s.jobs[a.task].sql), s.jobs[a.task].stage.next);
    }
  }

  /** No job works on a row that has not been claimed. */
  lemma UnclaimedHasNoJob(u: Unicode, s: Table, id: Id, t: Task)
    requires Inv(u, s) && id in s.rows && s.rows[id].claims == 0 && t in s.jobs
    ensures s.jobs[t].id != id
  {
    hide Inv, RowInv;
    InvJob(u, s, t);
  }

  lemma ClaimIsFirst(u: Unicode, s: Table, t: Task)
    requires Inv(u, s) && t in s.loads && s.loads[t].id in s.rows && Claimable(s.rows[s.loads[t].id], s.loads[t].door)
    ensures s.rows[s.loads[t].id].claims == 0
  {
    hide Inv, Split, AllDdl;
    InvLoad(u, s, t);
    InvRow(u, s, s.loads[t].id);
  }

  predicate Claims(s: Table, a: Action) {
    a.Claim? && a.task in s.loads && a.task !in s.jobs && s.loads[a.task].id in s.rows && Claimable(s.rows[s.loads[a.task].id], s.loads[a.task].door)
  }

  lemma JobStep(u: Unicode, s: Table, a: Action, t: Task)
    requires Inv(u, s) && t in Apply(u, s, a).jobs
    ensures var s' := Apply(u, s, a);
            s'.jobs[t].id in s'.rows && JobInv(u, s'.jobs[t], s'.rows[s'.jobs[t].id])
    ensures t in s.jobs ==> Apply(u, s, a).jobs[t].id == s.jobs[t].id
    ensures t !in s.jobs ==> Claims(s, a) && a.task == t && Apply(u, s, a).jobs[t].id == s.loads[t].id
  {
    hide Inv, Split, AllDdl, RowInv;
    InvActor(u, s, Actor(a));
    if t in s.jobs {
      InvJob(u, s, t);
    }
    if Claims(s, a) {
      ClaimIsFirst(u, s, a.task);
      InvRow(u, s, s.loads[a.task].id);
      assert s.rows[s.loads[a.task].id].sent == [] by { UnclaimedIsUnsent(u, s, s.loads[a.task].id); }
      if t in s.jobs {
        UnclaimedHasNoJob(u, s, s.loads[a.task].id, t);
      }
    }
    if a.Send? && a.task in s.jobs && s.jobs[a.task].stage.Sending? && s.jobs[a.task].stage.next < |Split(u, s.jobs[a.task].sql)| {
      NextPrefix(Split(u, s.jobs[a.task].sql), s.jobs[a.task].stage.next);
    }
    if Actor(a) in s.jobs {
      InvJob(u, s, Actor(a));
    }
  }

  lemma UnclaimedIsUnsent(u: Unicode, s: Table, id: Id)
    requires Inv(u, s) && id in s.rows && s.rows[id].claims == 0
    ensures s.rows[id].sent == []
  {
    hide Inv, Split, AllDdl;
    InvRow(u, s, id);
  }

  lemma LoadStep(u: Unicode, s: Table, a: Action, t: Task)
    requires Inv(u, s) && t in Apply(u, s, a).loads
    ensures var s' := Apply(u, s, a);
            t !in s'.jobs && s'.loads[t].id in s'.rows && LoadInv(s'.loads[t], s'.rows[s'.loads[t].id])
  {
    hide Inv, Split, AllDdl, JobInv;
    InvActor(u, s, Actor(a));
    InvActor(u, s, t);
  }

  lemma NewRowInv(u: Unicode, sql: string, submitter: string)
    ensures RowInv(u, NewRow(sql, submitter))
  {
    hide Split, AllDdl;
  }

  lemma StepKeeps(u: Unicode, s: Table, a: Action)
    requires Inv(u, s)
    ensures Inv(u, Apply(u, s, a))
  {
    hide Split, AllDdl, RowInv, JobInv, LoadInv;
    var s' := Apply(u, s, a);
    assert RowsInv(u, s') by {
      forall id | id in s'.rows ensures RowInv(u, s'.rows[id]) {
        if id in s.rows {
          RowStep(u, s, a, id);
        } else {
          NewRowInv(u, a.sql, a.submitter);
        }
      }
    }
    assert LoadsInv(s') by {
      forall t | t in s'.loads ensures t !in s'.jobs && s'.loads[t].id in s'.rows && LoadInv(s'.loads[t], s'.rows[s'.loads[t].id]) {
        LoadStep(u, s, a, t);
      }
    }
    JobsKept(u, s, a);
  }

  lemma JobsKept(u: Unicode, s: Table, a: Action)
    requires Inv(u, s)
    ensures JobsInv(u, Apply(u, s, a))
  {
    hide Inv, Apply, JobInv, Claims;
    var s' := Apply(u, s, a);
    forall t | t in s'.jobs ensures s'.jobs[t].id in s'.rows && JobInv(u, s'.jobs[t], s'.rows[s'.jobs[t].id]) {
      JobStep(u, s, a, t);
    }
    forall t, t' | t in s'.jobs && t' in s'.jobs && s'.jobs[t].id == s'.jobs[t'].id ensures t == t' {
      JobStep(u, s, a, t);
      JobStep(u, s, a, t');
      OneJobEach(u, s, a, t, t');
    }
  }

  lemma OneJobEach(u: Unicode, s: Table, a: Action, t: Task, t': Task)
    requires Inv(u, s)
    requires t in s.jobs || (Claims(s, a) && a.task == t)
    requires t' in s.jobs || (Claims(s, a) && a.task == t')
    requires (if t in s.jobs then s.jobs[t].id else s.loads[t].id) == (if t' in s.jobs then s.jobs[t'].id else s.loads[t'].id)
    ensures t == t'
  {
    hide Inv, JobInv;
    if t in s.jobs && t' in s.jobs {
      InvJob(u, s, t);
    } else if t in s.jobs {
      ClaimIsFirst(u, s, t');
      UnclaimedHasNoJob(u, s, s.loads[t'].id, t);
    } else if t' in s.jobs {
      ClaimIsFirst(u, s, t);
      UnclaimedHasNoJob(u, s, s.loads[t].id, t');
    }
  }

  lemma {:induction false} RunKeeps(u: Unicode, s: Table, run: seq<Action>)
    requires Inv(u, s)
    ensures Inv(u, AfterSteps(u, s, run))
    decreases |run|
  {
    hide Inv, Apply;
    if run != [] {
      StepKeeps(u, s, run[0]);
      RunKeeps(u, Apply(u, s, run[0]), run[1..]);
    }
  }

  // ── The theorems ──

  /**
   In every interleaving, from any table at rest: an approval is claimed at most once over both doors;
   what its target was sent is a prefix of its split script, in order; every statement of a script of
   which anything was sent is DDL; and execution is recorded as succeeded only when all of it was sent.
   */
  lemma EveryApprovalRunsAtMostOnce(u: Unicode, start: Table, run: seq<Action>, id: Id)
    requires AtRest(start) && id in AfterSteps(u, start, run).rows
    ensures var r := AfterSteps(u, start, run).rows[id];
            && r.claims <= 1
            && (r.claims == 0 ==> r.sent == [])
            && r.sent <= Split(u, r.sql)
            && (forall st :: st in r.sent ==> IsDdlStatement(st))
            && (!AllDdl(u, r.sql) ==> r.sent == [])
            && (r.claims == 1 && r.exec == Approved ==> r.sent == Split(u, r.sql))
  {
    hide Split, IsDdlStatement, Apply;
    AtRestInv(u, start);
    RunKeeps(u, start, run);
    var r := AfterSteps(u, start, run).rows[id];
    assert RowInv(u, r);
    forall st | st in r.sent ensures IsDdlStatement(st) {
      var k :| 0 <= k < |r.sent| && r.sent[k] == st;
      assert st == Split(u, r.sql)[k];
    }
  }

  /** The script a row was submitted with never changes, and a row never leaves the table. */
  lemma {:induction false} ScriptIsFixed(u: Unicode, s: Table, run: seq<Action>, id: Id)
    requires id in s.rows
    ensures id in AfterSteps(u, s, run).rows && AfterSteps(u, s, run).rows[id].sql == s.rows[id].sql
    decreases |run|
  {
    hide Split, AllDdl;
    if run != [] {
      ScriptIsFixed(u, Apply(u, s, run[0]), run[1..], id);
    }
  }

  // ── The agent's door ──

  /** Approved, but recorded as not executed. */
  predicate ApprovedUnexecuted(s: Table, id: Id) {
    id in s.rows && s.rows[id].status == Approved && s.rows[id].exec == Pending
  }

  ghost predicate AgentInv(start: Table, s: Table) {
    && (forall id :: ApprovedUnexecuted(s, id) ==> ApprovedUnexecuted(start, id))
    && (forall t :: t in s.loads && s.loads[t].door.Agent? && s.loads[t].id in s.rows && s.rows[s.loads[t].id].exec == Pending ==>
          ApprovedUnexecuted(start, s.loads[t].id))
    && (forall id :: id in s.rows && s.rows[id].claimedBy == Some(Agent) ==> ApprovedUnexecuted(start, id))
  }

  lemma AgentStep(u: Unicode, start: Table, s: Table, a: Action)
    requires Inv(u, s) && AgentInv(start, s)
    ensures AgentInv(start, Apply(u, s, a))
  {
    hide Split, AllDdl, RowsInv, JobsInv;
  }

  lemma {:induction false} AgentRun(u: Unicode, start: Table, s: Table, run: seq<Action>)
    requires Inv(u, s) && AgentInv(start, s)
    ensures AgentInv(start, AfterSteps(u, s, run))
    decreases |run|
  {
    hide Inv, AgentInv, Apply;
    if run != [] {
      StepKeeps(u, s, run[0]);
      AgentStep(u, start, s, run[0]);
      AgentRun(u, start, Apply(u, s, run[0]), run[1..]);
    }
  }

  /**
   `execute_write` can ever execute exactly the rows that were approved and unexecuted when the server
   started. A row approved through the approver's door has run by then, so the agent only reads its state.
   */
  lemma AgentExecutesOnlyOldApprovals(u: Unicode, start: Table, id: Id, task: Task)
    requires AtRest(start)
    ensures ApprovedUnexecuted(start, id) <==>
            exists run :: id in AfterSteps(u, start, run).rows && AfterSteps(u, start, run).rows[id].claimedBy == Some(Agent)
  {
    hide Split, AllDdl;
    if ApprovedUnexecuted(start, id) {
      var run := [LoadOwn(task, id, start.rows[id].submitter), Claim(task)];
      var loaded := Apply(u, start, run[0]);
      Unfold(u, start, run);
      Unfold(u, loaded, run[1..]);
      assert run[1..][1..] == [];
      assert AfterSteps(u, start, run) == Apply(u, loaded, run[1]);
      assert AfterSteps(u, start, run).rows[id].claimedBy == Some(Agent);
    }
    forall run | id in AfterSteps(u, start, run).rows && AfterSteps(u, start, run).rows[id].claimedBy == Some(Agent)
      ensures ApprovedUnexecuted(start, id)
    {
      AtRestInv(u, start);
      AgentRun(u, start, start, run);
    }
  }

  // ── What was read before a claim ──

  /** The read that lets a task claim: a pending row, or an approved row by the agent that submitted it. */
  predicate Reads(s: Table, a: Action, id: Id, door: Door) {
    id in s.rows &&
    match door
    case Http => a.LoadPending? && a.id == id && s.rows[id].status == Pending
    case Agent => a.LoadOwn? && a.id == id && s.rows[id].submitter == a.submitter && s.rows[id].status == Approved
  }

  ghost predicate WasRead(u: Unicode, start: Table, run: seq<Action>, id: Id, door: Door) {
    exists k :: 0 <= k < |run| && Reads(AfterSteps(u, start, run[..k]), run[k], id, door)
  }

  /** Whatever a task has loaded, and whatever was claimed, had been read. */
  ghost predicate ClaimsRead(u: Unicode, start: Table, run: seq<Action>, s: Table) {
    && (forall t :: t in s.loads ==> WasRead(u, start, run, s.loads[t].id, s.loads[t].door))
    && (forall id :: id in s.rows && s.rows[id].claimedBy.Some? ==> WasRead(u, start, run, id, s.rows[id].claimedBy.value))
  }

  lemma {:induction false} AfterLast(u: Unicode, s: Table, run: seq<Action>, a: Action)
    ensures AfterSteps(u, s, run + [a]) == Apply(u, AfterSteps(u, s, run), a)
    decreases |run|
  {
    hide Apply;
    if run == [] {
      assert run + [a] == [a] && [a][1..] == [];
    } else {
      assert (run + [a])[0] == run[0] && (run + [a])[1..] == run[1..] + [a];
      AfterLast(u, Apply(u, s, run[0]), run[1..], a);
    }
  }

  lemma ReadStays(u: Unicode, start: Table, run: seq<Action>, a: Action, id: Id, door: Door)
    ensures WasRead(u, start, run, id, door) ==> WasRead(u, start, run + [a], id, door)
    ensures Reads(AfterSteps(u, start, run), a, id, door) ==> WasRead(u, start, run + [a], id, door)
  {
    hide Reads, AfterSteps;
    if WasRead(u, start, run, id, door) {
      var k :| 0 <= k < |run| && Reads(AfterSteps(u, start, run[..k]), run[k], id, door);
      assert (run + [a])[..k] == run[..k] && (run + [a])[k] == run[k];
    }
    assert (run + [a])[..|run|] == run && (run + [a])[|run|] == a;
  }

  /** A step adds only loads it has read, and claims only what was loaded. */
  lemma StepReads(u: Unicode, s: Table, a: Action)
    ensures var s' := Apply(u, s, a);
            && (forall t :: t in s'.loads ==> Reads(s, a, s'.loads[t].id, s'.loads[t].door) || (t in s.loads && s'.loads[t] == s.loads[t]))
            && (forall id :: id in s'.rows && s'.rows[id].claimedBy.Some? ==>
                  (id in s.rows && s.rows[id].claimedBy == s'.rows[id].claimedBy) ||
                  exists t :: t in s.loads && s.loads[t].id == id && Some(s.loads[t].door) == s'.rows[id].claimedBy)
  {
    hide Split, AllDdl;
  }

  lemma {:induction false} RunReads(u: Unicode, start: Table, run: seq<Action>)
    requires AtRest(start)
    ensures ClaimsRead(u, start, run, AfterSteps(u, start, run))
    decreases |run|
  {
    hide Apply, Reads, WasRead, AfterSteps;
    if run == [] {
      assert AfterSteps(u, start, run) == start by { NoStep(u, start); }
    } else {
      var front, a := run[..|run| - 1], run[|run| - 1];
      assert run == front + [a];
      RunReads(u, start, front);
      AfterLast(u, start, front, a);
      StepReads(u, AfterSteps(u, start, front), a);
      forall id, door ensures WasRead(u, start, front, id, door) ==> WasRead(u, start, run, id, door)
                      ensures Reads(AfterSteps(u, start, front), a, id, door) ==> WasRead(u, start, run, id, door) {
        ReadStays(u, start, front, a, id, door);
      }
    }
  }

  lemma NoStep(u: Unicode, s: Table)
    ensures AfterSteps(u, s, []) == s
  {
  }

  /**
   In every interleaving, an approval that was claimed had been read before: as a pending row by an
   approver, or as an approved row by the agent that had submitted it.
   */
  lemma EveryClaimWasRead(u: Unicode, start: Table, run: seq<Action>, id: Id) returns (k: nat)
    requires AtRest(start) && id in AfterSteps(u, start, run).rows && AfterSteps(u, start, run).rows[id].claimedBy.Some?
    ensures k < |run| && Reads(AfterSteps(u, start, run[..k]), run[k], id, AfterSteps(u, start, run).rows[id].claimedBy.value)
  {
    hide Reads, AfterSteps;
    RunReads(u, start, run);
    k :| 0 <= k < |run| && Reads(AfterSteps(u, start, run[..k]), run[k], id, AfterSteps(u, start, run).rows[id].claimedBy.value);
  }

  // ── A lost job ──

  /** Claimed, and no task works on it. */
  predicate Orphaned(s: Table, id: Id) {
    id in s.rows && s.rows[id].claims == 1 && s.rows[id].exec == Executing && forall t :: t in s.jobs ==> s.jobs[t].id != id
  }

  lemma OrphanStep(u: Unicode, s: Table, a: Action, id: Id)
    requires Inv(u, s) && Orphaned(s, id)
    ensures Orphaned(Apply(u, s, a), id) && Apply(u, s, a).rows[id].sent == s.rows[id].sent
  {
    hide Split, AllDdl, RowInv, JobInv;
    InvActor(u, s, Actor(a));
    if Claims(s, a) {
      ClaimIsFirst(u, s, a.task);
    }
  }

  lemma {:induction false} OrphanRun(u: Unicode, s: Table, run: seq<Action>, id: Id)
    requires Inv(u, s) && Orphaned(s, id)
    ensures Orphaned(AfterSteps(u, s, run), id) && AfterSteps(u, s, run).rows[id].sent == s.rows[id].sent
    decreases |run|
  {
    hide Inv, Orphaned, Apply;
    if run != [] {
      OrphanRows(s, id);
      StepKeeps(u, s, run[0]);
      OrphanStep(u, s, run[0], id);
      OrphanRows(Apply(u, s, run[0]), id);
      OrphanRun(u, Apply(u, s, run[0]), run[1..], id);
    }
  }

  lemma OrphanRows(s: Table, id: Id)
    requires Orphaned(s, id)
    ensures id in s.rows
  {
  }

  /**
   A job that is lost leaves its approval executing for good: no later step, of either door, completes
   it or sends any more of its script.
   */
  lemma LostJobIsNeverTakenUp(u: Unicode, s: Table, task: Task, run: seq<Action>)
    requires Inv(u, s) && task in s.jobs
    ensures var id := s.jobs[task].id;
            var after := AfterSteps(u, Apply(u, s, Cancel(task)), run);
            id in s.rows && id in after.rows && after.rows[id].exec == Executing && after.rows[id].sent == s.rows[id].sent
  {
    hide Inv, AfterSteps, Split, AllDdl;
    InvJob(u, s, task);
    StepKeeps(u, s, Cancel(task));
    OrphanRun(u, Apply(u, s, Cancel(task)), run, s.jobs[task].id);
  }

  // ── Rejection ──

  predicate AgentIsReady(s: Table, id: Id) {
    exists t :: t in s.loads && s.loads[t].id == id && s.loads[t].door.Agent?
  }

  /** Rejected, unclaimed, and no agent both has read it as approved and can still claim it. */
  predicate Dead(s: Table, id: Id) {
    && id in s.rows && s.rows[id].status == Rejected && s.rows[id].claims == 0
    && !(AgentIsReady(s, id) && s.rows[id].exec == Pending)
  }

  lemma DeadStep(u: Unicode, s: Table, a: Action, id: Id)
    requires Inv(u, s) && Dead(s, id)
    ensures Dead(Apply(u, s, a), id)
  {
    hide Split, AllDdl, RowInv;
    assert RowInv(u, s.rows[id]);
    assert forall t :: t in s.jobs ==> s.jobs[t].id != id;
  }

  lemma {:induction false} DeadRun(u: Unicode, s: Table, run: seq<Action>, id: Id)
    requires Inv(u, s) && Dead(s, id)
    ensures Dead(AfterSteps(u, s, run), id)
    decreases |run|
  {
    hide Inv, Dead, Apply;
    if run != [] {
      StepKeeps(u, s, run[0]);
      DeadStep(u, s, run[0], id);
      DeadRun(u, Apply(u, s, run[0]), run[1..], id);
    }
  }

  predicate ClaimedIn(s: Table, id: Id) {
    id in s.rows && s.rows[id].claims > 0
  }

  /**
   A rejected approval has been or can still be claimed exactly when it was claimed before, or an agent
   that read it while approved is about to claim it. Otherwise nothing of it is ever sent.
   */
  lemma RejectedRunsExactlyWhen(u: Unicode, s: Table, id: Id)
    requires Inv(u, s) && id in s.rows && s.rows[id].status == Rejected
    ensures (exists run :: ClaimedIn(AfterSteps(u, s, run), id)) <==>
            s.rows[id].claims > 0 || (AgentIsReady(s, id) && s.rows[id].exec == Pending)
  {
    hide Inv, Split, AllDdl;
    if s.rows[id].claims > 0 {
      assert AfterSteps(u, s, []) == s;
      assert ClaimedIn(AfterSteps(u, s, []), id);
    } else if AgentIsReady(s, id) && s.rows[id].exec == Pending {
      var t :| t in s.loads && s.loads[t].id == id && s.loads[t].door.Agent?;
      InvLoad(u, s, t);
      Unfold(u, s, [Claim(t)]);
      assert [Claim(t)][1..] == [];
      assert ClaimedIn(AfterSteps(u, s, [Claim(t)]), id);
    } else {
      forall run ensures !ClaimedIn(AfterSteps(u, s, run), id) {
        DeadRun(u, s, run, id);
      }
    }
  }

  /** What was rejected in time is never sent. */
  lemma RejectedInTimeNeverRuns(u: Unicode, s: Table, run: seq<Action>, id: Id)
    requires Inv(u, s) && Dead(s, id)
    ensures id in AfterSteps(u, s, run).rows && AfterSteps(u, s, run).rows[id].sent == []
  {
    hide Inv, Split, Apply, AfterSteps;
    DeadRun(u, s, run, id);
    RunKeeps(u, s, run);
    UnclaimedIsUnsent(u, AfterSteps(u, s, run), id);
  }

  /**
   The rejection handler has no guard: after a claim, a rejected approval still sends its statements,
   and its completion overwrites the rejection.
   */
  lemma RejectedMayStillRun(u: Unicode, id: Id, sql: string, who: string, task: Task)
    requires AllDdl(u, sql) && |Split(u, sql)| == 1
    ensures var run := [Submit(id, sql, who), LoadPending(task, id), Claim(task), Reject(id), Start(task, true), Send(task, true)];
            var s := AfterSteps(u, Table(map[], map[], map[]), run);
            && id in s.rows && s.rows[id].status == Rejected && s.rows[id].sent == Split(u, sql)
            && id in Apply(u, s, Complete(task, true)).rows && Apply(u, s, Complete(task, true)).rows[id].status == Approved
  {
    hide Split, AllDdl, AfterSteps, Apply;
    var run := [Submit(id, sql, who), LoadPending(task, id), Claim(task), Reject(id), Start(task, true), Send(task, true)];
    SixSteps(u, Table(map[], map[], map[]), run);
    var claimed := ClaimedTable(u, id, sql, who, task);
    var sent := RejectedWhileRunning(u, claimed, id, sql, task);
    CompleteOverwrites(u, sent, id, sql, task);
  }

  lemma RejectedWhileRunning(u: Unicode, s: Table, id: Id, sql: string, task: Task) returns (s': Table)
    requires AllDdl(u, sql) && |Split(u, sql)| == 1
    requires id in s.rows && s.rows[id].sql == sql && s.rows[id].sent == []
    requires task in s.jobs && s.jobs[task] == Job(id, sql, Spawned)
    ensures s' == Apply(u, Apply(u, Apply(u, s, Reject(id)), Start(task, true)), Send(task, true))
    ensures id in s'.rows && s'.rows[id].status == Rejected && s'.rows[id].sent == Split(u, sql)
    ensures task in s'.jobs && s'.jobs[task] == Job(id, sql, Sending(1))
  {
    hide Split, AllDdl;
    s' := Apply(u, s, Reject(id));
    s' := Apply(u, s', Start(task, true));
    assert s'.jobs[task] == Job(id, sql, Sending(0));
    s' := Apply(u, s', Send(task, true));
    assert s'.rows[id].sent == [Split(u, sql)[0]] == Split(u, sql);
  }

  lemma CompleteOverwrites(u: Unicode, s: Table, id: Id, sql: string, task: Task)
    requires |Split(u, sql)| == 1 && id in s.rows
    requires task in s.jobs && s.jobs[task] == Job(id, sql, Sending(1))
    ensures id in Apply(u, s, Complete(task, true)).rows && Apply(u, s, Complete(task, true)).rows[id].status == Approved
  {
    hide Split;
  }

  /** Submitted, read and claimed. */
  lemma ClaimedTable(u: Unicode, id: Id, sql: string, who: string, task: Task) returns (s: Table)
    ensures s == Apply(u, Apply(u, Apply(u, Table(map[], map[], map[]), Submit(id, sql, who)), LoadPending(task, id)), Claim(task))
    ensures id in s.rows && s.rows[id].sql == sql && s.rows[id].sent == []
    ensures task in s.jobs && s.jobs[task] == Job(id, sql, Spawned)
  {
    s := Apply(u, Table(map[], map[], map[]), Submit(id, sql, who));
    s := Apply(u, s, LoadPending(task, id));
    assert s.loads[task] == Loaded(id, sql, Http);
    s := Apply(u, s, Claim(task));
  }

  lemma SixSteps(u: Unicode, s: Table, run: seq<Action>)
    requires |run| == 6
    ensures AfterSteps(u, s, run) ==
            Apply(u, Apply(u, Apply(u, Apply(u, Apply(u, Apply(u, s, run[0]), run[1]), run[2]), run[3]), run[4]), run[5])
  {
    hide Apply, AfterSteps;
    var s1 := Apply(u, s, run[0]);
    var s2 := Apply(u, s1, run[1]);
    var s3 := Apply(u, s2, run[2]);
    var s4 := Apply(u, s3, run[3]);
    var s5 := Apply(u, s4, run[4]);
    var s6 := Apply(u, s5, run[5]);
    assert run[1..][1..] == run[2..] && run[2..][1..] == run[3..] && run[3..][1..] == run[4..] && run[4..][1..] == run[5..] && run[5..][1..] == [];
    Unfold(u, s, run);
    Unfold(u, s1, run[1..]);
    Unfold(u, s2, run[2..]);
    Unfold(u, s3, run[3..]);
    Unfold(u, s4, run[4..]);
    Unfold(u, s5, run[5..]);
    AfterNothing(u, s6);
  }

  lemma AfterNothing(u: Unicode, s: Table)
    ensures AfterSteps(u, s, []) == s
  {
  }

  // ── The handlers ──

  lemma {:induction false} AfterConcat(u: Unicode, s: Table, a: seq<Action>, b: seq<Action>)
    ensures AfterSteps(u, s, a + b) == AfterSteps(u, AfterSteps(u, s, a), b)
    decreases |a|
  {
    hide Apply;
    if a == [] {
      assert a + b == b;
    } else {
      assert (a + b)[1..] == a[1..] + b;
      AfterConcat(u, Apply(u, s, a[0]), a[1..], b);
    }
  }

  lemma AfterOne(u: Unicode, s: Table, a: Action)
    ensures AfterSteps(u, s, [a]) == Apply(u, s, a)
  {
    hide Apply;
    assert [a][1..] == [];
  }

  /** Steps that are not `task`'s. */
  predicate ByOthers(run: seq<Action>, task: Task) {
    forall k :: 0 <= k < |run| ==> !Mine(run[k], task)
  }

  predicate Mine(a: Action, task: Task) {
    !a.Submit? && !a.Reject? && a.task == task
  }

  /** Other tasks leave a task's own load alone, and rows stay. */
  lemma {:induction false} OthersLeaveLoad(u: Unicode, s: Table, run: seq<Action>, task: Task)
    requires ByOthers(run, task) && task in s.loads && task !in s.jobs && s.loads[task].id in s.rows
    ensures var s' := AfterSteps(u, s, run);
            task in s'.loads && s'.loads[task] == s.loads[task] && task !in s'.jobs && s.loads[task].id in s'.rows
    decreases |run|
  {
    hide Split, AllDdl;
    if run != [] {
      assert !Mine(run[0], task);
      assert forall k :: 0 <= k < |run[1..]| ==> run[1..][k] == run[k + 1];
      OthersLeaveLoad(u, Apply(u, s, run[0]), run[1..], task);
    }
  }

  function Sends(task: Task, answers: nat -> Option<string>, n: nat): seq<Action> {
    if n == 0 then [] else Sends(task, answers, n - 1) + [Send(task, answers(n - 1).None?)]
  }

  /** The executor's loop makes exactly these steps of its job. */
  lemma {:induction false} SendsSend(u: Unicode, s: Table, task: Task, answers: nat -> Option<string>, n: nat)
    requires task in s.jobs && s.jobs[task].stage == Sending(0) && s.jobs[task].id in s.rows && s.rows[s.jobs[task].id].sent == []
    requires n <= |Split(u, s.jobs[task].sql)| && forall k :: 0 <= k < n - 1 ==> answers(k).None?
    ensures var j := s.jobs[task];
            AfterSteps(u, s, Sends(task, answers, n)) ==
            s.(rows := s.rows[j.id := s.rows[j.id].(sent := Split(u, j.sql)[..n])],
               jobs := s.jobs[task := j.(stage := if n > 0 && answers(n - 1).Some? then Stopped else Sending(n))])
  {
    hide Split, AllDdl;
    var j := s.jobs[task];
    if n == 0 {
      assert Split(u, j.sql)[..0] == [];
      assert s.rows == s.rows[j.id := s.rows[j.id].(sent := [])];
      assert s.jobs == s.jobs[task := j];
    } else {
      SendsSend(u, s, task, answers, n - 1);
      AfterConcat(u, s, Sends(task, answers, n - 1), [Send(task, answers(n - 1).None?)]);
      AfterOne(u, AfterSteps(u, s, Sends(task, answers, n - 1)), Send(task, answers(n - 1).None?));
      NextPrefix(Split(u, j.sql), n - 1);
    }
  }

  datatype Reply =
    | NotFound
    | AlreadyResolved(status: Status)
    | NotApproved(status: Status)
    | NotAllowed
    | Conflict(exec: Status)
    | Accepted

  class ApprovalServer {
    var rows: map<Id, Row>
    var loads: map<Task, Loaded>
    var jobs: map<Task, Job>
    const u: Unicode

    function State(): Table
      reads this
    {
      Table(rows, loads, jobs)
    }

    constructor (u: Unicode, rows: map<Id, Row>)
      ensures this.u == u && State() == Table(rows, map[], map[])
    {
      this.u, this.rows, loads, jobs := u, rows, map[], map[];
    }

    /** Steps of other tasks. */
    method Meanwhile(others: seq<Action>)
      modifies this
      ensures State() == AfterSteps(u, old(State()), others)
    {
      hide Apply, AfterSteps;
      AfterNothing(u, State());
      for i := 0 to |others|
        invariant State() == AfterSteps(u, old(State()), others[..i])
      {
        var next := Apply(u, State(), others[i]);
        AfterConcat(u, old(State()), others[..i], [others[i]]);
        AfterOne(u, State(), others[i]);
        assert others[..i + 1] == others[..i] + [others[i]];
        rows, loads, jobs := next.rows, next.loads, next.jobs;
      }
      assert others[..|others|] == others;
    }

    method SubmitApproval(id: Id, sql: string, submitter: string, stored: bool)
      requires id !in rows
      modifies this
      ensures State() == if stored then Apply(u, old(State()), Submit(id, sql, submitter)) else old(State())
      ensures stored ==> rows == old(rows)[id := Row(sql, submitter, Pending, Pending, None, 0, [])]
    {
      if stored {
        rows := rows[id := NewRow(sql, submitter)];
      }
    }

    method RejectApproval(id: Id)
      modifies this
      ensures State() == Apply(u, old(State()), Reject(id))
      ensures rows == if id in old(rows) then old(rows)[id := old(rows)[id].(status := Rejected)] else old(rows)
    {
      if id in rows {
        rows := rows[id := rows[id].(status := Rejected)];
      }
    }

    /** The guarded UPDATE and the check of the number of rows it touched. */
    method ClaimLoaded(task: Task) returns (claimed: bool)
      requires task in loads && task !in jobs && loads[task].id in rows
      modifies this
      ensures State() == Apply(u, old(State()), Claim(task))
      ensures claimed <==> task in jobs
      ensures claimed ==> jobs[task] == Job(old(loads)[task].id, old(loads)[task].sql, Spawned)
      ensures var l := old(loads)[task]; var r := old(rows)[l.id];
              && (claimed <==> if l.door.Http? then r.status == Pending else r.exec == Pending)
              && rows == if !claimed then old(rows) else
                   old(rows)[l.id := r.(status := if l.door.Http? then Executing else r.status, exec := Executing,
                                        claimedBy := Some(l.door), claims := r.claims + 1)]
    {
      hide Split, AllDdl;
      var l := loads[task];
      var r := rows[l.id];
      claimed := Claimable(r, l.door);
      if claimed {
        rows := rows[l.id := Claimed(r, l.door)];
        jobs := jobs[task := Job(l.id, l.sql, Spawned)];
      }
      loads := loads - {task};
    }

    /** An approver's request: read, check, and claim; `others` happens between the read and the claim. */
    method ApproveApproval(task: Task, id: Id, others: seq<Action>) returns (reply: Reply, ghost run: seq<Action>)
      requires task !in loads && task !in jobs && ByOthers(others, task)
      modifies this
      ensures State() == AfterSteps(u, old(State()), run)
      ensures reply.NotFound? <==> id !in old(rows)
      ensures id in old(rows) && old(rows)[id].status != Pending ==> reply == AlreadyResolved(old(rows)[id].status)
      ensures id in old(rows) && old(rows)[id].status == Pending ==>
                && run == [LoadPending(task, id)] + others + [Claim(task)]
                && (reply.Accepted? || reply.Conflict?)
                && (reply.Accepted? <==> task in jobs)
                && (reply.Accepted? ==> jobs[task] == Job(id, old(rows)[id].sql, Spawned))
                && (others == [] ==> reply.Accepted?)
      ensures task !in loads
    {
      hide Split, AllDdl, AfterSteps;
      run := [];
      AfterNothing(u, State());
      if id !in rows {
        return NotFound, [];
      }
      if rows[id].status != Pending {
        return AlreadyResolved(rows[id].status), [];
      }
      ghost var start := State();
      loads := loads[task := Loaded(id, rows[id].sql, Http)];
      run := [LoadPending(task, id)];
      AfterOne(u, start, LoadPending(task, id));
      var claimed := AwaitAndClaim(start, run, task, others);
      run := run + others + [Claim(task)];
      reply := if claimed then Accepted else Conflict(rows[id].exec);
    }

    /** What both doors do once the row is read. */
    method AwaitAndClaim(ghost start: Table, ghost before: seq<Action>, task: Task, others: seq<Action>) returns (claimed: bool)
      requires State() == AfterSteps(u, start, before)
      requires task in loads && task !in jobs && loads[task].id in rows && ByOthers(others, task)
      modifies this
      ensures State() == AfterSteps(u, start, before + others + [Claim(task)])
      ensures claimed <==> task in jobs
      ensures claimed ==> jobs[task] == Job(old(loads)[task].id, old(loads)[task].sql, Spawned)
      ensures others == [] ==> (claimed <==> Claimable(old(rows)[old(loads)[task].id], old(loads)[task].door))
      ensures task !in loads && old(loads)[task].id in rows
    {
      hide Split, AllDdl, AfterSteps, ByOthers;
      AfterConcat(u, start, before, others);
      OthersLeaveLoad(u, State(), others, task);
      AfterNothing(u, State());
      Meanwhile(others);
      AfterConcat(u, start, before + others, [Claim(task)]);
      AfterOne(u, State(), Claim(task));
      claimed := ClaimLoaded(task);
    }

    /** An agent executes its own approved row. `allowed` is the answer of the connection's allow-list. */
    method ExecuteWrite(task: Task, id: Id, submitter: string, allowed: bool, others: seq<Action>)
      returns (reply: Reply, ghost run: seq<Action>)
      requires task !in loads && task !in jobs && ByOthers(others, task)
      modifies this
      ensures State() == AfterSteps(u, old(State()), run)
      ensures reply.NotFound? <==> id !in old(rows) || old(rows)[id].submitter != submitter
      ensures !reply.NotFound? && old(rows)[id].status != Approved ==> reply == NotApproved(old(rows)[id].status)
      ensures !reply.NotFound? && old(rows)[id].status == Approved && !allowed ==> reply == NotAllowed
      ensures !reply.NotFound? && old(rows)[id].status == Approved && allowed ==>
                && run == [LoadOwn(task, id, submitter)] + others + [Claim(task)]
                && (reply.Accepted? <==> task in jobs)
                && (reply.Accepted? ==> jobs[task] == Job(id, old(rows)[id].sql, Spawned))
                && (others == [] ==> (reply.Accepted? <==> old(rows)[id].exec == Pending))
                && (reply.Accepted? || (id in rows && reply == Conflict(rows[id].exec)))
    {
      hide Split, AllDdl, AfterSteps;
      run := [];
      AfterNothing(u, State());
      if id !in rows || rows[id].submitter != submitter {
        return NotFound, [];
      }
      if rows[id].status != Approved {
        return NotApproved(rows[id].status), [];
      }
      if !allowed {
        return NotAllowed, [];
      }
      ghost var start := State();
      loads := loads[task := Loaded(id, rows[id].sql, Agent)];
      run := [LoadOwn(task, id, submitter)];
      AfterOne(u, start, LoadOwn(task, id, submitter));
      var claimed := AwaitAndClaim(start, run, task, others);
      run := run + others + [Claim(task)];
      reply := if claimed then Accepted else Conflict(rows[id].exec);
    }

    /** Run a claimed script on its target and record how it ended. */
    method RunJob(task: Task, connection: Result<Connection, string>, guard: Option<Guard>, backend: Backend, saved: bool)
      returns (r: Result<(), Refusal>, ghost n: nat)
      requires task in jobs && jobs[task].stage.Spawned? && jobs[task].id in rows && rows[jobs[task].id].sent == []
      requires backend.sent == []
      modifies this, backend
      ensures State() == AfterSteps(u, old(State()),
                               [Start(task, Open(connection, guard))] + Sends(task, backend.answers, n) + [Complete(task, saved)])
      ensures old(jobs)[task].id in rows && rows[old(jobs)[task].id].sent == backend.sent
      ensures n == |backend.sent|
      ensures saved && r.Ok? ==> rows[old(jobs)[task].id].status == Approved && rows[old(jobs)[task].id].exec == Approved
      ensures saved && r.Err? ==> rows[old(jobs)[task].id].status == Failed && rows[old(jobs)[task].id].exec == Failed
    {
      hide Split, AllDdl, AfterSteps, IsClickHouse;
      ghost var start, admitted := State(), Open(connection, guard);
      var job := jobs[task];
      r, n := ExecuteDdlOnTarget(u, connection, guard, backend, job.sql);
      rows := rows[job.id := rows[job.id].(sent := backend.sent)];
      if saved {
        rows := rows[job.id := Resolved(rows[job.id], r.Ok?)];
      }
      jobs := jobs - {task};
      JobSteps(u, start, task, admitted, backend.answers, n, r.Ok?, saved);
    }
  }

  /** A job run to its end, in one piece. */
  lemma JobSteps(u: Unicode, s: Table, task: Task, admitted: bool, answers: nat -> Option<string>, n: nat, ok: bool, saved: bool)
    requires task in s.jobs && s.jobs[task].stage.Spawned? && s.jobs[task].id in s.rows && s.rows[s.jobs[task].id].sent == []
    requires n <= |Split(u, s.jobs[task].sql)| && forall k :: 0 <= k < n - 1 ==> answers(k).None?
    requires !(admitted && AllDdl(u, s.jobs[task].sql)) ==> n == 0 && !ok
    requires admitted && AllDdl(u, s.jobs[task].sql) ==>
               if ok then n == |Split(u, s.jobs[task].sql)| && (n > 0 ==> answers(n - 1).None?) else n > 0 && answers(n - 1).Some?
    ensures var j := s.jobs[task];
            var r := s.rows[j.id].(sent := Split(u, j.sql)[..n]);
            AfterSteps(u, s, [Start(task, admitted)] + Sends(task, answers, n) + [Complete(task, saved)]) ==
            Table(s.rows[j.id := if saved then Resolved(r, ok) else r], s.loads, s.jobs - {task})
  {
    hide Split, AllDdl, AfterSteps;
    var j := s.jobs[task];
    var s1 := Apply(u, s, Start(task, admitted));
    AfterOne(u, s, Start(task, admitted));
    AfterConcat(u, s, [Start(task, admitted)], Sends(task, answers, n));
    AfterConcat(u, s, [Start(task, admitted)] + Sends(task, answers, n), [Complete(task, saved)]);
    if admitted && AllDdl(u, j.sql) {
      SendsSend(u, s1, task, answers, n);
    } else {
      AfterNothing(u, s1);
      assert Split(u, j.sql)[..0] == [];
      assert s.rows == s.rows[j.id := s.rows[j.id].(sent := [])];
    }
    var s2 := AfterSteps(u, s1, Sends(task, answers, n));
    AfterOne(u, s2, Complete(task, saved));
  }
}
