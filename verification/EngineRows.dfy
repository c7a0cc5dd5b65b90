/**
 Who writes what in the engine's table, when a row is final, in what order queued jobs
 are started, and what a crash leaves.
 */
module EngineRows {
  import opened Jobs
  import opened Engine
  import opened EngineInvariants
  import opened EngineRuns
  import opened EngineCancels

  // ----------------------------------------------------------------- who writes what

  /** This row after this step: each statement writes its own columns of its own row. */
  function RowAfter(s: State, e: Event, id: JobId): Job
    requires id in s.jobs
    requires e.Work? ==> WorkEnabled(s, e.id, e.act)
    requires e.Desk? && e.call.WriteCancel? ==> e.call.caller in s.cancels
  {
    var row := s.jobs[id];
    match e
    case Loop(RequeueStale) => if row.status == InProgress then row.(status := Queued) else row
    case Loop(Claim(claimed)) => if claimed == id then row.(status := InProgress) else row
    case Work(worker, Record(true)) => if worker == id then row.(checkRun := s.workers[id].checkRun) else row
    case Work(worker, Fail) =>
      if worker == id then row.(status := Error, conclusion := "failure", steps := "[]", error := "") else row
    case Work(worker, Exit(status, conclusion)) =>
      if worker == id then row.(status := status, conclusion := conclusion, steps := "[]", error := "") else row
    case Work(worker, Write) =>
      if worker == id
      then row.(status := s.workers[id].status, conclusion := s.workers[id].conclusion, steps := "[]", error := "")
      else row
    case Desk(WriteCancel(caller)) =>
      if s.cancels[caller].id == id
      then row.(status := Cancelled, conclusion := "cancelled", steps := "[]", error := "superseded") else row
    case _ => row
  }

  lemma StepWritesRow(max: int, s: State, e: Event, id: JobId)
    requires StartInv(s) && Enabled(s, e) && id in s.jobs
    ensures id in Apply(max, s, e).jobs ==> Apply(max, s, e).jobs[id] == RowAfter(s, e, id)
    ensures id !in Apply(max, s, e).jobs ==> e == Desk(Delete(id))
  {
    match e
    case Loop(step) => LoopWritesRow(max, s, step, id);
    case Work(worker, act) => WorkWritesRow(s, worker, act, id);
    case Desk(call) => DeskWritesRow(s, call, id);
    case Crash =>
  }

  lemma LoopWritesRow(max: int, s: State, e: LoopStep, id: JobId)
    requires LoopEnabled(s, e) && id in s.jobs
    ensures id in ApplyLoop(max, s, e).jobs && ApplyLoop(max, s, e).jobs[id] == RowAfter(s, Loop(e), id)
  {
    match e
    case RequeueStale =>
    case Claim(_) =>
    case Register =>
    case _ => LoopMoves(max, s, e);
  }

  lemma WorkWritesRow(s: State, worker: JobId, e: JobStep, id: JobId)
    requires WorkEnabled(s, worker, e) && id in s.jobs
    ensures id in ApplyWork(s, worker, e).jobs && ApplyWork(s, worker, e).jobs[id] == RowAfter(s, Work(worker, e), id)
  {
    if worker != id {
      OtherJobs(s, worker, e, id);
    } else {
      match e
      case Record(_) =>
      case Fail =>
      case Exit(_, _) =>
      case Write =>
      case _ =>
    }
  }

  lemma DeskWritesRow(s: State, e: DeskStep, id: JobId)
    requires StartInv(s) && DeskEnabled(s, e) && id in s.jobs
    ensures if id in ApplyDesk(s, e).jobs then ApplyDesk(s, e).jobs[id] == RowAfter(s, Desk(e), id) else e == Delete(id)
  {
    match e
    case Enqueue(_, _, _) =>
    case LookUp(_, _) =>
    case ReadRow(_) =>
    case WriteCancel(_) =>
    case Delete(_) =>
    case _ =>
  }

  // ---------------------------------------------------------------- when a row is final

  /** Nobody holds a write to this row: no claim, no goroutine before its write, no canceller that saw it in flight. */
  predicate Unheld(s: State, id: JobId) {
    && !(s.loop.Claimed? && s.loop.id == id) && (id in s.workers ==> s.workers[id].Written?)
    && forall caller :: caller in s.cancels ==> s.cancels[caller] != Saw(id)
  }

  /** A row out of flight that nobody holds a write to is `row`, or gone. */
  predicate Final(s: State, id: JobId, row: Job) {
    && id in s.issued && Unheld(s, id)
    && (id in s.jobs ==> s.jobs[id] == row && !IsInFlight(row.status))
  }

  lemma FinalByLoop(max: int, s: State, e: LoopStep, id: JobId, row: Job)
    requires StartInv(s) && Final(s, id, row) && LoopEnabled(s, e)
    ensures Final(ApplyLoop(max, s, e), id, row)
  {
    match e
    case RequeueStale =>
    case Claim(_) =>
    case Register =>
    case _ => LoopMoves(max, s, e);
  }

  lemma FinalByWork(s: State, worker: JobId, e: JobStep, id: JobId, row: Job)
    requires StartInv(s) && Final(s, id, row) && WorkEnabled(s, worker, e)
    ensures Final(ApplyWork(s, worker, e), id, row)
  {
    WorkMemory(s, worker, e);
    if worker != id {
      OtherJobs(s, worker, e, id);
    }
    assert ApplyWork(s, worker, e).cancels == s.cancels by { CancelsStay(s, worker, e); }
  }

  lemma CancelsStay(s: State, worker: JobId, e: JobStep)
    requires WorkEnabled(s, worker, e)
    ensures ApplyWork(s, worker, e).cancels == s.cancels
  {
    match e
    case Reopen(_) =>
    case Record(_) =>
    case _ =>
  }

  lemma FinalByDesk(s: State, e: DeskStep, id: JobId, row: Job)
    requires StartInv(s) && Final(s, id, row) && DeskEnabled(s, e)
    ensures Final(ApplyDesk(s, e), id, row)
  {
    DeskMemory(s, e);
    match e
    case Enqueue(_, _, _) =>
    case LookUp(_, _) =>
    case ReadRow(_) =>
    case WriteCancel(_) =>
    case Delete(_) =>
    case _ =>
  }

  /**
   A row out of flight to which nobody holds a write keeps every column, until retention
   deletes it: in every run, crashes, requeues and cancels of the job included.
   */
  lemma {:induction false} FinalRowStays(max: int, s: State, es: seq<Event>, id: JobId, row: Job)
    requires StartInv(s) && Final(s, id, row) && Run(max, s, es)
    ensures Final(After(max, s, es), id, row)
    decreases es
  {
    if es != [] {
      StartKept(max, s, es[0]);
      match es[0] {
        case Loop(step) => FinalByLoop(max, s, step, id, row);
        case Work(worker, act) => FinalByWork(s, worker, act, id, row);
        case Desk(call) => FinalByDesk(s, call, id, row);
        case Crash =>
      }
      FinalRowStays(max, Apply(max, s, es[0]), es[1..], id, row);
    }
  }

  // ------------------------------------------------------------------ first come, first

  /** `a` is queued before `b`, which has not been taken in this process. */
  predicate InOrder(s: State, a: JobId, b: JobId) {
    && IsQueued(s.jobs, a) && b in s.issued && (b in s.jobs ==> s.jobs[a].key < s.jobs[b].key)
    && b !in s.started && !(s.loop.Claimed? && s.loop.id == b)
  }

  /** `a` will not be queued again in this process. */
  predicate Taken(s: State, a: JobId) {
    a in s.issued && !IsQueued(s.jobs, a) && (s.loop.Booting? ==> !Live(s.jobs, a))
  }

  lemma OrderByStep(max: int, s: State, e: Event, a: JobId, b: JobId)
    requires StartInv(s) && InOrder(s, a, b) && Enabled(s, e) && e != Crash
    ensures InOrder(Apply(max, s, e), a, b) || Taken(Apply(max, s, e), a)
  {
    StepWritesRow(max, s, e, a);
    if b in s.jobs { StepWritesRow(max, s, e, b); }
    match e
    case Loop(step) => OrderByLoop(max, s, step, a, b);
    case Work(worker, act) => WorkMemory(s, worker, act);
    case Desk(call) => DeskMemory(s, call);
  }

  lemma OrderByLoop(max: int, s: State, e: LoopStep, a: JobId, b: JobId)
    requires StartInv(s) && InOrder(s, a, b) && LoopEnabled(s, e)
    ensures InOrder(ApplyLoop(max, s, e), a, b) || Taken(ApplyLoop(max, s, e), a)
  {
    match e
    case RequeueStale =>
    case Claim(id) => assert id != b;
    case Register =>
    case _ => LoopMoves(max, s, e);
  }

  lemma TakenStays(max: int, s: State, e: Event, a: JobId)
    requires StartInv(s) && Taken(s, a) && Enabled(s, e) && e != Crash
    ensures Taken(Apply(max, s, e), a)
  {
    match e
    case Loop(step) => TakenByLoop(max, s, step, a);
    case Work(worker, act) =>
      WorkMemory(s, worker, act);
      WorkRow(s, worker, act, a);
    case Desk(call) =>
      DeskMemory(s, call);
      DeskRow(s, call, a);
  }

  lemma TakenByLoop(max: int, s: State, e: LoopStep, a: JobId)
    requires Taken(s, a) && LoopEnabled(s, e)
    ensures Taken(ApplyLoop(max, s, e), a)
  {
    match e
    case RequeueStale =>
    case Claim(_) =>
    case Register =>
    case _ => LoopMoves(max, s, e);
  }

  lemma {:induction false} TakenForGood(max: int, s: State, es: seq<Event>, a: JobId)
    requires StartInv(s) && Taken(s, a) && Run(max, s, es) && Crash !in es
    ensures !IsQueued(After(max, s, es).jobs, a)
    decreases es
  {
    if es != [] {
      TakenStays(max, s, es[0], a);
      StartKept(max, s, es[0]);
      TakenForGood(max, Apply(max, s, es[0]), es[1..], a);
    }
  }

  /** Between two crashes, no job is started while an older one stays queued. */
  lemma {:induction false} OldestStartsFirst(max: int, s: State, es: seq<Event>, a: JobId, b: JobId)
    requires StartInv(s) && InOrder(s, a, b) && Run(max, s, es) && Crash !in es
    ensures IsQueued(After(max, s, es).jobs, a) ==> b !in After(max, s, es).started
    decreases es
  {
    if es != [] {
      var next := Apply(max, s, es[0]);
      OrderByStep(max, s, es[0], a, b);
      StartKept(max, s, es[0]);
      if InOrder(next, a, b) {
        OldestStartsFirst(max, next, es[1..], a, b);
      } else {
        TakenForGood(max, next, es[1..], a);
      }
    }
  }

  /** A new job is queued behind every other, with its own row and nobody else's. */
  lemma EnqueuedLast(s: State, input: JobInput, id: JobId, confirmed: bool)
    requires WellKeyed(s.jobs, s.clock) && DeskEnabled(s, Enqueue(input, id, confirmed))
    requires s.jobs.Keys <= s.issued
    ensures
      var t := ApplyDesk(s, Enqueue(input, id, confirmed));
      && WellKeyed(t.jobs, t.clock) && t.jobs.Keys == s.jobs.Keys + {id}
      && (forall other :: other in s.jobs ==> t.jobs[other] == s.jobs[other] && t.jobs[other].key < t.jobs[id].key)
      && t.jobs[id].status == Queued && t.jobs[id].skipReason == input.skipReason && t.jobs[id].checkRun == 0
  {
  }

  lemma KeysStay(max: int, s: State, e: Event)
    requires StartInv(s) && WellKeyed(s.jobs, s.clock) && Enabled(s, e)
    ensures WellKeyed(Apply(max, s, e).jobs, Apply(max, s, e).clock)
  {
    if e.Desk? && e.call.Enqueue? {
      EnqueuedLast(s, e.call.input, e.call.newId, e.call.confirmed);
    } else {
      var t := Apply(max, s, e);
      RowsOfStep(max, s, e);
      forall id | id in t.jobs ensures id in s.jobs && t.jobs[id].key == s.jobs[id].key {
        StepWritesRow(max, s, e, id);
      }
    }
  }

  lemma RowsOfStep(max: int, s: State, e: Event)
    requires Enabled(s, e) && !(e.Desk? && e.call.Enqueue?)
    ensures Apply(max, s, e).jobs.Keys <= s.jobs.Keys && Apply(max, s, e).clock == s.clock
  {
    match e
    case Loop(step) => if OnlyMoves(step) { LoopMoves(max, s, step); }
    case Work(worker, act) => ClockStays(s, worker, act);
    case Desk(call) =>
      match call {
        case WriteCancel(_) =>
        case Delete(_) =>
        case _ =>
      }
    case Crash =>
  }

  lemma ClockStays(s: State, worker: JobId, e: JobStep)
    requires WorkEnabled(s, worker, e)
    ensures ApplyWork(s, worker, e).clock == s.clock && ApplyWork(s, worker, e).jobs.Keys == s.jobs.Keys
  {
    WorkMemory(s, worker, e);
    match e
    case Reopen(_) =>
    case Record(_) =>
    case _ =>
  }

  /** In every run the keys are those of the order in which the jobs were enqueued. */
  lemma {:induction false} KeysAreUnique(max: int, s: State, es: seq<Event>)
    requires StartInv(s) && WellKeyed(s.jobs, s.clock) && Run(max, s, es)
    ensures WellKeyed(After(max, s, es).jobs, After(max, s, es).clock)
    decreases es
  {
    if es != [] {
      KeysStay(max, s, es[0]);
      StartKept(max, s, es[0]);
      KeysAreUnique(max, Apply(max, s, es[0]), es[1..]);
    }
  }

  // ------------------------------------------------------------- crashes, and endings

  /** A crash leaves the table and what has been counted, and a process that is as one that has just been started. */
  lemma CrashIsAFreshStart(s: State)
    ensures Crashed(s).jobs == s.jobs && Crashed(s).clock == s.clock && Crashed(s).issued == s.issued
    ensures Init(Crashed(s).(jobs := map[], clock := 0, issued := {}, tally := map[]))
  {
  }

  /** Steps that nobody stopped may end the job as passed or as failed, and any steps as cancelled. */
  lemma SteppingCanEnd(max: int, s: State, id: JobId, status: TerminalStatus)
    requires id in s.workers && s.workers[id].Stepping? && id in s.jobs
    requires status == Cancelled || (id !in s.told && status in {Success, Failure})
    ensures CanReach(max, s, id, status)
  {
    DecidedIsWritten(max, ApplyWork(s, id, Decide(status, "")), id);
    ReachesBefore(max, s, Work(id, Decide(status, "")), id, status);
  }
}
