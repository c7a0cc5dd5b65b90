/** What every step of the engine keeps, one concern at a time. */
module EngineInvariants {
  import opened Jobs
  import opened Engine

  // -------------------------------------------------------------- single rows

  /** How one row may change in a step that is neither its enqueue nor a boot. */
  ghost predicate RowStep(before: Table, after: Table, id: JobId) {
    && (id in after ==> id in before)
    && (IsQueued(after, id) ==> IsQueued(before, id))
    && (Live(after, id) ==> Live(before, id))
  }

  lemma LoopRow(max: int, s: State, e: LoopStep, id: JobId)
    requires LoopEnabled(s, e)
    ensures e != RequeueStale ==> RowStep(s.jobs, ApplyLoop(max, s, e).jobs, id)
    ensures Live(ApplyLoop(max, s, e).jobs, id) <==> Live(s.jobs, id)
    ensures id in ApplyLoop(max, s, e).jobs <==> id in s.jobs
    ensures id in s.jobs ==> ApplyLoop(max, s, e).jobs[id].checkRun == s.jobs[id].checkRun
  {
    match e
    case RequeueStale =>
    case Claim(_) =>
    case _ =>
  }

  lemma WorkRow(s: State, worker: JobId, e: JobStep, id: JobId)
    requires WorkEnabled(s, worker, e)
    ensures RowStep(s.jobs, ApplyWork(s, worker, e).jobs, id)
    ensures id in ApplyWork(s, worker, e).jobs <==> id in s.jobs
    ensures id in s.jobs && !(e.Record? && id == worker) ==>
              ApplyWork(s, worker, e).jobs[id].checkRun == s.jobs[id].checkRun
  {
    match e
    case Record(_) =>
    case Fail =>
    case Exit(_, _) =>
    case Write =>
    case _ =>
  }

  lemma DeskRow(s: State, e: DeskStep, id: JobId)
    requires DeskEnabled(s, e)
    ensures !(e.Enqueue? && e.newId == id) ==>
              && RowStep(s.jobs, ApplyDesk(s, e).jobs, id)
              && (id in s.jobs && id !in ApplyDesk(s, e).jobs ==> e == Delete(id))
              && (id in ApplyDesk(s, e).jobs ==> ApplyDesk(s, e).jobs[id].checkRun == s.jobs[id].checkRun)
  {
    match e
    case Enqueue(_, _, _) =>
    case WriteCancel(_) =>
    case Delete(_) =>
    case _ =>
  }

  // ------------------------------------------------------- the sets in memory

  /** The loop's steps that touch no row, no goroutine and no tally. */
  predicate OnlyMoves(e: LoopStep) {
    !e.RequeueStale? && !e.Claim? && !e.Register?
  }

  lemma LoopMoves(max: int, s: State, e: LoopStep)
    requires LoopEnabled(s, e) && OnlyMoves(e)
    ensures
      var t := ApplyLoop(max, s, e);
      && t == s.(loop := t.loop, notify := t.notify, told := t.told) && s.told <= t.told
      && !t.loop.Claimed? && !t.loop.Booting?
  {
  }

  /** What a goroutine's step does to the sets in memory. */
  lemma WorkMemory(s: State, id: JobId, e: JobStep)
    requires WorkEnabled(s, id, e)
    ensures
      var t := ApplyWork(s, id, e);
      && t.loop == s.loop && t.started == s.started && t.issued == s.issued && t.prune == s.prune
      && t.jobs.Keys == s.jobs.Keys
      && (e.Leave? ==> t.running == s.running - {id} && t.workers == s.workers - {id})
      && (!e.Leave? ==> t.running == s.running && t.told == s.told && t.workers.Keys == s.workers.Keys)
      && (id in s.tally ==> t.tally.Keys == s.tally.Keys)
  {
    match e
    case Reopen(_) =>
    case Create(_) =>
    case Record(_) =>
    case Fail =>
    case Exit(_, _) =>
    case Enter =>
    case Decide(_, _) =>
    case Write =>
    case Leave =>
  }

  /** What a goroutine's step does to another job, and to any job's starts. */
  lemma OtherJobs(s: State, worker: JobId, e: JobStep, id: JobId)
    requires WorkEnabled(s, worker, e)
    ensures
      var t := ApplyWork(s, worker, e);
      && TallyOf(t, id).starts == TallyOf(s, id).starts && TallyOf(t, id).requeues == TallyOf(s, id).requeues
      && (worker != id ==>
            && TallyOf(t, id) == TallyOf(s, id)
            && (id in t.jobs <==> id in s.jobs) && (id in s.jobs ==> t.jobs[id] == s.jobs[id])
            && (id in t.workers <==> id in s.workers) && (id in s.workers ==> t.workers[id] == s.workers[id]))
  {
    match e
    case Reopen(_) =>
    case Create(_) =>
    case Record(_) =>
    case Leave =>
    case _ =>
  }

  /** What the other actors' steps leave alone. */
  lemma DeskMemory(s: State, e: DeskStep)
    requires DeskEnabled(s, e)
    ensures
      var t := ApplyDesk(s, e);
      && t.running == s.running && s.told <= t.told && t.loop == s.loop && t.workers == s.workers
      && t.started == s.started
      && t.issued == s.issued + (if e.Enqueue? then {e.newId} else {})
      && t.tally == if e.Enqueue? then s.tally[e.newId := ZERO] else s.tally
  {
    match e
    case Enqueue(_, _, _) =>
    case LookUp(_, _) =>
    case ReadRow(_) =>
    case WriteCancel(_) =>
    case _ =>
  }

  // ------------------------------------------------------------------- the limit

  ghost predicate LimitInv(max: int, s: State) {
    && |s.running| <= Limit(max)
    && (s.loop.MayClaim? || s.loop.Claimed? ==> |s.running| < Limit(max))
  }

  lemma LimitKept(max: int, s: State, e: Event)
    requires LimitInv(max, s) && Enabled(s, e)
    ensures LimitInv(max, Apply(max, s, e))
  {
    match e
    case Loop(step) => LimitKeptByLoop(max, s, step);
    case Work(id, act) => WorkMemory(s, id, act);
    case Desk(call) => DeskMemory(s, call);
    case Crash =>
  }

  lemma LimitKeptByLoop(max: int, s: State, e: LoopStep)
    requires LimitInv(max, s) && LoopEnabled(s, e)
    ensures LimitInv(max, ApplyLoop(max, s, e))
  {
  }

  // ----------------------------------------------------------------- the wake-up

  /** A blocked loop with nothing in its slot has nothing it could do, or is about to be told. */
  ghost predicate WakeInv(max: int, s: State) {
    s.loop.Blocked? && !s.notify ==> NoneQueued(s.jobs) || |s.running| >= Limit(max) || s.owing > 0
  }

  /** An enqueue that fails after its INSERT: nobody is going to notify. */
  predicate Unannounced(e: Event) {
    e.Desk? && e.call.Enqueue? && !e.call.confirmed
  }

  /** Such an enqueue loses its wake-up exactly when the loop waits, with a slot free and nobody to notify. */
  lemma UnannouncedWakes(max: int, s: State, e: Event)
    requires WakeInv(max, s) && Enabled(s, e) && Unannounced(e)
    ensures WakeInv(max, Apply(max, s, e)) <==>
              !(s.loop.Blocked? && !s.notify && |s.running| < Limit(max) && s.owing == 0)
  {
    assert IsQueued(ApplyDesk(s, e.call).jobs, e.call.newId);
  }

  lemma WakeKept(max: int, s: State, e: Event)
    requires WakeInv(max, s) && Enabled(s, e) && !Unannounced(e)
    ensures WakeInv(max, Apply(max, s, e))
  {
    match e
    case Loop(step) => WakeKeptByLoop(max, s, step);
    case Work(id, act) => WakeKeptByWork(max, s, id, act);
    case Desk(call) => WakeKeptByDesk(max, s, call);
    case Crash =>
  }

  lemma WakeKeptByWork(max: int, s: State, id: JobId, e: JobStep)
    requires WakeInv(max, s) && WorkEnabled(s, id, e)
    ensures WakeInv(max, ApplyWork(s, id, e))
  {
    forall j { WorkRow(s, id, e, j); }
  }

  lemma WakeKeptByDesk(max: int, s: State, e: DeskStep)
    requires WakeInv(max, s) && DeskEnabled(s, e) && (e.Enqueue? ==> e.confirmed)
    ensures WakeInv(max, ApplyDesk(s, e))
  {
    if !e.Enqueue? {
      forall j { DeskRow(s, e, j); }
    }
  }

  lemma WakeKeptByLoop(max: int, s: State, e: LoopStep)
    requires LoopEnabled(s, e)
    ensures WakeInv(max, ApplyLoop(max, s, e))
  {
  }

  // ------------------------------------------------------------ ids and goroutines

  /** Goroutines are for started jobs, and a started job is never queued again. */
  ghost predicate StartInv(s: State) {
    && s.jobs.Keys <= s.issued && s.tally.Keys == s.issued
    && s.workers.Keys == s.running <= s.started <= s.issued
    && (s.loop.Booting? ==> s.started == {})
    && (forall id :: id in s.started ==> !IsQueued(s.jobs, id))
    && (s.loop.Claimed? ==> s.loop.id in s.issued && s.loop.id !in s.started && !IsQueued(s.jobs, s.loop.id))
  }

  lemma StartKeptByRequeue(max: int, s: State)
    requires StartInv(s) && s.loop.Booting?
    ensures StartInv(ApplyLoop(max, s, RequeueStale))
  {
  }

  lemma StartKeptByClaim(max: int, s: State, id: JobId)
    requires StartInv(s) && LoopEnabled(s, Claim(id))
    ensures StartInv(ApplyLoop(max, s, Claim(id)))
  {
    forall j { LoopRow(max, s, Claim(id), j); }
  }

  lemma StartKeptByRegister(max: int, s: State)
    requires StartInv(s) && s.loop.Claimed?
    ensures StartInv(ApplyLoop(max, s, Register))
  {
  }

  lemma StartKeptByLoop(max: int, s: State, e: LoopStep)
    requires StartInv(s) && LoopEnabled(s, e)
    ensures StartInv(ApplyLoop(max, s, e))
  {
    match e
    case RequeueStale => StartKeptByRequeue(max, s);
    case Claim(id) => StartKeptByClaim(max, s, id);
    case Register => StartKeptByRegister(max, s);
    case _ => LoopMoves(max, s, e);
  }

  lemma StartKeptByWork(s: State, id: JobId, e: JobStep)
    requires StartInv(s) && WorkEnabled(s, id, e)
    ensures StartInv(ApplyWork(s, id, e))
  {
    forall j { WorkRow(s, id, e, j); }
    WorkMemory(s, id, e);
  }

  lemma StartKeptByDesk(s: State, e: DeskStep)
    requires StartInv(s) && DeskEnabled(s, e)
    ensures StartInv(ApplyDesk(s, e))
  {
    DeskMemory(s, e);
    forall j | j in s.issued { DeskRow(s, e, j); }
  }

  lemma StartKept(max: int, s: State, e: Event)
    requires StartInv(s) && Enabled(s, e)
    ensures StartInv(Apply(max, s, e))
  {
    match e
    case Loop(step) => StartKeptByLoop(max, s, step);
    case Work(id, act) => StartKeptByWork(s, id, act);
    case Desk(call) => StartKeptByDesk(s, call);
    case Crash =>
  }

  /** Starts so far, and one more if the job may yet be started without being requeued. */
  function StartsDue(s: State, id: JobId): nat {
    TallyOf(s, id).starts + (if IsQueued(s.jobs, id) then 1 else 0)
    + (if s.loop.Claimed? && s.loop.id == id then 1 else 0)
  }

  ghost predicate StartsInv(s: State, id: JobId) {
    id in s.issued ==> StartsDue(s, id) <= TallyOf(s, id).requeues + 1
  }

  lemma StartsKeptByLoop(max: int, s: State, e: LoopStep, id: JobId)
    requires StartInv(s) && StartsInv(s, id) && LoopEnabled(s, e)
    ensures StartsInv(ApplyLoop(max, s, e), id)
  {
    LoopRow(max, s, e, id);
    match e
    case RequeueStale =>
    case Claim(_) =>
    case Register =>
    case _ =>
  }

  lemma StartsKept(max: int, s: State, e: Event, id: JobId)
    requires StartInv(s) && StartsInv(s, id) && Enabled(s, e)
    ensures StartsInv(Apply(max, s, e), id)
  {
    match e
    case Loop(step) => StartsKeptByLoop(max, s, step, id);
    case Work(worker, act) => StartsKeptByWork(s, worker, act, id);
    case Desk(call) => StartsKeptByDesk(s, call, id);
    case Crash =>
  }

  lemma StartsKeptByWork(s: State, worker: JobId, e: JobStep, id: JobId)
    requires StartInv(s) && StartsInv(s, id) && WorkEnabled(s, worker, e)
    ensures StartsInv(ApplyWork(s, worker, e), id)
  {
    WorkRow(s, worker, e, id);
    WorkMemory(s, worker, e);
    OtherJobs(s, worker, e, id);
  }

  lemma StartsKeptByDesk(s: State, e: DeskStep, id: JobId)
    requires StartInv(s) && StartsInv(s, id) && DeskEnabled(s, e)
    ensures StartsInv(ApplyDesk(s, e), id)
  {
    DeskRow(s, e, id);
  }

  // -------------------------------------------------------- rows in progress

  /** A row in progress waits for its goroutine to start or to write, or for a boot to queue it. */
  ghost predicate BusyInv(s: State, id: JobId) {
    id in s.jobs && s.jobs[id].status == InProgress ==>
      || s.loop.Booting? || (s.loop.Claimed? && s.loop.id == id)
      || (id in s.workers && !s.workers[id].Written?)
  }

  lemma BusyKeptByLoop(max: int, s: State, e: LoopStep, id: JobId)
    requires BusyInv(s, id) && LoopEnabled(s, e)
    ensures BusyInv(ApplyLoop(max, s, e), id)
  {
    match e
    case RequeueStale =>
    case Claim(_) =>
    case Register =>
    case _ => LoopMoves(max, s, e);
  }

  lemma BusyKeptByWork(s: State, worker: JobId, e: JobStep, id: JobId)
    requires StartInv(s) && BusyInv(s, id) && WorkEnabled(s, worker, e)
    ensures BusyInv(ApplyWork(s, worker, e), id)
  {
    WorkMemory(s, worker, e);
    if worker != id {
      OtherJobs(s, worker, e, id);
    } else {
      assert id in s.started;
    }
  }

  lemma BusyKeptByDesk(s: State, e: DeskStep, id: JobId)
    requires BusyInv(s, id) && DeskEnabled(s, e)
    ensures BusyInv(ApplyDesk(s, e), id)
  {
    DeskMemory(s, e);
  }

  lemma BusyKept(max: int, s: State, e: Event, id: JobId)
    requires StartInv(s) && BusyInv(s, id) && Enabled(s, e)
    ensures BusyInv(Apply(max, s, e), id)
  {
    match e
    case Loop(step) => BusyKeptByLoop(max, s, step, id);
    case Work(worker, act) => BusyKeptByWork(s, worker, act, id);
    case Desk(call) => BusyKeptByDesk(s, call, id);
    case Crash =>
  }

  // ------------------------------------------------------------------ Check Runs

  /** Creations beyond one each for a failed reopen or a lost id, by where the goroutine is. */
  function Spare(s: State, id: JobId): nat {
    if id in s.workers && (s.workers[id] == Fresh(0) || s.workers[id].NeedsCreate?) then 0
    else if id in s.workers && s.workers[id].Created? then 1
    else if TallyOf(s, id).recorded then 1 else 0
  }

  ghost predicate CheckRunInv(s: State, id: JobId) {
    var t := TallyOf(s, id);
    && t.created <= t.failedReopens + t.unrecorded + Spare(s, id)
    && (id in s.jobs ==> (s.jobs[id].checkRun != 0 <==> t.recorded))
    && (id in s.workers && s.workers[id].Fresh? ==> (s.workers[id].checkRun != 0 <==> t.recorded))
    && (id in s.workers && s.workers[id].Created? ==> s.workers[id].checkRun != 0)
    && (s.loop.Claimed? && s.loop.id == id ==> (s.loop.checkRun != 0 <==> t.recorded))
  }

  lemma CheckRunKeptByRequeue(max: int, s: State, id: JobId)
    requires StartInv(s) && CheckRunInv(s, id) && s.loop.Booting?
    ensures CheckRunInv(ApplyLoop(max, s, RequeueStale), id)
  {
    LoopRow(max, s, RequeueStale, id);
  }

  lemma CheckRunKeptByClaim(max: int, s: State, claimed: JobId, id: JobId)
    requires StartInv(s) && CheckRunInv(s, id) && LoopEnabled(s, Claim(claimed))
    ensures CheckRunInv(ApplyLoop(max, s, Claim(claimed)), id)
  {
    LoopRow(max, s, Claim(claimed), id);
  }

  lemma CheckRunKeptByRegister(max: int, s: State, id: JobId)
    requires StartInv(s) && CheckRunInv(s, id) && s.loop.Claimed?
    ensures CheckRunInv(ApplyLoop(max, s, Register), id)
  {
  }

  lemma CheckRunKeptByLoop(max: int, s: State, e: LoopStep, id: JobId)
    requires StartInv(s) && CheckRunInv(s, id) && LoopEnabled(s, e)
    ensures CheckRunInv(ApplyLoop(max, s, e), id)
  {
    match e
    case RequeueStale => CheckRunKeptByRequeue(max, s, id);
    case Claim(claimed) => CheckRunKeptByClaim(max, s, claimed, id);
    case Register => CheckRunKeptByRegister(max, s, id);
    case _ => LoopMoves(max, s, e);
  }

  /** Another job's goroutine leaves this job's Check Run alone. */
  lemma CheckRunKeptByOther(s: State, worker: JobId, e: JobStep, id: JobId)
    requires CheckRunInv(s, id) && WorkEnabled(s, worker, e) && worker != id
    ensures CheckRunInv(ApplyWork(s, worker, e), id)
  {
    OtherJobs(s, worker, e, id);
    WorkMemory(s, worker, e);
  }

  lemma CheckRunKeptByRecord(s: State, id: JobId, stored: bool)
    requires StartInv(s) && CheckRunInv(s, id) && WorkEnabled(s, id, Record(stored))
    ensures CheckRunInv(ApplyWork(s, id, Record(stored)), id)
  {
    assert id in s.started && !(s.loop.Claimed? && s.loop.id == id);
  }

  lemma CheckRunKeptByWork(s: State, worker: JobId, e: JobStep, id: JobId)
    requires StartInv(s) && CheckRunInv(s, id) && WorkEnabled(s, worker, e)
    ensures CheckRunInv(ApplyWork(s, worker, e), id)
  {
    if worker != id {
      CheckRunKeptByOther(s, worker, e, id);
    } else {
      assert id in s.started && !(s.loop.Claimed? && s.loop.id == id);
      match e
      case Record(stored) => CheckRunKeptByRecord(s, id, stored);
      case Reopen(_) =>
      case Create(_) =>
      case _ => WorkRow(s, worker, e, id);
    }
  }

  lemma CheckRunKeptByDesk(s: State, e: DeskStep, id: JobId)
    requires StartInv(s) && CheckRunInv(s, id) && DeskEnabled(s, e)
    ensures CheckRunInv(ApplyDesk(s, e), id)
  {
    DeskMemory(s, e);
    DeskRow(s, e, id);
  }

  lemma CheckRunKeptByCrash(s: State, id: JobId)
    requires StartInv(s) && CheckRunInv(s, id)
    ensures CheckRunInv(Crashed(s), id)
  {
  }

  lemma CheckRunKept(max: int, s: State, e: Event, id: JobId)
    requires StartInv(s) && CheckRunInv(s, id) && Enabled(s, e)
    ensures CheckRunInv(Apply(max, s, e), id)
  {
    match e
    case Loop(step) => CheckRunKeptByLoop(max, s, step, id);
    case Work(worker, act) => CheckRunKeptByWork(s, worker, act, id);
    case Desk(call) => CheckRunKeptByDesk(s, call, id);
    case Crash => CheckRunKeptByCrash(s, id);
  }

  // ------------------------------------------------------------------- retention

  /** No step brings a job back into flight. */
  lemma LeavingFlightStep(max: int, s: State, e: Event, id: JobId)
    requires Enabled(s, e) && id in s.issued && !Live(s.jobs, id)
    ensures !Live(Apply(max, s, e).jobs, id) && id in Apply(max, s, e).issued
  {
    match e
    case Loop(step) => LoopRow(max, s, step, id);
    case Work(worker, act) => WorkRow(s, worker, act, id);
    case Desk(call) => DeskRow(s, call, id);
    case Crash =>
  }

  /** What retention still has to delete is there and terminal; what it has deleted is gone. */
  ghost predicate PruneInv(s: State, id: JobId) {
    s.prune.Deleting? ==>
      && s.prune.deleted <= s.prune.selected <= s.issued
      && (id in s.prune.selected && id !in s.prune.deleted ==> id in s.jobs && !Live(s.jobs, id))
      && (id in s.prune.deleted ==> id !in s.jobs)
  }

  lemma PruneKeptByLoop(max: int, s: State, e: LoopStep, id: JobId)
    requires PruneInv(s, id) && LoopEnabled(s, e)
    ensures PruneInv(ApplyLoop(max, s, e), id)
  {
    LoopRow(max, s, e, id);
  }

  lemma PruneKeptByWork(s: State, worker: JobId, e: JobStep, id: JobId)
    requires PruneInv(s, id) && WorkEnabled(s, worker, e)
    ensures PruneInv(ApplyWork(s, worker, e), id)
  {
    WorkRow(s, worker, e, id);
    WorkMemory(s, worker, e);
  }

  lemma PruneKeptByDesk(s: State, e: DeskStep, id: JobId)
    requires StartInv(s) && PruneInv(s, id) && DeskEnabled(s, e)
    ensures PruneInv(ApplyDesk(s, e), id)
  {
    DeskRow(s, e, id);
  }

  lemma PruneKept(max: int, s: State, e: Event, id: JobId)
    requires StartInv(s) && PruneInv(s, id) && Enabled(s, e)
    ensures PruneInv(Apply(max, s, e), id)
  {
    match e
    case Loop(step) => PruneKeptByLoop(max, s, step, id);
    case Work(worker, act) => PruneKeptByWork(s, worker, act, id);
    case Desk(call) => PruneKeptByDesk(s, call, id);
    case Crash =>
  }
}
