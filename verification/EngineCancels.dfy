/**
 What becomes of a cancel in the engine: `CancelJob` of internal/queue/runner.go looks
 for a goroutine, reads the row and writes it, with anything in between.
 */
module EngineCancels {
  import opened Jobs
  import opened Engine
  import opened EngineInvariants
  import opened EngineRuns

  // ---------------------------------------------------------------- what can follow

  /** From `s`, some run ends with this row in this status. */
  ghost predicate CanReach(max: int, s: State, id: JobId, status: Status) {
    exists es :: Run(max, s, es) && id in After(max, s, es).jobs && After(max, s, es).jobs[id].status == status
  }

  lemma ReachesHere(max: int, s: State, id: JobId)
    requires id in s.jobs
    ensures CanReach(max, s, id, s.jobs[id].status)
  {
    var none: seq<Event> := [];
    assert Run(max, s, none) && After(max, s, none) == s;
  }

  lemma ReachesBefore(max: int, s: State, e: Event, id: JobId, status: Status)
    requires Enabled(s, e) && CanReach(max, Apply(max, s, e), id, status)
    ensures CanReach(max, s, id, status)
  {
    var t := Apply(max, s, e);
    var es :| Run(max, t, es) && id in After(max, t, es).jobs && After(max, t, es).jobs[id].status == status;
    RunCons(max, s, e, es);
    assert Run(max, s, [e] + es);
  }

  lemma DecidedIsWritten(max: int, s: State, id: JobId)
    requires id in s.workers && s.workers[id].Decided? && id in s.jobs
    ensures CanReach(max, s, id, s.workers[id].status)
  {
    ReachesHere(max, ApplyWork(s, id, Write), id);
    ReachesBefore(max, s, Work(id, Write), id, s.workers[id].status);
  }

  lemma SteppingCanSucceed(max: int, s: State, id: JobId)
    requires id in s.workers && s.workers[id].Stepping? && id !in s.told && id in s.jobs
    ensures CanReach(max, s, id, Success)
  {
    DecidedIsWritten(max, ApplyWork(s, id, Decide(Success, "success")), id);
    ReachesBefore(max, s, Work(id, Decide(Success, "success")), id, Success);
  }

  /** From an open Check Run a job may succeed, unless it was told to stop; then it may still fail. */
  lemma UpCanEnd(max: int, s: State, id: JobId)
    requires id in s.workers && s.workers[id].Up? && id in s.jobs
    ensures CanReach(max, s, id, if id in s.told then Error else Success)
  {
    if id in s.told {
      ReachesHere(max, ApplyWork(s, id, Exit(Error, "failure")), id);
      ReachesBefore(max, s, Work(id, Exit(Error, "failure")), id, Error);
    } else {
      SteppingCanSucceed(max, ApplyWork(s, id, Enter), id);
      ReachesBefore(max, s, Work(id, Enter), id, Success);
    }
  }

  /** Before its steps a job may end in any way but a success. */
  lemma UpCanExit(max: int, s: State, id: JobId, status: TerminalStatus)
    requires id in s.workers && s.workers[id].Up? && id in s.jobs && status != Success
    ensures CanReach(max, s, id, status)
  {
    ReachesHere(max, ApplyWork(s, id, Exit(status, "")), id);
    ReachesBefore(max, s, Work(id, Exit(status, "")), id, status);
  }

  lemma CreatedCanEnd(max: int, s: State, id: JobId)
    requires id in s.workers && s.workers[id].Created? && id in s.jobs
    ensures CanReach(max, s, id, if id in s.told then Error else Success)
  {
    UpCanEnd(max, ApplyWork(s, id, Record(true)), id);
    ReachesBefore(max, s, Work(id, Record(true)), id, if id in s.told then Error else Success);
  }

  /** A goroutine that has yet to start its steps may end the job in another way than cancelled. */
  lemma EarlyCanEnd(max: int, s: State, id: JobId)
    requires id in s.workers && id in s.jobs
    requires s.workers[id].Fresh? || s.workers[id].NeedsCreate? || s.workers[id].Created? || s.workers[id].Up?
    ensures CanReach(max, s, id, if id in s.told then Error else Success)
  {
    var status := if id in s.told then Error else Success;
    if s.workers[id].Up? {
      UpCanEnd(max, s, id);
    } else if s.workers[id].Created? {
      CreatedCanEnd(max, s, id);
    } else if s.workers[id].Fresh? && s.workers[id].checkRun != 0 {
      UpCanEnd(max, ApplyWork(s, id, Reopen(true)), id);
      ReachesBefore(max, s, Work(id, Reopen(true)), id, status);
    } else {
      CreatedCanEnd(max, ApplyWork(s, id, Create(1)), id);
      ReachesBefore(max, s, Work(id, Create(1)), id, status);
    }
  }

  lemma ClaimedCanSucceed(max: int, s: State)
    requires s.loop.Claimed? && s.loop.id in s.jobs
    ensures CanReach(max, s, s.loop.id, Success)
  {
    EarlyCanEnd(max, ApplyLoop(max, s, Register), s.loop.id);
    ReachesBefore(max, s, Loop(Register), s.loop.id, Success);
  }

  // -------------------------------------------------------------- a final cancel

  /** The goroutine can write nothing but that the job was cancelled. */
  predicate StoppedInSteps(s: State, id: JobId) {
    && id in s.workers
    && (|| (s.workers[id].Stepping? && id in s.told)
        || (s.workers[id].Decided? && s.workers[id].status == Cancelled))
  }

  /** The job is not claimed, and no goroutine has yet to write its row otherwise than cancelled. */
  predicate NoOtherWrite(s: State, id: JobId) {
    && !(s.loop.Claimed? && s.loop.id == id)
    && (id in s.workers ==> s.workers[id].Written? || StoppedInSteps(s, id))
  }

  /** The row is cancelled or gone, in every state of every run. */
  ghost predicate StaysCancelled(max: int, s: State, id: JobId) {
    forall es :: Run(max, s, es) && id in After(max, s, es).jobs ==> After(max, s, es).jobs[id].status == Cancelled
  }

  /** A cancelled row that nobody will write otherwise, or no row at all. */
  predicate Settled(s: State, id: JobId) {
    id in s.issued && (id in s.jobs ==> s.jobs[id].status == Cancelled && NoOtherWrite(s, id))
  }

  lemma SettledByLoop(max: int, s: State, e: LoopStep, id: JobId)
    requires Settled(s, id) && LoopEnabled(s, e)
    ensures Settled(ApplyLoop(max, s, e), id)
  {
    match e
    case RequeueStale =>
    case Claim(_) =>
    case Register =>
    case _ => LoopMoves(max, s, e);
  }

  lemma SettledByWork(s: State, worker: JobId, e: JobStep, id: JobId)
    requires Settled(s, id) && WorkEnabled(s, worker, e)
    ensures Settled(ApplyWork(s, worker, e), id)
  {
    WorkMemory(s, worker, e);
    if worker != id {
      OtherJobs(s, worker, e, id);
    } else if id in s.jobs {
      OwnStepSettles(s, e, id);
    }
  }

  lemma OwnStepSettles(s: State, e: JobStep, id: JobId)
    requires Settled(s, id) && WorkEnabled(s, id, e) && id in s.jobs
    ensures Settled(ApplyWork(s, id, e), id)
  {
    match e
    case Decide(_, _) =>
    case Write =>
    case Leave =>
    case _ =>
  }

  lemma SettledByDesk(s: State, e: DeskStep, id: JobId)
    requires Settled(s, id) && DeskEnabled(s, e)
    ensures Settled(ApplyDesk(s, e), id)
  {
    DeskMemory(s, e);
    DeskRow(s, e, id);
  }

  lemma SettledStep(max: int, s: State, e: Event, id: JobId)
    requires Settled(s, id) && Enabled(s, e)
    ensures Settled(Apply(max, s, e), id)
  {
    match e
    case Loop(step) => SettledByLoop(max, s, step, id);
    case Work(worker, act) => SettledByWork(s, worker, act, id);
    case Desk(call) => SettledByDesk(s, call, id);
    case Crash =>
  }

  lemma {:induction false} SettledForever(max: int, s: State, es: seq<Event>, id: JobId)
    requires Settled(s, id) && Run(max, s, es)
    ensures Settled(After(max, s, es), id)
    decreases es
  {
    if es != [] {
      SettledStep(max, s, es[0], id);
      SettledForever(max, Apply(max, s, es[0]), es[1..], id);
    }
  }

  /** The goroutine, or the one about to be started, may write its row otherwise than cancelled. */
  lemma OtherwiseWritten(max: int, s: State, id: JobId) returns (status: Status)
    requires id in s.jobs && !NoOtherWrite(s, id)
    ensures status != Cancelled && CanReach(max, s, id, status)
    ensures (s.loop.Claimed? && s.loop.id == id) || (id !in s.told && !s.workers[id].Decided?) ==> status == Success
  {
    if s.loop.Claimed? && s.loop.id == id {
      ClaimedCanSucceed(max, s);
      status := Success;
    } else if s.workers[id].Decided? {
      DecidedIsWritten(max, s, id);
      status := s.workers[id].status;
    } else if s.workers[id].Stepping? {
      SteppingCanSucceed(max, s, id);
      status := Success;
    } else {
      EarlyCanEnd(max, s, id);
      status := if id in s.told then Error else Success;
    }
  }

  /**
   A cancel that marks a row marks it for good if and only if, at the write, the job is
   not between its claim and its registration, and its goroutine, if it has one, has
   written the row or can only write it as cancelled. Otherwise the job may end in
   another way, and in a success if it has not been told to stop and decided nothing yet.
   */
  lemma CancelIsFinal(max: int, s: State, caller: nat)
    requires DeskEnabled(s, WriteCancel(caller)) && s.cancels[caller].id in s.issued
    ensures
      var id := s.cancels[caller].id;
      var done := ApplyDesk(s, WriteCancel(caller));
      && (id in s.jobs ==> done.jobs[id].status == Cancelled)
      && (StaysCancelled(max, done, id) <==> id !in s.jobs || NoOtherWrite(s, id))
      && (!StaysCancelled(max, done, id) && id !in s.told && (id in s.workers ==> !s.workers[id].Decided?) ==>
            CanReach(max, done, id, Success))
  {
    var id := s.cancels[caller].id;
    var done := ApplyDesk(s, WriteCancel(caller));
    if id !in s.jobs || NoOtherWrite(s, id) {
      forall es | Run(max, done, es) ensures Settled(After(max, done, es), id) {
        SettledForever(max, done, es, id);
      }
    } else {
      var status := OtherwiseWritten(max, done, id);
      var es :| && Run(max, done, es) && id in After(max, done, es).jobs
                && After(max, done, es).jobs[id].status == status;
    }
  }

  /** A job that is still queued when its row is written never runs. */
  lemma QueuedCancelIsFinal(max: int, s: State, caller: nat)
    requires StartInv(s) && DeskEnabled(s, WriteCancel(caller)) && IsQueued(s.jobs, s.cancels[caller].id)
    ensures StaysCancelled(max, ApplyDesk(s, WriteCancel(caller)), s.cancels[caller].id)
  {
    CancelIsFinal(max, s, caller);
  }

  /**
   So the row at the write nearly decides. In every run from an empty database a cancel
   of a job in flight is final exactly when its row is queued, or a boot has yet to queue
   it, or its goroutine was stopped in its steps by another call already.
   */
  lemma CancelByStatus(max: int, s: State, es: seq<Event>, caller: nat)
    requires Init(s) && Run(max, s, es) && DeskEnabled(After(max, s, es), WriteCancel(caller))
    requires Live(After(max, s, es).jobs, After(max, s, es).cancels[caller].id)
    ensures
      var t := After(max, s, es);
      var id := t.cancels[caller].id;
      StaysCancelled(max, ApplyDesk(t, WriteCancel(caller)), id) <==>
        IsQueued(t.jobs, id) || t.loop.Booting? || StoppedInSteps(t, id)
  {
    Reachable(max, s, es);
    var t := After(max, s, es);
    assert JobInv(t, t.cancels[caller].id);
    CancelIsFinal(max, t, caller);
  }

  // ------------------------------------------------- runs that lose a cancel or a result

  /** A loop about to look at the limit, and one queued job that nobody has touched. */
  lemma OneQueued(max: int) returns (t: State)
    ensures Reached(max, t) && t.loop.Draining? && t.running == {} && t.workers == map[] && t.cancels == map[]
    ensures t.prune.Idle? && t.issued == {"a"} && t.tally == map["a" := ZERO]
    ensures t.jobs == map["a" := NewJob(BUILD, 0)]
  {
    var s := State(map[], 0, {}, {}, false, Booting, map[], 0, map[], Idle, {}, {}, map[]);
    var none: seq<Event> := [];
    assert Init(s) && Run(max, s, none) && After(max, s, none) == s;
    ReachedNext(max, s, Desk(Enqueue(BUILD, "a", true)));
    var u := ApplyDesk(s, Enqueue(BUILD, "a", true));
    ReachedNext(max, u, Loop(RequeueStale));
    t := ApplyLoop(max, u, RequeueStale);
    assert t.jobs == u.jobs;
  }

  lemma ClaimOnly(max: int, s: State) returns (t: State)
    requires Reached(max, s) && s.loop.Draining? && s.running == {}
    requires s.jobs == map["a" := NewJob(BUILD, 0)]
    ensures Reached(max, t) && t == s.(jobs := t.jobs, loop := Claimed("a", 0))
    ensures t.jobs == map["a" := NewJob(BUILD, 0).(status := InProgress)]
  {
    ReachedNext(max, s, Loop(CheckLimit));
    var u := ApplyLoop(max, s, CheckLimit);
    assert IsQueued(u.jobs, "a") && OldestQueued(u.jobs, "a");
    ReachedNext(max, u, Loop(Claim("a")));
    t := ApplyLoop(max, u, Claim("a"));
  }

  /** `CancelJob` up to its write, for a job in flight without a goroutine. */
  lemma LookedAndRead(max: int, s: State, caller: nat, id: JobId) returns (t: State)
    requires Reached(max, s) && id !in s.running && caller !in s.cancels && Live(s.jobs, id)
    ensures Reached(max, t) && t == s.(cancels := s.cancels[caller := Saw(id)])
  {
    ReachedNext(max, s, Desk(LookUp(caller, id)));
    var u := ApplyDesk(s, LookUp(caller, id));
    ReachedNext(max, u, Desk(ReadRow(caller)));
    t := ApplyDesk(u, ReadRow(caller));
  }

  /** Some run cancels a claimed job and goes on to a success. */
  lemma CancelIsLost(max: int)
    ensures exists t :: Reached(max, t) && DeskEnabled(t, WriteCancel(0)) && Live(t.jobs, t.cancels[0].id)
                        && CanReach(max, ApplyDesk(t, WriteCancel(0)), t.cancels[0].id, Success)
  {
    var t := OneQueued(max);
    t := ClaimOnly(max, t);
    t := LookedAndRead(max, t, 0, "a");
    ClaimedCanSucceed(max, ApplyDesk(t, WriteCancel(0)));
  }

  /** A job's first goroutine, up to an open Check Run. */
  lemma ComesUp(max: int, s: State, id: JobId) returns (t: State)
    requires Reached(max, s) && s.loop == Claimed(id, 0) && id in s.jobs
    ensures Reached(max, t) && t.cancels == s.cancels && t.prune == s.prune && t.issued == s.issued && !t.loop.Claimed?
    ensures t.workers == s.workers[id := Up] && id !in t.told && id in t.jobs
  {
    ReachedNext(max, s, Loop(Register));
    t := ApplyLoop(max, s, Register);
    ReachedNext(max, t, Work(id, Create(1)));
    t := ApplyWork(t, id, Create(1));
    ReachedNext(max, t, Work(id, Record(true)));
    t := ApplyWork(t, id, Record(true));
    assert t.workers == s.workers[id := Up];
  }

  lemma Succeeds(max: int, s: State, id: JobId) returns (t: State)
    requires Reached(max, s) && id in s.workers && s.workers[id].Up? && id !in s.told && id in s.jobs
    ensures Reached(max, t) && t.cancels == s.cancels && t.prune == s.prune && t.issued == s.issued && t.loop == s.loop
    ensures t.workers == s.workers[id := Written] && id in t.jobs && t.jobs[id].status == Success
  {
    ReachedNext(max, s, Work(id, Enter));
    t := ApplyWork(s, id, Enter);
    ReachedNext(max, t, Work(id, Decide(Success, "success")));
    t := ApplyWork(t, id, Decide(Success, "success"));
    ReachedNext(max, t, Work(id, Write));
    t := ApplyWork(t, id, Write);
    assert t.workers == s.workers[id := Written];
  }

  /**
   The other way about, some run marks a job cancelled, for good, that has already
   succeeded: the row then says something else than the job's own outcome.
   */
  lemma FinishedIsOverwritten(max: int)
    ensures exists t ::
              && Reached(max, t) && DeskEnabled(t, WriteCancel(0))
              && t.cancels[0].id in t.jobs && t.jobs[t.cancels[0].id].status == Success
              && StaysCancelled(max, ApplyDesk(t, WriteCancel(0)), t.cancels[0].id)
  {
    var t := OneQueued(max);
    t := LookedAndRead(max, t, 0, "a");
    t := ClaimOnly(max, t);
    t := ComesUp(max, t, "a");
    t := Succeeds(max, t, "a");
    var s, es :| Init(s) && Run(max, s, es) && After(max, s, es) == t;
    Reachable(max, s, es);
    CancelIsFinal(max, t, 0);
  }
}
