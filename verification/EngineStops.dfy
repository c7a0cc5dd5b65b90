/**
 What becomes of a job that is running when it is told to stop: by `CancelJob`, which
 finds its goroutine, or by the shutdown of the process.
 */
module EngineStops {
  import opened Jobs
  import opened Engine
  import opened EngineInvariants
  import opened EngineRuns
  import opened EngineCancels

  /** This step cancels the context of this running job. */
  predicate Tells(s: State, e: Event, id: JobId) {
    id in s.running && (e == Loop(Stop) || (e.Desk? && e.call.LookUp? && e.call.target == id))
  }

  /** Until the process dies, the row never says that the job succeeded. */
  ghost predicate NeverSucceeds(max: int, s: State, id: JobId) {
    forall es :: Run(max, s, es) && Crash !in es && id in After(max, s, es).jobs
                 ==> After(max, s, es).jobs[id].status != Success
  }

  /** The goroutine has been told, or has decided already, and not on a success. */
  predicate Doomed(s: State, id: JobId) {
    && id in s.started && (id in s.jobs ==> s.jobs[id].status != Success)
    && (id in s.workers ==>
          match s.workers[id]
          case Decided(status, _) => status != Success
          case Written => true
          case _ => id in s.told)
  }

  lemma DoomedByLoop(max: int, s: State, e: LoopStep, id: JobId)
    requires StartInv(s) && Doomed(s, id) && LoopEnabled(s, e)
    ensures Doomed(ApplyLoop(max, s, e), id)
  {
    match e
    case Claim(_) => LoopRow(max, s, e, id);
    case Register =>
    case RequeueStale => LoopRow(max, s, e, id);
    case _ => LoopMoves(max, s, e);
  }

  lemma DoomedByWork(s: State, worker: JobId, e: JobStep, id: JobId)
    requires StartInv(s) && Doomed(s, id) && WorkEnabled(s, worker, e)
    ensures Doomed(ApplyWork(s, worker, e), id)
  {
    WorkMemory(s, worker, e);
    if worker != id {
      OtherJobs(s, worker, e, id);
    } else {
      DoomedByOwn(s, e, id);
    }
  }

  lemma DoomedByOwn(s: State, e: JobStep, id: JobId)
    requires StartInv(s) && Doomed(s, id) && WorkEnabled(s, id, e)
    ensures Doomed(ApplyWork(s, id, e), id)
  {
    match e
    case Record(_) =>
    case Decide(_, _) =>
    case Write =>
    case Leave =>
    case _ =>
  }

  lemma DoomedByDesk(s: State, e: DeskStep, id: JobId)
    requires StartInv(s) && Doomed(s, id) && DeskEnabled(s, e)
    ensures Doomed(ApplyDesk(s, e), id)
  {
    DeskMemory(s, e);
    DeskRow(s, e, id);
  }

  lemma {:induction false} DoomedUntilCrash(max: int, s: State, es: seq<Event>, id: JobId)
    requires StartInv(s) && Doomed(s, id) && Run(max, s, es) && Crash !in es
    ensures Doomed(After(max, s, es), id)
    decreases es
  {
    if es != [] {
      StartKept(max, s, es[0]);
      match es[0] {
        case Loop(step) => DoomedByLoop(max, s, step, id);
        case Work(worker, act) => DoomedByWork(s, worker, act, id);
        case Desk(call) => DoomedByDesk(s, call, id);
      }
      DoomedUntilCrash(max, Apply(max, s, es[0]), es[1..], id);
    }
  }

  /**
   A running job that is told to stop succeeds no more, whatever happens short of a crash,
   if and only if its goroutine has not decided on a success already.
   */
  lemma ToldJobNeverSucceeds(max: int, s: State, e: Event, id: JobId)
    requires Reached(max, s) && Enabled(s, e) && Tells(s, e, id) && id in s.jobs && s.jobs[id].status != Success
    ensures
      var w := s.workers;
      && id in w
      && (NeverSucceeds(max, Apply(max, s, e), id) <==> !(w[id].Decided? && w[id].status == Success))
  {
    var init, es :| Init(init) && Run(max, init, es) && After(max, init, es) == s;
    Reachable(max, init, es);
    StepKeepsInv(max, s, e);
    var t := Apply(max, s, e);
    if s.workers[id].Decided? && s.workers[id].status == Success {
      var write := [Work(id, Write)];
      assert write[1..] == [] && Run(max, ApplyWork(t, id, Write), []);
      assert Run(max, t, write) && Crash !in write;
      assert After(max, t, write) == ApplyWork(t, id, Write);
    } else {
      forall more | Run(max, t, more) && Crash !in more ensures Doomed(After(max, t, more), id) {
        DoomedUntilCrash(max, t, more, id);
      }
    }
  }

  /** The row is as it `was` until the goroutine, stopped in its steps, writes that it was cancelled. */
  predicate Ending(s: State, id: JobId, was: Status) {
    && id in s.started
    && (id in s.jobs ==> s.jobs[id].status == was || s.jobs[id].status == Cancelled)
    && (if id in s.workers && !s.workers[id].Written? then StoppedInSteps(s, id)
        else id in s.jobs ==> s.jobs[id].status == Cancelled)
  }

  lemma EndingByLoop(max: int, s: State, e: LoopStep, id: JobId, was: Status)
    requires StartInv(s) && Ending(s, id, was) && LoopEnabled(s, e)
    ensures Ending(ApplyLoop(max, s, e), id, was)
  {
    match e
    case Claim(_) => LoopRow(max, s, e, id);
    case Register =>
    case RequeueStale => LoopRow(max, s, e, id);
    case _ => LoopMoves(max, s, e);
  }

  lemma EndingByWork(s: State, worker: JobId, e: JobStep, id: JobId, was: Status)
    requires StartInv(s) && Ending(s, id, was) && WorkEnabled(s, worker, e)
    ensures Ending(ApplyWork(s, worker, e), id, was)
  {
    WorkMemory(s, worker, e);
    if worker != id {
      OtherJobs(s, worker, e, id);
    } else {
      EndingByOwn(s, e, id, was);
    }
  }

  lemma EndingByOwn(s: State, e: JobStep, id: JobId, was: Status)
    requires StartInv(s) && Ending(s, id, was) && WorkEnabled(s, id, e)
    ensures Ending(ApplyWork(s, id, e), id, was)
  {
    match e
    case Decide(_, _) =>
    case Write =>
    case Leave =>
    case _ =>
  }

  lemma EndingByDesk(s: State, e: DeskStep, id: JobId, was: Status)
    requires StartInv(s) && Ending(s, id, was) && DeskEnabled(s, e)
    ensures Ending(ApplyDesk(s, e), id, was)
  {
    DeskMemory(s, e);
    DeskRow(s, e, id);
  }

  lemma {:induction false} EndingUntilCrash(max: int, s: State, es: seq<Event>, id: JobId, was: Status)
    requires StartInv(s) && Ending(s, id, was) && Run(max, s, es) && Crash !in es
    ensures StartInv(After(max, s, es)) && Ending(After(max, s, es), id, was)
    decreases es
  {
    if es != [] {
      StartKept(max, s, es[0]);
      match es[0] {
        case Loop(step) => EndingByLoop(max, s, step, id, was);
        case Work(worker, act) => EndingByWork(s, worker, act, id, was);
        case Desk(call) => EndingByDesk(s, call, id, was);
      }
      EndingUntilCrash(max, Apply(max, s, es[0]), es[1..], id, was);
    }
  }

  /** A job that is told to stop in its steps has a cancelled row by the time its goroutine is gone. */
  lemma ToldInStepsEndsCancelled(max: int, s: State, e: Event, id: JobId, es: seq<Event>)
    requires Reached(max, s) && Enabled(s, e) && Tells(s, e, id) && id in s.jobs
    requires id in s.workers && s.workers[id].Stepping?
    requires Run(max, Apply(max, s, e), es) && Crash !in es
    ensures
      var t := After(max, Apply(max, s, e), es);
      && (id in t.jobs ==> t.jobs[id].status == s.jobs[id].status || t.jobs[id].status == Cancelled)
      && (id in t.jobs && id !in t.running ==> t.jobs[id].status == Cancelled)
  {
    var init, before :| Init(init) && Run(max, init, before) && After(max, init, before) == s;
    Reachable(max, init, before);
    StepKeepsInv(max, s, e);
    EndingUntilCrash(max, Apply(max, s, e), es, id, s.jobs[id].status);
  }
}
