/** What holds in every state of every run of the engine, over any number of boots. */
module EngineRuns {
  import opened Jobs
  import opened Engine
  import opened EngineInvariants

  ghost predicate JobInv(s: State, id: JobId) {
    StartsInv(s, id) && BusyInv(s, id) && CheckRunInv(s, id) && PruneInv(s, id)
  }

  ghost predicate Inv(max: int, s: State) {
    && LimitInv(max, s) && StartInv(s)
    && forall id :: JobInv(s, id)
  }

  lemma StepKeepsInv(max: int, s: State, e: Event)
    requires Inv(max, s) && Enabled(s, e)
    ensures Inv(max, Apply(max, s, e))
  {
    LimitKept(max, s, e);
    StartKept(max, s, e);
    forall id ensures JobInv(Apply(max, s, e), id) {
      assert JobInv(s, id);
      StartsKept(max, s, e, id);
      BusyKept(max, s, e, id);
      CheckRunKept(max, s, e, id);
      PruneKept(max, s, e, id);
    }
  }

  lemma {:induction false} RunKeepsInv(max: int, s: State, es: seq<Event>)
    requires Inv(max, s) && Run(max, s, es)
    ensures Inv(max, After(max, s, es))
    decreases es
  {
    if es != [] {
      StepKeepsInv(max, s, es[0]);
      RunKeepsInv(max, Apply(max, s, es[0]), es[1..]);
    }
  }

  lemma Reachable(max: int, s: State, es: seq<Event>)
    requires Init(s) && Run(max, s, es)
    ensures Inv(max, After(max, s, es))
  {
    RunKeepsInv(max, s, es);
  }

  // ------------------------------------------------------------- reachable states

  /** Some run from an empty database ends in `t`. */
  ghost predicate Reached(max: int, t: State) {
    exists s, es :: Init(s) && Run(max, s, es) && After(max, s, es) == t
  }

  lemma {:induction false} RunSnoc(max: int, s: State, es: seq<Event>, e: Event)
    requires Run(max, s, es) && Enabled(After(max, s, es), e)
    ensures Run(max, s, es + [e]) && After(max, s, es + [e]) == Apply(max, After(max, s, es), e)
    decreases es
  {
    if es == [] {
      assert es + [e] == [e] && [e][1..] == [];
      assert Run(max, Apply(max, s, e), []);
    } else {
      assert (es + [e])[1..] == es[1..] + [e];
      RunSnoc(max, Apply(max, s, es[0]), es[1..], e);
    }
  }

  lemma ReachedNext(max: int, t: State, e: Event)
    requires Reached(max, t) && Enabled(t, e)
    ensures Reached(max, Apply(max, t, e))
  {
    var s, es :| Init(s) && Run(max, s, es) && After(max, s, es) == t;
    RunSnoc(max, s, es, e);
  }

  const BUILD := JobInput(1, "r", "c", "", "", "")

  // ------------------------------------------------------------ no lost wake-up

  /** Every enqueue of the run goes on to its notification. */
  predicate Announced(es: seq<Event>) {
    forall i :: 0 <= i < |es| ==> !Unannounced(es[i])
  }

  lemma {:induction false} RunKeepsWake(max: int, s: State, es: seq<Event>)
    requires WakeInv(max, s) && Run(max, s, es) && Announced(es)
    ensures WakeInv(max, After(max, s, es))
    decreases es
  {
    if es != [] {
      WakeKept(max, s, es[0]);
      RunKeepsWake(max, Apply(max, s, es[0]), es[1..]);
    }
  }

  /**
   Whenever the loop waits with its slot empty, no job is queued, or the limit is
   reached, or somebody who changed that is still about to notify.
   */
  lemma NoLostWakeUp(max: int, s: State, es: seq<Event>)
    requires Init(s) && Run(max, s, es) && Announced(es)
    ensures
      var t := After(max, s, es);
      t.loop.Blocked? && !t.notify ==>
        || (forall id :: id in t.jobs ==> t.jobs[id].status != Queued)
        || |t.running| >= (if max >= 1 then max else 1)
        || t.owing > 0
  {
    forall id | id in After(max, s, es).jobs && After(max, s, es).jobs[id].status == Queued
      ensures IsQueued(After(max, s, es).jobs, id)
    {}
    RunKeepsWake(max, s, es);
  }

  /** A loop with a job to run, room to run it, and nobody's notification outstanding. */
  ghost predicate Ready(max: int, t: State) {
    && t.owing == 0 && !NoneQueued(t.jobs) && |t.running| < Limit(max)
    && (t.loop.Draining? || t.loop.MayClaim? || t.loop.Blocked?)
  }

  /** These are statements of the loop itself, and the ticker is not among them. */
  ghost predicate OwnSteps(steps: seq<Event>) {
    forall i :: 0 <= i < |steps| ==> steps[i].Loop? && steps[i] != Loop(Tick)
  }

  ghost predicate ClaimsBy(max: int, t: State, id: JobId, steps: seq<Event>) {
    && OldestQueued(t.jobs, id) && OwnSteps(steps)
    && Run(max, t, steps) && After(max, t, steps).loop == Claimed(id, t.jobs[id].checkRun)
  }

  /** The loop's own statements, without the ticker, lead to claiming the oldest queued job. */
  ghost predicate ClaimsNext(max: int, t: State) {
    exists id, steps: seq<Event> :: ClaimsBy(max, t, id, steps)
  }

  /**
   A loop that has work gets to it without the ticker exactly when it does not wait with
   its slot empty; and that it never does in a run whose enqueues all notify.
   */
  lemma QueuedJobGetsClaimed(max: int, t: State)
    requires Ready(max, t)
    ensures ClaimsNext(max, t) <==> !(t.loop.Blocked? && !t.notify)
  {
    if t.loop.Blocked? && !t.notify {
      forall id, steps: seq<Event> ensures !ClaimsBy(max, t, id, steps) {
        if ClaimsBy(max, t, id, steps) { AsleepClaimsNothing(max, t, steps); }
      }
    } else {
      ClaimFrom(max, t);
    }
  }

  lemma ReadyLoopIsAwake(max: int, s: State, es: seq<Event>)
    requires Init(s) && Run(max, s, es) && Announced(es) && Ready(max, After(max, s, es))
    ensures ClaimsNext(max, After(max, s, es))
  {
    RunKeepsWake(max, s, es);
    QueuedJobGetsClaimed(max, After(max, s, es));
  }

  /** A job whose enqueue failed after its INSERT waits for the ticker beside an idle loop. */
  lemma UnannouncedJobWaits(max: int)
    ensures exists t :: Reached(max, t) && Ready(max, t) && !ClaimsNext(max, t)
  {
    var s := State(map[], 0, {}, {}, false, Booting, map[], 0, map[], Idle, {}, {}, map[]);
    var none: seq<Event> := [];
    assert Init(s) && Run(max, s, none) && After(max, s, none) == s;
    ReachedNext(max, s, Loop(RequeueStale));
    var t := ApplyLoop(max, s, RequeueStale);
    ReachedNext(max, t, Loop(CheckLimit));
    t := ApplyLoop(max, t, CheckLimit);
    assert t.jobs == map[];
    ReachedNext(max, t, Loop(ClaimNone));
    t := ApplyLoop(max, t, ClaimNone);
    ReachedNext(max, t, Desk(Enqueue(BUILD, "a", false)));
    t := ApplyDesk(t, Enqueue(BUILD, "a", false));
    assert IsQueued(t.jobs, "a");
    QueuedJobGetsClaimed(max, t);
  }

  /** A loop that waits with its slot empty, or has stopped, moves on by the ticker only. */
  lemma {:induction false} AsleepClaimsNothing(max: int, t: State, steps: seq<Event>)
    requires (t.loop.Blocked? && !t.notify) || t.loop.Stopped?
    requires OwnSteps(steps) && Run(max, t, steps)
    ensures !After(max, t, steps).loop.Claimed?
    decreases steps
  {
    if steps != [] {
      assert steps[0] == Loop(Stop);
      AsleepClaimsNothing(max, Apply(max, t, steps[0]), steps[1..]);
    }
  }

  /** One more step at the front of a run. */
  lemma RunCons(max: int, s: State, e: Event, es: seq<Event>)
    requires Enabled(s, e) && Run(max, Apply(max, s, e), es)
    ensures Run(max, s, [e] + es) && After(max, s, [e] + es) == After(max, Apply(max, s, e), es)
  {
    assert ([e] + es)[1..] == es;
  }

  lemma OwnStepsCons(e: LoopStep, steps: seq<Event>)
    requires e != Tick && OwnSteps(steps)
    ensures OwnSteps([Loop(e)] + steps)
  {
    var all := [Loop(e)] + steps;
    forall i | 0 <= i < |all| ensures all[i].Loop? && all[i] != Loop(Tick) {
      if i > 0 { assert all[i] == steps[i - 1]; }
    }
  }

  lemma ClaimsNextBefore(max: int, t: State, e: LoopStep)
    requires LoopEnabled(t, e) && e != Tick && ApplyLoop(max, t, e).jobs == t.jobs
    requires ClaimsNext(max, ApplyLoop(max, t, e))
    ensures ClaimsNext(max, t)
  {
    var id, steps :| ClaimsBy(max, ApplyLoop(max, t, e), id, steps);
    RunCons(max, t, Loop(e), steps);
    OwnStepsCons(e, steps);
    assert ClaimsBy(max, t, id, [Loop(e)] + steps);
  }

  lemma ClaimFromMayClaim(max: int, t: State)
    requires t.loop.MayClaim? && !NoneQueued(t.jobs)
    ensures ClaimsNext(max, t)
  {
    var queued :| IsQueued(t.jobs, queued);
    OldestOfQueued(t.jobs, queued);
    OldestExists(t.jobs, QueuedIds(t.jobs));
    var id :| IsOldest(t.jobs, QueuedIds(t.jobs), id);
    OldestOfQueued(t.jobs, id);
    assert Run(max, Apply(max, t, Loop(Claim(id))), []);
    RunCons(max, t, Loop(Claim(id)), []);
    OwnStepsCons(Claim(id), []);
    assert ClaimsBy(max, t, id, [Loop(Claim(id))] + []);
  }

  lemma ClaimFrom(max: int, t: State)
    requires Ready(max, t) && !(t.loop.Blocked? && !t.notify)
    ensures ClaimsNext(max, t)
  {
    if t.loop.MayClaim? {
      ClaimFromMayClaim(max, t);
    } else if t.loop.Draining? {
      ClaimFromMayClaim(max, ApplyLoop(max, t, CheckLimit));
      ClaimsNextBefore(max, t, CheckLimit);
    } else {
      var u := ApplyLoop(max, t, Wake);
      ClaimFromMayClaim(max, ApplyLoop(max, u, CheckLimit));
      ClaimsNextBefore(max, u, CheckLimit);
      ClaimsNextBefore(max, t, Wake);
    }
  }

  // --------------------------------------------------------------- claim safety

  /** The limit holds, a claimed job has not run in this process, and starts follow requeues. */
  lemma ClaimSafety(max: int, s: State, es: seq<Event>, id: JobId)
    requires Init(s) && Run(max, s, es)
    ensures
      var t := After(max, s, es);
      && |t.running| <= (if max >= 1 then max else 1)
      && (t.loop.Claimed? ==> t.loop.id !in t.started && t.loop.id !in t.running)
      && TallyOf(t, id).starts <= TallyOf(t, id).requeues + 1
  {
    Reachable(max, s, es);
    var t := After(max, s, es);
    assert JobInv(t, id);
  }

  lemma StartsInStep(max: int, s: State, e: Event, id: JobId)
    requires StartInv(s) && Enabled(s, e) && e != Crash && id in s.issued
    ensures
      var t := Apply(max, s, e);
      && s.started <= t.started && id in t.issued
      && TallyOf(t, id).starts <= TallyOf(s, id).starts + (if id in s.started || id !in t.started then 0 else 1)
  {
    match e
    case Loop(step) => StartsInLoop(max, s, step, id);
    case Work(worker, act) =>
      WorkMemory(s, worker, act);
      OtherJobs(s, worker, act, id);
    case Desk(_) =>
  }

  lemma StartsInLoop(max: int, s: State, e: LoopStep, id: JobId)
    requires StartInv(s) && LoopEnabled(s, e) && id in s.issued
    ensures
      var t := ApplyLoop(max, s, e);
      && s.started <= t.started && id in t.issued
      && TallyOf(t, id).starts <= TallyOf(s, id).starts + (if id in s.started || id !in t.started then 0 else 1)
  {
  }

  /** Between two crashes a job is started at most once, however many are enqueued and cancelled. */
  lemma {:induction false} OneStartPerBoot(max: int, s: State, es: seq<Event>, id: JobId)
    requires StartInv(s) && Run(max, s, es) && Crash !in es && id in s.issued
    ensures
      var t := After(max, s, es);
      TallyOf(t, id).starts <= TallyOf(s, id).starts + (if id in s.started || id !in t.started then 0 else 1)
    ensures s.started <= After(max, s, es).started
    decreases es
  {
    if es != [] {
      StartsInStep(max, s, es[0], id);
      StartKept(max, s, es[0]);
      OneStartPerBoot(max, Apply(max, s, es[0]), es[1..], id);
    }
  }

  /** The same, for a job that may not have been enqueued yet. */
  lemma {:induction false} AtMostOneStart(max: int, s: State, es: seq<Event>, id: JobId)
    requires StartInv(s) && Run(max, s, es) && Crash !in es
    ensures TallyOf(After(max, s, es), id).starts <= TallyOf(s, id).starts + 1
    decreases es
  {
    if id in s.issued {
      OneStartPerBoot(max, s, es, id);
    } else if es != [] {
      UnissuedStep(max, s, es[0], id);
      StartKept(max, s, es[0]);
      AtMostOneStart(max, Apply(max, s, es[0]), es[1..], id);
    }
  }

  lemma UnissuedStep(max: int, s: State, e: Event, id: JobId)
    requires StartInv(s) && Enabled(s, e) && e != Crash && id !in s.issued
    ensures TallyOf(Apply(max, s, e), id).starts == 0 == TallyOf(s, id).starts
  {
    match e
    case Loop(step) => UnissuedLoop(max, s, step, id);
    case Work(worker, act) => OtherJobs(s, worker, act, id);
    case Desk(call) => DeskMemory(s, call);
  }

  lemma UnissuedLoop(max: int, s: State, e: LoopStep, id: JobId)
    requires StartInv(s) && LoopEnabled(s, e) && id !in s.issued
    ensures TallyOf(ApplyLoop(max, s, e), id).starts == 0 == TallyOf(s, id).starts
  {
    match e
    case RequeueStale =>
    case Register =>
    case Claim(_) =>
    case _ => LoopMoves(max, s, e);
  }

  // --------------------------------------------------- leaving flight, retention

  /** Once out of flight, a job is never queued or running again, crashes included. */
  lemma {:induction false} LeavingFlightIsPermanent(max: int, s: State, es: seq<Event>, id: JobId)
    requires Run(max, s, es) && id in s.issued && !Live(s.jobs, id)
    ensures !Live(After(max, s, es).jobs, id)
    decreases es
  {
    if es != [] {
      LeavingFlightStep(max, s, es[0], id);
      LeavingFlightIsPermanent(max, Apply(max, s, es[0]), es[1..], id);
    }
  }

  /**
   Whatever ran since the SELECT, each DELETE removes a row that is there and not in
   flight; when retention is done none of the rows it deleted is back.
   */
  lemma PruneDeletesOnlyTerminal(max: int, s: State, es: seq<Event>, id: JobId)
    requires Init(s) && Run(max, s, es)
    ensures
      var t := After(max, s, es);
      && (Enabled(t, Desk(Delete(id))) ==> id in t.jobs && !Live(t.jobs, id))
      && (Enabled(t, Desk(PruneDone)) && id in t.prune.selected ==> id !in t.jobs)
  {
    Reachable(max, s, es);
    assert JobInv(After(max, s, es), id);
  }

  // ----------------------------------------------------- one logical Check Run

  /** Every Check Run of a job beyond the first is owed to a failed reopen or a lost id. */
  lemma CheckRunConservation(max: int, s: State, es: seq<Event>, id: JobId)
    requires Init(s) && Run(max, s, es)
    ensures
      var t := After(max, s, es);
      && TallyOf(t, id).created <= 1 + TallyOf(t, id).failedReopens + TallyOf(t, id).unrecorded
      && (id in t.jobs && TallyOf(t, id).recorded ==> t.jobs[id].checkRun != 0)
  {
    Reachable(max, s, es);
    assert JobInv(After(max, s, es), id);
  }

  lemma RecordedStep(max: int, s: State, e: Event, id: JobId)
    requires Enabled(s, e) && id in s.issued && StartInv(s) && TallyOf(s, id).recorded
    ensures TallyOf(Apply(max, s, e), id).recorded && id in Apply(max, s, e).issued
  {
    match e
    case Loop(step) => RecordedByLoop(max, s, step, id);
    case Work(worker, act) => RecordedByWork(s, worker, act, id);
    case _ =>
  }

  lemma RecordedByLoop(max: int, s: State, e: LoopStep, id: JobId)
    requires LoopEnabled(s, e) && id in s.issued && StartInv(s) && TallyOf(s, id).recorded
    ensures TallyOf(ApplyLoop(max, s, e), id).recorded && id in ApplyLoop(max, s, e).issued
  {
  }

  lemma RecordedByWork(s: State, worker: JobId, e: JobStep, id: JobId)
    requires WorkEnabled(s, worker, e) && id in s.issued && StartInv(s) && TallyOf(s, id).recorded
    ensures TallyOf(ApplyWork(s, worker, e), id).recorded && id in ApplyWork(s, worker, e).issued
  {
  }

  /** A recorded Check Run id never becomes 0 again, while the row is there. */
  lemma {:induction false} RecordedRunIsKept(max: int, s: State, es: seq<Event>, id: JobId)
    requires Inv(max, s) && Run(max, s, es) && id in s.jobs && s.jobs[id].checkRun != 0
    ensures
      var t := After(max, s, es);
      id in t.jobs ==> t.jobs[id].checkRun != 0
  {
    assert JobInv(s, id);
    RecordedIsForever(max, s, es, id);
    RunKeepsInv(max, s, es);
    assert JobInv(After(max, s, es), id);
  }

  lemma {:induction false} RecordedIsForever(max: int, s: State, es: seq<Event>, id: JobId)
    requires Inv(max, s) && Run(max, s, es) && id in s.issued && TallyOf(s, id).recorded
    ensures TallyOf(After(max, s, es), id).recorded
    decreases es
  {
    if es != [] {
      RecordedStep(max, s, es[0], id);
      StepKeepsInv(max, s, es[0]);
      RecordedIsForever(max, Apply(max, s, es[0]), es[1..], id);
    }
  }
}
