/**
 What happened in a run of the engine, read off its events: how often a job was
 started, requeued, given a Check Run and so on, and which Check Run was recorded last.
 */
module EngineHistory {
  import opened Bytes
  import opened Jobs
  import opened Engine
  import opened EngineInvariants
  import opened EngineRuns
  import opened EngineCancels

  // -------------------------------------------------------------------- counting

  datatype Kind = Starts | Requeues | Creations | FailedReopens | LostIds

  /** Whether this event is one of this kind for this job. */
  predicate Happens(s: State, e: Event, id: JobId, kind: Kind) {
    match kind
    case Starts => e == Loop(Register) && s.loop.Claimed? && s.loop.id == id
    case Requeues => e == Loop(RequeueStale) && id in s.jobs && s.jobs[id].status == InProgress
    case Creations => e.Work? && e.id == id && e.act.Create?
    case FailedReopens => e.Work? && e.id == id && e.act == Reopen(false)
    case LostIds =>
      // an id GitHub gave out that did not get into the row
      || (e.Work? && e.id == id && e.act.Record? && !(e.act.stored && id in s.jobs))
      || (e == Crash && id in s.workers && s.workers[id].Created?)
  }

  /** How many events of a run are of this kind for this job. */
  ghost function Count(max: int, s: State, es: seq<Event>, id: JobId, kind: Kind): nat
    requires Run(max, s, es)
    decreases es
  {
    if es == [] then 0
    else (if Happens(s, es[0], id, kind) then 1 else 0) + Count(max, Apply(max, s, es[0]), es[1..], id, kind)
  }

  function Tallied(s: State, id: JobId, kind: Kind): nat {
    match kind
    case Starts => TallyOf(s, id).starts
    case Requeues => TallyOf(s, id).requeues
    case Creations => TallyOf(s, id).created
    case FailedReopens => TallyOf(s, id).failedReopens
    case LostIds => TallyOf(s, id).unrecorded
  }

  lemma RequeueTallies(max: int, s: State, id: JobId, kind: Kind)
    requires StartInv(s) && s.loop.Booting?
    ensures Tallied(ApplyLoop(max, s, RequeueStale), id, kind)
         == Tallied(s, id, kind) + if Happens(s, Loop(RequeueStale), id, kind) then 1 else 0
  {
  }

  lemma RegisterTallies(max: int, s: State, id: JobId, kind: Kind)
    requires StartInv(s) && s.loop.Claimed?
    ensures Tallied(ApplyLoop(max, s, Register), id, kind)
         == Tallied(s, id, kind) + if Happens(s, Loop(Register), id, kind) then 1 else 0
  {
  }

  lemma LoopTallies(max: int, s: State, e: LoopStep, id: JobId, kind: Kind)
    requires StartInv(s) && LoopEnabled(s, e)
    ensures Tallied(ApplyLoop(max, s, e), id, kind)
         == Tallied(s, id, kind) + if Happens(s, Loop(e), id, kind) then 1 else 0
  {
    match e
    case RequeueStale => RequeueTallies(max, s, id, kind);
    case Claim(_) => assert ApplyLoop(max, s, e).tally == s.tally;
    case Register => RegisterTallies(max, s, id, kind);
    case _ => LoopMoves(max, s, e);
  }

  lemma WorkTallies(s: State, worker: JobId, e: JobStep, id: JobId, kind: Kind)
    requires StartInv(s) && WorkEnabled(s, worker, e)
    ensures Tallied(ApplyWork(s, worker, e), id, kind)
         == Tallied(s, id, kind) + if Happens(s, Work(worker, e), id, kind) then 1 else 0
  {
    if worker != id {
      OtherJobs(s, worker, e, id);
    } else {
      match e
      case Reopen(_) =>
      case Create(_) =>
      case Record(_) =>
      case _ =>
    }
  }

  lemma StepTallies(max: int, s: State, e: Event, id: JobId, kind: Kind)
    requires StartInv(s) && Enabled(s, e)
    ensures Tallied(Apply(max, s, e), id, kind) == Tallied(s, id, kind) + if Happens(s, e, id, kind) then 1 else 0
  {
    match e
    case Loop(step) => LoopTallies(max, s, step, id, kind);
    case Work(worker, act) => WorkTallies(s, worker, act, id, kind);
    case Desk(call) => DeskMemory(s, call);
    case Crash =>
  }

  lemma {:induction false} TallyIsCount(max: int, s: State, es: seq<Event>, id: JobId, kind: Kind)
    requires StartInv(s) && Run(max, s, es)
    ensures Tallied(After(max, s, es), id, kind) == Tallied(s, id, kind) + Count(max, s, es, id, kind)
    decreases es
  {
    if es != [] {
      StepTallies(max, s, es[0], id, kind);
      StartKept(max, s, es[0]);
      TallyIsCount(max, Apply(max, s, es[0]), es[1..], id, kind);
    }
  }

  /** In any run from an empty database a job is started at most once more than it was requeued. */
  lemma StartsFollowRequeues(max: int, s: State, es: seq<Event>, id: JobId)
    requires Init(s) && Run(max, s, es)
    ensures Count(max, s, es, id, Starts) <= Count(max, s, es, id, Requeues) + 1
  {
    TallyIsCount(max, s, es, id, Starts);
    TallyIsCount(max, s, es, id, Requeues);
    ClaimSafety(max, s, es, id);
  }

  /** Between crashes a job is started at most once. */
  lemma OneStartBetweenCrashes(max: int, s: State, es: seq<Event>, more: seq<Event>, id: JobId)
    requires Init(s) && Run(max, s, es) && Run(max, After(max, s, es), more) && Crash !in more
    ensures Count(max, After(max, s, es), more, id, Starts) <= 1
  {
    Reachable(max, s, es);
    var t := After(max, s, es);
    TallyIsCount(max, t, more, id, Starts);
    AtMostOneStart(max, t, more, id);
  }

  /** Over any number of boots, a Check Run beyond the first is owed to a failed reopen or a lost id. */
  lemma CreationsAreOwed(max: int, s: State, es: seq<Event>, id: JobId)
    requires Init(s) && Run(max, s, es)
    ensures Count(max, s, es, id, Creations)
         <= 1 + Count(max, s, es, id, FailedReopens) + Count(max, s, es, id, LostIds)
  {
    TallyIsCount(max, s, es, id, Creations);
    TallyIsCount(max, s, es, id, FailedReopens);
    TallyIsCount(max, s, es, id, LostIds);
    CheckRunConservation(max, s, es, id);
  }

  // ---------------------------------------------------- which Check Run is recorded

  /** The id GitHub answered last, and the one last put in the row. */
  datatype Trail = Trail(made: nat, stored: nat)

  function Follow(t: Trail, s: State, e: Event, id: JobId): Trail {
    if !(e.Work? && e.id == id) then t
    else match e.act
      case Create(newRun) => t.(made := newRun)
      case Record(stored) => if stored && id in s.jobs then t.(stored := t.made) else t
      case _ => t
  }

  ghost function TrailOf(max: int, s: State, es: seq<Event>, id: JobId, t: Trail): Trail
    requires Run(max, s, es)
    decreases es
  {
    if es == [] then t else TrailOf(max, Apply(max, s, es[0]), es[1..], id, Follow(t, s, es[0], id))
  }

  /** Row, claim and fresh goroutine all have the run stored last; a created one is the one made last. */
  ghost predicate TrailInv(s: State, id: JobId, t: Trail) {
    && (id !in s.issued ==> t == Trail(0, 0))
    && (id in s.jobs ==> s.jobs[id].checkRun == t.stored)
    && (s.loop.Claimed? && s.loop.id == id ==> s.loop.checkRun == t.stored)
    && (id in s.workers && s.workers[id].Fresh? ==> s.workers[id].checkRun == t.stored)
    && (id in s.workers && s.workers[id].Created? ==> s.workers[id].checkRun == t.made)
  }

  lemma TrailKeptByLoop(max: int, s: State, e: LoopStep, id: JobId, t: Trail)
    requires StartInv(s) && TrailInv(s, id, t) && LoopEnabled(s, e)
    ensures TrailInv(ApplyLoop(max, s, e), id, t)
  {
    LoopRow(max, s, e, id);
    match e
    case RequeueStale =>
    case Claim(_) =>
    case Register =>
    case _ => LoopMoves(max, s, e);
  }

  lemma TrailKeptByWork(s: State, worker: JobId, e: JobStep, id: JobId, t: Trail)
    requires StartInv(s) && TrailInv(s, id, t) && WorkEnabled(s, worker, e)
    ensures TrailInv(ApplyWork(s, worker, e), id, Follow(t, s, Work(worker, e), id))
  {
    WorkMemory(s, worker, e);
    if worker != id {
      OtherJobs(s, worker, e, id);
    } else {
      assert id in s.started && !(s.loop.Claimed? && s.loop.id == id);
      WorkRow(s, worker, e, id);
      OwnTrail(s, e, id, t);
    }
  }

  lemma OwnTrail(s: State, e: JobStep, id: JobId, t: Trail)
    requires TrailInv(s, id, t) && WorkEnabled(s, id, e) && id in s.issued
    ensures
      var after, u := ApplyWork(s, id, e), Follow(t, s, Work(id, e), id);
      && (id in after.jobs ==> after.jobs[id].checkRun == u.stored)
      && (id in after.workers && after.workers[id].Fresh? ==> after.workers[id].checkRun == u.stored)
      && (id in after.workers && after.workers[id].Created? ==> after.workers[id].checkRun == u.made)
  {
    match e
    case Create(_) =>
    case Record(_) =>
    case _ =>
  }

  lemma TrailKeptByDesk(s: State, e: DeskStep, id: JobId, t: Trail)
    requires StartInv(s) && TrailInv(s, id, t) && DeskEnabled(s, e)
    ensures TrailInv(ApplyDesk(s, e), id, t)
  {
    DeskMemory(s, e);
    DeskRow(s, e, id);
  }

  lemma TrailKept(max: int, s: State, e: Event, id: JobId, t: Trail)
    requires StartInv(s) && TrailInv(s, id, t) && Enabled(s, e)
    ensures TrailInv(Apply(max, s, e), id, Follow(t, s, e, id))
  {
    match e
    case Loop(step) => TrailKeptByLoop(max, s, step, id, t);
    case Work(worker, act) => TrailKeptByWork(s, worker, act, id, t);
    case Desk(call) => TrailKeptByDesk(s, call, id, t);
    case Crash =>
  }

  lemma {:induction false} TrailOverRun(max: int, s: State, es: seq<Event>, id: JobId, t: Trail)
    requires StartInv(s) && TrailInv(s, id, t) && Run(max, s, es)
    ensures TrailInv(After(max, s, es), id, TrailOf(max, s, es, id, t))
    decreases es
  {
    if es != [] {
      TrailKept(max, s, es[0], id, t);
      StartKept(max, s, es[0]);
      TrailOverRun(max, Apply(max, s, es[0]), es[1..], id, Follow(t, s, es[0], id));
    }
  }

  /**
   Whatever crashes and cancels a run has, a job's row names the Check Run that was
   recorded last, and the next boot's goroutine starts with that one.
   */
  lemma RowNamesLastRun(max: int, s: State, es: seq<Event>, id: JobId)
    requires Init(s) && Run(max, s, es)
    ensures
      var t, trail := After(max, s, es), TrailOf(max, s, es, id, Trail(0, 0));
      && (id in t.jobs ==> t.jobs[id].checkRun == trail.stored)
      && (t.loop.Claimed? && t.loop.id == id ==> t.loop.checkRun == trail.stored)
      && (id in t.workers && t.workers[id].Fresh? ==> t.workers[id].checkRun == trail.stored)
      && (id in t.workers && t.workers[id].Created? ==> t.workers[id].checkRun == trail.made)
  {
    TrailOverRun(max, s, es, id, Trail(0, 0));
  }

  // ------------------------------------------------------------ runs that get there

  lemma StartedWithout(max: int, s: State) returns (t: State)
    requires Reached(max, s) && s.loop.Draining? && s.running == {} && s.jobs == map["a" := NewJob(BUILD, 0)]
    ensures Reached(max, t) && t.jobs == map["a" := NewJob(BUILD, 0).(status := InProgress)]
    ensures t.running == {"a"} && t.workers == s.workers["a" := Fresh(0)] && !t.loop.Claimed?
    ensures TallyOf(t, "a") == TallyOf(s, "a").(starts := TallyOf(s, "a").starts + 1)
  {
    t := ClaimOnly(max, s);
    assert TallyOf(t, "a") == TallyOf(s, "a");
    ReachedNext(max, t, Loop(Register));
    t := ApplyLoop(max, t, Register);
  }

  lemma CreatedThenCrashed(max: int, s: State) returns (t: State)
    requires Reached(max, s) && "a" in s.workers && s.workers["a"] == Fresh(0) && "a" in s.tally
    requires s.jobs == map["a" := NewJob(BUILD, 0).(status := InProgress)]
    ensures Reached(max, t) && t.loop.Draining? && t.running == {} && t.jobs == map["a" := NewJob(BUILD, 0)]
    ensures TallyOf(t, "a").created == TallyOf(s, "a").created + 1
    ensures TallyOf(t, "a").unrecorded == TallyOf(s, "a").unrecorded + 1
    ensures TallyOf(t, "a").failedReopens == TallyOf(s, "a").failedReopens
  {
    ReachedNext(max, s, Work("a", Create(1)));
    var u := ApplyWork(s, "a", Create(1));
    ReachedNext(max, u, Crash);
    u := Crashed(u);
    ReachedNext(max, u, Loop(RequeueStale));
    t := ApplyLoop(max, u, RequeueStale);
    assert t.jobs == map["a" := NewJob(BUILD, 0)];
  }

  /** The bound on creations is met: a crash before the first id is recorded makes a second Check Run. */
  lemma SecondCheckRun(max: int)
    ensures exists t :: Reached(max, t) && TallyOf(t, "a").created == 2 && TallyOf(t, "a").unrecorded == 1
                        && TallyOf(t, "a").failedReopens == 0
  {
    var t := OneQueued(max);
    t := StartedWithout(max, t);
    t := CreatedThenCrashed(max, t);
    t := StartedWithout(max, t);
    ReachedNext(max, t, Work("a", Create(2)));
    t := ApplyWork(t, "a", Create(2));
  }

  /** Retention does delete: a job that has ended is selected, and then gone. */
  lemma EndedJobIsPruned(max: int)
    ensures exists t :: Reached(max, t) && "a" in t.issued && "a" !in t.jobs && Enabled(t, Desk(PruneDone))
  {
    var t := OneQueued(max);
    t := ClaimOnly(max, t);
    t := ComesUp(max, t, "a");
    t := Succeeds(max, t, "a");
    assert !Live(t.jobs, "a");
    ReachedNext(max, t, Desk(Select({"a"})));
    t := ApplyDesk(t, Select({"a"}));
    ReachedNext(max, t, Desk(Delete("a")));
    t := ApplyDesk(t, Delete("a"));
  }
}
