/**
 The job engine of internal/queue/runner.go as a machine at statement granularity:
 the claim loop, the job goroutines, enqueuers, cancellers, retention and crashes.
 */
module Engine {
  import opened Jobs

  /** Where the claim loop is. `Claimed` lies between claiming a row and registering it. */
  datatype LoopPc =
    | Booting
    | Draining                              // about to compare `running` with the limit
    | MayClaim                              // below the limit when it last looked
    | Claimed(id: JobId, checkRun: nat)     // with the row as it was claimed
    | Blocked                               // waiting for a notification or a tick
    | Stopped

  type TerminalStatus = s: Status | !IsInFlight(s) witness Success

  /** Where a job's goroutine is, as far as its Check Run and its row are concerned. */
  datatype WorkerPc =
    | Fresh(checkRun: nat)                  // started with this recorded Check Run, 0 for none
    | NeedsCreate                           // reopening it failed
    | Created(checkRun: nat)                // created on GitHub, id not yet recorded
    | Up                                    // a Check Run is open, the steps have not started
    | Stepping                              // running the steps
    | Decided(status: TerminalStatus, conclusion: string)   // has looked at its context, the row not yet written
    | Written                               // the terminal row is written

  /** A `CancelJob` call between its statements. */
  datatype CancelPc = Missed(id: JobId) | Saw(id: JobId)

  /** A `PruneJobs` call between its SELECT and its last DELETE. */
  datatype PrunePc = Idle | Deleting(selected: set<JobId>, deleted: set<JobId>)

  /** What has happened to one job since it was enqueued, over every boot. */
  datatype Tally = Tally(starts: nat, requeues: nat, created: nat, failedReopens: nat, unrecorded: nat, recorded: bool)

  const ZERO := Tally(0, 0, 0, 0, 0, false)

  datatype State = State(
    jobs: Table, clock: nat,
    running: set<JobId>, told: set<JobId>,  // with a goroutine; those whose context is cancelled
    notify: bool, loop: LoopPc,
    workers: map<JobId, WorkerPc>,
    owing: nat,                             // actors between a change and their own Notify
    cancels: map<nat, CancelPc>, prune: PrunePc,
    issued: set<JobId>, started: set<JobId>, tally: map<JobId, Tally>)

  /** A statement of the claim loop. */
  datatype LoopStep = RequeueStale | CheckLimit | Claim(id: JobId) | ClaimNone | Register | Wake | Tick | Stop

  /** A statement of a job's goroutine. */
  datatype JobStep =
    | Reopen(ok: bool)                      // the recorded Check Run
    | Create(newRun: nat)                   // a Check Run; GitHub answered with this id
    | Record(stored: bool)                  // its id in the row
    | Fail                                  // a terminal row before a Check Run is open
    | Exit(status: Status, conclusion: string)      // a terminal row before the steps
    | Enter                                 // start the steps
    | Decide(status: Status, conclusion: string)    // after the steps, by a look at the context
    | Write                                 // what was decided
    | Leave                                 // remove it from `running`

  /** A statement of an enqueuer, of somebody's `Notify`, of a canceller, or of retention. */
  datatype DeskStep =
    | Enqueue(input: JobInput, newId: JobId, confirmed: bool)   // who fails after the INSERT does not notify
    | PayNotify
    | LookUp(caller: nat, target: JobId) | ReadRow(caller: nat) | WriteCancel(caller: nat)
    | Select(ids: set<JobId>) | Delete(victim: JobId) | PruneDone

  datatype Event = Loop(step: LoopStep) | Work(id: JobId, act: JobStep) | Desk(call: DeskStep) | Crash

  predicate Live(t: Table, id: JobId) {
    id in t && t[id].InFlight()
  }

  ghost predicate LoopEnabled(s: State, e: LoopStep) {
    match e
    case RequeueStale => s.loop.Booting?
    case CheckLimit => s.loop.Draining?
    case Claim(id) => s.loop.MayClaim? && OldestQueued(s.jobs, id)
    case ClaimNone => s.loop.MayClaim? && NoneQueued(s.jobs)
    case Register => s.loop.Claimed?
    case Wake => s.loop.Blocked? && s.notify
    case Tick => s.loop.Blocked?
    case Stop => s.loop.Draining? || s.loop.Blocked?
  }

  predicate WorkEnabled(s: State, id: JobId, e: JobStep) {
    id in s.workers &&
    match e
    case Reopen(_) => s.workers[id].Fresh? && s.workers[id].checkRun != 0
    case Create(newRun) => (s.workers[id] == Fresh(0) || s.workers[id].NeedsCreate?) && newRun != 0
    case Record(_) => s.workers[id].Created?
    case Fail => s.workers[id].Fresh? || s.workers[id].NeedsCreate?
    case Exit(status, _) => s.workers[id].Up? && !IsInFlight(status) && status != Success
    case Enter => s.workers[id].Up?
    case Decide(status, _) =>
      && s.workers[id].Stepping? && (status == Cancelled || (id !in s.told && (status == Success || status == Failure)))
    case Write => s.workers[id].Decided?
    case Leave => s.workers[id].Written?
  }

  ghost predicate DeskEnabled(s: State, e: DeskStep) {
    match e
    case Enqueue(input, id, _) => id !in s.issued && input.repo != "" && input.sha != ""
    case PayNotify => s.owing > 0
    case LookUp(caller, _) => caller !in s.cancels
    case ReadRow(caller) => caller in s.cancels && s.cancels[caller].Missed?
    case WriteCancel(caller) => caller in s.cancels && s.cancels[caller].Saw?
    case Select(ids) => s.prune.Idle? && forall id :: id in ids ==> id in s.jobs && !Live(s.jobs, id)
    case Delete(id) => s.prune.Deleting? && id in s.prune.selected && id !in s.prune.deleted
    case PruneDone => s.prune.Deleting? && s.prune.deleted == s.prune.selected
  }

  ghost predicate Enabled(s: State, e: Event) {
    match e
    case Loop(step) => LoopEnabled(s, step)
    case Work(id, act) => WorkEnabled(s, id, act)
    case Desk(call) => DeskEnabled(s, call)
    case Crash => true
  }

  function TallyOf(s: State, id: JobId): Tally {
    if id in s.tally then s.tally[id] else ZERO
  }

  function ApplyLoop(max: int, s: State, e: LoopStep): State
    requires LoopEnabled(s, e)
  {
    match e
    case RequeueStale =>
      s.(jobs := Requeue(s.jobs), loop := Draining,
         tally := map id | id in s.tally ::
           if id in s.jobs && s.jobs[id].status == InProgress
           then s.tally[id].(requeues := s.tally[id].requeues + 1) else s.tally[id])
    case CheckLimit => s.(loop := if |s.running| >= Limit(max) then Blocked else MayClaim)
    case Claim(id) => s.(jobs := SetStatus(s.jobs, id, InProgress), loop := Claimed(id, s.jobs[id].checkRun))
    case ClaimNone => s.(loop := Blocked)
    case Register =>
      var id, t := s.loop.id, TallyOf(s, s.loop.id);
      s.(running := s.running + {id}, told := s.told - {id}, workers := s.workers[id := Fresh(s.loop.checkRun)],
         started := s.started + {id}, loop := Draining,
         tally := s.tally[id := t.(starts := t.starts + 1)])
    case Wake => s.(notify := false, loop := Draining)
    case Tick => s.(loop := Draining)
    case Stop => s.(loop := Stopped, told := s.told + s.running)
  }

  function ApplyWork(s: State, id: JobId, e: JobStep): State
    requires WorkEnabled(s, id, e)
  {
    var t := TallyOf(s, id);
    match e
    case Reopen(ok) =>
      if ok then s.(workers := s.workers[id := Up])
      else s.(workers := s.workers[id := NeedsCreate],
              tally := s.tally[id := t.(failedReopens := t.failedReopens + 1)])
    case Create(newRun) =>
      s.(workers := s.workers[id := Created(newRun)], tally := s.tally[id := t.(created := t.created + 1)])
    case Record(stored) =>
      if stored && id in s.jobs
      then s.(jobs := SetCheckRun(s.jobs, id, s.workers[id].checkRun), workers := s.workers[id := Up],
              tally := s.tally[id := t.(recorded := true)])
      else s.(workers := s.workers[id := Up], tally := s.tally[id := t.(unrecorded := t.unrecorded + 1)])
    case Fail =>
      s.(jobs := Finish(s.jobs, id, Error, "failure", "", "", ""), workers := s.workers[id := Written])
    case Exit(status, conclusion) =>
      s.(jobs := Finish(s.jobs, id, status, conclusion, "", "", ""), workers := s.workers[id := Written])
    case Enter => s.(workers := s.workers[id := Stepping])
    case Decide(status, conclusion) => s.(workers := s.workers[id := Decided(status, conclusion)])
    case Write =>
      var d := s.workers[id];
      s.(jobs := Finish(s.jobs, id, d.status, d.conclusion, "", "", ""), workers := s.workers[id := Written])
    case Leave =>
      s.(running := s.running - {id}, told := s.told - {id}, workers := s.workers - {id}, owing := s.owing + 1)
  }

  function ApplyDesk(s: State, e: DeskStep): State
    requires DeskEnabled(s, e)
  {
    match e
    case Enqueue(input, id, confirmed) =>
      s.(jobs := s.jobs[id := NewJob(input, s.clock)], clock := s.clock + 1, issued := s.issued + {id},
         tally := s.tally[id := ZERO], owing := s.owing + (if confirmed then 1 else 0))
    case PayNotify => s.(notify := true, owing := s.owing - 1)
    case LookUp(caller, id) =>
      if id in s.running then s.(told := s.told + {id}) else s.(cancels := s.cancels[caller := Missed(id)])
    case ReadRow(caller) =>
      if Live(s.jobs, s.cancels[caller].id) then s.(cancels := s.cancels[caller := Saw(s.cancels[caller].id)])
      else s.(cancels := s.cancels - {caller})
    case WriteCancel(caller) =>
      s.(jobs := Finish(s.jobs, s.cancels[caller].id, Cancelled, "cancelled", "[]", "superseded", ""),
         cancels := s.cancels - {caller})
    case Select(ids) => s.(prune := Deleting(ids, {}))
    case Delete(id) => s.(jobs := s.jobs - {id}, prune := Deleting(s.prune.selected, s.prune.deleted + {id}))
    case PruneDone => s.(prune := Idle)
  }

  /** Everything in memory is gone; an id not yet recorded will never be. */
  function Crashed(s: State): State {
    s.(running := {}, told := {}, notify := false, loop := Booting, workers := map[], owing := 0, cancels := map[],
       prune := Idle, started := {},
       tally := map id | id in s.tally ::
         if id in s.workers && s.workers[id].Created?
         then s.tally[id].(unrecorded := s.tally[id].unrecorded + 1) else s.tally[id])
  }

  function Apply(max: int, s: State, e: Event): State
    requires Enabled(s, e)
  {
    match e
    case Loop(step) => ApplyLoop(max, s, step)
    case Work(id, act) => ApplyWork(s, id, act)
    case Desk(call) => ApplyDesk(s, call)
    case Crash => Crashed(s)
  }

  /** A database that no job has been put in yet, before the first boot. */
  ghost predicate Init(s: State) {
    s == State(map[], 0, {}, {}, false, Booting, map[], 0, map[], Idle, {}, {}, map[])
  }

  ghost predicate Run(max: int, s: State, es: seq<Event>)
    decreases es
  {
    es == [] || (Enabled(s, es[0]) && Run(max, Apply(max, s, es[0]), es[1..]))
  }

  ghost function After(max: int, s: State, es: seq<Event>): State
    requires Run(max, s, es)
    decreases es
  {
    if es == [] then s else After(max, Apply(max, s, es[0]), es[1..])
  }
}
