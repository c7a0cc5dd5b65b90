/**
 One live run per commit, over whole runs of one process: webhook deliveries,
 claims, cancellations, finishing jobs and retention, each as one step.
 */
module OneLiveRun {
  import opened Bytes
  import opened Jobs
  import opened ClaimLoop
  import opened Webhook

  datatype Step =
    | Deliver(d: Delivery, newId: JobId, confirmed: bool)
    | Claim(id: JobId)                          // and register its goroutine
    | Cancelled(id: JobId)                      // from the jobs page
    | Record(id: JobId, checkRun: nat)
    | Write(id: JobId, status: Status, conclusion: string, steps: string, error: string, skipReason: string)
    | Leave(id: JobId)
    | Prune(ids: set<JobId>)

  ghost predicate Next(w: World, s: Step, after: World) {
    match s
    case Deliver(d, id, confirmed) => id !in w.running && exists r :: Delivered(w, d, id, confirmed, after, r)
    case Claim(id) =>
      OldestQueued(w.jobs, id) && after == Started(w, id)
    case Cancelled(id) => after == Cancel(w, id)
    case Record(id, n) => id in w.running && after == w.(jobs := SetCheckRun(w.jobs, id, n))
    case Write(id, status, conclusion, steps, error, skip) =>
      && id in w.running && !IsInFlight(status)
      && after == w.(jobs := Finish(w.jobs, id, status, conclusion, steps, error, skip))
    case Leave(id) =>
      && id in w.running && (id in w.jobs ==> !w.jobs[id].InFlight())
      && after == w.(running := w.running - {id}, cancelled := w.cancelled - {id})
    case Prune(ids) =>
      && (forall id :: id in ids ==> id in w.jobs && !w.jobs[id].InFlight())
      && after == w.(jobs := w.jobs - ids)
  }

  ghost predicate Run(ws: seq<World>, steps: seq<Step>) {
    && |ws| == |steps| + 1
    && forall i :: 0 <= i < |steps| ==> Next(ws[i], steps[i], ws[i + 1])
  }

  predicate Live(w: World, id: JobId) {
    id in w.jobs && w.jobs[id].InFlight()
  }

  predicate SameCommit(w: World, a: JobId, b: JobId)
    requires a in w.jobs && b in w.jobs
  {
    w.jobs[a].app == w.jobs[b].app && w.jobs[a].repo == w.jobs[b].repo && w.jobs[a].sha == w.jobs[b].sha
  }

  predicate IsFor(j: Job, input: JobInput) {
    j.app == input.app && j.repo == input.repo && j.sha == input.sha
  }

  /** Of the in-flight jobs for one commit of one App, only the newest is not told to stop. */
  ghost predicate OneLive(w: World) {
    forall a, b :: Live(w, a) && Live(w, b) && SameCommit(w, a, b) && w.jobs[a].key < w.jobs[b].key
                   ==> a in w.cancelled
  }

  /** In-flight jobs on one branch that are not told to stop are for the same commit. */
  ghost predicate OneCommitPerRef(w: World) {
    forall a, b :: Live(w, a) && Live(w, b) && w.jobs[a].repo == w.jobs[b].repo
                   && w.jobs[a].ref == w.jobs[b].ref != "" && a !in w.cancelled && b !in w.cancelled
                   ==> w.jobs[a].sha == w.jobs[b].sha
  }

  ghost predicate Inv(w: World) {
    && WellKeyed(w.jobs, w.clock)
    && w.cancelled <= w.running
    && (forall id :: id in w.jobs && w.jobs[id].status == InProgress ==> id in w.running)
    && (forall id :: id in w.jobs && w.jobs[id].status == Queued ==> id !in w.running)
    && (forall id :: Live(w, id) ==> w.jobs[id].repo != "" && w.jobs[id].sha != "")
    && OneLive(w)
    && OneCommitPerRef(w)
  }

  /** A step that only stops jobs: rows keep their identity, and none becomes live or uncancelled. */
  ghost predicate Quieter(w: World, after: World) {
    && after.clock >= w.clock
    && after.jobs.Keys <= w.jobs.Keys
    && (forall id :: id in after.jobs ==>
          && after.jobs[id].app == w.jobs[id].app && after.jobs[id].repo == w.jobs[id].repo
          && after.jobs[id].sha == w.jobs[id].sha && after.jobs[id].ref == w.jobs[id].ref
          && after.jobs[id].key == w.jobs[id].key)
    && (forall id :: Live(after, id) ==> Live(w, id))
    && (forall id :: Live(after, id) && id in w.cancelled ==> id in after.cancelled)
  }

  lemma QuieterKeepsOneLive(w: World, after: World)
    requires Inv(w) && Quieter(w, after)
    ensures WellKeyed(after.jobs, after.clock) && OneLive(after) && OneCommitPerRef(after)
    ensures forall id :: Live(after, id) ==> after.jobs[id].repo != "" && after.jobs[id].sha != ""
  {
  }

  lemma CancelAllKeepsInv(w: World, ids: set<JobId>)
    requires Inv(w)
    ensures Inv(CancelAll(w, ids)) && Quieter(w, CancelAll(w, ids))
    ensures forall id :: id in ids && Live(CancelAll(w, ids), id) ==> id in CancelAll(w, ids).cancelled
    ensures CancelAll(w, ids).jobs.Keys == w.jobs.Keys && CancelAll(w, ids).running == w.running
  {
    var after := CancelAll(w, ids);
    assert Quieter(w, after);
    QuieterKeepsOneLive(w, after);
  }

  lemma CancelKeepsInv(w: World, id: JobId)
    requires Inv(w)
    ensures Inv(Cancel(w, id)) && Quieter(w, Cancel(w, id))
    ensures Live(Cancel(w, id), id) ==> id in Cancel(w, id).cancelled
    ensures Cancel(w, id).jobs.Keys == w.jobs.Keys && Cancel(w, id).running == w.running
  {
    CancelNone(w);
    CancelOneMore(w, {}, id);
    CancelAllKeepsInv(w, {} + {id});
  }

  /** Once room is made, nothing that the new job would compete with is left unstopped. */
  ghost predicate Room(w: World, d: Delivery) {
    && (forall a :: Live(w, a) && IsFor(w.jobs[a], InputOf(d)) ==> a in w.cancelled)
    && (forall a :: Live(w, a) && w.jobs[a].repo == d.repo && w.jobs[a].ref == d.ref != "" && a !in w.cancelled
          ==> w.jobs[a].sha == d.sha)
  }

  /** Stopping the newest run of a commit leaves none of its runs unstopped. */
  lemma RerunStopsCommit(w: World, d: Delivery, rerun: Option<JobId>, w1: World)
    requires Inv(w) && IsRerun(w, d, rerun)
    requires w1 == if rerun.Some? then Cancel(w, rerun.value) else w
    ensures Inv(w1) && w1.running == w.running
    ensures forall a :: Live(w1, a) && IsFor(w1.jobs[a], InputOf(d)) ==> a in w1.cancelled
  {
    if rerun.Some? { CancelKeepsInv(w, rerun.value); }
    forall a | Live(w1, a) && IsFor(w1.jobs[a], InputOf(d)) ensures a in w1.cancelled {
      assert Live(w, a) && a in InFlightForSuite(w.jobs, d.app, d.repo, d.sha);
      var newest := rerun.value;
      assert newest in InFlightForSuite(w.jobs, d.app, d.repo, d.sha);
      if a != newest { assert SameCommit(w, a, newest) && w.jobs[a].key < w.jobs[newest].key; }
    }
  }

  lemma SupersededIsComplete(w: World, repo: string, ref: string, sha: string, a: JobId)
    requires Live(w, a) && w.jobs[a].repo == repo && w.jobs[a].ref == ref != ""
    ensures w.jobs[a].sha == sha || a in Superseded(w, repo, ref, sha)
  {
    assert a in InFlightForRef(w.jobs, repo, ref);
  }

  lemma ClearedMakesRoom(w: World, d: Delivery, rerun: Option<JobId>)
    requires Inv(w) && IsRerun(w, d, rerun)
    ensures Inv(Cleared(w, d, rerun)) && Room(Cleared(w, d, rerun), d)
    ensures Cleared(w, d, rerun).running == w.running
  {
    var w1 := if rerun.Some? then Cancel(w, rerun.value) else w;
    RerunStopsCommit(w, d, rerun, w1);
    var ids := Superseded(w1, d.repo, d.ref, d.sha);
    var w2 := CancelAll(w1, ids);
    CancelAllKeepsInv(w1, ids);
    forall a | Live(w2, a) && w2.jobs[a].repo == d.repo && w2.jobs[a].ref == d.ref != "" && a !in w2.cancelled
      ensures w2.jobs[a].sha == d.sha
    {
      SupersededIsComplete(w1, d.repo, d.ref, d.sha, a);
    }
  }

  lemma EnqueueKeepsRows(w: World, d: Delivery, id: JobId, a: JobId)
    requires Inv(w) && Accepts(w, d, id)
    ensures a != id ==> (Live(Enqueue(w, InputOf(d), id), a) <==> Live(w, a))
    ensures Live(w, a) ==> a != id && Enqueue(w, InputOf(d), id).jobs[a] == w.jobs[a] && w.jobs[a].key < w.clock
  {
  }

  lemma EnqueueKeepsOneLive(w: World, d: Delivery, id: JobId)
    requires Inv(w) && Room(w, d) && Accepts(w, d, id)
    ensures OneLive(Enqueue(w, InputOf(d), id))
  {
    var after := Enqueue(w, InputOf(d), id);
    forall a, b | Live(after, a) && Live(after, b) && SameCommit(after, a, b) && after.jobs[a].key < after.jobs[b].key
      ensures a in after.cancelled
    {
      EnqueueKeepsRows(w, d, id, a);
      EnqueueKeepsRows(w, d, id, b);
      if a != id && b != id { assert SameCommit(w, a, b); }
    }
  }

  lemma EnqueueKeepsOneCommit(w: World, d: Delivery, id: JobId)
    requires Inv(w) && Room(w, d) && Accepts(w, d, id)
    ensures OneCommitPerRef(Enqueue(w, InputOf(d), id))
  {
    var after := Enqueue(w, InputOf(d), id);
    forall a, b | Live(after, a) && Live(after, b) && after.jobs[a].repo == after.jobs[b].repo
                  && after.jobs[a].ref == after.jobs[b].ref != "" && a !in after.cancelled && b !in after.cancelled
      ensures after.jobs[a].sha == after.jobs[b].sha
    {
      EnqueueKeepsRows(w, d, id, a);
      EnqueueKeepsRows(w, d, id, b);
    }
  }

  lemma EnqueueKeepsInv(w: World, d: Delivery, id: JobId)
    requires Inv(w) && Room(w, d) && Accepts(w, d, id) && id !in w.running
    ensures Inv(Enqueue(w, InputOf(d), id))
  {
    EnqueueKeepsOneLive(w, d, id);
    EnqueueKeepsOneCommit(w, d, id);
  }

  lemma DeliveryKeepsInv(w: World, d: Delivery, id: JobId, confirmed: bool, after: World)
    requires Inv(w) && Next(w, Deliver(d, id, confirmed), after)
    ensures Inv(after)
  {
    var r :| Delivered(w, d, id, confirmed, after, r);
    if Duplicates(w, d) == {} {
      var rerun :| IsRerun(w, d, rerun) && Handled(w, d, id, confirmed, rerun, after, r);
      ClearedMakesRoom(w, d, rerun);
      if Accepts(Cleared(w, d, rerun), d, id) { EnqueueKeepsInv(Cleared(w, d, rerun), d, id); }
    }
  }

  lemma WriteIsQuiet(w: World, s: Step, after: World)
    requires s.Write? && Next(w, s, after)
    ensures Quieter(w, after)
  {
  }

  lemma ClaimIsQuiet(w: World, s: Step, after: World)
    requires Inv(w) && s.Claim? && Next(w, s, after)
    ensures Quieter(w, after)
  {
  }

  /** The steps of the jobs themselves stop jobs, or change nothing the invariant sees. */
  lemma JobStepIsQuiet(w: World, s: Step, after: World)
    requires Inv(w) && Next(w, s, after) && !s.Deliver? && !s.Cancelled?
    ensures Quieter(w, after)
  {
    match s
    case Claim(_) => ClaimIsQuiet(w, s, after);
    case Write(_, _, _, _, _, _) => WriteIsQuiet(w, s, after);
    case Record(_, _) =>
    case Leave(_) =>
    case Prune(_) =>
  }

  lemma JobStepKeepsRunning(w: World, s: Step, after: World)
    requires Inv(w) && Next(w, s, after) && !s.Deliver? && !s.Cancelled?
    ensures after.cancelled <= after.running
    ensures forall id :: id in after.jobs && after.jobs[id].status == InProgress ==> id in after.running
    ensures forall id :: id in after.jobs && after.jobs[id].status == Queued ==> id !in after.running
  {
  }

  lemma StepKeepsInv(w: World, s: Step, after: World)
    requires Inv(w) && Next(w, s, after)
    ensures Inv(after)
  {
    if s.Deliver? {
      DeliveryKeepsInv(w, s.d, s.newId, s.confirmed, after);
    } else if s.Cancelled? {
      CancelKeepsInv(w, s.id);
    } else {
      JobStepIsQuiet(w, s, after);
      QuieterKeepsOneLive(w, after);
      JobStepKeepsRunning(w, s, after);
    }
  }

  /** A fresh process with nothing in flight. */
  ghost predicate Quiet(w: World) {
    && WellKeyed(w.jobs, w.clock) && w.running == {} && w.cancelled == {}
    && forall id :: id in w.jobs ==> !w.jobs[id].InFlight()
  }

  /** In every state of every run: one live run per commit, and one commit per branch. */
  lemma {:induction false} OneLiveRunPerCommit(ws: seq<World>, steps: seq<Step>, i: nat)
    requires Run(ws, steps) && Quiet(ws[0]) && i < |ws|
    ensures Inv(ws[i])
    ensures OneLive(ws[i]) && OneCommitPerRef(ws[i])
  {
    if i > 0 {
      OneLiveRunPerCommit(ws, steps, i - 1);
      StepKeepsInv(ws[i - 1], steps[i - 1], ws[i]);
    }
  }

  // ------------------------------------------------------------- where it stops

  /**
   A manual rerun has no guard. It keeps one live run per commit exactly when every
   in-flight job for that commit has already been told to stop.
   */
  lemma ManualRerun(w: World, input: JobInput, id: JobId)
    requires Inv(w) && id !in w.jobs
    ensures OneLive(Enqueue(w, input, id)) <==>
              forall a :: Live(w, a) && IsFor(w.jobs[a], input) ==> a in w.cancelled
  {
    var after := Enqueue(w, input, id);
    forall a | Live(w, a) ensures Live(after, a) && after.jobs[a] == w.jobs[a] {}
    assert Live(after, id);
    if OneLive(after) {
      forall a | Live(w, a) && IsFor(w.jobs[a], input) ensures a in w.cancelled {
        assert SameCommit(after, a, id);
      }
    }
    forall a | Live(after, a) && a != id ensures Live(w, a) {}
  }

  predicate OnBranchOf(w: World, a: JobId, input: JobInput) {
    Live(w, a) && w.jobs[a].repo == input.repo && w.jobs[a].ref == input.ref != ""
  }

  /** Nor does a rerun look at the branch: it may start an old commit beside the new one. */
  lemma ManualRerunOnBranch(w: World, input: JobInput, id: JobId)
    requires Inv(w) && id !in w.jobs && id !in w.running
    ensures OneCommitPerRef(Enqueue(w, input, id)) <==>
              forall a :: OnBranchOf(w, a, input) && a !in w.cancelled ==> w.jobs[a].sha == input.sha
  {
    var after := Enqueue(w, input, id);
    forall a ensures Live(after, a) <==> a == id || Live(w, a) {}
    forall a | Live(w, a) ensures after.jobs[a] == w.jobs[a] && a != id {}
    assert id !in after.cancelled && after.jobs[id].sha == input.sha;
    if OneCommitPerRef(after) {
      forall a | OnBranchOf(w, a, input) && a !in w.cancelled ensures w.jobs[a].sha == input.sha {
        assert Live(after, a) && Live(after, id);
      }
    }
  }

  /** The jobs for the commit of this one. */
  function CommitOf(w: World, id: JobId): set<JobId>
    requires id in w.jobs
  {
    InFlightForSuite(w.jobs, w.jobs[id].app, w.jobs[id].repo, w.jobs[id].sha)
  }

  /** Some run for the commit of this job has not been told to stop. */
  ghost predicate HasLiveRun(w: World, id: JobId)
    requires id in w.jobs
  {
    exists a :: Live(w, a) && SameCommit(w, a, id) && a !in w.cancelled
  }

  /** A commit has an unstopped run exactly when its newest job was not told to stop. */
  lemma NewestDecides(w: World, id: JobId, newest: JobId)
    requires Inv(w) && Live(w, id) && IsNewest(w.jobs, CommitOf(w, id), newest)
    ensures HasLiveRun(w, id) <==> newest !in w.cancelled
  {
    assert newest in CommitOf(w, id) && SameCommit(w, newest, id);
    forall a | Live(w, a) && SameCommit(w, a, id) && a != newest ensures a in w.cancelled {
      assert a in CommitOf(w, id) && SameCommit(w, a, newest);
    }
  }

  /**
   A request or a redelivery that is answered "already queued" names a job in flight. Its
   commit has an unstopped run exactly when the newest job for the commit was not told to
   stop. For a first request that is the job named, and its commit the one asked for.
   */
  lemma AnsweredWithADyingRun(w: World, d: Delivery, id: JobId, confirmed: bool, after: World, r: Response,
                              newest: JobId)
    requires Inv(w) && Delivered(w, d, id, confirmed, after, r) && r.AlreadyQueued?
    requires r.job in w.jobs && IsNewest(w.jobs, CommitOf(w, r.job), newest)
    ensures after == w && Live(w, r.job)
    ensures HasLiveRun(after, r.job) <==> newest !in w.cancelled
    ensures InFlightForDelivery(w.jobs, d.id) == {} ==> IsFor(w.jobs[r.job], InputOf(d)) && r.job == newest
    ensures InFlightForDelivery(w.jobs, d.id) != {} ==> d.id != "" && w.jobs[r.job].delivery == d.id
  {
    assert Duplicates(w, d) != {} && r.job in Duplicates(w, d);
    NewestDecides(w, r.job, newest);
    if InFlightForDelivery(w.jobs, d.id) == {} {
      assert CommitOf(w, r.job) == InFlightForSuite(w.jobs, d.app, d.repo, d.sha);
      assert w.jobs[r.job].key == w.jobs[newest].key;
    }
  }

  /** There is such a newest job, so the above speaks of every such answer. */
  lemma AnsweredHasNewest(w: World, d: Delivery, id: JobId, confirmed: bool, after: World, r: Response)
    returns (newest: JobId)
    requires Inv(w) && Delivered(w, d, id, confirmed, after, r) && r.AlreadyQueued?
    ensures r.job in w.jobs && IsNewest(w.jobs, CommitOf(w, r.job), newest)
  {
    assert r.job in Duplicates(w, d);
    assert r.job in CommitOf(w, r.job);
    NewestExists(w.jobs, CommitOf(w, r.job));
    newest :| IsNewest(w.jobs, CommitOf(w, r.job), newest);
  }

  /** The process dies and starts again: running rows are queued, pending cancels are gone. */
  function Reboot(w: World): World {
    World(Requeue(w.jobs), w.clock, {}, {})
  }

  /** A crash forgets cancels: after it there is one live run per commit only if there was one at all. */
  lemma CrashForgetsCancels(w: World)
    requires Inv(w)
    ensures OneLive(Reboot(w)) <==>
              forall a, b :: Live(w, a) && Live(w, b) && SameCommit(w, a, b) ==> a == b
  {
    var after := Reboot(w);
    forall a ensures Live(w, a) <==> Live(after, a) {}
    if OneLive(after) {
      forall a, b | Live(w, a) && Live(w, b) && SameCommit(w, a, b) ensures a == b {
        assert SameCommit(after, a, b) && SameCommit(after, b, a);
      }
    }
  }

  predicate SameBranch(w: World, a: JobId, b: JobId)
    requires a in w.jobs && b in w.jobs
  {
    w.jobs[a].repo == w.jobs[b].repo && w.jobs[a].ref == w.jobs[b].ref != ""
  }

  /** A crash forgets on branches too: there must have been one commit in flight at all. */
  lemma CrashForgetsBranches(w: World)
    ensures OneCommitPerRef(Reboot(w)) <==>
              forall a, b :: Live(w, a) && Live(w, b) && SameBranch(w, a, b) ==> w.jobs[a].sha == w.jobs[b].sha
  {
    var after := Reboot(w);
    forall a ensures Live(w, a) <==> Live(after, a) {}
  }

  // --------------------------------------------------- runs that get to where it stops

  /** Some run of a fresh process ends in `w`. */
  ghost predicate Reached(w: World) {
    exists ws, steps :: Run(ws, steps) && Quiet(ws[0]) && ws[|ws| - 1] == w
  }

  lemma ReachedNext(w: World, s: Step, after: World)
    requires Reached(w) && Next(w, s, after)
    ensures Reached(after)
  {
    var ws, steps :| Run(ws, steps) && Quiet(ws[0]) && ws[|ws| - 1] == w;
    var more, all := ws + [after], steps + [s];
    forall i | 0 <= i < |all| ensures Next(more[i], all[i], more[i + 1]) {
      if i < |steps| { assert Next(ws[i], steps[i], ws[i + 1]); }
    }
    assert Run(more, all) && more[0] == ws[0] && more[|more| - 1] == after;
  }

  lemma ReachedKeepsInv(w: World)
    requires Reached(w)
    ensures Inv(w)
  {
    var ws, steps :| Run(ws, steps) && Quiet(ws[0]) && ws[|ws| - 1] == w;
    OneLiveRunPerCommit(ws, steps, |ws| - 1);
  }

  /** A push of `sha` to one branch, as the delivery `id`. */
  function Push(id: string, sha: string): Delivery {
    Delivery(id, 1, "r", sha, "main", false, "")
  }

  /** The first push is always of the same commit. */
  const FIRST := Push("d1", "one")

  /** The first push runs, told to stop; the second is queued. */
  function Pushed(sha: string): World {
    World(map["a" := NewJob(InputOf(FIRST), 0).(status := InProgress), "b" := NewJob(InputOf(Push("d2", sha)), 1)],
          2, {"a"}, {"a"})
  }

  lemma FirstPush() returns (w: World)
    ensures Reached(w) && w == World(map["a" := NewJob(InputOf(FIRST), 0)], 1, {}, {})
  {
    var start := World(map[], 0, {}, {});
    assert Run([start], []) && Quiet([start][0]) && [start][0] == start;
    var d := FIRST;
    CancelNone(start);
    assert Superseded(start, d.repo, d.ref, d.sha) == {};
    w := Enqueue(start, InputOf(d), "a");
    assert Handled(start, d, "a", true, None, w, Enqueued("a"));
    assert IsRerun(start, d, None) && Delivered(start, d, "a", true, w, Enqueued("a"));
    ReachedNext(start, Deliver(d, "a", true), w);
  }

  lemma FirstPushRuns() returns (w: World)
    ensures Reached(w)
    ensures w == World(map["a" := NewJob(InputOf(FIRST), 0).(status := InProgress)], 1, {"a"}, {})
  {
    var queued := FirstPush();
    assert IsQueued(queued.jobs, "a") && OldestQueued(queued.jobs, "a");
    w := Started(queued, "a");
    ReachedNext(queued, Claim("a"), w);
  }

  /** Whatever the second push is for, it stops the first one's run. */
  lemma SecondPush(sha: string)
    requires sha != ""
    ensures Reached(Pushed(sha))
  {
    var w := FirstPushRuns();
    var d := Push("d2", sha);
    assert Duplicates(w, d) == {};
    var rerun: Option<JobId> := if sha == "one" then Some("a") else None;
    assert IsRerun(w, d, rerun) by { assert w.jobs["a"].InFlight(); }
    SecondPushStops(w, sha, rerun);
    var after := Pushed(sha);
    assert Enqueue(w.(cancelled := {"a"}), InputOf(d), "b") == after;
    assert Handled(w, d, "b", true, rerun, after, Enqueued("b"));
    assert Delivered(w, d, "b", true, after, Enqueued("b"));
    ReachedNext(w, Deliver(d, "b", true), after);
  }

  lemma SecondPushStops(w: World, sha: string, rerun: Option<JobId>)
    requires w == World(map["a" := NewJob(InputOf(FIRST), 0).(status := InProgress)], 1, {"a"}, {})
    requires rerun == if sha == "one" then Some("a") else None
    ensures Cleared(w, Push("d2", sha), rerun) == w.(cancelled := {"a"})
  {
    var d := Push("d2", sha);
    var w1 := if rerun.Some? then Cancel(w, rerun.value) else w;
    assert InFlightForRef(w1.jobs, d.repo, d.ref) == {"a"};
    assert Superseded(w1, d.repo, d.ref, d.sha) == if sha == "one" then {} else {"a"};
    assert CancelAll(w1, Superseded(w1, d.repo, d.ref, d.sha)).jobs == w.jobs;
  }

  /**
   After pushes of two commits: a rerun of the second gives its commit two live runs, a
   rerun of the first gives the branch two commits.
   */
  lemma RerunGoesWrong()
    ensures Reached(Pushed("two"))
    ensures !OneLive(Enqueue(Pushed("two"), InputOf(Push("d2", "two")), "c"))
    ensures !OneCommitPerRef(Enqueue(Pushed("two"), InputOf(FIRST), "c"))
  {
    SecondPush("two");
    var w, first, second := Pushed("two"), InputOf(FIRST), InputOf(Push("d2", "two"));
    ReachedKeepsInv(w);
    assert Live(w, "b") && IsFor(w.jobs["b"], second) && OnBranchOf(w, "b", first) && w.jobs["b"].sha != first.sha;
    ManualRerun(w, second, "c");
    ManualRerunOnBranch(w, first, "c");
  }

  /** A request for the first, or its redelivery, is then answered with the run that was told to stop. */
  lemma AnswerGoesWrong(d: Delivery)
    requires d == Push("d3", "one").(requested := true) || d == FIRST
    ensures
      var w := Pushed("two");
      Reached(w) && Delivered(w, d, "c", true, w, AlreadyQueued("a")) && !HasLiveRun(w, "a")
  {
    SecondPush("two");
    var w := Pushed("two");
    assert InFlightForDelivery(w.jobs, d.id) == if d == FIRST then {"a"} else {};
    assert Duplicates(w, d) == {"a"};
    assert IsNewest(w.jobs, {"a"}, "a");
  }

  /** A crash leaves both runs, for two commits of a branch or for one commit pushed twice. */
  lemma CrashGoesWrong()
    ensures Reached(Pushed("two")) && !OneCommitPerRef(Reboot(Pushed("two")))
    ensures Reached(Pushed("one")) && !OneLive(Reboot(Pushed("one")))
  {
    SecondPush("two");
    SecondPush("one");
    BothLive("two");
    BothLive("one");
    ReachedKeepsInv(Pushed("one"));
    CrashForgetsBranches(Pushed("two"));
    CrashForgetsCancels(Pushed("one"));
  }

  lemma BothLive(sha: string)
    ensures
      var w := Pushed(sha);
      && Live(w, "a") && Live(w, "b") && SameBranch(w, "a", "b")
      && w.jobs["a"].sha == "one" && w.jobs["b"].sha == sha && (sha == "one" ==> SameCommit(w, "a", "b"))
  {
  }

  /** What a delivery finds and leaves when nothing is in flight: no duplicate, and no change. */
  lemma NothingToClear(d: Delivery)
    ensures
      var start := World(map[], 0, {}, {});
      Duplicates(start, d) == {} && IsRerun(start, d, None) && Cleared(start, d, None) == start
  {
    var start := World(map[], 0, {}, {});
    CancelNone(start);
    assert Superseded(start, d.repo, d.ref, d.sha) == {};
  }

  /**
   The guards of a delivery and its enqueue are separate statements. Enqueued after
   another delivery slipped in between, a job is as unguarded as a manual rerun: here
   both deliveries find nothing in flight, and together break one promise or the other.
   */
  lemma RacingDeliveries(sha: string)
    requires sha == "one" || sha == "two"
    ensures
      var start, d := World(map[], 0, {}, {}), Push("d2", sha);
      var first := Enqueue(start, InputOf(FIRST), "a");
      && Duplicates(start, d) == {} && IsRerun(start, d, None) && Cleared(start, d, None) == start
      && Reached(first)
      && (sha == "one" ==> !OneLive(Enqueue(first, InputOf(d), "b")))
      && (sha == "two" ==> !OneCommitPerRef(Enqueue(first, InputOf(d), "b")))
  {
    var d := Push("d2", sha);
    NothingToClear(d);
    var first := FirstPush();
    ReachedKeepsInv(first);
    assert Live(first, "a") && OnBranchOf(first, "a", InputOf(d)) && first.jobs["a"].sha == "one";
    if sha == "one" {
      ManualRerun(first, InputOf(d), "b");
    } else {
      ManualRerunOnBranch(first, InputOf(d), "b");
    }
  }
}
