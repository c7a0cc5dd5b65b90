/**
 From a verified delivery to at most one queued job: the duplicate guards and
 cancellations of internal/api/webhook.go.
 */
module Webhook {
  import opened Bytes
  import opened Jobs
  import opened ClaimLoop

  /** What is left of a delivery after parsing, allow-listing and the fork decision. */
  datatype Delivery = Delivery(id: string, app: int, repo: string, sha: string, ref: string,
                               requested: bool, skipReason: string)

  datatype Response = AlreadyQueued(job: JobId) | Enqueued(job: JobId) | ServerError

  // -------------------------------------------------------------- specification

  function CancelledRow(j: Job): Job {
    j.(status := Cancelled, conclusion := "cancelled", steps := "[]", error := "superseded")
  }

  /** Cancelling several jobs, in any order. */
  function CancelAll(w: World, ids: set<JobId>): World {
    w.(jobs := map id | id in w.jobs ::
         if id in ids && id !in w.running && w.jobs[id].InFlight() then CancelledRow(w.jobs[id]) else w.jobs[id],
       cancelled := w.cancelled + ids * w.running)
  }

  /** The jobs a new commit on this ref makes pointless. */
  function Superseded(w: World, repo: string, ref: string, sha: string): set<JobId> {
    if ref == "" then {} else set id | id in InFlightForRef(w.jobs, repo, ref) && w.jobs[id].sha != sha
  }

  /** The job a delivery is answered with instead of a new one. */
  function Duplicates(w: World, d: Delivery): set<JobId> {
    var same := InFlightForDelivery(w.jobs, d.id);
    if same != {} then same
    else if d.requested then InFlightForSuite(w.jobs, d.app, d.repo, d.sha)
    else {}
  }

  /** The world once room has been made for a new job, `rerun` being the run it replaces. */
  function Cleared(w: World, d: Delivery, rerun: Option<JobId>): World {
    var w1 := if rerun.Some? then Cancel(w, rerun.value) else w;
    CancelAll(w1, Superseded(w1, d.repo, d.ref, d.sha))
  }

  function InputOf(d: Delivery): JobInput {
    JobInput(d.app, d.repo, d.sha, d.ref, d.id, d.skipReason)
  }

  function Enqueue(w: World, input: JobInput, id: JobId): World {
    w.(jobs := w.jobs[id := NewJob(input, w.clock)], clock := w.clock + 1)
  }

  predicate Accepts(w: World, d: Delivery, id: JobId) {
    d.repo != "" && d.sha != "" && id !in w.jobs
  }

  /** The newest in-flight job for this commit, if there is one. */
  ghost predicate IsRerun(w: World, d: Delivery, rerun: Option<JobId>) {
    var suite := InFlightForSuite(w.jobs, d.app, d.repo, d.sha);
    match rerun
    case None => suite == {}
    case Some(id) => IsNewest(w.jobs, suite, id)
  }

  /** One delivery: `id` is the random id a new job would get, `confirmed` how its insertion ends. */
  ghost predicate Delivered(w: World, d: Delivery, id: JobId, confirmed: bool, after: World, r: Response) {
    if Duplicates(w, d) != {} then
      after == w && r.AlreadyQueued? && IsNewest(w.jobs, Duplicates(w, d), r.job)
    else
      exists rerun :: IsRerun(w, d, rerun) && Handled(w, d, id, confirmed, rerun, after, r)
  }

  /** A job that was inserted and not confirmed stays queued, and the answer is an error. */
  ghost predicate Handled(w: World, d: Delivery, id: JobId, confirmed: bool, rerun: Option<JobId>, after: World,
                          r: Response)
  {
    var w2 := Cleared(w, d, rerun);
    if Accepts(w2, d, id) then
      && after == Enqueue(w2, InputOf(d), id)
      && r == if confirmed then Enqueued(id) else ServerError
    else after == w2 && r == ServerError
  }

  // -------------------------------------------------- a delivery, job by job

  /** A job's row that has not ended. */
  predicate Unfinished(w: World, j: JobId) {
    j in w.jobs && (w.jobs[j].status == Queued || w.jobs[j].status == InProgress)
  }

  /** The jobs a new one makes pointless: another commit's on its branch, and the newest for its own commit. */
  ghost predicate MadePointless(w: World, d: Delivery, j: JobId) {
    && Unfinished(w, j)
    && (|| (w.jobs[j].repo == d.repo && w.jobs[j].ref == d.ref != "" && w.jobs[j].sha != d.sha)
        || (&& d.repo != "" && d.sha != "" && IsRunOf(w.jobs[j], d.app, d.repo, d.sha)
            && forall k :: Unfinished(w, k) && IsRunOf(w.jobs[k], d.app, d.repo, d.sha)
                           ==> w.jobs[k].key <= w.jobs[j].key))
  }

  lemma StoppedIsPointless(w: World, d: Delivery, rerun: Option<JobId>, j: JobId)
    requires WellKeyed(w.jobs, w.clock) && IsRerun(w, d, rerun)
    ensures
      var w1 := if rerun.Some? then Cancel(w, rerun.value) else w;
      MadePointless(w, d, j) <==> rerun == Some(j) || j in Superseded(w1, d.repo, d.ref, d.sha)
  {
    var suite := InFlightForSuite(w.jobs, d.app, d.repo, d.sha);
    forall k ensures k in suite <==> d.repo != "" && d.sha != "" && Unfinished(w, k)
                                     && IsRunOf(w.jobs[k], d.app, d.repo, d.sha)
    {}
    if rerun.Some? { assert rerun.value in suite; }
    if j in suite && rerun.Some? && w.jobs[j].key == w.jobs[rerun.value].key { assert j == rerun.value; }
  }

  /** Exactly those jobs are stopped: finished if they were only queued, told to stop if they run. */
  lemma ClearedJobByJob(w: World, d: Delivery, rerun: Option<JobId>)
    requires WellKeyed(w.jobs, w.clock) && IsRerun(w, d, rerun)
    ensures
      var after := Cleared(w, d, rerun);
      && after.jobs.Keys == w.jobs.Keys && after.clock == w.clock && after.running == w.running
      && (forall j :: j in w.jobs ==>
            after.jobs[j] == if MadePointless(w, d, j) && j !in w.running
                             then w.jobs[j].(status := Cancelled, conclusion := "cancelled", steps := "[]",
                                             error := "superseded")
                             else w.jobs[j])
      && (forall j :: j in after.cancelled <==>
            j in w.cancelled || (j in w.running && MadePointless(w, d, j)))
  {
    var after := Cleared(w, d, rerun);
    forall j ensures
      && (j in w.jobs ==>
            after.jobs[j] == if MadePointless(w, d, j) && j !in w.running
                             then w.jobs[j].(status := Cancelled, conclusion := "cancelled", steps := "[]",
                                             error := "superseded")
                             else w.jobs[j])
      && (j in after.cancelled <==> j in w.cancelled || (j in w.running && MadePointless(w, d, j)))
    {
      StoppedIsPointless(w, d, rerun, j);
      if rerun == Some(j) { assert j in InFlightForSuite(w.jobs, d.app, d.repo, d.sha); }
    }
  }

  /** The answer "already queued", and when it is given. */
  lemma AnswerIsDuplicate(w: World, d: Delivery, id: JobId, confirmed: bool, after: World, r: Response)
    requires Delivered(w, d, id, confirmed, after, r)
    ensures r.AlreadyQueued? <==>
              || (exists j :: Unfinished(w, j) && d.id != "" && w.jobs[j].delivery == d.id)
              || (d.requested && d.repo != "" && d.sha != ""
                  && exists j :: Unfinished(w, j) && IsRunOf(w.jobs[j], d.app, d.repo, d.sha))
    ensures r.AlreadyQueued? ==>
              && after == w && Unfinished(w, r.job)
              && (if exists j :: Unfinished(w, j) && d.id != "" && w.jobs[j].delivery == d.id
                  then w.jobs[r.job].delivery == d.id else IsRunOf(w.jobs[r.job], d.app, d.repo, d.sha))
              && (forall j :: Unfinished(w, j) && w.jobs[j].delivery == w.jobs[r.job].delivery == d.id
                    ==> d.id == "" || w.jobs[j].key <= w.jobs[r.job].key)
              && ((forall j :: Unfinished(w, j) ==> d.id == "" || w.jobs[j].delivery != d.id) ==>
                    forall j :: Unfinished(w, j) && IsRunOf(w.jobs[j], d.app, d.repo, d.sha)
                      ==> w.jobs[j].key <= w.jobs[r.job].key)
  {
    var same, suite := InFlightForDelivery(w.jobs, d.id), InFlightForSuite(w.jobs, d.app, d.repo, d.sha);
    forall j ensures j in same <==> Unfinished(w, j) && d.id != "" && w.jobs[j].delivery == d.id {}
    forall j ensures j in suite <==> d.repo != "" && d.sha != "" && Unfinished(w, j)
                                     && IsRunOf(w.jobs[j], d.app, d.repo, d.sha)
    {}
    if Duplicates(w, d) != {} {
      assert r.job in Duplicates(w, d);
    }
  }

  /** A new job's row is the delivery's, field by field. */
  lemma NewRow(w: World, d: Delivery, id: JobId, confirmed: bool, after: World, r: Response)
    requires Delivered(w, d, id, confirmed, after, r) && r.Enqueued?
    ensures r.job == id && id !in w.jobs && id in after.jobs
    ensures
      var row := after.jobs[id];
      && row.app == d.app && row.repo == d.repo && row.sha == d.sha && row.ref == d.ref
      && row.delivery == d.id && row.skipReason == d.skipReason
      && row.status == Queued && row.checkRun == 0 && row.key == w.clock
  {
    var rerun :| IsRerun(w, d, rerun) && Handled(w, d, id, confirmed, rerun, after, r);
  }

  /** What is not a duplicate is inserted when it has a repository and a commit, and answered so if all went well. */
  lemma WhenInserted(w: World, d: Delivery, id: JobId, confirmed: bool, after: World, r: Response)
    requires Delivered(w, d, id, confirmed, after, r) && !r.AlreadyQueued?
    ensures
      var inserted := d.repo != "" && d.sha != "" && id !in w.jobs;
      && (r.Enqueued? <==> inserted && confirmed)
      && after.jobs.Keys == w.jobs.Keys + (if inserted then {id} else {})
  {
    var rerun :| IsRerun(w, d, rerun) && Handled(w, d, id, confirmed, rerun, after, r);
    assert Cleared(w, d, rerun).jobs.Keys == w.jobs.Keys;
  }

  lemma AfterHandled(c: World, d: Delivery, id: JobId, after: World)
    requires after == if Accepts(c, d, id) then Enqueue(c, InputOf(d), id) else c
    ensures after.running == c.running && after.cancelled == c.cancelled
    ensures forall j :: j in c.jobs ==> j in after.jobs && after.jobs[j] == c.jobs[j]
  {
  }

  /** A delivery that is no duplicate stops exactly the jobs it makes pointless, whatever its answer. */
  lemma OtherRows(w: World, d: Delivery, id: JobId, confirmed: bool, after: World, r: Response)
    requires WellKeyed(w.jobs, w.clock) && Delivered(w, d, id, confirmed, after, r) && !r.AlreadyQueued?
    ensures after.running == w.running
    ensures forall j :: j in w.jobs ==>
              && j in after.jobs
              && after.jobs[j] == if MadePointless(w, d, j) && j !in w.running
                                  then w.jobs[j].(status := Cancelled, conclusion := "cancelled", steps := "[]",
                                                  error := "superseded")
                                  else w.jobs[j]
    ensures forall j :: j in after.cancelled <==>
              j in w.cancelled || (j in w.running && MadePointless(w, d, j))
  {
    var rerun :| IsRerun(w, d, rerun) && Handled(w, d, id, confirmed, rerun, after, r);
    ClearedJobByJob(w, d, rerun);
    AfterHandled(Cleared(w, d, rerun), d, id, after);
  }

  /** Cancelling one more job after a set of them. */
  lemma CancelOneMore(w: World, ids: set<JobId>, id: JobId)
    ensures Cancel(CancelAll(w, ids), id) == CancelAll(w, ids + {id})
  {
    var a, b := Cancel(CancelAll(w, ids), id), CancelAll(w, ids + {id});
    assert a.cancelled == b.cancelled;
    assert a.jobs.Keys == b.jobs.Keys == w.jobs.Keys;
    forall j | j in w.jobs ensures a.jobs[j] == b.jobs[j] {}
    assert a.jobs == b.jobs;
  }

  lemma CancelNone(w: World)
    ensures CancelAll(w, {}) == w
  {
    assert CancelAll(w, {}).jobs == w.jobs;
  }

  /** The jobs in a listing that are for another commit. */
  function Others(rows: Table, ids: seq<JobId>, sha: string): set<JobId> {
    set id | id in ids && id in rows && rows[id].sha != sha
  }

  lemma OthersSnoc(rows: Table, ids: seq<JobId>, i: nat, sha: string)
    requires i < |ids| && ids[i] in rows
    ensures rows[ids[i]].sha == sha ==> Others(rows, ids[..i + 1], sha) == Others(rows, ids[..i], sha)
    ensures rows[ids[i]].sha != sha ==> Others(rows, ids[..i + 1], sha) == Others(rows, ids[..i], sha) + {ids[i]}
  {
    assert ids[..i + 1] == ids[..i] + [ids[i]];
  }

  lemma OthersOfRef(w: World, ids: seq<JobId>, repo: string, ref: string, sha: string)
    requires ref != "" && forall id :: id in ids <==> id in InFlightForRef(w.jobs, repo, ref)
    ensures Others(w.jobs, ids, sha) == Superseded(w, repo, ref, sha)
  {
  }

  // --------------------------------------------------------- the imperative form

  class Server {
    const store: Store
    const runner: Runner

    constructor (runner: Runner)
      ensures this.runner == runner && store == runner.store
    {
      this.runner := runner;
      this.store := runner.store;
    }

    /** Cancels every in-flight job on the ref that is for another commit, and no other. */
    method CancelSuperseded(repo: string, ref: string, sha: string)
      requires store == runner.store && store.Valid()
      modifies store`jobs, runner`cancelled
      ensures store.Valid()
      ensures runner.Value() == CancelAll(old(runner.Value()), Superseded(old(runner.Value()), repo, ref, sha))
    {
      if ref == "" {
        CancelNone(runner.Value());
        return;
      }
      var ids := store.InFlightJobsForRef(repo, ref);
      OthersOfRef(runner.Value(), ids, repo, ref, sha);
      CancelOthers(ids, store.jobs, sha);
    }

    /** The loop of `CancelSuperseded` over the rows it read. */
    method CancelOthers(ids: seq<JobId>, rows: Table, sha: string)
      requires store == runner.store && store.Valid()
      requires forall id :: id in ids ==> id in rows
      modifies store`jobs, runner`cancelled
      ensures store.Valid()
      ensures runner.Value() == CancelAll(old(runner.Value()), Others(rows, ids, sha))
    {
      ghost var w := runner.Value();
      CancelNone(w);
      for i := 0 to |ids|
        invariant store.Valid()
        invariant runner.Value() == CancelAll(w, Others(rows, ids[..i], sha))
      {
        OthersSnoc(rows, ids, i, sha);
        if rows[ids[i]].sha == sha {
          continue;
        }
        CancelOneMore(w, Others(rows, ids[..i], sha), ids[i]);
        var _ := runner.CancelJob(ids[i]);
      }
      assert ids[..|ids|] == ids;
    }

    method HandleWebhook(d: Delivery, newId: JobId, confirmed: bool) returns (r: Response)
      requires store == runner.store && store.Valid()
      modifies store, runner`cancelled, runner`notify
      ensures store.Valid()
      ensures Delivered(old(runner.Value()), d, newId, confirmed, runner.Value(), r)
      ensures r.Enqueued? ==> runner.notify
      ensures r.Enqueued? ==>
                && r.job == newId && newId in store.jobs && newId !in old(store.jobs)
                && store.jobs[newId].app == d.app && store.jobs[newId].repo == d.repo
                && store.jobs[newId].sha == d.sha && store.jobs[newId].ref == d.ref
                && store.jobs[newId].delivery == d.id && store.jobs[newId].skipReason == d.skipReason
                && store.jobs[newId].status == Queued && store.jobs[newId].checkRun == 0
      ensures !r.Enqueued? ==> runner.notify == old(runner.notify)
    {
      ghost var w := runner.Value();
      var existing := store.InFlightJobForDelivery(d.id);
      if existing.Some? {
        return AlreadyQueued(existing.value);
      }
      existing := store.InFlightJobForSuite(d.app, d.repo, d.sha);
      if existing.Some? {
        if d.requested {
          return AlreadyQueued(existing.value);
        }
        var _ := runner.CancelJob(existing.value);
      }
      assert Duplicates(w, d) == {} && IsRerun(w, d, existing);
      CancelSuperseded(d.repo, d.ref, d.sha);
      assert runner.Value() == Cleared(w, d, existing);
      var ok := store.EnqueueJob(InputOf(d), newId, confirmed);
      if !ok {
        assert Handled(w, d, newId, confirmed, existing, runner.Value(), ServerError);
        return ServerError;
      }
      assert Handled(w, d, newId, confirmed, existing, runner.Value(), Enqueued(newId));
      runner.Notify();
      r := Enqueued(newId);
    }
  }
}
