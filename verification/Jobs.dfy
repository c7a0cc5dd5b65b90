/**
 The jobs table of internal/store/jobs.go. Each SQL statement is one step on a map
 of rows; `created_at` is an abstract key that only grows.
 */
module Jobs {
  import opened Bytes

  /** A random id, compared for equality only. */
  type JobId = string

  datatype Status = Queued | InProgress | Success | Failure | Skipped | Cancelled | Error

  predicate IsInFlight(s: Status) {
    s == Queued || s == InProgress
  }

  datatype Job = Job(app: int, repo: string, sha: string, ref: string, delivery: string,
                     key: nat, status: Status, checkRun: nat,
                     conclusion: string, steps: string, error: string, skipReason: string)
  {
    predicate InFlight() {
      IsInFlight(status)
    }
  }

  /** What the enqueuer knows. */
  datatype JobInput = JobInput(app: int, repo: string, sha: string, ref: string, delivery: string, skipReason: string)

  type Table = map<JobId, Job>

  /** A limit below one counts as one. */
  function Limit(max: int): (n: nat)
    ensures n == Max(max, 1)
  {
    if max < 1 then 1 else max
  }

  // ------------------------------------------------------- statements as functions

  function NewJob(input: JobInput, key: nat): Job {
    Job(input.app, input.repo, input.sha, input.ref, input.delivery, key, Queued, 0, "", "[]", "", input.skipReason)
  }

  function SetStatus(t: Table, id: JobId, status: Status): Table {
    if id in t then t[id := t[id].(status := status)] else t
  }

  function SetCheckRun(t: Table, id: JobId, checkRun: nat): Table {
    if id in t then t[id := t[id].(checkRun := checkRun)] else t
  }

  /** An empty reason leaves the skip column as it is. */
  function Finish(t: Table, id: JobId, status: Status, conclusion: string, steps: string, error: string,
                  skipReason: string): Table
  {
    if id !in t then t
    else
      var steps := if steps == "" then "[]" else steps;
      var j := t[id].(status := status, conclusion := conclusion, steps := steps, error := error);
      t[id := if skipReason == "" then j else j.(skipReason := skipReason)]
  }

  function Requeue(t: Table): Table {
    map id | id in t :: if t[id].status == InProgress then t[id].(status := Queued) else t[id]
  }

  predicate IsQueued(t: Table, id: JobId) {
    id in t && t[id].status == Queued
  }

  ghost predicate OldestQueued(t: Table, id: JobId) {
    IsQueued(t, id) && forall other :: IsQueued(t, other) ==> t[id].key <= t[other].key
  }

  ghost predicate NoneQueued(t: Table) {
    forall id :: !IsQueued(t, id)
  }

  function InFlightForDelivery(t: Table, delivery: string): set<JobId> {
    set id | id in t && delivery != "" && t[id].delivery == delivery && t[id].InFlight()
  }

  function InFlightForSuite(t: Table, app: int, repo: string, sha: string): set<JobId> {
    set id | id in t && repo != "" && sha != "" && t[id].app == app && t[id].repo == repo && t[id].sha == sha
             && t[id].InFlight()
  }

  predicate IsRunOf(j: Job, app: int, repo: string, sha: string) {
    j.app == app && j.repo == repo && j.sha == sha
  }

  function InFlightForRef(t: Table, repo: string, ref: string): set<JobId> {
    set id | id in t && t[id].repo == repo && t[id].ref == ref && t[id].InFlight()
  }

  ghost predicate IsNewest(t: Table, ids: set<JobId>, id: JobId)
    requires ids <= t.Keys
  {
    id in ids && forall other :: other in ids ==> t[other].key <= t[id].key
  }

  /** Every key was drawn once, before the clock's value. */
  ghost predicate WellKeyed(t: Table, clock: nat) {
    && (forall id :: id in t ==> t[id].key < clock)
    && (forall a, b :: a in t && b in t && t[a].key == t[b].key ==> a == b)
  }

  lemma {:induction false} NewestExists(t: Table, ids: set<JobId>)
    requires ids <= t.Keys && ids != {}
    ensures exists id :: IsNewest(t, ids, id)
    decreases |ids|
  {
    var x: JobId :| x in ids;
    if other :| other in ids && other != x {
      assert other in ids - {x};
      NewestExists(t, ids - {x});
      var y :| IsNewest(t, ids - {x}, y);
      var z := if t[x].key > t[y].key then x else y;
      forall o | o in ids ensures t[o].key <= t[z].key {
        if o != x { assert o in ids - {x}; }
      }
      assert IsNewest(t, ids, z);
    } else {
      assert IsNewest(t, ids, x);
    }
  }

  /** `id` has the smallest key in `ids`. */
  ghost predicate IsOldest(t: Table, ids: set<JobId>, id: JobId)
    requires ids <= t.Keys
  {
    id in ids && forall other :: other in ids ==> t[id].key <= t[other].key
  }

  lemma {:induction false} OldestExists(t: Table, ids: set<JobId>)
    requires ids <= t.Keys && ids != {}
    ensures exists id :: IsOldest(t, ids, id)
    decreases |ids|
  {
    var x: JobId :| x in ids;
    if other :| other in ids && other != x {
      assert other in ids - {x};
      OldestExists(t, ids - {x});
      var y :| IsOldest(t, ids - {x}, y);
      var z := if t[x].key < t[y].key then x else y;
      forall o | o in ids ensures t[z].key <= t[o].key {
        if o != x { assert o in ids - {x}; }
      }
      assert IsOldest(t, ids, z);
    } else {
      assert IsOldest(t, ids, x);
    }
  }

  function QueuedIds(t: Table): set<JobId> {
    set id | id in t && t[id].status == Queued
  }

  lemma OldestOfQueued(t: Table, id: JobId)
    ensures IsQueued(t, id) <==> id in QueuedIds(t)
    ensures IsOldest(t, QueuedIds(t), id) ==> OldestQueued(t, id)
    ensures QueuedIds(t) == {} ==> NoneQueued(t)
  {
    forall other ensures IsQueued(t, other) <==> other in QueuedIds(t) {}
  }

  /** A deletion pass over `ids` that stops before the `failAt`-th DELETE. */
  function Deleted(ids: seq<JobId>, failAt: nat): set<JobId> {
    set i | 0 <= i < |ids| && i < failAt :: ids[i]
  }

  // --------------------------------------------------------- the imperative form

  class Store {
    var jobs: Table
    /** The next `created_at`. */
    var clock: nat

    ghost predicate Valid()
      reads this
    {
      WellKeyed(jobs, clock)
    }

    constructor ()
      ensures Valid() && jobs == map[]
    {
      jobs, clock := map[], 0;
    }

    /**
     Inserts nothing for a job without repo or commit, or under an id already taken.
     With the row inserted it still fails unless `confirmed`: the delivery is recorded
     and the row read back by statements of their own.
     */
    method EnqueueJob(input: JobInput, id: JobId, confirmed: bool) returns (ok: bool)
      requires Valid()
      modifies this
      ensures Valid() && clock >= old(clock)
      ensures
        var inserted := input.repo != "" && input.sha != "" && id !in old(jobs);
        && jobs == (if inserted then old(jobs)[id := NewJob(input, old(clock))] else old(jobs))
        && clock == (if inserted then old(clock) + 1 else old(clock))
        && (ok <==> inserted && confirmed)
        && (inserted ==>
              && jobs.Keys == old(jobs).Keys + {id}
              && (forall other :: other in old(jobs) ==> jobs[other] == old(jobs)[other])
              && jobs[id].status == Queued && jobs[id].key == old(clock) && jobs[id].checkRun == 0
              && jobs[id].app == input.app && jobs[id].repo == input.repo && jobs[id].sha == input.sha
              && jobs[id].ref == input.ref && jobs[id].delivery == input.delivery
              && jobs[id].skipReason == input.skipReason
              && jobs[id].conclusion == "" && jobs[id].steps == "[]" && jobs[id].error == "")
    {
      if input.repo == "" || input.sha == "" || id in jobs {
        return false;
      }
      jobs := jobs[id := NewJob(input, clock)];
      clock := clock + 1;
      ok := confirmed;
    }

    /** Takes the queued row with the smallest key, and only when there is none fails. */
    method ClaimNextJob() returns (id: Option<JobId>)
      requires Valid()
      modifies this`jobs
      ensures Valid()
      ensures id.None? ==> NoneQueued(old(jobs)) && jobs == old(jobs)
      ensures id.Some? ==> OldestQueued(old(jobs), id.value) && jobs == SetStatus(old(jobs), id.value, InProgress)
      ensures id.Some? ==>
                && id.value in old(jobs) && old(jobs)[id.value].status == Queued
                && (forall other :: other in old(jobs) && old(jobs)[other].status == Queued ==>
                      old(jobs)[id.value].key <= old(jobs)[other].key)
                && jobs == old(jobs)[id.value := old(jobs)[id.value].(status := InProgress)]
      ensures id.None? ==> forall other :: other in jobs ==> jobs[other].status != Queued
    {
      var queued := QueuedIds(jobs);
      if queued == {} {
        OldestOfQueued(jobs, "");
        forall other | other in jobs ensures jobs[other].status != Queued { assert !IsQueued(jobs, other); }
        return None;
      }
      OldestExists(jobs, queued);
      ghost var first :| IsOldest(jobs, queued, first);
      var oldest :| oldest in queued && forall other :: other in queued ==> jobs[oldest].key <= jobs[other].key;
      assert IsOldest(jobs, queued, oldest);
      OldestOfQueued(jobs, oldest);
      jobs := jobs[oldest := jobs[oldest].(status := InProgress)];
      id := Some(oldest);
    }

    method InFlightJobForDelivery(delivery: string) returns (id: Option<JobId>)
      requires Valid()
      ensures id.None? <==> InFlightForDelivery(jobs, delivery) == {}
      ensures id.Some? ==> IsNewest(jobs, InFlightForDelivery(jobs, delivery), id.value)
      ensures id.None? <==> forall j :: j in jobs && (jobs[j].status == Queued || jobs[j].status == InProgress)
                                        ==> delivery == "" || jobs[j].delivery != delivery
      ensures id.Some? ==>
                && id.value in jobs && delivery != "" && jobs[id.value].delivery == delivery
                && (jobs[id.value].status == Queued || jobs[id.value].status == InProgress)
                && forall j :: j in jobs && jobs[j].delivery == delivery
                               && (jobs[j].status == Queued || jobs[j].status == InProgress)
                               ==> jobs[j].key <= jobs[id.value].key
    {
      id := Newest(InFlightForDelivery(jobs, delivery));
      forall j ensures j in InFlightForDelivery(jobs, delivery) <==>
                         && j in jobs && delivery != "" && jobs[j].delivery == delivery
                         && (jobs[j].status == Queued || jobs[j].status == InProgress)
      {}
    }

    method InFlightJobForSuite(app: int, repo: string, sha: string) returns (id: Option<JobId>)
      requires Valid()
      ensures id.None? <==> InFlightForSuite(jobs, app, repo, sha) == {}
      ensures id.Some? ==> IsNewest(jobs, InFlightForSuite(jobs, app, repo, sha), id.value)
      ensures id.None? <==> forall j :: j in jobs && (jobs[j].status == Queued || jobs[j].status == InProgress)
                                        ==> repo == "" || sha == "" || !IsRunOf(jobs[j], app, repo, sha)
      ensures id.Some? ==>
                && id.value in jobs && repo != "" && sha != "" && IsRunOf(jobs[id.value], app, repo, sha)
                && (jobs[id.value].status == Queued || jobs[id.value].status == InProgress)
                && forall j :: j in jobs && IsRunOf(jobs[j], app, repo, sha)
                               && (jobs[j].status == Queued || jobs[j].status == InProgress)
                               ==> jobs[j].key <= jobs[id.value].key
    {
      id := Newest(InFlightForSuite(jobs, app, repo, sha));
      forall j ensures j in InFlightForSuite(jobs, app, repo, sha) <==>
                         && j in jobs && repo != "" && sha != "" && IsRunOf(jobs[j], app, repo, sha)
                         && (jobs[j].status == Queued || jobs[j].status == InProgress)
      {}
    }

    /** `ORDER BY created_at DESC LIMIT 1`. */
    method Newest(ids: set<JobId>) returns (id: Option<JobId>)
      requires Valid() && ids <= jobs.Keys
      ensures id.None? <==> ids == {}
      ensures id.Some? ==> IsNewest(jobs, ids, id.value)
    {
      if ids == {} {
        return None;
      }
      NewestExists(jobs, ids);
      ghost var last :| IsNewest(jobs, ids, last);
      assert last in ids;
      var newest :| newest in ids && forall other :: other in ids ==> jobs[other].key <= jobs[newest].key;
      id := Some(newest);
    }

    /** Every matching row once, in no particular order. */
    method InFlightJobsForRef(repo: string, ref: string) returns (ids: seq<JobId>)
      ensures forall id :: id in ids <==> id in InFlightForRef(jobs, repo, ref)
      ensures forall id :: id in ids <==> id in jobs && jobs[id].repo == repo && jobs[id].ref == ref
                                          && (jobs[id].status == Queued || jobs[id].status == InProgress)
      ensures forall i, j :: 0 <= i < j < |ids| ==> ids[i] != ids[j]
    {
      ids := Listing(InFlightForRef(jobs, repo, ref));
    }

    method SetJobCheckRun(id: JobId, checkRun: nat)
      requires Valid()
      modifies this`jobs
      ensures Valid() && jobs == SetCheckRun(old(jobs), id, checkRun)
      ensures id in old(jobs) ==>
                && jobs == old(jobs)[id := old(jobs)[id].(checkRun := checkRun)]
                && jobs[id].checkRun == checkRun
      ensures id !in old(jobs) ==> jobs == old(jobs)
    {
      if id in jobs {
        jobs := jobs[id := jobs[id].(checkRun := checkRun)];
      }
    }

    method FinishJob(id: JobId, status: Status, conclusion: string, steps: string, error: string)
      requires Valid()
      modifies this`jobs
      ensures Valid() && jobs == Finish(old(jobs), id, status, conclusion, steps, error, "")
      ensures id in old(jobs) ==>
                jobs == old(jobs)[id := old(jobs)[id].(status := status, conclusion := conclusion, error := error,
                                                       steps := if steps == "" then "[]" else steps)]
      ensures id !in old(jobs) ==> jobs == old(jobs)
    {
      FinishJobWithSkipReason(id, status, conclusion, steps, error, "");
    }

    method FinishJobWithSkipReason(id: JobId, status: Status, conclusion: string, steps: string, error: string,
                                   skipReason: string)
      requires Valid()
      modifies this`jobs
      ensures Valid() && jobs == Finish(old(jobs), id, status, conclusion, steps, error, skipReason)
      ensures id in old(jobs) ==>
                jobs == old(jobs)[id := old(jobs)[id].(status := status, conclusion := conclusion, error := error,
                                                       steps := if steps == "" then "[]" else steps,
                                                       skipReason := if skipReason == "" then old(jobs)[id].skipReason
                                                                     else skipReason)]
      ensures id !in old(jobs) ==> jobs == old(jobs)
    {
      var stepsJSON := steps;
      if stepsJSON == "" {
        stepsJSON := "[]";
      }
      if id !in jobs {
        return;
      }
      var j := jobs[id].(status := status, conclusion := conclusion, steps := stepsJSON, error := error);
      if skipReason == "" {
        jobs := jobs[id := j];
      } else {
        jobs := jobs[id := j.(skipReason := skipReason)];
      }
    }

    /** Every interrupted row is queued again, its Check Run kept; the count is reported. */
    method RequeueStaleJobs() returns (n: nat)
      requires Valid()
      modifies this`jobs
      ensures Valid() && jobs == Requeue(old(jobs))
      ensures n == |set id | id in old(jobs) && old(jobs)[id].status == InProgress|
      ensures jobs.Keys == old(jobs).Keys
      ensures forall id :: id in jobs ==>
                jobs[id] == if old(jobs)[id].status == InProgress then old(jobs)[id].(status := Queued)
                            else old(jobs)[id]
    {
      n := |set id | id in jobs && jobs[id].status == InProgress|;
      jobs := Requeue(jobs);
    }

    /**
     Deletes the terminal rows among `aged`, the rows before the cutoff. The DELETE
     numbered `failAt` fails, if there are that many jobs, and the last one, of old
     deliveries, unless `swept`. The ids returned are those that were selected; they
     are the ones deleted exactly when no DELETE of a job failed.
     */
    method PruneJobs(aged: set<JobId>, failAt: nat, swept: bool) returns (ids: seq<JobId>, ok: bool)
      requires Valid()
      modifies this`jobs
      ensures Valid()
      ensures forall id :: id in ids <==>
                id in aged && id in old(jobs) && old(jobs)[id].status != Queued && old(jobs)[id].status != InProgress
      ensures ok <==> |ids| <= failAt && swept
      ensures jobs == old(jobs) - Deleted(ids, failAt)
      ensures forall id :: id in jobs <==> id in old(jobs) && forall i :: 0 <= i < |ids| && i < failAt ==> ids[i] != id
      ensures forall id :: id in jobs ==> jobs[id] == old(jobs)[id]
      ensures (set id | id in ids) == old(jobs).Keys - jobs.Keys <==> |ids| <= failAt
    {
      var selected := set id | id in aged && id in jobs && !jobs[id].InFlight();
      ids := Listing(selected);
      assert jobs - Deleted(ids, 0) == jobs;
      for i := 0 to |ids|
        invariant i <= failAt
        invariant jobs == old(jobs) - Deleted(ids[..i], failAt)
        invariant jobs.Keys == old(jobs).Keys - Deleted(ids[..i], failAt)
      {
        assert Deleted(ids[..i], failAt) == Deleted(ids, i);
        if i == failAt {
          assert ids[i] in ids && ids[i] in old(jobs).Keys;
          forall j | 0 <= j < i ensures ids[j] != ids[i] {}
          assert ids[i] !in Deleted(ids, i);
          assert ids[i] in jobs && ids[i] in set id | id in ids;
          return ids, false;
        }
        jobs := jobs - {ids[i]};
        assert Deleted(ids[..i + 1], failAt) == Deleted(ids[..i], failAt) + {ids[i]};
      }
      assert ids[..|ids|] == ids;
      assert Deleted(ids, failAt) == set id | id in ids;
      ok := swept;
    }
  }

  /** The elements of a set, each once. */
  method Listing(s: set<JobId>) returns (ids: seq<JobId>)
    ensures forall id :: id in ids <==> id in s
    ensures forall i, j :: 0 <= i < j < |ids| ==> ids[i] != ids[j]
  {
    ids := [];
    var rest := s;
    while rest != {}
      invariant rest <= s
      invariant forall id :: id in ids <==> id in s - rest
      invariant forall i, j :: 0 <= i < j < |ids| ==> ids[i] != ids[j]
      decreases rest
    {
      var id :| id in rest;
      forall i | 0 <= i < |ids| ensures ids[i] != id {
        assert ids[i] in ids;
      }
      ids := ids + [id];
      rest := rest - {id};
    }
  }
}
