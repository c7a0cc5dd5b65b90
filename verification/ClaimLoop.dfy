/**
 The runner of internal/queue/runner.go as one caller sees it: the claim loop's
 `drain`, and `CancelJob`. How its statements interleave is the business of Engine.
 */
module ClaimLoop {
  import opened Bytes
  import opened Jobs

  /** The database and this process's runner, as one delivery sees them. */
  datatype World = World(jobs: Table, clock: nat, running: set<JobId>, cancelled: set<JobId>)

  /** A running job is told to stop; one that is only queued is finished on the spot. */
  function Cancel(w: World, id: JobId): World {
    if id in w.running then w.(cancelled := w.cancelled + {id})
    else if id in w.jobs && w.jobs[id].InFlight() then
      w.(jobs := Finish(w.jobs, id, Cancelled, "cancelled", "[]", "superseded", ""))
    else w
  }

  predicate Cancellable(w: World, id: JobId) {
    id in w.running || (id in w.jobs && w.jobs[id].InFlight())
  }

  /** These queued rows are taken. */
  function Taken(t: Table, ids: set<JobId>): Table {
    map id | id in t :: if id in ids then t[id].(status := InProgress) else t[id]
  }

  /** Of the queued rows exactly `ids` were taken, none younger than one left behind. */
  ghost predicate OldestFirst(before: Table, ids: set<JobId>) {
    && ids <= QueuedIds(before)
    && forall a, b :: a in ids && b in QueuedIds(before) - ids ==> before[a].key <= before[b].key
  }

  lemma TakeOneMore(before: Table, ids: set<JobId>, id: JobId)
    requires OldestFirst(before, ids) && OldestQueued(Taken(before, ids), id)
    ensures OldestFirst(before, ids + {id}) && id !in ids
    ensures SetStatus(Taken(before, ids), id, InProgress) == Taken(before, ids + {id})
  {
    var t := Taken(before, ids);
    assert IsQueued(t, id);
    forall a, b | a in ids + {id} && b in QueuedIds(before) - (ids + {id}) ensures before[a].key <= before[b].key {
      assert b in QueuedIds(before) - ids;
      assert IsQueued(t, b);
    }
    assert SetStatus(t, id, InProgress) == Taken(before, ids + {id});
  }

  /** A job claimed and registered. */
  function Started(w: World, id: JobId): World {
    w.(jobs := SetStatus(w.jobs, id, InProgress), running := w.running + {id}, cancelled := w.cancelled - {id})
  }

  /** `ids`, the oldest queued jobs, have been started, and nothing else has changed. */
  ghost predicate Drained(w: World, ids: set<JobId>, after: World) {
    && ids !! w.running && OldestFirst(w.jobs, ids)
    && after == World(Taken(w.jobs, ids), w.clock, w.running + ids, w.cancelled - ids)
  }

  lemma DrainedNone(w: World)
    ensures Drained(w, {}, w)
  {
    assert Taken(w.jobs, {}) == w.jobs;
  }

  lemma DrainedMore(w: World, ids: set<JobId>, after: World, id: JobId)
    requires Drained(w, ids, after) && OldestQueued(after.jobs, id) && id !in after.running
    ensures Drained(w, ids + {id}, Started(after, id))
    ensures Started(after, id).running - w.running == ids + {id}
    ensures id in QueuedIds(w.jobs) - ids
  {
    TakeOneMore(w.jobs, ids, id);
    assert w.cancelled - ids - {id} == w.cancelled - (ids + {id});
    assert w.running + ids + {id} == w.running + (ids + {id});
  }

  /** Row by row: the started jobs were queued, none is younger than one left behind, others are as they were. */
  lemma DrainedRows(w: World, ids: set<JobId>, after: World)
    requires Drained(w, ids, after) && after.running - w.running == ids
    ensures w.running <= after.running && after.jobs.Keys == w.jobs.Keys && after.cancelled == w.cancelled - ids
    ensures forall id :: id in w.jobs ==>
              after.jobs[id] == if id in ids then w.jobs[id].(status := InProgress) else w.jobs[id]
    ensures forall id :: id in ids ==>
              && id in w.jobs && w.jobs[id].status == Queued
              && forall left :: left in after.jobs && after.jobs[left].status == Queued ==>
                   w.jobs[id].key <= w.jobs[left].key
    ensures NoneQueued(after.jobs) ==> forall id :: id in after.jobs ==> after.jobs[id].status != Queued
  {
    forall id | id in ids ensures id in w.jobs && w.jobs[id].status == Queued { assert id in QueuedIds(w.jobs); }
    forall id, left | id in ids && left in after.jobs && after.jobs[left].status == Queued
      ensures w.jobs[id].key <= w.jobs[left].key
    {
      assert left in QueuedIds(w.jobs) - ids;
    }
    if NoneQueued(after.jobs) {
      forall id | id in after.jobs ensures after.jobs[id].status != Queued { assert !IsQueued(after.jobs, id); }
    }
  }

  /** internal/queue/runner.go: `Runner`, without the jobs' own goroutines. */
  class Runner {
    const store: Store
    /** The jobs with a goroutine, and those of them whose context is cancelled. */
    var running: set<JobId>
    var cancelled: set<JobId>
    /** The one-slot wake-up channel. */
    var notify: bool

    constructor (store: Store)
      ensures this.store == store && running == {} && cancelled == {} && !notify
    {
      this.store := store;
      running, cancelled, notify := {}, {}, false;
    }

    ghost function Value(): World
      reads this, store
    {
      World(store.jobs, store.clock, running, cancelled)
    }

    method Notify()
      modifies this`notify
      ensures notify
    {
      notify := true;
    }

    method CancelJob(id: JobId) returns (done: bool)
      requires store.Valid()
      modifies this`cancelled, store`jobs
      ensures store.Valid() && Value() == Cancel(old(Value()), id)
      ensures done <==> Cancellable(old(Value()), id)
      ensures
        var queuedHere := id !in running && id in old(store.jobs)
                          && (old(store.jobs)[id].status == Queued || old(store.jobs)[id].status == InProgress);
        && (done <==> id in running || queuedHere)
        && cancelled == (if id in running then old(cancelled) + {id} else old(cancelled))
        && store.jobs == (if queuedHere then
                            old(store.jobs)[id := old(store.jobs)[id].(status := Jobs.Cancelled, error := "superseded",
                                                                       conclusion := "cancelled", steps := "[]")]
                          else old(store.jobs))
    {
      if id in running {
        cancelled := cancelled + {id};
        return true;
      }
      if id !in store.jobs || !store.jobs[id].InFlight() {
        return false;
      }
      store.FinishJob(id, Cancelled, "cancelled", "[]", "superseded");
      done := true;
    }

    /** A queued job has no goroutine. */
    ghost predicate Valid()
      reads this, store
    {
      store.Valid() && forall id :: IsQueued(store.jobs, id) ==> id !in running
    }

    method Active() returns (n: nat)
      ensures n == |running|
    {
      n := |running|;
    }

    /** Registers a claimed job, with a fresh context, for its goroutine to run. */
    method StartJob(id: JobId)
      modifies this`running, this`cancelled
      ensures running == old(running) + {id} && cancelled == old(cancelled) - {id}
    {
      running := running + {id};
      cancelled := cancelled - {id};
    }

    /** Claims the oldest queued job, if there is one, and starts it. */
    method ClaimAndStart() returns (id: Option<JobId>)
      requires Valid()
      modifies this`running, this`cancelled, store`jobs
      ensures Valid()
      ensures id.None? ==> NoneQueued(store.jobs) && Value() == old(Value())
      ensures id.Some? ==>
                && OldestQueued(old(store.jobs), id.value) && id.value !in old(running)
                && Value() == Started(old(Value()), id.value)
    {
      id := store.ClaimNextJob();
      if id.Some? {
        assert IsQueued(old(store.jobs), id.value);
        StartJob(id.value);
      }
    }

    /** Starts the oldest queued jobs until the limit is reached or none is left. */
    method Drain(max: int, stopping: bool)
      requires Valid()
      modifies this`running, this`cancelled, store`jobs
      ensures Valid()
      ensures stopping ==> Value() == old(Value())
      ensures !stopping ==>
                || |running| >= (if max < 1 then 1 else max)
                || forall id :: id in store.jobs ==> store.jobs[id].status != Queued
      ensures |running| <= Max(|old(running)|, if max < 1 then 1 else max)
      ensures Drained(old(Value()), running - old(running), Value())
      ensures old(running) <= running && store.jobs.Keys == old(store.jobs).Keys
      ensures cancelled == old(cancelled) - (running - old(running))
      ensures forall id :: id in store.jobs ==>
                store.jobs[id] == if id in running - old(running) then old(store.jobs)[id].(status := InProgress)
                                  else old(store.jobs)[id]
      ensures forall id :: id in running - old(running) ==>
                && id in old(store.jobs) && old(store.jobs)[id].status == Queued
                && forall left :: left in store.jobs && store.jobs[left].status == Queued ==>
                     old(store.jobs)[id].key <= old(store.jobs)[left].key
    {
      ghost var w := Value();
      ghost var ids: set<JobId> := {};
      DrainedNone(w);
      while true
        invariant Valid() && Drained(w, ids, Value())
        invariant running - w.running == ids
        invariant |running| <= Max(|w.running|, Limit(max))
        invariant stopping ==> Value() == w
        decreases QueuedIds(w.jobs) - ids
      {
        if stopping {
          DrainedRows(w, ids, Value());
          return;
        }
        var active := Active();
        if active >= Limit(max) {
          DrainedRows(w, ids, Value());
          return;
        }
        ghost var before := Value();
        var job := ClaimAndStart();
        if job.None? {
          DrainedRows(w, ids, Value());
          return;
        }
        DrainedMore(w, ids, before, job.value);
        ids := ids + {job.value};
      }
    }
  }
}
