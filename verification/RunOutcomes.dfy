/**
 What a settled run of RunJob leaves behind, case by case: the row, and the completion
 of its Check Run, written out from the outcomes the run was given.
 */
module RunOutcomes {
  import opened Bytes
  import Jobs
  import ClaimLoop
  import opened RunJob
  import Webhook

  ghost predicate NeverDone(ctx: nat -> Option<CtxErr>) {
    forall i: nat :: ctx(i) == None
  }

  ghost predicate DoneFrom(ctx: nat -> Option<CtxErr>, n: nat, cause: CtxErr) {
    forall i: nat :: ctx(i) == if i < n then None else Some(cause)
  }

  /** What is assumed of a context: it is done from some look on, for one cause, or never. */
  lemma ContextEndsOnce(ctx: nat -> Option<CtxErr>)
    ensures Sticky(ctx) <==> NeverDone(ctx) || exists n, cause :: DoneFrom(ctx, n, cause)
  {
    if Sticky(ctx) && !NeverDone(ctx) {
      var i: nat :| ctx(i).Some?;
      var n := FirstDone(ctx, i);
      forall i: nat ensures ctx(i) == if i < n then None else Some(ctx(n).value) {
        if i >= n { assert ctx(i) == ctx(n); }
      }
      assert DoneFrom(ctx, n, ctx(n).value);
    }
    if n, cause :| DoneFrom(ctx, n, cause) {
      forall i: nat, j: nat | i <= j && ctx(i).Some? ensures ctx(j) == ctx(i) {}
    }
  }

  lemma {:induction false} FirstDone(ctx: nat -> Option<CtxErr>, i: nat) returns (n: nat)
    requires ctx(i).Some?
    ensures ctx(n).Some? && forall j: nat :: j < n ==> ctx(j) == None
    decreases i
  {
    if j: nat :| j < i && ctx(j).Some? { n := FirstDone(ctx, j); } else { n := i; }
  }

  // ------------------------------------------------------------ before a Check Run

  /** Without log, App or client, or with no way to open a Check Run, there is an error and no completion. */
  lemma EndsBeforeCheckRun(job: Jobs.Job, env: Env, row: TerminalRow, done: seq<Completion>)
    requires Settled(job, env, row, done)
    ensures env.log.Err? ==>
              row == TerminalRow(Jobs.Error, Failure, [], env.log.msg, "") && done == []
    ensures env.log.Ok? && env.app.Err? ==>
              row == TerminalRow(Jobs.Error, Failure, [], env.app.msg, "") && done == []
    ensures env.log.Ok? && env.app.Ok? && env.client.Err? ==>
              row == TerminalRow(Jobs.Error, Failure, [], env.client.msg, "") && done == []
    ensures env.log.Ok? && env.app.Ok? && env.client.Ok? && env.create.Err?
            && (job.checkRun == 0 || env.reopen.Err?) ==>
              row == TerminalRow(Jobs.Error, Failure, [], env.create.msg, "") && done == []
  {
    var k: nat :| Explained(job, env, row, done, k);
  }

  /** The Check Run `run` is open: the recorded one again, or a new one. */
  predicate Opened(job: Jobs.Job, env: Env, run: nat) {
    && env.log.Ok? && env.app.Ok? && env.client.Ok?
    && if job.checkRun != 0 && env.reopen.Ok? then run == job.checkRun
       else env.create.Ok? && run == env.create.value
  }

  // ------------------------------------------------------------- before the clone

  /**
   From the delivery to the result: a job enqueued with a reason not to run never gets to
   its clone, in whichever boot it is run, and ends as skipped for that reason once its
   Check Run is open.
   */
  lemma SkippedDelivery(w: ClaimLoop.World, d: Webhook.Delivery, id: Jobs.JobId, confirmed: bool,
                        after: ClaimLoop.World, r: Webhook.Response, checkRun: nat, env: Env, row: TerminalRow,
                        done: seq<Completion>)
    requires Webhook.Delivered(w, d, id, confirmed, after, r) && r.Enqueued? && d.skipReason != ""
    requires id in after.jobs
    requires Settled(after.jobs[id].(status := Jobs.InProgress, checkRun := checkRun), env, row, done)
    ensures !ReachesClone(after.jobs[id].(status := Jobs.InProgress, checkRun := checkRun), env)
    ensures done != [] ==>
              && row == TerminalRow(Jobs.Skipped, Skipped, [], "", d.skipReason)
              && |done| == 1 && done[0].conclusion == Skipped && done[0].note == env.explain(d.skipReason)
  {
    Webhook.NewRow(w, d, id, confirmed, after, r);
    var job := after.jobs[id].(status := Jobs.InProgress, checkRun := checkRun);
    if done != [] {
      assert CheckRunUp(job, env);
      DecidedSkip(job, env, row, done, CheckRunOf(job, env));
    }
  }

  /** A job that was decided not to run ends as that, whatever else would have happened. */
  lemma DecidedSkip(job: Jobs.Job, env: Env, row: TerminalRow, done: seq<Completion>, run: nat)
    requires Settled(job, env, row, done) && Opened(job, env, run) && job.skipReason != ""
    ensures row == TerminalRow(Jobs.Skipped, Skipped, [], "", job.skipReason)
    ensures done == [Completion(run, Skipped, "Skipped", env.explain(job.skipReason))]
  {
    var k: nat :| Explained(job, env, row, done, k);
  }

  /** The path filter lets the job on: there is none, or it matched, or it could not be evaluated. */
  predicate FilterOpen(env: Env) {
    env.hasPaths ==> env.filterToken.Ok? && !env.filter.NoneMatched?
  }

  lemma EndsBeforeClone(job: Jobs.Job, env: Env, row: TerminalRow, done: seq<Completion>, run: nat)
    requires Settled(job, env, row, done) && Opened(job, env, run) && job.skipReason == ""
    ensures env.hasPaths && env.filterToken.Err? ==>
              && row == TerminalRow(Jobs.Error, Failure, [], env.filterToken.msg, "")
              && done == [Completion(run, Failure, "Failed", env.filterToken.msg)]
    ensures env.hasPaths && env.filterToken.Ok? && env.filter.NoneMatched? ==>
              && row == TerminalRow(Jobs.Skipped, Skipped, [], "", "path_filter")
              && done == [Completion(run, Skipped, "Skipped", env.filter.diagnostic)]
    ensures FilterOpen(env) && env.workspace.Err? ==>
              && row == TerminalRow(Jobs.Error, Failure, [], env.workspace.msg, "")
              && done == [Completion(run, Failure, "Failed", env.workspace.msg)]
    ensures FilterOpen(env) && env.workspace.Ok? && env.token.Err? && !(env.hasPaths && env.filterToken.value != "") ==>
              && row == TerminalRow(Jobs.Error, Failure, [], env.token.msg, "")
              && done == [Completion(run, Failure, "Failed", env.token.msg)]
  {
    var k: nat :| Explained(job, env, row, done, k);
  }

  // ------------------------------------------------------------- before the steps

  /** The clone is reached: a token was minted, for the filter or for itself. */
  predicate AtClone(job: Jobs.Job, env: Env, run: nat) {
    && Opened(job, env, run) && job.skipReason == "" && FilterOpen(env) && env.workspace.Ok?
    && (env.token.Ok? || (env.hasPaths && env.filterToken.value != ""))
  }

  lemma EndsInClone(job: Jobs.Job, env: Env, row: TerminalRow, done: seq<Completion>, run: nat)
    requires Settled(job, env, row, done) && AtClone(job, env, run)
    ensures env.clone.Err? && env.ctx(0) == None ==>
              && row == TerminalRow(Jobs.Error, Failure, [], env.clone.msg, "")
              && done == [Completion(run, Failure, "Failed", env.clone.msg)]
    ensures env.clone.Err? && env.ctx(0) == Some(Canceled) ==>
              && row == TerminalRow(Jobs.Cancelled, Cancelled, [], "cancelled", "")
              && done == [Completion(run, Cancelled, "Cancelled", "cancelled or timed out during clone")]
    ensures env.clone.Err? && env.ctx(0) == Some(DeadlineExceeded) ==>
              && row == TerminalRow(Jobs.Cancelled, TimedOut, [], "timed_out", "")
              && done == [Completion(run, TimedOut, "Timed out", "cancelled or timed out during clone")]
    ensures env.clone.Ok? && env.checkoutSize.Err? ==>
              && row == TerminalRow(Jobs.Failure, Failure, [], env.checkoutSize.msg, "")
              && done == [Completion(run, Failure, "Failed", env.checkoutSize.msg)]
  {
    var k: nat :| Explained(job, env, row, done, k);
  }

  lemma EndsInPlan(job: Jobs.Job, env: Env, row: TerminalRow, done: seq<Completion>, run: nat)
    requires Settled(job, env, row, done) && AtClone(job, env, run) && env.clone.Ok? && env.checkoutSize.Ok?
    ensures env.resolution.NothingToRun? && env.failWhenEmpty ==>
              && row == TerminalRow(Jobs.Error, Failure, [], env.resolution.msg, "")
              && done == [Completion(run, Failure, "Failed",
                                     env.resolution.msg + "\n\nThis binding sets on_empty_pipeline: fail.")]
    ensures env.resolution.NothingToRun? && !env.failWhenEmpty ==>
              && row == TerminalRow(Jobs.Skipped, Skipped, [], "", "no_pipeline")
              && done == [Completion(run, Skipped, "Skipped", env.resolution.msg)]
    ensures env.resolution.Unresolved? ==>
              && row == TerminalRow(Jobs.Error, Failure, [], env.resolution.msg, "")
              && done == [Completion(run, Failure, "Failed", env.resolution.msg)]
    ensures env.resolution.Plan? && (env.resolution.image.InvalidImage? || env.resolution.image.NoEngine?) ==>
              && row == TerminalRow(Jobs.Error, Failure, [], env.resolution.image.msg, "")
              && done == [Completion(run, Failure, "Failed", env.resolution.image.msg)]
  {
    var k: nat :| Explained(job, env, row, done, k);
  }

  // -------------------------------------------------------------------- the steps

  /** Step `i` ends well: it exits with 0 and no error, and the workspace is not too large after it. */
  predicate Passes(env: Env, i: nat) {
    env.exec(i).exitCode == 0 && env.exec(i).err == "" && env.sizeAfter(i).Ok?
  }

  /** The steps before `k` pass, and `k` does not, or is past the last. */
  ghost predicate StopsAt(env: Env, plan: seq<PlanStep>, k: nat) {
    k <= |plan| && (forall i :: 0 <= i < k ==> Passes(env, i)) && (k < |plan| ==> !Passes(env, k))
  }

  /** The steps are run up to the one that does not pass, and it says why. */
  ghost predicate StepsRecorded(env: Env, plan: seq<PlanStep>, steps: seq<Result>, k: nat) {
    && |steps| == |plan| && k <= |plan|
    && (forall i :: 0 <= i < k ==>
          steps[i] == Result(plan[i].name, plan[i].command, false, 0, "", env.exec(i).timedOut))
    && (k < |plan| ==>
          steps[k] == if env.exec(k).exitCode == 0 && env.exec(k).err == "" && env.sizeAfter(k).Err?
                      then Result(plan[k].name, plan[k].command, false, -1, env.sizeAfter(k).msg, env.exec(k).timedOut)
                      else Result(plan[k].name, plan[k].command, false, env.exec(k).exitCode, env.exec(k).err,
                                  env.exec(k).timedOut))
    && (forall i :: k < i < |plan| ==> steps[i] == Result(plan[i].name, plan[i].command, true, 0, "", false))
  }

  /** What is run is recorded as it ran: exit code, error and time-out, and the size check where it failed. */
  lemma RanIsRecorded(env: Env, plan: seq<PlanStep>, results: seq<Result>, k: nat)
    requires RanUpTo(env, plan, results, k)
    ensures StopsAt(env, plan, k) && StepsRecorded(env, plan, results, k)
    ensures AnyTimedOut(results) <==> exists i :: 0 <= i <= k && i < |plan| && env.exec(i).timedOut
  {
    forall i | 0 <= i < k ensures Passes(env, i) { assert results[i].OK(); }
    forall i | 0 <= i < |plan| ensures results[i].timedOut <==> i <= k && env.exec(i).timedOut {}
    if exists i :: 0 <= i <= k && i < |plan| && env.exec(i).timedOut {
      var i :| 0 <= i <= k && i < |plan| && env.exec(i).timedOut;
      assert results[i].timedOut;
    }
  }

  predicate AtSteps(job: Jobs.Job, env: Env, run: nat) {
    && AtClone(job, env, run) && env.clone.Ok? && env.checkoutSize.Ok? && env.resolution.Plan?
    && (env.resolution.image.WorkerProcess? || env.resolution.image.Docker?)
  }

  /** A step that was run hit a deadline. */
  ghost predicate StepTimedOut(env: Env, plan: seq<PlanStep>, k: nat) {
    exists i :: 0 <= i <= k && i < |plan| && env.exec(i).timedOut
  }

  /** What the steps say when the run was neither cancelled nor timed out. */
  function NoteBefore(env: Env): string {
    if env.hasPaths && env.filter.FailOpen? then env.filter.note else ""
  }

  /**
   A run that reaches its steps, by the step that stopped it: timed out when the job's
   deadline has passed or a step it ran hit one, else cancelled when the context is done;
   else failed at that step; else passed.
   */
  lemma EndsInSteps(job: Jobs.Job, env: Env, row: TerminalRow, done: seq<Completion>, run: nat) returns (k: nat)
    requires Settled(job, env, row, done) && AtSteps(job, env, run)
    ensures StopsAt(env, env.resolution.steps, k) && StepsRecorded(env, env.resolution.steps, row.steps, k)
    ensures row.skipReason == ""
    ensures
      var late := env.ctx(3) == Some(DeadlineExceeded) || StepTimedOut(env, env.resolution.steps, k);
      && (late ==>
            && row.status == Jobs.Cancelled && row.conclusion == TimedOut && row.error == "timed_out"
            && done == [Completion(run, TimedOut, "Timed out", NoteBefore(env))])
      && (!late && env.ctx(3) == Some(Canceled) ==>
            && row.status == Jobs.Cancelled && row.conclusion == Cancelled && row.error == "cancelled"
            && done == [Completion(run, Cancelled, "Cancelled", NoteBefore(env))])
      && (!late && env.ctx(3) == None && k == |env.resolution.steps| ==>
            && row.status == Jobs.Success && row.conclusion == Success && row.error == ""
            && done == [Completion(run, Success, "Passed", NoteBefore(env))])
      && (!late && env.ctx(3) == None && k < |env.resolution.steps| ==>
            FailedAt(env, row, done, run, k))
  {
    k :| Explained(job, env, row, done, k);
    RanIsRecorded(env, env.resolution.steps, row.steps, k);
  }

  /** A failure names the step, and is the workspace's when the step itself passed. */
  predicate FailedAt(env: Env, row: TerminalRow, done: seq<Completion>, run: nat, k: nat) {
    && k < |row.steps|
    && row.status == Jobs.Failure && row.conclusion == Failure
    && |done| == 1 && done[0].checkRun == run && done[0].conclusion == Failure
    && (if env.exec(k).exitCode == 0 && env.exec(k).err == "" && env.sizeAfter(k).Err?
        then row.error == done[0].note == env.sizeAfter(k).msg
        else row.error == "" && done[0].note == NoteBefore(env))
    && done[0].title == "Failed: " + row.steps[k].name
                        + if row.steps[k].exitCode > 0 then " (exit " + Digits(row.steps[k].exitCode) + ")" else ""
  }

  /** There is only one step a run can stop at, so the above says how every run ends. */
  lemma StopIsUnique(env: Env, plan: seq<PlanStep>, i: nat, k: nat)
    requires StopsAt(env, plan, i) && StopsAt(env, plan, k)
    ensures i == k
  {
  }

  /** The title a failed step gets: that it timed out, or its exit code, or its name alone. */
  lemma TitlesOfSteps(r: Result)
    ensures StepTitle(r) == "Failed: " + r.name
                            + if r.timedOut then " timed out"
                              else if r.exitCode > 0 then " (exit " + Digits(r.exitCode) + ")" else ""
  {
    assert ("Failed: " + r.name) + "" == "Failed: " + r.name;
  }

  /** The number that decimal digits stand for. */
  function Numeral(digits: string): int {
    if digits == "" then 0
    else Numeral(digits[..|digits| - 1]) * 10 + (digits[|digits| - 1] as int - '0' as int)
  }

  /** An exit code is spelled in digits without a leading zero. */
  lemma {:induction false} DigitsRead(n: nat)
    ensures Numeral(Digits(n)) == n && Digits(n) != ""
    ensures forall i :: 0 <= i < |Digits(n)| ==> '0' <= Digits(n)[i] <= '9'
    ensures n > 0 ==> Digits(n)[0] != '0'
  {
    if n >= 10 {
      DigitsRead(n / 10);
      assert Digits(n)[..|Digits(n)| - 1] == Digits(n / 10);
    } else {
      assert Digits(n)[..0] == "";
    }
  }

  /** The names GitHub knows the conclusions by. */
  lemma ConclusionsByName(c: Conclusion)
    ensures (c == Success <==> Text(c) == "success") && (c == Failure <==> Text(c) == "failure")
    ensures (c == TimedOut <==> Text(c) == "timed_out") && (c == Cancelled <==> Text(c) == "cancelled")
    ensures c == Skipped <==> Text(c) == "skipped"
  {
  }
}
