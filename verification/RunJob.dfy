/**
 One job from claim to result: `runJob` of internal/queue/runner.go, with the Check
 Run titles of internal/queue/summary.go. Everything outside the process (GitHub,
 git, Docker, the steps themselves) is an arbitrary outcome handed in.
 */
module RunJob {
  import opened Bytes
  import Jobs

  datatype Result = Result(name: string, command: string, skipped: bool, exitCode: int, err: string, timedOut: bool)
  {
    predicate OK() {
      skipped || (exitCode == 0 && err == "")
    }
  }

  datatype PlanStep = PlanStep(name: string, command: string)

  datatype CtxErr = Canceled | DeadlineExceeded

  datatype Outcome<+T> = Ok(value: T) | Err(msg: string)

  datatype Filter = FailOpen(note: string) | Matched | NoneMatched(diagnostic: string)

  datatype Resolution = Plan(steps: seq<PlanStep>, image: Image) | NothingToRun(msg: string) | Unresolved(msg: string)

  /** The plan's runtime: the worker process, or a Docker image that may not be usable. */
  datatype Image = WorkerProcess | Docker | InvalidImage(msg: string) | NoEngine(msg: string)

  datatype Exec = Exec(exitCode: int, err: string, timedOut: bool)

  /** Everything the run asks of the world. `ctx(i)` is the i-th look at the job's context, `explain` words a reason. */
  datatype Env = Env(
    log: Outcome<()>, app: Outcome<()>, client: Outcome<()>,
    reopen: Outcome<()>, create: Outcome<nat>, record: bool,
    hasPaths: bool, filterToken: Outcome<string>, filter: Filter,
    workspace: Outcome<()>, token: Outcome<string>, clone: Outcome<()>, checkoutSize: Outcome<()>,
    resolution: Resolution, failWhenEmpty: bool,
    exec: nat -> Exec, sizeAfter: nat -> Outcome<()>, ctx: nat -> Option<CtxErr>, explain: string -> string)

  /** A context that is done stays done, for the same reason. */
  ghost predicate Sticky(ctx: nat -> Option<CtxErr>) {
    forall i, j :: i <= j && ctx(i).Some? ==> ctx(j) == ctx(i)
  }

  /** A Check Run conclusion; `Text` spells it as GitHub does. */
  datatype Conclusion = Success | Failure | TimedOut | Cancelled | Skipped

  /** What is written to the row. */
  datatype TerminalRow = TerminalRow(status: Jobs.Status, conclusion: Conclusion, steps: seq<Result>, error: string,
                                     skipReason: string)

  /** What is passed to `CompleteCheckRun`. */
  datatype Completion = Completion(checkRun: nat, conclusion: Conclusion, title: string, note: string)

  // ----------------------------------------------------------------------- titles

  function Text(c: Conclusion): string {
    match c
    case Success => "success"
    case Failure => "failure"
    case TimedOut => "timed_out"
    case Cancelled => "cancelled"
    case Skipped => "skipped"
  }

  function CheckTitle(c: Conclusion): string {
    match c
    case Success => "Passed"
    case Failure => "Failed"
    case TimedOut => "Timed out"
    case Cancelled => "Cancelled"
    case Skipped => "Skipped"
  }

  function Digits(n: nat): string {
    if n < 10 then [('0' as int + n) as char] else Digits(n / 10) + [('0' as int + n % 10) as char]
  }

  /** The title that names a step that failed. */
  function StepTitle(r: Result): string {
    if r.timedOut then "Failed: " + r.name + " timed out"
    else if r.exitCode > 0 then "Failed: " + r.name + " (exit " + Digits(r.exitCode) + ")"
    else "Failed: " + r.name
  }

  /** The first step that ran and did not pass. */
  function FirstFailure(results: seq<Result>): Option<Result> {
    if results == [] then None
    else if results[0].skipped || results[0].OK() then FirstFailure(results[1..])
    else Some(results[0])
  }

  function Title(conclusion: Conclusion, results: seq<Result>): string {
    if conclusion == Failure && FirstFailure(results).Some? then StepTitle(FirstFailure(results).value)
    else CheckTitle(conclusion)
  }

  method TitleFor(conclusion: Conclusion, results: seq<Result>) returns (title: string)
    ensures title == Title(conclusion, results)
  {
    if conclusion != Failure {
      return CheckTitle(conclusion);
    }
    for i := 0 to |results|
      invariant FirstFailure(results) == FirstFailure(results[i..])
    {
      assert results[i..][1..] == results[i + 1..];
      if results[i].skipped || results[i].OK() {
        continue;
      }
      return StepTitle(results[i]);
    }
    return CheckTitle(conclusion);
  }

  predicate AnyTimedOut(results: seq<Result>) {
    exists i :: 0 <= i < |results| && results[i].timedOut
  }

  // ------------------------------------------------------------------ the step loop

  /** The result of running step `i`, the workspace check after it included. */
  function StepResult(env: Env, plan: seq<PlanStep>, i: nat): Result
    requires i < |plan|
  {
    var x := env.exec(i);
    var r := Result(plan[i].name, plan[i].command, false, x.exitCode, x.err, x.timedOut);
    if r.OK() && env.sizeAfter(i).Err? then r.(err := env.sizeAfter(i).msg, exitCode := -1) else r
  }

  function SkippedResult(step: PlanStep): Result {
    Result(step.name, step.command, true, 0, "", false)
  }

  /** Steps before `k` passed, `k` failed if there is such a step, and the rest were skipped. */
  ghost predicate RanUpTo(env: Env, plan: seq<PlanStep>, results: seq<Result>, k: nat) {
    && |results| == |plan| && k <= |plan|
    && (forall i :: 0 <= i < |plan| ==>
          results[i] == if i <= k then StepResult(env, plan, i) else SkippedResult(plan[i]))
    && (forall i :: 0 <= i < k ==> results[i].OK())
    && (k < |plan| ==> !results[k].OK())
  }

  /** The plan name by name, as passed steps, at most one failed one, and skipped ones. */
  ghost predicate PassedFailedSkipped(plan: seq<PlanStep>, results: seq<Result>, k: nat) {
    && |results| == |plan| && k <= |plan|
    && (forall i :: 0 <= i < |plan| ==> results[i].name == plan[i].name && results[i].command == plan[i].command)
    && (forall i :: 0 <= i < k ==> !results[i].skipped && results[i].OK())
    && (k < |plan| ==> !results[k].skipped && !results[k].OK())
    && (forall i :: k < i < |plan| ==> results[i].skipped)
  }

  lemma RanIsPassedFailedSkipped(env: Env, plan: seq<PlanStep>, results: seq<Result>, k: nat)
    requires RanUpTo(env, plan, results, k)
    ensures PassedFailedSkipped(plan, results, k)
  {
  }

  lemma {:induction false} FirstFailureIs(results: seq<Result>, k: nat)
    requires k < |results| && !results[k].skipped && !results[k].OK()
    requires forall i :: 0 <= i < k ==> results[i].OK()
    ensures FirstFailure(results) == Some(results[k])
  {
    if k > 0 { FirstFailureIs(results[1..], k - 1); }
  }

  /** The error of the workspace check that stopped the steps, if that is what did. */
  function WorkspaceError(env: Env, plan: seq<PlanStep>, k: nat): Option<string> {
    if k < |plan| && env.exec(k).exitCode == 0 && env.exec(k).err == "" && env.sizeAfter(k).Err?
    then Some(env.sizeAfter(k).msg) else None
  }

  method RunSteps(env: Env, plan: seq<PlanStep>)
    returns (results: seq<Result>, failed: bool, workspaceErr: Option<string>)
    ensures exists k: nat ::
              RanUpTo(env, plan, results, k) && (failed <==> k < |plan|) && workspaceErr == WorkspaceError(env, plan, k)
  {
    results, failed, workspaceErr := [], false, None;
    ghost var k: nat := 0;
    for n := 0 to |plan|
      invariant |results| == n && k <= n && (failed <==> k < n)
      invariant forall i :: 0 <= i < n ==>
                  results[i] == if i <= k then StepResult(env, plan, i) else SkippedResult(plan[i])
      invariant forall i :: 0 <= i < k ==> results[i].OK()
      invariant k < n ==> !results[k].OK()
      invariant workspaceErr == if k < n then WorkspaceError(env, plan, k) else None
    {
      var step := plan[n];
      if failed {
        results := results + [SkippedResult(step)];
        continue;
      }
      var x := env.exec(n);
      var res := Result(step.name, step.command, false, x.exitCode, x.err, x.timedOut);
      results := results + [res];
      if !res.OK() {
        failed := true;
        continue;
      }
      var size := env.sizeAfter(n);
      if size.Err? {
        res := res.(err := size.msg, exitCode := -1);
        results := results[|results| - 1 := res];
        failed := true;
        workspaceErr := Some(size.msg);
        continue;
      }
      k := k + 1;
    }
    assert RanUpTo(env, plan, results, k);
  }

  // ------------------------------------------------------------------------ stages

  predicate Reopened(job: Jobs.Job, env: Env) {
    job.checkRun != 0 && env.reopen.Ok?
  }

  /** A Check Run is open: the recorded one again, or a new one. */
  predicate CheckRunUp(job: Jobs.Job, env: Env) {
    env.log.Ok? && env.app.Ok? && env.client.Ok? && (Reopened(job, env) || env.create.Ok?)
  }

  function CheckRunOf(job: Jobs.Job, env: Env): nat
    requires CheckRunUp(job, env)
  {
    if Reopened(job, env) then job.checkRun else env.create.value
  }

  predicate Filtered(env: Env) {
    env.hasPaths && env.filterToken.Ok? && env.filter.NoneMatched?
  }

  predicate FilterPassed(env: Env) {
    env.hasPaths ==> env.filterToken.Ok? && !env.filter.NoneMatched?
  }

  /** A token already minted for the path filter is used again, unless it was empty. */
  predicate HasToken(env: Env) {
    env.token.Ok? || (env.hasPaths && env.filterToken.Ok? && env.filterToken.value != "")
  }

  predicate ReachesClone(job: Jobs.Job, env: Env) {
    CheckRunUp(job, env) && job.skipReason == "" && FilterPassed(env) && env.workspace.Ok? && HasToken(env)
  }

  predicate ReachesPlan(job: Jobs.Job, env: Env) {
    ReachesClone(job, env) && env.clone.Ok? && env.checkoutSize.Ok?
  }

  predicate ReachesSteps(job: Jobs.Job, env: Env) {
    && ReachesPlan(job, env) && env.resolution.Plan?
    && (env.resolution.image.WorkerProcess? || env.resolution.image.Docker?)
  }

  /** Skips that are decided rather than suffered. */
  predicate SkipDecided(job: Jobs.Job, env: Env) {
    && CheckRunUp(job, env)
    && (|| job.skipReason != ""
        || Filtered(env)
        || (ReachesPlan(job, env) && env.resolution.NothingToRun? && !env.failWhenEmpty))
  }

  /** The clone failed because the context was done. */
  predicate StoppedInClone(job: Jobs.Job, env: Env) {
    ReachesClone(job, env) && env.clone.Err? && env.ctx(0).Some?
  }

  /** The steps ended with the context done, or one of them timed out. */
  predicate StoppedInSteps(job: Jobs.Job, env: Env, results: seq<Result>) {
    ReachesSteps(job, env) && (env.ctx(3).Some? || AnyTimedOut(results))
  }

  /** The row's conclusion, stage by stage; `k` is where the steps stopped. */
  ghost predicate Justified(job: Jobs.Job, env: Env, row: TerminalRow, k: nat) {
    && (row.conclusion == Success <==>
          ReachesSteps(job, env) && k == |env.resolution.steps| && !StoppedInSteps(job, env, row.steps))
    && (row.conclusion == Skipped <==> SkipDecided(job, env))
    && (row.conclusion == TimedOut || row.conclusion == Cancelled <==>
          StoppedInClone(job, env) || StoppedInSteps(job, env, row.steps))
    && (StoppedInClone(job, env) ==> (row.conclusion == TimedOut <==> env.ctx(0) == Some(DeadlineExceeded)))
    && (StoppedInSteps(job, env, row.steps) ==>
          (row.conclusion == TimedOut <==> env.ctx(3) == Some(DeadlineExceeded) || AnyTimedOut(row.steps)))
    && (ReachesSteps(job, env) ==> RanUpTo(env, env.resolution.steps, row.steps, k))
    && (!ReachesSteps(job, env) ==> row.steps == [])
  }

  /** The checkout is over the cap. */
  predicate Oversized(job: Jobs.Job, env: Env) {
    ReachesClone(job, env) && env.clone.Ok? && env.checkoutSize.Err?
  }

  /** The status column goes with the conclusion; only our own errors are "error". */
  predicate StatusFits(job: Jobs.Job, env: Env, row: TerminalRow) {
    match row.status
    case Success => row.conclusion == Success
    case Skipped => row.conclusion == Skipped
    case Cancelled => row.conclusion == TimedOut || row.conclusion == Cancelled
    case Failure => row.conclusion == Failure && (ReachesSteps(job, env) || Oversized(job, env))
    case Error => row.conclusion == Failure && !ReachesSteps(job, env) && !Oversized(job, env)
    case _ => false
  }

  /** The reason column names the decision that skipped the job. */
  predicate ReasonFits(job: Jobs.Job, env: Env, row: TerminalRow) {
    row.skipReason ==
      if row.conclusion != Skipped then ""
      else if job.skipReason != "" then job.skipReason
      else if Filtered(env) then "path_filter"
      else "no_pipeline"
  }

  /** What went wrong first, outside the steps, when that ends the job in an error. */
  function FirstError(job: Jobs.Job, env: Env): string {
    if env.log.Err? then env.log.msg
    else if env.app.Err? then env.app.msg
    else if env.client.Err? then env.client.msg
    else if !Reopened(job, env) && env.create.Err? then env.create.msg
    else if env.hasPaths && env.filterToken.Err? then env.filterToken.msg
    else if env.workspace.Err? then env.workspace.msg
    else if !HasToken(env) then env.token.msg
    else if env.clone.Err? then env.clone.msg
    else match env.resolution
      case NothingToRun(msg) => msg
      case Unresolved(msg) => msg
      case Plan(_, image) =>
        match image
        case InvalidImage(msg) => msg
        case NoEngine(msg) => msg
        case _ => ""
  }

  /** The error column: empty for a result of the build, else what stopped the job. */
  predicate ErrorFits(job: Jobs.Job, env: Env, row: TerminalRow, k: nat) {
    match row.status
    case Cancelled => row.error == Text(row.conclusion)
    case Failure =>
      row.error == if ReachesSteps(job, env) then WorkspaceError(env, env.resolution.steps, k).GetOr("")
                   else if env.checkoutSize.Err? then env.checkoutSize.msg else ""
    case Error => row.error == FirstError(job, env)
    case _ => row.error == ""
  }

  /** A filter that could not be evaluated says so on the Check Run. */
  function FilterNote(env: Env): string {
    if env.hasPaths && env.filter.FailOpen? then env.filter.note else ""
  }

  const EMPTY_FAILS := "\n\nThis binding sets on_empty_pipeline: fail."
  const CLONE_STOPPED := "cancelled or timed out during clone"

  /** The Check Run's note, by where the run ended; in the steps, the filter's or the workspace error. */
  function NoteOf(job: Jobs.Job, env: Env, conclusion: Conclusion, k: nat): string {
    if job.skipReason != "" then env.explain(job.skipReason)
    else if env.hasPaths && env.filterToken.Err? then env.filterToken.msg
    else if Filtered(env) then env.filter.diagnostic
    else if env.workspace.Err? then env.workspace.msg
    else if !HasToken(env) then if env.token.Err? then env.token.msg else ""
    else if env.clone.Err? then if env.ctx(0).Some? then CLONE_STOPPED else env.clone.msg
    else if env.checkoutSize.Err? then env.checkoutSize.msg
    else match env.resolution
      case NothingToRun(msg) => if env.failWhenEmpty then msg + EMPTY_FAILS else msg
      case Unresolved(msg) => msg
      case Plan(steps, image) =>
        match image
        case InvalidImage(msg) => msg
        case NoEngine(msg) => msg
        case _ =>
          if conclusion == Failure then WorkspaceError(env, steps, k).GetOr(FilterNote(env)) else FilterNote(env)
  }

  /** The title names the conclusion, and the step that failed where one did. */
  function TitleOf(job: Jobs.Job, env: Env, row: TerminalRow, k: nat): string {
    if row.conclusion == Failure && ReachesSteps(job, env) && k < |row.steps| then StepTitle(row.steps[k])
    else CheckTitle(row.conclusion)
  }

  /** Conclusion, error, and the completion of an open Check Run follow from how far the run got. */
  ghost predicate Explained(job: Jobs.Job, env: Env, row: TerminalRow, done: seq<Completion>, k: nat) {
    && Justified(job, env, row, k) && ErrorFits(job, env, row, k)
    && done == if CheckRunUp(job, env)
               then [Completion(CheckRunOf(job, env), row.conclusion, TitleOf(job, env, row, k),
                                NoteOf(job, env, row.conclusion, k))]
               else []
  }

  /** The outcome of one run: its one row, and its completion if a Check Run was open. */
  ghost predicate Settled(job: Jobs.Job, env: Env, row: TerminalRow, done: seq<Completion>) {
    && StatusFits(job, env, row) && ReasonFits(job, env, row)
    && exists k: nat :: Explained(job, env, row, done, k)
  }

  /**
   However the steps of a settled run went: passed ones, at most one failed one, then
   skipped ones; success only when all passed; a failure titled with the failed one.
   */
  lemma StepsOfOutcome(job: Jobs.Job, env: Env, row: TerminalRow, done: seq<Completion>)
    requires Settled(job, env, row, done) && ReachesSteps(job, env)
    ensures exists k: nat :: PassedFailedSkipped(env.resolution.steps, row.steps, k)
              && (row.conclusion == Success ==> k == |row.steps|)
              && (row.conclusion == Failure ==> k < |row.steps| && done[0].title == StepTitle(row.steps[k]))
              && (k < |row.steps| ==> FirstFailure(row.steps) == Some(row.steps[k]))
  {
    var k: nat :| Explained(job, env, row, done, k);
    RanIsPassedFailedSkipped(env, env.resolution.steps, row.steps, k);
    if k < |row.steps| { FirstFailureIs(row.steps, k); }
    assert PassedFailedSkipped(env.resolution.steps, row.steps, k);
  }

  lemma SettledBy(job: Jobs.Job, env: Env, row: TerminalRow, done: seq<Completion>, k: nat)
    requires StatusFits(job, env, row) && ReasonFits(job, env, row)
    requires Explained(job, env, row, done, k)
    ensures Settled(job, env, row, done)
  {
  }

  /**
   A requeued job has a Check Run already, which is kept so that it ends. It is left
   open, and nothing is completed at all, exactly when the log, the App or its client
   fails, or when the run can be neither reopened nor created anew.
   */
  lemma EarlierRunEnds(job: Jobs.Job, env: Env, row: TerminalRow, done: seq<Completion>)
    requires Settled(job, env, row, done) && job.checkRun != 0
    ensures done == [] <==> env.log.Err? || env.app.Err? || env.client.Err? || (env.reopen.Err? && env.create.Err?)
    ensures done != [] ==>
              |done| == 1 && done[0].checkRun == if env.reopen.Ok? then job.checkRun else env.create.value
  {
  }

  /** Nothing goes wrong but that the App is gone. */
  function AppGone(msg: string): Env {
    Env(Ok(()), Err(msg), Ok(()), Ok(()), Ok(1), true, false, Ok(""), Matched, Ok(()), Ok("t"), Ok(()), Ok(()),
        Plan([], WorkerProcess), false, _ => Exec(0, "", false), _ => Ok(()), _ => None, reason => reason)
  }

  /** A job that was interrupted with Check Run 7 open, and whose App is gone: 7 is never completed. */
  lemma EarlierRunLeftOpen()
    ensures exists job: Jobs.Job, env: Env, row: TerminalRow ::
              job.checkRun == 7 && Sticky(env.ctx) && env.app.Err? && Settled(job, env, row, [])
  {
    var job := Jobs.Job(1, "r", "c", "b", "", 0, Jobs.InProgress, 7, "", "[]", "", "");
    var env := AppGone("gone");
    var row := TerminalRow(Jobs.Error, Failure, [], "gone", "");
    SettledBy(job, env, row, [], 0);
    assert Settled(job, env, row, []);
  }

  // ------------------------------------------------------------ the imperative form

  /** What one run leaves behind: its row writes, its completions, its recorded Check Run. */
  class Trace {
    var rows: seq<TerminalRow>
    var completions: seq<Completion>
    var recorded: nat
    var creations: nat

    constructor (recorded: nat)
      ensures rows == [] && completions == [] && this.recorded == recorded && creations == 0
    {
      rows, completions, this.recorded, creations := [], [], recorded, 0;
    }

    method FinishJob(status: Jobs.Status, conclusion: Conclusion, steps: seq<Result>, error: string, skipReason: string)
      modifies this`rows
      ensures rows == old(rows) + [TerminalRow(status, conclusion, steps, error, skipReason)]
    {
      rows := rows + [TerminalRow(status, conclusion, steps, error, skipReason)];
    }

    /** Ends the job without a verdict on the build: what failed is the worker's own part. */
    method Fail(msg: string)
      modifies this`rows
      ensures rows == old(rows) + [TerminalRow(Jobs.Error, Failure, [], msg, "")]
    {
      FinishJob(Jobs.Error, Failure, [], msg, "");
    }

    method FinishCancelled(results: seq<Result>, cause: Option<CtxErr>)
      modifies this`rows
      ensures
        var c := if cause == Some(DeadlineExceeded) || AnyTimedOut(results) then TimedOut else Cancelled;
        rows == old(rows) + [TerminalRow(Jobs.Cancelled, c, results, Text(c), "")]
    {
      var conclusion := Cancelled;
      if cause == Some(DeadlineExceeded) || AnyTimedOut(results) {
        conclusion := TimedOut;
      }
      FinishJob(Jobs.Cancelled, conclusion, results, Text(conclusion), "");
    }

    /** A terminal error of ours with a Check Run open. */
    method FailChecked(checkRun: nat, msg: string) returns (ghost row: TerminalRow, ghost done: seq<Completion>)
      modifies this`rows, this`completions
      ensures rows == old(rows) + [row] && completions == old(completions) + done
      ensures row == TerminalRow(Jobs.Error, Failure, [], msg, "")
      ensures done == [Completion(checkRun, Failure, CheckTitle(Failure), msg)]
    {
      Fail(msg);
      Complete(checkRun, Failure, [], msg);
      row, done := rows[|rows| - 1], completions[|completions| - 1..];
    }

    method Complete(checkRun: nat, conclusion: Conclusion, results: seq<Result>, note: string)
      modifies this`completions
      ensures completions == old(completions) + [Completion(checkRun, conclusion, Title(conclusion, results), note)]
    {
      var title := TitleFor(conclusion, results);
      completions := completions + [Completion(checkRun, conclusion, title, note)];
    }
  }

  /** The last rows and completions of a run, and the rest as they were. */
  twostate predicate Adds(t: Trace, row: TerminalRow, done: seq<Completion>)
    reads t
  {
    t.rows == old(t.rows) + [row] && t.completions == old(t.completions) + done
  }

  /** From the claimed row to its one outcome. */
  method RunJob(job: Jobs.Job, env: Env, t: Trace) returns (ghost row: TerminalRow, ghost done: seq<Completion>)
    requires Sticky(env.ctx)
    modifies t
    ensures Adds(t, row, done) && Settled(job, env, row, done)
    ensures
      var made := CheckRunUp(job, env) && !Reopened(job, env);
      && t.creations == old(t.creations) + (if made then 1 else 0)
      && t.recorded == if made && env.record then env.create.value else old(t.recorded)
  {
    done := [];
    if env.log.Err? {
      t.Fail(env.log.msg);
      row := TerminalRow(Jobs.Error, Failure, [], env.log.msg, "");
      SettledBy(job, env, row, done, 0);
      return;
    }
    if env.app.Err? {
      t.Fail(env.app.msg);
      row := TerminalRow(Jobs.Error, Failure, [], env.app.msg, "");
      SettledBy(job, env, row, done, 0);
      return;
    }
    if env.client.Err? {
      t.Fail(env.client.msg);
      row := TerminalRow(Jobs.Error, Failure, [], env.client.msg, "");
      SettledBy(job, env, row, done, 0);
      return;
    }
    var checkRun := job.checkRun;
    if checkRun != 0 && env.reopen.Err? {
      checkRun := 0;
    }
    if checkRun == 0 {
      if env.create.Err? {
        t.Fail(env.create.msg);
        row := TerminalRow(Jobs.Error, Failure, [], env.create.msg, "");
        SettledBy(job, env, row, done, 0);
        return;
      }
      checkRun := env.create.value;
      t.creations := t.creations + 1;
      if env.record {
        t.recorded := checkRun;
      }
    }
    row, done := RunChecked(job, env, t, checkRun);
  }

  /** With a Check Run open: the decided skips, and everything up to the clone. */
  method RunChecked(job: Jobs.Job, env: Env, t: Trace, checkRun: nat)
    returns (ghost row: TerminalRow, ghost done: seq<Completion>)
    requires Sticky(env.ctx) && CheckRunUp(job, env) && checkRun == CheckRunOf(job, env)
    modifies t`rows, t`completions
    ensures Adds(t, row, done) && Settled(job, env, row, done)
  {
    if job.skipReason != "" {
      t.FinishJob(Jobs.Skipped, Skipped, [], "", job.skipReason);
      t.Complete(checkRun, Skipped, [], env.explain(job.skipReason));
      row, done := t.rows[|t.rows| - 1], t.completions[|t.completions| - 1..];
      SettledBy(job, env, row, done, 0);
      return;
    }
    var token, note := "", "";
    if env.hasPaths {
      if env.filterToken.Err? {
        row, done := t.FailChecked(checkRun, env.filterToken.msg);
        SettledBy(job, env, row, done, 0);
        return;
      }
      token := env.filterToken.value;
      match env.filter
      case FailOpen(why) => note := why;
      case Matched =>
      case NoneMatched(diagnostic) =>
        t.FinishJob(Jobs.Skipped, Skipped, [], "", "path_filter");
        t.Complete(checkRun, Skipped, [], diagnostic);
        row, done := t.rows[|t.rows| - 1], t.completions[|t.completions| - 1..];
        SettledBy(job, env, row, done, 0);
        return;
    }
    if env.workspace.Err? {
      row, done := t.FailChecked(checkRun, env.workspace.msg);
      SettledBy(job, env, row, done, 0);
      return;
    }
    if token == "" {
      if env.token.Err? {
        row, done := t.FailChecked(checkRun, env.token.msg);
        SettledBy(job, env, row, done, 0);
        return;
      }
      token := env.token.value;
    }
    row, done := RunClone(job, env, t, checkRun, note);
  }

  /** The clone, and the plan. */
  method RunClone(job: Jobs.Job, env: Env, t: Trace, checkRun: nat, note: string)
    returns (ghost row: TerminalRow, ghost done: seq<Completion>)
    requires Sticky(env.ctx) && ReachesClone(job, env) && checkRun == CheckRunOf(job, env) && note == FilterNote(env)
    modifies t`rows, t`completions
    ensures Adds(t, row, done) && Settled(job, env, row, done)
  {
    if env.clone.Err? {
      if env.ctx(0).Some? {
        t.FinishCancelled([], env.ctx(1));
        var c := if env.ctx(2) == Some(DeadlineExceeded) then TimedOut else Cancelled;
        t.Complete(checkRun, c, [], CLONE_STOPPED);
        row, done := t.rows[|t.rows| - 1], t.completions[|t.completions| - 1..];
        assert env.ctx(1) == env.ctx(0) && env.ctx(2) == env.ctx(0);
        SettledBy(job, env, row, done, 0);
        return;
      }
      row, done := t.FailChecked(checkRun, env.clone.msg);
      SettledBy(job, env, row, done, 0);
      return;
    }
    if env.checkoutSize.Err? {
      t.FinishJob(Jobs.Failure, Failure, [], env.checkoutSize.msg, "");
      t.Complete(checkRun, Failure, [], env.checkoutSize.msg);
      row, done := t.rows[|t.rows| - 1], t.completions[|t.completions| - 1..];
      SettledBy(job, env, row, done, 0);
      return;
    }
    row, done := RunPlan(job, env, t, checkRun, note);
  }

  method RunPlan(job: Jobs.Job, env: Env, t: Trace, checkRun: nat, note: string)
    returns (ghost row: TerminalRow, ghost done: seq<Completion>)
    requires Sticky(env.ctx) && ReachesPlan(job, env) && checkRun == CheckRunOf(job, env) && note == FilterNote(env)
    modifies t`rows, t`completions
    ensures Adds(t, row, done) && Settled(job, env, row, done)
  {
    match env.resolution
    case NothingToRun(msg) =>
      if env.failWhenEmpty {
        t.Fail(msg);
        t.Complete(checkRun, Failure, [], msg + EMPTY_FAILS);
        row, done := t.rows[|t.rows| - 1], t.completions[|t.completions| - 1..];
        SettledBy(job, env, row, done, 0);
        return;
      }
      t.FinishJob(Jobs.Skipped, Skipped, [], "", "no_pipeline");
      t.Complete(checkRun, Skipped, [], msg);
      row, done := t.rows[|t.rows| - 1], t.completions[|t.completions| - 1..];
      SettledBy(job, env, row, done, 0);
    case Unresolved(msg) =>
      row, done := t.FailChecked(checkRun, msg);
      SettledBy(job, env, row, done, 0);
    case Plan(steps, image) =>
      match image
      case InvalidImage(msg) =>
        row, done := t.FailChecked(checkRun, msg);
        SettledBy(job, env, row, done, 0);
      case NoEngine(msg) =>
        row, done := t.FailChecked(checkRun, msg);
        SettledBy(job, env, row, done, 0);
      case _ =>
        row, done := RunToResult(job, env, t, checkRun, note);
  }

  /** The step loop and the final switch. */
  method RunToResult(job: Jobs.Job, env: Env, t: Trace, checkRun: nat, note: string)
    returns (ghost row: TerminalRow, ghost done: seq<Completion>)
    requires Sticky(env.ctx) && ReachesSteps(job, env) && checkRun == CheckRunOf(job, env) && note == FilterNote(env)
    modifies t`rows, t`completions
    ensures Adds(t, row, done) && Settled(job, env, row, done)
  {
    var results, failed, workspaceErr := RunSteps(env, env.resolution.steps);
    ghost var plan := env.resolution.steps;
    ghost var k: nat :|
      RanUpTo(env, plan, results, k) && (failed <==> k < |plan|) && workspaceErr == WorkspaceError(env, plan, k);
    if env.ctx(3).Some? || AnyTimedOut(results) {
      t.FinishCancelled(results, env.ctx(4));
      var c := if AnyTimedOut(results) || env.ctx(5) == Some(DeadlineExceeded) then TimedOut else Cancelled;
      t.Complete(checkRun, c, results, note);
      assert env.ctx(3).Some? ==> env.ctx(4) == env.ctx(3) && env.ctx(5) == env.ctx(3);
    } else if failed {
      FirstFailureIs(results, k);
      t.FinishJob(Jobs.Failure, Failure, results, workspaceErr.GetOr(""), "");
      t.Complete(checkRun, Failure, results, workspaceErr.GetOr(note));
    } else {
      t.FinishJob(Jobs.Success, Success, results, "", "");
      t.Complete(checkRun, Success, results, note);
    }
    row, done := t.rows[|t.rows| - 1], t.completions[|t.completions| - 1..];
    SettledBy(job, env, row, done, k);
  }
}
