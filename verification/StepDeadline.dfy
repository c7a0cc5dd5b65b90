/**
 When the steps of a job are stopped: the contexts that internal/queue/runner.go builds
 around them, and a plan's own timeout. Times are in nanoseconds.
 */
module StepDeadline {
  import opened Bytes

  /** A context: stopped by hand, given a deadline below another, or cut off from another's end. */
  datatype Context =
    | Root(stopped: Option<int>)
    | WithTimeout(parent: Context, deadline: int, cancelled: Option<int>)
    | WithoutCancel(parent: Context)

  predicate Past(at: Option<int>, t: int) {
    at.Some? && at.value <= t
  }

  /** Whether a context is done at `t`: cancelled itself, past its deadline, or done above. */
  predicate Done(c: Context, t: int) {
    match c
    case Root(stopped) => Past(stopped, t)
    case WithTimeout(parent, deadline, cancelled) => deadline <= t || Past(cancelled, t) || Done(parent, t)
    case WithoutCancel(_) => false
  }

  /** The first moment a context is done, if there is one. */
  function End(c: Context): Option<int> {
    match c
    case Root(stopped) => stopped
    case WithTimeout(parent, deadline, cancelled) => Some(Earlier(Earlier(deadline, cancelled), End(parent)))
    case WithoutCancel(_) => None
  }

  function Earlier(a: int, b: Option<int>): int {
    if b.Some? then Min(a, b.value) else a
  }

  /** A context below another is done no later, and at its deadline at the latest. */
  lemma DoneBelow(c: Context, deadline: int, cancelled: Option<int>, t: int)
    ensures Done(WithTimeout(c, deadline, cancelled), t) <==>
              Done(c, t) || deadline <= t || (cancelled.Some? && cancelled.value <= t)
    ensures !Done(WithoutCancel(c), t)
  {
  }

  lemma {:induction false} EndIsFirst(c: Context, t: int)
    ensures Done(c, t) <==> Past(End(c), t)
  {
    if c.WithTimeout? { EndIsFirst(c.parent, t); }
  }

  /** A plan's timeout counts when it is set and is not the one the job has anyway. */
  predicate PlanDecides(planned: int, timeout: int) {
    planned > 0 && planned != timeout
  }

  /**
   The context the steps run in. A plan's own timeout starts a new one at `now`, cut off
   from the job's context and cancelled at the moment that one is done.
   */
  function StepContext(ctx: Context, planned: int, timeout: int, now: int): Context {
    if PlanDecides(planned, timeout) then WithTimeout(WithoutCancel(ctx), now + planned, End(ctx)) else ctx
  }

  /** The steps are stopped as soon as the job's context is done or the plan's time is up. */
  lemma StepsEndAtTheEarlier(ctx: Context, planned: int, timeout: int, now: int, t: int)
    ensures Done(StepContext(ctx, planned, timeout, now), t)
            <==> Done(ctx, t) || (planned > 0 && planned != timeout && now + planned <= t)
  {
    EndIsFirst(ctx, t);
  }

  /**
   A plan's timeout is said to tighten the job's or extend it. It extends nothing: it
   changes when the steps are stopped exactly if it is up before the job's context is done.
   */
  lemma PlanOnlyTightens(ctx: Context, planned: int, timeout: int, now: int)
    requires planned > 0 && planned != timeout
    ensures (exists t :: Done(StepContext(ctx, planned, timeout, now), t) != Done(ctx, t))
            <==> !Done(ctx, now + planned)
    ensures forall t :: Done(ctx, t) ==> Done(StepContext(ctx, planned, timeout, now), t)
  {
    var steps := StepContext(ctx, planned, timeout, now);
    forall t ensures Done(steps, t) <==> Done(ctx, t) || now + planned <= t {
      StepsEndAtTheEarlier(ctx, planned, timeout, now, t);
    }
    if Done(ctx, now + planned) {
      forall t | now + planned <= t ensures Done(ctx, t) {
        EndIsFirst(ctx, t);
        EndIsFirst(ctx, now + planned);
      }
    } else {
      assert Done(steps, now + planned) != Done(ctx, now + planned);
    }
  }

  /** A job given ten seconds, whose plan, read after two, asks for a minute: stopped at ten. */
  lemma ExtensionIsIgnored()
    ensures
      var ctx := WithTimeout(Root(None), 10, None);
      Done(StepContext(ctx, 60, 10, 2), 10) && 10 < 2 + 60
  {
    StepsEndAtTheEarlier(WithTimeout(Root(None), 10, None), 60, 10, 2, 10);
  }
}
