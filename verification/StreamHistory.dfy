/**
 A run of the log stream told by its steps alone: what the job and retention do to the
 log and the row, what the stream sends of it, and that it ends.
 */
module StreamHistory {
  import opened Bytes
  import opened EventStream
  import opened LogStream

  // ---------------------------------------------------------- the job's side

  /** What is not the handler's: the log, its file, and the job's row. */
  datatype World = World(log: seq<Byte>, file: Presence, row: Row)

  function WorldOf(s: State): World {
    World(s.log, s.file, s.row)
  }

  /** The job writes and ends, and retention deletes; the handler's steps leave all of it alone. */
  function Evolve(w: World, e: Step): World {
    match e
    case CreateLog => w.(file := There)
    case RestartLog => w.(log := [])
    case AppendLog(p) => w.(log := w.log + p)
    case FinishRow => w.(row := Terminal)
    case PruneRow => w.(row := Pruned)
    case DeleteLog => w.(file := Deleted)
    case _ => w
  }

  function WorldAfter(w: World, es: seq<Step>): World
    decreases es
  {
    if es == [] then w else WorldAfter(Evolve(w, es[0]), es[1..])
  }

  /** How long the log is when the row turns terminal. */
  function LengthAtFinish(w: World, es: seq<Step>): nat
    decreases es
  {
    if es == [] then 0
    else if es[0].FinishRow? then |w.log|
    else LengthAtFinish(Evolve(w, es[0]), es[1..])
  }

  /** The log is emptied at a moment when some of it has been sent. */
  predicate Emptied(max: int, s: State, es: seq<Step>)
    requires Run(max, s, es)
    decreases es
  {
    && es != []
    && ((es[0].RestartLog? && s.sent > 0) || Emptied(max, Apply(max, s, es[0]), es[1..]))
  }

  lemma {:induction false} WorldOfRun(max: int, s: State, es: seq<Step>)
    requires Run(max, s, es)
    ensures WorldOf(After(max, s, es)) == WorldAfter(WorldOf(s), es)
    decreases es
  {
    if es != [] {
      assert WorldOf(Apply(max, s, es[0])) == Evolve(WorldOf(s), es[0]);
      WorldOfRun(max, Apply(max, s, es[0]), es[1..]);
    }
  }

  lemma {:induction false} StaleIsEmptied(max: int, s: State, es: seq<Step>)
    requires Run(max, s, es)
    ensures After(max, s, es).stale <==> s.stale || Emptied(max, s, es)
    decreases es
  {
    if es != [] { StaleIsEmptied(max, Apply(max, s, es[0]), es[1..]); }
  }

  lemma {:induction false} FinishStays(max: int, s: State, es: seq<Step>)
    requires Run(max, s, es) && !s.row.InFlight?
    ensures After(max, s, es).atFinish == s.atFinish
    decreases es
  {
    if es != [] { FinishStays(max, Apply(max, s, es[0]), es[1..]); }
  }

  lemma {:induction false} FinishIsNoted(max: int, s: State, es: seq<Step>)
    requires Run(max, s, es) && s.row.InFlight? && s.atFinish == 0
    ensures After(max, s, es).atFinish == LengthAtFinish(WorldOf(s), es)
    decreases es
  {
    if es != [] {
      var next := Apply(max, s, es[0]);
      if es[0].FinishRow? {
        FinishStays(max, next, es[1..]);
      } else {
        assert WorldOf(next) == Evolve(WorldOf(s), es[0]);
        FinishIsNoted(max, next, es[1..]);
      }
    }
  }

  /**
   Unless the log is emptied after some of it was sent, what is sent of a running job's
   log is the start of it, within the cap; and a stream that ends after a terminal row
   has sent everything, up to the cap, that was there when the row turned terminal.
   */
  lemma FinishedMeansAllSent(max: int, s: State, es: seq<Step>)
    requires Init(s) && s.row.InFlight? && Run(max, s, es) && !Emptied(max, s, es)
    ensures
      var t, w := After(max, s, es), WorldAfter(WorldOf(s), es);
      var seen := Sent(t.frames);
      && seen <= w.log && (max > 0 ==> |seen| <= max)
      && (t.pc == Closed(Complete) ==>
            var n := LengthAtFinish(WorldOf(s), es);
            |seen| >= if max > 0 then Min(max, n) else n)
  {
    StreamIsComplete(max, s, es);
    StaleIsEmptied(max, s, es);
    FinishIsNoted(max, s, es);
    WorldOfRun(max, s, es);
  }

  // ------------------------------------------------------ comments on the wire

  function Pings(fs: seq<Frame>): nat {
    if fs == [] then 0 else Pings(fs[..|fs| - 1]) + if fs[|fs| - 1] == Ping then 1 else 0
  }

  function Beats(es: seq<Step>): nat {
    if es == [] then 0 else (if es[0].Heartbeat? then 1 else 0) + Beats(es[1..])
  }

  /** Every heartbeat, and nothing else, is one comment. */
  lemma {:induction false} HeartbeatsArePings(max: int, s: State, es: seq<Step>)
    requires Run(max, s, es)
    ensures Pings(After(max, s, es).frames) == Pings(s.frames) + Beats(es)
    decreases es
  {
    if es != [] {
      var next := Apply(max, s, es[0]);
      assert next.frames != s.frames ==> next.frames[..|next.frames| - 1] == s.frames;
      HeartbeatsArePings(max, next, es[1..]);
    }
  }

  // ------------------------------------------------------------- the stream ends

  /** The handler gets from `s` to `t` by reading the row and sending, with nobody else stepping. */
  ghost predicate Goes(max: int, s: State, t: State) {
    exists es :: Run(max, s, es) && After(max, s, es) == t && forall i :: 0 <= i < |es| ==> es[i] in {ReadRow, SendOnce}
  }

  lemma GoesNowhere(max: int, s: State)
    ensures Goes(max, s, s)
  {
    var none: seq<Step> := [];
    assert Run(max, s, none) && After(max, s, none) == s;
  }

  lemma GoesFirst(max: int, s: State, e: Step, t: State)
    requires e in {ReadRow, SendOnce} && Enabled(s, e) && Goes(max, Apply(max, s, e), t)
    ensures Goes(max, s, t)
  {
    var es :| Run(max, Apply(max, s, e), es) && After(max, Apply(max, s, e), es) == t
              && forall i :: 0 <= i < |es| ==> es[i] in {ReadRow, SendOnce};
    var all := [e] + es;
    assert all[1..] == es;
    assert Run(max, s, all) && After(max, s, all) == t;
  }

  /** A `send` ends, and the stream with it, at once or after one more look at the row. */
  lemma {:induction false} SendLeadsTo(max: int, s: State) returns (t: State)
    requires Inv(max, s) && s.pc.Sending? && !s.row.InFlight?
    ensures Goes(max, s, t) && t.pc.Closed? && Finished in t.frames
    ensures s.row.Terminal? && !s.file.Deleted? ==> t.pc == Closed(Complete)
    decreases if s.pc.terminal then 0 else 2, Unread(s)
  {
    var next := Apply(max, s, SendOnce);
    StepKeepsInv(max, s, SendOnce);
    if next.pc.Sending? {
      t := SendLeadsTo(max, next);
    } else if next.pc.Waiting? {
      t := WaitLeadsTo(max, next);
    } else {
      t := next;
      GoesNowhere(max, t);
    }
    GoesFirst(max, s, SendOnce, t);
  }

  /** A handler that waits, of a job whose row is no more in flight, ends its stream. */
  lemma {:induction false} WaitLeadsTo(max: int, s: State) returns (t: State)
    requires Inv(max, s) && s.pc.Waiting? && !s.row.InFlight?
    ensures Goes(max, s, t) && t.pc.Closed? && Finished in t.frames
    ensures s.row.Terminal? && !s.file.Deleted? ==> t.pc == Closed(Complete)
    decreases 1, 0
  {
    var next := Apply(max, s, ReadRow);
    StepKeepsInv(max, s, ReadRow);
    if next.pc.Sending? {
      t := SendLeadsTo(max, next);
    } else {
      t := next;
      GoesNowhere(max, t);
    }
    GoesFirst(max, s, ReadRow, t);
  }

  /**
   Once a job's row is no more in flight its stream, left alone, says "finished", unless
   it is over already; and after all of the log, if neither row nor log was deleted.
   */
  lemma StreamEnds(max: int, s: State, es: seq<Step>) returns (t: State)
    requires Init(s) && Run(max, s, es)
    requires !After(max, s, es).row.InFlight? && !After(max, s, es).pc.Closed?
    ensures Goes(max, After(max, s, es), t) && t.pc.Closed? && Finished in t.frames
    ensures After(max, s, es).row.Terminal? && !After(max, s, es).file.Deleted? ==> t.pc == Closed(Complete)
  {
    RunKeepsInv(max, s, es);
    var now := After(max, s, es);
    if now.pc.Sending? { t := SendLeadsTo(max, now); } else { t := WaitLeadsTo(max, now); }
  }
}
