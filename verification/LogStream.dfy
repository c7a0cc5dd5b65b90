/**
 The log stream of internal/api/logs_stream.go: the `send` loop on a file, and the
 whole handler as a machine whose steps interleave with the job's writer.
 */
module LogStream {
  import opened Bytes
  import opened EventStream
  import LogReader
  import Utf8

  function Size(file: Option<seq<Byte>>): nat {
    if file.None? then 0 else |file.value|
  }

  /** The number of bytes of a log of this size that a stream may send. */
  function Visible(max: int, size: nat): (n: nat)
    ensures n == if max > 0 then Min(max, size) else size
  {
    if max > 0 && size > max then max else size
  }

  // ------------------------------------------------------------- one iteration

  /** One turn of the `send` loop: stop at `offset`, or send `data` and go on. */
  datatype Turn = Stop(offset: nat) | More(data: seq<Byte>, next: nat)

  function SendTurn(max: int, file: Option<seq<Byte>>, offset: nat, sent: nat): Turn {
    if max > 0 && sent >= max then Stop(offset)
    else
      var (data, next) := LogReader.ReadFrom(file, offset);
      if data == [] then Stop(next)
      else if max > 0 && sent + |data| > max then More(data[..max - sent], offset + (max - sent))
      else More(data, next)
  }

  /** From a prefix already sent, a turn extends the prefix, or everything visible is sent. */
  lemma TurnExtendsPrefix(max: int, file: Option<seq<Byte>>, sent: nat)
    requires sent <= Visible(max, Size(file))
    ensures
      match SendTurn(max, file, sent, sent)
      case Stop(next) => next == sent == Visible(max, Size(file))
      case More(data, next) =>
        && file.Some? && |data| > 0 && next == sent + |data| <= Visible(max, Size(file))
        && data == file.value[sent..next]
  {
    var (data, next) := LogReader.ReadFrom(file, sent);
    if max > 0 && sent < max < sent + |data| {
      TakeSlice(file.value, sent, next, max - sent);
    }
  }

  lemma {:induction false} SentSnoc(fs: seq<Frame>, f: Frame)
    ensures Sent(fs + [f]) == Sent(fs) + if f.Data? then f.chunk else []
  {
    if fs == [] {
      assert fs + [f] == [f] && [f][1..] == [];
    } else {
      assert (fs + [f])[0] == fs[0] && (fs + [f])[1..] == fs[1..] + [f];
      SentSnoc(fs[1..], f);
      Assoc(if fs[0].Data? then fs[0].chunk else [], Sent(fs[1..]), if f.Data? then f.chunk else []);
    }
  }

  lemma {:induction false} EncodeSnoc(fs: seq<Frame>, f: Frame)
    ensures EncodeAll(fs + [f]) == EncodeAll(fs) + Encode(f)
  {
    if fs == [] {
      assert fs + [f] == [f] && [f][1..] == [];
    } else {
      assert (fs + [f])[0] == fs[0] && (fs + [f])[1..] == fs[1..] + [f];
      EncodeSnoc(fs[1..], f);
      Assoc(Encode(fs[0]), EncodeAll(fs[1..]), Encode(f));
    }
  }

  lemma PrefixGrows(s: seq<Byte>, i: nat, j: nat)
    requires i <= j <= |s|
    ensures s[..i] + s[i..j] == s[..j]
  {
  }

  // --------------------------------------------------------- the imperative form

  /** The locals of `streamJobLogs` that `send` closes over. */
  class Streamer {
    const max: int
    const w: ResponseWriter
    var offset: nat
    var sent: nat
    ghost var frames: seq<Frame>

    constructor (w: ResponseWriter, max: int)
      requires w.body == []
      ensures this.w == w && this.max == max && offset == sent == 0 && frames == []
    {
      this.w := w;
      this.max := max;
      offset, sent := 0, 0;
      frames := [];
    }

    /** What has been sent is the start of the file, and is on the wire. */
    ghost predicate Follows(file: Option<seq<Byte>>)
      reads this, w
    {
      && offset == sent <= Visible(max, Size(file))
      && Sent(frames) == (if file.None? then [] else file.value[..sent])
      && w.body == EncodeAll(frames)
    }

    /**
     On a file that does not change, `send` ends with everything visible sent. It ends
     early, with a longer prefix sent, when the client has left by the turn numbered
     `leavesAt` or the read in the turn numbered `failsAt` fails.
     */
    method Send(file: Option<seq<Byte>>, leavesAt: nat, failsAt: nat) returns (ok: bool)
      requires Follows(file)
      modifies this, w
      ensures Follows(file) && old(frames) <= frames && old(sent) <= sent
      ensures ok ==> sent == if file.None? then 0 else if max > 0 then Min(max, |file.value|) else |file.value|
      ensures |frames| <= |old(frames)| + Min(leavesAt, failsAt)
      ensures !ok ==> |frames| == |old(frames)| + Min(leavesAt, failsAt)
    {
      ghost var before, start := frames, sent;
      var turn := 0;
      while true
        invariant Follows(file) && before <= frames && start <= sent
        invariant turn <= Min(leavesAt, failsAt) && |frames| == |before| + turn
        decreases Size(file) - sent
      {
        TurnExtendsPrefix(max, file, sent);
        if turn == leavesAt {
          return false;
        }
        if max > 0 && sent >= max {
          return true;
        }
        if turn == failsAt {
          return false;
        }
        var (data, next) := LogReader.ReadFrom(file, offset);
        if |data| == 0 {
          offset := next;
          return true;
        }
        if max > 0 && sent + |data| > max {
          data := data[..max - sent];
          next := offset + |data|;
        }
        assert SendTurn(max, file, offset, sent) == More(data, next);
        WriteSSEData(w, data);
        SentSnoc(frames, Data(data));
        EncodeSnoc(frames, Data(data));
        PrefixGrows(file.value, sent, next);
        frames := frames + [Data(data)];
        sent := sent + |data|;
        offset := next;
        turn := turn + 1;
      }
    }
  }

  // ------------------------------------------------ the handler as a step machine

  datatype Row = InFlight | Terminal | Pruned

  datatype Presence = NotYet | There | Deleted

  /** After a terminal row, the same with the log deleted, for want of a row, or without a last event. */
  datatype Ending = Complete | LogGone | RowMissing | Aborted

  /** Between row reads, inside `send` with the row as it was read, or over. */
  datatype Pc = Waiting | Sending(terminal: bool) | Closed(how: Ending)

  /**
   `atFinish` is how long the log was when the row turned terminal, and `stale` that
   the log was emptied after some of it was sent.
   */
  datatype State = State(log: seq<Byte>, file: Presence, row: Row, pc: Pc,
                         offset: nat, sent: nat, frames: seq<Frame>, atFinish: nat, stale: bool)

  datatype Step =
    | CreateLog                    // the job opens its log
    | RestartLog                   // a requeued job opens it again, which empties it
    | AppendLog(p: seq<Byte>)      // the job writes
    | FinishRow                    // the row turns terminal
    | PruneRow                     // retention deletes the row
    | DeleteLog                    // retention deletes the log
    | ReadRow                      // the handler reads the row again and enters `send`
    | MissRow                      // the handler cannot read the row: a store error
    | SendOnce                     // one turn of `send`
    | Heartbeat
    | Abort                        // the client leaves, or a read fails

  function FileOf(s: State): Option<seq<Byte>> {
    if s.file.There? then Some(s.log) else None
  }

  /** The handler has read the row once, or answered that there is none and not streamed. */
  ghost predicate Init(s: State) {
    && s.offset == s.sent == 0 && s.frames == [] && !s.stale
    && (s.file.NotYet? ==> s.log == [])
    && (|| (s.row.InFlight? && s.pc == Sending(false) && s.atFinish == 0 && !s.file.Deleted?)
        || (s.row.Terminal? && s.pc == Sending(true) && s.atFinish <= |s.log|))
  }

  predicate Enabled(s: State, e: Step) {
    match e
    case CreateLog => s.file.NotYet?
    case RestartLog => s.file.There? && s.row.InFlight?
    case AppendLog(_) => s.file.There?
    case FinishRow => s.row.InFlight?
    case PruneRow => s.row.Terminal?
    case DeleteLog => s.file.There? && !s.row.InFlight?
    case ReadRow => s.pc.Waiting?
    case MissRow => s.pc.Waiting?
    case SendOnce => s.pc.Sending?
    case Heartbeat => s.pc.Waiting?
    case Abort => !s.pc.Closed?
  }

  function Apply(max: int, s: State, e: Step): State
    requires Enabled(s, e)
  {
    match e
    case CreateLog => s.(file := There)
    case RestartLog => s.(log := [], stale := s.stale || s.sent > 0)
    case AppendLog(p) => s.(log := s.log + p)
    case FinishRow => s.(row := Terminal, atFinish := |s.log|)
    case PruneRow => s.(row := Pruned)
    case DeleteLog => s.(file := Deleted)
    case ReadRow =>
      if s.row.Pruned? then s.(pc := Closed(RowMissing), frames := s.frames + [Finished])
      else s.(pc := Sending(s.row.Terminal?))
    case MissRow => s.(pc := Closed(RowMissing), frames := s.frames + [Finished])
    case SendOnce =>
      (match SendTurn(max, FileOf(s), s.offset, s.sent)
       case More(data, next) =>
         s.(offset := next, sent := s.sent + |data|, frames := s.frames + [Data(data)])
       case Stop(next) =>
         if s.pc.terminal then
           s.(offset := next, pc := Closed(if s.file.Deleted? then LogGone else Complete),
              frames := s.frames + [Finished])
         else s.(offset := next, pc := Waiting))
    case Heartbeat => s.(frames := s.frames + [Ping])
    case Abort => s.(pc := Closed(Aborted))
  }

  predicate Run(max: int, s: State, es: seq<Step>)
    decreases es
  {
    es == [] || (Enabled(s, es[0]) && Run(max, Apply(max, s, es[0]), es[1..]))
  }

  function After(max: int, s: State, es: seq<Step>): State
    requires Run(max, s, es)
    decreases es
  {
    if es == [] then s else After(max, Apply(max, s, es[0]), es[1..])
  }

  /** What has been sent is the start of the log, within the cap. */
  ghost predicate Prefix(max: int, s: State) {
    s.sent <= Visible(max, |s.log|) && Sent(s.frames) == s.log[..s.sent]
  }

  ghost predicate Inv(max: int, s: State) {
    && (s.file.NotYet? ==> s.log == [] && s.sent == 0)
    && (!s.file.Deleted? ==> s.offset == s.sent)
    && (s.row.InFlight? ==> s.atFinish == 0 && !s.file.Deleted?)
    && (!s.stale ==> Prefix(max, s) && s.atFinish <= |s.log|)
    && (s.pc.Sending? && s.pc.terminal ==> !s.row.InFlight?)
    && (s.pc == Closed(Complete) ==> !s.row.InFlight? && (!s.stale ==> s.sent >= Visible(max, s.atFinish)))
    && (Finished in s.frames <==> s.pc.Closed? && !s.pc.how.Aborted?)
  }

  /** A turn that ends `send`, on a log of which everything visible was sent, or on no file. */
  lemma StopKeepsInv(max: int, s: State)
    requires Inv(max, s) && s.pc.Sending? && SendTurn(max, FileOf(s), s.offset, s.sent).Stop?
    ensures Inv(max, Apply(max, s, SendOnce))
  {
    SentSnoc(s.frames, Finished);
    assert Sent(s.frames + [Finished]) == Sent(s.frames);
    if s.file.There? && !s.stale { TurnExtendsPrefix(max, FileOf(s), s.sent); }
  }

  lemma MoreKeepsInv(max: int, s: State)
    requires Inv(max, s) && s.pc.Sending? && SendTurn(max, FileOf(s), s.offset, s.sent).More?
    ensures Inv(max, Apply(max, s, SendOnce))
  {
    var turn := SendTurn(max, FileOf(s), s.offset, s.sent);
    if !s.stale {
      TurnExtendsPrefix(max, FileOf(s), s.sent);
      SentSnoc(s.frames, Data(turn.data));
      PrefixGrows(s.log, s.sent, turn.next);
    }
    assert Finished in s.frames + [Data(turn.data)] <==> Finished in s.frames;
  }

  lemma LogKeepsInv(max: int, s: State, e: Step)
    requires Inv(max, s) && Enabled(s, e) && (e.CreateLog? || e.RestartLog? || e.AppendLog? || e.DeleteLog?)
    ensures Inv(max, Apply(max, s, e))
  {
    if e.AppendLog? && !s.stale { assert (s.log + e.p)[..s.sent] == s.log[..s.sent]; }
  }

  /** Between row reads the handler may send a comment, or a last event. */
  lemma FrameKeepsInv(max: int, s: State, f: Frame, pc: Pc)
    requires Inv(max, s) && s.pc.Waiting?
    requires (f == Ping && pc == Waiting) || (f == Finished && pc == Closed(RowMissing))
    ensures Inv(max, s.(frames := s.frames + [f], pc := pc))
  {
    SentSnoc(s.frames, f);
    assert Sent(s.frames + [f]) == Sent(s.frames);
    assert Finished in s.frames + [f] <==> Finished in s.frames || f == Finished;
  }

  lemma StepKeepsInv(max: int, s: State, e: Step)
    requires Inv(max, s) && Enabled(s, e)
    ensures Inv(max, Apply(max, s, e))
  {
    match e
    case CreateLog => LogKeepsInv(max, s, e);
    case RestartLog => LogKeepsInv(max, s, e);
    case AppendLog(_) => LogKeepsInv(max, s, e);
    case DeleteLog => LogKeepsInv(max, s, e);
    case SendOnce =>
      if SendTurn(max, FileOf(s), s.offset, s.sent).Stop? { StopKeepsInv(max, s); } else { MoreKeepsInv(max, s); }
    case ReadRow => FrameKeepsInv(max, s, Finished, Closed(RowMissing));
    case MissRow => FrameKeepsInv(max, s, Finished, Closed(RowMissing));
    case Heartbeat => FrameKeepsInv(max, s, Ping, Waiting);
    case _ =>
  }

  lemma {:induction false} RunKeepsInv(max: int, s: State, es: seq<Step>)
    requires Inv(max, s) && Run(max, s, es)
    ensures Inv(max, After(max, s, es))
    decreases es
  {
    if es != [] {
      StepKeepsInv(max, s, es[0]);
      RunKeepsInv(max, Apply(max, s, es[0]), es[1..]);
    }
  }

  /**
   In every run in which the log is not emptied under the stream: the stream has sent a
   prefix of the log, within the cap; and when it said "finished", either that prefix
   holds everything visible that the log held when the row turned terminal, or the log
   had been deleted, or the row could not be read.
   */
  lemma StreamIsComplete(max: int, s: State, es: seq<Step>)
    requires Init(s) && Run(max, s, es)
    ensures
      var t := After(max, s, es);
      && (!t.stale ==> Prefix(max, t))
      && (!t.stale && t.pc == Closed(Complete) ==> t.sent >= Visible(max, t.atFinish))
      && (Finished in t.frames <==> t.pc.Closed? && t.pc.how in {Complete, LogGone, RowMissing})
  {
    RunKeepsInv(max, s, es);
  }

  /** Emptying the log leaves what was sent a prefix of it exactly when nothing was. */
  lemma RestartKeepsPrefix(max: int, s: State)
    requires Inv(max, s) && !s.stale && Enabled(s, RestartLog)
    ensures Prefix(max, Apply(max, s, RestartLog)) <==> s.sent == 0
    ensures Apply(max, s, RestartLog).stale <==> s.sent > 0
  {
  }

  /**
   What the reader of the stream ends up with: what was sent, if and only if that holds
   no CR and every chunk was valid UTF-8; for valid text, if and only if it holds no CR
   and no chunk ended inside a character.
   */
  lemma ReaderSeesTheLog(max: int, s: State, es: seq<Step>)
    requires Init(s) && Run(max, s, es)
    ensures
      var t := After(max, s, es);
      var seen := Sent(t.frames);
      && (!t.stale ==> t.sent <= |t.log| && seen == t.log[..t.sent])
      && (Shown(EncodeAll(t.frames)) == seen <==> CR !in seen && AllWhole(t.frames))
      && (Utf8.Valid(seen) ==> (Shown(EncodeAll(t.frames)) == seen <==> CR !in seen && Uncut(t.frames)))
  {
    RunKeepsInv(max, s, es);
    var t := After(max, s, es);
    RoundTrip(t.frames);
    if Utf8.Valid(Sent(t.frames)) { RoundTripOfText(t.frames); }
  }

  /** How many bytes `send` could still read. */
  function Unread(s: State): nat {
    if s.file.There? && s.offset < |s.log| then |s.log| - s.offset else 0
  }

  /** With nobody else stepping, `send` is over after finitely many turns. */
  lemma {:induction false} SendTerminates(max: int, s: State)
    requires Inv(max, s) && s.pc.Sending?
    ensures exists es :: Run(max, s, es) && !After(max, s, es).pc.Sending?
                         && forall i :: 0 <= i < |es| ==> es[i] == SendOnce
    decreases Unread(s)
  {
    var t := Apply(max, s, SendOnce);
    StepKeepsInv(max, s, SendOnce);
    if t.pc.Sending? {
      SendTerminates(max, t);
      var es :| Run(max, t, es) && !After(max, t, es).pc.Sending?
                && forall i :: 0 <= i < |es| ==> es[i] == SendOnce;
      var all := [SendOnce] + es;
      assert all[1..] == es;
      assert Run(max, s, all);
    } else {
      var one := [SendOnce];
      assert one[1..] == [] && Run(max, t, []);
      assert Run(max, s, one) && After(max, s, one) == t;
    }
  }

  // --------------------------------------------------- runs whose reader loses something

  /** Some run of a handler that has just started ends in `t`. */
  ghost predicate Reached(max: int, t: State) {
    exists s, es :: Init(s) && Run(max, s, es) && After(max, s, es) == t
  }

  lemma ReachedInit(max: int, s: State)
    requires Init(s)
    ensures Reached(max, s)
  {
    var none: seq<Step> := [];
    assert Run(max, s, none) && After(max, s, none) == s;
  }

  lemma {:induction false} RunSnoc(max: int, s: State, es: seq<Step>, e: Step)
    requires Run(max, s, es) && Enabled(After(max, s, es), e)
    ensures Run(max, s, es + [e]) && After(max, s, es + [e]) == Apply(max, After(max, s, es), e)
    decreases es
  {
    if es == [] {
      assert es + [e] == [e] && [e][1..] == [];
      assert Run(max, Apply(max, s, e), []);
    } else {
      assert (es + [e])[1..] == es[1..] + [e];
      RunSnoc(max, Apply(max, s, es[0]), es[1..], e);
    }
  }

  lemma ReachedNext(max: int, t: State, e: Step)
    requires Reached(max, t) && Enabled(t, e)
    ensures Reached(max, Apply(max, t, e))
  {
    var s, es :| Init(s) && Run(max, s, es) && After(max, s, es) == t;
    RunSnoc(max, s, es, e);
  }

  /** A log deleted after its row was read: "finished", and nothing of it sent. */
  lemma DeletedLogEndsShort()
    ensures exists t :: Reached(0, t) && t.pc == Closed(LogGone) && Finished in t.frames
                        && !t.stale && t.sent < Visible(0, t.atFinish)
  {
    var s := State([65], There, Terminal, Sending(true), 0, 0, [], 1, false);
    ReachedInit(0, s);
    ReachedNext(0, s, DeleteLog);
    var t := Apply(0, s, DeleteLog);
    ReachedNext(0, t, SendOnce);
    assert Apply(0, t, SendOnce).frames == [] + [Finished];
  }

  /** A turn that sends the rest of a short log. */
  lemma RestSent(s: State) returns (t: State)
    requires Reached(0, s) && s.file.There? && s.pc.Sending?
    requires s.offset < |s.log| <= s.offset + LogReader.READ_FROM_CHUNK
    ensures Reached(0, t)
    ensures
      var data := s.log[s.offset..];
      t == s.(offset := |s.log|, sent := s.sent + |data|, frames := s.frames + [Data(data)])
  {
    ReachedNext(0, s, SendOnce);
    t := Apply(0, s, SendOnce);
    assert s.log[s.offset..|s.log|] == s.log[s.offset..];
  }

  /** A stream that has just sent the first byte of a running job's log. */
  lemma OneByteSent(x: Byte) returns (t: State)
    ensures Reached(0, t)
    ensures t == State([x], There, InFlight, Sending(false), 1, 1, [Data([x])], 0, false)
  {
    var s := State([x], There, InFlight, Sending(false), 0, 0, [], 0, false);
    ReachedInit(0, s);
    t := RestSent(s);
    assert s.log[0..] == [x] && [] + [Data([x])] == [Data([x])];
  }

  /** What was sent in a chunk that is no valid text is not shown. */
  lemma FirstChunkInvalid(fs: seq<Frame>)
    requires fs != [] && fs[0].Data? && !Utf8.Valid(fs[0].chunk)
    ensures Shown(EncodeAll(fs)) != Sent(fs)
  {
    RoundTrip(fs);
  }

  lemma CheckMarkSent() returns (t: State)
    ensures Reached(0, t) && !t.stale && t.log == [0xe2, 0x9c, 0x93] && t.sent == 3
    ensures t.frames != [] && t.frames[0] == Data([0xe2])
  {
    var s := OneByteSent(0xe2);
    ReachedNext(0, s, AppendLog([0x9c, 0x93]));
    s := Apply(0, s, AppendLog([0x9c, 0x93]));
    assert s.log == [0xe2, 0x9c, 0x93];
    t := RestSent(s);
  }

  /** A check mark written in two writes, with a turn of `send` after each. */
  lemma CutCharacterRun()
    ensures exists t ::
              && Reached(0, t) && !t.stale && t.sent == |t.log| && Utf8.Valid(t.log) && CR !in t.log
              && Shown(EncodeAll(t.frames)) != t.log
  {
    var t := CheckMarkSent();
    assert Utf8.Valid(t.log) && CR !in t.log by {
      assert Utf8.RuneLength(t.log) == 3 && t.log[3..] == [];
    }
    assert Utf8.RuneLength(t.frames[0].chunk) == 0;
    FirstChunkInvalid(t.frames);
    assert Sent(t.frames) == t.log by {
      var s, es :| Init(s) && Run(0, s, es) && After(0, s, es) == t;
      StreamIsComplete(0, s, es);
      assert t.log[..t.sent] == t.log;
    }
    assert Shown(EncodeAll(t.frames)) != t.log;
  }

  lemma {:induction false} FramesGrow(max: int, s: State, es: seq<Step>)
    requires Run(max, s, es)
    ensures s.frames <= After(max, s, es).frames
    decreases es
  {
    if es != [] { FramesGrow(max, Apply(max, s, es[0]), es[1..]); }
  }

  /** A valid log with a character across the end of the first read is never shown, however it goes on. */
  lemma ReadCutsCharacter(max: int, s: State, es: seq<Step>)
    requires Init(s) && s.file.There? && Utf8.Valid(s.log) && (max <= 0 || max > LogReader.READ_FROM_CHUNK)
    requires |s.log| > LogReader.READ_FROM_CHUNK && Utf8.IsTail(s.log[LogReader.READ_FROM_CHUNK])
    requires Run(max, Apply(max, s, SendOnce), es)
    ensures
      var t := After(max, Apply(max, s, SendOnce), es);
      Shown(EncodeAll(t.frames)) != Sent(t.frames)
  {
    var n := LogReader.READ_FROM_CHUNK;
    var next := Apply(max, s, SendOnce);
    assert next.frames == [] + [Data(s.log[..n])];
    Utf8.PrefixValid(s.log, n);
    FramesGrow(max, next, es);
    FirstChunkInvalid(After(max, next, es).frames);
  }

  /** A requeued job's log is shown from where the old one was left. */
  lemma RestartMixesLogs()
    ensures exists t :: Reached(0, t) && t.pc == Closed(Complete) && t.log == [66, 67] && Sent(t.frames) == [65, 67]
  {
    var s := OneByteSent(65);
    ReachedNext(0, s, RestartLog);
    s := Apply(0, s, RestartLog);
    ReachedNext(0, s, AppendLog([66, 67]));
    s := Apply(0, s, AppendLog([66, 67]));
    assert s.log == [66, 67] && s.log[1..] == [67];
    s := RestSent(s);
    SentSnoc([Data([65])], Data([67]));
    SentSnoc([], Data([65]));
    assert [] + [Data([65])] == [Data([65])];
    assert Sent(s.frames) == [65, 67];
    var t := Finishes(s);
  }

  /** With everything sent, the row turns terminal, and the stream ends. */
  lemma Finishes(s: State) returns (t: State)
    requires Reached(0, s) && s.file.There? && s.pc == Sending(false) && s.row.InFlight? && s.offset == |s.log|
    ensures Reached(0, t) && t.pc == Closed(Complete) && t.log == s.log && Sent(t.frames) == Sent(s.frames)
  {
    ReachedNext(0, s, SendOnce);
    t := Apply(0, s, SendOnce);
    ReachedNext(0, t, FinishRow);
    t := Apply(0, t, FinishRow);
    ReachedNext(0, t, ReadRow);
    t := Apply(0, t, ReadRow);
    ReachedNext(0, t, SendOnce);
    t := Apply(0, t, SendOnce);
    SentSnoc(s.frames, Finished);
  }
}
