/**
 The per-job log file of internal/logs/logs.go: a byte-capped writer behind the
 escape filter, and the whole-file reader. The file on disk is, at every moment,
 a function of the writes made so far.
 */
module LogWriter {
  import opened Bytes
  import opened Ansi

  /** The file a log path names. */
  class LogFile {
    var data: seq<Byte>

    constructor ()
      ensures data == []
    {
      data := [];
    }
  }

  function Decimal(n: nat): seq<Byte> {
    if n < 10 then [0x30 + n] else Decimal(n / 10) + [0x30 + n % 10]
  }

  /** The line that explains a truncated log. */
  function Notice(max: nat): seq<Byte> {
    Ascii("\n\n--- log truncated at ") + Decimal(max) + Ascii(" bytes (max_log_bytes) ---\n")
  }

  /** The number that decimal digits stand for. */
  function Numeral(digits: seq<Byte>): int {
    if digits == [] then 0 else Numeral(digits[..|digits| - 1]) * 10 + (digits[|digits| - 1] as int - 0x30)
  }

  /** Digits without a leading zero, of the number itself. */
  lemma {:induction false} DecimalReads(n: nat)
    ensures Numeral(Decimal(n)) == n && Decimal(n) != []
    ensures forall i :: 0 <= i < |Decimal(n)| ==> 0x30 <= Decimal(n)[i] <= 0x39
    ensures n > 0 ==> Decimal(n)[0] != 0x30
  {
    if n >= 10 {
      DecimalReads(n / 10);
      assert Decimal(n)[..|Decimal(n)| - 1] == Decimal(n / 10);
    } else {
      assert Decimal(n)[..0] == [];
    }
  }

  // ------------------------------------------------------------ specification

  /** What the file holds of the stripped log: all of it, or its first `max` bytes. */
  function Payload(max: int, writes: seq<seq<Byte>>): seq<Byte> {
    var all := Strip(Flatten(writes));
    if max > 0 && |all| > max then all[..max] else all
  }

  /** It is a prefix of the stripped log, as long as the cap allows. */
  lemma PayloadIsCapped(max: int, writes: seq<seq<Byte>>)
    ensures
      var all := Kept([], Flatten(writes));
      && Payload(max, writes) <= all
      && |Payload(max, writes)| == if max > 0 then Min(max, |all|) else |all|
  {
  }

  /** No write ended exactly on the cap. */
  ghost predicate NeverOn(max: int, writes: seq<seq<Byte>>) {
    forall k :: 0 <= k <= |writes| ==> |Strip(Flatten(writes[..k]))| != max
  }

  /**
   The log is marked truncated when one write carries it across the cap: it ends
   above the cap, and no write ended exactly on it.
   */
  ghost predicate Truncates(max: int, writes: seq<seq<Byte>>) {
    && max > 0
    && |Strip(Flatten(writes))| > max
    && NeverOn(max, writes)
  }

  /** The file after `writes`, given the text that marks a truncated log. */
  ghost function Contents(max: int, notice: seq<Byte>, writes: seq<seq<Byte>>): seq<Byte> {
    Payload(max, writes) + if Truncates(max, writes) then notice else []
  }

  lemma StripSnoc(writes: seq<seq<Byte>>, p: seq<Byte>)
    ensures Strip(Flatten(writes + [p])) == Strip(Flatten(writes)) + Kept(Held([], Flatten(writes)), p)
    ensures Held([], Flatten(writes + [p])) == Held(Held([], Flatten(writes)), p)
  {
    FlattenSnoc(writes, p);
    Split([], Flatten(writes), p);
  }

  lemma NeverOnSnoc(max: int, writes: seq<seq<Byte>>, p: seq<Byte>)
    ensures NeverOn(max, writes + [p]) <==> NeverOn(max, writes) && |Strip(Flatten(writes + [p]))| != max
  {
    var more := writes + [p];
    assert more[..|more|] == more;
    forall k | 0 <= k <= |writes| ensures more[..k] == writes[..k] {}
    if NeverOn(max, more) {
      forall k | 0 <= k <= |writes| ensures |Strip(Flatten(writes[..k]))| != max {
        assert more[..k] == writes[..k];
      }
      assert |Strip(Flatten(more[..|more|]))| != max;
    }
  }

  /** The mark set by one more write: kept, or set when the cap is crossed here. */
  lemma TruncatesSnoc(max: int, writes: seq<seq<Byte>>, p: seq<Byte>)
    ensures
      var before, after := |Strip(Flatten(writes))|, |Strip(Flatten(writes + [p]))|;
      Truncates(max, writes + [p]) <==>
        Truncates(max, writes) || (max > 0 && before < max < after && NeverOn(max, writes))
  {
    StripSnoc(writes, p);
    NeverOnSnoc(max, writes, p);
    if NeverOn(max, writes) {
      assert writes[..|writes|] == writes;
      assert |Strip(Flatten(writes[..|writes|]))| != max;
    }
  }

  lemma {:induction false} PrefixIsShorter(writes: seq<seq<Byte>>, k: nat)
    requires k <= |writes|
    ensures |Strip(Flatten(writes[..k]))| <= |Strip(Flatten(writes))|
  {
    if k == |writes| {
      assert writes[..k] == writes;
    } else {
      var front, last := writes[..|writes| - 1], writes[|writes| - 1];
      assert writes == front + [last] && writes[..k] == front[..k];
      PrefixIsShorter(front, k);
      StripSnoc(front, last);
    }
  }

  /** While the log is below its cap no earlier write ended on the cap. */
  lemma BelowCap(max: int, writes: seq<seq<Byte>>)
    requires |Strip(Flatten(writes))| < max
    ensures !Truncates(max, writes)
    ensures NeverOn(max, writes)
  {
    forall k | 0 <= k <= |writes| ensures |Strip(Flatten(writes[..k]))| != max {
      PrefixIsShorter(writes, k);
    }
  }

  /** The write numbered `k` carries the filtered log from below the cap to above it. */
  ghost predicate Crosses(max: int, writes: seq<seq<Byte>>, k: nat)
    requires k < |writes|
  {
    |Kept([], Flatten(writes[..k]))| < max < |Kept([], Flatten(writes[..k + 1]))|
  }

  lemma {:induction false} TruncatesIsCrossing(max: int, writes: seq<seq<Byte>>)
    ensures Truncates(max, writes) <==> max > 0 && exists k: nat :: k < |writes| && Crosses(max, writes, k)
  {
    if writes != [] {
      var n := |writes| - 1;
      var front, last := writes[..n], writes[n];
      assert writes == front + [last] && writes[..n + 1] == writes;
      TruncatesIsCrossing(max, front);
      TruncatesSnoc(max, front, last);
      if |Strip(Flatten(front))| < max { BelowCap(max, front); }
      forall k: nat | k < n ensures Crosses(max, writes, k) <==> Crosses(max, front, k) {
        assert front[..k] == writes[..k] && front[..k + 1] == writes[..k + 1];
      }
      assert Crosses(max, writes, n) <==> |Strip(Flatten(front))| < max < |Strip(Flatten(writes))|;
    }
  }

  /** A write to a full log changes neither the payload nor the mark. */
  lemma FullStaysFull(max: int, writes: seq<seq<Byte>>, p: seq<Byte>)
    requires 0 < max <= |Payload(max, writes)|
    ensures Payload(max, writes + [p]) == Payload(max, writes)
    ensures Truncates(max, writes + [p]) <==> Truncates(max, writes)
  {
    StripSnoc(writes, p);
    TruncatesSnoc(max, writes, p);
  }

  /** The bytes of a filtered chunk that still fit. */
  function Fitting(max: int, written: nat, chunk: seq<Byte>): seq<Byte>
    requires max <= 0 || written < max
  {
    if max > 0 && written + |chunk| > max then chunk[..max - written] else chunk
  }

  /** A write to a log below its cap appends what fits, and marks it when not all did. */
  lemma AppendPayload(max: int, writes: seq<seq<Byte>>, p: seq<Byte>)
    requires max <= 0 || |Payload(max, writes)| < max
    ensures
      var written, chunk := |Payload(max, writes)|, Kept(Held([], Flatten(writes)), p);
      && Payload(max, writes + [p]) == Payload(max, writes) + Fitting(max, written, chunk)
      && !Truncates(max, writes)
      && (Truncates(max, writes + [p]) <==> max > 0 && written + |chunk| > max)
      && Held([], Flatten(writes + [p])) == Held(Held([], Flatten(writes)), p)
  {
    StripSnoc(writes, p);
    TruncatesSnoc(max, writes, p);
    if max > 0 { BelowCap(max, writes); }
  }

  /**
   What a log's file and its writer hold: the bytes of the log, then the part of the
   notice that landed; whether the cap was crossed; what the filter holds; and whether
   some write to the file was short.
   */
  datatype Log = Log(stored: seq<Byte>, mark: seq<Byte>, overflow: bool, esc: seq<Byte>, lost: bool)

  /** Whatever has landed is a part of the stripped log, in order; if all did, it is the payload. */
  ghost predicate Sound(max: int, notice: seq<Byte>, writes: seq<seq<Byte>>, l: Log) {
    && l.mark <= notice && (l.mark != [] ==> l.overflow) && (max > 0 ==> |l.stored| <= max)
    && Subsequence(l.stored, Strip(Flatten(writes)))
    && (!l.lost ==>
          && l.stored == Payload(max, writes) && (l.overflow <==> Truncates(max, writes))
          && l.mark == if l.overflow then notice else [])
    && Partial(l.esc)
    && (!l.overflow && (max <= 0 || |l.stored| < max) ==> l.esc == Held([], Flatten(writes)))
  }

  /** A write to a log below its cap, of which so many bytes land. */
  function Landed(max: int, notice: seq<Byte>, l: Log, p: seq<Byte>, lands: nat, noticeLands: nat): Log
    requires max <= 0 || |l.stored| < max
  {
    var chunk := Kept(l.esc, p);
    var fits := Fitting(max, |l.stored|, chunk);
    var crossed := |fits| < |chunk|;
    var mark := if crossed then notice[..Min(noticeLands, |notice|)] else [];
    Log(l.stored + fits[..Min(lands, |fits|)], mark, crossed, Held(l.esc, p),
        l.lost || lands < |fits| || (crossed && noticeLands < |notice|))
  }

  lemma LandedIsPart(max: int, writes: seq<seq<Byte>>, stored: seq<Byte>, p: seq<Byte>, k: nat)
    requires Subsequence(stored, Strip(Flatten(writes))) && (max <= 0 || |stored| < max)
    requires k <= |Fitting(max, |stored|, Kept(Held([], Flatten(writes)), p))|
    ensures Subsequence(stored + Fitting(max, |stored|, Kept(Held([], Flatten(writes)), p))[..k],
                        Strip(Flatten(writes + [p])))
  {
    var chunk := Kept(Held([], Flatten(writes)), p);
    var fits := Fitting(max, |stored|, chunk);
    StripSnoc(writes, p);
    assert fits[..k] <= chunk;
    PrefixIsSubsequence(fits[..k], chunk);
    SubsequenceConcat(stored, fits[..k], Strip(Flatten(writes)), chunk);
  }

  lemma LandedIsSound(max: int, notice: seq<Byte>, writes: seq<seq<Byte>>, l: Log, p: seq<Byte>, lands: nat,
                      noticeLands: nat)
    requires Sound(max, notice, writes, l) && !l.overflow && (max <= 0 || |l.stored| < max)
    ensures Sound(max, notice, writes + [p], Landed(max, notice, l, p, lands, noticeLands))
  {
    var fits := Fitting(max, |l.stored|, Kept(l.esc, p));
    LandedIsPart(max, writes, l.stored, p, Min(lands, |fits|));
    StripSnoc(writes, p);
    ParseIsValid(l.esc, p);
    if !Landed(max, notice, l, p, lands, noticeLands).lost {
      AppendPayload(max, writes, p);
      assert fits[..|fits|] == fits;
    }
  }

  lemma IgnoredIsSound(max: int, notice: seq<Byte>, writes: seq<seq<Byte>>, l: Log, p: seq<Byte>)
    requires Sound(max, notice, writes, l) && (l.overflow || (max > 0 && |l.stored| >= max))
    ensures Sound(max, notice, writes + [p], l)
  {
    StoredStays(writes, p, l.stored);
    if !l.lost { FullStaysFull(max, writes, p); }
  }

  lemma StoredStays(writes: seq<seq<Byte>>, p: seq<Byte>, stored: seq<Byte>)
    requires Subsequence(stored, Strip(Flatten(writes)))
    ensures Subsequence(stored, Strip(Flatten(writes + [p])))
  {
    StripSnoc(writes, p);
    SubsequenceConcat(stored, [], Strip(Flatten(writes)), Kept(Held([], Flatten(writes)), p));
    assert stored + [] == stored;
  }

  /**
   The comment on `Truncated` says it reports whether the cap was reached. It does
   not when a write ends exactly on the cap: the rest is dropped without a notice.
   */
  lemma CapReachedWithoutNotice()
    ensures
      var writes: seq<seq<Byte>> := [[65], [65]];
      |Strip(Flatten(writes))| > 1 && !Truncates(1, writes) && Contents(1, Notice(1), writes) == [65]
  {
    var writes: seq<seq<Byte>> := [[65], [65]];
    assert writes[..1] == [[65]] && writes[..0] == [] && writes[1..] == [[65]];
    assert Flatten(writes[..1]) == [65] by { assert Flatten([[65]]) == Flatten(writes[..0]) + [65]; }
    assert Flatten(writes) == [65, 65];
    CleanPassesThrough([65]);
    CleanPassesThrough([65, 65]);
    assert |Strip(Flatten(writes[..1]))| == 1;
    assert [65, 65][..1] == [65];
  }

  // ------------------------------------------------------------ reading it back

  lemma {:induction false} DecimalIsClean(n: nat)
    ensures ESC !in Decimal(n)
  {
    if n >= 10 { DecimalIsClean(n / 10); }
  }

  lemma NoticeIsClean(max: nat)
    ensures ESC !in Notice(max)
  {
    DecimalIsClean(max);
    var a, b := Ascii("\n\n--- log truncated at "), Ascii(" bytes (max_log_bytes) ---\n");
    assert forall i :: 0 <= i < |a| ==> a[i] != ESC;
    assert forall i :: 0 <= i < |b| ==> b[i] != ESC;
  }

  /** The text a writer with this cap appends when the cap is crossed. */
  function NoticeFor(max: int): seq<Byte> {
    if max > 0 then Notice(max) else []
  }

  /** Filtering the file again on the way out changes nothing. */
  lemma ReadIsFaithful(max: int, writes: seq<seq<Byte>>)
    ensures Strip(Contents(max, NoticeFor(max), writes)) == Contents(max, NoticeFor(max), writes)
  {
    KeptHasNoEsc([], Flatten(writes));
    if max > 0 { NoticeIsClean(max); }
    CleanPassesThrough(Contents(max, NoticeFor(max), writes));
  }

  // --------------------------------------------------------- the imperative form

  /** internal/logs/logs.go: `Writer`. `max <= 0` means unlimited. */
  class Writer {
    const max: int
    const disk: LogFile
    /** What is printed once the cap is crossed; it depends on `max` alone. */
    const notice: seq<Byte>
    var f: LogFile?
    var written: nat
    var overflow: bool
    const ansi: AnsiFilter
    /** The writes made before `Close`. */
    ghost var writes: seq<seq<Byte>>
    ghost var closed: bool
    /** The bytes of the log in the file, and the part of the notice after them. */
    ghost var stored: seq<Byte>
    ghost var mark: seq<Byte>
    /** Some write to the file was short. */
    ghost var lost: bool

    ghost function Value(): Log
      reads this, ansi
    {
      Log(stored, mark, overflow, ansi.esc, lost)
    }

    ghost predicate Valid()
      reads this, disk, ansi
    {
      && (f == if overflow || closed then null else disk)
      && disk.data == stored + mark && written == |stored|
      && Sound(max, notice, writes, Value())
    }

    /** `Create`: the path's file is made empty. */
    constructor (file: LogFile, max: int)
      modifies file
      ensures Valid() && fresh(ansi)
      ensures notice == NoticeFor(max)
      ensures max > 0 ==>
                notice == Ascii("\n\n--- log truncated at ") + Decimal(max) + Ascii(" bytes (max_log_bytes) ---\n")
      ensures disk == file && this.max == max && writes == [] && !closed && !lost
    {
      this.max := max;
      disk := file;
      notice := NoticeFor(max);
      f := file;
      written := 0;
      overflow := false;
      ansi := new AnsiFilter();
      writes := [];
      closed := false;
      stored, mark, lost := [], [], false;
      new;
      file.data := [];
      assert Strip(Flatten(writes)) == [] && stored + mark == [];
    }

    /**
     Reports the whole write as landed, always; the file takes what fits of it, and at
     most `lands` bytes. It is an error to land short, unless it is the notice that does.
     */
    method Write(p: seq<Byte>, lands: nat, noticeLands: nat) returns (n: nat, ok: bool)
      requires Valid()
      modifies this, disk, ansi
      ensures Valid() && closed == old(closed)
      ensures writes == if closed then old(writes) else old(writes) + [p]
      ensures n == |p|
      ensures lost <==> old(lost) || !ok || (overflow && !old(overflow) && noticeLands < |notice|)
      ensures !lost && !Truncates(max, writes) ==> disk.data == Payload(max, writes)
      ensures !lost && Truncates(max, writes) ==> disk.data == Payload(max, writes) + notice
    {
      n, ok := |p|, true;
      if f == null {
        if !closed {
          IgnoredIsSound(max, notice, writes, Value(), p);
          writes := writes + [p];
        }
        return;
      }
      if max > 0 && written >= max {
        IgnoredIsSound(max, notice, writes, Value(), p);
        writes := writes + [p];
        return;
      }
      ok := Append(p, lands, noticeLands);
    }

    /** The rest of `Write`: filter, keep what fits, and close the file at the cap. */
    method Append(p: seq<Byte>, lands: nat, noticeLands: nat) returns (ok: bool)
      requires Valid() && f != null && (max <= 0 || written < max)
      modifies this, disk, ansi
      ensures Valid() && !closed && writes == old(writes) + [p]
      ensures Value() == Landed(max, notice, old(Value()), p, lands, noticeLands)
      ensures lost <==> old(lost) || !ok || (overflow && noticeLands < |notice|)
    {
      LandedIsSound(max, notice, writes, Value(), p, lands, noticeLands);
      writes := writes + [p];
      var chunk := Filtered(p);
      if |chunk| == 0 {
        assert stored + [] == stored;
        return true;
      }
      ok := Land(chunk, lands, noticeLands);
    }

    /** What is to be written of `p`, and whether that crosses the cap. */
    method Filtered(p: seq<Byte>) returns (chunk: seq<Byte>)
      requires Partial(ansi.esc) && !overflow && (max <= 0 || written < max)
      modifies this`overflow, ansi
      ensures chunk == Fitting(max, written, Kept(old(ansi.esc), p)) && ansi.esc == Held(old(ansi.esc), p)
      ensures overflow <==> |chunk| < |Kept(old(ansi.esc), p)|
    {
      chunk := ansi.Filter(p);
      if |chunk| == 0 {
        return;
      }
      if max > 0 && written + |chunk| > max {
        chunk := chunk[..max - written];
        overflow := true;
      }
    }

    /** Writes to the file, and to its end the notice when the cap was just crossed. */
    method Land(chunk: seq<Byte>, lands: nat, noticeLands: nat) returns (ok: bool)
      requires f == disk && disk.data == stored + mark && mark == [] && written == |stored|
      modifies this`written, this`stored, this`mark, this`lost, this`f, disk
      ensures stored == old(stored) + chunk[..Min(lands, |chunk|)] && written == |stored|
      ensures mark == if overflow then notice[..Min(noticeLands, |notice|)] else []
      ensures disk.data == stored + mark
      ensures f == if overflow then null else disk
      ensures ok <==> lands >= |chunk|
      ensures lost <==> old(lost) || !ok || (overflow && noticeLands < |notice|)
    {
      var k := Min(lands, |chunk|);
      f.data := f.data + chunk[..k];
      stored := stored + chunk[..k];
      written := written + k;
      ok := k == |chunk|;
      if overflow {
        mark := notice[..Min(noticeLands, |notice|)];
        f.data := f.data + notice[..Min(noticeLands, |notice|)];
        f := null;
      }
      lost := lost || !ok || (overflow && noticeLands < |notice|);
    }

    method Bytes() returns (n: nat)
      requires Valid()
      ensures n == |stored|
      ensures !lost ==> n == |Payload(max, writes)|
    {
      n := written;
    }

    method Truncated() returns (b: bool)
      requires Valid()
      ensures !lost ==> (b <==> Truncates(max, writes))
      ensures mark != [] ==> b
    {
      b := overflow;
    }

    method Close()
      requires Valid()
      modifies this`f, this`closed
      ensures Valid() && closed
    {
      f := null;
      closed := true;
    }
  }

  /** internal/logs/logs.go: `Read`. A missing file reads as empty. */
  method Read(file: LogFile?) returns (text: seq<Byte>)
    ensures text == if file == null then [] else Strip(file.data)
  {
    if file == null {
      return [];
    }
    var a := new AnsiFilter();
    text := a.Filter(file.data);
  }
}
