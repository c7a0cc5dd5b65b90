/** The offset reader and the tail of internal/logs/logs.go, on the bytes of one file. */
module LogReader {
  import opened Bytes
  import Utf8

  /** One `ReadFrom` returns at most this much, so one event cannot be a whole log. */
  const READ_FROM_CHUNK := 32768

  /** The bytes from `offset`, and the offset to pass next. `None` is a missing file. */
  function ReadFrom(file: Option<seq<Byte>>, offset: int): (r: (seq<Byte>, nat))
    ensures file.None? ==> r == ([], 0)
    ensures file.Some? && offset > |file.value| ==> r == ([], offset)
    ensures file.Some? && offset <= |file.value| ==>
              && Max(offset, 0) <= r.1 <= |file.value| && r.0 == file.value[Max(offset, 0)..r.1]
              && |r.0| <= 32 * 1024
              && (r.1 < |file.value| ==> |r.0| == 32 * 1024)
  {
    if file.None? then ([], 0)
    else
      var start: nat := if offset < 0 then 0 else offset;
      var size := |file.value|;
      if start > size then ([], start)
      else
        var n := if size - start > READ_FROM_CHUNK then READ_FROM_CHUNK else size - start;
        if n == 0 then ([], start) else (file.value[start..start + n], start + n)
  }

  /** "… earlier output omitted …" and a newline, in UTF-8. */
  const OMITTED: seq<Byte> :=
    [0xe2, 0x80, 0xa6] + Ascii(" earlier output omitted ") + [0xe2, 0x80, 0xa6, LF]

  /** At most `n` bytes from the end of a log, starting at a line when one starts there. */
  function Tail(file: Option<seq<Byte>>, n: nat): seq<Byte> {
    if file.None? then []
    else
      var size := |file.value|;
      var start := if size > n then size - n else 0;
      var out := file.value[start..];
      if start == 0 then out
      else
        var i := IndexByte(out, LF);
        OMITTED + if i >= 0 then out[i + 1..] else out
  }

  /** A suffix from `start`, cut after its first newline, is a suffix from a line start. */
  lemma LineCut(log: seq<Byte>, start: nat) returns (k: nat)
    requires start <= |log|
    ensures start <= k <= |log|
    ensures log[k..] == var i := IndexByte(log[start..], LF); if i >= 0 then log[start..][i + 1..] else log[start..]
    ensures if k == start then LF !in log[start..] else log[k - 1] == LF && LF !in log[start..k - 1]
  {
    var out := log[start..];
    var i := IndexByte(out, LF);
    if i < 0 {
      k := start;
    } else {
      k := start + i + 1;
      assert out[i + 1..] == log[k..];
      assert out[..i] == log[start..k - 1];
      assert out[i] == log[k - 1];
    }
  }

  /** The line that stands for what a tail leaves out. */
  lemma OmittedText()
    ensures OMITTED == Utf8.EncodeScalar(0x2026) + Ascii(" earlier output omitted ")
                       + (Utf8.EncodeScalar(0x2026) + [0x0a])
  {
    assert Utf8.EncodeScalar(0x2026) == [0xe2, 0x80, 0xa6];
  }

  /** A cut tail is the notice and the part of the last `n` bytes after their first newline. */
  lemma TailIsALineSuffix(log: seq<Byte>, n: nat)
    ensures |log| <= n ==> Tail(Some(log), n) == log
    ensures |log| > n ==> exists k ::
              && |log| - n <= k <= |log| && Tail(Some(log), n) == OMITTED + log[k..]
              && (if k == |log| - n then LF !in log[k..]
                  else log[k - 1] == LF && LF !in log[|log| - n..k - 1])
  {
    if |log| > n {
      var k := LineCut(log, |log| - n);
    }
  }
}
