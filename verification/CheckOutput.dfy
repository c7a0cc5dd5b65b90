/** The Check Run text cutter of internal/githubapp/checks.go. */
module CheckOutput {
  import opened Bytes
  import Utf8

  /** "… output truncated; full log is on the details page …" and a newline, in UTF-8. */
  const NOTICE: seq<Byte> :=
    [0xe2, 0x80, 0xa6] + Ascii(" output truncated; full log is on the details page ") + [0xe2, 0x80, 0xa6, LF]

  /** A first newline this close to the cut moves the cut to the next line. */
  const LINE_SEARCH := 200

  predicate ValidFrom(s: seq<Byte>, i: nat)
    requires i <= |s|
  {
    Utf8.Valid(s[i..])
  }

  /** The first position from `start` on whose suffix is valid UTF-8. */
  ghost predicate FirstBoundary(s: seq<Byte>, start: nat, j: nat) {
    start <= j <= |s| && ValidFrom(s, j) && forall i :: start <= i < j ==> !ValidFrom(s, i)
  }

  /** Where a suffix that may begin at `j` does begin: at a nearby line, if there is one. */
  function LineStart(s: seq<Byte>, j: nat): (k: nat)
    requires j <= |s|
    ensures j <= k <= |s| && k <= j + LINE_SEARCH
  {
    var i := IndexByte(s[j..], LF);
    if 0 <= i < LINE_SEARCH then j + i + 1 else j
  }

  /** The start is moved to the next line exactly when the line ends within the first 200 bytes. */
  lemma LineStartIsNear(s: seq<Byte>, j: nat)
    requires j <= |s|
    ensures
      var k := LineStart(s, j);
      if exists i :: j <= i < |s| && i < j + 200 && s[i] == 0x0a
      then j < k <= j + 200 && s[k - 1] == 0x0a && 0x0a !in s[j..k - 1]
      else k == j
  {
    var at := IndexByte(s[j..], LF);
    if exists i :: j <= i < |s| && i < j + 200 && s[i] == 0x0a {
      var i :| j <= i < |s| && i < j + 200 && s[i] == 0x0a;
      assert s[j..][i - j] == LF;
      assert forall k :: 0 <= k < at ==> s[j..][..at][k] != LF;
      assert s[j..][..at] == s[j..j + at];
    } else if at >= 0 {
      assert s[j + at] == 0x0a;
    }
  }

  lemma LineStartOf(s: seq<Byte>, j: nat, tail: seq<Byte>)
    requires j <= |s| && tail == s[j..]
    ensures
      var i := IndexByte(tail, LF);
      s[LineStart(s, j)..] == if 0 <= i < LINE_SEARCH then tail[i + 1..] else tail
  {
    var i := IndexByte(tail, LF);
    if 0 <= i < LINE_SEARCH {
      Utf8.SuffixOfSuffix(s, j, i + 1);
    }
  }

  lemma NoticeIsValid()
    ensures Utf8.Valid(NOTICE)
  {
    var dots: seq<Byte> := [0xe2, 0x80, 0xa6];
    var text := Ascii(" output truncated; full log is on the details page ");
    var tail: seq<Byte> := [0xe2, 0x80, 0xa6, LF];
    DotsAreValid();
    Utf8.AsciiIsValid(text);
    Utf8.ValidConcat(dots, text);
    Utf8.ValidConcat(dots + text, tail);
  }

  lemma DotsAreValid()
    ensures Utf8.Valid([0xe2, 0x80, 0xa6]) && Utf8.Valid([0xe2, 0x80, 0xa6, LF])
  {
    var dots: seq<Byte>, line: seq<Byte> := [0xe2, 0x80, 0xa6], [0xe2, 0x80, 0xa6, LF];
    assert Utf8.RuneLength(dots) == 3 && dots[3..] == [];
    assert Utf8.RuneLength(line) == 3 && line[3..] == [LF];
    Utf8.AsciiIsValid([LF]);
  }

  /** The text after the cut is valid, and starts at most 203 bytes late. */
  lemma CutIsValid(s: seq<Byte>, start: nat, j: nat)
    requires FirstBoundary(s, start, j)
    ensures Utf8.Valid(s[LineStart(s, j)..])
    ensures Utf8.Valid(s) ==> LineStart(s, j) <= start + 203
  {
    var k := LineStart(s, j);
    if k > j {
      assert s[j..][k - j - 1] == LF;
      Utf8.ValidAfterAscii(s[j..], k - j - 1);
      assert s[j..][k - j..] == s[k..];
    }
    if Utf8.Valid(s) {
      var d := Utf8.BoundaryNear(s, start);
      assert ValidFrom(s, start + d);
    }
  }

  /** The notice, with an ellipsis at either end. */
  lemma NoticeText()
    ensures NOTICE == Utf8.EncodeScalar(0x2026) + Ascii(" output truncated; full log is on the details page ")
                      + (Utf8.EncodeScalar(0x2026) + [0x0a])
  {
    assert Utf8.EncodeScalar(0x2026) == [0xe2, 0x80, 0xa6];
  }

  lemma NoticeLength()
    ensures |NOTICE| == 58
  {
    var text := Ascii(" output truncated; full log is on the details page ");
    assert |text| == 51;
  }

  /**
   A limit that leaves no room for the notice is a plain byte cut. It splits a
   character exactly when the byte after the cut is inside one.
   */
  lemma ShortLimit(s: seq<Byte>, limit: nat)
    requires Utf8.Valid(s) && limit < |s| && limit <= |NOTICE|
    ensures Utf8.Valid(s[..limit]) <==> !Utf8.IsTail(s[limit])
  {
    Utf8.PrefixValid(s, limit);
  }

  /** An e with an acute accent, cut after one byte. */
  lemma ShortLimitSplits()
    ensures
      var s: seq<Byte> := [0xc3, 0xa9];
      Utf8.Valid(s) && 1 < |s| && 1 <= |NOTICE| && !Utf8.Valid(s[..1])
  {
    var s: seq<Byte> := [0xc3, 0xa9];
    assert Utf8.RuneLength(s) == 2 && s[2..] == [];
    NoticeLength();
    ShortLimit(s, 1);
  }

  /** The limits that a title, and a summary or text, are cut to. */
  const TITLE_LIMIT := 255
  const OUTPUT_LIMIT := 60 * 1024

  /** Both leave room for the notice, so no caller sees a character split. */
  lemma CallersLeaveRoom()
    ensures |NOTICE| == 58 < TITLE_LIMIT == 255 < OUTPUT_LIMIT == 61_440
  {
    NoticeLength();
  }

  method TruncateUTF8(s: seq<Byte>, limit: nat) returns (out: seq<Byte>)
    ensures |out| <= limit
    ensures |s| <= limit ==> out == s
    ensures |s| > limit && limit <= |NOTICE| ==> out == s[..limit]
    ensures |s| > limit > |NOTICE| ==> exists j ::
              FirstBoundary(s, |s| - (limit - |NOTICE|), j) && out == NOTICE + s[LineStart(s, j)..]
    ensures limit > |NOTICE| && (|s| > limit || Utf8.Valid(s)) ==> Utf8.Valid(out)
    ensures |s| > limit > |NOTICE| && Utf8.Valid(s) ==> |out| >= limit - 203
  {
    if |s| <= limit {
      return s;
    }
    if limit <= |NOTICE| {
      return s[..limit];
    }
    NoticeIsValid();
    var tail := KeepTail(s, limit - |NOTICE|);
    Utf8.ValidConcat(NOTICE, tail);
    out := NOTICE + tail;
  }

  /** The longest valid suffix of `s` that fits in `keep` bytes. */
  method DropPartialRune(s: seq<Byte>, keep: nat) returns (tail: seq<Byte>)
    requires keep <= |s|
    ensures |tail| <= keep && tail == s[|s| - |tail|..]
    ensures FirstBoundary(s, |s| - keep, |s| - |tail|)
  {
    tail := s[|s| - keep..];
    ghost var at := |s| - keep;
    while |tail| > 0 && !Utf8.Valid(tail)
      invariant |s| - keep <= at <= |s| && tail == s[at..]
      invariant forall i :: |s| - keep <= i < at ==> !ValidFrom(s, i)
      decreases |tail|
    {
      assert !ValidFrom(s, at);
      Utf8.SuffixOfSuffix(s, at, 1);
      tail := tail[1..];
      at := at + 1;
    }
  }

  /** The same, from the next line when that is near. */
  method KeepTail(s: seq<Byte>, keep: nat) returns (tail: seq<Byte>)
    requires keep <= |s|
    ensures exists j :: FirstBoundary(s, |s| - keep, j) && tail == s[LineStart(s, j)..]
    ensures |tail| <= keep && Utf8.Valid(tail)
    ensures Utf8.Valid(s) ==> |tail| >= keep - 203
  {
    tail := DropPartialRune(s, keep);
    ghost var j := |s| - |tail|;
    CutIsValid(s, |s| - keep, j);
    LineStartOf(s, j, tail);
    var i := IndexByte(tail, LF);
    if 0 <= i < LINE_SEARCH {
      tail := tail[i + 1..];
    }
    assert FirstBoundary(s, |s| - keep, j) && tail == s[LineStart(s, j)..];
  }
}
