/** The mount-table reader of internal/executor/mountinfo.go. Paths are byte strings. */
module Mounts {
  import opened Bytes
  import Utf8

  const SLASH: Byte := 0x2f
  const DASH: seq<Byte> := [0x2d]
  const DOT: seq<Byte> := [0x2e]

  datatype Mount = Mount(root: seq<Byte>, point: seq<Byte>)

  // --------------------------------------------------------- the kernel's escapes

  predicate IsOctal(b: Byte) { 0x30 <= b <= 0x37 }

  function OctalValue(a: int, b: int, c: int): int {
    64 * (a - 0x30) + 8 * (b - 0x30) + (c - 0x30)
  }

  /** A backslash and three octal digits whose value fits a byte. */
  function OctalEscape(s: seq<Byte>): Option<Byte> {
    if |s| >= 4 && s[0] == BACKSLASH && IsOctal(s[1]) && IsOctal(s[2]) && IsOctal(s[3]) then
      var n := OctalValue(s[1], s[2], s[3]);
      if n < 256 then Some(n) else None
    else None
  }

  function Unescape(s: seq<Byte>): seq<Byte>
    decreases |s|
  {
    if s == [] then []
    else match OctalEscape(s)
      case Some(b) => [b] + Unescape(s[4..])
      case None => [s[0]] + Unescape(s[1..])
  }

  /** How the kernel writes one byte of a path. */
  function EscapeByte(b: Byte, special: set<Byte>): seq<Byte> {
    if b in special then [BACKSLASH, 0x30 + b / 64, 0x30 + b / 8 % 8, 0x30 + b % 8] else [b]
  }

  function Escape(s: seq<Byte>, special: set<Byte>): seq<Byte> {
    if s == [] then [] else EscapeByte(s[0], special) + Escape(s[1..], special)
  }

  const TAB: Byte := 0x09
  const SPECIAL: set<Byte> := {SPACE, TAB, LF, BACKSLASH}

  /** The bytes above as characters, and the ones the kernel escapes. */
  lemma MountBytes()
    ensures [SLASH] == Ascii("/") && DASH == Ascii("-") && DOT == Ascii(".")
    ensures forall b: Byte :: b in SPECIAL <==> b == 0x20 || b == 0x09 || b == 0x0a || b == 0x5c
  {
  }

  /** An escape is a backslash and three octal digits, of a number below 256: that byte. */
  lemma OctalMeans(s: seq<Byte>, b: Byte)
    ensures OctalEscape(s) == Some(b) <==>
              && |s| >= 4 && s[0] == 0x5c
              && (forall i :: 1 <= i <= 3 ==> 0x30 <= s[i] <= 0x37)
              && b == ((s[1] as int - 0x30) * 8 + (s[2] as int - 0x30)) * 8 + (s[3] as int - 0x30)
  {
  }

  /** What comes before the first escape stays as it is, lone backslashes included. */
  lemma {:induction false} UnescapeSkips(s: seq<Byte>, k: nat)
    requires k <= |s| && forall i :: 0 <= i < k ==> OctalEscape(s[i..]) == None
    ensures Unescape(s) == s[..k] + Unescape(s[k..])
  {
    if k == 0 {
      assert s[0..] == s && s[..0] == [];
    } else {
      assert s[0..] == s;
      forall i | 0 <= i < k - 1 ensures OctalEscape(s[1..][i..]) == None { assert s[1..][i..] == s[i + 1..]; }
      UnescapeSkips(s[1..], k - 1);
      assert s[1..][k - 1..] == s[k..];
      assert s[..k] == [s[0]] + s[1..][..k - 1];
    }
  }

  /** The first escape in a text becomes its byte, and the rest is read after it. */
  lemma FirstEscapeIsReplaced(s: seq<Byte>, k: nat, b: Byte)
    requires k < |s| && forall i :: 0 <= i < k ==> OctalEscape(s[i..]) == None
    requires OctalEscape(s[k..]) == Some(b)
    ensures k + 4 <= |s| && Unescape(s) == s[..k] + ([b] + Unescape(s[k + 4..]))
  {
    UnescapeSkips(s, k);
    assert s[k..][4..] == s[k + 4..];
  }

  /** Without an escape nothing changes. */
  lemma NoEscapeNoChange(s: seq<Byte>)
    requires forall i :: 0 <= i < |s| ==> OctalEscape(s[i..]) == None
    ensures Unescape(s) == s
  {
    UnescapeSkips(s, |s|);
    assert s[..|s|] == s && s + [] == s;
  }

  /** Unescaping undoes the escaping of any set of bytes that has the backslash. */
  lemma {:induction false} UnescapeInverts(s: seq<Byte>, special: set<Byte>)
    requires BACKSLASH in special
    ensures Unescape(Escape(s, special)) == s
  {
    if s != [] {
      var e, rest := EscapeByte(s[0], special), Escape(s[1..], special);
      UnescapeInverts(s[1..], special);
      if s[0] in special {
        assert OctalEscape(e + rest) == Some(s[0]);
        assert (e + rest)[4..] == rest;
      } else {
        assert (e + rest)[1..] == rest;
      }
      assert s == [s[0]] + s[1..];
    }
  }

  method UnescapeMount(s: seq<Byte>) returns (out: seq<Byte>)
    ensures out == Unescape(s)
  {
    out := [];
    var i := 0;
    while i < |s|
      invariant i <= |s|
      invariant out + Unescape(s[i..]) == Unescape(s)
    {
      ghost var done := out;
      if s[i] == BACKSLASH && i + 4 <= |s| {
        var n := OctalEscape(s[i..i + 4]);
        if n.Some? {
          assert OctalEscape(s[i..]) == n && s[i..][4..] == s[i + 4..];
          out := out + [n.value];
          Assoc(done, [n.value], Unescape(s[i + 4..]));
          i := i + 4;
          continue;
        }
      }
      assert OctalEscape(s[i..]) == None && s[i..][1..] == s[i + 1..];
      Assoc(done, [s[i]], Unescape(s[i + 1..]));
      out := out + [s[i]];
      i := i + 1;
    }
    assert out + [] == out;
  }

  // ------------------------------------------------------------------ table rows

  /** U+1680, U+2000 to U+200A, U+2028, U+2029, U+202F, U+205F and U+3000. */
  predicate WideSpace(a: Byte, b: Byte, c: Byte) {
    || (a == 0xe1 && b == 0x9a && c == 0x80)
    || (a == 0xe2 && b == 0x80 && (0x80 <= c <= 0x8a || c == 0xa8 || c == 0xa9 || c == 0xaf))
    || (a == 0xe2 && b == 0x81 && c == 0x9f)
    || (a == 0xe3 && b == 0x80 && c == 0x80)
  }

  /** The length of the white-space character `s` starts with, or 0; U+0085 and U+00A0 have two bytes. */
  function SpaceLen(s: seq<Byte>): (n: nat)
    ensures n <= |s|
    ensures n > 0 ==> !Utf8.IsTail(s[0]) && Utf8.RuneLength(s) == n
  {
    if |s| >= 1 && (s[0] == SPACE || 0x09 <= s[0] <= 0x0d) then 1
    else if |s| >= 2 && s[0] == 0xc2 && (s[1] == 0x85 || s[1] == 0xa0) then 2
    else if |s| >= 3 && WideSpace(s[0], s[1], s[2]) then 3
    else 0
  }

  /** The characters that separate fields. */
  predicate WhiteSpace(c: int) {
    || 0x09 <= c <= 0x0d || c == 0x20 || c == 0x85 || c == 0xa0 || c == 0x1680
    || 0x2000 <= c <= 0x200a || c == 0x2028 || c == 0x2029 || c == 0x202f || c == 0x205f || c == 0x3000
  }

  /** A line starts with white space exactly when it starts with the encoding of such a character. */
  lemma SpaceIsWhiteSpace(s: seq<Byte>)
    ensures SpaceLen(s) > 0 <==> Utf8.RuneLength(s) > 0 && WhiteSpace(Utf8.DecodeScalar(s))
    ensures SpaceLen(s) > 0 ==> SpaceLen(s) == Utf8.RuneLength(s)
  {
  }

  /** No white-space character starts anywhere in `s`. */
  predicate NoSpace(s: seq<Byte>) {
    s == [] || (SpaceLen(s) == 0 && NoSpace(s[1..]))
  }

  predicate Word(w: seq<Byte>) {
    w != [] && NoSpace(w)
  }

  /** The length of the first character, a byte that starts none being one by itself. */
  function RuneStep(s: seq<Byte>): (n: nat)
    requires s != []
    ensures 1 <= n <= |s|
  {
    if Utf8.RuneLength(s) > 0 then Utf8.RuneLength(s) else 1
  }

  /** The end of the word `s` starts with. */
  function WordEnd(s: seq<Byte>): (n: nat)
    ensures n <= |s|
    ensures s != [] && SpaceLen(s) == 0 ==> n > 0
    decreases |s|
  {
    if s == [] || SpaceLen(s) > 0 then 0 else RuneStep(s) + WordEnd(s[RuneStep(s)..])
  }

  /** `strings.Fields`: the words between runs of white space. */
  function Fields(line: seq<Byte>): seq<seq<Byte>>
    decreases |line|
  {
    if line == [] then []
    else if SpaceLen(line) > 0 then Fields(line[SpaceLen(line)..])
    else [line[..WordEnd(line)]] + Fields(line[WordEnd(line)..])
  }

  /** One row of the table: its fields with a space after each but the last. */
  function Row(fields: seq<seq<Byte>>): seq<Byte> {
    if fields == [] then []
    else if |fields| == 1 then fields[0]
    else fields[0] + ([SPACE] + Row(fields[1..]))
  }

  /** What follows no tail byte takes no part in a white-space character before it. */
  lemma SpaceBefore(a: seq<Byte>, x: seq<Byte>)
    requires a != [] && (x == [] || !Utf8.IsTail(x[0]))
    ensures SpaceLen(a + x) == SpaceLen(a)
  {
    if x == [] { assert a + x == a; }
  }

  lemma SpaceGoesOn(a: seq<Byte>, x: seq<Byte>)
    requires SpaceLen(a) > 0
    ensures SpaceLen(a + x) == SpaceLen(a)
  {
  }

  lemma {:induction false} NoSpaceAfter(s: seq<Byte>, k: nat)
    requires NoSpace(s) && k <= |s|
    ensures NoSpace(s[k..])
  {
    if k == 0 {
      assert s[0..] == s;
    } else {
      assert s[1..][k - 1..] == s[k..];
      NoSpaceAfter(s[1..], k - 1);
    }
  }

  lemma {:induction false} WordEndsAt(w: seq<Byte>, rest: seq<Byte>)
    requires NoSpace(w) && (rest == [] || SpaceLen(rest) > 0)
    ensures WordEnd(w + rest) == |w|
    decreases |w|
  {
    if w == [] {
      assert [] + rest == rest;
    } else {
      SpaceBefore(w, rest);
      Utf8.RuneBefore(w, rest);
      var n := RuneStep(w);
      DropConcat(w, rest, n);
      NoSpaceAfter(w, n);
      WordEndsAt(w[n..], rest);
    }
  }

  lemma FieldStep(w: seq<Byte>, rest: seq<Byte>)
    requires Word(w) && (rest == [] || SpaceLen(rest) > 0)
    ensures Fields(w + rest) == [w] + Fields(rest)
  {
    WordEndsAt(w, rest);
    SpaceBefore(w, rest);
    assert (w + rest)[..|w|] == w && (w + rest)[|w|..] == rest;
  }

  lemma SpaceSkipped(line: seq<Byte>)
    ensures Fields([SPACE] + line) == Fields(line)
  {
    assert ([SPACE] + line)[1..] == line;
  }

  lemma SpacedFields(w: seq<Byte>, line: seq<Byte>)
    requires Word(w)
    ensures Fields(w + ([SPACE] + line)) == [w] + Fields(line)
  {
    FieldStep(w, [SPACE] + line);
    SpaceSkipped(line);
  }

  /** The words a row starts with are its first fields, whatever follows. */
  lemma {:induction false} FieldsAfter(ws: seq<seq<Byte>>, more: seq<seq<Byte>>)
    requires more != [] && forall i :: 0 <= i < |ws| ==> Word(ws[i])
    ensures Fields(Row(ws + more)) == ws + Fields(Row(more))
  {
    if ws == [] {
      assert ws + more == more;
    } else {
      assert (ws + more)[0] == ws[0] && (ws + more)[1..] == ws[1..] + more;
      FieldsAfter(ws[1..], more);
      SpacedFields(ws[0], Row(ws[1..] + more));
      Assoc([ws[0]], ws[1..], Fields(Row(more)));
      assert [ws[0]] + ws[1..] == ws;
    }
  }

  lemma {:induction false} FieldsOfRow(fields: seq<seq<Byte>>)
    requires forall i :: 0 <= i < |fields| ==> Word(fields[i])
    ensures Fields(Row(fields)) == fields
  {
    if |fields| == 1 {
      FieldStep(fields[0], []);
      assert fields[0] + [] == fields[0];
      assert fields == [fields[0]];
    } else if fields != [] {
      FieldsOfRow(fields[1..]);
      SpacedFields(fields[0], Row(fields[1..]));
      assert fields == [fields[0]] + fields[1..];
    }
  }

  /** What one row of the table says, if it is one. */
  ghost function Parsed(line: seq<Byte>): Option<Mount> {
    var fields := Fields(line);
    if |fields| >= 10 && exists k :: 6 <= k < |fields| && fields[k] == DASH
    then Some(Mount(Unescape(fields[3]), Unescape(fields[4])))
    else None
  }

  method ParseMountinfoLine(line: seq<Byte>) returns (m: Option<Mount>)
    ensures m == Parsed(line)
    ensures
      var fields := Fields(line);
      m == if |fields| >= 10 && exists k :: 6 <= k < |fields| && fields[k] == Ascii("-")
           then Some(Mount(Unescape(fields[3]), Unescape(fields[4]))) else None
  {
    MountBytes();
    var fields := Fields(line);
    if |fields| < 10 {
      return None;
    }
    var dash := 6;
    while dash < |fields| && fields[dash] != DASH
      invariant 6 <= dash <= |fields|
      invariant forall k :: 6 <= k < dash ==> fields[k] != DASH
    {
      dash := dash + 1;
    }
    assert DASH == Ascii("-");
    if dash >= |fields| {
      return None;
    }
    assert fields[dash] == DASH;
    var root := UnescapeMount(fields[3]);
    var point := UnescapeMount(fields[4]);
    m := Some(Mount(root, point));
  }

  /** `s` starts with a white-space character that the kernel does not escape. */
  predicate StartsRaw(s: seq<Byte>) {
    SpaceLen(s) > 0 && s[0] !in SPECIAL
  }

  /** No such character starts anywhere in the path. */
  predicate Printable(path: seq<Byte>) {
    path == [] || (!StartsRaw(path) && Printable(path[1..]))
  }

  /** Only tail bytes after the first can make it white space, so others may differ. */
  lemma SameSpace(b: Byte, s: seq<Byte>, t: seq<Byte>)
    requires s == [] <==> t == []
    requires s != [] ==> s[0] == t[0] || (!Utf8.IsTail(s[0]) && !Utf8.IsTail(t[0]))
    requires s != [] && s[0] == t[0] && Utf8.IsTail(s[0]) ==>
               && (|s| > 1 <==> |t| > 1)
               && (|s| > 1 ==> s[1] == t[1] || (!Utf8.IsTail(s[1]) && !Utf8.IsTail(t[1])))
    ensures SpaceLen([b] + s) == SpaceLen([b] + t)
  {
  }

  /** A byte that is not escaped starts white space in the escaped path exactly if it does in the path. */
  lemma EscapeStart(path: seq<Byte>)
    requires path != [] && path[0] !in SPECIAL
    ensures SpaceLen(Escape(path, SPECIAL)) == SpaceLen(path)
    ensures Escape(path, SPECIAL) == [path[0]] + Escape(path[1..], SPECIAL)
  {
    var rest := path[1..];
    assert path == [path[0]] + rest;
    if rest != [] {
      EscapedHead(rest);
      if |rest| > 1 && rest[0] !in SPECIAL { EscapedHead(rest[1..]); }
    }
    SameSpace(path[0], rest, Escape(rest, SPECIAL));
  }

  /** The first byte of an escaped path: the path's own, or a backslash. */
  lemma EscapedHead(path: seq<Byte>)
    requires path != []
    ensures Escape(path, SPECIAL) != []
    ensures Escape(path, SPECIAL)[0] == if path[0] in SPECIAL then BACKSLASH else path[0]
    ensures path[0] !in SPECIAL ==> Escape(path, SPECIAL)[1..] == Escape(path[1..], SPECIAL)
    ensures path[0] in SPECIAL ==> !Utf8.IsTail(path[0])
  {
  }

  lemma {:induction false} PlainPrefix(p: seq<Byte>, x: seq<Byte>)
    requires forall i :: 0 <= i < |p| ==> 0x21 <= p[i] <= 0x7e
    requires NoSpace(x)
    ensures NoSpace(p + x)
  {
    if p == [] {
      assert p + x == x;
    } else {
      DropConcat(p, x, 1);
      PlainPrefix(p[1..], x);
      assert (p + x)[0] == p[0] && SpaceLen(p + x) == 0;
    }
  }

  lemma {:induction false} EscapedIsWord(path: seq<Byte>)
    requires Printable(path)
    ensures NoSpace(Escape(path, SPECIAL))
    ensures |Escape(path, SPECIAL)| >= |path|
  {
    if path != [] {
      EscapedIsWord(path[1..]);
      if path[0] in SPECIAL {
        PlainPrefix(EscapeByte(path[0], SPECIAL), Escape(path[1..], SPECIAL));
      } else {
        EscapeStart(path);
        assert Escape(path, SPECIAL)[1..] == Escape(path[1..], SPECIAL);
      }
    }
  }

  lemma {:induction false} EscapeConcat(a: seq<Byte>, b: seq<Byte>, special: set<Byte>)
    ensures Escape(a + b, special) == Escape(a, special) + Escape(b, special)
  {
    if a == [] {
      assert a + b == b;
    } else {
      assert (a + b)[0] == a[0] && (a + b)[1..] == a[1..] + b;
      EscapeConcat(a[1..], b, special);
      Assoc(EscapeByte(a[0], special), Escape(a[1..], special), Escape(b, special));
    }
  }

  function RawAt(path: seq<Byte>): (k: nat)
    ensures k <= |path| && Printable(path[..k])
    ensures k < |path| ==> StartsRaw(path[k..])
    ensures k == |path| <==> Printable(path)
  {
    if path == [] then 0
    else if StartsRaw(path) then assert path[0..] == path; 0
    else
      var k := RawAt(path[1..]);
      assert path[..k + 1][1..] == path[1..][..k] && path[1..][k..] == path[k + 1..];
      assert path[..k + 1] + path[k + 1..] == path;
      assert StartsRaw(path[..k + 1]) ==> SpaceLen(path) > 0;
      k + 1
  }

  /** A path ends where the first unescaped separator in it does. */
  lemma CutAtRaw(path: seq<Byte>, rest: seq<Byte>)
    requires !Printable(path) && !StartsRaw(path)
    ensures
      var fields := Fields(Escape(path, SPECIAL) + rest);
      fields != [] && Unescape(fields[0]) != path
  {
    var k := RawAt(path);
    var a, tail := path[..k], Escape(path[k..], SPECIAL);
    assert path == a + path[k..];
    EscapeConcat(a, path[k..], SPECIAL);
    EscapeStart(path[k..]);
    SpaceGoesOn(tail, rest);
    EscapedIsWord(a);
    Assoc(Escape(a, SPECIAL), tail, rest);
    FieldStep(Escape(a, SPECIAL), tail + rest);
    UnescapeInverts(a, SPECIAL);
  }

  /** The first field of a line that starts with an escaped path gives the path, or does not. */
  lemma PathField(path: seq<Byte>, line: seq<Byte>)
    requires path != [] && !StartsRaw(path)
    ensures
      var fields := Fields(Escape(path, SPECIAL) + ([SPACE] + line));
      && fields != []
      && (Printable(path) <==> Unescape(fields[0]) == path)
      && (Printable(path) ==> fields == [Escape(path, SPECIAL)] + Fields(line))
  {
    if Printable(path) {
      EscapedIsWord(path);
      FieldStep(Escape(path, SPECIAL), [SPACE] + line);
      SpaceSkipped(line);
      UnescapeInverts(path, SPECIAL);
    } else {
      CutAtRaw(path, [SPACE] + line);
    }
  }

  /** The fields the kernel prints after the two paths. */
  function Details(options: seq<Byte>, optional: seq<seq<Byte>>, after: seq<seq<Byte>>): seq<seq<Byte>> {
    [options] + optional + [DASH] + after
  }

  lemma PathFields(m: Mount, details: seq<seq<Byte>>)
    requires m.root != [] && m.point != [] && !StartsRaw(m.root) && !StartsRaw(m.point)
    requires details != [] && forall i :: 0 <= i < |details| ==> Word(details[i])
    ensures
      var paths := [Escape(m.root, SPECIAL), Escape(m.point, SPECIAL)];
      var fields := Fields(Row(paths + details));
      && fields != []
      && (Unescape(fields[0]) == m.root <==> Printable(m.root))
      && (Printable(m.root) ==> |fields| > 1 && (Unescape(fields[1]) == m.point <==> Printable(m.point)))
      && (Printable(m.root) && Printable(m.point) ==> fields == paths + details)
  {
    var root, point := Escape(m.root, SPECIAL), Escape(m.point, SPECIAL);
    var rest := Row(details);
    assert ([point] + details)[1..] == details;
    assert Row([point] + details) == point + ([SPACE] + rest);
    assert ([root, point] + details)[1..] == [point] + details;
    assert Row([root, point] + details) == root + ([SPACE] + Row([point] + details));
    PathField(m.root, Row([point] + details));
    PathField(m.point, rest);
    FieldsOfRow(details);
  }

  /**
   A row as the kernel prints it is read back to the mount it describes exactly when
   neither path holds a white-space character other than space, tab and newline, which
   are the ones the kernel escapes.
   */
  lemma KernelRow(m: Mount, before: seq<seq<Byte>>, options: seq<Byte>, optional: seq<seq<Byte>>, after: seq<seq<Byte>>)
    requires m.root != [] && m.point != [] && !StartsRaw(m.root) && !StartsRaw(m.point)
    requires |before| == 3 && |after| == 3 && Word(options)
    requires forall i :: 0 <= i < 3 ==> Word(before[i]) && Word(after[i])
    requires forall i :: 0 <= i < |optional| ==> Word(optional[i])
    ensures
      var paths := [Escape(m.root, SPECIAL), Escape(m.point, SPECIAL)];
      Parsed(Row(before + (paths + Details(options, optional, after)))) == Some(m)
      <==> Printable(m.root) && Printable(m.point)
  {
    var paths := [Escape(m.root, SPECIAL), Escape(m.point, SPECIAL)];
    var details := Details(options, optional, after);
    PathFields(m, details);
    FieldsAfter(before, paths + details);
    var fields := Fields(Row(before + (paths + details)));
    assert fields == before + Fields(Row(paths + details));
    if Printable(m.root) && Printable(m.point) {
      assert details[1 + |optional|] == DASH;
      assert fields[6 + |optional|] == DASH;
    }
  }

  lemma SpaceIsRaw(space: seq<Byte>)
    requires space == [CR] || space == [0xc2, 0xa0]
    ensures
      var path := [SLASH, 0x61] + space + [0x62];
      !StartsRaw(path) && !Printable(path)
  {
    var path := [SLASH, 0x61] + space + [0x62];
    assert path[1..][1..] == space + [0x62];
    assert StartsRaw(path[1..][1..]);
    assert !Printable(path[1..]);
  }

  /** No row for a mount at a path with a carriage return, or a no-break space, is read back to it. */
  lemma SpaceIsNotReadBack(space: seq<Byte>, before: seq<seq<Byte>>, options: seq<Byte>, after: seq<seq<Byte>>)
    requires space == [CR] || space == [0xc2, 0xa0]
    requires |before| == 3 && |after| == 3 && Word(options)
    requires forall i :: 0 <= i < 3 ==> Word(before[i]) && Word(after[i])
    ensures
      var m := Mount([SLASH], [SLASH, 0x61] + space + [0x62]);
      var paths := [Escape(m.root, SPECIAL), Escape(m.point, SPECIAL)];
      Parsed(Row(before + (paths + Details(options, [], after)))) != Some(m)
  {
    var m := Mount([SLASH], [SLASH, 0x61] + space + [0x62]);
    SpaceIsRaw(space);
    KernelRow(m, before, options, [], after);
  }

  // ------------------------------------------------------------- covering a path

  predicate Covers(point: seq<Byte>, path: seq<Byte>) {
    point == [SLASH] || path == point || point + [SLASH] <= path
  }

  predicate Component(c: seq<Byte>) {
    c != [] && SLASH !in c
  }

  predicate Components(cs: seq<seq<Byte>>) {
    forall i :: 0 <= i < |cs| ==> Component(cs[i])
  }

  function Concat(cs: seq<seq<Byte>>): seq<Byte> {
    if cs == [] then [] else [SLASH] + cs[0] + Concat(cs[1..])
  }

  /** The clean absolute path with these components. */
  function Path(cs: seq<seq<Byte>>): seq<Byte> {
    if cs == [] then [SLASH] else Concat(cs)
  }

  /** A path is its components, each after a slash; without any it is one slash. */
  lemma PathText(cs: seq<seq<Byte>>, c: seq<Byte>)
    ensures Path([]) == Ascii("/") && Path([c]) == Ascii("/") + c
    ensures cs != [] ==> Path(cs + [c]) == Path(cs) + Ascii("/") + c
  {
    MountBytes();
    assert [c][1..] == [] && Concat([c]) == [SLASH] + c + [];
    if cs != [] { ConcatAppend(cs, [c]); }
  }

  lemma {:induction false} ConcatAppend(a: seq<seq<Byte>>, b: seq<seq<Byte>>)
    ensures Concat(a + b) == Concat(a) + Concat(b)
  {
    if a == [] {
      assert a + b == b;
    } else {
      assert (a + b)[0] == a[0] && (a + b)[1..] == a[1..] + b;
      ConcatAppend(a[1..], b);
      Assoc([SLASH] + a[0], Concat(a[1..]), Concat(b));
    }
  }

  lemma ConcatStarts(cs: seq<seq<Byte>>)
    ensures (Concat(cs) + [SLASH])[0] == SLASH
    ensures cs != [] ==> Concat(cs)[0] == SLASH && |Concat(cs)| >= 1 + |cs[0]|
  {
  }

  /** Two slash-free words, each followed by a slash, agree only if they are equal. */
  lemma {:induction false} SameWord(a: seq<Byte>, r: seq<Byte>, b: seq<Byte>, s: seq<Byte>)
    requires SLASH !in a && SLASH !in b && r != [] && s != [] && r[0] == SLASH && s[0] == SLASH
    ensures a + r <= b + s <==> a == b && r <= s
  {
    if a != [] && b != [] {
      SameWord(a[1..], r, b[1..], s);
      assert a + r == [a[0]] + (a[1..] + r) && b + s == [b[0]] + (b[1..] + s);
      HeadPrefix(a[0], a[1..] + r, b[0], b[1..] + s);
      assert a == [a[0]] + a[1..] && b == [b[0]] + b[1..];
    } else if a == [] && b == [] {
      assert a + r == r && b + s == s;
    } else if a == [] {
      assert (b + s)[0] == b[0];
    } else {
      assert (a + r)[0] == a[0];
      assert (b + s)[0] == SLASH;
    }
  }

  lemma {:induction false} PrefixOfComponents(a: seq<seq<Byte>>, b: seq<seq<Byte>>)
    requires Components(a) && Components(b)
    ensures Concat(a) + [SLASH] <= Concat(b) + [SLASH] <==> a <= b
  {
    if a != [] && b != [] {
      var r, s := Concat(a[1..]) + [SLASH], Concat(b[1..]) + [SLASH];
      PrefixOfComponents(a[1..], b[1..]);
      ConcatStarts(a[1..]);
      ConcatStarts(b[1..]);
      SameWord(a[0], r, b[0], s);
      HeadPrefix(SLASH, a[0] + r, SLASH, b[0] + s);
      ConcatHead(a);
      ConcatHead(b);
      HeadPrefix(a[0], a[1..], b[0], b[1..]);
      assert a == [a[0]] + a[1..] && b == [b[0]] + b[1..];
    } else {
      ConcatStarts(a);
      ConcatStarts(b);
    }
  }

  lemma ConcatHead(a: seq<seq<Byte>>)
    requires a != []
    ensures Concat(a) + [SLASH] == [SLASH] + (a[0] + (Concat(a[1..]) + [SLASH]))
  {
    Assoc([SLASH] + a[0], Concat(a[1..]), [SLASH]);
    Assoc([SLASH], a[0], Concat(a[1..]) + [SLASH]);
  }

  /** On clean absolute paths, covering is having the point's components first. */
  lemma CoversIsComponentPrefix(point: seq<seq<Byte>>, path: seq<seq<Byte>>)
    requires Components(point) && Components(path)
    ensures Covers(Path(point), Path(path)) <==> point <= path
  {
    PrefixOfComponents(point, path);
    if point != [] {
      ConcatStarts(point);
      var p, q := Concat(point), Concat(path);
      if path == [] {
        assert |Path(point)| > 1;
      } else if p + [SLASH] <= q + [SLASH] {
        if |p| == |q| {
          assert p == (p + [SLASH])[..|p|] == (q + [SLASH])[..|p|] == q;
        } else {
          assert (q + [SLASH])[..|p| + 1] == q[..|p| + 1];
        }
      }
    }
  }

  // ------------------------------------------------------------ the host's path

  /** `filepath.Rel` of clean absolute paths, the first of which covers the second. */
  function Rel(point: seq<Byte>, path: seq<Byte>): seq<Byte>
    requires Covers(point, path)
  {
    if path == point then DOT
    else if point == [SLASH] then (if path == [] then [] else path[1..])
    else path[|point| + 1..]
  }

  /** `filepath.Join` of a clean absolute path and a clean relative one. */
  function Join(root: seq<Byte>, rel: seq<Byte>): seq<Byte> {
    if rel == DOT then root
    else if root == [SLASH] then root + rel
    else root + [SLASH] + rel
  }

  /** Row `i` covers the path, no covering point is longer, and no earlier one as long. */
  ghost predicate Best(mounts: seq<Mount>, path: seq<Byte>, i: nat) {
    && i < |mounts| && Covers(mounts[i].point, path) && mounts[i].point != []
    && (forall j :: 0 <= j < |mounts| && Covers(mounts[j].point, path) ==> |mounts[j].point| <= |mounts[i].point|)
    && (forall j :: 0 <= j < i && Covers(mounts[j].point, path) ==> |mounts[j].point| < |mounts[i].point|)
  }

  /** `host` is the path below the best mount, or the path itself when no named mount covers it. */
  ghost predicate Mounted(mounts: seq<Mount>, container: seq<Byte>, host: seq<Byte>) {
    if exists i: nat :: Best(mounts, container, i) then
      exists i: nat :: Best(mounts, container, i)
                       && host == Join(mounts[i].root, Rel(mounts[i].point, container))
    else
      && host == container
      && forall i :: 0 <= i < |mounts| && Covers(mounts[i].point, container) ==> mounts[i].point == []
  }

  /** A path without the slashes at its end. */
  function TrimRight(s: seq<Byte>): (r: seq<Byte>)
    ensures r <= s && (r == [] || r[|r| - 1] != SLASH)
    ensures forall i :: |r| <= i < |s| ==> s[i] == SLASH
  {
    if s != [] && s[|s| - 1] == SLASH then TrimRight(s[..|s| - 1]) else s
  }

  /**
   The path the engine must be given for a clean `container` path. `named`, the host
   directory an operator gave for `workspace`, wins over the mount table.
   */
  method HostPath(mounts: seq<Mount>, container: seq<Byte>, named: seq<Byte>, workspace: seq<Byte>)
    returns (host: seq<Byte>)
    ensures if TrimRight(named) != [] && Covers(workspace, container)
            then host == Join(TrimRight(named), Rel(workspace, container))
            else Mounted(mounts, container, host)
  {
    if TrimRight(named) != [] && Covers(workspace, container) {
      return Join(TrimRight(named), Rel(workspace, container));
    }
    host := MountedPath(mounts, container);
  }

  /** The path by the mount table alone. */
  method MountedPath(mounts: seq<Mount>, container: seq<Byte>) returns (host: seq<Byte>)
    ensures Mounted(mounts, container, host)
  {
    if |mounts| == 0 {
      return container;
    }
    var best := Mount([], []);
    ghost var at := -1;
    for n := 0 to |mounts|
      invariant at < n
      invariant if at < 0 then best.point == []
                else Best(mounts[..n], container, at) && best == mounts[at]
      invariant at < 0 ==> forall j :: 0 <= j < n && Covers(mounts[j].point, container) ==> mounts[j].point == []
    {
      var m := mounts[n];
      assert mounts[..n + 1] == mounts[..n] + [m];
      if !Covers(m.point, container) {
        continue;
      }
      if |m.point| > |best.point| {
        best := m;
        at := n;
      }
    }
    assert mounts[..|mounts|] == mounts;
    if best.point == [] {
      return container;
    }
    host := Join(best.root, Rel(best.point, container));
  }

  /** A path component is never "." once the path is clean. */
  predicate Clean(cs: seq<seq<Byte>>) {
    Components(cs) && forall i :: 0 <= i < |cs| ==> cs[i] != DOT
  }

  lemma PathLength(cs: seq<seq<Byte>>)
    requires Components(cs) && cs != []
    ensures |Path(cs)| > 1 && Path(cs)[0] == SLASH
  {
    assert Component(cs[0]);
    ConcatStarts(cs);
  }

  lemma RelBelow(p: seq<Byte>, rel: seq<Byte>)
    requires p != [SLASH] && Covers(p, p + ([SLASH] + rel))
    ensures Rel(p, p + ([SLASH] + rel)) == rel
  {
    var q := p + ([SLASH] + rel);
    assert |q| == |p| + 1 + |rel|;
    assert q[|p| + 1..] == rel;
  }

  lemma WordIsNotDot(c: seq<Byte>, more: seq<Byte>)
    requires c != [] && c != DOT
    ensures c + more != DOT
  {
    if |c + more| == 1 {
      assert c + more == c;
    }
  }

  lemma RelIsNotDot(rest: seq<seq<Byte>>)
    requires Clean(rest) && rest != []
    ensures Concat(rest)[1..] != DOT
  {
    var c, more := rest[0], Concat(rest[1..]);
    assert Component(c);
    assert ([SLASH] + c + more)[1..] == c + more;
    WordIsNotDot(c, more);
  }

  /** The relative path of the components below a mount point. */
  lemma RelOfRest(rest: seq<seq<Byte>>) returns (rel: seq<Byte>)
    requires Clean(rest) && rest != []
    ensures Concat(rest) == [SLASH] + rel && rel != [] && rel != DOT
  {
    PathLength(rest);
    RelIsNotDot(rest);
    rel := Concat(rest)[1..];
  }

  lemma RelOfPaths(point: seq<seq<Byte>>, rest: seq<seq<Byte>>)
    requires Components(point) && Clean(rest)
    ensures Covers(Path(point), Path(point + rest))
    ensures rest == [] ==> Rel(Path(point), Path(point + rest)) == DOT
    ensures rest != [] ==>
              && [SLASH] + Rel(Path(point), Path(point + rest)) == Concat(rest)
              && Rel(Path(point), Path(point + rest)) != DOT
  {
    CoversIsComponentPrefix(point, point + rest);
    if rest == [] {
      assert point + rest == point;
    } else {
      var rel := RelOfRest(rest);
      if point == [] {
        assert point + rest == rest;
        assert ([SLASH] + rel)[1..] == rel;
      } else {
        ConcatAppend(point, rest);
        PathLength(point);
        RelBelow(Path(point), rel);
      }
    }
  }

  /**
   The components below the mount point end up below the mount's root; below the
   mount point itself they rebuild the original path.
   */
  lemma MapsBelowRoot(root: seq<seq<Byte>>, point: seq<seq<Byte>>, rest: seq<seq<Byte>>)
    requires Components(root) && Components(point) && Clean(rest)
    ensures Covers(Path(point), Path(point + rest))
    ensures Join(Path(root), Rel(Path(point), Path(point + rest))) == Path(root + rest)
    ensures Join(Path(point), Rel(Path(point), Path(point + rest))) == Path(point + rest)
  {
    RelOfPaths(point, rest);
    JoinBelow(root, rest, Rel(Path(point), Path(point + rest)));
    JoinBelow(point, rest, Rel(Path(point), Path(point + rest)));
  }

  lemma JoinBelow(root: seq<seq<Byte>>, rest: seq<seq<Byte>>, rel: seq<Byte>)
    requires Components(root)
    requires if rest == [] then rel == DOT else rel != DOT && [SLASH] + rel == Concat(rest)
    ensures Join(Path(root), rel) == Path(root + rest)
  {
    ConcatAppend(root, rest);
    if rest == [] {
      assert root + rest == root;
    } else if root == [] {
      assert root + rest == rest;
    } else {
      ConcatStarts(root);
      Assoc(Concat(root), [SLASH], rel);
      assert |Path(root)| > 1;
    }
  }

  /** Of two points covering one path, the longer spelling is the deeper directory. */
  lemma LongerIsDeeper(a: seq<seq<Byte>>, b: seq<seq<Byte>>, path: seq<seq<Byte>>)
    requires Components(path) && a <= path && b <= path
    ensures |Path(a)| <= |Path(b)| <==> |a| <= |b|
  {
    if |a| <= |b| { ShorterPrefix(a, b, path); } else { ShorterPrefix(b, a, path); }
  }

  lemma ShorterPrefix(a: seq<seq<Byte>>, b: seq<seq<Byte>>, path: seq<seq<Byte>>)
    requires Components(path) && a <= path && b <= path && |a| <= |b|
    ensures |Path(a)| <= |Path(b)| && (|a| < |b| ==> |Path(a)| < |Path(b)|)
  {
    var rest := b[|a|..];
    assert b == a + rest;
    assert b == path[..|b|];
    ConcatAppend(a, rest);
    if rest != [] {
      assert Component(path[|a|]) && rest[0] == path[|a|];
      ConcatStarts(rest);
    }
  }

  /** A mount between clean absolute directories. */
  datatype Dirs = Dirs(root: seq<seq<Byte>>, point: seq<seq<Byte>>)

  function Table(ms: seq<Dirs>): seq<Mount> {
    seq(|ms|, i requires 0 <= i < |ms| => Mount(Path(ms[i].root), Path(ms[i].point)))
  }

  /** The row `HostPath` picks is the first of the deepest directories above the path, and maps all below it. */
  lemma DeepestMountWins(ms: seq<Dirs>, path: seq<seq<Byte>>, i: nat)
    requires forall j :: 0 <= j < |ms| ==> Components(ms[j].root) && Components(ms[j].point)
    requires Clean(path) && Best(Table(ms), Path(path), i)
    ensures ms[i].point <= path
    ensures forall j :: 0 <= j < |ms| && ms[j].point <= path ==>
              if j < i then |ms[j].point| < |ms[i].point| else |ms[j].point| <= |ms[i].point|
    ensures Join(Path(ms[i].root), Rel(Path(ms[i].point), Path(path)))
         == Path(ms[i].root + path[|ms[i].point|..])
  {
    var point := ms[i].point;
    CoversIsComponentPrefix(point, path);
    forall j | 0 <= j < |ms| && ms[j].point <= path
      ensures if j < i then |ms[j].point| < |point| else |ms[j].point| <= |point|
    {
      CoversIsComponentPrefix(ms[j].point, path);
      LongerIsDeeper(ms[j].point, point, path);
      LongerIsDeeper(point, ms[j].point, path);
      assert Table(ms)[j].point == Path(ms[j].point);
    }
    assert path == point + path[|point|..];
    MapsBelowRoot(ms[i].root, point, path[|point|..]);
  }
}
