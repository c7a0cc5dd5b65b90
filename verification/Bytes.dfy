/** Bytes, options and the few sequence helpers the other modules share. */
module Bytes {

  type Byte = b: int | 0 <= b < 256

  datatype Option<+T> = None | Some(value: T)
  {
    function GetOr(default: T): T {
      if Some? then value else default
    }
  }

  const LF: Byte := 0x0a
  const CR: Byte := 0x0d
  const SPACE: Byte := 0x20
  const COLON: Byte := 0x3a
  const BACKSLASH: Byte := 0x5c

  function Min(a: int, b: int): (m: int)
    ensures m <= a && m <= b && (m == a || m == b)
  {
    if a <= b then a else b
  }

  function Max(a: int, b: int): (m: int)
    ensures m >= a && m >= b && (m == a || m == b)
  {
    if a <= b then b else a
  }

  /** The bytes of an ASCII literal. */
  function Ascii(s: string): (r: seq<Byte>)
    ensures |r| == |s|
    ensures forall i :: 0 <= i < |s| ==> r[i] <= 0x7f && (s[i] < 128 as char ==> r[i] == s[i] as int)
  {
    seq(|s|, i requires 0 <= i < |s| => if s[i] < 128 as char then s[i] as int else 0x3f)
  }

  /** The bytes named above, as characters. */
  lemma AsciiCodes()
    ensures [LF, CR, SPACE, COLON, BACKSLASH] == Ascii("\n\r :\\")
  {
  }

  /** Everything written by a run of writes, in order. */
  function Flatten<T>(chunks: seq<seq<T>>): seq<T> {
    if chunks == [] then [] else Flatten(chunks[..|chunks| - 1]) + chunks[|chunks| - 1]
  }

  lemma FlattenSnoc<T>(chunks: seq<seq<T>>, c: seq<T>)
    ensures Flatten(chunks + [c]) == Flatten(chunks) + c
  {
    assert (chunks + [c])[..|chunks|] == chunks;
  }

  lemma {:induction false} FlattenCons<T>(c: seq<T>, chunks: seq<seq<T>>)
    ensures Flatten([c] + chunks) == c + Flatten(chunks)
  {
    var all := [c] + chunks;
    if chunks == [] {
      assert all[..0] == [];
    } else {
      var front, last := chunks[..|chunks| - 1], chunks[|chunks| - 1];
      assert all[..|all| - 1] == [c] + front;
      FlattenCons(c, front);
    }
  }

  lemma Assoc<T>(a: seq<T>, b: seq<T>, c: seq<T>)
    ensures a + b + c == a + (b + c)
  {
  }

  lemma DropConcat<T>(a: seq<T>, b: seq<T>, n: nat)
    requires n <= |a|
    ensures (a + b)[n..] == a[n..] + b
  {
  }

  lemma TakeSlice<T>(s: seq<T>, i: nat, j: nat, n: nat)
    requires i <= i + n <= j <= |s|
    ensures s[i..j][..n] == s[i..i + n]
  {
  }

  /** One sequence is a prefix of another when their heads agree and their tails do. */
  lemma HeadPrefix<T>(x: T, a: seq<T>, y: T, b: seq<T>)
    ensures [x] + a <= [y] + b <==> x == y && a <= b
  {
    var p, q := [x] + a, [y] + b;
    assert p[0] == x && q[0] == y && p[1..] == a && q[1..] == b;
    if a <= b && x == y { assert q == p + b[|a|..]; }
    if p <= q { assert b == a + q[|p|..]; }
  }

  /** The first position of `b` in `s`, or -1. */
  function IndexByte(s: seq<Byte>, b: Byte): (i: int)
    ensures -1 <= i < |s|
    ensures i < 0 <==> b !in s
    ensures i >= 0 ==> s[i] == b && b !in s[..i]
  {
    if s == [] then -1
    else if s[0] == b then 0
    else
      var j := IndexByte(s[1..], b);
      if j < 0 then -1 else assert s[..j + 1] == [s[0]] + s[1..][..j]; j + 1
  }

  lemma {:induction false} IndexByteAt(s: seq<Byte>, b: Byte, k: nat)
    requires k < |s| && s[k] == b && b !in s[..k]
    ensures IndexByte(s, b) == k
  {
    if k > 0 {
      assert s[0] == s[..k][0];
      assert s[1..][..k - 1] == s[..k][1..];
      IndexByteAt(s[1..], b, k - 1);
    }
  }

  /** `a` can be obtained from `b` by deleting elements. */
  ghost predicate Subsequence<T(!new)>(a: seq<T>, b: seq<T>) {
    if a == [] then true
    else if b == [] then false
    else (a[0] == b[0] && Subsequence(a[1..], b[1..])) || Subsequence(a, b[1..])
  }

  lemma {:induction false} SubsequenceExtends<T(!new)>(x: seq<T>, b: seq<T>, y: seq<T>)
    requires Subsequence(x, y)
    ensures Subsequence(x, b + y)
    decreases |b|
  {
    if b == [] {
      assert b + y == y;
    } else {
      assert (b + y)[1..] == b[1..] + y;
      SubsequenceExtends(x, b[1..], y);
    }
  }

  lemma {:induction false} SubsequenceConcat<T(!new)>(a: seq<T>, x: seq<T>, b: seq<T>, y: seq<T>)
    requires Subsequence(a, b) && Subsequence(x, y)
    ensures Subsequence(a + x, b + y)
    decreases |b|
  {
    if a == [] {
      assert a + x == x;
      SubsequenceExtends(x, b, y);
    } else {
      assert (b + y)[0] == b[0] && (b + y)[1..] == b[1..] + y;
      if Subsequence(a, b[1..]) {
        SubsequenceConcat(a, x, b[1..], y);
      } else {
        assert (a + x)[0] == a[0] && (a + x)[1..] == a[1..] + x;
        SubsequenceConcat(a[1..], x, b[1..], y);
      }
    }
  }

  lemma {:induction false} PrefixIsSubsequence<T(!new)>(a: seq<T>, b: seq<T>)
    requires a <= b
    ensures Subsequence(a, b)
    decreases |b|
  {
    if a != [] { PrefixIsSubsequence(a[1..], b[1..]); }
  }
}
