/** Well-formed UTF-8, as section 4 of RFC 3629 lists it, and what cutting does to it. */
module Utf8 {
  import opened Bytes

  predicate IsTail(b: Byte) { 0x80 <= b <= 0xbf }

  /** The length of the well-formed character `s` starts with, or 0. */
  function RuneLength(s: seq<Byte>): (n: nat)
    ensures n <= 4 && n <= |s|
  {
    if |s| >= 1 && s[0] <= 0x7f then 1
    else if |s| >= 2 && 0xc2 <= s[0] <= 0xdf && IsTail(s[1]) then 2
    else if |s| >= 3 && ThreeByteStart(s[0], s[1]) && IsTail(s[2]) then 3
    else if |s| >= 4 && FourByteStart(s[0], s[1]) && IsTail(s[2]) && IsTail(s[3]) then 4
    else 0
  }

  predicate ThreeByteStart(a: Byte, b: Byte) {
    || (a == 0xe0 && 0xa0 <= b <= 0xbf)
    || (0xe1 <= a <= 0xec && IsTail(b))
    || (a == 0xed && 0x80 <= b <= 0x9f)
    || (0xee <= a <= 0xef && IsTail(b))
  }

  predicate FourByteStart(a: Byte, b: Byte) {
    || (a == 0xf0 && 0x90 <= b <= 0xbf)
    || (0xf1 <= a <= 0xf3 && IsTail(b))
    || (a == 0xf4 && 0x80 <= b <= 0x8f)
  }

  predicate Valid(s: seq<Byte>)
    decreases |s|
  {
    s == [] || (RuneLength(s) > 0 && Valid(s[RuneLength(s)..]))
  }

  // ------------------------------------------------------- against the code points

  /** The Unicode scalar values: the code points without the surrogates. */
  predicate Scalar(c: int) {
    0 <= c <= 0xd7ff || 0xe000 <= c <= 0x10ffff
  }

  /** The encoding of a code point, as section 3 of RFC 3629 computes it. */
  function EncodeScalar(c: int): seq<Byte>
    requires Scalar(c)
  {
    if c < 0x80 then [c]
    else if c < 0x800 then [0xc0 + c / 64, 0x80 + c % 64]
    else if c < 0x10000 then [0xe0 + c / 4096, 0x80 + c / 64 % 64, 0x80 + c % 64]
    else [0xf0 + c / 262144, 0x80 + c / 4096 % 64, 0x80 + c / 64 % 64, 0x80 + c % 64]
  }

  /** The code point of a well-formed character. */
  function DecodeScalar(s: seq<Byte>): (c: int)
    requires RuneLength(s) > 0
    ensures Scalar(c)
  {
    match RuneLength(s)
    case 1 => s[0]
    case 2 => Joined(s[0] - 0xc0, s[1])
    case 3 => Joined(Joined(s[0] - 0xe0, s[1]), s[2])
    case _ => Joined(Joined(Joined(s[0] - 0xf0, s[1]), s[2]), s[3])
  }

  /** Six more bits, from a tail byte. */
  function Joined(high: int, tail: int): int {
    high * 64 + (tail - 0x80)
  }

  lemma JoinedParts(high: int, tail: Byte)
    requires IsTail(tail) && high >= 0
    ensures Joined(high, tail) / 64 == high && Joined(high, tail) % 64 == tail - 0x80
  {
  }

  lemma Quotients(c: int)
    requires c >= 0
    ensures c / 4096 == c / 64 / 64 && c / 262144 == c / 64 / 64 / 64
  {
  }

  lemma ScalarOfRune(s: seq<Byte>)
    requires RuneLength(s) > 0
    ensures EncodeScalar(DecodeScalar(s)) == s[..RuneLength(s)]
  {
    var n := RuneLength(s);
    Quotients(DecodeScalar(s));
    if n == 2 {
      JoinedParts(s[0] - 0xc0, s[1]);
    } else if n == 3 {
      JoinedParts(s[0] - 0xe0, s[1]);
      JoinedParts(Joined(s[0] - 0xe0, s[1]), s[2]);
    } else if n == 4 {
      JoinedParts(s[0] - 0xf0, s[1]);
      JoinedParts(Joined(s[0] - 0xf0, s[1]), s[2]);
      JoinedParts(Joined(Joined(s[0] - 0xf0, s[1]), s[2]), s[3]);
    }
  }

  lemma MiddleRune(c: int, rest: seq<Byte>)
    requires Scalar(c) && 0x800 <= c < 0x10000
    ensures RuneLength(EncodeScalar(c) + rest) == 3
  {
    var s := EncodeScalar(c) + rest;
    assert |s| >= 3 && s[0] == 0xe0 + c / 4096 && s[1] == 0x80 + c / 64 % 64 && IsTail(s[2]);
    Quotients(c);
  }

  lemma LongRune(c: int, rest: seq<Byte>)
    requires Scalar(c) && c >= 0x10000
    ensures RuneLength(EncodeScalar(c) + rest) == 4
  {
    var s := EncodeScalar(c) + rest;
    assert |s| >= 4 && s[0] == 0xf0 + c / 262144 && s[1] == 0x80 + c / 4096 % 64 && IsTail(s[2]) && IsTail(s[3]);
    Quotients(c);
  }

  lemma RuneOfScalar(c: int, rest: seq<Byte>)
    requires Scalar(c)
    ensures RuneLength(EncodeScalar(c) + rest) == |EncodeScalar(c)|
  {
    if c >= 0x10000 {
      LongRune(c, rest);
    } else if c >= 0x800 {
      MiddleRune(c, rest);
    }
  }

  /** A sequence starts with a well-formed character exactly when it starts with an encoded scalar value. */
  lemma RuneIsScalar(s: seq<Byte>)
    ensures RuneLength(s) > 0 <==> exists c :: Scalar(c) && EncodeScalar(c) <= s
    ensures forall c :: Scalar(c) && EncodeScalar(c) <= s ==> RuneLength(s) == |EncodeScalar(c)|
  {
    if RuneLength(s) > 0 {
      ScalarOfRune(s);
      assert EncodeScalar(DecodeScalar(s)) <= s;
    }
    forall c | Scalar(c) && EncodeScalar(c) <= s ensures RuneLength(s) == |EncodeScalar(c)| {
      RuneOfScalar(c, s[|EncodeScalar(c)|..]);
      assert s == EncodeScalar(c) + s[|EncodeScalar(c)|..];
    }
  }

  /** Text is the encodings of some scalar values, one after another. */
  function EncodeText(cs: seq<int>): seq<Byte>
    requires forall i :: 0 <= i < |cs| ==> Scalar(cs[i])
  {
    if cs == [] then [] else EncodeScalar(cs[0]) + EncodeText(cs[1..])
  }

  /** Encoded text is valid, and only encoded text is. */
  lemma {:induction false} EncodedIsValid(cs: seq<int>)
    requires forall i :: 0 <= i < |cs| ==> Scalar(cs[i])
    ensures Valid(EncodeText(cs))
  {
    if cs != [] {
      var head, rest := EncodeScalar(cs[0]), EncodeText(cs[1..]);
      RuneOfScalar(cs[0], rest);
      EncodedIsValid(cs[1..]);
      assert (head + rest)[|head|..] == rest;
    }
  }

  lemma {:induction false} ValidIsEncoded(s: seq<Byte>) returns (cs: seq<int>)
    requires Valid(s)
    ensures (forall i :: 0 <= i < |cs| ==> Scalar(cs[i])) && EncodeText(cs) == s
    decreases |s|
  {
    if s == [] {
      cs := [];
    } else {
      var n := RuneLength(s);
      ScalarOfRune(s);
      var rest := ValidIsEncoded(s[n..]);
      cs := [DecodeScalar(s)] + rest;
      assert cs[1..] == rest;
    }
  }

  // ------------------------------------------------------------- cutting valid text

  /** A character is its first byte and tail bytes, and nothing after it matters. */
  lemma RuneShape(s: seq<Byte>, k: nat)
    requires RuneLength(s) > 0 && k <= |s|
    ensures !IsTail(s[0])
    ensures forall i :: 0 < i < RuneLength(s) ==> IsTail(s[i])
    ensures RuneLength(s[..k]) == if k < RuneLength(s) then 0 else RuneLength(s)
  {
  }

  lemma {:induction false} ValidConcat(a: seq<Byte>, b: seq<Byte>)
    requires Valid(a) && Valid(b)
    ensures Valid(a + b)
    decreases |a|
  {
    if a == [] {
      assert a + b == b;
    } else {
      var n := RuneLength(a);
      RuneShape(a, n);
      assert (a + b)[0] == a[0];
      assert RuneLength(a + b) == n;
      assert (a + b)[n..] == a[n..] + b;
      ValidConcat(a[n..], b);
    }
  }

  lemma SuffixOfSuffix(s: seq<Byte>, n: nat, k: nat)
    requires n + k <= |s|
    ensures s[n..][k..] == s[n + k..]
  {
  }

  /** Wherever valid text is cut, at most three bytes later it is valid again. */
  lemma {:induction false} BoundaryNear(s: seq<Byte>, k: nat) returns (d: nat)
    requires Valid(s) && k <= |s|
    ensures d <= 3 && k + d <= |s| && Valid(s[k + d..])
    decreases |s|
  {
    if k == 0 {
      d := 0;
      assert s[0..] == s;
    } else {
      var n := RuneLength(s);
      if k < n {
        d := n - k;
      } else {
        d := BoundaryNear(s[n..], k - n);
        SuffixOfSuffix(s, n, k - n + d);
      }
    }
  }

  /** A prefix of valid text is valid exactly when it does not stop inside a character. */
  lemma {:induction false} PrefixValid(s: seq<Byte>, k: nat)
    requires Valid(s) && k < |s|
    ensures Valid(s[..k]) <==> !IsTail(s[k])
    decreases |s|
  {
    var n := RuneLength(s);
    RuneShape(s, k);
    if k >= n && k > 0 {
      assert s[..k][n..] == s[n..][..k - n];
      PrefixValid(s[n..], k - n);
    }
  }

  /** Valid text can be cut after any ASCII byte. */
  lemma {:induction false} ValidAfterAscii(s: seq<Byte>, i: nat)
    requires Valid(s) && i < |s| && s[i] <= 0x7f
    ensures Valid(s[i + 1..])
    decreases |s|
  {
    var n := RuneLength(s);
    RuneShape(s, n);
    if i >= n {
      assert s[n..][i - n + 1..] == s[i + 1..];
      ValidAfterAscii(s[n..], i - n);
    }
  }

  lemma {:induction false} AsciiIsValid(s: seq<Byte>)
    requires forall i :: 0 <= i < |s| ==> s[i] <= 0x7f
    ensures Valid(s)
  {
    if s != [] { AsciiIsValid(s[1..]); }
  }

  lemma {:induction false} ValidSuffix(a: seq<Byte>, b: seq<Byte>)
    requires Valid(a) && Valid(a + b)
    ensures Valid(b)
    decreases |a|
  {
    if a == [] {
      assert a + b == b;
    } else {
      var n := RuneLength(a);
      RuneShape(a + b, |a|);
      assert (a + b)[..|a|] == a;
      assert (a + b)[n..] == a[n..] + b;
      ValidSuffix(a[n..], b);
    }
  }

  // ------------------------------------------------------------- decoding with repair

  /** U+FFFD, which stands for what could not be decoded. */
  const REPLACEMENT: seq<Byte> := [0xef, 0xbf, 0xbd]

  lemma NamedScalars()
    ensures REPLACEMENT == EncodeScalar(0xfffd) && BYTE_ORDER_MARK == EncodeScalar(0xfeff)
  {
  }

  /** How much of a malformed start one replacement stands for. */
  function BadLength(s: seq<Byte>): (n: nat)
    requires s != [] && RuneLength(s) == 0
    ensures 1 <= n <= 3 && n <= |s|
  {
    if |s| >= 2 && ThreeByteStart(s[0], s[1]) then 2
    else if |s| >= 2 && FourByteStart(s[0], s[1]) then (if |s| >= 3 && IsTail(s[2]) then 3 else 2)
    else 1
  }

  /** It is as long as a character could still begin with it, or one byte. */
  lemma BadLengthIsLongest(s: seq<Byte>, more: seq<Byte>)
    requires s != [] && RuneLength(s) == 0
    ensures BadLength(s) > 1 ==> exists end: seq<Byte> :: RuneLength(s[..BadLength(s)] + end) > 0
    ensures BadLength(s) < |s| ==> RuneLength(s[..BadLength(s) + 1] + more) == 0
  {
    var n := BadLength(s);
    if n > 1 {
      var end: seq<Byte> := if ThreeByteStart(s[0], s[1]) || n == 3 then [0x80] else [0x80, 0x80];
      assert RuneLength(s[..n] + end) > 0;
    }
  }

  /**
   The UTF-8 decoder of section 8.1.1 of the Encoding Standard, error mode
   "replacement", the text it gives being written in UTF-8 again.
   */
  function Repair(s: seq<Byte>): seq<Byte>
    decreases |s|
  {
    if s == [] then []
    else if RuneLength(s) > 0 then s[..RuneLength(s)] + Repair(s[RuneLength(s)..])
    else REPLACEMENT + Repair(s[BadLength(s)..])
  }

  lemma RuneIsValid(s: seq<Byte>)
    requires RuneLength(s) > 0
    ensures Valid(s[..RuneLength(s)])
  {
    var n := RuneLength(s);
    RuneShape(s, n);
    assert s[..n][n..] == [];
  }

  lemma ReplacementIsValid()
    ensures Valid(REPLACEMENT)
  {
    assert RuneLength(REPLACEMENT) == 3 && REPLACEMENT[3..] == [];
  }

  /** Decoding gives valid text, never shorter than its input. */
  lemma {:induction false} RepairIsValid(s: seq<Byte>)
    ensures Valid(Repair(s)) && |Repair(s)| >= |s|
    decreases |s|
  {
    if s != [] {
      if RuneLength(s) > 0 {
        RuneIsValid(s);
        RepairIsValid(s[RuneLength(s)..]);
        ValidConcat(s[..RuneLength(s)], Repair(s[RuneLength(s)..]));
      } else {
        ReplacementIsValid();
        RepairIsValid(s[BadLength(s)..]);
        ValidConcat(REPLACEMENT, Repair(s[BadLength(s)..]));
      }
    }
  }

  lemma {:induction false} RepairOfValid(s: seq<Byte>)
    requires Valid(s)
    ensures Repair(s) == s
    decreases |s|
  {
    if s != [] {
      RepairOfValid(s[RuneLength(s)..]);
      assert s == s[..RuneLength(s)] + s[RuneLength(s)..];
    }
  }

  /** Exactly valid text decodes to itself. */
  lemma RepairKeepsValid(s: seq<Byte>)
    ensures Repair(s) == s <==> Valid(s)
  {
    RepairIsValid(s);
    if Valid(s) { RepairOfValid(s); }
  }

  /** What follows no tail byte does not change how the bytes before it are read. */
  lemma RuneBefore(a: seq<Byte>, x: seq<Byte>)
    requires a != [] && (x == [] || !IsTail(x[0]))
    ensures RuneLength(a + x) == RuneLength(a)
    ensures RuneLength(a) == 0 ==> BadLength(a + x) == BadLength(a)
  {
    if x == [] {
      assert a + x == a;
    } else {
      assert forall i :: 0 <= i < |a| ==> (a + x)[i] == a[i];
      assert (a + x)[|a|] == x[0];
    }
  }

  lemma {:induction false} RepairConcat(a: seq<Byte>, x: seq<Byte>)
    requires x == [] || !IsTail(x[0])
    ensures Repair(a + x) == Repair(a) + Repair(x)
    decreases |a|
  {
    if a == [] {
      assert a + x == x;
    } else {
      RuneBefore(a, x);
      var n := if RuneLength(a) > 0 then RuneLength(a) else BadLength(a);
      var head := if RuneLength(a) > 0 then a[..n] else REPLACEMENT;
      assert (a + x)[n..] == a[n..] + x && (a + x)[..n] == a[..n];
      RepairConcat(a[n..], x);
      Assoc(head, Repair(a[n..]), Repair(x));
    }
  }

  /** ASCII comes through as it is, and nothing before it reaches past it. */
  lemma {:induction false} RepairAscii(p: seq<Byte>, x: seq<Byte>)
    requires forall i :: 0 <= i < |p| ==> p[i] <= 0x7f
    ensures Repair(p + x) == p + Repair(x)
  {
    if p == [] {
      assert p + x == x;
    } else {
      assert (p + x)[..1] == [p[0]] && (p + x)[1..] == p[1..] + x;
      RepairAscii(p[1..], x);
      Assoc([p[0]], p[1..], Repair(x));
      assert [p[0]] + p[1..] == p;
    }
  }

  lemma ValidSplit(a: seq<Byte>, x: seq<Byte>)
    requires x == [] || !IsTail(x[0])
    ensures Valid(a + x) <==> Valid(a) && Valid(x)
  {
    if Valid(a) && Valid(x) { ValidConcat(a, x); }
    if Valid(a + x) {
      RepairConcat(a, x);
      RepairKeepsValid(a + x);
      RepairIsValid(a);
      RepairIsValid(x);
      assert (a + x)[..|a|] == a;
      assert (Repair(a) + Repair(x))[..|a|] == Repair(a);
      ValidSuffix(a, x);
    }
  }

  lemma ValidAfterPrefix(p: seq<Byte>, x: seq<Byte>)
    requires forall i :: 0 <= i < |p| ==> p[i] <= 0x7f
    ensures Valid(p + x) <==> Valid(x)
  {
    AsciiIsValid(p);
    if Valid(x) { ValidConcat(p, x); }
    if Valid(p + x) { ValidSuffix(p, x); }
  }

  lemma InConcat(x: seq<Byte>, y: seq<Byte>, b: Byte)
    ensures b in x + y <==> b in x || b in y
  {
  }

  lemma {:induction false} RepairKeepsAscii(s: seq<Byte>, b: Byte)
    requires b <= 0x7f
    ensures b in Repair(s) <==> b in s
    decreases |s|
  {
    if s != [] {
      var n := if RuneLength(s) > 0 then RuneLength(s) else BadLength(s);
      RepairKeepsAscii(s[n..], b);
      assert s == s[..n] + s[n..];
      InConcat(s[..n], s[n..], b);
      InConcat(if RuneLength(s) > 0 then s[..n] else REPLACEMENT, Repair(s[n..]), b);
      if RuneLength(s) == 0 { BadIsNotAscii(s, n, b); }
    }
  }

  lemma BadIsNotAscii(s: seq<Byte>, n: nat, b: Byte)
    requires s != [] && RuneLength(s) == 0 && n == BadLength(s) && b <= 0x7f
    ensures b !in s[..n] && b !in REPLACEMENT
  {
    assert forall i :: 0 <= i < n ==> s[..n][i] == s[i] && s[i] > 0x7f;
  }

  const BYTE_ORDER_MARK: seq<Byte> := [0xef, 0xbb, 0xbf]

  /** "UTF-8 decode" of section 6 of the Encoding Standard: one byte order mark is dropped. */
  function Text(body: seq<Byte>): seq<Byte> {
    if BYTE_ORDER_MARK <= body then Repair(body[3..]) else Repair(body)
  }
}
