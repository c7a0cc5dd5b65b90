/**
 The escape-sequence filter of internal/logs/ansi.go: a byte loop with a held
 buffer, proved equal to one pass over the whole input however it is cut up, and
 characterised by a grammar of text bytes and escape sequences.
 */
module Ansi {
  import opened Bytes

  const ESC: Byte := 0x1b
  const BEL: Byte := 0x07
  const OPEN_BRACKET: Byte := 0x5b
  const CLOSE_BRACKET: Byte := 0x5d

  /** How much of an unterminated sequence is held before it is given up on. */
  const ESC_CAP := 128

  // ---------------------------------------------------------------- one pass

  /** `esc` needs no further byte: its second byte says how it ends, and it has ended. */
  predicate Done(esc: seq<Byte>) {
    if |esc| < 2 then false
    else
      var last := esc[|esc| - 1];
      if esc[1] == OPEN_BRACKET then |esc| > 2 && 0x40 <= last <= 0x7e
      else if esc[1] == CLOSE_BRACKET then
        last == BEL || (|esc| > 2 && last == BACKSLASH && esc[|esc| - 2] == ESC)
      else true
  }

  /** The held buffer after one more byte. */
  function Next(esc: seq<Byte>, c: Byte): seq<Byte> {
    if esc == [] then (if c == ESC then [c] else [])
    else if Done(esc + [c]) || |esc| + 1 >= ESC_CAP then []
    else esc + [c]
  }

  /** What one byte adds to the output. */
  function Emit(esc: seq<Byte>, c: Byte): seq<Byte> {
    if esc == [] && c != ESC then [c] else []
  }

  /** The held buffer after all of `p`. */
  function Held(esc: seq<Byte>, p: seq<Byte>): seq<Byte>
    decreases p
  {
    if p == [] then esc else Held(Next(esc, p[0]), p[1..])
  }

  /** The output for all of `p`. */
  function Kept(esc: seq<Byte>, p: seq<Byte>): seq<Byte>
    decreases p
  {
    if p == [] then [] else Emit(esc, p[0]) + Kept(Next(esc, p[0]), p[1..])
  }

  /** The one-pass specification: filter everything at once, from a fresh filter. */
  function Strip(p: seq<Byte>): seq<Byte> {
    Kept([], p)
  }

  // ------------------------------------------------------ chunk independence

  lemma {:induction false} Split(esc: seq<Byte>, p: seq<Byte>, q: seq<Byte>)
    ensures Kept(esc, p + q) == Kept(esc, p) + Kept(Held(esc, p), q)
    ensures Held(esc, p + q) == Held(Held(esc, p), q)
    decreases p
  {
    if p == [] {
      assert p + q == q;
    } else {
      assert (p + q)[0] == p[0] && (p + q)[1..] == p[1..] + q;
      Split(Next(esc, p[0]), p[1..], q);
    }
  }

  /** One more byte, seen from the end of the input. */
  lemma Snoc(esc: seq<Byte>, p: seq<Byte>, c: Byte)
    ensures Kept(esc, p + [c]) == Kept(esc, p) + Emit(Held(esc, p), c)
    ensures Held(esc, p + [c]) == Next(Held(esc, p), c)
  {
    Split(esc, p, [c]);
    var h := Held(esc, p);
    assert [c][1..] == [];
    assert Held(h, [c]) == Next(h, c);
    assert Kept(h, [c]) == Emit(h, c) + [];
  }

  /** What a filter that is handed `chunks` one after another returns each time. */
  function Outputs(chunks: seq<seq<Byte>>): seq<seq<Byte>> {
    seq(|chunks|, i requires 0 <= i < |chunks| => Kept(Held([], Flatten(chunks[..i])), chunks[i]))
  }

  /** However the input is cut, the outputs concatenate to one pass over the whole. */
  lemma {:induction false} ChunkIndependence(chunks: seq<seq<Byte>>)
    ensures Flatten(Outputs(chunks)) == Strip(Flatten(chunks))
  {
    if chunks != [] {
      var n := |chunks| - 1;
      var front, last := chunks[..n], chunks[n];
      ChunkIndependence(front);
      assert Outputs(chunks)[..n] == Outputs(front) by {
        forall i | 0 <= i < n ensures Outputs(chunks)[i] == Outputs(front)[i] {
          assert chunks[..i] == front[..i];
        }
      }
      Split([], Flatten(front), last);
    }
  }

  // ------------------------------------------------------------- the grammar

  predicate IsFinal(b: Byte) { 0x40 <= b <= 0x7e }

  /** ESC followed by any byte that does not open a longer form. */
  predicate TwoByte(s: seq<Byte>) {
    |s| == 2 && s[0] == ESC && s[1] != OPEN_BRACKET && s[1] != CLOSE_BRACKET
  }

  /** ESC [ , then non-final bytes, then one final byte. */
  predicate Csi(s: seq<Byte>) {
    && |s| >= 3 && s[0] == ESC && s[1] == OPEN_BRACKET && IsFinal(s[|s| - 1])
    && forall i :: 2 <= i < |s| - 1 ==> !IsFinal(s[i])
  }

  /** A string terminator (BEL, or ESC backslash) ends at position `i`. */
  predicate Terminates(s: seq<Byte>, i: nat)
    requires 1 <= i < |s|
  {
    s[i] == BEL || (s[i] == BACKSLASH && s[i - 1] == ESC)
  }

  /** ESC ] , then a string, then its first terminator. */
  predicate Osc(s: seq<Byte>) {
    && |s| >= 3 && s[0] == ESC && s[1] == CLOSE_BRACKET && Terminates(s, |s| - 1)
    && forall i :: 2 <= i < |s| - 1 ==> !Terminates(s, i)
  }

  predicate WellFormed(s: seq<Byte>) {
    |s| <= ESC_CAP && (TwoByte(s) || Csi(s) || Osc(s))
  }

  /** A sequence that has opened and not ended: what may still be held. */
  predicate Open(s: seq<Byte>) {
    && |s| >= 1 && s[0] == ESC
    && (|s| >= 2 ==>
          || (s[1] == OPEN_BRACKET && forall i :: 2 <= i < |s| ==> !IsFinal(s[i]))
          || (s[1] == CLOSE_BRACKET && forall i :: 2 <= i < |s| ==> !Terminates(s, i)))
  }

  predicate Partial(s: seq<Byte>) {
    s == [] || (Open(s) && |s| < ESC_CAP)
  }

  /** A log is text bytes, whole sequences, and malformed runs cut at the cap. */
  datatype Piece = Text(b: Byte) | Escape(s: seq<Byte>) | Overlong(s: seq<Byte>)

  predicate ValidPiece(x: Piece) {
    match x
    case Text(b) => b != ESC
    case Escape(s) => WellFormed(s)
    case Overlong(s) => Open(s) && |s| == ESC_CAP
  }

  predicate ValidPieces(xs: seq<Piece>) {
    forall i :: 0 <= i < |xs| ==> ValidPiece(xs[i])
  }

  function Raw(x: Piece): seq<Byte> {
    match x
    case Text(b) => [b]
    case Escape(s) => s
    case Overlong(s) => s
  }

  function Visible(x: Piece): seq<Byte> {
    if x.Text? then [x.b] else []
  }

  function Render(xs: seq<Piece>): seq<Byte> {
    if xs == [] then [] else Raw(xs[0]) + Render(xs[1..])
  }

  function Texts(xs: seq<Piece>): seq<Byte> {
    if xs == [] then [] else Visible(xs[0]) + Texts(xs[1..])
  }

  /** Every control sequence of ECMA-48, section 5.4, has the CSI form above. */
  lemma EcmaControlSequence(params: seq<Byte>, intermediates: seq<Byte>, final: Byte)
    requires forall i :: 0 <= i < |params| ==> 0x30 <= params[i] <= 0x3f
    requires forall i :: 0 <= i < |intermediates| ==> 0x20 <= intermediates[i] <= 0x2f
    requires 0x40 <= final <= 0x7e
    ensures Csi([ESC, OPEN_BRACKET] + params + intermediates + [final])
  {
    var s := [ESC, OPEN_BRACKET] + params + intermediates + [final];
    forall i | 2 <= i < |s| - 1 ensures !IsFinal(s[i]) {
      assert s[i] == if i < 2 + |params| then params[i - 2] else intermediates[i - 2 - |params|];
    }
  }

  // --------------------------------------------- the filter against the grammar

  /** An open sequence plus one byte: still open, or complete, never neither. */
  lemma OpenStep(s: seq<Byte>, c: Byte)
    requires Open(s)
    ensures Done(s + [c]) <==> TwoByte(s + [c]) || Csi(s + [c]) || Osc(s + [c])
    ensures !Done(s + [c]) <==> Open(s + [c])
  {
    var t := s + [c];
    assert t[0] == s[0] && t[|t| - 1] == c;
    if |s| >= 2 {
      assert t[1] == s[1];
      assert s == t[..|s|];
      if s[1] == CLOSE_BRACKET {
        assert forall i :: 2 <= i < |s| ==> Terminates(t, i) == Terminates(s, i);
        assert Done(t) == Terminates(t, |t| - 1);
        if Open(t) { assert !Terminates(t, |t| - 1); }
      } else {
        assert forall i :: 2 <= i < |s| ==> IsFinal(t[i]) == IsFinal(s[i]);
        if Open(t) { assert !IsFinal(t[|t| - 1]); }
      }
    }
  }

  /** Feeding an open sequence byte by byte keeps all of it and emits nothing. */
  lemma {:induction false} OpenIsHeld(s: seq<Byte>)
    requires Open(s) && |s| < ESC_CAP
    ensures Held([], s) == s && Kept([], s) == []
  {
    var n := |s| - 1;
    var front, c := s[..n], s[n];
    assert s == front + [c];
    Snoc([], front, c);
    if n > 0 {
      assert Open(front) by {
        if |front| >= 2 && s[1] == CLOSE_BRACKET {
          assert forall i :: 2 <= i < |front| ==> Terminates(front, i) == Terminates(s, i);
        }
      }
      OpenIsHeld(front);
      OpenStep(front, c);
    }
  }

  /** All but the last byte of a piece that is not text is an open sequence. */
  lemma OpenFront(s: seq<Byte>)
    requires WellFormed(s) || (Open(s) && |s| == ESC_CAP)
    ensures Open(s[..|s| - 1])
  {
    var front := s[..|s| - 1];
    if |front| >= 2 && s[1] == CLOSE_BRACKET {
      assert forall i :: 2 <= i < |front| ==> Terminates(front, i) == Terminates(s, i);
    }
  }

  /** A whole sequence, or a malformed one at the cap, leaves no trace. */
  lemma PieceVanishes(x: Piece)
    requires ValidPiece(x)
    ensures Kept([], Raw(x)) == Visible(x) && Held([], Raw(x)) == []
  {
    if x.Text? {
      Snoc([], [], x.b);
      assert [] + [x.b] == [x.b];
    } else {
      var s := x.s;
      var n := |s| - 1;
      var front, c := s[..n], s[n];
      assert s == front + [c];
      OpenFront(s);
      OpenIsHeld(front);
      OpenStep(front, c);
      Snoc([], front, c);
    }
  }

  /** Any interleaving of text and sequences comes out as exactly its text. */
  lemma {:induction false} StripsExactly(xs: seq<Piece>, tail: seq<Byte>)
    requires ValidPieces(xs) && Partial(tail)
    ensures Kept([], Render(xs) + tail) == Texts(xs)
    ensures Held([], Render(xs) + tail) == tail
  {
    if xs == [] {
      assert Render(xs) + tail == tail;
      if tail != [] { OpenIsHeld(tail); }
    } else {
      assert Render(xs) + tail == Raw(xs[0]) + (Render(xs[1..]) + tail);
      PieceVanishes(xs[0]);
      Split([], Raw(xs[0]), Render(xs[1..]) + tail);
      StripsExactly(xs[1..], tail);
    }
  }

  /** The pieces the filter sees in `p`, given what it already holds. */
  function Parse(esc: seq<Byte>, p: seq<Byte>): seq<Piece>
    decreases p
  {
    if p == [] then []
    else if esc == [] && p[0] != ESC then [Text(p[0])] + Parse([], p[1..])
    else if Next(esc, p[0]) != [] then Parse(Next(esc, p[0]), p[1..])
    else
      var s := esc + [p[0]];
      [if Done(s) then Escape(s) else Overlong(s)] + Parse([], p[1..])
  }

  lemma {:induction false} ParseIsValid(esc: seq<Byte>, p: seq<Byte>)
    requires Partial(esc)
    ensures ValidPieces(Parse(esc, p)) && Partial(Held(esc, p))
    decreases p
  {
    if p != [] {
      if esc != [] { OpenStep(esc, p[0]); }
      ParseIsValid(Next(esc, p[0]), p[1..]);
    }
  }

  lemma RenderCons(x: Piece, xs: seq<Piece>, held: seq<Byte>)
    ensures Render([x] + xs) + held == Raw(x) + (Render(xs) + held)
  {
    assert ([x] + xs)[1..] == xs;
  }

  lemma ParseStep(esc: seq<Byte>, p: seq<Byte>)
    requires p != [] && Next(esc, p[0]) == []
    ensures exists x :: Raw(x) == esc + [p[0]] && Parse(esc, p) == [x] + Parse([], p[1..])
  {
    var x := if esc == [] then Text(p[0])
             else if Done(esc + [p[0]]) then Escape(esc + [p[0]]) else Overlong(esc + [p[0]]);
    assert Raw(x) == esc + [p[0]];
    assert Parse(esc, p) == [x] + Parse([], p[1..]);
  }

  lemma {:induction false} ParseRendersBack(esc: seq<Byte>, p: seq<Byte>)
    ensures Render(Parse(esc, p)) + Held(esc, p) == esc + p
    decreases p
  {
    if p == [] {
      assert esc + p == esc;
    } else {
      ParseRendersBack(Next(esc, p[0]), p[1..]);
      assert esc + p == (esc + [p[0]]) + p[1..];
      if Next(esc, p[0]) == [] {
        ParseStep(esc, p);
        var x :| Raw(x) == esc + [p[0]] && Parse(esc, p) == [x] + Parse([], p[1..]);
        RenderCons(x, Parse([], p[1..]), Held([], p[1..]));
        assert [] + p[1..] == p[1..];
      }
    }
  }

  lemma {:induction false} ParseShowsKept(esc: seq<Byte>, p: seq<Byte>)
    ensures Texts(Parse(esc, p)) == Kept(esc, p)
    decreases p
  {
    if p != [] {
      var next, rest := Next(esc, p[0]), p[1..];
      ParseShowsKept(next, rest);
      if next == [] {
        assert Parse(esc, p)[1..] == Parse([], rest);
      }
    }
  }

  /** `xs` followed by the unfinished `held` is a reading of `p` with text `text`. */
  ghost predicate Reads(p: seq<Byte>, xs: seq<Piece>, text: seq<Byte>, held: seq<Byte>) {
    ValidPieces(xs) && Partial(held) && p == Render(xs) + held && text == Texts(xs)
  }

  /** The filter is exactly the grammar: its output and held bytes are those of a reading of the input. */
  lemma FilterIsGrammar(p: seq<Byte>, text: seq<Byte>, held: seq<Byte>)
    ensures Kept([], p) == text && Held([], p) == held <==> exists xs :: Reads(p, xs, text, held)
  {
    if Kept([], p) == text && Held([], p) == held {
      ParseIsValid([], p);
      ParseRendersBack([], p);
      ParseShowsKept([], p);
      assert [] + p == p;
      assert Reads(p, Parse([], p), text, held);
    }
    if exists xs :: Reads(p, xs, text, held) {
      var xs :| Reads(p, xs, text, held);
      StripsExactly(xs, held);
    }
  }

  lemma {:induction false} ParseSplit(esc: seq<Byte>, p: seq<Byte>, q: seq<Byte>)
    ensures Parse(esc, p + q) == Parse(esc, p) + Parse(Held(esc, p), q)
    decreases p
  {
    if p == [] {
      assert p + q == q;
    } else {
      assert (p + q)[0] == p[0] && (p + q)[1..] == p[1..] + q;
      ParseSplit(Next(esc, p[0]), p[1..], q);
    }
  }

  /** An unfinished sequence is not a piece yet. */
  lemma OpenIsNoPiece(s: seq<Byte>)
    requires Open(s) && |s| < ESC_CAP
    ensures Parse([], s) == [] && Held([], s) == s
  {
    OpenIsHeld(s);
    ParseRendersBack([], s);
    ParseIsValid([], s);
    assert |Render(Parse([], s))| == 0;
  }

  lemma LastByteParses(front: seq<Byte>, c: Byte)
    requires front != [] && Next(front, c) == []
    ensures Parse(front, [c]) == [if Done(front + [c]) then Escape(front + [c]) else Overlong(front + [c])]
  {
    assert [c][1..] == [];
  }

  lemma PieceParses(x: Piece)
    requires ValidPiece(x) && !x.Text?
    ensures Parse([], x.s) == [x] && Held([], x.s) == []
  {
    PieceVanishes(x);
    var n := |x.s| - 1;
    var front, c := x.s[..n], x.s[n];
    assert x.s == front + [c];
    OpenFront(x.s);
    OpenIsNoPiece(front);
    OpenStep(front, c);
    ParseSplit([], front, [c]);
    LastByteParses(front, c);
  }

  /** A piece at the front of the input is the first the filter sees. */
  lemma PieceFirst(x: Piece, rest: seq<Byte>)
    requires ValidPiece(x)
    ensures Parse([], Raw(x) + rest) == [x] + Parse([], rest)
  {
    if x.Text? {
      assert (Raw(x) + rest)[1..] == rest;
    } else {
      PieceParses(x);
      ParseSplit([], x.s, rest);
    }
  }

  /** There is only one reading: its pieces are the ones the filter sees. */
  lemma {:induction false} ReadingIsUnique(p: seq<Byte>, xs: seq<Piece>, text: seq<Byte>, held: seq<Byte>)
    requires Reads(p, xs, text, held)
    ensures xs == Parse([], p) && text == Kept([], p) && held == Held([], p)
    decreases xs
  {
    StripsExactly(xs, held);
    if xs == [] {
      assert p == held;
      if held != [] { OpenIsNoPiece(held); }
    } else {
      var rest := Render(xs[1..]) + held;
      assert p == Raw(xs[0]) + rest;
      PieceFirst(xs[0], rest);
      ReadingIsUnique(rest, xs[1..], Texts(xs[1..]), held);
    }
  }

  // ---------------------------------------------- the same, byte by byte and by number

  /** ESC and one byte; ESC [ to the first byte in @ to ~; or ESC ] to the first BEL or ESC backslash. */
  predicate Sequence(s: seq<Byte>) {
    && 2 <= |s| <= 128 && s[0] == 0x1b
    && if s[1] == 0x5b then
         |s| > 2 && 0x40 <= s[|s| - 1] <= 0x7e && forall i :: 2 <= i < |s| - 1 ==> !(0x40 <= s[i] <= 0x7e)
       else if s[1] == 0x5d then
         |s| > 2 && EndsString(s, |s| - 1) && forall i :: 2 <= i < |s| - 1 ==> !EndsString(s, i)
       else |s| == 2
  }

  predicate EndsString(s: seq<Byte>, i: nat)
    requires 1 <= i < |s|
  {
    s[i] == 0x07 || (s[i] == 0x5c && s[i - 1] == 0x1b)
  }

  /** What is left of output that comes in pieces, each of them text or one sequence. */
  function TextParts(parts: seq<seq<Byte>>): seq<Byte> {
    if parts == [] then []
    else
      var n := |parts| - 1;
      TextParts(parts[..n]) + if 0x1b in parts[n] then [] else parts[n]
  }

  lemma SequenceIsPiece(s: seq<Byte>)
    requires Sequence(s)
    ensures ValidPiece(Escape(s)) && 0x1b in s
  {
    assert s[0] == 0x1b;
    if s[1] == 0x5d {
      assert forall i :: 2 <= i < |s| ==> Terminates(s, i) == EndsString(s, i);
    }
  }

  /** Any interleaving of text with sequences of at most 128 bytes comes out as exactly its text. */
  lemma {:induction false} StripsSequences(parts: seq<seq<Byte>>)
    requires forall i :: 0 <= i < |parts| ==> 0x1b !in parts[i] || Sequence(parts[i])
    ensures Kept([], Flatten(parts)) == TextParts(parts) && Held([], Flatten(parts)) == []
  {
    if parts != [] {
      var n := |parts| - 1;
      StripsSequences(parts[..n]);
      Split([], Flatten(parts[..n]), parts[n]);
      if 0x1b in parts[n] {
        SequenceIsPiece(parts[n]);
        PieceVanishes(Escape(parts[n]));
      } else {
        CleanPassesThrough(parts[n]);
      }
    }
  }

  /** ESC [ without a byte in @ to ~ so far, or ESC ] without a BEL or an ESC backslash. */
  predicate Unended(s: seq<Byte>) {
    && 2 <= |s| && s[0] == 0x1b
    && (|| (s[1] == 0x5b && forall i :: 2 <= i < |s| ==> !(0x40 <= s[i] <= 0x7e))
        || (s[1] == 0x5d && forall i :: 2 <= i < |s| ==> !EndsString(s, i)))
  }

  lemma UnendedIsOpen(s: seq<Byte>)
    requires Unended(s)
    ensures Open(s)
  {
    if s[1] == 0x5d {
      assert forall i :: 2 <= i < |s| ==> Terminates(s, i) == EndsString(s, i);
    }
  }

  /**
   A sequence that does not end is held whole up to 127 bytes. One that has 128 is
   dropped, and what follows is text again.
   */
  lemma GivesUpAt128(s: seq<Byte>, text: seq<Byte>)
    requires Unended(s) && |s| <= 128 && 0x1b !in text
    ensures |s| <= 127 ==> Kept([], s) == [] && Held([], s) == s
    ensures |s| == 128 ==> Kept([], s + text) == text && Held([], s + text) == []
  {
    UnendedIsOpen(s);
    if |s| <= 127 {
      OpenIsHeld(s);
    } else {
      PieceVanishes(Overlong(s));
      Split([], s, text);
      CleanPassesThrough(text);
    }
  }

  /** Bold red, of seven bytes, leaves no trace. */
  lemma ColourIsStripped()
    ensures Strip([0x1b] + Ascii("[1;31mX")) == Ascii("X")
  {
    var red: seq<Byte> := [0x1b, 0x5b, 0x31, 0x3b, 0x33, 0x31, 0x6d];
    var x: seq<Byte> := [0x58];
    assert [0x1b] + Ascii("[1;31mX") == red + x && Ascii("X") == x;
    SequenceIsPiece(red);
    PieceVanishes(Escape(red));
    Split([], red, x);
    CleanPassesThrough(x);
  }

  // ------------------------------------------------------ consequences for logs

  lemma {:induction false} KeptHasNoEsc(esc: seq<Byte>, p: seq<Byte>)
    ensures ESC !in Kept(esc, p)
    decreases p
  {
    if p != [] { KeptHasNoEsc(Next(esc, p[0]), p[1..]); }
  }

  lemma {:induction false} KeptIsSubsequence(esc: seq<Byte>, p: seq<Byte>)
    ensures Subsequence(Kept(esc, p), p)
    decreases p
  {
    if p != [] {
      KeptIsSubsequence(Next(esc, p[0]), p[1..]);
      var k := Kept(Next(esc, p[0]), p[1..]);
      if Emit(esc, p[0]) == [] {
        assert Kept(esc, p) == k;
      } else {
        assert Kept(esc, p)[1..] == k;
      }
    }
  }

  /** Text without ESC passes a fresh filter untouched: the fast path. */
  lemma {:induction false} CleanPassesThrough(p: seq<Byte>)
    requires ESC !in p
    ensures Kept([], p) == p && Held([], p) == []
  {
    if p != [] {
      CleanPassesThrough(p[1..]);
      assert p == [p[0]] + p[1..];
    }
  }

  // --------------------------------------------------------- the imperative form

  /** internal/logs/ansi.go: `ansiFilter`. */
  class AnsiFilter {
    var esc: seq<Byte>

    constructor ()
      ensures esc == []
    {
      esc := [];
    }

    method Filter(p: seq<Byte>) returns (out: seq<Byte>)
      requires Partial(esc)
      modifies this
      ensures out == Kept(old(esc), p)
      ensures esc == Held(old(esc), p)
      ensures Partial(esc)
    {
      if esc == [] && ESC !in p {
        CleanPassesThrough(p);
        return p;
      }
      out := [];
      for i := 0 to |p|
        invariant out == Kept(old(esc), p[..i])
        invariant esc == Held(old(esc), p[..i])
      {
        var c := p[i];
        assert p[..i + 1] == p[..i] + [c];
        Snoc(old(esc), p[..i], c);
        if esc == [] {
          if c == ESC {
            esc := esc + [c];
          } else {
            out := out + [c];
          }
        } else {
          esc := esc + [c];
          if Done(esc) || |esc| >= ESC_CAP {
            esc := [];
          }
        }
      }
      assert p[..|p|] == p;
      ParseIsValid(old(esc), p);
    }
  }
}
