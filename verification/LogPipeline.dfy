/** From a step's output to the reader's screen: the writer and the stream put together. */
module LogPipeline {
  import opened Bytes
  import Ansi
  import LogWriter
  import EventStream
  import Utf8
  import opened LogStream

  /** The part of a written log that a stream with the same cap shows is its payload. */
  lemma VisiblePartIsPayload(max: int, writes: seq<seq<Byte>>)
    ensures
      var file := LogWriter.Contents(max, LogWriter.NoticeFor(max), writes);
      && Visible(max, |file|) <= |file|
      && file[..Visible(max, |file|)] == LogWriter.Payload(max, writes)
  {
    var notice, payload := LogWriter.NoticeFor(max), LogWriter.Payload(max, writes);
    if LogWriter.Truncates(max, writes) {
      assert (payload + notice)[..|payload|] == payload;
    } else {
      assert payload + [] == payload;
      assert payload[..|payload|] == payload;
    }
  }

  /**
   A stream that ends with "finished" after a terminal row, of a log nothing was added to
   since and that was there all along, has shown its reader exactly the stripped output,
   up to the cap, whatever the chunks it was written in and however the two sides
   interleaved, if and only if that holds no CR and no chunk was cut inside a character.
   */
  lemma ReaderGetsStrippedOutput(max: int, s: State, es: seq<Step>, writes: seq<seq<Byte>>)
    requires Init(s) && Run(max, s, es)
    requires
      var t := After(max, s, es);
      && t.pc == Closed(Complete) && !t.stale && t.atFinish == |t.log|
      && t.log == LogWriter.Contents(max, LogWriter.NoticeFor(max), writes)
    ensures
      var t, payload := After(max, s, es), LogWriter.Payload(max, writes);
      var shown := EventStream.Shown(EventStream.EncodeAll(t.frames));
      && (shown == payload <==> CR !in payload && EventStream.AllWhole(t.frames))
      && (Utf8.Valid(payload) ==> (shown == payload <==> CR !in payload && EventStream.Uncut(t.frames)))
  {
    StreamIsComplete(max, s, es);
    ReaderSeesTheLog(max, s, es);
    VisiblePartIsPayload(max, writes);
    var t := After(max, s, es);
    assert t.sent == Visible(max, |t.log|);
    assert t.log[..t.sent] == LogWriter.Payload(max, writes);
  }

  /** For output made of text and well-formed sequences, that is its text. */
  lemma ReaderGetsTheText(pieces: seq<Ansi.Piece>, writes: seq<seq<Byte>>, max: int)
    requires Ansi.ValidPieces(pieces) && Flatten(writes) == Ansi.Render(pieces)
    requires max <= 0 || |Ansi.Texts(pieces)| <= max
    ensures LogWriter.Payload(max, writes) == Ansi.Texts(pieces)
  {
    Ansi.StripsExactly(pieces, []);
    assert Ansi.Render(pieces) + [] == Ansi.Render(pieces);
  }
}
