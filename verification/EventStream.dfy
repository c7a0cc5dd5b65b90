/**
 Server-sent events: the encoder of internal/api/logs_stream.go against an
 independent decoder written from section 9.2.6 of the HTML Living Standard.
 */
module EventStream {
  import opened Bytes
  import Utf8

  // ----------------------------------------------------------------- encoding

  /** The response body of one stream. */
  class ResponseWriter {
    var body: seq<Byte>

    constructor ()
      ensures body == []
    {
      body := [];
    }

    method Write(p: seq<Byte>)
      modifies this
      ensures body == old(body) + p
    {
      body := body + p;
    }
  }

  /** What one stream writes: a chunk of log, a heartbeat, or the closing event. */
  datatype Frame = Data(chunk: seq<Byte>) | Ping | Finished

  const DATA_PREFIX: seq<Byte> := [0x64, 0x61, 0x74, 0x61, COLON, SPACE]
  const DATA_NAME: seq<Byte> := [0x64, 0x61, 0x74, 0x61]
  const EVENT_NAME: seq<Byte> := [0x65, 0x76, 0x65, 0x6e, 0x74]
  /** ": ping" */
  const PING_LINE: seq<Byte> := [COLON, SPACE, 0x70, 0x69, 0x6e, 0x67]
  /** "event: finished" */
  const FINISHED_LINE: seq<Byte> := EVENT_NAME + [COLON, SPACE] + FINISHED_KIND
  const FINISHED_KIND: seq<Byte> := [0x66, 0x69, 0x6e, 0x69, 0x73, 0x68, 0x65, 0x64]

  /** `bytes.Split(chunk, "\n")`: one more piece than there are newlines. */
  function Lines(chunk: seq<Byte>): (ls: seq<seq<Byte>>)
    ensures |ls| > 0
    ensures forall i :: 0 <= i < |ls| ==> LF !in ls[i]
    decreases |chunk|
  {
    var i := IndexByte(chunk, LF);
    if i < 0 then [chunk] else [chunk[..i]] + Lines(chunk[i + 1..])
  }

  function DataLine(l: seq<Byte>): seq<Byte> {
    DATA_PREFIX + l + [LF]
  }

  function DataLines(ls: seq<seq<Byte>>): seq<Byte> {
    if ls == [] then [] else DataLine(ls[0]) + DataLines(ls[1..])
  }

  function Encode(f: Frame): seq<Byte> {
    match f
    case Data(chunk) => DataLines(Lines(chunk)) + [LF]
    case Ping => PING_LINE + [LF] + [LF]
    case Finished => FINISHED_LINE + [LF] + DataLine([]) + [LF]
  }

  function EncodeAll(fs: seq<Frame>): seq<Byte> {
    if fs == [] then [] else Encode(fs[0]) + EncodeAll(fs[1..])
  }

  /** The log bytes a stream carries. */
  function Sent(fs: seq<Frame>): seq<Byte> {
    if fs == [] then [] else (if fs[0].Data? then fs[0].chunk else []) + Sent(fs[1..])
  }

  lemma {:induction false} DataLinesSnoc(ls: seq<seq<Byte>>, l: seq<Byte>)
    ensures DataLines(ls + [l]) == DataLines(ls) + DataLine(l)
  {
    if ls == [] {
      assert [l][1..] == [];
      assert ls + [l] == [l];
    } else {
      assert (ls + [l])[0] == ls[0] && (ls + [l])[1..] == ls[1..] + [l];
      DataLinesSnoc(ls[1..], l);
    }
  }

  /** The three writes of one data line, after what has been written already. */
  lemma DataLineWritten(before: seq<Byte>, done: seq<Byte>, l: seq<Byte>)
    ensures before + done + DATA_PREFIX + l + [LF] == before + (done + DataLine(l))
  {
    Assoc(before + done, DATA_PREFIX, l);
    Assoc(before + done, DATA_PREFIX + l, [LF]);
    Assoc(before, done, DataLine(l));
  }

  method WriteSSEData(w: ResponseWriter, chunk: seq<Byte>)
    modifies w
    ensures w.body == old(w.body) + Encode(Data(chunk))
  {
    var lines := Lines(chunk);
    for i := 0 to |lines|
      invariant w.body == old(w.body) + DataLines(lines[..i])
    {
      DataLinesSnoc(lines[..i], lines[i]);
      assert lines[..i + 1] == lines[..i] + [lines[i]];
      w.Write(DATA_PREFIX);
      w.Write(lines[i]);
      w.Write([LF]);
      DataLineWritten(old(w.body), DataLines(lines[..i]), lines[i]);
    }
    assert lines[..|lines|] == lines;
    Assoc(old(w.body), DataLines(lines), [LF]);
    w.Write([LF]);
  }

  /** A chunk of one line, on the wire. */
  lemma DataOnWire(chunk: seq<Byte>)
    requires 0x0a !in chunk
    ensures Encode(Data(chunk)) == Ascii("data: ") + chunk + [0x0a] + [0x0a]
  {
    OneDataLine(chunk);
    assert DATA_PREFIX == Ascii("data: ");
  }

  lemma PingOnWire()
    ensures Encode(Ping) == Ascii(": ping") + [0x0a] + [0x0a]
  {
    assert PING_LINE == Ascii(": ping");
  }

  lemma FinishedOnWire()
    ensures Encode(Finished) == Ascii("event: ") + Ascii("finished") + [0x0a] + (Ascii("data: ") + [0x0a]) + [0x0a]
  {
    assert EVENT_NAME + [COLON, SPACE] == Ascii("event: ");
    assert FINISHED_KIND == Ascii("finished");
    assert DATA_PREFIX == Ascii("data: ");
    assert DataLine([]) == Ascii("data: ") + [0x0a];
  }

  lemma OneDataLine(l: seq<Byte>)
    requires LF !in l
    ensures DataLines(Lines(l)) == DataLine(l)
  {
    assert Lines(l) == [l] && [l][1..] == [];
    assert DataLine(l) + [] == DataLine(l);
  }

  /** A chunk goes line by line: each line ends where the chunk has a newline. */
  lemma LinesAreSplit(a: seq<Byte>, b: seq<Byte>)
    requires 0x0a !in a
    ensures Lines(a) == [a] && Lines(a + [0x0a] + b) == [a] + Lines(b)
  {
    var s := a + [LF] + b;
    assert s[..|a|] == a && s[|a|] == LF && s[|a| + 1..] == b;
    IndexByteAt(s, LF, |a|);
  }

  // ----------------------------------------------------------------- decoding

  /** A dispatched event; an empty `kind` is an unnamed event. */
  datatype Event = Event(kind: seq<Byte>, data: seq<Byte>)

  /** The data buffer, the event type buffer, and what has been dispatched. */
  datatype Decoder = Decoder(data: seq<Byte>, kind: seq<Byte>, events: seq<Event>)

  const START := Decoder([], [], [])

  /** The first line end in `s`, or -1. */
  function LineEnd(s: seq<Byte>): (i: int)
    ensures -1 <= i < |s|
    ensures i < 0 ==> LF !in s && CR !in s
    ensures i >= 0 ==> (s[i] == LF || s[i] == CR) && LF !in s[..i] && CR !in s[..i]
  {
    if s == [] then -1
    else if s[0] == LF || s[0] == CR then 0
    else
      var j := LineEnd(s[1..]);
      if j < 0 then -1 else assert s[..j + 1] == [s[0]] + s[1..][..j]; j + 1
  }

  /** Lines end at LF, CR, or CR LF; an unfinished last line is not processed. */
  function Decode(d: Decoder, s: seq<Byte>): Decoder
    decreases |s|
  {
    var i := LineEnd(s);
    if i < 0 then d
    else
      var skip := if s[i] == CR && i + 1 < |s| && s[i + 1] == LF then 2 else 1;
      Decode(ProcessLine(d, s[..i]), s[i + skip..])
  }

  function ProcessLine(d: Decoder, line: seq<Byte>): Decoder {
    if line == [] then Dispatch(d)
    else
      var i := IndexByte(line, COLON);
      if i == 0 then d
      else if i < 0 then ProcessField(d, line, [])
      else
        var value := line[i + 1..];
        ProcessField(d, line[..i], if value != [] && value[0] == SPACE then value[1..] else value)
  }

  function ProcessField(d: Decoder, name: seq<Byte>, value: seq<Byte>): Decoder {
    if name == EVENT_NAME then d.(kind := value)
    else if name == DATA_NAME then d.(data := d.data + value + [LF])
    else d
  }

  function Dispatch(d: Decoder): Decoder {
    if d.data == [] then d.(kind := [])
    else
      var n := |d.data| - 1;
      var data := if d.data[n] == LF then d.data[..n] else d.data;
      Decoder([], [], d.events + [Event(d.kind, data)])
  }

  /** The joined payloads of the unnamed events: what the log page shows. */
  function Received(events: seq<Event>): seq<Byte> {
    if events == [] then []
    else
      var n := |events| - 1;
      Received(events[..n]) + if events[n].kind == [] then events[n].data else []
  }

  lemma NamedLine(d: Decoder, name: seq<Byte>, value: seq<Byte>)
    requires COLON !in name && name != []
    ensures ProcessLine(d, name + [COLON, SPACE] + value) == ProcessField(d, name, value)
  {
    var line := name + [COLON, SPACE] + value;
    assert line[..|name|] == name && line[|name|] == COLON;
    IndexByteAt(line, COLON, |name|);
    assert line[|name| + 1..] == [SPACE] + value && ([SPACE] + value)[1..] == value;
  }

  lemma FieldNames()
    ensures DATA_NAME == Ascii("data") && EVENT_NAME == Ascii("event")
  {
  }

  /** A "data" line adds its value and a newline, an "event" line names the event, others do nothing. */
  lemma FieldsOfLine(d: Decoder, name: seq<Byte>, value: seq<Byte>)
    requires 0x3a !in name && name != []
    ensures
      var after := ProcessLine(d, name + [0x3a, 0x20] + value);
      && (name == Ascii("data") ==> after == d.(data := d.data + value + [0x0a]))
      && (name == Ascii("event") ==> after == d.(kind := value))
      && (name != Ascii("data") && name != Ascii("event") ==> after == d)
  {
    NamedLine(d, name, value);
    FieldNames();
  }

  // --------------------------------------------------------------- round trip

  lemma {:induction false} LineEndAfter(line: seq<Byte>, rest: seq<Byte>)
    requires LF !in line && CR !in line
    ensures LineEnd(line + [LF] + rest) == |line|
  {
    if line != [] {
      assert (line + [LF] + rest)[1..] == line[1..] + [LF] + rest;
      LineEndAfter(line[1..], rest);
    }
  }

  lemma DecodeLine(d: Decoder, line: seq<Byte>, rest: seq<Byte>)
    requires LF !in line && CR !in line
    ensures Decode(d, line + [LF] + rest) == Decode(ProcessLine(d, line), rest)
  {
    var s := line + [LF] + rest;
    LineEndAfter(line, rest);
    assert s[..|line|] == line && s[|line| + 1..] == rest;
  }

  /** `data: ` and a line adds that line and an LF to the data buffer. */
  lemma DataField(d: Decoder, line: seq<Byte>)
    ensures ProcessLine(d, DATA_PREFIX + line) == d.(data := d.data + line + [LF])
  {
    var l := DATA_PREFIX + line;
    assert l[4] == COLON && l[0] == 0x64 && l[1] == 0x61 && l[2] == 0x74 && l[3] == 0x61 && l[5] == SPACE;
    IndexByteAt(l, COLON, 4);
    assert l[..4] == DATA_NAME;
    assert l[5..] == [SPACE] + line;
    assert l[5..][1..] == line;
  }

  /** What the data buffer holds after these lines. */
  function Joined(ls: seq<seq<Byte>>): seq<Byte> {
    if ls == [] then [] else (ls[0] + [LF]) + Joined(ls[1..])
  }

  lemma {:induction false} JoinedLines(chunk: seq<Byte>)
    ensures Joined(Lines(chunk)) == chunk + [LF]
    decreases |chunk|
  {
    var i := IndexByte(chunk, LF);
    if i < 0 {
      JoinedOne(chunk);
    } else {
      JoinedLines(chunk[i + 1..]);
      JoinedCons(chunk[..i], Lines(chunk[i + 1..]));
      Assoc(chunk[..i] + [LF], chunk[i + 1..], [LF]);
      assert chunk[..i] + [LF] + chunk[i + 1..] == chunk;
    }
  }

  lemma JoinedOne(l: seq<Byte>)
    ensures Joined([l]) == l + [LF]
  {
    assert [l][1..] == [];
    assert l + [LF] + [] == l + [LF];
  }

  lemma JoinedCons(l: seq<Byte>, ls: seq<seq<Byte>>)
    ensures Joined([l] + ls) == (l + [LF]) + Joined(ls)
  {
    assert ([l] + ls)[1..] == ls;
  }

  lemma {:induction false} LinesAreFromChunk(chunk: seq<Byte>)
    requires CR !in chunk
    ensures forall i :: 0 <= i < |Lines(chunk)| ==> CR !in Lines(chunk)[i]
    decreases |chunk|
  {
    var i := IndexByte(chunk, LF);
    if i >= 0 { LinesAreFromChunk(chunk[i + 1..]); }
  }

  lemma DecodeDataLine(d: Decoder, line: seq<Byte>, rest: seq<Byte>)
    requires LF !in line && CR !in line
    ensures Decode(d, DataLine(line) + rest) == Decode(d.(data := d.data + line + [LF]), rest)
  {
    DataField(d, line);
    DecodeLine(d, DATA_PREFIX + line, rest);
  }

  lemma {:induction false} DecodeDataLines(d: Decoder, ls: seq<seq<Byte>>, rest: seq<Byte>)
    requires forall i :: 0 <= i < |ls| ==> LF !in ls[i] && CR !in ls[i]
    ensures Decode(d, DataLines(ls) + rest) == Decode(d.(data := d.data + Joined(ls)), rest)
    decreases |ls|
  {
    if ls == [] {
      assert [] + rest == rest;
      assert d.data + [] == d.data;
    } else {
      var l, more := ls[0], ls[1..];
      var next := d.data + l + [LF];
      Assoc(DataLine(l), DataLines(more), rest);
      DecodeDataLine(d, l, DataLines(more) + rest);
      DecodeDataLines(d.(data := next), more, rest);
      Assoc(d.data, l, [LF]);
      Assoc(d.data, l + [LF], Joined(more));
    }
  }

  /** Nothing is pending between frames. */
  predicate Idle(d: Decoder) {
    d.data == [] && d.kind == []
  }

  lemma DecodeData(d: Decoder, chunk: seq<Byte>, rest: seq<Byte>)
    requires Idle(d) && CR !in chunk
    ensures Decode(d, Encode(Data(chunk)) + rest)
         == Decode(d.(events := d.events + [Event([], chunk)]), rest)
  {
    var ls := Lines(chunk);
    LinesAreFromChunk(chunk);
    JoinedLines(chunk);
    assert Encode(Data(chunk)) + rest == DataLines(ls) + ([] + [LF] + rest);
    DecodeDataLines(d, ls, [] + [LF] + rest);
    var full := d.(data := d.data + Joined(ls));
    assert full.data == chunk + [LF];
    DecodeLine(full, [], rest);
    assert (chunk + [LF])[..|chunk|] == chunk;
  }

  lemma DecodePing(d: Decoder, rest: seq<Byte>)
    requires Idle(d)
    ensures Decode(d, Encode(Ping) + rest) == Decode(d, rest)
  {
    assert Encode(Ping) + rest == PING_LINE + [LF] + ([] + [LF] + rest);
    DecodeLine(d, PING_LINE, [] + [LF] + rest);
    IndexByteAt(PING_LINE, COLON, 0);
    DecodeLine(d, [], rest);
  }

  lemma FinishedName(d: Decoder)
    ensures LF !in FINISHED_LINE && CR !in FINISHED_LINE
    ensures ProcessLine(d, FINISHED_LINE) == d.(kind := FINISHED_KIND)
  {
    IndexByteAt(FINISHED_LINE, COLON, 5);
    assert FINISHED_LINE[..5] == EVENT_NAME && FINISHED_LINE[6..] == [SPACE] + FINISHED_KIND;
    assert FINISHED_LINE[6..][1..] == FINISHED_KIND;
  }

  lemma DecodeFinished(d: Decoder, rest: seq<Byte>)
    requires Idle(d)
    ensures Decode(d, Encode(Finished) + rest)
         == Decode(d.(events := d.events + [Event(FINISHED_KIND, [])]), rest)
  {
    FinishedName(d);
    var blank := [] + [LF] + rest;
    assert Encode(Finished) + rest == FINISHED_LINE + [LF] + (DataLine([]) + blank) by {
      Assoc(FINISHED_LINE + [LF] + DataLine([]), [LF], rest);
      Assoc(FINISHED_LINE + [LF], DataLine([]), [LF] + rest);
      assert blank == [LF] + rest;
    }
    DecodeLine(d, FINISHED_LINE, DataLine([]) + blank);
    var named := d.(kind := FINISHED_KIND);
    DecodeDataLine(named, [], blank);
    var full := named.(data := [] + [] + [LF]);
    DecodeLine(full, [], rest);
    assert full.data[..0] == [];
  }

  lemma ReceivedSnoc(events: seq<Event>, e: Event)
    ensures Received(events + [e]) == Received(events) + if e.kind == [] then e.data else []
  {
    assert (events + [e])[..|events|] == events;
  }

  /** What a frame makes the decoder dispatch. */
  function Dispatched(f: Frame): seq<Event> {
    match f
    case Data(chunk) => [Event([], chunk)]
    case Ping => []
    case Finished => [Event(FINISHED_KIND, [])]
  }

  lemma DecodeFrame(d: Decoder, f: Frame, rest: seq<Byte>)
    requires Idle(d) && (f.Data? ==> CR !in f.chunk)
    ensures Decode(d, Encode(f) + rest) == Decode(d.(events := d.events + Dispatched(f)), rest)
    ensures Received(d.events + Dispatched(f)) == Received(d.events) + if f.Data? then f.chunk else []
  {
    match f
    case Data(chunk) =>
      DecodeData(d, chunk, rest);
      ReceivedSnoc(d.events, Event([], chunk));
    case Ping =>
      DecodePing(d, rest);
      assert d.events + [] == d.events;
    case Finished =>
      DecodeFinished(d, rest);
      ReceivedSnoc(d.events, Event(FINISHED_KIND, []));
  }

  lemma {:induction false} DecodeFrames(d: Decoder, fs: seq<Frame>)
    requires Idle(d) && CR !in Sent(fs)
    ensures Received(Decode(d, EncodeAll(fs)).events) == Received(d.events) + Sent(fs)
    decreases |fs|
  {
    if fs != [] {
      var chunk := if fs[0].Data? then fs[0].chunk else [];
      assert Sent(fs) == chunk + Sent(fs[1..]);
      DecodeFrame(d, fs[0], EncodeAll(fs[1..]));
      DecodeFrames(d.(events := d.events + Dispatched(fs[0])), fs[1..]);
      Assoc(Received(d.events), chunk, Sent(fs[1..]));
    }
  }

  // ------------------------------------------- why the log must be free of CR

  predicate NoCr(d: Decoder) {
    CR !in d.data && forall i :: 0 <= i < |d.events| ==> CR !in d.events[i].data
  }

  lemma FieldKeepsNoCr(d: Decoder, name: seq<Byte>, value: seq<Byte>)
    requires NoCr(d) && CR !in value
    ensures NoCr(ProcessField(d, name, value))
  {
  }

  lemma DispatchKeepsNoCr(d: Decoder)
    requires NoCr(d)
    ensures NoCr(Dispatch(d))
  {
  }

  lemma LineKeepsNoCr(d: Decoder, line: seq<Byte>)
    requires NoCr(d) && CR !in line
    ensures NoCr(ProcessLine(d, line))
  {
    if line == [] {
      DispatchKeepsNoCr(d);
    } else {
      var i := IndexByte(line, COLON);
      if i < 0 {
        FieldKeepsNoCr(d, line, []);
      } else if i > 0 {
        var value := line[i + 1..];
        FieldKeepsNoCr(d, line[..i], if value != [] && value[0] == SPACE then value[1..] else value);
      }
    }
  }

  /** CR ends a line, so no decoded payload ever holds one. */
  lemma {:induction false} DecodedHasNoCr(d: Decoder, s: seq<Byte>)
    requires NoCr(d)
    ensures NoCr(Decode(d, s))
    decreases |s|
  {
    var i := LineEnd(s);
    if i >= 0 {
      var skip := if s[i] == CR && i + 1 < |s| && s[i + 1] == LF then 2 else 1;
      LineKeepsNoCr(d, s[..i]);
      DecodedHasNoCr(ProcessLine(d, s[..i]), s[i + skip..]);
    }
  }

  lemma {:induction false} ReceivedHasNoCr(events: seq<Event>)
    requires forall i :: 0 <= i < |events| ==> CR !in events[i].data
    ensures CR !in Received(events)
  {
    if events != [] { ReceivedHasNoCr(events[..|events| - 1]); }
  }

  /** Once decoded, a text is got back exactly if it holds no CR. */
  lemma TextRoundTrip(fs: seq<Frame>)
    ensures Received(Decode(START, EncodeAll(fs)).events) == Sent(fs) <==> CR !in Sent(fs)
  {
    if CR !in Sent(fs) {
      DecodeFrames(START, fs);
    } else {
      DecodedHasNoCr(START, EncodeAll(fs));
      ReceivedHasNoCr(Decode(START, EncodeAll(fs)).events);
    }
  }

  // ------------------------------------------------------- the body decoded as text

  /** What the log page shows of a response body: decoded as UTF-8, then as an event stream. */
  function Shown(body: seq<Byte>): seq<Byte> {
    Received(Decode(START, Utf8.Text(body)).events)
  }

  /** A frame whose chunk was decoded on its own. */
  function Repaired(f: Frame): Frame {
    if f.Data? then Data(Utf8.Repair(f.chunk)) else f
  }

  function RepairedAll(fs: seq<Frame>): seq<Frame> {
    if fs == [] then [] else [Repaired(fs[0])] + RepairedAll(fs[1..])
  }

  /** No chunk begins or ends inside a character, or holds what is none. */
  predicate AllWhole(fs: seq<Frame>) {
    forall i :: 0 <= i < |fs| && fs[i].Data? ==> Utf8.Valid(fs[i].chunk)
  }

  lemma WholeCons(fs: seq<Frame>)
    requires fs != []
    ensures AllWhole(fs) <==> (fs[0].Data? ==> Utf8.Valid(fs[0].chunk)) && AllWhole(fs[1..])
  {
    if (fs[0].Data? ==> Utf8.Valid(fs[0].chunk)) && AllWhole(fs[1..]) {
      forall i | 0 <= i < |fs| && fs[i].Data? ensures Utf8.Valid(fs[i].chunk) {
        if i > 0 { assert fs[1..][i - 1] == fs[i]; }
      }
    }
  }

  lemma RepairedLine(l: seq<Byte>, y: seq<Byte>)
    ensures Utf8.Repair(DataLine(l) + y) == DataLine(Utf8.Repair(l)) + Utf8.Repair(y)
  {
    DataLineParts(l, y);
    Utf8.RepairAscii(DATA_PREFIX, l + ([LF] + y));
    Utf8.RepairConcat(l, [LF] + y);
    Utf8.RepairAscii([LF], y);
    DataLineParts(Utf8.Repair(l), Utf8.Repair(y));
  }

  lemma DataLineParts(l: seq<Byte>, y: seq<Byte>)
    ensures DataLine(l) + y == DATA_PREFIX + (l + ([LF] + y))
  {
    Assoc(DATA_PREFIX + l, [LF], y);
    Assoc(DATA_PREFIX, l, [LF] + y);
  }

  /** Decoding the lines of a chunk is decoding the chunk. */
  lemma {:induction false} RepairedLines(chunk: seq<Byte>, y: seq<Byte>)
    ensures Utf8.Repair(DataLines(Lines(chunk)) + y) == DataLines(Lines(Utf8.Repair(chunk))) + Utf8.Repair(y)
    decreases |chunk|
  {
    var i := IndexByte(chunk, LF);
    if i < 0 {
      Utf8.RepairKeepsAscii(chunk, LF);
      OneDataLine(chunk);
      OneDataLine(Utf8.Repair(chunk));
      RepairedLine(chunk, y);
    } else {
      var a, b := chunk[..i], chunk[i + 1..];
      assert chunk == a + ([LF] + b) && chunk == a + [LF] + b;
      Utf8.RepairConcat(a, [LF] + b);
      Utf8.RepairAscii([LF], b);
      Utf8.RepairKeepsAscii(a, LF);
      Assoc(Utf8.Repair(a), [LF], Utf8.Repair(b));
      LinesAreSplit(a, b);
      LinesAreSplit(Utf8.Repair(a), Utf8.Repair(b));
      MoreDataLines(a, Lines(b), y);
      MoreDataLines(Utf8.Repair(a), Lines(Utf8.Repair(b)), Utf8.Repair(y));
      RepairedLine(a, DataLines(Lines(b)) + y);
      RepairedLines(b, y);
    }
  }

  lemma MoreDataLines(l: seq<Byte>, ls: seq<seq<Byte>>, y: seq<Byte>)
    ensures DataLines([l] + ls) + y == DataLine(l) + (DataLines(ls) + y)
  {
    assert ([l] + ls)[1..] == ls;
    Assoc(DataLine(l), DataLines(ls), y);
  }

  lemma RepairedFrame(f: Frame, rest: seq<Byte>)
    ensures Utf8.Repair(Encode(f) + rest) == Encode(Repaired(f)) + Utf8.Repair(rest)
  {
    match f
    case Data(chunk) =>
      Assoc(DataLines(Lines(chunk)), [LF], rest);
      RepairedLines(chunk, [LF] + rest);
      Utf8.RepairAscii([LF], rest);
      Assoc(DataLines(Lines(Utf8.Repair(chunk))), [LF], Utf8.Repair(rest));
    case Ping => Utf8.RepairAscii(Encode(Ping), rest);
    case Finished =>
      FinishedIsAscii();
      Utf8.RepairAscii(Encode(Finished), rest);
  }

  lemma FinishedIsAscii()
    ensures forall i :: 0 <= i < |Encode(Finished)| ==> Encode(Finished)[i] <= 0x7f
  {
  }

  /** The body as text is the body of the frames with each chunk decoded on its own. */
  lemma {:induction false} RepairedBody(fs: seq<Frame>)
    ensures Utf8.Repair(EncodeAll(fs)) == EncodeAll(RepairedAll(fs))
  {
    if fs != [] {
      RepairedFrame(fs[0], EncodeAll(fs[1..]));
      RepairedBody(fs[1..]);
      assert RepairedAll(fs)[1..] == RepairedAll(fs[1..]);
    }
  }

  lemma {:induction false} RepairedOfWhole(fs: seq<Frame>)
    requires AllWhole(fs)
    ensures RepairedAll(fs) == fs
  {
    if fs != [] {
      RepairedOfWhole(fs[1..]);
      if fs[0].Data? { Utf8.RepairOfValid(fs[0].chunk); }
      assert fs == [fs[0]] + fs[1..];
    }
  }

  lemma NoShorter(a: seq<Byte>, b: seq<Byte>, c: seq<Byte>, d: seq<Byte>)
    requires |a| <= |c| && |b| <= |d| && c + d == a + b
    ensures c == a && d == b
  {
    assert |c + d| == |c| + |d| && |a + b| == |a| + |b|;
    assert c == (c + d)[..|a|] && a == (a + b)[..|a|];
    assert d == (c + d)[|a|..] && b == (a + b)[|a|..];
  }

  /** Chunks decoded one by one are the log again only if each was valid. */
  lemma {:induction false} SentRepaired(fs: seq<Frame>)
    ensures |Sent(RepairedAll(fs))| >= |Sent(fs)|
    ensures Sent(RepairedAll(fs)) == Sent(fs) ==> AllWhole(fs)
    ensures CR in Sent(RepairedAll(fs)) <==> CR in Sent(fs)
  {
    if fs != [] {
      var rest, gs := fs[1..], RepairedAll(fs);
      SentRepaired(rest);
      WholeCons(fs);
      assert gs[0] == Repaired(fs[0]) && gs[1..] == RepairedAll(rest);
      if fs[0].Data? {
        SentChunk(fs[0].chunk, Sent(rest), Sent(RepairedAll(rest)));
      } else {
        assert Sent(fs) == Sent(rest) && Sent(gs) == Sent(RepairedAll(rest));
      }
    }
  }

  lemma SentChunk(a: seq<Byte>, b: seq<Byte>, d: seq<Byte>)
    requires |d| >= |b|
    ensures |Utf8.Repair(a) + d| >= |a + b|
    ensures Utf8.Repair(a) + d == a + b ==> Utf8.Valid(a) && d == b
    ensures CR in Utf8.Repair(a) + d <==> CR in a || CR in d
  {
    Utf8.RepairIsValid(a);
    Utf8.RepairKeepsAscii(a, CR);
    Utf8.RepairKeepsValid(a);
    if Utf8.Repair(a) + d == a + b { NoShorter(a, b, Utf8.Repair(a), d); }
  }

  /** A body begins with a frame's own ASCII, so it has no byte order mark. */
  lemma BodyIsUnmarked(fs: seq<Frame>)
    ensures Utf8.Text(EncodeAll(fs)) == Utf8.Repair(EncodeAll(fs))
  {
    if fs != [] {
      FrameStart(fs[0]);
      assert EncodeAll(fs)[0] == Encode(fs[0])[0];
    }
  }

  lemma FrameStart(f: Frame)
    ensures Encode(f) != [] && Encode(f)[0] <= 0x7f
  {
    match f
    case Data(chunk) => assert DataLines(Lines(chunk))[0] == DATA_PREFIX[0];
    case Ping => assert Encode(Ping)[0] == COLON;
    case Finished => FinishedIsAscii();
  }

  /**
   A client gets back exactly the log bytes sent if and only if they hold no CR and
   every chunk is valid UTF-8 on its own.
   */
  lemma RoundTrip(fs: seq<Frame>)
    ensures Shown(EncodeAll(fs)) == Sent(fs) <==> CR !in Sent(fs) && AllWhole(fs)
  {
    BodyIsUnmarked(fs);
    RepairedBody(fs);
    TextRoundTrip(RepairedAll(fs));
    SentRepaired(fs);
    if AllWhole(fs) { RepairedOfWhole(fs); }
    if CR in Sent(fs) {
      DecodedHasNoCr(START, Utf8.Text(EncodeAll(fs)));
      ReceivedHasNoCr(Decode(START, Utf8.Text(EncodeAll(fs))).events);
    }
  }

  // ----------------------------------------------- which chunks a log may be sent in

  lemma DataLineIsValid(l: seq<Byte>, y: seq<Byte>)
    ensures Utf8.Valid(DataLine(l) + y) <==> Utf8.Valid(l) && Utf8.Valid(y)
  {
    DataLineParts(l, y);
    Utf8.ValidAfterPrefix(DATA_PREFIX, l + ([LF] + y));
    Utf8.ValidSplit(l, [LF] + y);
    Utf8.ValidAfterPrefix([LF], y);
  }

  lemma {:induction false} DataLinesAreValid(chunk: seq<Byte>, y: seq<Byte>)
    ensures Utf8.Valid(DataLines(Lines(chunk)) + y) <==> Utf8.Valid(chunk) && Utf8.Valid(y)
    decreases |chunk|
  {
    var i := IndexByte(chunk, LF);
    if i < 0 {
      OneDataLine(chunk);
      DataLineIsValid(chunk, y);
    } else {
      var a, b := chunk[..i], chunk[i + 1..];
      assert chunk == a + ([LF] + b) && chunk == a + [LF] + b;
      LinesAreSplit(a, b);
      MoreDataLines(a, Lines(b), y);
      DataLineIsValid(a, DataLines(Lines(b)) + y);
      DataLinesAreValid(b, y);
      Utf8.ValidSplit(a, [LF] + b);
      Utf8.ValidAfterPrefix([LF], b);
    }
  }

  lemma FrameIsValid(f: Frame, rest: seq<Byte>)
    ensures Utf8.Valid(Encode(f) + rest) <==> (f.Data? ==> Utf8.Valid(f.chunk)) && Utf8.Valid(rest)
  {
    match f
    case Data(chunk) =>
      Assoc(DataLines(Lines(chunk)), [LF], rest);
      DataLinesAreValid(chunk, [LF] + rest);
      Utf8.ValidAfterPrefix([LF], rest);
    case Ping => Utf8.ValidAfterPrefix(Encode(Ping), rest);
    case Finished =>
      FinishedIsAscii();
      Utf8.ValidAfterPrefix(Encode(Finished), rest);
  }

  /** The response body is valid UTF-8 exactly when every chunk is on its own. */
  lemma {:induction false} BodyIsValid(fs: seq<Frame>)
    ensures Utf8.Valid(EncodeAll(fs)) <==> AllWhole(fs)
  {
    if fs != [] {
      FrameIsValid(fs[0], EncodeAll(fs[1..]));
      BodyIsValid(fs[1..]);
      WholeCons(fs);
    }
  }

  lemma {:induction false} SentSplit(fs: seq<Frame>, i: nat)
    requires i <= |fs|
    ensures Sent(fs) == Sent(fs[..i]) + Sent(fs[i..])
  {
    if i == 0 {
      assert fs[..0] == [] && fs[0..] == fs;
    } else {
      assert fs[..i][0] == fs[0] && fs[..i][1..] == fs[1..][..i - 1] && fs[i..] == fs[1..][i - 1..];
      SentSplit(fs[1..], i - 1);
      Assoc(if fs[0].Data? then fs[0].chunk else [], Sent(fs[1..][..i - 1]), Sent(fs[i..]));
    }
  }

  lemma {:induction false} WholeIsValid(fs: seq<Frame>)
    requires AllWhole(fs)
    ensures Utf8.Valid(Sent(fs))
  {
    if fs != [] {
      WholeCons(fs);
      WholeIsValid(fs[1..]);
      Utf8.ValidConcat(if fs[0].Data? then fs[0].chunk else [], Sent(fs[1..]));
    }
  }

  /** No frame but the last stops inside a character: what is sent next does not continue one. */
  predicate Uncut(fs: seq<Frame>) {
    forall i :: 0 <= i <= |fs| && |Sent(fs[..i])| < |Sent(fs)| ==> !Utf8.IsTail(Sent(fs)[|Sent(fs[..i])|])
  }

  lemma CutAt(fs: seq<Frame>, i: nat)
    requires i <= |fs| && Utf8.Valid(Sent(fs))
    ensures |Sent(fs[..i])| <= |Sent(fs)|
    ensures Utf8.Valid(Sent(fs[..i])) <==>
              (|Sent(fs[..i])| < |Sent(fs)| ==> !Utf8.IsTail(Sent(fs)[|Sent(fs[..i])|]))
  {
    SentSplit(fs, i);
    var k := |Sent(fs[..i])|;
    assert Sent(fs)[..k] == Sent(fs[..i]);
    if k < |Sent(fs)| {
      Utf8.PrefixValid(Sent(fs), k);
    } else {
      assert Sent(fs)[..k] == Sent(fs);
    }
  }

  lemma FrontIsWhole(fs: seq<Frame>, i: nat)
    requires i <= |fs| && AllWhole(fs)
    ensures AllWhole(fs[..i])
  {
  }

  /** A valid log is sent in valid chunks exactly when no chunk ends inside a character. */
  lemma WholeIsUncut(fs: seq<Frame>)
    requires Utf8.Valid(Sent(fs))
    ensures AllWhole(fs) <==> Uncut(fs)
  {
    if AllWhole(fs) {
      forall i | 0 <= i <= |fs| && |Sent(fs[..i])| < |Sent(fs)|
        ensures !Utf8.IsTail(Sent(fs)[|Sent(fs[..i])|])
      {
        FrontIsWhole(fs, i);
        WholeIsValid(fs[..i]);
        CutAt(fs, i);
      }
    }
    if Uncut(fs) {
      forall i | 0 <= i < |fs| && fs[i].Data? ensures Utf8.Valid(fs[i].chunk) {
        CutAt(fs, i);
        CutAt(fs, i + 1);
        ChunkAt(fs, i);
        Utf8.ValidSuffix(Sent(fs[..i]), fs[i].chunk);
      }
    }
  }

  lemma ChunkAt(fs: seq<Frame>, i: nat)
    requires i < |fs| && fs[i].Data?
    ensures Sent(fs[..i + 1]) == Sent(fs[..i]) + fs[i].chunk
  {
    var front := fs[..i + 1];
    SentSplit(front, i);
    assert front[..i] == fs[..i] && front[i..] == [fs[i]];
    assert [fs[i]][1..] == [] && Sent([fs[i]]) == fs[i].chunk + [];
  }

  /** So a valid log is got back exactly if it holds no CR and no chunk ends inside a character. */
  lemma RoundTripOfText(fs: seq<Frame>)
    requires Utf8.Valid(Sent(fs))
    ensures Shown(EncodeAll(fs)) == Sent(fs) <==> CR !in Sent(fs) && Uncut(fs)
  {
    RoundTrip(fs);
    WholeIsUncut(fs);
  }

  /** A check mark sent as one byte and then two: a valid log without CR, and not got back. */
  lemma CutCharacterIsLost()
    ensures
      var fs := [Data([0xe2]), Data([0x9c, 0x93])];
      && Utf8.Valid(Sent(fs)) && CR !in Sent(fs)
      && !Utf8.Valid(EncodeAll(fs)) && Shown(EncodeAll(fs)) != Sent(fs)
  {
    var last := [Data([0x9c, 0x93])];
    var fs := [Data([0xe2])] + last;
    assert fs[1..] == last && last[1..] == [];
    assert Sent(last) == [0x9c, 0x93] && Sent(fs) == [0xe2, 0x9c, 0x93];
    assert Utf8.RuneLength(Sent(fs)) == 3 && Sent(fs)[3..] == [];
    assert fs[0].Data? && Utf8.RuneLength(fs[0].chunk) == 0;
    assert fs == [Data([0xe2]), Data([0x9c, 0x93])];
    RoundTrip(fs);
    BodyIsValid(fs);
  }
}
