/** The server-sent-events reader. A `string` here is UTF-8 text, one character for each byte; every
    byte the reader looks for is ASCII. */
module Sse {
  import opened Common
  import opened LineFold

  const MAX_SSE_EVENT_DATA_BYTES: nat := 16 * 1024 * 1024
  const LF: char := '\n'
  const CR: char := '\r'

  datatype SseRecord = SseRecord(eventType: Option<string>, data: string)

  // ----- Text -----

  /** Index of the first `c`, or the length of `s`. */
  function IndexOf(s: string, c: char): (i: nat)
    ensures i <= |s| && c !in s[..i] && (i < |s| ==> s[i] == c)
  {
    if s == [] || s[0] == c then 0
    else
      var rest := IndexOf(s[1..], c);
      assert s[..rest + 1] == [s[0]] + s[1..][..rest];
      rest + 1
  }

  lemma {:induction false} IndexOfAppend(s: string, c: char, tail: string)
    requires c !in s
    ensures IndexOf(s + [c] + tail, c) == |s|
  {
    if s != [] {
      IndexOfAppend(s[1..], c, tail);
      assert (s + [c] + tail)[1..] == s[1..] + [c] + tail;
    }
  }

  lemma {:induction false} IndexOfMissing(s: string, c: char)
    requires c !in s
    ensures IndexOf(s, c) == |s|
  {
    if s != [] { IndexOfMissing(s[1..], c); }
  }

  /** The line `read_line` returns: through the first LF, or all that is left. */
  function FirstLine(s: string): (line: string)
    ensures line <= s && (s != [] ==> line != [])
  {
    var i := IndexOf(s, LF);
    if i < |s| then s[..i + 1] else s
  }

  function TrimLineEnd(s: string): (r: string)
    ensures r <= s && (r != [] ==> r[|r| - 1] != CR && r[|r| - 1] != LF)
    ensures forall i :: |r| <= i < |s| ==> s[i] == CR || s[i] == LF
  {
    if s != [] && (s[|s| - 1] == CR || s[|s| - 1] == LF) then TrimLineEnd(s[..|s| - 1]) else s
  }

  function SplitField(line: string): (string, string) {
    var i := IndexOf(line, ':');
    if i == |line| then (line, "")
    else
      var value := line[i + 1..];
      (line[..i], if value != [] && value[0] == ' ' then value[1..] else value)
  }

  // ----- One line at a time -----

  datatype Buffer = Buffer(eventType: Option<string>, dataLines: seq<string>, dataBytes: nat)

  const EMPTY := Buffer(None, [], 0)

  function Join(lines: seq<string>): string {
    if lines == [] then "" else if |lines| == 1 then lines[0] else lines[0] + [LF] + Join(lines[1..])
  }

  function Dispatched(buffer: Buffer): seq<SseRecord> {
    if buffer.dataLines == [] then [] else [SseRecord(buffer.eventType, Join(buffer.dataLines))]
  }

  /** What one trimmed, non-blank line does to the buffer; `None` when the budget is exceeded. */
  function FieldEffect(buffer: Buffer, trimmed: string): Option<Buffer> {
    if trimmed == [] || trimmed[0] == ':' then Some(buffer)
    else
      var (field, value) := SplitField(trimmed);
      if field == "event" then Some(buffer.(eventType := Some(value)))
      else if field == "data" then
        if buffer.dataBytes + |value| > MAX_SSE_EVENT_DATA_BYTES then None
        else Some(Buffer(buffer.eventType, buffer.dataLines + [value], buffer.dataBytes + |value|))
      else Some(buffer)
  }

  type LineEffects = Effect<Buffer, SseRecord>

  /** The buffer after one line (`None`: budget exceeded) and the records it releases. */
  function LineEffect(buffer: Buffer, line: string): LineEffects {
    var trimmed := TrimLineEnd(line);
    if trimmed == [] then Effect(Some(EMPTY), Dispatched(buffer)) else Effect(FieldEffect(buffer, trimmed), [])
  }

  datatype Reading = Reading(records: seq<SseRecord>, tooLarge: bool)

  /** The lines `read_line` returns, one after the other, terminators included. */
  function Lines(input: string): seq<string>
    decreases |input|
  {
    if input == [] then [] else [FirstLine(input)] + Lines(input[|FirstLine(input)|..])
  }

  /** At the end of the text a pending record is dispatched. */
  function Finish(p: Progress<Buffer, SseRecord>): Reading {
    if p.failed then Reading(p.records, true) else Reading(p.records + Dispatched(p.buffer), false)
  }

  function Read(input: string): Reading {
    Finish(Feed(LineEffect, EMPTY, Lines(input)))
  }

  // ----- The consumer -----

  datatype StreamItem = StreamItem(sequence: nat, record: SseRecord)

  datatype Delivery = Delivery(items: seq<StreamItem>, ok: bool)

  /** What reaches the caller when `parses` tells which payloads decode and `accepts` which items the
      caller takes without error. */
  function Delivered(records: seq<SseRecord>, parses: string -> bool, accepts: StreamItem -> bool): (d: Delivery)
    ensures |d.items| <= |records| && (d.ok ==> |d.items| == |records|)
    ensures forall i :: 0 <= i < |d.items| ==> d.items[i] == StreamItem(i, records[i])
  {
    if records == [] then Delivery([], true)
    else
      var before := Delivered(records[..|records| - 1], parses, accepts);
      var last := records[|records| - 1];
      if !before.ok then before
      else if !parses(last.data) then Delivery(before.items, false)
      else
        var item := StreamItem(|before.items|, last);
        Delivery(before.items + [item], accepts(item))
  }

  lemma {:induction false} DeliveryStops(xs: seq<SseRecord>, ys: seq<SseRecord>, parses: string -> bool, accepts: StreamItem -> bool)
    requires !Delivered(xs, parses, accepts).ok
    ensures Delivered(xs + ys, parses, accepts) == Delivered(xs, parses, accepts)
  {
    if ys == [] {
      assert xs + ys == xs;
    } else {
      assert (xs + ys)[..|xs + ys| - 1] == xs + ys[..|ys| - 1];
      DeliveryStops(xs, ys[..|ys| - 1], parses, accepts);
    }
  }

  /** Everything is delivered exactly when every payload decodes and every item is taken; otherwise delivery stops at
      the first that is not, an undecodable record being dropped and a refused item being the last. */
  lemma {:induction false} DeliveredExactly(records: seq<SseRecord>, parses: string -> bool, accepts: StreamItem -> bool)
    ensures var d := Delivered(records, parses, accepts);
            && (d.ok <==> forall i :: 0 <= i < |records| ==> Taken(records, i, parses, accepts))
            && (!d.ok ==> exists i :: 0 <= i < |records| && !Taken(records, i, parses, accepts)
                                      && (forall j :: 0 <= j < i ==> Taken(records, j, parses, accepts))
                                      && |d.items| == if parses(records[i].data) then i + 1 else i)
  {
    if records != [] {
      var init, n := records[..|records| - 1], |records| - 1;
      DeliveredExactly(init, parses, accepts);
      assert forall i :: 0 <= i < n ==> (Taken(records, i, parses, accepts) <==> Taken(init, i, parses, accepts)) && init[i] == records[i];
      assert (forall i :: 0 <= i < |records| ==> Taken(records, i, parses, accepts)) <==>
             (forall i :: 0 <= i < n ==> Taken(init, i, parses, accepts)) && Taken(records, n, parses, accepts);
      var before := Delivered(init, parses, accepts);
      assert before.ok ==> |before.items| == n;
    }
  }

  predicate Taken(records: seq<SseRecord>, i: nat, parses: string -> bool, accepts: StreamItem -> bool)
    requires i < |records|
  {
    parses(records[i].data) && accepts(StreamItem(i, records[i]))
  }

  class StreamSink {
    const parses: string -> bool
    const accepts: StreamItem -> bool
    var eventCount: nat
    var items: seq<StreamItem>

    constructor (parses: string -> bool, accepts: StreamItem -> bool)
      ensures this.parses == parses && this.accepts == accepts
      ensures eventCount == 0 && items == []
    {
      this.parses, this.accepts := parses, accepts;
      eventCount, items := 0, [];
    }

    method OnRecord(record: SseRecord) returns (ok: bool)
      requires eventCount == |items|
      modifies this`eventCount, this`items
      ensures eventCount == |items|
      ensures ok <==> parses(record.data) && accepts(StreamItem(old(eventCount), record))
      ensures items == old(items) + if parses(record.data) then [StreamItem(old(eventCount), record)] else []
    {
      if !parses(record.data) { return false; }
      var item := StreamItem(eventCount, record);
      eventCount := eventCount + 1;
      items := items + [item];
      ok := accepts(item);
    }
  }

  datatype StreamOutcome = Finished | DataLimitExceeded | ReadFailed | ConsumerFailed

  /** The records released, and how the reading ends, when the read call number `failing` fails, if that many
      calls are made: an I/O error, or a line that is not UTF-8. Nothing pending is dispatched then. */
  function ReadUntil(input: string, failing: Option<nat>): (seq<SseRecord>, StreamOutcome) {
    var lines := Lines(input);
    if failing.Some? && failing.value <= |lines| then
      var p := Feed(LineEffect, EMPTY, lines[..failing.value]);
      (p.records, if p.failed then DataLimitExceeded else ReadFailed)
    else (Read(input).records, if Read(input).tooLarge then DataLimitExceeded else Finished)
  }

  /** A stream that breaks off delivers a prefix of what the whole stream would deliver. */
  lemma BrokenReadIsPrefix(input: string, failing: nat)
    ensures ReadUntil(input, Some(failing)).0 <= Read(input).records
  {
    var lines := Lines(input);
    if failing <= |lines| {
      EarlierRecordsStay(lines[..failing], lines[failing..]);
      assert lines[..failing] + lines[failing..] == lines;
    }
  }

  /** The dispatch step: hands over the buffered record, if any. The caller empties the buffer. */
  method DispatchRecord(eventType: Option<string>, dataLines: seq<string>, sink: StreamSink, ghost sent: seq<SseRecord>)
    returns (ok: bool)
    requires sink.eventCount == |sink.items|
    requires Delivered(sent, sink.parses, sink.accepts) == Delivery(sink.items, true)
    modifies sink`eventCount, sink`items
    ensures sink.eventCount == |sink.items|
    ensures Delivered(sent + Dispatched(Buffer(eventType, dataLines, 0)), sink.parses, sink.accepts) == Delivery(sink.items, ok)
  {
    if dataLines == [] {
      assert sent + [] == sent;
      return true;
    }
    var record := SseRecord(eventType, Join(dataLines));
    assert (sent + [record])[..|sent|] == sent;
    ok := sink.OnRecord(record);
  }

  /** The reader loop, delivering to `sink` until the text ends, a read fails, the budget is exceeded, or the
      consumer fails. */
  method ReadSseRecords(input: string, failing: Option<nat>, sink: StreamSink) returns (outcome: StreamOutcome)
    requires sink.eventCount == 0 && sink.items == []
    modifies sink`eventCount, sink`items
    ensures var (records, end) := ReadUntil(input, failing);
            var delivery := Delivered(records, sink.parses, sink.accepts);
            && sink.items == delivery.items && sink.eventCount == |sink.items|
            && outcome == if delivery.ok then end else ConsumerFailed
  {
    var rest := input;
    var eventType: Option<string> := None;
    var dataLines: seq<string> := [];
    var dataBytes: nat := 0;
    var calls := 0;
    ghost var seen: seq<string> := [];
    ghost var sent: seq<SseRecord> := [];
    while true
      invariant calls == |seen| && (failing.Some? ==> calls <= failing.value)
      invariant Lines(input) == seen + Lines(rest)
      invariant Feed(LineEffect, EMPTY, seen) == Progress(Buffer(eventType, dataLines, dataBytes), sent, false)
      invariant sink.eventCount == |sink.items|
      invariant Delivered(sent, sink.parses, sink.accepts) == Delivery(sink.items, true)
      decreases |rest|
    {
      ghost var buffer := Buffer(eventType, dataLines, dataBytes);
      if failing.Some? && failing.value == calls {
        assert Lines(input)[..calls] == seen;
        return ReadFailed;
      }
      if rest == "" {
        var ok := DispatchRecord(eventType, dataLines, sink, sent);
        assert seen + [] == seen;
        return if ok then Finished else ConsumerFailed;
      }
      var line := FirstLine(rest);
      rest := rest[|line|..];
      Regroup(seen, [line], Lines(rest));
      var fieldLine := TrimLineEnd(line);
      FeedLine(seen, line, buffer, sent);
      seen := seen + [line];
      calls := calls + 1;
      if fieldLine == "" {
        var ok := DispatchRecord(eventType, dataLines, sink, sent);
        sent := sent + Dispatched(buffer);
        if !ok {
          ReadUntilExtends(input, failing, seen, Lines(rest));
          DeliveryStopsAt(sent, ReadUntil(input, failing).0, sink.parses, sink.accepts);
          return ConsumerFailed;
        }
        eventType, dataLines, dataBytes := None, [], 0;
      } else {
        var tooLarge;
        eventType, dataLines, dataBytes, tooLarge := TakeField(eventType, dataLines, dataBytes, fieldLine);
        if tooLarge {
          ReadUntilExtends(input, failing, seen, Lines(rest));
          return DataLimitExceeded;
        }
      }
    }
  }

  /** The field part of the loop body: comments and unknown fields leave the buffer alone. */
  method TakeField(eventType: Option<string>, dataLines: seq<string>, dataBytes: nat, fieldLine: string)
    returns (eventType': Option<string>, dataLines': seq<string>, dataBytes': nat, tooLarge: bool)
    requires fieldLine != ""
    ensures var next := FieldEffect(Buffer(eventType, dataLines, dataBytes), fieldLine);
            && (tooLarge <==> next.None?)
            && (!tooLarge ==> next.value == Buffer(eventType', dataLines', dataBytes'))
  {
    eventType', dataLines', dataBytes', tooLarge := eventType, dataLines, dataBytes, false;
    if fieldLine[0] == ':' { return; }
    var (field, value) := SplitField(fieldLine);
    if field == "event" {
      eventType' := Some(value);
    } else if field == "data" {
      dataBytes' := dataBytes + |value|;
      if dataBytes' > MAX_SSE_EVENT_DATA_BYTES {
        tooLarge := true;
        return;
      }
      dataLines' := dataLines + [value];
    }
  }

  /** One more line, for the loop. */
  lemma FeedLine(seen: seq<string>, line: string, buffer: Buffer, sent: seq<SseRecord>)
    requires Feed(LineEffect, EMPTY, seen) == Progress(buffer, sent, false)
    ensures var trimmed := TrimLineEnd(line);
            var next := FieldEffect(buffer, trimmed);
            Feed(LineEffect, EMPTY, seen + [line]) ==
            if trimmed == [] then Progress(EMPTY, sent + Dispatched(buffer), false)
            else if next.None? then Progress(buffer, sent, true)
            else Progress(next.value, sent, false)
  {
    FeedSnoc(LineEffect, EMPTY, seen, line);
    assert sent + [] == sent;
  }

  /** Records released early head the final list. */
  lemma EarlierRecordsStay(xs: seq<string>, ys: seq<string>)
    ensures Feed(LineEffect, EMPTY, xs).records <= Finish(Feed(LineEffect, EMPTY, xs + ys)).records
  {
    FeedConcat(LineEffect, EMPTY, xs, ys);
  }

  /** What the lines read so far release heads what the whole reading releases, and is all of it after a refusal. */
  lemma ReadUntilExtends(input: string, failing: Option<nat>, seen: seq<string>, rest: seq<string>)
    requires Lines(input) == seen + rest && (failing.Some? ==> |seen| <= failing.value)
    ensures var p, (records, end) := Feed(LineEffect, EMPTY, seen), ReadUntil(input, failing);
            && p.records <= records
            && (p.failed ==> records == p.records && end == DataLimitExceeded)
  {
    FeedConcat(LineEffect, EMPTY, seen, rest);
    if failing.Some? && failing.value <= |Lines(input)| {
      var more := rest[..failing.value - |seen|];
      assert Lines(input)[..failing.value] == seen + more;
      FeedConcat(LineEffect, EMPTY, seen, more);
    }
  }

  lemma DeliveryStopsAt(xs: seq<SseRecord>, all: seq<SseRecord>, parses: string -> bool, accepts: StreamItem -> bool)
    requires xs <= all && !Delivered(xs, parses, accepts).ok
    ensures Delivered(all, parses, accepts) == Delivered(xs, parses, accepts)
  {
    assert all == xs + all[|xs|..];
    DeliveryStops(xs, all[|xs|..], parses, accepts);
  }

  // ----- What a delivered record looks like -----

  function Split(s: string): (lines: seq<string>)
    ensures lines != []
    decreases |s|
  {
    var i := IndexOf(s, LF);
    if i == |s| then [s] else [s[..i]] + Split(s[i + 1..])
  }

  lemma {:induction false} JoinOfSplit(s: string)
    ensures Join(Split(s)) == s
    ensures forall i :: 0 <= i < |Split(s)| ==> LF !in Split(s)[i]
    decreases |s|
  {
    var i := IndexOf(s, LF);
    if i < |s| {
      JoinOfSplit(s[i + 1..]);
      assert Split(s)[1..] == Split(s[i + 1..]);
      assert s == s[..i] + [LF] + s[i + 1..];
    }
  }

  lemma {:induction false} SplitOfJoin(lines: seq<string>)
    requires lines != [] && forall i :: 0 <= i < |lines| ==> LF !in lines[i]
    ensures Split(Join(lines)) == lines
  {
    if |lines| == 1 {
      IndexOfMissing(lines[0], LF);
    } else {
      SplitOfJoin(lines[1..]);
      SplitAtBreak(lines[0], Join(lines[1..]));
      SplitHead(lines, []);
    }
  }

  lemma SplitAtBreak(line: string, tail: string)
    requires LF !in line
    ensures Split(line + [LF] + tail) == [line] + Split(tail)
  {
    IndexOfAppend(line, LF, tail);
    assert (line + [LF] + tail)[|line| + 1..] == tail && (line + [LF] + tail)[..|line|] == line;
  }

  function TotalLength(lines: seq<string>): nat {
    if lines == [] then 0 else TotalLength(lines[..|lines| - 1]) + |lines[|lines| - 1]|
  }

  /** Single-line text that does not end in CR. */
  predicate PlainLine(s: string) {
    LF !in s && (s != [] ==> s[|s| - 1] != CR)
  }

  predicate AllPlain(lines: seq<string>) {
    forall i :: 0 <= i < |lines| ==> PlainLine(lines[i])
  }

  predicate Printable(r: SseRecord) {
    && (r.eventType.Some? ==> PlainLine(r.eventType.value))
    && AllPlain(Split(r.data))
    && TotalLength(Split(r.data)) <= MAX_SSE_EVENT_DATA_BYTES
  }

  /** The reader's invariant; the counter is exactly the length of the buffered values. */
  predicate BufferOk(b: Buffer) {
    && (b.eventType.Some? ==> PlainLine(b.eventType.value))
    && AllPlain(b.dataLines)
    && b.dataBytes == TotalLength(b.dataLines) <= MAX_SSE_EVENT_DATA_BYTES
  }

  lemma TrimmedIsPlain(line: string)
    requires line != [] ==> LF !in line[..|line| - 1]
    ensures PlainLine(TrimLineEnd(line))
  {
    var trimmed := TrimLineEnd(line);
    forall i | 0 <= i < |trimmed| ensures trimmed[i] != LF {
      if i < |trimmed| - 1 {
        assert trimmed[i] == line[i] == line[..|line| - 1][i];
        assert line[..|line| - 1][i] in line[..|line| - 1];
      }
    }
  }

  lemma ValueIsPlain(trimmed: string)
    requires PlainLine(trimmed)
    ensures PlainLine(SplitField(trimmed).1)
  {
  }

  lemma PushKeepsBufferOk(buffer: Buffer, value: string)
    requires BufferOk(buffer) && PlainLine(value) && buffer.dataBytes + |value| <= MAX_SSE_EVENT_DATA_BYTES
    ensures BufferOk(Buffer(buffer.eventType, buffer.dataLines + [value], buffer.dataBytes + |value|))
  {
    assert (buffer.dataLines + [value])[..|buffer.dataLines|] == buffer.dataLines;
  }

  /** One line: LF at most at its end. */
  predicate OneLine(line: string) {
    line != [] && LF !in line[..|line| - 1]
  }

  lemma LineEffectKeepsBufferOk(buffer: Buffer, line: string)
    requires BufferOk(buffer) && OneLine(line)
    ensures var e := LineEffect(buffer, line);
            (e.next.Some? ==> BufferOk(e.next.value)) && forall r :: r in e.records ==> Printable(r)
  {
    var trimmed := TrimLineEnd(line);
    TrimmedIsPlain(line);
    ValueIsPlain(trimmed);
    var value := SplitField(trimmed).1;
    if buffer.dataBytes + |value| <= MAX_SSE_EVENT_DATA_BYTES { PushKeepsBufferOk(buffer, value); }
    DispatchedIsPrintable(buffer);
  }

  lemma DispatchedIsPrintable(buffer: Buffer)
    requires BufferOk(buffer)
    ensures forall r :: r in Dispatched(buffer) ==> Printable(r)
  {
    if buffer.dataLines != [] { SplitOfJoin(buffer.dataLines); }
  }

  lemma {:induction false} LinesAreOneLine(input: string)
    ensures forall l :: l in Lines(input) ==> OneLine(l)
    decreases |input|
  {
    if input != [] {
      var i, line := IndexOf(input, LF), FirstLine(input);
      assert forall j :: 0 <= j < |line| - 1 ==> line[..|line| - 1][j] == input[..i][j];
      LinesAreOneLine(input[|line|..]);
    }
  }

  /** Only printable records are ever delivered. */
  lemma ReadDeliversPrintable(input: string)
    ensures forall r :: r in Read(input).records ==> Printable(r)
  {
    LinesAreOneLine(input);
    forall b, l | BufferOk(b) && OneLine(l)
      ensures LineEffect(b, l).next.Some? ==> BufferOk(LineEffect(b, l).next.value)
      ensures forall r :: r in LineEffect(b, l).records ==> Printable(r)
    {
      LineEffectKeepsBufferOk(b, l);
    }
    FeedKeeps(LineEffect, EMPTY, Lines(input), BufferOk, OneLine, Printable);
    DispatchedIsPrintable(Feed(LineEffect, EMPTY, Lines(input)).buffer);
  }

  // ----- Printing -----

  function EventLine(value: string): string { "event: " + value + [LF] }
  function DataLine(value: string): string { "data: " + value + [LF] }

  function DataLines(values: seq<string>): seq<string> {
    if values == [] then [] else DataLines(values[..|values| - 1]) + [DataLine(values[|values| - 1])]
  }

  function EventLines(eventType: Option<string>): seq<string> {
    if eventType.Some? then [EventLine(eventType.value)] else []
  }

  function RecordLines(r: SseRecord): seq<string> {
    EventLines(r.eventType) + DataLines(Split(r.data)) + [[LF]]
  }

  function RecordsLines(records: seq<SseRecord>): seq<string> {
    if records == [] then [] else RecordsLines(records[..|records| - 1]) + RecordLines(records[|records| - 1])
  }

  function Concat(lines: seq<string>): string {
    if lines == [] then "" else lines[0] + Concat(lines[1..])
  }

  function Print(records: seq<SseRecord>): string {
    Concat(RecordsLines(records))
  }

  /** A line with its terminator. */
  predicate FullLine(line: string) {
    OneLine(line) && line[|line| - 1] == LF
  }

  predicate AllFull(lines: seq<string>) {
    forall i :: 0 <= i < |lines| ==> FullLine(lines[i])
  }

  /** A complete line at the front of the input is the line read. */
  lemma FirstLineOf(line: string, rest: string)
    requires FullLine(line)
    ensures FirstLine(line + rest) == line && (line + rest)[|line|..] == rest
  {
    var body := line[..|line| - 1];
    IndexOfAppend(body, LF, rest);
    assert line == body + [LF];
    assert (line + rest)[..|line|] == line;
  }

  lemma LinesCons(line: string, rest: string)
    requires FullLine(line)
    ensures Lines(line + rest) == [line] + Lines(rest)
  {
    FirstLineOf(line, rest);
  }

  lemma {:induction false} LinesOfConcat(lines: seq<string>, rest: string)
    requires AllFull(lines)
    ensures Lines(Concat(lines) + rest) == lines + Lines(rest)
  {
    if lines == [] {
      assert Concat(lines) + rest == rest;
    } else {
      Regroup(lines[0], Concat(lines[1..]), rest);
      LinesCons(lines[0], Concat(lines[1..]) + rest);
      LinesOfConcat(lines[1..], rest);
      SplitHead(lines, Lines(rest));
    }
  }

  function Push(b: Buffer, value: string): Buffer {
    Buffer(b.eventType, b.dataLines + [value], b.dataBytes + |value|)
  }

  /** The effect reads the three kinds of printed line as intended. */
  ghost predicate ReadsPrintedLines(effect: (Buffer, string) -> LineEffects) {
    && (forall b, v :: PlainLine(v) ==> effect(b, EventLine(v)) == Effect(Some(b.(eventType := Some(v))), []))
    && (forall b: Buffer, v :: PlainLine(v) && b.dataBytes + |v| <= MAX_SSE_EVENT_DATA_BYTES ==>
          effect(b, DataLine(v)) == Effect(Some(Push(b, v)), []))
    && (forall b :: effect(b, [LF]) == Effect(Some(EMPTY), Dispatched(b)))
  }

  lemma FeedDataLine(effect: (Buffer, string) -> LineEffects, start: Buffer, lines: seq<string>, b: Buffer, value: string)
    requires ReadsPrintedLines(effect) && PlainLine(value) && b.dataBytes + |value| <= MAX_SSE_EVENT_DATA_BYTES
    requires Feed(effect, start, lines) == Progress(b, [], false)
    ensures Feed(effect, start, lines + [DataLine(value)]) == Progress(Push(b, value), [], false)
  {
    FeedSnoc(effect, start, lines, DataLine(value));
  }

  lemma {:induction false} FeedDataLines(effect: (Buffer, string) -> LineEffects, b: Buffer, values: seq<string>)
    requires ReadsPrintedLines(effect) && b.dataLines == [] && b.dataBytes == 0
    requires AllPlain(values)
    requires TotalLength(values) <= MAX_SSE_EVENT_DATA_BYTES
    ensures Feed(effect, b, DataLines(values)) == Progress(Buffer(b.eventType, values, TotalLength(values)), [], false)
  {
    if values != [] {
      var init, last := values[..|values| - 1], values[|values| - 1];
      var filled := Buffer(b.eventType, init, TotalLength(init));
      assert AllPlain(init) && PlainLine(last) && TotalLength(values) == TotalLength(init) + |last|;
      FeedDataLines(effect, b, init);
      FeedDataLine(effect, b, DataLines(init), filled, last);
      assert Push(filled, last) == Buffer(b.eventType, values, TotalLength(values)) by { SplitLast(values); }
    }
  }

  lemma FeedEventLines(effect: (Buffer, string) -> LineEffects, eventType: Option<string>)
    requires ReadsPrintedLines(effect) && (eventType.Some? ==> PlainLine(eventType.value))
    ensures Feed(effect, EMPTY, EventLines(eventType)) == Progress(Buffer(eventType, [], 0), [], false)
  {
    if eventType.Some? { FeedOne(effect, EMPTY, EventLine(eventType.value)); }
  }

  lemma FeedRecordLines(effect: (Buffer, string) -> LineEffects, r: SseRecord)
    requires ReadsPrintedLines(effect) && Printable(r)
    ensures Feed(effect, EMPTY, RecordLines(r)) == Progress(EMPTY, [r], false)
  {
    var values := Split(r.data);
    FeedEventLines(effect, r.eventType);
    FeedDataLines(effect, Buffer(r.eventType, [], 0), values);
    FeedConcat(effect, EMPTY, EventLines(r.eventType), DataLines(values));
    FeedSnoc(effect, EMPTY, EventLines(r.eventType) + DataLines(values), [LF]);
    JoinOfSplit(r.data);
  }

  lemma {:induction false} FeedRecordsLines(effect: (Buffer, string) -> LineEffects, records: seq<SseRecord>)
    requires ReadsPrintedLines(effect)
    requires forall r :: r in records ==> Printable(r)
    ensures Feed(effect, EMPTY, RecordsLines(records)) == Progress(EMPTY, records, false)
  {
    if records != [] {
      var init, last := records[..|records| - 1], records[|records| - 1];
      FeedRecordsLines(effect, init);
      assert last in records && records == init + [last];
      FeedRecordLines(effect, last);
      FeedConcat(effect, EMPTY, RecordsLines(init), RecordLines(last));
    }
  }

  lemma TrimPlain(body: string)
    requires PlainLine(body)
    ensures TrimLineEnd(body + [LF]) == body
  {
    assert (body + [LF])[..|body|] == body;
  }

  /** A printed field line splits back into its name and value. */
  lemma FieldLine(name: string, value: string)
    requires ':' !in name
    ensures SplitField(name + ": " + value) == (name, value)
  {
    var line := name + ": " + value;
    IndexOfAppend(name, ':', " " + value);
    assert line == name + [':'] + (" " + value);
    assert line[..|name|] == name && line[|name| + 1..] == " " + value;
    assert (" " + value)[1..] == value;
  }

  /** Trimming and splitting a printed field line. */
  lemma PrintedFieldEffect(b: Buffer, name: string, v: string)
    requires PlainLine(v) && PlainLine(name) && name != [] && ':' !in name
    ensures var line := name + ": " + v + [LF];
            LineEffect(b, line) == Effect(FieldEffect(b, name + ": " + v), [])
    ensures SplitField(name + ": " + v) == (name, v)
  {
    FieldLine(name, v);
    assert PlainLine(name + ": " + v);
    TrimPlain(name + ": " + v);
  }

  lemma EventLineEffect(b: Buffer, v: string)
    requires PlainLine(v)
    ensures LineEffect(b, EventLine(v)) == Effect(Some(b.(eventType := Some(v))), [])
  {
    PrintedFieldEffect(b, "event", v);
    assert "event" + ": " + v == "event: " + v;
  }

  lemma DataLineEffect(b: Buffer, v: string)
    requires PlainLine(v) && b.dataBytes + |v| <= MAX_SSE_EVENT_DATA_BYTES
    ensures LineEffect(b, DataLine(v)) == Effect(Some(Push(b, v)), [])
  {
    PrintedFieldEffect(b, "data", v);
    assert "data" + ": " + v == "data: " + v;
    DataFieldEffect(b, "data: " + v, v);
  }

  lemma DataFieldEffect(b: Buffer, trimmed: string, v: string)
    requires SplitField(trimmed) == ("data", v) && trimmed != [] && trimmed[0] == 'd'
    requires b.dataBytes + |v| <= MAX_SSE_EVENT_DATA_BYTES
    ensures FieldEffect(b, trimmed) == Some(Push(b, v))
  {
    assert "data"[0] != "event"[0];
  }

  lemma EmptyLineEffect(b: Buffer)
    ensures LineEffect(b, [LF]) == Effect(Some(EMPTY), Dispatched(b))
  {
    TrimPlain("");
    assert "" + [LF] == [LF];
  }

  lemma LineEffectReadsPrintedLines()
    ensures ReadsPrintedLines(LineEffect)
  {
    forall b, v | PlainLine(v) ensures LineEffect(b, EventLine(v)) == Effect(Some(b.(eventType := Some(v))), []) {
      EventLineEffect(b, v);
    }
    forall b: Buffer, v | PlainLine(v) && b.dataBytes + |v| <= MAX_SSE_EVENT_DATA_BYTES
      ensures LineEffect(b, DataLine(v)) == Effect(Some(Push(b, v)), [])
    {
      DataLineEffect(b, v);
    }
    forall b ensures LineEffect(b, [LF]) == Effect(Some(EMPTY), Dispatched(b)) {
      EmptyLineEffect(b);
    }
  }

  lemma PrintedLinesAreFull(value: string)
    requires LF !in value
    ensures FullLine(DataLine(value)) && FullLine(EventLine(value)) && FullLine([LF])
  {
    assert DataLine(value)[..|value| + 6] == "data: " + value;
    assert EventLine(value)[..|value| + 7] == "event: " + value;
    assert [LF][..0] == [];
  }

  lemma {:induction false} DataLinesAreFull(values: seq<string>)
    requires AllPlain(values)
    ensures AllFull(DataLines(values))
  {
    if values != [] {
      DataLinesAreFull(values[..|values| - 1]);
      assert PlainLine(values[|values| - 1]);
      PrintedLinesAreFull(values[|values| - 1]);
    }
  }

  lemma {:induction false} RecordsLinesAreFull(records: seq<SseRecord>)
    requires forall r :: r in records ==> Printable(r)
    ensures AllFull(RecordsLines(records))
  {
    if records != [] {
      var r := records[|records| - 1];
      RecordsLinesAreFull(records[..|records| - 1]);
      assert Printable(r);
      DataLinesAreFull(Split(r.data));
      PrintedLinesAreFull(if r.eventType.Some? then r.eventType.value else "");
    }
  }

  lemma ReadOfPrint(records: seq<SseRecord>)
    requires forall r :: r in records ==> Printable(r)
    ensures Read(Print(records)) == Reading(records, false)
  {
    var lines := RecordsLines(records);
    RecordsLinesAreFull(records);
    LinesOfConcat(lines, "");
    assert Concat(lines) + "" == Print(records) && lines + [] == lines;
    LineEffectReadsPrintedLines();
    FeedRecordsLines(LineEffect, records);
  }

  /** Printing and reading back restores exactly the lists whose records have no line ending in CR, a
      single-line event type likewise, and at most the budget of value bytes. */
  lemma RoundTripExactly(records: seq<SseRecord>)
    ensures Read(Print(records)) == Reading(records, false) <==> forall r :: r in records ==> Printable(r)
  {
    if forall r :: r in records ==> Printable(r) { ReadOfPrint(records); }
    ReadDeliversPrintable(Print(records));
  }

  /** Whatever the text, what is read from it can be printed and read again. */
  lemma RereadingIsStable(input: string)
    ensures Read(Print(Read(input).records)) == Reading(Read(input).records, false)
  {
    ReadDeliversPrintable(input);
    ReadOfPrint(Read(input).records);
  }

  // ----- Stream algebra -----

  /** Text made of whole lines. */
  predicate Complete(s: string) {
    s == [] || s[|s| - 1] == LF
  }

  /** The first of some whole lines, and the others. */
  lemma CutLine(a: string) returns (line: string, rest: string)
    requires a != [] && Complete(a)
    ensures FullLine(line) && a == line + rest && Complete(rest) && |rest| < |a|
  {
    var i := IndexOf(a, LF);
    assert i < |a| by { assert a[..|a|] == a; }
    line, rest := a[..i + 1], a[i + 1..];
    assert line[..i] == a[..i] && line[i] == LF && |line| == i + 1;
    assert a == line + rest;
    assert rest != [] ==> rest[|rest| - 1] == a[|a| - 1];
  }

  lemma {:induction false} LinesSplit(a: string, b: string)
    requires Complete(a)
    ensures Lines(a + b) == Lines(a) + Lines(b)
    decreases |a|
  {
    if a == [] {
      assert a + b == b;
    } else {
      var line, rest := CutLine(a);
      LinesSplit(rest, b);
      LinesCons(line, rest);
      LinesCons(line, rest + b);
      Regroup(line, rest, b);
      Regroup([line], Lines(rest), Lines(b));
    }
  }

  lemma LinesOfOne(line: string)
    requires FullLine(line)
    ensures Lines(line) == [line]
  {
    FirstLineOf(line, "");
    assert line + "" == line;
  }

  /** A line that trims to nothing. */
  predicate Blank(line: string) {
    FullLine(line) && TrimLineEnd(line) == []
  }

  /** Lines of three texts put together. */
  lemma LinesOfThree(a: string, line: string, b: string)
    requires Complete(a) && FullLine(line)
    ensures Lines(a + line) == Lines(a) + [line]
    ensures Lines(a + line + b) == Lines(a) + ([line] + Lines(b))
  {
    LinesOfOne(line);
    LinesSplit(a, line);
    LinesSplit(a, line + b);
    LinesCons(line, b);
    Regroup(a, line, b);
  }

  lemma BlankLineEffect(blank: string)
    requires Blank(blank)
    ensures forall b :: LineEffect(b, blank) == Effect(Some(EMPTY), Dispatched(b))
  {
  }

  lemma FeedSplit(effect: (Buffer, string) -> LineEffects, xs: seq<string>, blank: string, ys: seq<string>)
    requires forall b :: effect(b, blank) == Effect(Some(EMPTY), Dispatched(b))
    ensures var first := Feed(effect, EMPTY, xs + [blank]);
            && (!first.failed ==> first.buffer == EMPTY)
            && Feed(effect, EMPTY, xs + ([blank] + ys)) ==
               if first.failed then first else After(first.records, Feed(effect, EMPTY, ys))
  {
    Regroup(xs, [blank], ys);
    FeedConcat(effect, EMPTY, xs + [blank], ys);
    FeedSnoc(effect, EMPTY, xs, blank);
  }

  lemma FinishSplit(xs: seq<string>, blank: string, ys: seq<string>)
    requires Blank(blank)
    ensures var first, second := Finish(Feed(LineEffect, EMPTY, xs + [blank])), Finish(Feed(LineEffect, EMPTY, ys));
            Finish(Feed(LineEffect, EMPTY, xs + ([blank] + ys))) ==
            if first.tooLarge then first else Reading(first.records + second.records, second.tooLarge)
  {
    BlankLineEffect(blank);
    FeedSplit(LineEffect, xs, blank, ys);
    var first := Feed(LineEffect, EMPTY, xs + [blank]);
    FinishAfter(first.records, Feed(LineEffect, EMPTY, ys));
    assert first.records + [] == first.records;
  }

  /** Cutting the text after a blank line cuts the reading. */
  lemma SplitAfterBlankLine(a: string, blank: string, b: string)
    requires Complete(a) && Blank(blank)
    ensures var first := Read(a + blank);
            Read(a + blank + b) ==
            if first.tooLarge then first else Reading(first.records + Read(b).records, Read(b).tooLarge)
  {
    LinesOfThree(a, blank, b);
    FinishSplit(Lines(a), blank, Lines(b));
  }

  /** A stream that breaks off later has released every record ended by a blank line before. */
  lemma BrokenReadKeepsCompleted(a: string, blank: string, b: string, failing: nat)
    requires Complete(a) && Blank(blank)
    requires |Lines(a + blank)| <= failing <= |Lines(a + blank + b)|
    ensures Read(a + blank).records <= ReadUntil(a + blank + b, Some(failing)).0
    ensures !Read(a + blank).tooLarge && failing == |Lines(a + blank)| ==>
              ReadUntil(a + blank + b, Some(failing)) == (Read(a + blank).records, ReadFailed)
  {
    LinesOfThree(a, blank, b);
    Regroup(Lines(a), [blank], Lines(b));
    var lines, head := Lines(a + blank + b), Lines(a) + [blank];
    var more := lines[|head|..failing];
    assert lines[..failing] == head + more;
    FeedKeepsCompleted(Lines(a), blank, more);
    if failing == |head| { assert more == [] && head + more == head; }
  }

  lemma FeedKeepsCompleted(xs: seq<string>, blank: string, more: seq<string>)
    requires Blank(blank)
    ensures var first := Feed(LineEffect, EMPTY, xs + [blank]);
            && Finish(first) == Reading(first.records, first.failed)
            && first.records <= Feed(LineEffect, EMPTY, xs + [blank] + more).records
  {
    BlankLineEffect(blank);
    FeedSplit(LineEffect, xs, blank, []);
    var first := Feed(LineEffect, EMPTY, xs + [blank]);
    assert first.records + [] == first.records;
    FeedConcat(LineEffect, EMPTY, xs + [blank], more);
  }

  /** A record whose values exceed the budget is refused, and nothing is delivered. */
  lemma OverBudgetIsRefused(r: SseRecord)
    requires r.eventType.Some? ==> PlainLine(r.eventType.value)
    requires AllPlain(Split(r.data)) && TotalLength(Split(r.data)) > MAX_SSE_EVENT_DATA_BYTES
    ensures Read(Concat(RecordLines(r))) == Reading([], true)
  {
    var lines := RecordLines(r);
    LineEffectReadsPrintedLines();
    OneRecordIsFull(r);
    LinesOfConcat(lines, "");
    assert Concat(lines) + "" == Concat(lines) && lines + [] == lines;
    FeedEventLines(LineEffect, r.eventType);
    FeedConcat(LineEffect, EMPTY, EventLines(r.eventType), DataLines(Split(r.data)));
    FeedOverBudget(Buffer(r.eventType, [], 0), Split(r.data));
    FeedConcat(LineEffect, EMPTY, EventLines(r.eventType) + DataLines(Split(r.data)), [[LF]]);
  }

  lemma OneRecordIsFull(r: SseRecord)
    requires (r.eventType.Some? ==> PlainLine(r.eventType.value)) && AllPlain(Split(r.data))
    ensures AllFull(RecordLines(r))
  {
    DataLinesAreFull(Split(r.data));
    if r.eventType.Some? { PrintedLinesAreFull(r.eventType.value); }
    PrintedLinesAreFull("");
  }

  lemma {:induction false} FeedOverBudget(b: Buffer, values: seq<string>)
    requires AllPlain(values) && b.dataLines == [] && b.dataBytes == 0
    requires TotalLength(values) > MAX_SSE_EVENT_DATA_BYTES
    ensures var p := Feed(LineEffect, b, DataLines(values)); p.failed && p.records == []
  {
    var init, last := values[..|values| - 1], values[|values| - 1];
    FeedSnoc(LineEffect, b, DataLines(init), DataLine(last));
    if TotalLength(init) > MAX_SSE_EVENT_DATA_BYTES {
      FeedOverBudget(b, init);
    } else {
      LineEffectReadsPrintedLines();
      FeedDataLines(LineEffect, b, init);
      LongLineEffect(Buffer(b.eventType, init, TotalLength(init)), last);
    }
  }

  lemma LongLineEffect(b: Buffer, v: string)
    requires PlainLine(v) && b.dataBytes + |v| > MAX_SSE_EVENT_DATA_BYTES
    ensures LineEffect(b, DataLine(v)) == Effect(None, [])
  {
    PrintedFieldEffect(b, "data", v);
    assert "data" + ": " + v == "data: " + v;
    LongFieldEffect(b, "data: " + v, v);
  }

  lemma LongFieldEffect(b: Buffer, trimmed: string, v: string)
    requires SplitField(trimmed) == ("data", v) && trimmed != [] && trimmed[0] == 'd'
    requires b.dataBytes + |v| > MAX_SSE_EVENT_DATA_BYTES
    ensures FieldEffect(b, trimmed) == None
  {
    assert "data"[0] != "event"[0];
  }

  lemma FinishAfter(records: seq<SseRecord>, later: Progress<Buffer, SseRecord>)
    ensures Finish(After(records, later)) == Reading(records + Finish(later).records, Finish(later).tooLarge)
  {
    Regroup(records, later.records, Dispatched(later.buffer));
  }

  /** A comment, or a field other than `event` and `data`. */
  predicate Ignorable(line: string) {
    && FullLine(line)
    && var trimmed := TrimLineEnd(line);
       trimmed != [] && (trimmed[0] == ':' || SplitField(trimmed).0 !in ["event", "data"])
  }

  lemma IgnorableLineChangesNothing(a: string, line: string, b: string)
    requires Complete(a) && Ignorable(line)
    ensures Read(a + line + b) == Read(a + b)
  {
    LinesOfThree(a, line, b);
    LinesSplit(a, b);
    FeedIgnores(LineEffect, EMPTY, Lines(a), line, Lines(b));
  }

  /** The text up to and including its last LF, and what is left. */
  lemma {:induction false} LastLine(input: string) returns (whole: string, last: string)
    ensures input == whole + last && Complete(whole) && LF !in last
  {
    if input == [] || input[|input| - 1] == LF {
      whole, last := input, "";
    } else {
      whole, last := LastLine(input[..|input| - 1]);
      last := last + [input[|input| - 1]];
    }
  }

  /** Neither the last blank line nor the last line's terminator is needed. */
  lemma MissingFinalNewline(input: string)
    ensures Read(input + [LF]) == Read(input)
  {
    var whole, last := LastLine(input);
    Regroup(whole, last, [LF]);
    if last == "" {
      assert whole + last == whole && whole + (last + [LF]) == whole + [LF];
      FinalBlankIsOptional(whole);
    } else {
      FinalTerminatorIsOptional(whole, last);
    }
  }

  lemma FinalBlankIsOptional(whole: string)
    requires Complete(whole)
    ensures Read(whole + [LF]) == Read(whole)
  {
    assert FullLine([LF]) by { assert [LF][..0] == []; }
    LinesOfOne([LF]);
    LinesSplit(whole, [LF]);
    FinishBlank(Lines(whole));
  }

  lemma FinishBlank(lines: seq<string>)
    ensures Finish(Feed(LineEffect, EMPTY, lines + [[LF]])) == Finish(Feed(LineEffect, EMPTY, lines))
  {
    FeedSnoc(LineEffect, EMPTY, lines, [LF]);
    var p := Feed(LineEffect, EMPTY, lines);
    EmptyLineEffect(p.buffer);
    assert p.records + Dispatched(p.buffer) + [] == p.records + Dispatched(p.buffer);
  }

  lemma FinalTerminatorIsOptional(whole: string, last: string)
    requires Complete(whole) && last != "" && LF !in last
    ensures Read(whole + (last + [LF])) == Read(whole + last)
  {
    assert FullLine(last + [LF]) by { assert (last + [LF])[..|last|] == last; }
    LinesOfOne(last + [LF]);
    LinesOfUnterminated(last);
    LinesSplit(whole, last);
    LinesSplit(whole, last + [LF]);
    FeedSnoc(LineEffect, EMPTY, Lines(whole), last + [LF]);
    FeedSnoc(LineEffect, EMPTY, Lines(whole), last);
  }

  lemma LinesOfUnterminated(last: string)
    requires last != "" && LF !in last
    ensures Lines(last) == [last]
    ensures forall b :: LineEffect(b, last) == LineEffect(b, last + [LF])
  {
    IndexOfMissing(last, LF);
    assert last[|last|..] == "";
    assert (last + [LF])[..|last|] == last;
  }

  // ----- Other spellings of a stream -----

  /** How a stream is written: with or without a space after the colon, and with LF or CR LF line ends. */
  datatype Style = Style(spaced: bool, crlf: bool)

  function LineEnd(style: Style): string {
    if style.crlf then [CR, LF] else [LF]
  }

  function FieldLineAs(style: Style, name: string, value: string): string {
    name + ":" + (if style.spaced then " " else "") + value + LineEnd(style)
  }

  /** Without the space after the colon a value must not begin with one. */
  predicate Writable(style: Style, value: string) {
    style.spaced || value == "" || value[0] != ' '
  }

  function DataLinesAs(style: Style, values: seq<string>): seq<string> {
    if values == [] then [] else DataLinesAs(style, values[..|values| - 1]) + [FieldLineAs(style, "data", values[|values| - 1])]
  }

  function RecordLinesAs(style: Style, r: SseRecord): seq<string> {
    (if r.eventType.Some? then [FieldLineAs(style, "event", r.eventType.value)] else [])
    + DataLinesAs(style, Split(r.data)) + [LineEnd(style)]
  }

  function RecordsLinesAs(style: Style, records: seq<SseRecord>): seq<string> {
    if records == [] then []
    else RecordsLinesAs(style, records[..|records| - 1]) + RecordLinesAs(style, records[|records| - 1])
  }

  function PrintAs(style: Style, records: seq<SseRecord>): string {
    Concat(RecordsLinesAs(style, records))
  }

  predicate WritableRecord(style: Style, r: SseRecord) {
    && Printable(r)
    && (r.eventType.Some? ==> Writable(style, r.eventType.value))
    && forall i :: 0 <= i < |Split(r.data)| ==> Writable(style, Split(r.data)[i])
  }

  /** Lines that read alike, one by one. */
  ghost predicate ReadAlike(line: string, line': string) {
    FullLine(line) && FullLine(line') && forall b :: LineEffect(b, line) == LineEffect(b, line')
  }

  ghost predicate AllReadAlike(lines: seq<string>, lines': seq<string>) {
    |lines| == |lines'| && forall i :: 0 <= i < |lines| ==> ReadAlike(lines[i], lines'[i])
  }

  lemma {:induction false} AlikeFeeds(lines: seq<string>, lines': seq<string>)
    requires AllReadAlike(lines, lines')
    ensures Feed(LineEffect, EMPTY, lines) == Feed(LineEffect, EMPTY, lines')
  {
    if lines != [] {
      var n := |lines| - 1;
      assert ReadAlike(lines[n], lines'[n]);
      AlikeFeeds(lines[..n], lines'[..n]);
    }
  }

  /** Texts whose lines read alike give the same reading. */
  lemma AlikeReadings(lines: seq<string>, lines': seq<string>)
    requires AllReadAlike(lines, lines')
    ensures Read(Concat(lines)) == Read(Concat(lines'))
  {
    AlikeFeeds(lines, lines');
    assert forall i :: 0 <= i < |lines| ==> ReadAlike(lines[i], lines'[i]);
    LinesOfConcat(lines, "");
    LinesOfConcat(lines', "");
    assert Concat(lines) + "" == Concat(lines) && Concat(lines') + "" == Concat(lines');
    assert lines + [] == lines && lines' + [] == lines';
  }

  lemma CrLfIsTrimmed(body: string)
    requires PlainLine(body)
    ensures TrimLineEnd(body + [CR, LF]) == body && TrimLineEnd(body + [LF]) == body
  {
    TrimPlain(body);
    var once := body + [CR];
    assert (body + [CR, LF])[..|body| + 1] == once && once[..|body|] == body;
    assert TrimLineEnd(body + [CR, LF]) == TrimLineEnd(once);
    assert TrimLineEnd(once) == TrimLineEnd(body);
    assert body == [] || (body[|body| - 1] != CR && body[|body| - 1] != LF);
  }

  /** A field line splits alike with and without the space. */
  lemma CompactFieldLine(name: string, value: string)
    requires ':' !in name && (value == "" || value[0] != ' ')
    ensures SplitField(name + ":" + value) == (name, value) == SplitField(name + ": " + value)
  {
    FieldLine(name, value);
    var line := name + ":" + value;
    assert line == name + [':'] + value;
    IndexOfAppend(name, ':', value);
    assert line[..|name|] == name && line[|name| + 1..] == value;
  }

  /** Of two spaces after the colon one stays. */
  lemma SecondSpaceStays(name: string, value: string)
    requires ':' !in name
    ensures SplitField(name + ":  " + value) == (name, " " + value)
  {
    FieldLine(name, " " + value);
    assert name + ":  " + value == name + ": " + (" " + value);
  }

  /** What a field line does depends on its name and value alone. */
  lemma BodiesReadAlike(body: string, end: string, body': string)
    requires PlainLine(body) && PlainLine(body') && (end == [LF] || end == [CR, LF])
    requires body != "" && body' != "" && body[0] != ':' && body'[0] != ':' && SplitField(body) == SplitField(body')
    ensures ReadAlike(body + end, body' + [LF])
  {
    CrLfIsTrimmed(body);
    CrLfIsTrimmed(body');
    FullField(body, end);
    FullField(body', [LF]);
    SplitDecides(body, body');
  }

  lemma FieldLineReadsAlike(style: Style, name: string, value: string)
    requires (name == "data" || name == "event") && PlainLine(value) && Writable(style, value)
    ensures ReadAlike(FieldLineAs(style, name, value), name + ": " + value + [LF])
  {
    var head := name + ":" + (if style.spaced then " " else "");
    NameHasNoColon(name);
    BodyIsPlain(head, value);
    BodyIsPlain(name + ": ", value);
    FieldLine(name, value);
    if style.spaced {
      assert head == name + ": ";
    } else {
      assert head == name + ":";
      CompactFieldLine(name, value);
    }
    BodiesReadAlike(head + value, LineEnd(style), name + ": " + value);
  }

  lemma NameHasNoColon(name: string)
    requires name == "data" || name == "event"
    ensures ':' !in name && LF !in name && name != "" && name[|name| - 1] != CR
  {
  }

  lemma BodyIsPlain(head: string, value: string)
    requires PlainLine(value) && head != "" && LF !in head && head[|head| - 1] != CR
    ensures PlainLine(head + value)
  {
  }

  lemma FullField(body: string, end: string)
    requires PlainLine(body) && (end == [LF] || end == [CR, LF])
    ensures FullLine(body + end)
  {
    assert (body + end)[..|body + end| - 1] == body + end[..|end| - 1];
  }

  lemma SplitDecides(body: string, body': string)
    requires body != "" && body' != "" && body[0] != ':' && body'[0] != ':' && SplitField(body) == SplitField(body')
    ensures forall b :: FieldEffect(b, body) == FieldEffect(b, body')
  {
  }

  /** The styles: "data: v" or "data:v", and LF or CR LF. */
  lemma StyleForms(name: string, value: string)
    ensures FieldLineAs(Style(true, false), name, value) == name + ": " + value + "\n"
    ensures FieldLineAs(Style(false, false), name, value) == name + ":" + value + "\n"
    ensures FieldLineAs(Style(true, true), name, value) == name + ": " + value + "\r\n"
    ensures LineEnd(Style(true, true)) == LineEnd(Style(false, true)) == "\r\n" && LineEnd(Style(true, false)) == LineEnd(Style(false, false)) == "\n"
  {
    assert name + ":" + " " + value + "\n" == name + ": " + value + "\n";
    assert name + ":" + " " + value + "\r\n" == name + ": " + value + "\r\n";
    assert name + ":" + "" + value == name + ":" + value;
  }

  lemma LineEndReadsAlike(style: Style)
    ensures ReadAlike(LineEnd(style), [LF])
  {
    CrLfIsTrimmed("");
    assert "" + [CR, LF] == [CR, LF] && "" + [LF] == [LF];
    FullField("", LineEnd(style));
    FullField("", [LF]);
    assert "" + LineEnd(style) == LineEnd(style);
  }

  lemma {:induction false} DataLinesReadAlike(style: Style, values: seq<string>)
    requires AllPlain(values) && forall i :: 0 <= i < |values| ==> Writable(style, values[i])
    ensures AllReadAlike(DataLinesAs(style, values), DataLines(values))
  {
    if values != [] {
      DataLinesReadAlike(style, values[..|values| - 1]);
      FieldLineReadsAlike(style, "data", values[|values| - 1]);
      assert "data" + ": " + values[|values| - 1] + [LF] == DataLine(values[|values| - 1]);
    }
  }

  lemma RecordLinesReadAlike(style: Style, r: SseRecord)
    requires WritableRecord(style, r)
    ensures AllReadAlike(RecordLinesAs(style, r), RecordLines(r))
  {
    DataLinesReadAlike(style, Split(r.data));
    LineEndReadsAlike(style);
    if r.eventType.Some? {
      FieldLineReadsAlike(style, "event", r.eventType.value);
      assert "event" + ": " + r.eventType.value + [LF] == EventLine(r.eventType.value);
    }
    var event := if r.eventType.Some? then [FieldLineAs(style, "event", r.eventType.value)] else [];
    AlikeConcat(event, EventLines(r.eventType), DataLinesAs(style, Split(r.data)), DataLines(Split(r.data)));
    AlikeConcat(event + DataLinesAs(style, Split(r.data)), EventLines(r.eventType) + DataLines(Split(r.data)), [LineEnd(style)], [[LF]]);
  }

  lemma AlikeConcat(xs: seq<string>, xs': seq<string>, ys: seq<string>, ys': seq<string>)
    requires AllReadAlike(xs, xs') && AllReadAlike(ys, ys')
    ensures AllReadAlike(xs + ys, xs' + ys')
  {
    forall i | 0 <= i < |xs + ys| ensures ReadAlike((xs + ys)[i], (xs' + ys')[i]) {
      if i < |xs| { assert ReadAlike(xs[i], xs'[i]); } else { assert ReadAlike(ys[i - |xs|], ys'[i - |xs|]); }
    }
  }

  lemma {:induction false} RecordsLinesReadAlike(style: Style, records: seq<SseRecord>)
    requires forall r :: r in records ==> WritableRecord(style, r)
    ensures AllReadAlike(RecordsLinesAs(style, records), RecordsLines(records))
  {
    if records != [] {
      RecordsLinesReadAlike(style, records[..|records| - 1]);
      RecordLinesReadAlike(style, records[|records| - 1]);
      AlikeConcat(RecordsLinesAs(style, records[..|records| - 1]), RecordsLines(records[..|records| - 1]),
                  RecordLinesAs(style, records[|records| - 1]), RecordLines(records[|records| - 1]));
    }
  }

  /** Reading inverts printing in every style: compact or spaced, with LF or CR LF. */
  lemma ReadOfPrintAs(style: Style, records: seq<SseRecord>)
    requires forall r :: r in records ==> WritableRecord(style, r)
    ensures Read(PrintAs(style, records)) == Reading(records, false)
  {
    RecordsLinesReadAlike(style, records);
    AlikeReadings(RecordsLinesAs(style, records), RecordsLines(records));
    ReadOfPrint(records);
  }

  /** A field name without a colon has an empty value. */
  lemma ColonlessLine(name: string, end: string)
    requires name == "data" || name == "event"
    requires end == [LF] || end == [CR, LF]
    ensures ReadAlike(name + end, name + ":" + [LF])
  {
    NameHasNoColon(name);
    IndexOfMissing(name, ':');
    CompactFieldLine(name, "");
    assert name + ":" + "" == name + ":";
    BodiesReadAlike(name, end, name + ":");
  }
}
