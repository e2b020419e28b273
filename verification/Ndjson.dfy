/** Newline-delimited JSON, both ends (app/src/lib/ndjson.ts).

    The reader takes its input in chunks cut anywhere, even inside a character; what it delivers
    depends only on the whole text. */
module Ndjson {
  import opened Utf
  import opened Numbers
  import opened Json

  const LF: Unit := 10

  // Text into lines

  /** Where the first line break is, or the length of the text. */
  function IndexOf(t: Text): (k: nat)
    ensures k <= |t| && (k < |t| ==> t[k] == LF) && forall i :: 0 <= i < k ==> t[i] != LF
  {
    if t == [] || t[0] == LF then 0 else 1 + IndexOf(t[1..])
  }

  /** The terminated lines of a text. */
  function Lines(t: Text): seq<Text>
    decreases |t|
  {
    var k := IndexOf(t);
    if k == |t| then [] else [t[..k]] + Lines(t[k + 1..])
  }

  /** What follows the last line break. */
  function Tail(t: Text): Text
    decreases |t|
  {
    var k := IndexOf(t);
    if k == |t| then t else Tail(t[k + 1..])
  }

  /** Lines with their breaks. */
  function Broken(lines: seq<Text>): Text {
    if lines == [] then [] else lines[0] + Ascii("\n") + Broken(lines[1..])
  }

  /** The lines with their breaks and the tail are the text again, and no break is left inside them. */
  lemma {:induction false} CutAtBreaks(t: Text)
    ensures Broken(Lines(t)) + Tail(t) == t
    ensures '\n' as int !in Tail(t) && forall i :: 0 <= i < |Lines(t)| ==> '\n' as int !in Lines(t)[i]
    decreases |t|
  {
    hide Lines, Tail, IndexOf;
    var k := IndexOf(t);
    if k < |t| {
      var rest, head := t[k + 1..], t[..k] + Ascii("\n");
      CutAtBreaks(rest);
      OneLine(t, k);
      BreakAt(t, k);
      hide Ascii, Broken;
      BrokenCons(t[..k], Lines(rest));
      assert head + Broken(Lines(rest)) + Tail(rest) == head + (Broken(Lines(rest)) + Tail(rest));
    } else {
      NoLine(t);
      assert Broken([]) == [];
    }
  }

  lemma {:induction false} BreakAt(t: Text, k: nat)
    requires k == IndexOf(t) < |t|
    ensures t == t[..k] + Ascii("\n") + t[k + 1..] && '\n' as int !in t[..k]
  {
    hide IndexOf;
  }

  lemma {:induction false} BrokenCons(line: Text, lines: seq<Text>)
    ensures Broken([line] + lines) == line + Ascii("\n") + Broken(lines)
  {
    assert ([line] + lines)[1..] == lines;
  }

  lemma {:induction false} IndexOfExtend(a: Text, b: Text)
    requires IndexOf(a) < |a|
    ensures IndexOf(a + b) == IndexOf(a)
  {
    if a[0] != LF {
      assert (a + b)[1..] == a[1..] + b;
      IndexOfExtend(a[1..], b);
    }
  }

  lemma {:induction false} OneLine(t: Text, k: nat)
    requires k == IndexOf(t) < |t|
    ensures Lines(t) == [t[..k]] + Lines(t[k + 1..]) && Tail(t) == Tail(t[k + 1..])
  {
    hide IndexOf;
  }

  lemma {:induction false} NoLine(t: Text)
    requires IndexOf(t) == |t|
    ensures Lines(t) == [] && Tail(t) == t
  {
  }

  /** Splitting can stop anywhere and resume with what was left over. */
  lemma {:induction false} SplitResumes(a: Text, b: Text)
    ensures Lines(a + b) == Lines(a) + Lines(Tail(a) + b)
    ensures Tail(a + b) == Tail(Tail(a) + b)
    decreases |a|
  {
    hide Lines, Tail;
    var k := IndexOf(a);
    if k < |a| {
      IndexOfExtend(a, b);
      assert (a + b)[..k] == a[..k] && (a + b)[k + 1..] == a[k + 1..] + b;
      SplitResumes(a[k + 1..], b);
      OneLine(a, k);
      OneLine(a + b, k);
    } else {
      NoLine(a);
    }
  }

  // Lines into events

  function TrimStart(t: Text): Text {
    if t != [] && White(t[0]) then TrimStart(t[1..]) else t
  }

  function TrimEnd(t: Text): Text {
    if t != [] && White(t[|t| - 1]) then TrimEnd(t[..|t| - 1]) else t
  }

  function Trim(t: Text): Text { TrimEnd(TrimStart(t)) }

  ghost predicate AllWhite(t: Text) { forall i :: 0 <= i < |t| ==> White(t[i]) }

  /** Trimming takes white space off both ends and nothing else. */
  lemma {:induction false} TrimExactly(t: Text)
    ensures exists before, after :: AllWhite(before) && AllWhite(after) && t == before + Trim(t) + after
    ensures Trim(t) != [] ==> !White(Trim(t)[0]) && !White(Trim(t)[|Trim(t)| - 1])
  {
    var before := StartTrimmed(t);
    var after := EndTrimmed(TrimStart(t));
    hide TrimStart, TrimEnd, AllWhite, White;
    assert before + (Trim(t) + after) == before + Trim(t) + after;
  }

  lemma {:induction false} StartTrimmed(t: Text) returns (before: Text)
    ensures AllWhite(before) && t == before + TrimStart(t)
    ensures TrimStart(t) != [] ==> !White(TrimStart(t)[0])
    decreases |t|
  {
    hide White;
    before := [];
    if t != [] && White(t[0]) {
      before := StartTrimmed(t[1..]);
      before := [t[0]] + before;
    }
  }

  lemma {:induction false} EndTrimmed(t: Text) returns (after: Text)
    ensures AllWhite(after) && t == TrimEnd(t) + after
    ensures TrimEnd(t) != [] ==> !White(TrimEnd(t)[|TrimEnd(t)| - 1]) && TrimEnd(t)[0] == t[0]
    decreases |t|
  {
    hide White;
    after := [];
    if t != [] && White(t[|t| - 1]) {
      after := EndTrimmed(t[..|t| - 1]);
      after := after + [t[|t| - 1]];
    }
  }

  /** What has been handed to `onEvent`, and whether a line did not parse. */
  datatype Reading = Reading(events: seq<Value>, failed: bool)

  const NOTHING := Reading([], false)

  function Deliver(r: Reading, line: Text): Reading {
    var l := Trim(line);
    if r.failed || l == [] then r
    else
      match Parse(l)
      case None => r.(failed := true)
      case Some(v) => r.(events := r.events + [v])
  }

  function DeliverAll(r: Reading, lines: seq<Text>): Reading
    decreases |lines|
  {
    if lines == [] then r else DeliverAll(Deliver(r, lines[0]), lines[1..])
  }

  /** The reader that has the whole text at once. */
  function ReadWhole(t: Text): Reading {
    Deliver(DeliverAll(NOTHING, Lines(t)), Tail(t))
  }

  lemma {:induction false} DeliverConcat(r: Reading, a: seq<Text>, b: seq<Text>)
    ensures DeliverAll(r, a + b) == DeliverAll(DeliverAll(r, a), b)
    decreases |a|
  {
    if a == [] {
      assert a + b == b;
    } else {
      assert (a + b)[1..] == a[1..] + b;
      DeliverConcat(Deliver(r, a[0]), a[1..], b);
    }
  }

  lemma {:induction false} FailureStays(r: Reading, lines: seq<Text>)
    requires r.failed
    ensures DeliverAll(r, lines) == r
  {
    if lines != [] {
      FailureStays(r, lines[1..]);
    }
  }

  /** Once a line of a prefix failed, the rest of the text does not matter. */
  lemma {:induction false} FailureDecides(a: Text, b: Text, r: Reading)
    requires r.failed && DeliverAll(NOTHING, Lines(a)) == r
    ensures ReadWhole(a + b) == r
  {
    SplitResumes(a, b);
    DeliverConcat(NOTHING, Lines(a), Lines(Tail(a) + b));
    FailureStays(r, Lines(Tail(a) + b));
  }

  function Join(chunks: seq<Text>): Text {
    if chunks == [] then [] else Join(chunks[..|chunks| - 1]) + chunks[|chunks| - 1]
  }

  lemma {:induction false} JoinSplit(chunks: seq<Text>, i: nat)
    requires i <= |chunks|
    ensures Join(chunks) == Join(chunks[..i]) + Join(chunks[i..])
    decreases |chunks| - i
  {
    if i == |chunks| {
      assert chunks[..i] == chunks;
    } else {
      var n := |chunks| - 1;
      JoinSplit(chunks[..n], i) by {
        assert i <= n;
      }
      assert chunks[..n][..i] == chunks[..i] && chunks[..n][i..] == chunks[i..][..|chunks[i..]| - 1];
    }
  }

  /** The loop over one buffer: the events of its terminated lines, and what is left over. */
  method Drain(r0: Reading, text: Text) returns (r: Reading, buffer: Text)
    requires !r0.failed
    ensures r == DeliverAll(r0, Lines(text)) && (!r.failed ==> buffer == Tail(text))
  {
    r, buffer := r0, text;
    var newline := IndexOf(buffer);
    while newline != |buffer|
      invariant newline == IndexOf(buffer) && !r.failed
      invariant DeliverAll(r0, Lines(text)) == DeliverAll(r, Lines(buffer)) && Tail(text) == Tail(buffer)
      decreases |buffer|
    {
      var line := Trim(buffer[..newline]);
      ghost var rest := Lines(buffer[newline + 1..]);
      assert Lines(buffer)[0] == buffer[..newline] && Lines(buffer)[1..] == rest;
      buffer := buffer[newline + 1..];
      if line != [] {
        match Parse(line) {
          case None =>
            r := r.(failed := true);
            FailureStays(r, rest);
            return;
          case Some(v) => r := r.(events := r.events + [v]);
        }
      }
      newline := IndexOf(buffer);
    }
  }

  /** `readNdjson` on the texts its decoder produces: however the text was cut, the events are those
      of the whole text. */
  method ReadNdjson(chunks: seq<Text>) returns (r: Reading)
    ensures r == ReadWhole(Join(chunks))
  {
    r := NOTHING;
    var buffer: Text := [];
    for i := 0 to |chunks|
      invariant !r.failed && r == DeliverAll(NOTHING, Lines(Join(chunks[..i]))) && buffer == Tail(Join(chunks[..i]))
    {
      ghost var earlier := Join(chunks[..i]);
      assert chunks[..i + 1][..i] == chunks[..i];
      SplitResumes(earlier, chunks[i]);
      DeliverConcat(NOTHING, Lines(earlier), Lines(buffer + chunks[i]));
      r, buffer := Drain(r, buffer + chunks[i]);
      if r.failed {
        JoinSplit(chunks, i + 1);
        FailureDecides(Join(chunks[..i + 1]), Join(chunks[i + 1..]), r);
        return;
      }
    }
    assert chunks[..|chunks|] == chunks;
    var tail := Trim(buffer);
    if tail != [] {
      match Parse(tail) {
        case None => r := r.(failed := true);
        case Some(v) => r := r.(events := r.events + [v]);
      }
    }
  }

  // What the events are

  /** The non-blank lines, trimmed. */
  function NonBlank(lines: seq<Text>): seq<Text> {
    if lines == [] then []
    else (if Trim(lines[0]) == [] then [] else [Trim(lines[0])]) + NonBlank(lines[1..])
  }

  /** The events are the parses of the first `k` texts, and the reader stopped early exactly because
      the next one does not parse. */
  ghost predicate Parsed(r: Reading, texts: seq<Text>) {
    && |r.events| <= |texts|
    && (forall i :: 0 <= i < |r.events| ==> Parse(texts[i]) == Some(r.events[i]))
    && (r.failed <==> |r.events| < |texts|)
    && (r.failed ==> Parse(texts[|r.events|]) == None)
  }

  lemma {:induction false} DeliversParses(r: Reading, before: seq<Text>, lines: seq<Text>)
    requires Parsed(r, before) && !r.failed
    ensures Parsed(DeliverAll(r, lines), before + NonBlank(lines))
    decreases |lines|
  {
    hide Parse, Trim;
    if lines == [] {
      assert before + [] == before;
    } else {
      var s, rest := Deliver(r, lines[0]), NonBlank(lines[1..]);
      if Trim(lines[0]) == [] {
        DeliversParses(s, before, lines[1..]);
      } else if s.failed {
        FailureStays(s, lines[1..]);
      } else {
        var now := before + [Trim(lines[0])];
        assert Parsed(s, now);
        DeliversParses(s, now, lines[1..]);
        assert now + rest == before + ([Trim(lines[0])] + rest);
      }
    }
  }

  /** The events delivered are the parses of the non-blank trimmed lines in order, the unterminated
      last one included, up to the first that does not parse. */
  lemma {:induction false} EventsAreTheLines(t: Text)
    ensures Parsed(ReadWhole(t), NonBlank(Lines(t) + [Tail(t)]))
  {
    DeliverConcat(NOTHING, Lines(t), [Tail(t)]);
    assert DeliverAll(DeliverAll(NOTHING, Lines(t)), [Tail(t)]) == ReadWhole(t);
    DeliversParses(NOTHING, [], Lines(t) + [Tail(t)]);
    assert [] + NonBlank(Lines(t) + [Tail(t)]) == NonBlank(Lines(t) + [Tail(t)]);
  }

  // Writing and reading back

  /** `JSON.stringify(event)` and a line break. */
  function Line(v: Value): Text { Print(v) + [LF] }

  function Written(events: seq<Value>): Text {
    if events == [] then [] else Line(events[0]) + Written(events[1..])
  }

  class EventSink {
    var closed: bool
    var sent: seq<Value>
    var bytes: Bytes

    ghost predicate Valid()
      reads this
    {
      bytes == Utf8Encode(Written(sent))
    }

    constructor ()
      ensures Valid() && !closed && sent == []
    {
      closed, sent, bytes := false, [], [];
    }

    /** Events after `close` are dropped. */
    method Send(event: Value)
      requires Valid()
      modifies this
      ensures Valid() && closed == old(closed) && sent == old(sent) + if closed then [] else [event]
    {
      if closed {
        return;
      }
      WrittenSnoc(sent, event);
      LineWellFormed(event);
      WrittenWellFormed(sent);
      EncodeConcat(Written(sent), Line(event));
      bytes := bytes + Utf8Encode(Line(event));
      sent := sent + [event];
    }

    method Close()
      requires Valid()
      modifies this
      ensures Valid() && closed && sent == old(sent)
    {
      closed := true;
    }
  }

  lemma {:induction false} WrittenSnoc(events: seq<Value>, v: Value)
    ensures Written(events + [v]) == Written(events) + Line(v)
  {
    if events == [] {
      assert events + [v] == [v] && [v][1..] == [];
      assert Line(v) + [] == Line(v);
    } else {
      assert (events + [v])[1..] == events[1..] + [v];
      WrittenSnoc(events[1..], v);
      Regroup(Line(events[0]), Written(events[1..]), Line(v));
    }
  }

  lemma {:induction false} Regroup(a: Text, b: Text, c: Text)
    ensures a + (b + c) == (a + b) + c
  {
  }

  lemma {:induction false} LineWellFormed(v: Value)
    ensures WellFormed(Line(v))
  {
    PrintClean(v);
    assert WellFormed([LF]) by {
      PlainWellFormed([LF]);
    }
    WellFormedConcat(Print(v), [LF]);
  }

  lemma {:induction false} WrittenWellFormed(events: seq<Value>)
    ensures WellFormed(Written(events))
  {
    if events != [] {
      LineWellFormed(events[0]);
      WrittenWellFormed(events[1..]);
      WellFormedConcat(Line(events[0]), Written(events[1..]));
    }
  }

  lemma {:induction false} ScalarsConcat(a: Text, b: Text)
    requires WellFormed(a)
    ensures Scalars(a + b) == Scalars(a) + Scalars(b)
    decreases |a|
  {
    if a == [] {
      assert a + b == b;
    } else if StartsPair(a) {
      assert (a + b)[2..] == a[2..] + b;
      ScalarsConcat(a[2..], b);
    } else {
      assert (a + b)[1..] == a[1..] + b;
      ScalarsConcat(a[1..], b);
    }
  }

  lemma {:induction false} EncodeScalarsConcat(a: seq<Scalar>, b: seq<Scalar>)
    ensures EncodeScalars(a + b) == EncodeScalars(a) + EncodeScalars(b)
  {
    if a == [] {
      assert a + b == b;
    } else {
      assert (a + b)[1..] == a[1..] + b;
      EncodeScalarsConcat(a[1..], b);
    }
  }

  lemma {:induction false} EncodeConcat(a: Text, b: Text)
    requires WellFormed(a)
    ensures Utf8Encode(a + b) == Utf8Encode(a) + Utf8Encode(b)
  {
    ScalarsConcat(a, b);
    EncodeScalarsConcat(Scalars(a), Scalars(b));
  }

  lemma {:induction false} NoBreakInside(t: Text, rest: Text)
    requires forall u :: u in t ==> u >= 32
    ensures IndexOf(t + [LF] + rest) == |t|
  {
    if t != [] {
      assert t[0] in t && forall u :: u in t[1..] ==> u in t;
      assert (t + [LF] + rest)[1..] == t[1..] + [LF] + rest;
      NoBreakInside(t[1..], rest);
    }
  }

  lemma {:induction false} LineSplits(v: Value, rest: Text)
    ensures Lines(Line(v) + rest) == [Print(v)] + Lines(rest) && Tail(Line(v) + rest) == Tail(rest)
  {
    var t := Line(v) + rest;
    PrintClean(v);
    NoBreakInside(Print(v), rest);
    assert t == Print(v) + [LF] + rest;
    assert t[..|Print(v)|] == Print(v) && t[|Print(v)| + 1..] == rest;
  }

  /** Printed JSON starts and ends with a visible character, so trimming leaves it alone. */
  lemma {:induction false} PrintTrims(v: Value)
    requires Plain(v)
    ensures Trim(Print(v)) == Print(v) != []
  {
    if v.Num? {
      NumberTextShape(v.x);
      hide NumberText;
      assert Print(v) == NumberText(v.x);
      AsciiTrims(Print(v));
    } else {
      PrintEnds(v);
    }
  }

  lemma {:induction false} AsciiTrims(t: Text)
    requires t != [] && Ascii7(t)
    ensures Trim(t) == t
  {
    assert t[0] in t && t[|t| - 1] in t;
  }

  lemma {:induction false} PrintEnds(v: Value)
    requires Plain(v) && !v.Num?
    ensures Print(v) != [] && !White(Print(v)[0]) && !White(Print(v)[|Print(v)| - 1])
  {
  }

  lemma {:induction false} LineDelivered(r: Reading, v: Value)
    requires Plain(v) && !r.failed
    ensures Deliver(r, Print(v)) == r.(events := r.events + [v])
  {
    PrintTrims(v);
    ParsePrint(v);
    hide Print, Parse, Plain, Trim;
  }

  lemma {:induction false} DeliverStep(r: Reading, line: Text, lines: seq<Text>)
    ensures DeliverAll(r, [line] + lines) == DeliverAll(Deliver(r, line), lines)
  {
    assert ([line] + lines)[1..] == lines;
  }

  lemma {:induction false} NothingWritten(r: Reading)
    ensures DeliverAll(r, Lines([])) == r && Tail([]) == []
  {
  }

  lemma {:induction false} WrittenReadsBack(r: Reading, events: seq<Value>)
    requires !r.failed && forall i :: 0 <= i < |events| ==> Plain(events[i])
    ensures DeliverAll(r, Lines(Written(events))) == r.(events := r.events + events)
    ensures Tail(Written(events)) == []
    decreases |events|
  {
    hide Print, Plain, Line, Lines, Tail, Deliver, DeliverAll;
    if events == [] {
      NothingWritten(r);
      assert r.events + [] == r.events;
    } else {
      var v, rest := events[0], Written(events[1..]);
      var s := r.(events := r.events + [v]);
      LineSplits(v, rest);
      LineDelivered(r, v);
      DeliverStep(r, Print(v), Lines(rest));
      WrittenReadsBack(s, events[1..]);
      assert s.events + events[1..] == r.events + events;
    }
  }

  /** The events written before `close` are the events read, for JSON values. */
  lemma {:induction false} SentIsRead(events: seq<Value>)
    requires forall i :: 0 <= i < |events| ==> Plain(events[i])
    ensures ReadWhole(Written(events)) == Reading(events, false)
  {
    WrittenReadsBack(NOTHING, events);
    assert [] + events == events;
  }

  // Bytes cut anywhere

  /** The characters a byte string holds from its start, and the bytes that do not make one yet. */
  function Complete(b: Bytes): (r: (seq<Scalar>, Bytes))
    decreases |b|
  {
    if b == [] then ([], [])
    else
      match DecodeScalar(b)
      case None => ([], b)
      case Some((c, n)) => var rest := Complete(b[n..]); ([c] + rest.0, rest.1)
  }

  lemma {:induction false} CompleteSplits(b: Bytes)
    ensures b == EncodeScalars(Complete(b).0) + Complete(b).1
    ensures Complete(b).1 != [] ==> DecodeScalar(Complete(b).1).None?
    decreases |b|
  {
    hide DecodeScalar, EncodeScalar, EncodeScalars;
    if b == [] {
      EncodeNothing();
    } else if DecodeScalar(b).Some? {
      var (c, n) := DecodeScalar(b).value;
      var rest := Complete(b[n..]);
      CompleteSplits(b[n..]);
      EncodeDecodedScalar(b);
      EncodeCons(c, rest.0);
      assert b == b[..n] + b[n..];
    } else {
      EncodeNothing();
    }
  }

  lemma {:induction false} EncodeNothing()
    ensures EncodeScalars([]) == []
  {
  }

  lemma {:induction false} EncodeCons(c: Scalar, s: seq<Scalar>)
    ensures EncodeScalars([c] + s) == EncodeScalar(c) + EncodeScalars(s)
  {
    assert ([c] + s)[1..] == s;
  }

  /** `decoder.decode(chunk, { stream: true })` on UTF-8: what is pending, and whether any character
      has come out yet (the first one is dropped if it is a byte order mark). */
  datatype Decoder = Decoder(pending: Bytes, started: bool)

  function DecodeChunk(d: Decoder, chunk: Bytes): (r: (Text, Decoder)) {
    var c := Complete(d.pending + chunk);
    (FromScalars(if d.started then c.0 else StripBom(c.0)), Decoder(c.1, d.started || c.0 != []))
  }

  function DecodeChunks(chunks: seq<Bytes>, n: nat): (r: (seq<Text>, Decoder))
    requires n <= |chunks|
  {
    if n == 0 then ([], Decoder([], false))
    else
      var before := DecodeChunks(chunks, n - 1);
      var now := DecodeChunk(before.1, chunks[n - 1]);
      (before.0 + [now.0], now.1)
  }

  function JoinBytes(chunks: seq<Bytes>, n: nat): Bytes
    requires n <= |chunks|
  {
    if n == 0 then [] else JoinBytes(chunks, n - 1) + chunks[n - 1]
  }

  /** After some chunks: the characters so far have come out, the rest is pending. */
  ghost predicate Decoded(b: Bytes, texts: seq<Text>, d: Decoder, s: seq<Scalar>) {
    && b == EncodeScalars(s) + d.pending
    && Join(texts) == FromScalars(StripBom(s))
    && d.started == (s != [])
    && (d.pending != [] ==> DecodeScalar(d.pending).None?)
  }

  lemma {:induction false} FromScalarsConcat(a: seq<Scalar>, b: seq<Scalar>)
    ensures FromScalars(a + b) == FromScalars(a) + FromScalars(b)
  {
    if a == [] {
      assert a + b == b;
    } else {
      assert (a + b)[1..] == a[1..] + b;
      FromScalarsConcat(a[1..], b);
    }
  }

  lemma {:induction false} StripConcat(s: seq<Scalar>, more: seq<Scalar>)
    ensures FromScalars(StripBom(s + more))
        == FromScalars(StripBom(s)) + FromScalars(if s != [] then more else StripBom(more))
  {
    if s == [] {
      assert s + more == more;
    } else {
      assert StripBom(s + more) == StripBom(s) + more;
      FromScalarsConcat(StripBom(s), more);
    }
  }

  lemma {:induction false} DecodeStep(b: Bytes, texts: seq<Text>, d: Decoder, s: seq<Scalar>, chunk: Bytes)
    requires Decoded(b, texts, d, s)
    ensures var r := DecodeChunk(d, chunk);
      Decoded(b + chunk, texts + [r.0], r.1, s + Complete(d.pending + chunk).0)
  {
    var c, r := Complete(d.pending + chunk), DecodeChunk(d, chunk);
    CompleteSplits(d.pending + chunk);
    EncodeScalarsConcat(s, c.0);
    StripConcat(s, c.0);
    assert (texts + [r.0])[..|texts|] == texts;
    Regroup3(EncodeScalars(s), d.pending, chunk, EncodeScalars(c.0), c.1);
  }

  lemma {:induction false} Regroup3(a: Bytes, b: Bytes, c: Bytes, x: Bytes, y: Bytes)
    requires b + c == x + y
    ensures (a + b) + c == (a + x) + y
  {
    assert (a + b) + c == a + (b + c);
    assert (a + x) + y == a + (x + y);
  }

  lemma {:induction false} NothingDecoded()
    ensures Decoded([], [], Decoder([], false), [])
  {
  }

  lemma {:induction false} DecodedSoFar(chunks: seq<Bytes>, n: nat) returns (s: seq<Scalar>)
    requires n <= |chunks|
    ensures Decoded(JoinBytes(chunks, n), DecodeChunks(chunks, n).0, DecodeChunks(chunks, n).1, s)
  {
    hide Decoded, DecodeChunk, Complete;
    if n == 0 {
      s := [];
      NothingDecoded();
    } else {
      var t := DecodedSoFar(chunks, n - 1);
      var before := DecodeChunks(chunks, n - 1);
      DecodeStep(JoinBytes(chunks, n - 1), before.0, before.1, t, chunks[n - 1]);
      s := t + Complete(before.1.pending + chunks[n - 1]).0;
    }
  }

  lemma {:induction false} DecodeTail(s: seq<Scalar>, p: Bytes)
    ensures DecodeScalars(EncodeScalars(s) + p).Some? <==> DecodeScalars(p).Some?
    ensures DecodeScalars(p).Some? ==> DecodeScalars(EncodeScalars(s) + p) == Some(s + DecodeScalars(p).value)
  {
    hide DecodeScalar, EncodeScalar;
    var b := EncodeScalars(s) + p;
    if s == [] {
      assert b == p;
      assert DecodeScalars(p).Some? ==> [] + DecodeScalars(p).value == DecodeScalars(p).value;
    } else {
      var head, rest := EncodeScalar(s[0]), EncodeScalars(s[1..]) + p;
      assert b == head + rest;
      DecodeEncodedScalar(s[0], rest);
      assert b[|head|..] == rest;
      DecodeTail(s[1..], p);
      assert DecodeScalars(p).Some? ==> [s[0]] + (s[1..] + DecodeScalars(p).value) == s + DecodeScalars(p).value;
    }
  }

  /** However valid UTF-8 is cut into chunks, the texts decoded from them join to the text that
      decoding the whole gives, and nothing is left pending. */
  lemma {:induction false} ChunksDecodeWhole(chunks: seq<Bytes>, lossy: Bytes -> Text)
    requires DecodeScalars(JoinBytes(chunks, |chunks|)).Some?
    ensures var r := DecodeChunks(chunks, |chunks|);
      Join(r.0) == Utf8Decode(JoinBytes(chunks, |chunks|), lossy) && r.1.pending == []
  {
    var s := DecodedSoFar(chunks, |chunks|);
    var d := DecodeChunks(chunks, |chunks|).1;
    DecodeTail(s, d.pending);
    assert s + [] == s;
  }

  /** End to end: what a sink wrote before it was closed, cut into any chunks of bytes, is delivered
      event for event. */
  lemma {:induction false} SentIsReadFromAnyChunks(events: seq<Value>, chunks: seq<Bytes>)
    requires forall i :: 0 <= i < |events| ==> Plain(events[i])
    requires JoinBytes(chunks, |chunks|) == Utf8Encode(Written(events))
    ensures ReadWhole(Join(DecodeChunks(chunks, |chunks|).0)) == Reading(events, false)
  {
    var t := Written(events);
    WrittenWellFormed(events);
    DecodeEncoded(Scalars(t));
    ChunksDecodeWhole(chunks, b => []);
    if events != [] {
      PrintTrims(events[0]);
      NoMark(events);
    }
    Utf8RoundTrip(t, b => []);
    SentIsRead(events);
  }

  lemma {:induction false} NoMark(events: seq<Value>)
    requires events != [] && Plain(events[0])
    ensures Written(events) != [] && Written(events)[0] != BOM
  {
    PrintTrims(events[0]);
    VisibleStart(Print(events[0]));
  }

  lemma {:induction false} VisibleStart(t: Text)
    requires Trim(t) == t != []
    ensures !White(t[0])
  {
    TrimNoLonger(t);
  }

  lemma {:induction false} TrimNoLonger(t: Text)
    ensures |TrimEnd(t)| <= |t| && |TrimStart(t)| <= |t|
    ensures t != [] && White(t[0]) ==> |TrimStart(t)| < |t|
    ensures |Trim(t)| <= |TrimStart(t)|
    decreases |t|
  {
    if t != [] {
      TrimNoLonger(t[1..]);
      TrimNoLonger(t[..|t| - 1]);
    }
    TrimEndShorter(TrimStart(t));
  }

  lemma {:induction false} TrimEndShorter(t: Text)
    ensures |TrimEnd(t)| <= |t|
    decreases |t|
  {
    if t != [] {
      TrimEndShorter(t[..|t| - 1]);
    }
  }
}
