/** The agent caps an answer at two million characters
    (agent/lycosa_agent/runtimes/claude_code.py), the controller caps the body that carries
    it at 32 MiB (backend/app/llm/http.py). The first cap does not keep the second. */
module ClaudeCaps {
  import opened Prelude
  import opened Lines
  import opened ClaudeStream

  const DROPS := MAX_OUTPUT_CHARS

  /** A successful result line. */
  const RESULT := [Field("subtype", Str("success"))]

  /** n one-character text deltas, then the rest. */
  function Drip(n: nat, rest: seq<CliEvent>): seq<CliEvent> {
    if n == 0 then rest else [TextDelta("x")] + Drip(n - 1, rest)
  }

  function Dripped(n: nat, rest: seq<AgentEvent>): seq<AgentEvent> {
    if n == 0 then rest else [Text("x")] + Dripped(n - 1, rest)
  }

  lemma {:induction false} DripRuns(n: nat, emitted: nat, seenText: bool, classify: Classify)
    requires emitted + n <= MAX_OUTPUT_CHARS
    ensures RunEvents(Drip(n, [ResultLine(RESULT)]), emitted, seenText, None, classify)
         == Run(Dripped(n, ResultEvents(RESULT, seenText || n > 0, None, classify)), false)
    decreases n
  {
    hide ResultEvents;
    if n > 0 {
      var more := Drip(n - 1, [ResultLine(RESULT)]);
      assert ([TextDelta("x")] + more)[1..] == more;
      DripRuns(n - 1, emitted + 1, true, classify);
    }
  }

  lemma {:induction false} DrippedEnd(n: nat, rest: seq<AgentEvent>)
    requires rest != []
    ensures Dripped(n, rest) != [] && Dripped(n, rest)[|Dripped(n, rest)| - 1] == rest[|rest| - 1]
  {
    if n > 0 {
      DrippedEnd(n - 1, rest);
    }
  }

  /** Each event costs a printed line. */
  lemma {:induction false} DrippedLength(n: nat, rest: seq<AgentEvent>, dumps: Dumps, least: nat)
    requires |Print(Text("x"), dumps)| + 1 >= least
    ensures |Ndjson(Dripped(n, rest), dumps)| >= n * least
    decreases n
  {
    hide Print;
    if n > 0 {
      var events := Dripped(n, rest);
      DrippedLength(n - 1, rest, dumps, least);
      assert Printed(events, dumps)[1..] == Printed(Dripped(n - 1, rest), dumps);
      assert n * least == (n - 1) * least + least;
    }
  }

  lemma ResultIsAnswer(classify: Classify)
    ensures var events := ResultEvents(RESULT, true, None, classify);
      events != [] && events[|events| - 1].Finish?
  {
  }

  /** A run that finishes within the agent's own cap, and whose answer no chunking can
      deliver: printed as JSON, its lines exceed the controller's stream cap. A printed text
      event takes at least the seventeen bytes of its punctuation and names. */
  lemma CappedAnswerCanBeTooLong(classify: Classify, dumps: Dumps) returns (input: seq<CliEvent>)
    requires |Print(Text("x"), dumps)| >= 17
    ensures Answered(RunEvents(input, 0, false, None, classify))
    ensures forall chunks: seq<Bytes> ::
      Flatten(chunks) == Ndjson(RunEvents(input, 0, false, None, classify).events, dumps) ==> CapTrips(chunks)
  {
    input := Drip(DROPS, [ResultLine(RESULT)]);
    var rest := ResultEvents(RESULT, true, None, classify);
    ResultIsAnswer(classify);
    DripRuns(DROPS, 0, false, classify);
    DrippedEnd(DROPS, rest);
    DrippedLength(DROPS, rest, dumps, 18);
    hide RunEvents, Drip, Dripped, Ndjson, Print, ResultEvents;
    forall chunks: seq<Bytes> | Flatten(chunks) == Ndjson(Dripped(DROPS, rest), dumps)
      ensures CapTrips(chunks)
    {
      assert chunks[..|chunks|] == chunks;
      assert TripsAt(chunks, |chunks|);
    }
  }

  // ----- exactly what arrives ---------------------------------------------------------------------

  /** The controller answers, rather than fails, on a body that came in these chunks. */
  ghost predicate Answers(chunks: seq<Bytes>, decode: Bytes -> string, loads: Loads, blank: Blank) {
    Adapt(TextLines(Flatten(chunks), decode), CapTrips(chunks), false, loads, blank).error.None?
  }

  ghost predicate LinesFit(events: seq<AgentEvent>, dumps: Dumps) {
    forall k :: 0 <= k < |events| ==> |Print(events[k], dumps)| <= MAX_LINE_BYTES
  }

  lemma FitsIff(events: seq<AgentEvent>, dumps: Dumps, loads: Loads, decode: Bytes -> string, blank: Blank)
    requires JsonCodec(dumps, loads, decode, blank)
    ensures Fits(Ndjson(events, dumps)) <==> |Ndjson(events, dumps)| <= MAX_STREAM_BYTES && LinesFit(events, dumps)
  {
    hide Print, RawLines, Tail, Terminate;
    var lines := Printed(events, dumps);
    PrintedIsClean(events, dumps, loads, decode, blank);
    SplitIsUnique(lines, []);
    assert Terminate(lines) + [] == Terminate(lines);
    if LinesFit(events, dumps) {
      assert forall k :: 0 <= k < |lines| ==> lines[k] == Print(events[k], dumps);
    } else {
      var k :| 0 <= k < |events| && |Print(events[k], dumps)| > MAX_LINE_BYTES;
      assert lines[k] == Print(events[k], dumps);
    }
  }

  lemma WholeBodyAnswersIff(
      input: seq<CliEvent>, classify: Classify, chunks: seq<Bytes>,
      dumps: Dumps, loads: Loads, decode: Bytes -> string, blank: Blank)
    requires JsonCodec(dumps, loads, decode, blank)
    requires Flatten(chunks) == Ndjson(RunEvents(input, 0, false, None, classify).events, dumps)
    ensures Answers(chunks, decode, loads, blank)
       <==> !CapTrips(chunks) && Answered(RunEvents(input, 0, false, None, classify))
  {
    hide RunEvents, Ndjson, CapTrips, TextLines, Answered, Adapt, JsonCodec;
    var b := Flatten(chunks);
    AdapterOutcome(input, classify, b, TextLines(b, decode), CapTrips(chunks), dumps, loads, decode, blank);
  }

  /** The whole body of a run yields an answer however it is chunked if and only if the run
      finished, its printed events fit the stream cap together and the line cap each. */
  lemma ArrivesHoweverChunkedIff(
      input: seq<CliEvent>, classify: Classify, dumps: Dumps, loads: Loads, decode: Bytes -> string, blank: Blank)
    requires JsonCodec(dumps, loads, decode, blank)
    ensures var r := RunEvents(input, 0, false, None, classify);
      (forall chunks: seq<Bytes> ::
         Flatten(chunks) == Ndjson(r.events, dumps) ==> Answers(chunks, decode, loads, blank))
      <==> Answered(r) && |Ndjson(r.events, dumps)| <= MAX_STREAM_BYTES && LinesFit(r.events, dumps)
  {
    hide RunEvents, Ndjson, CapTrips, Answered, Answers, JsonCodec, LinesFit;
    var r := RunEvents(input, 0, false, None, classify);
    var b := Ndjson(r.events, dumps);
    FitsIff(r.events, dumps, loads, decode, blank);
    NoSplitTripsIffFits(b);
    forall chunks: seq<Bytes> | Flatten(chunks) == b
      ensures Answers(chunks, decode, loads, blank) <==> !CapTrips(chunks) && Answered(r)
    {
      WholeBodyAnswersIff(input, classify, chunks, dumps, loads, decode, blank);
    }
    assert Flatten([b]) == b by { FlattenCons(b, []); }
  }
}
