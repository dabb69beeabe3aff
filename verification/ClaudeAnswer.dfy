/** The Claude Code answer from end to end, told from the JSON of the CLI's lines: when the
    call returns a response, and which. */
module ClaudeAnswer {
  import opened Prelude
  import opened Lines
  import opened ClaudeStream

  // ----- what the lines say ------------------------------------------------------------------------

  /** The text deltas of the lines, in order. */
  function AllText(cli: seq<Read>): string {
    if cli == [] then "" else TextPart(cli[0]) + AllText(cli[1..])
  }

  /** The thinking deltas of the lines, in order. */
  function AllThinking(cli: seq<Read>): string {
    if cli == [] then "" else ThinkingPart(cli[0]) + AllThinking(cli[1..])
  }

  /** A line that neither raises nor reports the result. */
  predicate Passes(read: Read) {
    read.Line? && !IsKind(read, "result") && !Raises(read)
  }

  ghost predicate AllPass(cli: seq<Read>, n: nat)
    requires n <= |cli|
  {
    forall i :: 0 <= i < n ==> Passes(cli[i])
  }

  /** The n-th line reports success, every line before it passes, and the cap holds. */
  ghost predicate SucceedsAt(cli: seq<Read>, n: nat) {
    && n < |cli| && Succeeds(cli[n]) && AllPass(cli, n)
    && |AllText(cli[..n])| + |AllThinking(cli[..n])| <= MAX_OUTPUT_CHARS
  }

  ghost predicate SomeSuccess(cli: seq<Read>) {
    exists n :: SucceedsAt(cli, n)
  }

  /** The text that was streamed or, if there was none, the result's, cut at the cap. */
  predicate IsContent(content: string, streamed: string, event: seq<Field>) {
    if streamed != "" then content == streamed
    else
      var text := Get(event, "result");
      IsCut(content, if text.Str? then text.s else "", MAX_OUTPUT_CHARS)
  }

  /** The response that lines with a success at n call for. */
  ghost predicate IsResponse(response: Response, cli: seq<Read>, n: nat)
    requires SucceedsAt(cli, n)
  {
    var event, thinking := cli[n].parsed.value.fields, AllThinking(cli[..n]);
    var stop := Get(event, "stop_reason");
    && IsContent(response.content, AllText(cli[..n]), event)
    && response.reasoning == (if thinking == "" then None else Some(thinking))
    && response.prompt == Some(Tokens(event, "input_tokens") + Tokens(event, "cache_creation_input_tokens")
                               + Tokens(event, "cache_read_input_tokens"))
    && response.completion == Some(Tokens(event, "output_tokens"))
    && (response.finish == STOP <==> stop == Str("end_turn") || stop == Str("stop_sequence"))
    && (response.finish == LENGTH <==> stop == Str("max_tokens"))
  }

  // ----- how a run splits at the line that ends it ---------------------------------------------------

  function Echoed(input: seq<CliEvent>): seq<AgentEvent> {
    if input == [] then [] else Echo(input[0]) + Echoed(input[1..])
  }

  predicate SeesText(input: seq<CliEvent>) {
    input != [] && (input[0].TextDelta? || SeesText(input[1..]))
  }

  function LastModel(input: seq<CliEvent>, model: Option<string>): Option<string> {
    if input == [] then model else LastModel(input[1..], ModelAfter(input[0], model))
  }

  /** What the rest of the input gives after its first n events. */
  function After(input: seq<CliEvent>, n: nat, emitted: nat, seenText: bool, model: Option<string>,
          classify: Classify): Run
    requires n <= |input|
  {
    RunEvents(input[n..], emitted + TotalChars(input[..n]), seenText || SeesText(input[..n]),
              LastModel(input[..n], model), classify)
  }

  lemma {:induction false} RunSplits(input: seq<CliEvent>, n: nat, emitted: nat, seenText: bool,
          model: Option<string>, classify: Classify)
    requires n <= |input| && NothingEndsBefore(input, n, emitted)
    ensures var rest := After(input, n, emitted, seenText, model, classify);
      RunEvents(input, emitted, seenText, model, classify) == Run(Echoed(input[..n]) + rest.events, rest.raised)
    decreases n
  {
    hide *;
    if n == 0 {
      SplitAtStart(input, emitted, seenText, model, classify);
    } else {
      var c, later := input[0], input[1..];
      var emitted', seenText', model' := emitted + Chars(c), seenText || c.TextDelta?, ModelAfter(c, model);
      FirstDoesNotEnd(input, n, emitted);
      NothingEndsShift(input, n - 1, emitted);
      RunSplits(later, n - 1, emitted', seenText', model', classify);
      SameAfter(input, n, emitted, seenText, model, classify);
      NextEvent(input, emitted, seenText, model, classify);
      Assoc(Echo(c), Echoed(later[..n - 1]), After(input, n, emitted, seenText, model, classify).events);
    }
  }

  lemma SplitAtStart(input: seq<CliEvent>, emitted: nat, seenText: bool, model: Option<string>, classify: Classify)
    ensures var rest := After(input, 0, emitted, seenText, model, classify);
      RunEvents(input, emitted, seenText, model, classify) == Run(Echoed(input[..0]) + rest.events, rest.raised)
  {
    hide RunEvents;
    assert input[0..] == input && input[..0] == [];
    var whole := RunEvents(input, emitted, seenText, model, classify);
    assert [] + whole.events == whole.events;
  }

  lemma FirstDoesNotEnd(input: seq<CliEvent>, n: nat, emitted: nat)
    requires 0 < n <= |input| && NothingEndsBefore(input, n, emitted)
    ensures !Ends(input[0], emitted)
  {
    assert input[..0] == [] && !Ends(input[0], emitted + TotalChars(input[..0]));
  }

  lemma SameAfter(input: seq<CliEvent>, n: nat, emitted: nat, seenText: bool, model: Option<string>,
                  classify: Classify)
    requires 0 < n <= |input|
    ensures var c, later := input[0], input[1..];
      && After(later, n - 1, emitted + Chars(c), seenText || c.TextDelta?, ModelAfter(c, model), classify)
         == After(input, n, emitted, seenText, model, classify)
      && Echoed(input[..n]) == Echo(c) + Echoed(later[..n - 1])
  {
    var c, later := input[0], input[1..];
    assert input[..n][1..] == later[..n - 1] && later[n - 1..] == input[n..] && input[..n][0] == c;
    hide RunEvents, Echo, Chars, ModelAfter;
  }

  /** Where the first event stands that ends the run; |input| when none does. */
  lemma {:induction false} FirstEnd(input: seq<CliEvent>, n: nat, emitted: nat) returns (k: nat)
    requires n <= |input| && NothingEndsBefore(input, n, emitted)
    ensures n <= k <= |input| && NothingEndsBefore(input, k, emitted)
    ensures k < |input| ==> Ends(input[k], emitted + TotalChars(input[..k]))
    decreases |input| - n
  {
    k := n;
    hide TotalChars, Ends;
    if n < |input| && !Ends(input[n], emitted + TotalChars(input[..n])) {
      k := FirstEnd(input, n + 1, emitted);
    }
  }

  lemma EndsHere(input: seq<CliEvent>, n: nat, emitted: nat, seenText: bool, model: Option<string>, classify: Classify)
    requires n <= |input| && NothingEndsBefore(input, n, emitted)
    requires n < |input| ==> Ends(input[n], emitted + TotalChars(input[..n]))
    ensures After(input, n, emitted, seenText, model, classify)
         == if n == |input| then Run([Error("failed")], false)
            else Ending(input[n], seenText || SeesText(input[..n]), LastModel(input[..n], model), classify)
  {
    if n < |input| {
      assert input[n..][0] == input[n];
    }
    hide Ending, TotalChars, SeesText, LastModel;
  }

  // ----- from the parsed lines to the lines -----------------------------------------------------------

  lemma ParsedStep(cli: seq<Read>)
    requires cli != []
    ensures Parsed(cli)[0] == Parse(cli[0]) && Parsed(cli)[1..] == Parsed(cli[1..])
  {
    hide Parse;
  }

  lemma {:induction false} ParsedChars(cli: seq<Read>)
    ensures TotalChars(Parsed(cli)) == |AllText(cli)| + |AllThinking(cli)|
    ensures SeesText(Parsed(cli)) <==> AllText(cli) != ""
    ensures TextOf(Echoed(Parsed(cli))) == AllText(cli)
    ensures ReasoningOf(Echoed(Parsed(cli))) == AllThinking(cli)
  {
    if cli != [] {
      ParsedStep(cli);
      ParseIs(cli[0]);
      ParsedChars(cli[1..]);
      hide Parse, TextPart, ThinkingPart, Parsed, Raises;
      var c := Parse(cli[0]);
      EchoTexts(c, Echoed(Parsed(cli[1..])));
    }
  }

  lemma EchoTexts(c: CliEvent, rest: seq<AgentEvent>)
    ensures TextOf(Echo(c) + rest) == (if c.TextDelta? then c.text else "") + TextOf(rest)
    ensures ReasoningOf(Echo(c) + rest) == (if c.ThinkingDelta? then c.text else "") + ReasoningOf(rest)
  {
    if Echo(c) == [] {
      assert Echo(c) + rest == rest;
    } else {
      assert (Echo(c) + rest)[1..] == rest;
    }
  }

  lemma ParsedPrefix(cli: seq<Read>, n: nat)
    requires n <= |cli|
    ensures |Parsed(cli)| == |cli| && Parsed(cli)[..n] == Parsed(cli[..n])
  {
    hide Parse;
  }

  /** Up to n nothing ends the run if every line passes and the cap still holds there. */
  lemma {:induction false} NothingEndsIff(cli: seq<Read>, n: nat)
    requires n <= |cli|
    ensures |Parsed(cli)| == |cli|
    ensures NothingEndsBefore(Parsed(cli), n, 0)
       <==> AllPass(cli, n) && |AllText(cli[..n])| + |AllThinking(cli[..n])| <= MAX_OUTPUT_CHARS
    decreases n
  {
    hide *;
    ParsedPrefix(cli, 0);
    if n == 0 {
      NothingEndsAtStart(cli);
    } else {
      var before := cli[..n - 1];
      NothingEndsIff(cli, n - 1);
      NothingEndsStep(cli, n);
      AllPassStep(cli, n);
      OneMoreRead(cli, n);
      PassesIff(cli[n - 1], |AllText(before)| + |AllThinking(before)|);
    }
  }

  lemma NothingEndsAtStart(cli: seq<Read>)
    ensures NothingEndsBefore(Parsed(cli), 0, 0) && AllPass(cli, 0)
    ensures |AllText(cli[..0])| + |AllThinking(cli[..0])| <= MAX_OUTPUT_CHARS
  {
  }

  lemma AllPassStep(cli: seq<Read>, n: nat)
    requires 0 < n <= |cli|
    ensures AllPass(cli, n) <==> AllPass(cli, n - 1) && Passes(cli[n - 1])
  {
    hide Passes;
  }

  lemma NothingEndsStep(cli: seq<Read>, n: nat)
    requires 0 < n <= |cli| && |Parsed(cli)| == |cli|
    ensures NothingEndsBefore(Parsed(cli), n, 0)
       <==> NothingEndsBefore(Parsed(cli), n - 1, 0)
            && !Stops(cli[n - 1], |AllText(cli[..n - 1])| + |AllThinking(cli[..n - 1])|)
  {
    ParsedLast(cli, n);
    hide *;
    NothingEndsSnoc(Parsed(cli), n, 0);
    StopsIff(cli[n - 1], TotalChars(Parsed(cli)[..n - 1]));
    ParsedPrefix(cli, n - 1);
    ParsedChars(cli[..n - 1]);
  }

  lemma ParsedLast(cli: seq<Read>, n: nat)
    requires 0 < n <= |cli|
    ensures |Parsed(cli)| == |cli| && Parsed(cli)[n - 1] == Parse(cli[n - 1])
  {
    hide Parse;
  }

  lemma NothingEndsSnoc(input: seq<CliEvent>, n: nat, emitted: nat)
    requires 0 < n <= |input|
    ensures NothingEndsBefore(input, n, emitted)
       <==> NothingEndsBefore(input, n - 1, emitted) && !Ends(input[n - 1], emitted + TotalChars(input[..n - 1]))
  {
    hide Ends, TotalChars;
  }

  lemma PassesIff(read: Read, emitted: nat)
    ensures !Stops(read, emitted)
       <==> Passes(read) && emitted + |TextPart(read)| + |ThinkingPart(read)| <= MAX_OUTPUT_CHARS
  {
    hide Raises, TextPart, ThinkingPart;
    assert read.TooNested? ==> Raises(read) by { NestedRaises(read); }
  }

  lemma NestedRaises(read: Read)
    ensures read.TooNested? ==> Raises(read)
  {
  }

  lemma OneMoreRead(cli: seq<Read>, n: nat)
    requires 0 < n <= |cli|
    ensures |AllText(cli[..n])| == |AllText(cli[..n - 1])| + |TextPart(cli[n - 1])|
    ensures |AllThinking(cli[..n])| == |AllThinking(cli[..n - 1])| + |ThinkingPart(cli[n - 1])|
  {
    hide TextPart, ThinkingPart;
    assert cli[..n] == cli[..n - 1] + [cli[n - 1]];
    AllTextSnoc(cli[..n - 1], cli[n - 1]);
  }

  lemma {:induction false} AllTextSnoc(cli: seq<Read>, last: Read)
    ensures AllText(cli + [last]) == AllText(cli) + TextPart(last)
    ensures AllThinking(cli + [last]) == AllThinking(cli) + ThinkingPart(last)
  {
    hide TextPart, ThinkingPart;
    if cli == [] {
      assert cli + [last] == [last] && [last][1..] == [];
    } else {
      assert (cli + [last])[1..] == cli[1..] + [last];
      AllTextSnoc(cli[1..], last);
      Assoc(TextPart(cli[0]), AllText(cli[1..]), TextPart(last));
      Assoc(ThinkingPart(cli[0]), AllThinking(cli[1..]), ThinkingPart(last));
    }
  }

  // ----- when a run succeeds, and with what -------------------------------------------------------------

  /** The run's events, when the n-th line ends it. */
  lemma RunOfReads(cli: seq<Read>, n: nat, classify: Classify)
    requires n < |cli| && NothingEndsBefore(Parsed(cli), n, 0)
    requires Ends(Parse(cli[n]), TotalChars(Parsed(cli)[..n]))
    ensures var seen, model := AllText(cli[..n]) != "", LastModel(Parsed(cli)[..n], None);
      var end := Ending(Parse(cli[n]), seen, model, classify);
      RunEvents(Parsed(cli), 0, false, None, classify)
      == Run(Echoed(Parsed(cli[..n])) + end.events, end.raised)
  {
    hide RunEvents, Ending, Echoed, LastModel, Ends, TotalChars, Parse;
    var input := Parsed(cli);
    assert input[n] == Parse(cli[n]);
    RunSplits(input, n, 0, false, None, classify);
    EndsHere(input, n, 0, false, None, classify);
    ParsedPrefix(cli, n);
    ParsedChars(cli[..n]);
  }

  lemma EchoedDoesNotFinish(input: seq<CliEvent>, tail: seq<AgentEvent>, raised: bool)
    requires tail != []
    ensures Answered(Run(Echoed(input) + tail, raised)) <==> Answered(Run(tail, raised))
  {
    hide Echoed;
    var all := Echoed(input) + tail;
    assert all[|all| - 1] == tail[|tail| - 1];
  }

  /** A run answers if and only if a success line is reached within the cap. */
  lemma AnsweredIff(cli: seq<Read>, classify: Classify)
    ensures Answered(RunEvents(Parsed(cli), 0, false, None, classify)) <==> SomeSuccess(cli)
  {
    var input := Parsed(cli);
    assert NothingEndsBefore(input, 0, 0);
    var k := FirstEnd(input, 0, 0);
    NothingEndsIff(cli, k);
    if k == |cli| {
      NeverEnds(cli, classify);
    } else {
      EndsAt(cli, k, classify);
    }
  }

  lemma NeverEnds(cli: seq<Read>, classify: Classify)
    requires NothingEndsBefore(Parsed(cli), |cli|, 0)
    ensures !Answered(RunEvents(Parsed(cli), 0, false, None, classify)) && !SomeSuccess(cli)
  {
    var input := Parsed(cli);
    RunSplits(input, |cli|, 0, false, None, classify);
    EndsHere(input, |cli|, 0, false, None, classify);
    EchoedDoesNotFinish(input[..|cli|], [Error("failed")], false);
    NothingEndsIff(cli, |cli|);
    hide RunEvents, Echoed, Answered;
    assert !Answered(Run([Error("failed")], false)) by { ErrorIsNoAnswer("failed"); }
    hide Raises, Succeeds;
    forall n: nat
      ensures !SucceedsAt(cli, n)
    {
      if n < |cli| {
        SuccessDoesNotPass(cli[n]);
      }
    }
  }

  lemma ErrorIsNoAnswer(code: string)
    ensures !Answered(Run([Error(code)], false))
  {
  }

  lemma SuccessDoesNotPass(read: Read)
    ensures Succeeds(read) ==> !Passes(read)
  {
  }

  /** An ending answers exactly when its line reports success. */
  lemma AnsweredEnding(read: Read, r: Run, seenText: bool, model: Option<string>, classify: Classify)
    requires StopsWith(read, seenText, model, classify, r.events) && (r.raised <==> Raises(read))
    ensures Answered(r) <==> Succeeds(read)
    ensures r.events == [] ==> r.raised && !Answered(r)
  {
    RaisesNot(read);
    assert Succeeds(read) ==> IsKind(read, "result");
    hide Raises, Succeeds, IsFallback, CountsTokens, TellsReason, TellsModel;
  }

  /** A success can only stand where the run first ends. */
  lemma OnlyAt(cli: seq<Read>, k: nat, n: nat)
    requires k < |cli| && NothingEndsBefore(Parsed(cli), k, 0)
    requires Ends(Parse(cli[k]), TotalChars(Parsed(cli)[..k])) && SucceedsAt(cli, n)
    ensures n == k
  {
    NothingEndsIff(cli, n);
    NothingEndsIff(cli, k);
    SuccessDoesNotPass(cli[n]);
    hide Parse, Passes, Succeeds, Ends, TotalChars, AllText, AllThinking;
    assert Parsed(cli)[k] == Parse(cli[k]);
  }

  lemma EndsAt(cli: seq<Read>, k: nat, classify: Classify)
    requires k < |cli| && NothingEndsBefore(Parsed(cli), k, 0)
    requires Ends(Parse(cli[k]), TotalChars(Parsed(cli)[..k]))
    ensures Answered(RunEvents(Parsed(cli), 0, false, None, classify)) <==> SomeSuccess(cli)
  {
    assert |Parsed(cli)| == |cli|;
    hide *;
    NothingEndsIff(cli, k);
    RunOfReads(cli, k, classify);
    var seen, model := AllText(cli[..k]) != "", LastModel(Parsed(cli)[..k], None);
    var end := Ending(Parse(cli[k]), seen, model, classify);
    EndingIs(cli[k], TotalChars(Parsed(cli)[..k]), seen, model, classify);
    AnsweredEnding(cli[k], end, seen, model, classify);
    AnsweredTail(Parsed(cli[..k]), end);
    SuccessIff(cli, k);
  }

  lemma AnsweredTail(input: seq<CliEvent>, end: Run)
    requires end.events == [] ==> !Answered(end) && end.raised
    ensures Answered(Run(Echoed(input) + end.events, end.raised)) <==> Answered(end)
  {
    if end.events != [] {
      EchoedDoesNotFinish(input, end.events, end.raised);
    }
  }

  lemma SuccessIff(cli: seq<Read>, k: nat)
    requires k < |cli| && NothingEndsBefore(Parsed(cli), k, 0)
    requires Ends(Parse(cli[k]), TotalChars(Parsed(cli)[..k]))
    ensures SomeSuccess(cli) <==> Succeeds(cli[k])
    ensures Succeeds(cli[k]) ==> SucceedsAt(cli, k)
  {
    NothingEndsIff(cli, k);
    hide Parsed, Parse, Passes, Succeeds, Ends, TotalChars, AllText, AllThinking, NothingEndsBefore;
    if n :| SucceedsAt(cli, n) {
      OnlyAt(cli, k, n);
    }
    if Succeeds(cli[k]) {
      assert SucceedsAt(cli, k);
    }
  }

  /** The events of an answered run, from the lines up to its success. */
  lemma EventsOfSuccess(cli: seq<Read>, classify: Classify)
    returns (n: nat, terminal: seq<AgentEvent>, model: Option<string>)
    requires Answered(RunEvents(Parsed(cli), 0, false, None, classify))
    ensures n < |cli| && SucceedsAt(cli, n)
    ensures RunEvents(Parsed(cli), 0, false, None, classify).events == Echoed(Parsed(cli[..n])) + terminal
    ensures IsSuccess(terminal, cli[n].parsed.value.fields, AllText(cli[..n]) != "", model)
  {
    AnsweredIff(cli, classify);
    n :| SucceedsAt(cli, n);
    NothingEndsIff(cli, n);
    StopsIff(cli[n], TotalChars(Parsed(cli)[..n]));
    hide RunEvents, Ending, Echoed, LastModel, AllText, AllThinking, Raises, StopsWith, Parse, Answered, IsSuccess;
    RunOfReads(cli, n, classify);
    var seen := AllText(cli[..n]) != "";
    model := LastModel(Parsed(cli)[..n], None);
    EndingIs(cli[n], TotalChars(Parsed(cli)[..n]), seen, model, classify);
    terminal := Ending(Parse(cli[n]), seen, model, classify).events;
    SuccessStops(cli[n], seen, model, classify, terminal);
  }

  lemma SuccessStops(read: Read, seenText: bool, model: Option<string>, classify: Classify, events: seq<AgentEvent>)
    requires Succeeds(read) && StopsWith(read, seenText, model, classify, events)
    ensures IsSuccess(events, read.parsed.value.fields, seenText, model)
  {
    RaisesNot(read);
    hide IsSuccess, Raises;
  }

  lemma {:induction false} TextsOfBoth(a: seq<AgentEvent>, b: seq<AgentEvent>)
    ensures TextOf(a + b) == TextOf(a) + TextOf(b) && ReasoningOf(a + b) == ReasoningOf(a) + ReasoningOf(b)
  {
    if a == [] {
      assert a + b == b;
    } else {
      assert (a + b)[1..] == a[1..] + b;
      TextsOfBoth(a[1..], b);
      Assoc(if a[0].Text? then a[0].text else "", TextOf(a[1..]), TextOf(b));
      Assoc(if a[0].Reasoning? then a[0].text else "", ReasoningOf(a[1..]), ReasoningOf(b));
    }
  }

  /** The text of a success line's own events. */
  lemma TerminalText(terminal: seq<AgentEvent>, event: seq<Field>, seenText: bool, model: Option<string>)
    requires IsSuccess(terminal, event, seenText, model)
    ensures ReasoningOf(terminal) == ""
    ensures if seenText then TextOf(terminal) == ""
            else IsContent(TextOf(terminal), "", event)
  {
    var n := |terminal|;
    var fallback, u, f := terminal[..n - 2], terminal[n - 2], terminal[n - 1];
    CountsIsUsage(u, event);
    hide *;
    assert terminal == fallback + [u, f];
    NoTextInTwo(u, f);
    TextsOfBoth(fallback, [u, f]);
    FallbackText(fallback, event, seenText);
    assert TextOf(fallback) + "" == TextOf(fallback);
  }

  lemma NoTextInTwo(u: AgentEvent, f: AgentEvent)
    requires u.UsageOf? && f.Finish?
    ensures TextOf([u, f]) == "" && ReasoningOf([u, f]) == ""
  {
    assert [u, f][1..] == [f] && [f][1..] == [];
    assert TextOf([f]) == "" && ReasoningOf([f]) == "";
  }

  lemma CountsIsUsage(e: AgentEvent, event: seq<Field>)
    requires CountsTokens(e, event)
    ensures e.UsageOf?
  {
  }

  lemma FallbackText(events: seq<AgentEvent>, event: seq<Field>, seenText: bool)
    requires IsFallback(events, event, seenText)
    ensures ReasoningOf(events) == ""
    ensures if seenText then TextOf(events) == "" else IsContent(TextOf(events), "", event)
  {
    hide Get;
    if events != [] {
      assert events[1..] == [];
      assert TextOf(events) == events[0].text + TextOf(events[1..]);
    }
  }

  /** The response of a run that reaches a success is the one its lines call for. */
  lemma ResponseOfReads(cli: seq<Read>, classify: Classify) returns (n: nat)
    requires Answered(RunEvents(Parsed(cli), 0, false, None, classify))
    ensures SucceedsAt(cli, n)
    ensures forall response ::
      IsAnswerOf(response, RunEvents(Parsed(cli), 0, false, None, classify).events) ==> IsResponse(response, cli, n)
  {
    hide *;
    var terminal: seq<AgentEvent>, model: Option<string>;
    n, terminal, model := EventsOfSuccess(cli, classify);
    ContentOfBoth(cli, n, terminal, model);
    var events := Echoed(Parsed(cli[..n])) + terminal;
    forall response | IsAnswerOf(response, events)
      ensures IsResponse(response, cli, n)
    {
      ResponseIs(response, events, terminal, cli, n, model);
    }
  }

  lemma ContentOfBoth(cli: seq<Read>, n: nat, terminal: seq<AgentEvent>, model: Option<string>)
    requires SucceedsAt(cli, n)
    requires IsSuccess(terminal, cli[n].parsed.value.fields, AllText(cli[..n]) != "", model)
    ensures var events, event := Echoed(Parsed(cli[..n])) + terminal, cli[n].parsed.value.fields;
      && ReasoningOf(events) == AllThinking(cli[..n]) && IsContent(TextOf(events), AllText(cli[..n]), event)
      && |terminal| >= 2 && |events| >= 2
      && events[|events| - 1] == terminal[|terminal| - 1] && events[|events| - 2] == terminal[|terminal| - 2]
  {
    var event, seen := cli[n].parsed.value.fields, AllText(cli[..n]) != "";
    var streamed := Echoed(Parsed(cli[..n]));
    assert |terminal| >= 2;
    hide *;
    ParsedChars(cli[..n]);
    TextsOfBoth(streamed, terminal);
    TerminalText(terminal, event, seen, model);
    LastOfBoth(streamed, terminal);
    assert AllThinking(cli[..n]) + "" == AllThinking(cli[..n]);
    JoinedContent(AllText(cli[..n]), TextOf(terminal), event);
  }

  lemma JoinedContent(streamed: string, more: string, event: seq<Field>)
    requires if streamed != "" then more == "" else IsContent(more, "", event)
    ensures IsContent(streamed + more, streamed, event)
  {
    hide Get;
    assert streamed == "" ==> streamed + more == more;
    assert more == "" ==> streamed + more == streamed;
  }

  lemma LastOfBoth(a: seq<AgentEvent>, b: seq<AgentEvent>)
    requires |b| >= 2
    ensures var all := a + b;
      && |all| >= 2 && all[|all| - 1] == b[|b| - 1] && all[|all| - 2] == b[|b| - 2]
  {
  }

  lemma ResponseIs(response: Response, events: seq<AgentEvent>, terminal: seq<AgentEvent>, cli: seq<Read>, n: nat,
                   model: Option<string>)
    requires SucceedsAt(cli, n) && IsAnswerOf(response, events)
    requires var event, seen := cli[n].parsed.value.fields, AllText(cli[..n]) != "";
      && IsSuccess(terminal, event, seen, model) && |events| >= 2 && |terminal| >= 2
      && events[|events| - 1] == terminal[|terminal| - 1] && events[|events| - 2] == terminal[|terminal| - 2]
      && ReasoningOf(events) == AllThinking(cli[..n]) && IsContent(TextOf(events), AllText(cli[..n]), event)
    ensures IsResponse(response, cli, n)
  {
    hide TextOf, ReasoningOf, AllText, AllThinking, IsContent, IsFallback, TellsModel, Get, Tokens, SucceedsAt;
  }

  // ----- end to end ---------------------------------------------------------------------------------------

  /** From CLI output to response. However the agent's NDJSON is chunked and wherever the
      body is cut, the call returns the response the CLI's lines call for, or an error; it
      returns exactly when a success line is reached within the agent's cap, the finish line
      arrived and no cap of the controller tripped. */
  method Answer(
      chunks: seq<Bytes>, decode: Bytes -> string, loads: Loads, blank: Blank,
      ghost cli: seq<Read>, ghost classify: Classify, ghost dumps: Dumps)
    returns (response: Response, error: Option<Failure>)
    requires JsonCodec(dumps, loads, decode, blank)
    requires Flatten(chunks) <= Ndjson(RunEvents(Parsed(cli), 0, false, None, classify).events, dumps)
    ensures error.None? <==>
      && !CapTrips(chunks) && SomeSuccess(cli)
      && |Flatten(chunks)| >= |Ndjson(RunEvents(Parsed(cli), 0, false, None, classify).events, dumps)| - 1
    ensures error.None? ==> exists n :: SucceedsAt(cli, n) && IsResponse(response, cli, n)
    ensures error.None? ==> IsAnswerOf(response, RunEvents(Parsed(cli), 0, false, None, classify).events)
  {
    hide *;
    var lines, tooLarge := StreamLines(chunks, decode);
    var events;
    events, error := AdapterStream(lines, tooLarge, loads, blank);
    AdapterOutcome(Parsed(cli), classify, Flatten(chunks), lines, tooLarge, dumps, loads, decode, blank);
    AnsweredIff(cli, classify);
    response := Collect(events);
    if error.None? {
      AnswerOfRun(Parsed(cli), classify);
      ghost var n := ResponseOfReads(cli, classify);
    }
  }
}
