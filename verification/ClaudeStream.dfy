/** The Claude Code answer stream, end to end: the node agent turns CLI output lines
    into events (agent/lycosa_agent/runtimes/claude_code.py), prints them as NDJSON, and
    the controller's adapter reads the chunked body back and folds it into a response
    (backend/app/llm/adapters/claude_subscription.py, base.py). */
module ClaudeStream {
  import opened Prelude
  import opened Lines

  const MAX_OUTPUT_CHARS := 2_000_000

  // ----- JSON values, read the way Python reads them --------------------------------

  datatype Field = Field(name: string, value: Json)
  datatype Json =
    | Null
    | Bool(b: bool)
    | Int(n: int)
    | Float(r: real)
    | Str(s: string)
    | Arr(items: seq<Json>)
    | Obj(fields: seq<Field>)

  /** dict.get: Null when the key is absent. */
  function Get(fields: seq<Field>, name: string): Json {
    if fields == [] then Null
    else if fields[0].name == name then fields[0].value
    else Get(fields[1..], name)
  }

  predicate Truthy(j: Json) {
    match j
    case Null => false
    case Bool(b) => b
    case Int(n) => n != 0
    case Float(r) => r != 0.0
    case Str(s) => s != ""
    case Arr(items) => items != []
    case Obj(fields) => fields != []
  }

  /** `value or {}`, then used as an object: None is the AttributeError. */
  function OrEmpty(j: Json): Option<seq<Field>> {
    if !Truthy(j) then Some([])
    else if j.Obj? then Some(j.fields)
    else None
  }

  function Take(s: string, n: nat): string {
    if |s| <= n then s else s[..n]
  }

  // ----- the agent ----------------------------------------------------------------

  /** What one wait for a CLI line gives: a line (None when it is not JSON), one so deeply
      nested that the JSON parser raises something other than its ValueError, the deadline,
      or a line beyond the reader's limit. */
  datatype Read = Line(parsed: Option<Json>) | TooNested | Deadline | Overlong

  datatype AgentEvent =
    | Start(model: string)
    | Text(text: string)
    | Reasoning(text: string)
    | UsageOf(input: nat, output: nat)
    | Finish(reason: string, finalModel: Option<string>)
    | Error(code: string)

  type Classify = (string, Json) -> string

  /** What the read loop makes of one wait for a line. */
  datatype CliEvent =
    | InitOf(model: string)
    | TextDelta(text: string)
    | ThinkingDelta(text: string)
    | ResultLine(fields: seq<Field>)
    | Timeout
    | TooLong
    | Malformed
    | Other

  /** The nonempty text of a stream_event's delta. */
  function DeltaOf(event: seq<Field>): CliEvent {
    match OrEmpty(Get(event, "event"))
    case None => Malformed
    case Some(inner) =>
      match OrEmpty(Get(inner, "delta"))
      case None => Malformed
      case Some(delta) =>
        var kind := Get(delta, "type");
        if kind == Str("text_delta") then
          var t := Get(delta, "text");
          if t.Str? && t.s != "" then TextDelta(t.s) else Other
        else if kind == Str("thinking_delta") then
          var t := Get(delta, "thinking");
          if t.Str? && t.s != "" then ThinkingDelta(t.s) else Other
        else Other
  }

  const TWO_TO_194 := 0x4_000000000000_000000000000_000000000000_000000000000

  /** float(n) overflows: the nearest double would be 2^1024, from 2^1024 - 2^970 on. */
  predicate BeyondDouble(n: int) {
    var limit := 0x3F_FFFF_FFFF_FFFF * TWO_TO_194 * TWO_TO_194 * TWO_TO_194 * TWO_TO_194 * TWO_TO_194;
    n >= limit || n <= -limit
  }

  predicate PlanChar(c: char) {
    'a' <= c <= 'z' || '0' <= c <= '9' || c == '_'
  }

  function WithoutLineFeed(s: string): string {
    if s != "" && s[|s| - 1] == '\n' then s[..|s| - 1] else s
  }

  predicate AllPlanChars(s: string) {
    forall k :: 0 <= k < |s| ==> PlanChar(s[k])
  }

  /** One to twenty of those characters; the pattern's end lets one line feed follow. */
  predicate PlanName(s: string) {
    1 <= |WithoutLineFeed(s)| <= 20 && AllPlanChars(WithoutLineFeed(s))
  }

  /** Names the pattern accepts and rejects. */
  lemma PlanNames(c: char, d: char)
    requires c in "az09_" && d in "A- \n"
    ensures PlanName(seq(20, _ => c)) && PlanName([c] + "\n") && !PlanName(seq(21, _ => c))
    ensures !PlanName("") && !PlanName([d, c]) && !PlanName([d] + "\n")
  {
    assert PlanChar(c) && c != '\n' && !PlanChar(d);
    var twenty, more, ended, bad := seq(20, _ => c), seq(21, _ => c), [c] + "\n", [d] + "\n";
    assert twenty[19] == c && more[20] == c;
    assert ended[1] == '\n' && ended[..1] == [c];
    assert bad[1] == '\n' && WithoutLineFeed(bad)[0] == d;
    var pair := [d, c];
    assert pair[1] == c && WithoutLineFeed(pair)[0] == d;
  }

  /** Both signs overflow alike. */
  lemma BeyondDoubleIsSymmetric(n: int)
    ensures BeyondDouble(n) <==> BeyondDouble(-n)
    ensures BeyondDouble(n) && n > 0 ==> BeyondDouble(n + 1)
    ensures !BeyondDouble(0)
  {
  }

  /** A window whose utilization is an integer no double can hold. */
  predicate WindowRaises(window: Field) {
    PlanName(window.name) && window.value.Obj?
    && Get(window.value.fields, "utilization").Int? && BeyondDouble(Get(window.value.fields, "utilization").n)
  }

  /** _plan_usage walks the windows of a rate_limit_event; only an object has items. */
  predicate PlanUsageRaises(info: Json) {
    info.Obj? &&
    match OrEmpty(Get(info.fields, "unifiedWindows"))
    case None => true
    case Some(windows) => exists k :: 0 <= k < |windows| && WindowRaises(windows[k])
  }

  function ParseObject(event: seq<Field>): CliEvent {
    var kind := Get(event, "type");
    if kind == Str("system") then
      var model := Get(event, "model");
      if Get(event, "subtype") == Str("init") && model.Str? then InitOf(Take(model.s, 100)) else Other
    else if kind == Str("stream_event") then DeltaOf(event)
    else if kind == Str("rate_limit_event") then
      if PlanUsageRaises(Get(event, "rate_limit_info")) then Malformed else Other
    else if kind == Str("result") then ResultLine(event)
    else Other
  }

  function Parse(read: Read): CliEvent {
    match read
    case TooNested => Malformed
    case Deadline => Timeout
    case Overlong => TooLong
    case Line(parsed) =>
      if parsed.Some? && parsed.value.Obj? then ParseObject(parsed.value.fields) else Other
  }

  function Parsed(input: seq<Read>): seq<CliEvent> {
    seq(|input|, i requires 0 <= i < |input| => Parse(input[i]))
  }

  function Count(j: Json): nat {
    if j.Int? && j.n >= 0 then j.n else 0
  }

  function StopReason(j: Json): string {
    if j == Str("end_turn") || j == Str("stop_sequence") then "stop"
    else if j == Str("max_tokens") then "length"
    else "other"
  }

  function FieldsOf(j: Json): seq<Field> {
    if j.Obj? then j.fields else []
  }

  function ResultText(event: seq<Field>): string {
    var r := Get(event, "result");
    if r.Str? then r.s else ""
  }

  predicate Succeeded(event: seq<Field>) {
    !Truthy(Get(event, "is_error")) && Get(event, "subtype") == Str("success")
  }

  /** _result_events */
  function ResultEvents(event: seq<Field>, seenText: bool, model: Option<string>, classify: Classify)
    : seq<AgentEvent>
  {
    if !Succeeded(event) then
      [Error(classify(ResultText(event), Get(event, "api_error_status")))]
    else
      var usage := FieldsOf(Get(event, "usage"));
      var counted := UsageOf(
        Count(Get(usage, "input_tokens")) + Count(Get(usage, "cache_creation_input_tokens"))
          + Count(Get(usage, "cache_read_input_tokens")),
        Count(Get(usage, "output_tokens")));
      var byModel := FieldsOf(Get(event, "modelUsage"));
      var name := if byModel != [] then Some(Take(byModel[0].name, 100)) else model;
      (if !seenText && ResultText(event) != "" then [Text(Take(ResultText(event), MAX_OUTPUT_CHARS))] else [])
      + [counted, Finish(StopReason(Get(event, "stop_reason")), name)]
  }

  datatype Run = Run(events: seq<AgentEvent>, raised: bool)

  function Chars(c: CliEvent): nat {
    if c.TextDelta? || c.ThinkingDelta? then |c.text| else 0
  }

  /** The loop ends here: malformed, a deadline, an overlong line, a result, or more
      text than the cap allows. */
  predicate Ends(c: CliEvent, emitted: nat) {
    || c.Malformed? || c.Timeout? || c.TooLong? || c.ResultLine?
    || emitted + Chars(c) > MAX_OUTPUT_CHARS
  }

  function Ending(c: CliEvent, seenText: bool, model: Option<string>, classify: Classify): Run {
    match c
    case Malformed => Run([], true)
    case Timeout => Run([Error("timeout")], false)
    case ResultLine(fields) => Run(ResultEvents(fields, seenText, model, classify), false)
    case _ => Run([Error("output_too_large")], false)
  }

  /** What an event that does not end the loop adds to the stream. */
  function Echo(c: CliEvent): seq<AgentEvent> {
    match c
    case InitOf(model) => [Start(model)]
    case TextDelta(t) => [Text(t)]
    case ThinkingDelta(t) => [Reasoning(t)]
    case _ => []
  }

  function ModelAfter(c: CliEvent, model: Option<string>): Option<string> {
    if c.InitOf? then Some(c.model) else model
  }

  /** The whole output of _events over the remaining CLI events. */
  function RunEvents(input: seq<CliEvent>, emitted: nat, seenText: bool, model: Option<string>,
          classify: Classify): Run {
    if input == [] then Run([Error("failed")], false)
    else if Ends(input[0], emitted) then Ending(input[0], seenText, model, classify)
    else
      var r := RunEvents(input[1..], emitted + Chars(input[0]), seenText || input[0].TextDelta?,
                         ModelAfter(input[0], model), classify);
      Run(Echo(input[0]) + r.events, r.raised)
  }

  // ----- the same, told from the JSON of the line --------------------------------------------------

  predicate IsKind(read: Read, kind: string) {
    read.Line? && read.parsed.Some? && read.parsed.value.Obj? && Get(read.parsed.value.fields, "type") == Str(kind)
  }

  /** The text under this name in the delta of a stream_event, if the delta is of this type. */
  function Part(read: Read, kind: string, name: string): string {
    if !IsKind(read, "stream_event") || !Get(read.parsed.value.fields, "event").Obj? then ""
    else
      var delta := Get(Get(read.parsed.value.fields, "event").fields, "delta");
      if delta.Obj? && Get(delta.fields, "type") == Str(kind) && Get(delta.fields, name).Str?
      then Get(delta.fields, name).s else ""
  }

  function TextPart(read: Read): string {
    Part(read, "text_delta", "text")
  }

  function ThinkingPart(read: Read): string {
    Part(read, "thinking_delta", "thinking")
  }

  predicate Empty(j: Json) {
    j == Null || j == Bool(false) || j == Int(0) || j == Float(0.0) || j == Str("") || j == Arr([]) || j == Obj([])
  }

  /** Something that is neither empty nor an object stands where an object is read. */
  predicate Misplaced(j: Json) {
    !Empty(j) && !j.Obj?
  }

  /** The lines that make the read loop raise. */
  predicate Raises(read: Read) {
    || read.TooNested?
    || (IsKind(read, "stream_event") &&
        var event := Get(read.parsed.value.fields, "event");
        Misplaced(event) || (event.Obj? && Misplaced(Get(event.fields, "delta"))))
    || (IsKind(read, "rate_limit_event") &&
        var info := Get(read.parsed.value.fields, "rate_limit_info");
        info.Obj? &&
        var windows := Get(info.fields, "unifiedWindows");
        || Misplaced(windows)
        || (windows.Obj? && exists k :: 0 <= k < |windows.fields| && WindowRaises(windows.fields[k])))
  }

  /** A result line that reports success. */
  predicate Succeeds(read: Read) {
    && IsKind(read, "result")
    && Empty(Get(read.parsed.value.fields, "is_error"))
    && Get(read.parsed.value.fields, "subtype") == Str("success")
  }

  /** A token count of the result line's usage: 0 unless it is a non-negative integer. */
  function Tokens(event: seq<Field>, name: string): nat {
    var usage := Get(event, "usage");
    if usage.Obj? && Get(usage.fields, name).Int? && Get(usage.fields, name).n >= 0 then Get(usage.fields, name).n
    else 0
  }

  predicate IsCut(part: string, whole: string, n: nat) {
    part <= whole && |part| == if |whole| <= n then |whole| else n
  }

  /** The result text stands in for an answer that was not streamed. */
  predicate IsFallback(events: seq<AgentEvent>, event: seq<Field>, seenText: bool) {
    var text := Get(event, "result");
    if !seenText && text.Str? && text.s != "" then
      |events| == 1 && events[0].Text? && IsCut(events[0].text, text.s, MAX_OUTPUT_CHARS)
    else events == []
  }

  predicate CountsTokens(e: AgentEvent, event: seq<Field>) {
    && e.UsageOf? && e.output == Tokens(event, "output_tokens")
    && e.input == Tokens(event, "input_tokens") + Tokens(event, "cache_creation_input_tokens")
                  + Tokens(event, "cache_read_input_tokens")
  }

  predicate TellsReason(reason: string, stop: Json) {
    && (reason == "stop" <==> stop == Str("end_turn") || stop == Str("stop_sequence"))
    && (reason == "length" <==> stop == Str("max_tokens"))
    && (reason == "stop" || reason == "length" || reason == "other")
  }

  /** The first model of modelUsage, if it names one, and else the one that was started. */
  predicate TellsModel(name: Option<string>, event: seq<Field>, model: Option<string>) {
    var byModel := Get(event, "modelUsage");
    if byModel.Obj? && byModel.fields != [] then name.Some? && IsCut(name.value, byModel.fields[0].name, 100)
    else name == model
  }

  ghost predicate IsSuccess(events: seq<AgentEvent>, event: seq<Field>, seenText: bool, model: Option<string>) {
    && |events| >= 2
    && IsFallback(events[..|events| - 2], event, seenText)
    && CountsTokens(events[|events| - 2], event)
    && events[|events| - 1].Finish? && TellsReason(events[|events| - 1].reason, Get(event, "stop_reason"))
    && TellsModel(events[|events| - 1].finalModel, event, model)
  }

  predicate IsFailure(events: seq<AgentEvent>, event: seq<Field>, classify: Classify) {
    var text := Get(event, "result");
    events == [Error(classify(if text.Str? then text.s else "", Get(event, "api_error_status")))]
  }

  /** What one read yields: the loop goes on with these values of its variables. */
  ghost predicate GoesOn(read: Read, emitted: nat, seenText: bool, model: Option<string>, yielded: seq<AgentEvent>,
          emitted': nat, seenText': bool, model': Option<string>)
  {
    var text, thinking := TextPart(read), ThinkingPart(read);
    if text != "" then
      yielded == [Text(text)] && emitted' == emitted + |text| && seenText' && model' == model
    else if thinking != "" then
      yielded == [Reasoning(thinking)] && emitted' == emitted + |thinking| && seenText' == seenText && model' == model
    else
      && emitted' == emitted && seenText' == seenText
      && if IsKind(read, "system") && Get(read.parsed.value.fields, "subtype") == Str("init")
            && Get(read.parsed.value.fields, "model").Str?
         then
           && model'.Some? && IsCut(model'.value, Get(read.parsed.value.fields, "model").s, 100)
           && yielded == [Start(model'.value)]
         else yielded == [] && model' == model
  }

  /** Or it ends: with a result line, an exception, the deadline, or too much output. */
  ghost predicate StopsWith(read: Read, seenText: bool, model: Option<string>, classify: Classify,
          yielded: seq<AgentEvent>)
  {
    if Raises(read) then yielded == []
    else if Succeeds(read) then IsSuccess(yielded, read.parsed.value.fields, seenText, model)
    else if IsKind(read, "result") then IsFailure(yielded, read.parsed.value.fields, classify)
    else yielded == [Error(if read.Deadline? then "timeout" else "output_too_large")]
  }

  predicate Stops(read: Read, emitted: nat) {
    || Raises(read) || IsKind(read, "result") || read.Deadline? || read.Overlong?
    || emitted + |TextPart(read)| + |ThinkingPart(read)| > MAX_OUTPUT_CHARS
  }

  lemma RaisesIff(read: Read)
    ensures Parse(read).Malformed? <==> Raises(read)
  {
    if IsKind(read, "stream_event") {
      var event := Get(read.parsed.value.fields, "event");
      hide Get;
    } else if IsKind(read, "rate_limit_event") {
      var info := Get(read.parsed.value.fields, "rate_limit_info");
      hide Get, WindowRaises;
    }
  }

  lemma DeltaIs(read: Read)
    requires IsKind(read, "stream_event")
    ensures Parse(read) == if Raises(read) then Malformed
                           else if TextPart(read) != "" then TextDelta(TextPart(read))
                           else if ThinkingPart(read) != "" then ThinkingDelta(ThinkingPart(read))
                           else Other
  {
    assert Get([], "delta") == Null && Get([], "type") == Null;
    hide Get;
  }

  /** What the JSON of a line says is what is read off it. */
  lemma ParseIs(read: Read)
    ensures var c := Parse(read);
      && (c.TextDelta? <==> TextPart(read) != "") && (c.TextDelta? ==> c.text == TextPart(read))
      && (c.ThinkingDelta? <==> ThinkingPart(read) != "" && TextPart(read) == "")
      && (c.ThinkingDelta? ==> c.text == ThinkingPart(read))
      && (c.Malformed? <==> Raises(read)) && (c.Timeout? <==> read.Deadline?) && (c.TooLong? <==> read.Overlong?)
      && (c.ResultLine? <==> IsKind(read, "result")) && (c.ResultLine? ==> c.fields == read.parsed.value.fields)
    ensures TextPart(read) == "" || ThinkingPart(read) == ""
    ensures Chars(Parse(read)) == |TextPart(read)| + |ThinkingPart(read)|
  {
    RaisesIff(read);
    if IsKind(read, "stream_event") {
      DeltaIs(read);
    }
    hide Get, Raises, DeltaOf, PlanUsageRaises;
  }

  lemma StopsIff(read: Read, emitted: nat)
    ensures Ends(Parse(read), emitted) <==> Stops(read, emitted)
  {
    ParseIs(read);
    hide Parse, Raises, TextPart, ThinkingPart;
  }

  lemma ResultIs(event: seq<Field>, seenText: bool, model: Option<string>, classify: Classify, read: Read)
    requires IsKind(read, "result") && event == read.parsed.value.fields
    ensures Succeeds(read) ==> IsSuccess(ResultEvents(event, seenText, model, classify), event, seenText, model)
    ensures !Succeeds(read) ==> IsFailure(ResultEvents(event, seenText, model, classify), event, classify)
  {
    if Succeeds(read) {
      hide Get;
      assert Succeeded(event);
      SuccessIs(event, seenText, model, classify);
    } else {
      hide Get, Count, StopReason, FieldsOf, Take;
    }
  }

  lemma SuccessIs(event: seq<Field>, seenText: bool, model: Option<string>, classify: Classify)
    requires Succeeded(event)
    ensures IsSuccess(ResultEvents(event, seenText, model, classify), event, seenText, model)
  {
    var events := ResultEvents(event, seenText, model, classify);
    var fallback := FallbackIs(event, seenText);
    var counted := CountsAre(event);
    var finish := FinishIs(event, model);
    assert events == fallback + [counted, finish] by {
      hide Get, Count, Succeeded, ResultText, StopReason, FieldsOf, Take;
    }
    hide *;
    SuccessShape(fallback, counted, finish, event, seenText, model);
  }

  lemma SuccessShape(fallback: seq<AgentEvent>, counted: AgentEvent, finish: AgentEvent, event: seq<Field>,
                     seenText: bool, model: Option<string>)
    requires IsFallback(fallback, event, seenText) && CountsTokens(counted, event) && finish.Finish?
    requires TellsReason(finish.reason, Get(event, "stop_reason")) && TellsModel(finish.finalModel, event, model)
    ensures IsSuccess(fallback + [counted, finish], event, seenText, model)
  {
    hide Get, IsFallback, CountsTokens, TellsReason, TellsModel;
    var events := fallback + [counted, finish];
    assert events[..|events| - 2] == fallback;
  }

  lemma FallbackIs(event: seq<Field>, seenText: bool) returns (events: seq<AgentEvent>)
    ensures events == if !seenText && ResultText(event) != "" then
                        [Text(Take(ResultText(event), MAX_OUTPUT_CHARS))] else []
    ensures IsFallback(events, event, seenText)
  {
    events := if !seenText && ResultText(event) != "" then [Text(Take(ResultText(event), MAX_OUTPUT_CHARS))] else [];
    hide Get;
  }

  lemma CountsAre(event: seq<Field>) returns (e: AgentEvent)
    ensures var usage := FieldsOf(Get(event, "usage"));
      e == UsageOf(Count(Get(usage, "input_tokens")) + Count(Get(usage, "cache_creation_input_tokens"))
                     + Count(Get(usage, "cache_read_input_tokens")),
                   Count(Get(usage, "output_tokens")))
    ensures CountsTokens(e, event)
  {
    var usage := FieldsOf(Get(event, "usage"));
    CountIs(event, "input_tokens");
    CountIs(event, "cache_creation_input_tokens");
    CountIs(event, "cache_read_input_tokens");
    CountIs(event, "output_tokens");
    hide Get, Count, Tokens, FieldsOf;
    e := UsageOf(Count(Get(usage, "input_tokens")) + Count(Get(usage, "cache_creation_input_tokens"))
                   + Count(Get(usage, "cache_read_input_tokens")),
                 Count(Get(usage, "output_tokens")));
  }

  lemma CountIs(event: seq<Field>, name: string)
    ensures Count(Get(FieldsOf(Get(event, "usage")), name)) == Tokens(event, name)
  {
    assert Get([], name) == Null;
    hide Get;
  }

  lemma FinishIs(event: seq<Field>, model: Option<string>) returns (e: AgentEvent)
    ensures var byModel := FieldsOf(Get(event, "modelUsage"));
      e == Finish(StopReason(Get(event, "stop_reason")),
                  if byModel != [] then Some(Take(byModel[0].name, 100)) else model)
    ensures TellsReason(e.reason, Get(event, "stop_reason")) && TellsModel(e.finalModel, event, model)
  {
    hide Get;
    var byModel := FieldsOf(Get(event, "modelUsage"));
    e := Finish(StopReason(Get(event, "stop_reason")),
                if byModel != [] then Some(Take(byModel[0].name, 100)) else model);
  }

  lemma EndingIs(read: Read, emitted: nat, seenText: bool, model: Option<string>, classify: Classify)
    requires Ends(Parse(read), emitted)
    ensures var r := Ending(Parse(read), seenText, model, classify);
      StopsWith(read, seenText, model, classify, r.events) && (r.raised <==> Raises(read))
  {
    ParseIs(read);
    if IsKind(read, "result") {
      ResultIs(read.parsed.value.fields, seenText, model, classify, read);
    }
    hide Parse, Raises, ResultEvents, IsSuccess, IsFailure, Succeeds, TextPart, ThinkingPart;
    assert IsKind(read, "result") ==> !Raises(read) by { RaisesNot(read); }
  }

  lemma RaisesNot(read: Read)
    ensures IsKind(read, "result") || read.Deadline? || read.Overlong? ==> !Raises(read)
  {
  }

  lemma EchoIs(read: Read, emitted: nat, seenText: bool, model: Option<string>)
    requires !Ends(Parse(read), emitted)
    ensures var c := Parse(read);
      GoesOn(read, emitted, seenText, model, Echo(c), emitted + Chars(c), seenText || c.TextDelta?,
             ModelAfter(c, model))
  {
    ParseIs(read);
    InitIs(read);
    hide Parse, Raises, TextPart, ThinkingPart, IsCut, Get;
  }

  lemma InitIs(read: Read)
    ensures Parse(read).InitOf? <==>
      && IsKind(read, "system") && Get(read.parsed.value.fields, "subtype") == Str("init")
      && Get(read.parsed.value.fields, "model").Str?
    ensures Parse(read).InitOf? ==> IsCut(Parse(read).model, Get(read.parsed.value.fields, "model").s, 100)
  {
    hide Get, PlanUsageRaises;
  }

  /** The body of the read loop: what one read yields, and whether the loop ends on it. */
  method HandleRead(read: Read, emitted: nat, seenText: bool, model: Option<string>, classify: Classify)
    returns (yielded: seq<AgentEvent>, stop: bool, raised: bool, emitted': nat, seenText': bool, model': Option<string>)
    requires emitted <= MAX_OUTPUT_CHARS
    ensures stop <==> Ends(Parse(read), emitted)
    ensures stop ==> Run(yielded, raised) == Ending(Parse(read), seenText, model, classify)
    ensures !stop ==> yielded == Echo(Parse(read)) && emitted' == emitted + Chars(Parse(read))
    ensures !stop ==> model' == ModelAfter(Parse(read), model) && seenText' == (seenText || Parse(read).TextDelta?)
    ensures stop <==> Stops(read, emitted)
    ensures stop ==> StopsWith(read, seenText, model, classify, yielded) && (raised <==> Raises(read))
    ensures !stop ==> GoesOn(read, emitted, seenText, model, yielded, emitted', seenText', model')
  {
    StopsIff(read, emitted);
    if Ends(Parse(read), emitted) {
      EndingIs(read, emitted, seenText, model, classify);
    } else {
      EchoIs(read, emitted, seenText, model);
    }
    hide Stops, StopsWith, GoesOn, Raises;
    yielded, stop, raised := [], false, false;
    emitted', seenText', model' := emitted, seenText, model;
    if read.Deadline? {
      return [Error("timeout")], true, false, emitted, seenText, model;
    }
    if read.Overlong? {
      return [Error("output_too_large")], true, false, emitted, seenText, model;
    }
    if read.TooNested? {
      return [], true, true, emitted, seenText, model;
    }
    if read.parsed.None? || !read.parsed.value.Obj? {
      return;
    }
    var event := read.parsed.value.fields;
    var kind := Get(event, "type");
    if kind == Str("system") && Get(event, "subtype") == Str("init") {
      if Get(event, "model").Str? {
        var m := Take(Get(event, "model").s, 100);
        model' := Some(m);
        yielded := [Start(m)];
      }
    } else if kind == Str("stream_event") {
      var delta := DeltaOf(event);
      if delta.Malformed? {
        return [], true, true, emitted, seenText, model;
      }
      if delta.TextDelta? || delta.ThinkingDelta? {
        emitted' := emitted + |delta.text|;
        if emitted' > MAX_OUTPUT_CHARS {
          return [Error("output_too_large")], true, false, emitted, seenText, model;
        }
        seenText' := seenText || delta.TextDelta?;
        yielded := [if delta.TextDelta? then Text(delta.text) else Reasoning(delta.text)];
      }
    } else if kind == Str("rate_limit_event") {
      if PlanUsageRaises(Get(event, "rate_limit_info")) {
        return [], true, true, emitted, seenText, model;
      }
    } else if kind == Str("result") {
      return ResultEvents(event, seenText, model, classify), true, false, emitted, seenText, model;
    }
  }

  lemma NextEvent(input: seq<CliEvent>, emitted: nat, seenText: bool, model: Option<string>, classify: Classify)
    requires input != [] && !Ends(input[0], emitted)
    ensures var c := input[0];
      var r := RunEvents(input[1..], emitted + Chars(c), seenText || c.TextDelta?, ModelAfter(c, model), classify);
      RunEvents(input, emitted, seenText, model, classify) == Run(Echo(c) + r.events, r.raised)
  {
  }

  lemma RunAfter(input: seq<CliEvent>, n: nat, out: seq<AgentEvent>, whole: Run, emitted: nat, seenText: bool,
                 model: Option<string>, classify: Classify)
    requires n < |input| && !Ends(input[n], emitted)
    requires var r := RunEvents(input[n..], emitted, seenText, model, classify);
      whole == Run(out + r.events, r.raised)
    ensures var c := input[n];
      var r := RunEvents(input[n + 1..], emitted + Chars(c), seenText || c.TextDelta?, ModelAfter(c, model), classify);
      whole == Run((out + Echo(c)) + r.events, r.raised)
  {
    var c := input[n];
    assert input[n..][0] == c && input[n..][1..] == input[n + 1..];
    var r := RunEvents(input[n + 1..], emitted + Chars(c), seenText || c.TextDelta?, ModelAfter(c, model), classify);
    Assoc(out, Echo(c), r.events);
  }

  /** _events, the read loop. A raised AttributeError ends the stream without an event. */
  method Events(input: seq<Read>, classify: Classify) returns (out: seq<AgentEvent>, raised: bool)
    ensures Run(out, raised) == RunEvents(Parsed(input), 0, false, None, classify)
  {
    hide Parse, Ending, Echo, ModelAfter;
    out := [];
    var emitted: nat, seenText := 0, false;
    var model: Option<string> := None;
    ghost var all := Parsed(input);
    ghost var whole := RunEvents(all, 0, false, None, classify);
    assert all[0..] == all;
    var n := 0;
    while n < |input|
      invariant n <= |input| && emitted <= MAX_OUTPUT_CHARS
      invariant var r := RunEvents(all[n..], emitted, seenText, model, classify);
        whole == Run(out + r.events, r.raised)
    {
      if !Ends(all[n], emitted) {
        RunAfter(all, n, out, whole, emitted, seenText, model, classify);
      }
      var yielded, stop;
      yielded, stop, raised, emitted, seenText, model := HandleRead(input[n], emitted, seenText, model, classify);
      out := out + yielded;
      if stop {
        return;
      }
      n := n + 1;
    }
    out, raised := out + [Error("failed")], false;
  }

  // ----- what the agent promises -----------------------------------------------------

  function TextOf(events: seq<AgentEvent>): string {
    if events == [] then ""
    else (if events[0].Text? then events[0].text else "") + TextOf(events[1..])
  }

  function ReasoningOf(events: seq<AgentEvent>): string {
    if events == [] then ""
    else (if events[0].Reasoning? then events[0].text else "") + ReasoningOf(events[1..])
  }

  predicate Streamed(e: AgentEvent) {
    e.Start? || e.Text? || e.Reasoning?
  }

  ghost predicate AllStreamed(events: seq<AgentEvent>) {
    forall k :: 0 <= k < |events| ==> Streamed(events[k])
  }

  /** The one terminal: an error, or optional fallback text, usage, finish. */
  predicate IsTerminal(events: seq<AgentEvent>) {
    || (|events| == 1 && events[0].Error?)
    || (|events| == 2 && events[0].UsageOf? && events[1].Finish?)
    || (|events| == 3 && events[0].Text? && |events[0].text| <= MAX_OUTPUT_CHARS
        && events[1].UsageOf? && events[2].Finish?)
  }

  /** Streamed events, then exactly one terminal unless an exception cut the stream.
      The streamed text never exceeds the cap, and fallback text only follows none. */
  lemma {:induction false} AgentShape(input: seq<CliEvent>, emitted: nat, seenText: bool, model: Option<string>,
          classify: Classify)
    returns (body: seq<AgentEvent>, terminal: seq<AgentEvent>)
    requires emitted <= MAX_OUTPUT_CHARS
    ensures RunEvents(input, emitted, seenText, model, classify).events == body + terminal
    ensures AllStreamed(body)
    ensures if RunEvents(input, emitted, seenText, model, classify).raised then terminal == [] else IsTerminal(terminal)
    ensures |terminal| == 3 ==> !seenText && TextOf(body) == ""
    ensures emitted + |TextOf(body)| + |ReasoningOf(body)| <= MAX_OUTPUT_CHARS
  {
    hide Ending, Echo, Chars, ModelAfter, TextOf, ReasoningOf, AllStreamed;
    body, terminal := [], RunEvents(input, emitted, seenText, model, classify).events;
    NothingStreamed();
    assert [] + terminal == terminal;
    if input != [] && !Ends(input[0], emitted) {
      var c := input[0];
      body, terminal := AgentShape(input[1..], emitted + Chars(c), seenText || c.TextDelta?,
                                   ModelAfter(c, model), classify);
      Grow(c, body);
      Assoc(Echo(c), body, terminal);
      body := Echo(c) + body;
    } else if input != [] {
      EndingIsTerminal(input[0], seenText, model, classify);
    }
  }

  lemma NothingStreamed()
    ensures TextOf([]) == "" && ReasoningOf([]) == "" && AllStreamed([])
  {
  }

  lemma EndingIsTerminal(c: CliEvent, seenText: bool, model: Option<string>, classify: Classify)
    ensures var r := Ending(c, seenText, model, classify);
      && (if r.raised then r.events == [] else IsTerminal(r.events))
      && (|r.events| == 3 ==> !seenText)
  {
  }

  lemma Grow(c: CliEvent, body: seq<AgentEvent>)
    ensures |TextOf(Echo(c) + body)| + |ReasoningOf(Echo(c) + body)|
         == Chars(c) + |TextOf(body)| + |ReasoningOf(body)|
    ensures TextOf(Echo(c) + body) == TextOf(Echo(c)) + TextOf(body)
    ensures TextOf(Echo(c)) == if c.TextDelta? then c.text else ""
    ensures AllStreamed(body) ==> AllStreamed(Echo(c) + body)
    ensures TextOf(Echo(c) + body) == "" ==> !c.TextDelta? || c.text == ""
  {
    if Echo(c) == [] {
      assert Echo(c) + body == body;
    } else {
      assert (Echo(c) + body)[1..] == body;
    }
  }

  // ----- when the agent raises instead --------------------------------------------------

  function TotalChars(input: seq<CliEvent>): nat {
    if input == [] then 0 else Chars(input[0]) + TotalChars(input[1..])
  }

  ghost predicate MalformedReached(input: seq<CliEvent>, emitted: nat) {
    exists i :: 0 <= i < |input| && input[i].Malformed? && NothingEndsBefore(input, i, emitted)
  }

  ghost predicate NothingEndsBefore(input: seq<CliEvent>, i: nat, emitted: nat)
    requires i <= |input|
  {
    forall j :: 0 <= j < i ==> !Ends(input[j], emitted + TotalChars(input[..j]))
  }

  /** The terminal is missing exactly when a malformed line is reached first: a
      stream_event whose event or delta, or a plan report whose windows, is not an object;
      a plan report with an integer utilization beyond the doubles; or a line nested too
      deeply for the JSON parser. Every other CLI output ends in one terminal. */
  lemma {:induction false} RaisesIffMalformedReached(input: seq<CliEvent>, emitted: nat, seenText: bool,
          model: Option<string>, classify: Classify)
    ensures RunEvents(input, emitted, seenText, model, classify).raised <==> MalformedReached(input, emitted)
  {
    if input != [] {
      var c := input[0];
      assert input[..0] == [];
      if c.Malformed? {
        assert NothingEndsBefore(input, 0, emitted);
      } else if Ends(c, emitted) {
        assert forall i :: 0 < i <= |input| ==> !NothingEndsBefore(input, i, emitted);
      } else {
        RaisesIffMalformedReached(input[1..], emitted + Chars(c), seenText || c.TextDelta?,
                                  ModelAfter(c, model), classify);
        MalformedShift(input, emitted);
      }
    }
  }

  lemma MalformedShift(input: seq<CliEvent>, emitted: nat)
    requires input != [] && !Ends(input[0], emitted)
    ensures MalformedReached(input, emitted) <==> MalformedReached(input[1..], emitted + Chars(input[0]))
  {
    var rest, e := input[1..], emitted + Chars(input[0]);
    if MalformedReached(input, emitted) {
      var i :| 0 <= i < |input| && input[i].Malformed? && NothingEndsBefore(input, i, emitted);
      assert i > 0 && rest[i - 1] == input[i];
      NothingEndsShift(input, i - 1, emitted);
    }
    if MalformedReached(rest, e) {
      var i :| 0 <= i < |rest| && rest[i].Malformed? && NothingEndsBefore(rest, i, e);
      assert input[i + 1] == rest[i];
      NothingEndsShift(input, i, emitted);
    }
  }

  lemma NothingEndsShift(input: seq<CliEvent>, i: nat, emitted: nat)
    requires input != [] && !Ends(input[0], emitted) && i < |input|
    ensures NothingEndsBefore(input, i + 1, emitted)
       <==> NothingEndsBefore(input[1..], i, emitted + Chars(input[0]))
  {
    var rest, e := input[1..], emitted + Chars(input[0]);
    assert input[..0] == [];
    forall j: nat | j < i
      ensures Ends(rest[j], e + TotalChars(rest[..j])) == Ends(input[j + 1], emitted + TotalChars(input[..j + 1]))
    {
      assert input[..j + 1][1..] == rest[..j];
    }
    if NothingEndsBefore(rest, i, e) {
      forall k | 0 <= k < i + 1
        ensures !Ends(input[k], emitted + TotalChars(input[..k]))
      {
        if k > 0 {
          assert !Ends(rest[k - 1], e + TotalChars(rest[..k - 1]));
        }
      }
    }
  }

  /** CLI lines that end the answer without any terminal: an event that is not an object,
      and a plan report with a utilization beyond the doubles. */
  lemma TerminalCanBeMissing(classify: Classify, n: int)
    requires BeyondDouble(n)
    ensures var line := Line(Some(Obj([Field("type", Str("stream_event")), Field("event", Str("x"))])));
      RunEvents(Parsed([line]), 0, false, None, classify) == Run([], true)
    ensures RunEvents(Parsed([Line(Some(PlanReport(n)))]), 0, false, None, classify) == Run([], true)
  {
    var fields := [Field("type", Str("stream_event")), Field("event", Str("x"))];
    assert fields[1..][0].name == "event" && Get(fields[1..], "event") == Str("x");
    assert Get(fields, "event") == Str("x");
    assert DeltaOf(fields) == Malformed;
    assert Parsed([Line(Some(Obj(fields)))])[0] == Malformed;
    PlanReportRaises(n);
    assert Parsed([Line(Some(PlanReport(n)))])[0] == Malformed;
  }

  function PlanReport(n: int): Json {
    var window := Field("w", Obj([Field("utilization", Int(n))]));
    Obj([Field("type", Str("rate_limit_event")),
         Field("rate_limit_info", Obj([Field("unifiedWindows", Obj([window]))]))])
  }

  lemma PlanReportRaises(n: int)
    requires BeyondDouble(n)
    ensures Parse(Line(Some(PlanReport(n)))) == Malformed
  {
    hide BeyondDouble;
    var window := Field("w", Obj([Field("utilization", Int(n))]));
    assert Get(window.value.fields, "utilization") == Int(n);
    assert "w"[0] == 'w' && PlanChar('w') && PlanName("w");
    assert WindowRaises(window);
    var info := Obj([Field("unifiedWindows", Obj([window]))]);
    assert Get(info.fields, "unifiedWindows") == Obj([window]);
    assert OrEmpty(Obj([window])) == Some([window]) && [window][0] == window;
    assert PlanUsageRaises(info);
    var fields := PlanReport(n).fields;
    assert fields[1..][0] == Field("rate_limit_info", info) && Get(fields[1..], "rate_limit_info") == info;
    assert Get(fields, "rate_limit_info") == info;
  }

  // ----- the controller's adapter ------------------------------------------------------

  datatype FinishReason = STOP | LENGTH | OTHER
  datatype StreamEvent =
    | TextEvent(text: string)
    | ReasoningEvent(text: string)
    | UsageEvent(prompt: Option<nat>, completion: Option<nat>)
    | FinishEvent(reason: FinishReason)

  datatype Failure =
    | SignInNeeded | QuotaExceeded | ModelNotFound | NodeTimeout | ResponseTooLarge
    | NotInstalled | AgentFailed | MalformedResponse

  /** What the adapter yields, and the error that ends it, if any. */
  datatype Stream = Stream(events: seq<StreamEvent>, error: Option<Failure>)

  function AgentError(code: Json): Failure {
    if code == Str("not_signed_in") then SignInNeeded
    else if code == Str("usage_limit") then QuotaExceeded
    else if code == Str("model_unavailable") then ModelNotFound
    else if code == Str("timeout") then NodeTimeout
    else if code == Str("output_too_large") then ResponseTooLarge
    else if code == Str("not_installed") then NotInstalled
    else AgentFailed
  }

  /** as_count: a non-negative number, truncated. */
  function AsCount(j: Json): Option<nat> {
    match j
    case Int(n) => if n >= 0 then Some(n) else None
    case Float(r) => if r >= 0.0 then Some(r.Floor) else None
    case _ => None
  }

  function FinishOf(reason: Json): FinishReason {
    if reason == Str("stop") then STOP else if reason == Str("length") then LENGTH else OTHER
  }

  datatype LineResult = Ignored | Yields(event: StreamEvent) | Fails(failure: Failure)

  /** One nonblank line of the body, parsed. */
  function Interpret(parsed: Option<Json>): LineResult {
    if parsed.None? || !parsed.value.Obj? then Fails(MalformedResponse)
    else
      var event := parsed.value.fields;
      var kind, text := Get(event, "type"), Get(event, "text");
      if kind == Str("text") && text.Str? then Yields(TextEvent(text.s))
      else if kind == Str("reasoning") && text.Str? then Yields(ReasoningEvent(text.s))
      else if kind == Str("usage") then
        Yields(UsageEvent(AsCount(Get(event, "input_tokens")), AsCount(Get(event, "output_tokens"))))
      else if kind == Str("finish") then Yields(FinishEvent(FinishOf(Get(event, "reason"))))
      else if kind == Str("error") then Fails(AgentError(Get(event, "code")))
      else Ignored
  }

  type Loads = string -> Option<Json>
  type Blank = string -> bool

  /** The adapter over the remaining lines; tooLarge says the line splitter then raises. */
  function Adapt(lines: seq<string>, tooLarge: bool, finished: bool, loads: Loads, blank: Blank): Stream {
    if lines == [] then
      Stream([], if tooLarge then Some(ResponseTooLarge) else if finished then None else Some(MalformedResponse))
    else if blank(lines[0]) then Adapt(lines[1..], tooLarge, finished, loads, blank)
    else
      match Interpret(loads(lines[0]))
      case Ignored => Adapt(lines[1..], tooLarge, finished, loads, blank)
      case Fails(failure) => Stream([], Some(failure))
      case Yields(event) =>
        var s := Adapt(lines[1..], tooLarge, finished || event.FinishEvent?, loads, blank);
        Stream([event] + s.events, s.error)
  }

  /** ClaudeSubscriptionAdapter.stream */
  method AdapterStream(lines: seq<string>, tooLarge: bool, loads: Loads, blank: Blank)
    returns (events: seq<StreamEvent>, error: Option<Failure>)
    ensures Stream(events, error) == Adapt(lines, tooLarge, false, loads, blank)
  {
    events := [];
    var finished := false;
    for n := 0 to |lines|
      invariant var s := Adapt(lines[n..], tooLarge, finished, loads, blank);
        Adapt(lines, tooLarge, false, loads, blank) == Stream(events + s.events, s.error)
    {
      assert lines[n..][0] == lines[n] && lines[n..][1..] == lines[n + 1..];
      if blank(lines[n]) {
        continue;
      }
      match Interpret(loads(lines[n])) {
        case Ignored =>
        case Fails(failure) =>
          return events, Some(failure);
        case Yields(event) =>
          finished := finished || event.FinishEvent?;
          Assoc(events, [event], Adapt(lines[n + 1..], tooLarge, finished, loads, blank).events);
          events := events + [event];
      }
    }
    error := if tooLarge then Some(ResponseTooLarge) else if finished then None else Some(MalformedResponse);
  }

  // ----- folding the stream into a response ----------------------------------------------

  datatype Response = Response(
    content: string, reasoning: Option<string>, finish: FinishReason, prompt: Option<nat>, completion: Option<nat>)

  function TextIn(e: StreamEvent): string {
    if e.TextEvent? then e.text else ""
  }

  function ReasoningIn(e: StreamEvent): string {
    if e.ReasoningEvent? then e.text else ""
  }

  function Texts(events: seq<StreamEvent>): string {
    if events == [] then "" else TextIn(events[0]) + Texts(events[1..])
  }

  function Reasonings(events: seq<StreamEvent>): string {
    if events == [] then "" else ReasoningIn(events[0]) + Reasonings(events[1..])
  }

  /** The last finish and the last usage decide; before any, OTHER and no counts. */
  function LastFinish(events: seq<StreamEvent>): FinishReason {
    if events == [] then OTHER
    else if events[|events| - 1].FinishEvent? then events[|events| - 1].reason
    else LastFinish(events[..|events| - 1])
  }

  function LastUsage(events: seq<StreamEvent>): (Option<nat>, Option<nat>) {
    if events == [] then (None, None)
    else if events[|events| - 1].UsageEvent? then (events[|events| - 1].prompt, events[|events| - 1].completion)
    else LastUsage(events[..|events| - 1])
  }

  function Folded(events: seq<StreamEvent>): Response {
    Response(Texts(events), if Reasonings(events) == "" then None else Some(Reasonings(events)),
             LastFinish(events), LastUsage(events).0, LastUsage(events).1)
  }

  /** The reason of the last finish event. */
  lemma {:induction false} LastFinishIs(events: seq<StreamEvent>, k: nat)
    requires k < |events| && events[k].FinishEvent? && forall j :: k < j < |events| ==> !events[j].FinishEvent?
    ensures LastFinish(events) == events[k].reason
    decreases |events|
  {
    if k < |events| - 1 {
      LastFinishIs(events[..|events| - 1], k);
    }
  }

  /** The counts of the last usage event. */
  lemma {:induction false} LastUsageIs(events: seq<StreamEvent>, k: nat)
    requires k < |events| && events[k].UsageEvent? && forall j :: k < j < |events| ==> !events[j].UsageEvent?
    ensures LastUsage(events) == (events[k].prompt, events[k].completion)
    decreases |events|
  {
    if k < |events| - 1 {
      LastUsageIs(events[..|events| - 1], k);
    }
  }

  lemma {:induction false} TextsAppend(a: seq<StreamEvent>, b: seq<StreamEvent>)
    ensures Texts(a + b) == Texts(a) + Texts(b)
    ensures Reasonings(a + b) == Reasonings(a) + Reasonings(b)
  {
    if a == [] {
      assert a + b == b;
    } else {
      assert (a + b)[1..] == a[1..] + b;
      TextsAppend(a[1..], b);
      Assoc(TextIn(a[0]), Texts(a[1..]), Texts(b));
      Assoc(ReasoningIn(a[0]), Reasonings(a[1..]), Reasonings(b));
    }
  }

  /** One more event. */
  lemma FoldStep(before: seq<StreamEvent>, e: StreamEvent)
    ensures Texts(before + [e]) == Texts(before) + TextIn(e)
    ensures Reasonings(before + [e]) == Reasonings(before) + ReasoningIn(e)
    ensures LastFinish(before + [e]) == if e.FinishEvent? then e.reason else LastFinish(before)
    ensures LastUsage(before + [e]) == if e.UsageEvent? then (e.prompt, e.completion) else LastUsage(before)
  {
    TextsAppend(before, [e]);
    assert [e][1..] == [] && (before + [e])[..|before|] == before;
  }

  /** collect */
  method Collect(events: seq<StreamEvent>) returns (r: Response)
    ensures r == Folded(events)
  {
    var text, reasoning := "", "";
    var finish, usage := OTHER, (None, None);
    assert Texts([]) == "" && Reasonings([]) == "" && LastFinish([]) == OTHER && LastUsage([]) == (None, None);
    hide Texts, Reasonings, LastFinish, LastUsage;
    for n := 0 to |events|
      invariant text == Texts(events[..n]) && reasoning == Reasonings(events[..n])
      invariant finish == LastFinish(events[..n]) && usage == LastUsage(events[..n])
    {
      var event := events[n];
      assert events[..n + 1] == events[..n] + [event];
      FoldStep(events[..n], event);
      match event {
        case TextEvent(t) => text := text + t;
        case ReasoningEvent(t) => reasoning := reasoning + t;
        case UsageEvent(p, c) => usage := (p, c);
        case FinishEvent(f) => finish := f;
      }
    }
    assert events[..|events|] == events;
    r := Response(text, if reasoning == "" then None else Some(reasoning), finish, usage.0, usage.1);
  }

  // ----- between the two: NDJSON ------------------------------------------------------------

  /** How the agent prints: json.dumps, and the message it sends along with an error code. */
  datatype Dumps = Dumps(json: Json -> Bytes, message: string -> string)

  function ToJson(e: AgentEvent, message: string -> string): Json {
    match e
    case Start(model) => Obj([Field("type", Str("start")), Field("model", Str(model))])
    case Text(text) => Obj([Field("type", Str("text")), Field("text", Str(text))])
    case Reasoning(text) => Obj([Field("type", Str("reasoning")), Field("text", Str(text))])
    case UsageOf(input, output) =>
      Obj([Field("type", Str("usage")), Field("input_tokens", Int(input)), Field("output_tokens", Int(output))])
    case Finish(reason, model) =>
      Obj([Field("type", Str("finish")), Field("reason", Str(reason)),
           Field("model", if model.Some? then Str(model.value) else Null)])
    case Error(code) =>
      Obj([Field("type", Str("error")), Field("code", Str(code)), Field("message", Str(message(code)))])
  }

  function Print(e: AgentEvent, dumps: Dumps): Bytes {
    dumps.json(ToJson(e, dumps.message))
  }

  /** What the pipeline needs of JSON, for the events the agent prints: loads undoes dumps, a
      printed object has no CR or LF, and no proper start of one is blank or JSON. */
  ghost predicate JsonCodec(dumps: Dumps, loads: Loads, decode: Bytes -> string, blank: Blank) {
    forall e: AgentEvent :: PrintsWell(e, dumps, loads, decode, blank)
  }

  ghost predicate PrintsWell(e: AgentEvent, dumps: Dumps, loads: Loads, decode: Bytes -> string, blank: Blank) {
    var b := Print(e, dumps);
    && b != [] && Lacks(b, LF) && Lacks(b, CR)
    && loads(decode(b)) == Some(ToJson(e, dumps.message))
    && forall n :: 0 < n <= |b| ==>
      && !blank(decode(b[..n]))
      && (n < |b| ==> loads(decode(b[..n])) == None)
  }

  function Printed(events: seq<AgentEvent>, dumps: Dumps): seq<Bytes> {
    seq(|events|, k requires 0 <= k < |events| => Print(events[k], dumps))
  }

  /** The body the agent sends: one JSON object a line. */
  function Ndjson(events: seq<AgentEvent>, dumps: Dumps): Bytes {
    Terminate(Printed(events, dumps))
  }

  /** What the adapter makes of each agent event. */
  function Meaning(e: AgentEvent): LineResult {
    match e
    case Start(_) => Ignored
    case Text(text) => Yields(TextEvent(text))
    case Reasoning(text) => Yields(ReasoningEvent(text))
    case UsageOf(input, output) => Yields(UsageEvent(Some(input), Some(output)))
    case Finish(reason, _) => Yields(FinishEvent(FinishOf(Str(reason))))
    case Error(code) => Fails(AgentError(Str(code)))
  }

  function Meanings(events: seq<AgentEvent>): seq<StreamEvent> {
    if events == [] then []
    else (if Meaning(events[0]).Yields? then [Meaning(events[0]).event] else []) + Meanings(events[1..])
  }

  lemma InterpretJson(e: AgentEvent, message: string -> string)
    ensures ToJson(e, message).Obj? && Interpret(Some(ToJson(e, message))) == Meaning(e)
  {
    var f := ToJson(e, message).fields;
    assert Get(f, "type") == f[0].value;
    GetSecond(f);
    if |f| == 3 {
      GetThird(f);
    }
  }

  lemma GetSecond(f: seq<Field>)
    requires |f| >= 2 && f[0].name != f[1].name
    ensures Get(f, f[1].name) == f[1].value
  {
    assert f[1..][0] == f[1];
  }

  lemma GetThird(f: seq<Field>)
    requires |f| >= 3 && f[0].name != f[2].name && f[1].name != f[2].name
    ensures Get(f, f[2].name) == f[2].value
  {
    var rest := f[1..];
    assert rest[0] == f[1] && rest[1..][0] == f[2];
    assert Get(rest[1..], f[2].name) == f[2].value;
    assert Get(rest, f[2].name) == f[2].value;
  }

  // ----- end to end --------------------------------------------------------------------------

  function Decode(events: seq<AgentEvent>, dumps: Dumps, decode: Bytes -> string): seq<string> {
    seq(|events|, k requires 0 <= k < |events| => decode(Print(events[k], dumps)))
  }

  lemma PrintedIsClean(events: seq<AgentEvent>, dumps: Dumps, loads: Loads, decode: Bytes -> string, blank: Blank)
    requires JsonCodec(dumps, loads, decode, blank)
    ensures LfFree(Printed(events, dumps))
    ensures Decoded(Printed(events, dumps), decode) == Decode(events, dumps, decode)
  {
    hide Print;
    forall k | 0 <= k < |events|
      ensures Lacks(Printed(events, dumps)[k], LF)
      ensures TrimCr(Printed(events, dumps)[k]) == Print(events[k], dumps)
    {
      assert PrintsWell(events[k], dumps, loads, decode, blank);
      TrimCrKeeps(Print(events[k], dumps));
    }
  }

  /** A broken-off last line, if there is one: not blank and not JSON. */
  ghost predicate Junk(rest: seq<string>, loads: Loads, blank: Blank) {
    rest == [] || (|rest| == 1 && !blank(rest[0]) && loads(rest[0]) == None)
  }

  /** What any start of the NDJSON body gives: the first m events, then perhaps junk.
      Everything arrives exactly when at most the last line feed is missing. */
  lemma CutBody(events: seq<AgentEvent>, b: Bytes, dumps: Dumps, loads: Loads, decode: Bytes -> string, blank: Blank)
    returns (m: nat, rest: seq<string>)
    requires JsonCodec(dumps, loads, decode, blank) && b <= Ndjson(events, dumps)
    ensures m <= |events| && Junk(rest, loads, blank)
    ensures TextLines(b, decode) == Decode(events[..m], dumps, decode) + rest
    ensures m == |events| <==> |b| >= |Ndjson(events, dumps)| - 1
    ensures m == |events| ==> rest == []
  {
    hide Print;
    PrintedIsClean(events, dumps, loads, decode, blank);
    var lines := Printed(events, dumps);
    var k := CutTerminated(lines, b);
    CutLengths(lines, b, k);
    PrintedIsClean(events[..k], dumps, loads, decode, blank);
    assert Printed(events[..k], dumps) == lines[..k];
    m, rest := k, [];
    var tail := Tail(b);
    if tail != [] {
      CutTail(events[k], tail, dumps, loads, decode, blank);
      if tail == lines[k] {
        m := k + 1;
        DecodeOneMore(events, k, dumps, decode);
      } else {
        rest := [decode(tail)];
      }
    } else if k < |events| {
      assert PrintsWell(events[k], dumps, loads, decode, blank);
    }
  }

  /** The start of a printed event, cut short, is nothing the adapter can use. */
  lemma CutTail(e: AgentEvent, tail: Bytes, dumps: Dumps, loads: Loads, decode: Bytes -> string, blank: Blank)
    requires JsonCodec(dumps, loads, decode, blank) && tail != [] && tail <= Print(e, dumps)
    ensures TrimCr(tail) == tail
    ensures tail != Print(e, dumps) ==> Junk([decode(tail)], loads, blank)
  {
    hide Print;
    assert PrintsWell(e, dumps, loads, decode, blank);
    var p := Print(e, dumps);
    assert tail == p[..|tail|];
    PrefixWithout(p, tail, CR);
    TrimCrKeeps(tail);
  }

  lemma DecodeOneMore(events: seq<AgentEvent>, k: nat, dumps: Dumps, decode: Bytes -> string)
    requires k < |events|
    ensures Decode(events[..k + 1], dumps, decode)
         == Decode(events[..k], dumps, decode) + [decode(Print(events[k], dumps))]
  {
    hide Print;
  }

  /** How long a start of the body is, by where it was cut. */
  lemma {:induction false} CutLengths(lines: seq<Bytes>, b: Bytes, k: nat)
    requires k <= |lines| && |b| == |Terminate(lines[..k])| + |Tail(b)|
    requires k == |lines| ==> Tail(b) == []
    requires k < |lines| ==> |Tail(b)| <= |lines[k]|
    ensures |b| >= |Terminate(lines)| - 1 <==>
      k == |lines| || (k == |lines| - 1 && |Tail(b)| == |lines[k]|)
  {
    assert lines == lines[..k] + lines[k..];
    TerminateAppend(lines[..k], lines[k..]);
    if k < |lines| {
      TerminateFirst(lines[k..]);
    }
  }

  lemma TerminateFirst(lines: seq<Bytes>)
    requires lines != []
    ensures |Terminate(lines)| >= |lines[0]| + 1
    ensures |Terminate(lines)| == |lines[0]| + 1 <==> |lines| == 1
  {
  }

  ghost predicate NoError(events: seq<AgentEvent>) {
    forall k :: 0 <= k < |events| ==> !events[k].Error?
  }

  predicate HasFinish(events: seq<AgentEvent>) {
    exists k :: 0 <= k < |events| && events[k].Finish?
  }

  /** The adapter over whole printed events does what each of them means. */
  lemma {:induction false} AdaptGood(
      events: seq<AgentEvent>, more: seq<string>, tooLarge: bool, finished: bool,
      dumps: Dumps, loads: Loads, decode: Bytes -> string, blank: Blank)
    requires JsonCodec(dumps, loads, decode, blank) && NoError(events)
    ensures var s := Adapt(more, tooLarge, finished || HasFinish(events), loads, blank);
      Adapt(Decode(events, dumps, decode) + more, tooLarge, finished, loads, blank)
      == Stream(Meanings(events) + s.events, s.error)
  {
    hide ToJson, Interpret;
    var lines := Decode(events, dumps, decode);
    if events == [] {
      assert lines + more == more;
      var s := Adapt(more, tooLarge, finished, loads, blank);
      assert [] + s.events == s.events;
    } else {
      var e, later := events[0], events[1..];
      OneLine(e, dumps, loads, decode, blank);
      assert lines + more == [lines[0]] + (Decode(later, dumps, decode) + more);
      assert (lines + more)[1..] == Decode(later, dumps, decode) + more;
      var finished' := finished || e.Finish?;
      AdaptGood(later, more, tooLarge, finished', dumps, loads, decode, blank);
      assert HasFinish(events) <==> e.Finish? || HasFinish(later) by {
        assert forall k :: 0 <= k < |later| ==> later[k] == events[k + 1];
        assert forall k :: 0 < k < |events| ==> events[k] == later[k - 1];
      }
      var s := Adapt(more, tooLarge, finished' || HasFinish(later), loads, blank);
      Assoc(if Meaning(e).Yields? then [Meaning(e).event] else [], Meanings(later), s.events);
      if !Meaning(e).Yields? {
        assert [] + (Meanings(later) + s.events) == Meanings(later) + s.events;
      }
    }
  }

  lemma OneLine(e: AgentEvent, dumps: Dumps, loads: Loads, decode: Bytes -> string, blank: Blank)
    requires JsonCodec(dumps, loads, decode, blank)
    ensures var line := decode(Print(e, dumps));
      !blank(line) && Interpret(loads(line)) == Meaning(e)
  {
    hide Interpret, ToJson;
    InterpretJson(e, dumps.message);
    assert PrintsWell(e, dumps, loads, decode, blank);
    var p := Print(e, dumps);
    assert p[..|p|] == p;
  }

  /** Finished with an answer, as opposed to an error or an exception. */
  predicate Answered(r: Run) {
    !r.raised && r.events != [] && r.events[|r.events| - 1].Finish?
  }

  lemma {:induction false} TooLargeRaises(lines: seq<string>, finished: bool, loads: Loads, blank: Blank)
    ensures Adapt(lines, true, finished, loads, blank).error.Some?
  {
    if lines != [] {
      hide Interpret;
      TooLargeRaises(lines[1..], finished, loads, blank);
      TooLargeRaises(lines[1..], true, loads, blank);
    }
  }

  /** Without a finish, whatever is left of the body is an error. */
  lemma UnfinishedRaises(events: seq<AgentEvent>, rest: seq<string>,
                         dumps: Dumps, loads: Loads, decode: Bytes -> string, blank: Blank)
    requires JsonCodec(dumps, loads, decode, blank) && Junk(rest, loads, blank)
    requires NoError(events) && !HasFinish(events)
    ensures Adapt(Decode(events, dumps, decode) + rest, false, false, loads, blank).error == Some(MalformedResponse)
  {
    AdaptGood(events, rest, false, false, dumps, loads, decode, blank);
  }

  lemma ErrorRaises(body: seq<AgentEvent>, code: string,
                    dumps: Dumps, loads: Loads, decode: Bytes -> string, blank: Blank)
    requires JsonCodec(dumps, loads, decode, blank) && NoError(body)
    ensures Adapt(Decode(body + [Error(code)], dumps, decode), false, false, loads, blank).error
         == Some(AgentError(Str(code)))
  {
    hide ToJson, Interpret, AgentError;
    var line := [decode(Print(Error(code), dumps))];
    assert Decode(body + [Error(code)], dumps, decode) == Decode(body, dumps, decode) + line;
    OneLine(Error(code), dumps, loads, decode, blank);
    AdaptGood(body, line, false, false, dumps, loads, decode, blank);
  }

  /** Only the last event of a run can be an error or the finish. */
  lemma OnlyTheLast(input: seq<CliEvent>, classify: Classify)
    ensures var events := RunEvents(input, 0, false, None, classify).events;
      forall k :: 0 <= k < |events| - 1 ==> !events[k].Error? && !events[k].Finish?
    ensures var r := RunEvents(input, 0, false, None, classify);
      if r.raised then AllStreamed(r.events)
      else r.events != [] && (r.events[|r.events| - 1].Error? || r.events[|r.events| - 1].Finish?)
  {
    var body, terminal := AgentShape(input, 0, false, None, classify);
    hide RunEvents, TextOf, ReasoningOf;
    if terminal != [] {
      LastIsTerminal(body, terminal);
    } else {
      assert body + terminal == body;
    }
  }

  lemma LastIsTerminal(body: seq<AgentEvent>, terminal: seq<AgentEvent>)
    requires AllStreamed(body) && IsTerminal(terminal)
    ensures var events := body + terminal;
      && (events[|events| - 1].Error? || events[|events| - 1].Finish?)
      && forall k :: 0 <= k < |events| - 1 ==> !events[k].Error? && !events[k].Finish?
  {
    var events := body + terminal;
    forall k | 0 <= k < |events| - 1
      ensures !events[k].Error? && !events[k].Finish?
    {
      assert k < |body| ==> events[k] == body[k] && Streamed(body[k]);
      assert k >= |body| ==> events[k] == terminal[k - |body|];
    }
  }

  /** The adapter accepts exactly a whole answer: the run finished, at most the last
      line feed was lost, and no size cap tripped. Then it yields each event's meaning. */
  lemma AdapterOutcome(
      input: seq<CliEvent>, classify: Classify, b: Bytes, lines: seq<string>, tooLarge: bool,
      dumps: Dumps, loads: Loads, decode: Bytes -> string, blank: Blank)
    requires JsonCodec(dumps, loads, decode, blank)
    requires b <= Ndjson(RunEvents(input, 0, false, None, classify).events, dumps)
    requires !tooLarge ==> lines == TextLines(b, decode)
    ensures var r := RunEvents(input, 0, false, None, classify);
      var s := Adapt(lines, tooLarge, false, loads, blank);
      && (s.error.None? <==> !tooLarge && Answered(r) && |b| >= |Ndjson(r.events, dumps)| - 1)
      && (s.error.None? ==> s.events == Meanings(r.events))
  {
    hide RunEvents, Ndjson, TextLines, Interpret, ToJson;
    var r := RunEvents(input, 0, false, None, classify);
    var events := r.events;
    OnlyTheLast(input, classify);
    if tooLarge {
      TooLargeRaises(lines, false, loads, blank);
    } else {
      var m, rest := CutBody(events, b, dumps, loads, decode, blank);
      assert Decode(events[..m], dumps, decode) + [] == Decode(events[..m], dumps, decode);
      if m < |events| || r.raised {
        UnfinishedRaises(events[..m], rest, dumps, loads, decode, blank);
      } else if Answered(r) {
        assert events[..m] == events;
        assert HasFinish(events);
        AdaptGood(events, [], false, false, dumps, loads, decode, blank);
        assert Meanings(events) + [] == Meanings(events);
      } else {
        var body, code := events[..m - 1], events[m - 1].code;
        assert events[..m] == body + [Error(code)];
        ErrorRaises(body, code, dumps, loads, decode, blank);
      }
    }
  }

  lemma {:induction false} MeaningsKeepText(events: seq<AgentEvent>)
    ensures Texts(Meanings(events)) == TextOf(events)
    ensures Reasonings(Meanings(events)) == ReasoningOf(events)
  {
    if events != [] {
      hide FinishOf, AgentError;
      var e := events[0];
      MeaningsKeepText(events[1..]);
      var head := if Meaning(e).Yields? then [Meaning(e).event] else [];
      TextsAppend(head, Meanings(events[1..]));
      assert head != [] ==> head[1..] == [];
    }
  }

  lemma {:induction false} MeaningsAppend(a: seq<AgentEvent>, b: seq<AgentEvent>)
    ensures Meanings(a + b) == Meanings(a) + Meanings(b)
  {
    if a == [] {
      assert a + b == b;
    } else {
      assert (a + b)[1..] == a[1..] + b;
      MeaningsAppend(a[1..], b);
      Assoc(if Meaning(a[0]).Yields? then [Meaning(a[0]).event] else [], Meanings(a[1..]), Meanings(b));
    }
  }

  /** The response of an answered run: its text, reasoning, counts and stop reason. */
  ghost predicate IsAnswerOf(response: Response, events: seq<AgentEvent>) {
    && |events| >= 2
    && events[|events| - 2].UsageOf? && events[|events| - 1].Finish?
    && response.content == TextOf(events)
    && response.reasoning == (if ReasoningOf(events) == "" then None else Some(ReasoningOf(events)))
    && response.prompt == Some(events[|events| - 2].input)
    && response.completion == Some(events[|events| - 2].output)
    && response.finish == FinishOf(Str(events[|events| - 1].reason))
  }

  lemma AnswerOfRun(input: seq<CliEvent>, classify: Classify)
    requires Answered(RunEvents(input, 0, false, None, classify))
    ensures var events := RunEvents(input, 0, false, None, classify).events;
      IsAnswerOf(Folded(Meanings(events)), events)
  {
    var events := RunEvents(input, 0, false, None, classify).events;
    AnsweredShape(input, classify);
    hide *;
    FoldedIsAnswer(events);
  }

  lemma AnsweredShape(input: seq<CliEvent>, classify: Classify)
    requires Answered(RunEvents(input, 0, false, None, classify))
    ensures UsageThenFinish(RunEvents(input, 0, false, None, classify).events)
  {
    var body, terminal := AgentShape(input, 0, false, None, classify);
    hide RunEvents, TextOf, ReasoningOf, AllStreamed;
  }

  predicate UsageThenFinish(events: seq<AgentEvent>) {
    |events| >= 2 && events[|events| - 2].UsageOf? && events[|events| - 1].Finish?
  }

  lemma FoldedIsAnswer(events: seq<AgentEvent>)
    requires UsageThenFinish(events)
    ensures IsAnswerOf(Folded(Meanings(events)), events)
  {
    hide FinishOf, Meanings, TextOf, ReasoningOf, LastFinish, LastUsage, Texts, Reasonings;
    MeaningsKeepText(events);
    LastTwo(events);
  }

  lemma LastTwo(events: seq<AgentEvent>)
    requires UsageThenFinish(events)
    ensures LastFinish(Meanings(events)) == FinishOf(Str(events[|events| - 1].reason))
    ensures LastUsage(Meanings(events)) == (Some(events[|events| - 2].input), Some(events[|events| - 2].output))
  {
    var u, f := events[|events| - 2], events[|events| - 1];
    var before := events[..|events| - 2];
    SplitLastTwo(events);
    MeaningsOfTwo(before, u, f);
    var usage, finish := Meaning(u).event, Meaning(f).event;
    assert usage == UsageEvent(Some(u.input), Some(u.output)) && finish == FinishEvent(FinishOf(Str(f.reason)));
    hide *;
    LastOf(Meanings(before), usage, finish);
  }

  lemma SplitLastTwo(events: seq<AgentEvent>)
    requires |events| >= 2
    ensures events == (events[..|events| - 2] + [events[|events| - 2]]) + [events[|events| - 1]]
  {
  }

  lemma MeaningsOfTwo(before: seq<AgentEvent>, u: AgentEvent, f: AgentEvent)
    requires Meaning(u).Yields? && Meaning(f).Yields?
    ensures Meanings((before + [u]) + [f]) == (Meanings(before) + [Meaning(u).event]) + [Meaning(f).event]
  {
    MeaningsOfOne(u);
    MeaningsOfOne(f);
    hide *;
    MeaningsAppend(before + [u], [f]);
    MeaningsAppend(before, [u]);
  }

  lemma MeaningsOfOne(e: AgentEvent)
    requires Meaning(e).Yields?
    ensures Meanings([e]) == [Meaning(e).event]
  {
    hide Meaning;
    assert [e][1..] == [];
  }

  lemma LastOf(events: seq<StreamEvent>, usage: StreamEvent, finish: StreamEvent)
    requires usage.UsageEvent? && finish.FinishEvent?
    ensures LastFinish((events + [usage]) + [finish]) == finish.reason
    ensures LastUsage((events + [usage]) + [finish]) == (usage.prompt, usage.completion)
  {
    var all := (events + [usage]) + [finish];
    assert all[..|all| - 1] == events + [usage];
    assert LastUsage(events + [usage]) == (usage.prompt, usage.completion);
  }

  /** The text deltas of the CLI, in order. */
  function DeltaText(input: seq<CliEvent>): string {
    if input == [] then "" else (if input[0].TextDelta? then input[0].text else "") + DeltaText(input[1..])
  }

  /** The deltas or, when there were none, the text of the result line, cut at the cap. */
  function AnswerText(seenText: bool, deltas: string, result: seq<Field>): string {
    deltas + if seenText || deltas != "" then "" else Take(ResultText(result), MAX_OUTPUT_CHARS)
  }

  ghost predicate NoEmptyDeltas(input: seq<CliEvent>) {
    forall k :: 0 <= k < |input| && input[k].TextDelta? ==> input[k].text != ""
  }

  lemma NoEmptyDeltasAfter(input: seq<CliEvent>)
    requires NoEmptyDeltas(input) && input != []
    ensures NoEmptyDeltas(input[1..]) && (input[0].TextDelta? ==> input[0].text != "")
  {
  }

  /** Where an answer's text comes from: the text deltas before the result line, or the
      result line itself. */
  lemma {:induction false} ContentOfRun(input: seq<CliEvent>, emitted: nat, seenText: bool, model: Option<string>,
          classify: Classify)
    returns (n: nat)
    requires Answered(RunEvents(input, emitted, seenText, model, classify))
    requires NoEmptyDeltas(input)
    ensures n < |input| && input[n].ResultLine?
    ensures TextOf(RunEvents(input, emitted, seenText, model, classify).events)
         == AnswerText(seenText, DeltaText(input[..n]), input[n].fields)
  {
    assert input != [];
    NoEmptyDeltasAfter(input);
    hide *;
    if Ends(input[0], emitted) {
      n := 0;
      ContentAtEnd(input, emitted, seenText, model, classify);
    } else {
      var c := input[0];
      RestAnswered(input, emitted, seenText, model, classify);
      n := ContentOfRun(input[1..], emitted + Chars(c), seenText || c.TextDelta?, ModelAfter(c, model), classify);
      ContentStep(input, n, emitted, seenText, model, classify);
      n := n + 1;
    }
  }

  lemma RestAnswered(input: seq<CliEvent>, emitted: nat, seenText: bool, model: Option<string>, classify: Classify)
    requires input != [] && !Ends(input[0], emitted)
    requires Answered(RunEvents(input, emitted, seenText, model, classify))
    ensures var c := input[0];
      Answered(RunEvents(input[1..], emitted + Chars(c), seenText || c.TextDelta?, ModelAfter(c, model), classify))
  {
    var c := input[0];
    hide *;
    NextEvent(input, emitted, seenText, model, classify);
    StillAnswered(c, RunEvents(input[1..], emitted + Chars(c), seenText || c.TextDelta?, ModelAfter(c, model),
                               classify));
  }

  lemma ContentStep(input: seq<CliEvent>, n: nat, emitted: nat, seenText: bool, model: Option<string>,
                    classify: Classify)
    requires input != [] && !Ends(input[0], emitted) && (input[0].TextDelta? ==> input[0].text != "")
    requires n < |input[1..]| && input[1..][n].ResultLine?
    requires var c := input[0];
      var r := RunEvents(input[1..], emitted + Chars(c), seenText || c.TextDelta?, ModelAfter(c, model), classify);
      TextOf(r.events)
      == AnswerText(seenText || c.TextDelta?, DeltaText(input[1..][..n]), input[1..][n].fields)
    ensures n + 1 < |input| && input[n + 1].ResultLine?
    ensures TextOf(RunEvents(input, emitted, seenText, model, classify).events)
         == AnswerText(seenText, DeltaText(input[..n + 1]), input[n + 1].fields)
  {
    var c := input[0];
    hide *;
    NextEvent(input, emitted, seenText, model, classify);
    var r := RunEvents(input[1..], emitted + Chars(c), seenText || c.TextDelta?, ModelAfter(c, model), classify);
    Grow(c, r.events);
    AnswerTextStep(input, n, seenText);
  }

  lemma AnswerTextStep(input: seq<CliEvent>, n: nat, seenText: bool)
    requires input != [] && n < |input[1..]| && input[1..][n].ResultLine?
    requires input[0].TextDelta? ==> input[0].text != ""
    ensures n + 1 < |input| && input[n + 1].ResultLine?
    ensures TextOf(Echo(input[0]))
            + AnswerText(seenText || input[0].TextDelta?, DeltaText(input[1..][..n]), input[1..][n].fields)
         == AnswerText(seenText, DeltaText(input[..n + 1]), input[n + 1].fields)
  {
    hide Echo, TextOf, DeltaText, Take, ResultText;
    DeltaTextStep(input, n);
    var deltas := DeltaText(input[1..][..n]);
    var fallback := Take(ResultText(input[n + 1].fields), MAX_OUTPUT_CHARS);
    Assoc(TextOf(Echo(input[0])), deltas, if seenText || input[0].TextDelta? || deltas != "" then "" else fallback);
  }

  lemma StillAnswered(c: CliEvent, r: Run)
    requires Answered(Run(Echo(c) + r.events, r.raised))
    ensures Answered(r)
  {
    EchoDoesNotFinish(c, r.events);
    hide Echo;
  }

  lemma ContentAtEnd(input: seq<CliEvent>, emitted: nat, seenText: bool, model: Option<string>, classify: Classify)
    requires Answered(RunEvents(input, emitted, seenText, model, classify)) && input != [] && Ends(input[0], emitted)
    ensures input[0].ResultLine?
    ensures TextOf(RunEvents(input, emitted, seenText, model, classify).events)
         == AnswerText(seenText, DeltaText(input[..0]), input[0].fields)
  {
    hide ResultText, Take, ResultEvents, TextOf;
    TextOfResult(input[0].fields, seenText, model, classify);
    NoDeltas(input);
  }

  lemma NoDeltas(input: seq<CliEvent>)
    ensures DeltaText(input[..0]) == ""
  {
  }

  lemma DeltaTextStep(input: seq<CliEvent>, n: nat)
    requires input != [] && n < |input[1..]| && (input[0].TextDelta? ==> input[0].text != "")
    ensures DeltaText(input[..n + 1]) == TextOf(Echo(input[0])) + DeltaText(input[1..][..n])
    ensures input[n + 1] == input[1..][n]
    ensures input[0].TextDelta? ==> DeltaText(input[..n + 1]) != ""
    ensures !input[0].TextDelta? ==> DeltaText(input[..n + 1]) == DeltaText(input[1..][..n])
  {
    assert input[..n + 1][1..] == input[1..][..n];
    Grow(input[0], []);
  }

  lemma EchoDoesNotFinish(c: CliEvent, events: seq<AgentEvent>)
    requires Echo(c) + events != [] && (Echo(c) + events)[|Echo(c) + events| - 1].Finish?
    ensures events != [] && events[|events| - 1].Finish?
  {
  }

  lemma TextOfResult(fields: seq<Field>, seenText: bool, model: Option<string>, classify: Classify)
    requires Answered(Run(ResultEvents(fields, seenText, model, classify), false))
    ensures TextOf(ResultEvents(fields, seenText, model, classify))
         == if seenText then "" else Take(ResultText(fields), MAX_OUTPUT_CHARS)
  {
    hide ResultText, Succeeded, Get, Count, StopReason, FieldsOf;
    var events := ResultEvents(fields, seenText, model, classify);
    var u, f := events[|events| - 2], events[|events| - 1];
    assert [u, f][1..] == [f] && [f][1..] == [];
    assert TextOf([f]) == "" && TextOf([u, f]) == "";
    if |events| == 3 {
      assert events[1..] == [u, f];
    } else {
      assert events == [u, f];
    }
  }
}
