/** What one step of a workflow does, told from the replies to its calls and the texts it
    sends, without the executor's own functions (backend/app/services/workflow.py). */
module WorkflowMeaning {
  import opened Prelude
  import opened WorkflowSchema
  import opened WorkflowSpec
  import opened WorkflowInvariants

  // ----- conditions --------------------------------------------------------------------------------

  /** Reading a step's output: the recorded one, and nothing when there is none. */
  predicate ReadsAs(context: Context, id: string, text: string) {
    text == if id in context then context[id] else ""
  }

  ghost predicate Contained(context: Context, id: string, text: string) {
    exists u: string, v: string :: ReadsAs(context, id, u + text + v)
  }

  /** A step is skipped when what its condition reads is not the text, or does not contain it. */
  ghost predicate IsSkipped(step: StepDef, context: Context) {
    && step.when.Some?
    && match step.when.value
       case Equals(id, text) => !ReadsAs(context, id, text)
       case Contains(id, text) => !Contained(context, id, text)
  }

  lemma {:induction false} OccursSomewhere(text: string, inside: string)
    returns (u: string, v: string)
    requires Occurs(text, inside)
    ensures inside == u + text + v
  {
    if text <= inside {
      u, v := "", inside[|text|..];
    } else {
      u, v := OccursSomewhere(text, inside[1..]);
      u := [inside[0]] + u;
    }
  }

  lemma {:induction false} SomewhereOccurs(u: string, text: string, v: string)
    ensures Occurs(text, u + text + v)
  {
    if u != "" {
      assert (u + text + v)[1..] == u[1..] + text + v;
      SomewhereOccurs(u[1..], text, v);
    } else {
      assert u + text + v == text + v;
    }
  }

  lemma SkipsIff(step: StepDef, context: Context)
    ensures Skips(step, context) <==> IsSkipped(step, context)
  {
    if step.when.Some? && step.when.value.Contains? {
      var id, text := step.when.value.step, step.when.value.text;
      if Occurs(text, Lookup(context, id)) {
        var u, v := OccursSomewhere(text, Lookup(context, id));
      }
      forall u: string, v: string | ReadsAs(context, id, u + text + v)
        ensures Occurs(text, Lookup(context, id))
      {
        SomewhereOccurs(u, text, v);
      }
    }
  }

  /** The rows are kept and at least one is added, the first of this kind. */
  ghost predicate FirstNewRow(before: seq<Row>, after: seq<Row>, skipped: bool) {
    |after| > |before| && after[..|before|] == before && (after[|before|].status == SKIPPED <==> skipped)
  }

  /** A skipped step adds one row and changes nothing else; every other step adds a first row
      that is not a skipped one. */
  ghost predicate SkippedOrNot(step: StepDef, s: RunState, p: Progress) {
    && FirstNewRow(s.rows, p.state.rows, IsSkipped(step, s.context))
    && (IsSkipped(step, s.context) ==>
          p == Next(RunState(s.status, s.context, Some(step.id), s.error,
                             s.rows + [Row(step.id, KindOf(step.body), SKIPPED, 1, None, None)])))
  }

  lemma AdvanceSkipsIff(step: StepDef, input: string, s: RunState, oracle: Oracle)
    ensures SkippedOrNot(step, s, Advance(step, input, s, oracle))
  {
    SkipsIff(step, s.context);
    hide IsSkipped, Skips, Message;
    if !Skips(step, s.context) && !step.body.Approval? {
      FirstAttemptRow(step, input, s.context, oracle);
      hide RunAttempts;
    }
  }

  lemma FirstAttemptRow(step: StepDef, input: string, context: Context, oracle: Oracle)
    requires !step.body.Approval?
    ensures var rows := RunAttempts(step, 1, input, context, oracle).rows;
      rows != [] && rows[0].status != SKIPPED
  {
    hide RunAttempt;
  }

  // ----- what is sent ------------------------------------------------------------------------------

  predicate IsPiece(part: Part, input: string, context: Context, piece: string) {
    match part
    case Lit(text) => piece == text
    case RunInput => piece == input
    case Output(id) => ReadsAs(context, id, piece)
  }

  /** The literals, the run's input and the recorded outputs, in the template's order. */
  ghost predicate Spells(t: Template, input: string, context: Context, text: string) {
    exists pieces: seq<string> ::
      && |pieces| == |t| && Flatten(pieces) == text
      && forall k :: 0 <= k < |t| ==> IsPiece(t[k], input, context, pieces[k])
  }

  lemma {:induction false} RenderSpells(t: Template, input: string, context: Context)
    ensures Spells(t, input, context, Render(t, input, context))
  {
    if t == [] {
      var none: seq<string> := [];
      assert |none| == |t| && Flatten(none) == "";
    } else {
      RenderSpells(t[1..], input, context);
      var later: seq<string> :|
        && |later| == |t[1..]| && Flatten(later) == Render(t[1..], input, context)
        && forall k :: 0 <= k < |t[1..]| ==> IsPiece(t[1..][k], input, context, later[k]);
      var first := RenderPart(t[0], input, context);
      FlattenCons(first, later);
      var pieces := [first] + later;
      forall k | 0 <= k < |t|
        ensures IsPiece(t[k], input, context, pieces[k])
      {
        assert k > 0 ==> t[k] == t[1..][k - 1];
      }
      assert |pieces| == |t| && Flatten(pieces) == Render(t, input, context);
    }
  }

  /** The prompt and the knowledge query of a task. */
  ghost predicate Asks(task: TaskDef, input: string, context: Context, prompt: string, query: Option<string>) {
    && Spells(task.prompt, input, context, prompt)
    && (query.Some? <==> task.query.Some? && task.query.value != [])
    && (query.Some? ==> Spells(task.query.value, input, context, query.value))
  }

  /** The reply to the n-th attempt of a task, or of the given substep. */
  ghost predicate IsReply(reply: Reply, id: string, n: nat, sub: Option<nat>, task: TaskDef, input: string,
          context: Context, oracle: Oracle)
  {
    exists prompt, query ::
      Asks(task, input, context, prompt, query) && reply == oracle(TaskCall(id, n, sub, prompt, query))
  }

  lemma CallIsReply(id: string, n: nat, sub: Option<nat>, task: TaskDef, input: string, context: Context,
          oracle: Oracle)
    ensures IsReply(CallTask(id, n, sub, task, input, context, oracle), id, n, sub, task, input, context, oracle)
  {
    RenderSpells(task.prompt, input, context);
    var prompt, query := Render(task.prompt, input, context), None;
    if task.query.Some? && task.query.value != [] {
      RenderSpells(task.query.value, input, context);
      query := Some(Render(task.query.value, input, context));
    }
    hide Spells, Render;
    assert Asks(task, input, context, prompt, query);
  }

  // ----- task steps ----------------------------------------------------------------------------------

  function TextOrEmpty(output: Option<string>): string {
    if output == None then "" else output.value
  }

  /** The row of one attempt tells its reply. */
  predicate RowTells(row: Row, step: StepDef, n: nat, reply: Reply) {
    && row.stepId == step.id && row.kind == KindOf(step.body) && row.attempt == n
    && match reply
       case Done(output) => row.status == SUCCEEDED && row.output == output && row.error == None
       case Refused(why) =>
         && row.status == FAILED && row.output == None && row.error.Some?
         && (why.Some? && why.value != "" ==> row.error == why)
       case Raised => row.status == RUNNING && row.output == None && row.error == None
  }

  /** One attempt after another, each but the last refused, and no more than the retries
      allow; only the last of those may be refused too. */
  ghost predicate TaskReplies(step: StepDef, first: nat, replies: seq<Reply>, input: string, context: Context,
          oracle: Oracle)
    requires step.body.Task?
  {
    && 1 <= |replies| <= step.body.task.retries + 2 - first
    && (forall k :: 0 <= k < |replies| ==>
          IsReply(replies[k], step.id, first + k, None, step.body.task, input, context, oracle))
    && (forall k :: 0 <= k < |replies| - 1 ==> replies[k].Refused?)
    && (replies[|replies| - 1].Refused? ==> |replies| == step.body.task.retries + 2 - first)
  }

  ghost predicate RowsTell(rows: seq<Row>, step: StepDef, first: nat, replies: seq<Reply>) {
    |rows| == |replies| && forall k :: 0 <= k < |rows| ==> RowTells(rows[k], step, first + k, replies[k])
  }

  predicate OutcomeTells(outcome: Outcome, context: Context, reply: Reply) {
    match reply
    case Done(output) => outcome == Completed(TextOrEmpty(output), context)
    case Refused(_) => outcome.GaveUp?
    case Raised => outcome == Crashed
  }

  /** The attempts from the first on are these replies. */
  ghost predicate Course(step: StepDef, first: nat, replies: seq<Reply>, a: Attempts, input: string, context: Context,
          oracle: Oracle)
    requires step.body.Task?
  {
    && TaskReplies(step, first, replies, input, context, oracle)
    && RowsTell(a.rows, step, first, replies) && OutcomeTells(a.outcome, context, replies[|replies| - 1])
  }

  lemma {:induction false} TaskAttempts(step: StepDef, first: nat, input: string, context: Context, oracle: Oracle)
    returns (replies: seq<Reply>)
    requires step.body.Task? && 1 <= first <= step.body.task.retries + 1
    ensures Course(step, first, replies, RunAttempts(step, first, input, context, oracle), input, context, oracle)
    decreases step.body.task.retries + 1 - first
  {
    assert MaxAttempts(step) == step.body.task.retries + 1;
    hide *;
    var reply := CallTask(step.id, first, None, step.body.task, input, context, oracle);
    CallIsReply(step.id, first, None, step.body.task, input, context, oracle);
    NextReply(step, first, input, context, oracle);
    var a := RunAttempts(step, first, input, context, oracle);
    if reply.Refused? && first <= step.body.task.retries {
      var more := TaskAttempts(step, first + 1, input, context, oracle);
      var rest := RunAttempts(step, first + 1, input, context, oracle);
      CourseGrows(step, first, reply, more, a, rest, input, context, oracle);
      replies := [reply] + more;
    } else {
      LastReply(step, first, reply, a, input, context, oracle);
      replies := [reply];
    }
  }

  lemma LastReply(
      step: StepDef, first: nat, reply: Reply, a: Attempts, input: string, context: Context, oracle: Oracle)
    requires step.body.Task? && 1 <= first <= step.body.task.retries + 1
    requires a.rows != [] && a.rows == [a.rows[0]] && RowTells(a.rows[0], step, first, reply)
    requires OutcomeTells(a.outcome, context, reply)
    requires reply.Refused? ==> first == step.body.task.retries + 1
    requires IsReply(reply, step.id, first, None, step.body.task, input, context, oracle)
    ensures Course(step, first, [reply], a, input, context, oracle)
  {
    hide IsReply, RowTells, OutcomeTells;
  }

  lemma CourseGrows(step: StepDef, first: nat, reply: Reply, more: seq<Reply>, a: Attempts, rest: Attempts,
                    input: string, context: Context, oracle: Oracle)
    requires step.body.Task? && reply.Refused? && Course(step, first + 1, more, rest, input, context, oracle)
    requires a.rows != [] && a.rows == [a.rows[0]] + rest.rows && a.outcome == rest.outcome
    requires RowTells(a.rows[0], step, first, reply)
    requires IsReply(reply, step.id, first, None, step.body.task, input, context, oracle)
    ensures Course(step, first, [reply] + more, a, input, context, oracle)
  {
    OneMoreReply(step, first, reply, more, input, context, oracle);
    OneMoreRow(step, first, reply, more, a.rows[0], rest.rows);
    hide IsReply, RowTells, RowsTell, TaskReplies, OutcomeTells;
  }

  lemma NextReply(step: StepDef, first: nat, input: string, context: Context, oracle: Oracle)
    requires step.body.Task? && 1 <= first <= step.body.task.retries + 1
    ensures var a, reply := RunAttempts(step, first, input, context, oracle),
        CallTask(step.id, first, None, step.body.task, input, context, oracle);
      && a.rows != [] && RowTells(a.rows[0], step, first, reply)
      && if reply.Refused? && first <= step.body.task.retries then
           var more := RunAttempts(step, first + 1, input, context, oracle);
           a.rows == [a.rows[0]] + more.rows && a.outcome == more.outcome
         else a.rows == [a.rows[0]] && OutcomeTells(a.outcome, context, reply)
  {
    hide CallTask;
  }

  lemma OneMoreReply(step: StepDef, first: nat, reply: Reply, more: seq<Reply>, input: string, context: Context,
          oracle: Oracle)
    requires step.body.Task? && reply.Refused? && TaskReplies(step, first + 1, more, input, context, oracle)
    requires IsReply(reply, step.id, first, None, step.body.task, input, context, oracle)
    ensures TaskReplies(step, first, [reply] + more, input, context, oracle)
    ensures more != []
  {
    hide IsReply;
    var all := [reply] + more;
    forall k | 0 <= k < |all|
      ensures IsReply(all[k], step.id, first + k, None, step.body.task, input, context, oracle)
    {
      assert k > 0 ==> first + 1 + (k - 1) == first + k && all[k] == more[k - 1];
    }
    assert forall k :: 0 < k < |all| ==> all[k] == more[k - 1];
  }

  lemma OneMoreRow(step: StepDef, first: nat, reply: Reply, more: seq<Reply>, row: Row, rows: seq<Row>)
    requires RowTells(row, step, first, reply) && RowsTell(rows, step, first + 1, more)
    ensures RowsTell([row] + rows, step, first, [reply] + more)
  {
    hide RowTells;
    var all, replies := [row] + rows, [reply] + more;
    forall k | 0 <= k < |all|
      ensures RowTells(all[k], step, first + k, replies[k])
    {
      assert k > 0 ==> first + 1 + (k - 1) == first + k && all[k] == rows[k - 1] && replies[k] == more[k - 1];
    }
  }

  /** The step's end: its output recorded under its id, the run failed, or left as it was. */
  ghost predicate EndsAs(step: StepDef, s: RunState, p: Progress, rows: seq<Row>, context: Context, reply: Reply) {
    && p.state.current == Some(step.id) && p.state.rows == s.rows + rows
    && match reply
       case Done(output) =>
         && p.Next? && p.state.status == s.status && p.state.error == s.error
         && p.state.context == context[step.id := TextOrEmpty(output)]
       case Refused(_) => p.Halt? && p.state.status == Failed && p.state.error.Some? && p.state.context == s.context
       case Raised => p.Halt? && p.state.status == s.status && p.state.error == s.error && p.state.context == s.context
  }

  /** What the attempts come to is what the run goes on from. */
  lemma StepEnds(step: StepDef, input: string, s: RunState, oracle: Oracle, context: Context, reply: Reply)
    requires !step.body.Approval? && !IsSkipped(step, s.context)
    requires OutcomeTells(RunAttempts(step, 1, input, s.context, oracle).outcome, context, reply)
    ensures EndsAs(step, s, Advance(step, input, s, oracle),
                   RunAttempts(step, 1, input, s.context, oracle).rows, context, reply)
  {
    SkipsIff(step, s.context);
    hide IsSkipped, Skips, RunAttempts, FailureMessage;
  }

  /** A task step that is not skipped: attempts with the rendered prompt until one is not
      refused or the retries are used up, a row for each, and the end the last one gives. */
  lemma TaskStep(step: StepDef, input: string, s: RunState, oracle: Oracle)
    returns (replies: seq<Reply>, rows: seq<Row>)
    requires step.body.Task? && !IsSkipped(step, s.context)
    ensures TaskReplies(step, 1, replies, input, s.context, oracle) && RowsTell(rows, step, 1, replies)
    ensures EndsAs(step, s, Advance(step, input, s, oracle), rows, s.context, replies[|replies| - 1])
  {
    replies := TaskAttempts(step, 1, input, s.context, oracle);
    rows := RunAttempts(step, 1, input, s.context, oracle).rows;
    StepEnds(step, input, s, oracle, s.context, replies[|replies| - 1]);
  }

  // ----- retrieval steps --------------------------------------------------------------------------------

  /** One search for the rendered query, never retried; an exception counts as a refusal. */
  lemma RetrieveStep(step: StepDef, input: string, s: RunState, oracle: Oracle)
    returns (search: string, reply: Reply, row: Row)
    requires step.body.Retrieve? && !IsSkipped(step, s.context)
    ensures Spells(step.body.query, input, s.context, search)
    ensures var answer := oracle(RetrieveCall(step.id, search));
      reply == if answer == Raised then Refused(None) else answer
    ensures RowTells(row, step, 1, reply)
    ensures EndsAs(step, s, Advance(step, input, s, oracle), [row], s.context, reply)
  {
    RenderSpells(step.body.query, input, s.context);
    search := Render(step.body.query, input, s.context);
    var answer := oracle(RetrieveCall(step.id, search));
    reply := if answer == Raised then Refused(None) else answer;
    row := RunAttempts(step, 1, input, s.context, oracle).rows[0];
    hide IsSkipped, Spells, Render;
    assert RunAttempts(step, 1, input, s.context, oracle).rows == [row];
    StepEnds(step, input, s, oracle, s.context, reply);
  }

  // ----- parallel steps ----------------------------------------------------------------------------------

  /** Substep k sends its own prompt, rendered from the context before the step. */
  ghost predicate SubstepReplies(step: StepDef, replies: seq<Reply>, input: string, context: Context, oracle: Oracle)
    requires step.body.Parallel?
  {
    && |replies| == |step.body.subs|
    && forall k :: 0 <= k < |replies| ==>
         IsReply(replies[k], step.id, 1, Some(k), step.body.subs[k].task, input, context, oracle)
  }

  /** The outputs with a blank line between any two. */
  ghost predicate AreGlued(replies: seq<Reply>, text: string)
    requires forall k :: 0 <= k < |replies| ==> replies[k].Done?
  {
    exists pieces: seq<string> ::
      && |pieces| == |replies| && Flatten(pieces) == text
      && forall k :: 0 <= k < |pieces| ==>
           pieces[k] == (if k == 0 then "" else "\n\n") + TextOrEmpty(replies[k].output)
  }

  /** Each substep's output is recorded under its id, the last one's if an id repeats. */
  ghost predicate AreRecorded(subs: seq<SubDef>, replies: seq<Reply>, before: Context, after: Context)
    requires |subs| == |replies| && forall k :: 0 <= k < |replies| ==> replies[k].Done?
  {
    && (forall id :: id in after <==> id in before || exists k :: 0 <= k < |subs| && subs[k].id == id)
    && (forall k :: 0 <= k < |subs| && IsLast(subs, k) ==>
          subs[k].id in after && after[subs[k].id] == TextOrEmpty(replies[k].output))
    && (forall id :: id in before && (forall k :: 0 <= k < |subs| ==> subs[k].id != id) ==>
          id in after && after[id] == before[id])
  }

  ghost predicate IsLast(subs: seq<SubDef>, k: nat)
    requires k < |subs|
  {
    forall j :: k < j < |subs| ==> subs[j].id != subs[k].id
  }

  /** What the substeps' replies make of the step. */
  ghost predicate Together(replies: seq<Reply>, reply: Reply) {
    if exists k :: 0 <= k < |replies| && replies[k].Raised? then reply == Raised
    else if exists k :: 0 <= k < |replies| && replies[k].Refused? then reply.Refused?
    else
      && (forall k :: 0 <= k < |replies| ==> replies[k].Done?)
      && reply.Done? && reply.output.Some? && AreGlued(replies, reply.output.value)
  }

  lemma {:induction false} FailuresIff(subs: seq<SubDef>, replies: seq<Reply>)
    requires |subs| == |replies|
    ensures Failures(subs, replies) != [] <==> exists k :: 0 <= k < |replies| && replies[k].Refused?
  {
    if subs != [] {
      FailuresIff(subs[1..], replies[1..]);
      assert forall k :: 0 < k < |replies| ==> replies[k] == replies[1..][k - 1];
      assert forall k :: 0 <= k < |replies[1..]| ==> replies[1..][k] == replies[k + 1];
    }
  }

  lemma {:induction false} JoinGlues(parts: seq<string>, glue: string) returns (pieces: seq<string>)
    ensures |pieces| == |parts| && Flatten(pieces) == JoinWith(parts, glue)
    ensures forall k :: 0 <= k < |parts| ==> pieces[k] == (if k == 0 then "" else glue) + parts[k]
  {
    pieces := [];
    if parts != [] {
      var later := JoinGlues(parts[1..], glue);
      if |parts| == 1 {
        pieces := parts;
        FlattenCons(parts[0], []);
        assert parts == [parts[0]] + [] && parts[0] + [] == parts[0] && "" + parts[0] == parts[0];
      } else {
        var rest := later[1..];
        assert later == [later[0]] + rest;
        FlattenCons(later[0], rest);
        pieces := [parts[0], glue + later[0]] + rest;
        assert "" + parts[1] == parts[1] && "" + parts[0] == parts[0];
        assert pieces == [parts[0]] + ([glue + later[0]] + rest);
        FlattenCons(parts[0], [glue + later[0]] + rest);
        FlattenCons(glue + later[0], rest);
        Assoc(glue, later[0], Flatten(rest));
        Assoc(parts[0], glue, Flatten(later));
        forall k | 0 <= k < |parts|
          ensures pieces[k] == (if k == 0 then "" else glue) + parts[k]
        {
          assert k > 0 ==> parts[1..][k - 1] == parts[k];
          assert k > 1 ==> pieces[k] == later[k - 1];
        }
      }
    }
  }

  lemma OutputsAreGlued(replies: seq<Reply>)
    requires forall k :: 0 <= k < |replies| ==> replies[k].Done?
    ensures AreGlued(replies, JoinWith(Outputs(replies), "\n\n"))
  {
    var pieces := JoinGlues(Outputs(replies), "\n\n");
    hide JoinWith;
    assert |pieces| == |replies| && Flatten(pieces) == JoinWith(Outputs(replies), "\n\n");
  }

  lemma AllAreRecorded(context: Context, subs: seq<SubDef>, replies: seq<Reply>)
    requires |subs| == |replies| && forall k :: 0 <= k < |replies| ==> replies[k].Done?
    ensures AreRecorded(subs, replies, context, RecordAll(context, subs, replies))
  {
    RecordAllAdds(context, subs, replies);
    forall id
      ensures id in SubIdSet(subs) <==> exists k :: 0 <= k < |subs| && subs[k].id == id
    {
      SubIdSetIs(subs, id);
    }
    var after := RecordAll(context, subs, replies);
    hide RecordAll, SubIdSet;
    forall k | 0 <= k < |subs| && IsLast(subs, k)
      ensures subs[k].id in after && after[subs[k].id] == TextOrEmpty(replies[k].output)
    {
      LastSubstepWins(context, subs, replies, k);
    }
  }

  lemma AttemptedOnce(step: StepDef, input: string, context: Context, oracle: Oracle)
    requires step.body.Parallel?
    ensures var replies := SubReplies(step.id, step.body.subs, input, context, oracle);
      RunAttempts(step, 1, input, context, oracle)
      == if exists k :: 0 <= k < |replies| && replies[k].Raised? then
           Attempts([RowOf(step, RUNNING, 1, None, None)], Crashed)
         else if Failures(step.body.subs, replies) != [] then
           var error := JoinWith(Failures(step.body.subs, replies), "; ");
           Attempts([RowOf(step, FAILED, 1, None, Some(error))], GaveUp(error))
         else
           var output := JoinWith(Outputs(replies), "\n\n");
           Attempts([RowOf(step, SUCCEEDED, 1, Some(output), None)],
                    Completed(output, RecordAll(context, step.body.subs, replies)))
  {
    hide SubReplies, JoinWith, Failures, Outputs, RecordAll;
  }

  /** A parallel step that is not skipped: one call for each substep, all from one context; it
      completes when none raises and none is refused, recording every output. */
  lemma ParallelStep(step: StepDef, input: string, s: RunState, oracle: Oracle)
    returns (replies: seq<Reply>, reply: Reply, row: Row, context: Context)
    requires step.body.Parallel? && !IsSkipped(step, s.context)
    ensures SubstepReplies(step, replies, input, s.context, oracle) && Together(replies, reply)
    ensures reply.Done? ==> AreRecorded(step.body.subs, replies, s.context, context)
    ensures RowTells(row, step, 1, reply)
    ensures EndsAs(step, s, Advance(step, input, s, oracle), [row], context, reply)
  {
    hide *;
    var subs := step.body.subs;
    replies := SubReplies(step.id, subs, input, s.context, oracle);
    AllReply(step, input, s.context, oracle);
    reply := RepliesTogether(subs, replies);
    AttemptedOnce(step, input, s.context, oracle);
    row := RunAttempts(step, 1, input, s.context, oracle).rows[0];
    context := RecordAll(s.context, subs, replies);
    if reply.Done? {
      TogetherDone(replies, reply);
      AllAreRecorded(s.context, subs, replies);
    }
    RowOfParallel(step, reply, RunAttempts(step, 1, input, s.context, oracle), context);
    StepEnds(step, input, s, oracle, context, reply);
  }

  lemma AllReply(step: StepDef, input: string, context: Context, oracle: Oracle)
    requires step.body.Parallel?
    ensures SubstepReplies(step, SubReplies(step.id, step.body.subs, input, context, oracle), input, context, oracle)
    ensures |SubReplies(step.id, step.body.subs, input, context, oracle)| == |step.body.subs|
  {
    var subs := step.body.subs;
    forall k | 0 <= k < |subs|
      ensures IsReply(CallTask(step.id, 1, Some(k), subs[k].task, input, context, oracle),
                      step.id, 1, Some(k), subs[k].task, input, context, oracle)
    {
      CallIsReply(step.id, 1, Some(k), subs[k].task, input, context, oracle);
    }
    hide IsReply, CallTask;
  }

  lemma RowOfParallel(step: StepDef, reply: Reply, a: Attempts, context: Context)
    requires match reply
      case Raised => a == Attempts([RowOf(step, RUNNING, 1, None, None)], Crashed)
      case Refused(why) =>
        && why == None && a.outcome.GaveUp?
        && a.rows == [RowOf(step, FAILED, 1, None, Some(a.outcome.error))]
      case Done(output) =>
        output.Some? && a == Attempts([RowOf(step, SUCCEEDED, 1, output, None)], Completed(output.value, context))
    ensures a.rows == [a.rows[0]] && RowTells(a.rows[0], step, 1, reply) && OutcomeTells(a.outcome, context, reply)
  {
  }

  lemma TogetherDone(replies: seq<Reply>, reply: Reply)
    requires Together(replies, reply) && reply.Done?
    ensures forall k :: 0 <= k < |replies| ==> replies[k].Done?
  {
  }

  lemma RepliesTogether(subs: seq<SubDef>, replies: seq<Reply>) returns (reply: Reply)
    requires |subs| == |replies|
    ensures Together(replies, reply)
    ensures reply == if exists k :: 0 <= k < |replies| && replies[k].Raised? then Raised
                     else if Failures(subs, replies) != [] then Refused(None)
                     else Done(Some(JoinWith(Outputs(replies), "\n\n")))
  {
    FailuresIff(subs, replies);
    hide Failures, JoinWith, Outputs, AreGlued;
    if exists k :: 0 <= k < |replies| && replies[k].Raised? {
      reply := Raised;
    } else if exists k :: 0 <= k < |replies| && replies[k].Refused? {
      reply := Refused(None);
    } else {
      reply := Done(Some(JoinWith(Outputs(replies), "\n\n")));
      assert forall k :: 0 <= k < |replies| ==> replies[k].Done?;
      OutputsAreGlued(replies);
    }
  }

  // ----- approval steps and decisions --------------------------------------------------------------------

  /** An approval that is not skipped pauses the run at a waiting row with its message. */
  lemma ApprovalStep(step: StepDef, input: string, s: RunState, oracle: Oracle) returns (message: string)
    requires step.body.Approval? && !IsSkipped(step, s.context)
    ensures Spells(step.body.message, input, s.context, message)
    ensures Advance(step, input, s, oracle)
         == Wait(RunState(Paused, s.context, Some(step.id), s.error,
                          s.rows + [Row(step.id, ApprovalKind, PENDING, 1,
                                        if message == "" then None else Some(message), None)]))
  {
    SkipsIff(step, s.context);
    RenderSpells(step.body.message, input, s.context);
    message := Render(step.body.message, input, s.context);
  }

  /** A rejection fails the run and its row and runs no further step; an approval records
      "approved" as the step's output and goes on with the step after it. */
  lemma DecisionShows(def: Definition, input: string, s: RunState, approved: bool, oracle: Oracle)
    requires Resumable(def, s)
    ensures var id, k := s.current.value, PendingOf(s.rows, s.current.value);
      var row := s.rows[k];
      var decided := Row(row.stepId, row.kind, if approved then SUCCEEDED else FAILED, row.attempt, row.output,
                         if approved then row.error else Some("rejected by operator"));
      var after := Resume(def, input, s, approved, oracle);
      if approved then
        after == ExecuteFrom(def, IndexOf(def, id) + 1, input,
                             RunState(Running, s.context[id := "approved"], s.current, s.error, s.rows[k := decided]),
                             oracle)
      else
        && after.status == Failed && after.error.Some? && after.context == s.context && after.current == s.current
        && after.rows == s.rows[k := decided]
  {
    hide RejectionMessage, ExecuteFrom;
  }
}
