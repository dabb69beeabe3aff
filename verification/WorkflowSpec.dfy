/** What a workflow run computes, as functions on run states
    (backend/app/services/workflow.py): one step with its retries, execution up to the
    next approval, resumption, and the uninterrupted fold they must agree with. */
module WorkflowSpec {
  import opened Prelude
  import opened WorkflowSchema

  datatype RunStatus = Running | Paused | Succeeded | Failed
  datatype RowStatus = RUNNING | SUCCEEDED | FAILED | SKIPPED | PENDING
  datatype Kind = TaskKind | RetrieveKind | ApprovalKind | ParallelKind

  /** One execution attempt of one step. */
  datatype Row = Row(
    stepId: string, kind: Kind, status: RowStatus, attempt: nat, output: Option<string>, error: Option<string>)

  /** The recorded output of every step that succeeded. */
  type Context = map<string, string>

  datatype RunState = RunState(
    status: RunStatus, context: Context, current: Option<string>, error: Option<string>, rows: seq<Row>)

  const Fresh := RunState(Running, map[], None, None, [])

  // ----- the world outside: tasks and retrieval -----------------------------------------------

  datatype Call =
    | TaskCall(step: string, attempt: nat, sub: Option<nat>, prompt: string, query: Option<string>)
    | RetrieveCall(step: string, search: string)

  /** A call's result: an output, a failure, or an exception that nothing handles. */
  datatype Reply = Done(output: Option<string>) | Refused(error: Option<string>) | Raised

  type Oracle = Call -> Reply

  // ----- templates and conditions ---------------------------------------------------------------

  function OrEmpty(s: Option<string>): string {
    if s.Some? then s.value else ""
  }

  function Lookup(context: Context, id: string): string {
    if id in context then context[id] else ""
  }

  function RenderPart(part: Part, input: string, context: Context): string {
    match part
    case Lit(text) => text
    case RunInput => input
    case Output(id) => Lookup(context, id)
  }

  function Render(t: Template, input: string, context: Context): string {
    if t == [] then "" else RenderPart(t[0], input, context) + Render(t[1..], input, context)
  }

  predicate Occurs(text: string, inside: string) {
    text <= inside || (inside != "" && Occurs(text, inside[1..]))
  }

  function ConditionMet(when: When, context: Context): bool {
    match when
    case Contains(step, text) => Occurs(text, Lookup(context, step))
    case Equals(step, text) => Lookup(context, step) == text
  }

  predicate Skips(step: StepDef, context: Context) {
    step.when.Some? && !ConditionMet(step.when.value, context)
  }

  // ----- one attempt of one step -------------------------------------------------------------------

  function KindOf(body: Body): Kind {
    match body
    case Task(_) => TaskKind
    case Retrieve(_) => RetrieveKind
    case Approval(_) => ApprovalKind
    case Parallel(_) => ParallelKind
  }

  function MaxAttempts(step: StepDef): (n: nat)
    ensures n >= 1
  {
    if step.body.Task? then step.body.task.retries + 1 else 1
  }

  /** An empty knowledge query is none. */
  function CallTask(step: string, attempt: nat, sub: Option<nat>, task: TaskDef, input: string, context: Context,
          oracle: Oracle): Reply {
    oracle(TaskCall(step, attempt, sub, Render(task.prompt, input, context),
                    if task.query.Some? && task.query.value != [] then Some(Render(task.query.value, input, context))
                    else None))
  }

  function TaskError(error: Option<string>): string {
    if error.Some? && error.value != "" then error.value else "task failed"
  }

  /** The replies of a parallel step's substeps, all rendered from one snapshot. */
  function SubReplies(step: string, subs: seq<SubDef>, input: string, context: Context, oracle: Oracle): seq<Reply> {
    seq(|subs|, k requires 0 <= k < |subs| => CallTask(step, 1, Some(k), subs[k].task, input, context, oracle))
  }

  /** What a substep adds to the failures of its step. */
  function FailureOf(sub: SubDef, reply: Reply): seq<string> {
    if reply.Refused? then [sub.id + ": " + TaskError(reply.error)] else []
  }

  function Failures(subs: seq<SubDef>, replies: seq<Reply>): seq<string>
    requires |subs| == |replies|
  {
    if subs == [] then [] else FailureOf(subs[0], replies[0]) + Failures(subs[1..], replies[1..])
  }

  function JoinWith(parts: seq<string>, glue: string): string {
    if parts == [] then "" else if |parts| == 1 then parts[0] else parts[0] + glue + JoinWith(parts[1..], glue)
  }

  function RecordAll(context: Context, subs: seq<SubDef>, replies: seq<Reply>): Context
    requires |subs| == |replies|
    decreases |subs|
  {
    if subs == [] then context
    else RecordAll(context[subs[0].id := if replies[0].Done? then OrEmpty(replies[0].output) else ""],
                   subs[1..], replies[1..])
  }

  function Outputs(replies: seq<Reply>): seq<string> {
    seq(|replies|, k requires 0 <= k < |replies| => if replies[k].Done? then OrEmpty(replies[k].output) else "")
  }

  datatype Attempt = Good(output: Option<string>, context: Context) | Bad(error: string) | Crash

  function RunAttempt(step: StepDef, attempt: nat, input: string, context: Context, oracle: Oracle): Attempt
    requires !step.body.Approval?
  {
    match step.body
    case Task(task) =>
      (match CallTask(step.id, attempt, None, task, input, context, oracle)
       case Done(output) => Good(output, context)
       case Refused(error) => Bad(TaskError(error))
       case Raised => Crash)
    case Retrieve(query) =>
      (match oracle(RetrieveCall(step.id, Render(query, input, context)))
       case Done(output) => Good(output, context)
       case Refused(error) => Bad(OrEmpty(error))
       case Raised => Bad(""))
    case Parallel(subs) =>
      var replies := SubReplies(step.id, subs, input, context, oracle);
      if exists k :: 0 <= k < |replies| && replies[k].Raised? then Crash
      else if Failures(subs, replies) != [] then Bad(JoinWith(Failures(subs, replies), "; "))
      else Good(Some(JoinWith(Outputs(replies), "\n\n")), RecordAll(context, subs, replies))
  }

  // ----- one step ------------------------------------------------------------------------------------

  datatype Outcome = Completed(output: string, context: Context) | GaveUp(error: string) | Crashed

  /** The rows the attempts leave behind, and how the step ended. */
  datatype Attempts = Attempts(rows: seq<Row>, outcome: Outcome)

  function RowOf(step: StepDef, status: RowStatus, attempt: nat, output: Option<string>, error: Option<string>): Row {
    Row(step.id, KindOf(step.body), status, attempt, output, error)
  }

  /** Attempts from `attempt` on: every retry reads the same context. */
  function RunAttempts(step: StepDef, attempt: nat, input: string, context: Context, oracle: Oracle): Attempts
    requires !step.body.Approval? && 1 <= attempt <= MaxAttempts(step)
    decreases MaxAttempts(step) - attempt
  {
    match RunAttempt(step, attempt, input, context, oracle)
    case Good(output, context') =>
      Attempts([RowOf(step, SUCCEEDED, attempt, output, None)], Completed(OrEmpty(output), context'))
    case Crash =>
      Attempts([RowOf(step, RUNNING, attempt, None, None)], Crashed)
    case Bad(error) =>
      var row := RowOf(step, FAILED, attempt, None, Some(error));
      if attempt < MaxAttempts(step) then
        var more := RunAttempts(step, attempt + 1, input, context, oracle);
        Attempts([row] + more.rows, more.outcome)
      else Attempts([row], GaveUp(error))
  }

  /** A step leads to the next one, ends the run (or its request), or waits. */
  datatype Progress = Next(state: RunState) | Halt(state: RunState) | Wait(state: RunState)

  function FailureMessage(id: string, error: string): string {
    "step '" + id + "' failed: " + error
  }

  function RejectionMessage(id: string): string {
    "step '" + id + "' rejected"
  }

  function Message(step: StepDef, input: string, context: Context): Option<string>
    requires step.body.Approval?
  {
    var text := Render(step.body.message, input, context);
    if text == "" then None else Some(text)
  }

  function RunStep(step: StepDef, input: string, s: RunState, oracle: Oracle): Progress
    requires !step.body.Approval?
  {
    var a := RunAttempts(step, 1, input, s.context, oracle);
    var s1 := s.(current := Some(step.id), rows := s.rows + a.rows);
    match a.outcome
    case Completed(output, context) => Next(s1.(context := context[step.id := output]))
    case GaveUp(error) => Halt(s1.(status := Failed, error := Some(FailureMessage(step.id, error))))
    case Crashed => Halt(s1)
  }

  function SkipStep(step: StepDef, s: RunState): RunState {
    s.(current := Some(step.id), rows := s.rows + [RowOf(step, SKIPPED, 1, None, None)])
  }

  function PauseAt(step: StepDef, input: string, s: RunState): RunState
    requires step.body.Approval?
  {
    s.(current := Some(step.id), status := Paused,
       rows := s.rows + [RowOf(step, PENDING, 1, Message(step, input, s.context), None)])
  }

  function Advance(step: StepDef, input: string, s: RunState, oracle: Oracle): Progress {
    if Skips(step, s.context) then Next(SkipStep(step, s))
    else if step.body.Approval? then Wait(PauseAt(step, input, s))
    else RunStep(step, input, s, oracle)
  }

  // ----- execution, pauses and resumption ---------------------------------------------------------------

  /** _execute_from */
  function ExecuteFrom(def: Definition, i: nat, input: string, s: RunState, oracle: Oracle): RunState
    requires i <= |def|
    decreases |def| - i
  {
    if i == |def| then s.(status := Succeeded, error := None)
    else
      match Advance(def[i], input, s, oracle)
      case Next(s') => ExecuteFrom(def, i + 1, input, s', oracle)
      case Halt(s') => s'
      case Wait(s') => s'
  }

  /** next(i for i, s in enumerate(steps) if s.id == id); |def| when there is none. */
  function IndexOf(def: Definition, id: string): (i: nat)
    ensures i <= |def|
    ensures i < |def| ==> def[i].id == id
  {
    if def == [] then 0 else if def[0].id == id then 0 else IndexOf(def[1..], id) + 1
  }

  /** The first pending row of the step; |rows| when there is none. */
  function PendingOf(rows: seq<Row>, id: string): (k: nat)
    ensures k <= |rows|
    ensures k < |rows| ==> rows[k].stepId == id && rows[k].status == PENDING
  {
    if rows == [] then 0
    else if rows[0].stepId == id && rows[0].status == PENDING then 0
    else PendingOf(rows[1..], id) + 1
  }

  predicate Resumable(def: Definition, s: RunState) {
    s.status == Paused && s.current.Some? && IndexOf(def, s.current.value) < |def|
    && PendingOf(s.rows, s.current.value) < |s.rows|
  }

  function Approve(s: RunState, id: string, k: nat): RunState
    requires k < |s.rows|
  {
    s.(status := Running, context := s.context[id := "approved"], rows := s.rows[k := s.rows[k].(status := SUCCEEDED)])
  }

  function Reject(s: RunState, id: string, k: nat): RunState
    requires k < |s.rows|
  {
    s.(status := Failed, error := Some(RejectionMessage(id)),
       rows := s.rows[k := s.rows[k].(status := FAILED, error := Some("rejected by operator"))])
  }

  /** resume_run */
  function Resume(def: Definition, input: string, s: RunState, approved: bool, oracle: Oracle): RunState
    requires Resumable(def, s)
  {
    var id := s.current.value;
    var k := PendingOf(s.rows, id);
    if approved then ExecuteFrom(def, IndexOf(def, id) + 1, input, Approve(s, id, k), oracle)
    else Reject(s, id, k)
  }

  /** Decisions applied one at a time; a run that is not paused refuses them. */
  function Decide(def: Definition, input: string, s: RunState, decisions: seq<bool>, oracle: Oracle): RunState
    decreases |decisions|
  {
    if decisions == [] || !Resumable(def, s) then s
    else Decide(def, input, Resume(def, input, s, decisions[0], oracle), decisions[1..], oracle)
  }

  // ----- the reference: one uninterrupted fold -----------------------------------------------------------

  /** An approval step answered on the spot. */
  function Approved(step: StepDef, input: string, s: RunState): RunState
    requires step.body.Approval?
  {
    s.(current := Some(step.id), context := s.context[step.id := "approved"],
       rows := s.rows + [RowOf(step, SUCCEEDED, 1, Message(step, input, s.context), None)])
  }

  function Rejected(step: StepDef, input: string, s: RunState): RunState
    requires step.body.Approval?
  {
    s.(current := Some(step.id), status := Failed, error := Some(RejectionMessage(step.id)),
       rows := s.rows + [RowOf(step, FAILED, 1, Message(step, input, s.context), Some("rejected by operator"))])
  }

  /** The steps in order, taking each approval's decision from the list when it is
      reached; without one left, the run waits. */
  function Fold(def: Definition, i: nat, input: string, s: RunState, decisions: seq<bool>, oracle: Oracle): RunState
    requires i <= |def|
    decreases |def| - i
  {
    if i == |def| then s.(status := Succeeded, error := None)
    else
      match Advance(def[i], input, s, oracle)
      case Next(s') => Fold(def, i + 1, input, s', decisions, oracle)
      case Halt(s') => s'
      case Wait(waiting) =>
        if decisions == [] then waiting
        else
          if decisions[0] then Fold(def, i + 1, input, Approved(def[i], input, s), decisions[1..], oracle)
          else Rejected(def[i], input, s)
  }

  // ----- pausing is transparent ------------------------------------------------------------------------------

  ghost predicate NonePending(rows: seq<Row>) {
    forall k :: 0 <= k < |rows| ==> rows[k].status != PENDING
  }

  /** What resuming needs of the ids: each approval is the first step of its name. */
  ghost predicate ApprovalsFound(def: Definition) {
    forall i :: 0 <= i < |def| && def[i].body.Approval? ==> IndexOf(def, def[i].id) == i
  }

  lemma {:induction false} FirstOfItsName(def: Definition, i: nat)
    requires i < |def| && forall j :: 0 <= j < i ==> def[j].id != def[i].id
    ensures IndexOf(def, def[i].id) == i
  {
    if i > 0 {
      assert def[1..][i - 1] == def[i];
      assert forall j :: 0 <= j < i - 1 ==> def[1..][j].id == def[j + 1].id;
      FirstOfItsName(def[1..], i - 1);
    }
  }

  lemma ValidatedApprovalsFound(def: Definition)
    requires WellFormed(def)
    ensures ApprovalsFound(def)
  {
    forall i | 0 <= i < |def| && def[i].body.Approval?
      ensures IndexOf(def, def[i].id) == i
    {
      forall j | 0 <= j < i
        ensures def[j].id != def[i].id
      {
        if def[j].id == def[i].id {
          TopLevelIdsDistinct(def, j, i);
        }
      }
      FirstOfItsName(def, i);
    }
  }

  lemma {:induction false} PendingIsLast(rows: seq<Row>, last: Row)
    requires NonePending(rows) && last.status == PENDING
    ensures PendingOf(rows + [last], last.stepId) == |rows|
  {
    if rows == [] {
      assert rows + [last] == [last];
    } else {
      assert (rows + [last])[0] == rows[0] && (rows + [last])[1..] == rows[1..] + [last];
      PendingIsLast(rows[1..], last);
    }
  }

  lemma {:induction false} AttemptsLeaveNonePending(step: StepDef, attempt: nat, input: string, context: Context,
          oracle: Oracle)
    requires !step.body.Approval? && 1 <= attempt <= MaxAttempts(step)
    ensures NonePending(RunAttempts(step, attempt, input, context, oracle).rows)
    decreases MaxAttempts(step) - attempt
  {
    hide RunAttempt;
    if attempt < MaxAttempts(step) {
      AttemptsLeaveNonePending(step, attempt + 1, input, context, oracle);
    }
  }

  lemma AdvanceLeavesNonePending(step: StepDef, input: string, s: RunState, oracle: Oracle)
    requires NonePending(s.rows) && s.status == Running
    ensures !Advance(step, input, s, oracle).Wait? ==> NonePending(Advance(step, input, s, oracle).state.rows)
    ensures Advance(step, input, s, oracle).Halt? ==> Advance(step, input, s, oracle).state.status != Paused
    ensures Advance(step, input, s, oracle).Next? ==> Advance(step, input, s, oracle).state.status == Running
    ensures Advance(step, input, s, oracle).Wait? ==>
      step.body.Approval? && Advance(step, input, s, oracle).state == PauseAt(step, input, s)
  {
    hide RunAttempts, Skips;
    if !step.body.Approval? {
      AttemptsLeaveNonePending(step, 1, input, s.context, oracle);
    }
  }

  /** Executing up to the next pause and then applying decisions is the fold. */
  lemma {:induction false} PausingFrom(def: Definition, i: nat, input: string, s: RunState, decisions: seq<bool>,
          oracle: Oracle)
    requires i <= |def| && ApprovalsFound(def) && NonePending(s.rows) && s.status == Running
    ensures Decide(def, input, ExecuteFrom(def, i, input, s, oracle), decisions, oracle)
         == Fold(def, i, input, s, decisions, oracle)
    decreases |def| - i
  {
    if i < |def| {
      hide Advance, Message;
      var step := def[i];
      AdvanceLeavesNonePending(step, input, s, oracle);
      match Advance(step, input, s, oracle)
      case Halt(_) =>
      case Next(s') => PausingFrom(def, i + 1, input, s', decisions, oracle);
      case Wait(waiting) =>
        ResumeWaiting(def, i, input, s, oracle);
        if decisions != [] && decisions[0] {
          var s' := Approve(waiting, step.id, |s.rows|);
          ApprovedLeavesNonePending(s.rows, waiting.rows[|s.rows|]);
          PausingFrom(def, i + 1, input, s', decisions[1..], oracle);
        }
    }
  }

  lemma ApprovedLeavesNonePending(rows: seq<Row>, last: Row)
    requires NonePending(rows)
    ensures NonePending((rows + [last])[|rows| := last.(status := SUCCEEDED)])
  {
  }

  /** A run waiting at step i resumes there, and only its last row changes. */
  lemma ResumeWaiting(def: Definition, i: nat, input: string, s: RunState, oracle: Oracle)
    requires i < |def| && def[i].body.Approval? && ApprovalsFound(def) && NonePending(s.rows) && s.status == Running
    ensures var waiting, step := PauseAt(def[i], input, s), def[i];
      && Resumable(def, waiting) && IndexOf(def, step.id) == i && PendingOf(waiting.rows, step.id) == |s.rows|
      && Approve(waiting, step.id, |s.rows|) == Approved(step, input, s)
      && Reject(waiting, step.id, |s.rows|) == Rejected(step, input, s)
  {
    hide Message, RejectionMessage;
    var step := def[i];
    var row := RowOf(step, PENDING, 1, Message(step, input, s.context), None);
    PendingIsLast(s.rows, row);
    assert (s.rows + [row])[|s.rows| := row.(status := SUCCEEDED)] == s.rows + [row.(status := SUCCEEDED)];
    var rejected := row.(status := FAILED, error := Some("rejected by operator"));
    assert (s.rows + [row])[|s.rows| := rejected] == s.rows + [rejected];
  }

  /** Start plus resumes give the status, context and step trace of one uninterrupted
      fold, for every validated definition, world and sequence of decisions. */
  lemma PausingIsTransparent(def: Definition, input: string, decisions: seq<bool>, oracle: Oracle)
    requires WellFormed(def)
    ensures Decide(def, input, ExecuteFrom(def, 0, input, Fresh, oracle), decisions, oracle)
         == Fold(def, 0, input, Fresh, decisions, oracle)
  {
    ValidatedApprovalsFound(def);
    PausingFrom(def, 0, input, Fresh, decisions, oracle);
  }

  /** Without distinct ids it fails: two approvals of one name, both approved. The fold
      succeeds; the resumed run finds the first of them again and waits forever. */
  lemma RepeatedIdsAreNotTransparent(oracle: Oracle)
    ensures var a := StepDef("a", None, Approval([]));
      && Fold([a, a], 0, "", Fresh, [true, true], oracle).status == Succeeded
      && Decide([a, a], "", ExecuteFrom([a, a], 0, "", Fresh, oracle), [true, true], oracle).status == Paused
  {
    hide FailureMessage, RejectionMessage, ConditionMet, RunStep, Reject, Rejected;
    var a := StepDef("a", None, Approval([]));
    var def := [a, a];
    var pending, done := RowOf(a, PENDING, 1, None, None), RowOf(a, SUCCEEDED, 1, None, None);
    var w1 := Fresh.(current := Some("a"), status := Paused, rows := [pending]);
    assert [] + [pending] == [pending];
    assert ExecuteFrom(def, 0, "", Fresh, oracle) == w1;
    var s1 := Fresh.(current := Some("a"), context := map["a" := "approved"], rows := [done]);
    assert Approve(w1, "a", 0) == s1;
    var w2 := s1.(status := Paused, rows := [done, pending]);
    assert [done] + [pending] == [done, pending];
    assert ExecuteFrom(def, 1, "", s1, oracle) == w2;
    assert Resume(def, "", w1, true, oracle) == w2;
    assert [done, pending][1..] == [pending];
    assert PendingOf([done, pending], "a") == 1;
    var s2 := s1.(rows := [done, done]);
    assert [done, pending][1 := done] == [done, done];
    assert Approve(w2, "a", 1) == s2;
    var w3 := s2.(status := Paused, rows := [done, done, pending]);
    assert [done, done] + [pending] == [done, done, pending];
    assert ExecuteFrom(def, 1, "", s2, oracle) == w3;
    assert Resume(def, "", w2, true, oracle) == w3;
    var ds := [true, true];
    assert ds[1..] == [true] && [true][1..] == [];
    assert Decide(def, "", w2, [true], oracle) == w3;
    assert Decide(def, "", w1, ds, oracle) == w3;
    assert [] + [done] == [done] && [done] + [done] == [done, done];
    assert Fold(def, 2, "", s2, [], oracle).status == Succeeded;
    assert Fold(def, 1, "", s1, [true], oracle) == Fold(def, 2, "", s2, [], oracle);
  }
}
