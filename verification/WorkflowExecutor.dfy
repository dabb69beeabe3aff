/** The executor as the program runs it (backend/app/services/workflow.py): one object
    whose fields change step by step and are committed after every change. */
module WorkflowExecutor {
  import opened Prelude
  import opened WorkflowSchema
  import Spec = WorkflowSpec
  import opened WorkflowSpec
  import opened WorkflowInvariants
  import WorkflowMeaning

  /** How a step with its retries ended: its output, an error, or an exception. */
  datatype StepEnd = Finished(output: string) | StepFailed(error: string) | Escaped

  ghost function EndOf(outcome: Outcome): StepEnd {
    match outcome
    case Completed(output, _) => Finished(output)
    case GaveUp(error) => StepFailed(error)
    case Crashed => Escaped
  }

  /** What an attempt reports is what the specification says of it. */
  ghost predicate Reports(
      a: Attempt, before: Context, output: Option<string>, error: Option<string>, escaped: bool, after: Context) {
    match a
    case Good(result, context) => !escaped && error.None? && output == result && after == context
    case Bad(why) => !escaped && error == Some(why) && after == before
    case Crash => escaped && after == before
  }

  /** The rows so far, completed by the attempts from `attempt` on, are those of the whole
      step; after the last attempt there is only its error left to report. */
  ghost predicate OnCourse(step: StepDef, attempt: nat, lastError: string, input: string, context: Context,
          oracle: Oracle, start: seq<Row>, rows: seq<Row>)
    requires !step.body.Approval? && 1 <= attempt <= MaxAttempts(step) + 1
  {
    var all := RunAttempts(step, 1, input, context, oracle);
    if attempt <= MaxAttempts(step) then
      var rest := RunAttempts(step, attempt, input, context, oracle);
      start + all.rows == rows + rest.rows && all.outcome == rest.outcome
    else start + all.rows == rows && all.outcome == GaveUp(lastError)
  }

  /** One more attempt: the step goes on after a failure and ends otherwise. */
  lemma NextAttempt(step: StepDef, attempt: nat, lastError: string, input: string, context: Context, oracle: Oracle,
                    start: seq<Row>, rows: seq<Row>)
    requires !step.body.Approval? && 1 <= attempt <= MaxAttempts(step)
    requires OnCourse(step, attempt, lastError, input, context, oracle, start, rows)
    ensures var all := RunAttempts(step, 1, input, context, oracle);
      match RunAttempt(step, attempt, input, context, oracle)
      case Good(output, context') =>
        && start + all.rows == rows + [RowOf(step, SUCCEEDED, attempt, output, None)]
        && all.outcome == Completed(OrEmpty(output), context')
      case Crash =>
        start + all.rows == rows + [RowOf(step, RUNNING, attempt, None, None)] && all.outcome == Crashed
      case Bad(error) =>
        OnCourse(step, attempt + 1, error, input, context, oracle, start,
                 rows + [RowOf(step, FAILED, attempt, None, Some(error))])
  {
    hide RunAttempt, RowOf;
    var result, all := RunAttempt(step, attempt, input, context, oracle), RunAttempts(step, 1, input, context, oracle);
    var rest := RunAttempts(step, attempt, input, context, oracle);
    if result.Bad? && attempt < MaxAttempts(step) {
      var more := RunAttempts(step, attempt + 1, input, context, oracle);
      Assoc(rows, [RowOf(step, FAILED, attempt, None, Some(result.error))], more.rows);
    }
  }

  lemma NoMoreAttempts(step: StepDef, lastError: string, input: string, context: Context, oracle: Oracle,
                       start: seq<Row>, rows: seq<Row>)
    requires !step.body.Approval?
    requires OnCourse(step, MaxAttempts(step) + 1, lastError, input, context, oracle, start, rows)
    ensures var all := RunAttempts(step, 1, input, context, oracle);
      start + all.rows == rows && all.outcome == GaveUp(lastError)
  {
    hide RunAttempts;
  }

  /** From the state a step's end leaves, the run goes where the specification says. */
  ghost predicate LeadsTo(def: Definition, next: nat, end: StepEnd, id: string, s: RunState, after: Progress) {
    match end
    case Escaped => after == Halt(s)
    case StepFailed(why) =>
      && after == Halt(s.(status := Failed, error := Some(FailureMessage(id, why))))
      && RunInv(def, after.state)
    case Finished(output) =>
      && after == Next(s.(context := s.context[id := output]))
      && next <= |def| && AtStep(def, next, after.state)
  }

  /** Every state the database has seen. */
  ghost predicate AllKept(def: Definition, commits: seq<RunState>) {
    forall k :: 0 <= k < |commits| ==> RunInv(def, commits[k])
  }

  lemma OneMoreKept(def: Definition, commits: seq<RunState>, s: RunState)
    requires AllKept(def, commits) && RunInv(def, s)
    ensures AllKept(def, commits + [s])
  {
    hide RunInv;
  }

  lemma RunningIsKept(def: Definition, s: RunState)
    requires s.status == Running && Trace(def, s.rows)
    requires s.rows != [] ==> s.rows[|s.rows| - 1].status != PENDING
    ensures RunInv(def, s)
  {
  }

  /** One more decision resumes where the earlier ones left off. */
  lemma {:induction false} DecideOneMore(
      def: Definition, input: string, s: RunState, decisions: seq<bool>, decision: bool, oracle: Oracle)
    requires Resumable(def, Decide(def, input, s, decisions, oracle))
    ensures Decide(def, input, s, decisions + [decision], oracle)
         == Spec.Resume(def, input, Decide(def, input, s, decisions, oracle), decision, oracle)
    decreases |decisions|
  {
    hide Spec.Resume, Resumable;
    if decisions == [] {
      assert [decision][1..] == [];
    } else {
      assert (decisions + [decision])[1..] == decisions[1..] + [decision];
      DecideOneMore(def, input, Spec.Resume(def, input, s, decisions[0], oracle), decisions[1..], decision, oracle);
    }
  }

  /** How a step ends, and that the run is in good order then. */
  lemma StepOutcome(def: Definition, i: nat, input: string, s: RunState, oracle: Oracle)
    requires IdsApart(def) && i < |def| && AtStep(def, i, s) && !def[i].body.Approval? && s.current == Some(def[i].id)
    ensures var step := def[i];
      var a := RunAttempts(step, 1, input, s.context, oracle);
      match a.outcome
      case Completed(output, context) =>
        var next := RunState(s.status, context[step.id := output], s.current, s.error, s.rows + a.rows);
        RunStep(step, input, s, oracle) == Next(next) && AtStep(def, i + 1, next)
      case GaveUp(error) =>
        var failed := RunState(Failed, s.context, s.current, Some(FailureMessage(step.id, error)), s.rows + a.rows);
        RunStep(step, input, s, oracle) == Halt(failed) && RunInv(def, failed)
      case Crashed =>
        RunStep(step, input, s, oracle) == Halt(RunState(s.status, s.context, s.current, s.error, s.rows + a.rows))
  {
    RunStepKeeps(def, i, input, s, oracle);
    hide AtStep, RunInv, RunAttempts, FailureMessage, IdsApart;
  }

  lemma NextFailure(subs: seq<SubDef>, replies: seq<Reply>, k: nat)
    requires |subs| == |replies| && k < |subs|
    ensures Failures(subs[k..], replies[k..])
         == FailureOf(subs[k], replies[k]) + Failures(subs[k + 1..], replies[k + 1..])
  {
    hide FailureOf;
    assert subs[k..][1..] == subs[k + 1..] && replies[k..][1..] == replies[k + 1..];
  }

  lemma NoMoreFailures(subs: seq<SubDef>, replies: seq<Reply>)
    requires subs == [] && replies == []
    ensures Failures(subs, replies) == []
  {
  }

  lemma ResumesTheFold(def: Definition, input: string, paused: RunState, decisions: seq<bool>, decision: bool,
          oracle: Oracle)
    requires WellFormed(def) && Resumable(def, paused)
    requires paused == Decide(def, input, Spec.ExecuteFrom(def, 0, input, Fresh, oracle), decisions, oracle)
    ensures Spec.Resume(def, input, paused, decision, oracle)
         == Fold(def, 0, input, Fresh, decisions + [decision], oracle)
         == Decide(def, input, Spec.ExecuteFrom(def, 0, input, Fresh, oracle), decisions + [decision], oracle)
  {
    hide WellFormed, Fold, Spec.ExecuteFrom, Spec.Resume, Resumable;
    DecideOneMore(def, input, Spec.ExecuteFrom(def, 0, input, Fresh, oracle), decisions, decision, oracle);
    PausingIsTransparent(def, input, decisions + [decision], oracle);
  }

  /** What resuming finds when the run waits at step i, and what it makes of it. */
  lemma StoppedResumes(def: Definition, i: nat, input: string, before: RunState, oracle: Oracle)
    requires WellFormed(def) && i < |def| && AtStep(def, i, before) && def[i].body.Approval?
    ensures var waiting, id := PauseAt(def[i], input, before), def[i].id;
      && Resumable(def, waiting) && IndexOf(def, id) == i && PendingOf(waiting.rows, id) == |before.rows|
      && Approve(waiting, id, |before.rows|) == Approved(def[i], input, before)
      && Reject(waiting, id, |before.rows|) == Rejected(def[i], input, before)
    ensures AtStep(def, i + 1, Approved(def[i], input, before)) && RunInv(def, Rejected(def[i], input, before))
  {
    ReadyHasNoPending(def, i, before);
    ValidatedApprovalsFound(def);
    hide AtStep, RunInv, PauseAt, Approved, Rejected, NonePending, ApprovalsFound, RefsBackward, IdsApart;
    ApprovalKeeps(def, i, input, before);
    RejectionKeeps(def, i, input, before);
    ResumeWaiting(def, i, input, before, oracle);
  }

  /** Resuming a run that waits at step i, as the fold sees it. */
  lemma ResumeOutcome(
      def: Definition, i: nat, input: string, before: RunState, decisions: seq<bool>, approved: bool, oracle: Oracle)
    requires WellFormed(def) && i < |def| && AtStep(def, i, before) && def[i].body.Approval?
    requires PauseAt(def[i], input, before)
          == Decide(def, input, Spec.ExecuteFrom(def, 0, input, Fresh, oracle), decisions, oracle)
    ensures (if approved then Spec.ExecuteFrom(def, i + 1, input, Approved(def[i], input, before), oracle)
             else Rejected(def[i], input, before))
         == Fold(def, 0, input, Fresh, decisions + [approved], oracle)
         == Decide(def, input, Spec.ExecuteFrom(def, 0, input, Fresh, oracle), decisions + [approved], oracle)
  {
    hide WellFormed, AtStep, PauseAt, Approved, Rejected, Resumable, Spec.ExecuteFrom, Fold, Decide, Approve, Reject,
        IndexOf, PendingOf, RunInv;
    StoppedResumes(def, i, input, before, oracle);
    PausedAtItsStep(def[i], input, before);
    ResumesTheFold(def, input, PauseAt(def[i], input, before), decisions, approved, oracle);
  }

  lemma PausedAtItsStep(step: StepDef, input: string, s: RunState)
    requires step.body.Approval?
    ensures PauseAt(step, input, s).current == Some(step.id) && |PauseAt(step, input, s).rows| == |s.rows| + 1
  {
  }

  lemma CurrentDoesNotMatter(def: Definition, i: nat, s: RunState, current: Option<string>)
    requires i <= |def| && AtStep(def, i, s)
    ensures AtStep(def, i, s.(current := current))
  {
    hide Trace, SettledBy;
    var s' := s.(current := current);
    forall j | 0 <= j < i
      ensures Settled(def, s', j)
    {
      assert Settled(def, s, j);
    }
  }

  lemma ReadyIsKept(def: Definition, i: nat, s: RunState)
    requires i <= |def| && AtStep(def, i, s)
    ensures RunInv(def, s)
  {
    hide Trace, ContextOk, At;
  }

  class WorkflowRun {
    const def: Definition
    const input: string
    const oracle: Oracle

    var status: RunStatus
    var context: Context
    var currentStep: Option<string>
    var error: Option<string>
    var stepRuns: seq<Row>

    ghost var commits: seq<RunState>
    ghost var decided: seq<bool>

    ghost function State(): RunState
      reads this
    {
      RunState(status, context, currentStep, error, stepRuns)
    }

    /** The run is where its decisions led it, and every state committed on the way kept
        the run-state invariant. */
    ghost predicate Valid()
      reads this
    {
      && WellFormed(def)
      && AllKept(def, commits)
      && State() == Decide(def, input, Spec.ExecuteFrom(def, 0, input, Fresh, oracle), decided, oracle)
    }

    method Commit()
      requires RunInv(def, State()) && AllKept(def, commits)
      modifies this`commits
      ensures commits == old(commits) + [State()] && AllKept(def, commits)
    {
      OneMoreKept(def, commits, State());
      commits := commits + [State()];
    }

    method RecordOutput(id: string, output: string)
      modifies this`context
      ensures context == old(context)[id := output]
    {
      context := context[id := output];
    }

    /** _finish */
    method Finish(status: RunStatus, error: Option<string>)
      requires RunInv(def, State().(status := status, error := error)) && AllKept(def, commits)
      modifies this`status, this`error, this`commits
      ensures State() == old(State()).(status := status, error := error)
      ensures AllKept(def, commits)
    {
      this.status := status;
      this.error := error;
      Commit();
    }

    /** _run_parallel: all substeps are rendered from one snapshot of the context; their
        outputs are recorded only if none failed. */
    method RunParallel(step: StepDef, ghost attempt: nat)
      returns (output: Option<string>, error: Option<string>, escaped: bool)
      requires step.body.Parallel?
      modifies this`context
      ensures var attempted := RunAttempt(step, attempt, input, old(context), oracle);
        Reports(attempted, old(context), output, error, escaped, context)
    {
      hide SubReplies, JoinWith, Failures, RecordAll, Outputs;
      var replies := Gather(step.id, step.body.subs, context);
      if exists k :: 0 <= k < |replies| && replies[k].Raised? {
        return None, None, true;
      }
      var failures := CollectFailures(step.body.subs, replies);
      if failures != [] {
        return None, Some(JoinWith(failures, "; ")), false;
      }
      RecordOutputs(step.body.subs, replies);
      output, error, escaped := Some(JoinWith(Outputs(replies), "\n\n")), None, false;
    }

    method CollectFailures(subs: seq<SubDef>, replies: seq<Reply>) returns (failures: seq<string>)
      requires |subs| == |replies|
      ensures failures == Failures(subs, replies)
    {
      hide Failures, FailureOf;
      failures := [];
      for k := 0 to |subs|
        invariant failures + Failures(subs[k..], replies[k..]) == Failures(subs, replies)
      {
        NextFailure(subs, replies, k);
        Assoc(failures, FailureOf(subs[k], replies[k]), Failures(subs[k + 1..], replies[k + 1..]));
        failures := failures + FailureOf(subs[k], replies[k]);
      }
      NoMoreFailures(subs[|subs|..], replies[|subs|..]);
    }

    method RecordOutputs(subs: seq<SubDef>, replies: seq<Reply>)
      requires |subs| == |replies|
      modifies this`context
      ensures context == RecordAll(old(context), subs, replies)
    {
      for k := 0 to |subs|
        invariant RecordAll(context, subs[k..], replies[k..]) == RecordAll(old(context), subs, replies)
      {
        assert subs[k..][1..] == subs[k + 1..] && replies[k..][1..] == replies[k + 1..];
        RecordOutput(subs[k].id, if replies[k].Done? then OrEmpty(replies[k].output) else "");
      }
    }

    method Gather(step: string, subs: seq<SubDef>, snapshot: Context) returns (replies: seq<Reply>)
      ensures replies == SubReplies(step, subs, input, snapshot, oracle) && |replies| == |subs|
    {
      hide CallTask;
      replies := [];
      for k := 0 to |subs|
        invariant replies == SubReplies(step, subs, input, snapshot, oracle)[..k]
      {
        replies := replies + [CallTask(step, 1, Some(k), subs[k].task, input, snapshot, oracle)];
      }
    }

    /** One attempt of a step: what the body of the retry loop does for each kind. */
    method RunOnce(step: StepDef, attempt: nat) returns (output: Option<string>, error: Option<string>, escaped: bool)
      requires !step.body.Approval?
      modifies this`context
      ensures var attempted := RunAttempt(step, attempt, input, old(context), oracle);
        Reports(attempted, old(context), output, error, escaped, context)
    {
      output, error, escaped := None, None, false;
      match step.body
      case Task(task) =>
        match CallTask(step.id, attempt, None, task, input, context, oracle) {
          case Done(result) => output := result;
          case Refused(why) => error := Some(TaskError(why));
          case Raised => escaped := true;
        }
      case Retrieve(query) =>
        match oracle(RetrieveCall(step.id, Render(query, input, context))) {
          case Done(result) => output := result;
          case Refused(why) => error := Some(OrEmpty(why));
          case Raised => error := Some("");
        }
      case Parallel(_) =>
        output, error, escaped := RunParallel(step, attempt);
    }

    /** A new attempt's row is committed as running. */
    method OpenRow(step: StepDef, attempt: nat, ghost i: nat)
      requires i < |def| && def[i] == step && IndexOf(def, step.id) == i && !step.body.Approval?
      requires 1 <= attempt <= MaxAttempts(step) && status == Running && AllKept(def, commits)
      requires Trace(def, stepRuns) && MayCome(def, stepRuns, RowOf(step, RUNNING, attempt, None, None))
      modifies this`stepRuns, this`commits
      ensures stepRuns == old(stepRuns) + [RowOf(step, RUNNING, attempt, None, None)]
      ensures AllKept(def, commits)
    {
      hide IndexOf, Trace, MayCome, AllKept, RunInv, RowFits, MaxAttempts;
      AttemptRow(def, i, stepRuns, attempt, RowOf(step, RUNNING, attempt, None, None));
      stepRuns := stepRuns + [RowOf(step, RUNNING, attempt, None, None)];
      RunningIsKept(def, State());
      Commit();
    }

    /** The running row is updated in place when its attempt ends. */
    method CloseRow(step: StepDef, attempt: nat, end: RowStatus, output: Option<string>, error: Option<string>,
                    ghost i: nat, ghost rows: seq<Row>)
      requires i < |def| && def[i] == step && IndexOf(def, step.id) == i && !step.body.Approval?
      requires 1 <= attempt <= MaxAttempts(step) && status == Running && AllKept(def, commits)
      requires stepRuns == rows + [RowOf(step, RUNNING, attempt, None, None)] && (end == SUCCEEDED || end == FAILED)
      requires Trace(def, rows) && MayCome(def, rows, RowOf(step, RUNNING, attempt, None, None))
      modifies this`stepRuns, this`commits
      ensures stepRuns == rows + [RowOf(step, end, attempt, output, error)]
      ensures AllKept(def, commits) && Trace(def, stepRuns)
      ensures end == FAILED ==> MayCome(def, stepRuns, RowOf(step, RUNNING, attempt + 1, None, None))
    {
      hide IndexOf, Trace, MayCome, AllKept, RunInv, RowFits, MaxAttempts;
      AttemptRow(def, i, rows, attempt, RowOf(step, end, attempt, output, error));
      var row := stepRuns[|stepRuns| - 1];
      stepRuns := stepRuns[|stepRuns| - 1 := row.(status := end, output := output, error := error)];
      assert stepRuns == rows + [RowOf(step, end, attempt, output, error)];
      RunningIsKept(def, State());
      Commit();
    }

    /** One turn of the retry loop. */
    method RunAttemptOf(step: StepDef, attempt: nat, ghost i: nat) returns (end: StepEnd)
      requires i < |def| && def[i] == step && IndexOf(def, step.id) == i && !step.body.Approval?
      requires 1 <= attempt <= MaxAttempts(step) && status == Running && AllKept(def, commits)
      requires Trace(def, stepRuns) && MayCome(def, stepRuns, RowOf(step, RUNNING, attempt, None, None))
      modifies this`context, this`stepRuns, this`commits
      ensures AllKept(def, commits)
      ensures match RunAttempt(step, attempt, input, old(context), oracle)
        case Good(output, after) =>
          && stepRuns == old(stepRuns) + [RowOf(step, SUCCEEDED, attempt, output, None)]
          && context == after && end == Finished(OrEmpty(output))
        case Crash =>
          && stepRuns == old(stepRuns) + [RowOf(step, RUNNING, attempt, None, None)]
          && context == old(context) && end == Escaped
        case Bad(error) =>
          && stepRuns == old(stepRuns) + [RowOf(step, FAILED, attempt, None, Some(error))]
          && context == old(context) && end == StepFailed(error)
          && Trace(def, stepRuns) && MayCome(def, stepRuns, RowOf(step, RUNNING, attempt + 1, None, None))
    {
      hide MaxAttempts, RowOf, IndexOf, Trace, MayCome, AllKept, RunAttempt;
      ghost var rows := stepRuns;
      OpenRow(step, attempt, i);
      var output, error, escaped := RunOnce(step, attempt);
      if escaped {
        end := Escaped;
      } else if error.None? {
        CloseRow(step, attempt, SUCCEEDED, output, None, i, rows);
        end := Finished(OrEmpty(output));
      } else {
        CloseRow(step, attempt, FAILED, None, error, i, rows);
        end := StepFailed(error.value);
      }
    }

    /** _run_step_with_retries */
    method RunStepWithRetries(step: StepDef, ghost i: nat) returns (end: StepEnd)
      requires i < |def| && def[i] == step && IdsApart(def) && !step.body.Approval?
      requires AtStep(def, i, State()) && AllKept(def, commits)
      modifies this`context, this`stepRuns, this`commits
      ensures var a := RunAttempts(step, 1, input, old(context), oracle);
        && stepRuns == old(stepRuns) + a.rows && end == EndOf(a.outcome)
        && context == if a.outcome.Completed? then a.outcome.context else old(context)
      ensures AllKept(def, commits)
    {
      OwnIndex(def, i);
      FirstRowMayCome(def, i, State(), RUNNING, None, None);
      assert Trace(def, stepRuns) && status == Running;
      ghost var before, all := State(), RunAttempts(step, 1, input, context, oracle);
      var retries := if step.body.Task? then step.body.task.retries else 0;
      assert retries + 1 == MaxAttempts(step);
      hide MaxAttempts, RowOf, IndexOf, Trace, MayCome, AllKept, RunAttempt, AtStep, IdsApart;
      end := StepFailed("unknown");
      var attempt := 1;
      assert OnCourse(step, attempt, end.error, input, context, oracle, before.rows, stepRuns);
      hide RunAttempts, OnCourse;
      while attempt < retries + 2
        invariant 1 <= attempt <= retries + 2 && end.StepFailed?
        invariant context == before.context && status == Running
        invariant Trace(def, stepRuns) && AllKept(def, commits)
        invariant attempt < retries + 2 ==> MayCome(def, stepRuns, RowOf(step, RUNNING, attempt, None, None))
        invariant OnCourse(step, attempt, end.error, input, context, oracle, before.rows, stepRuns)
      {
        NextAttempt(step, attempt, end.error, input, context, oracle, before.rows, stepRuns);
        end := RunAttemptOf(step, attempt, i);
        if !end.StepFailed? {
          return;
        }
        attempt := attempt + 1;
      }
      NoMoreAttempts(step, end.error, input, context, oracle, before.rows, stepRuns);
    }

    /** A step whose condition is not met leaves one skipped row. */
    method Skip(step: StepDef, ghost i: nat)
      requires IdsApart(def) && i < |def| && def[i] == step
      requires AtStep(def, i, State()) && AllKept(def, commits) && currentStep == Some(step.id)
      modifies this`stepRuns, this`commits
      ensures State() == SkipStep(step, old(State())) && AllKept(def, commits)
    {
      SkipKeeps(def, i, State());
      stepRuns := stepRuns + [RowOf(step, SKIPPED, 1, None, None)];
      hide RunInv, ContextOk, Trace, IdsApart, AllKept;
      RunningIsKept(def, State());
      Commit();
    }

    /** An approval step leaves a waiting row and pauses the run. */
    method Pause(step: StepDef, ghost i: nat)
      requires IdsApart(def) && i < |def| && def[i] == step && step.body.Approval?
      requires AtStep(def, i, State()) && AllKept(def, commits) && currentStep == Some(step.id)
      modifies this`stepRuns, this`status, this`commits
      ensures State() == PauseAt(step, input, old(State())) && AllKept(def, commits)
    {
      WaitingKeeps(def, i, input, State());
      var text := Render(step.body.message, input, context);
      stepRuns := stepRuns + [RowOf(step, PENDING, 1, if text == "" then None else Some(text), None)];
      status := Paused;
      hide RunInv, AtStep, IdsApart, AllKept;
      Commit();
    }

    /** A task, retrieve or parallel step: its output is recorded, or the run ends. */
    method Perform(step: StepDef, ghost i: nat) returns (proceed: bool)
      requires IdsApart(def) && i < |def| && def[i] == step && !step.body.Approval?
      requires AtStep(def, i, State()) && AllKept(def, commits) && currentStep == Some(step.id)
      modifies this`stepRuns, this`status, this`context, this`error, this`commits
      ensures AllKept(def, commits)
      ensures RunStep(step, input, old(State()), oracle)
           == if proceed then Next(State()) else Halt(State())
    {
      StepOutcome(def, i, input, State(), oracle);
      ghost var after := RunStep(step, input, State(), oracle);
      hide *;
      var end := RunStepWithRetries(step, i);
      proceed := Conclude(end, step.id, i + 1, after);
    }

    /** What the executor makes of a step's end. */
    method Conclude(end: StepEnd, id: string, ghost next: nat, ghost after: Progress) returns (proceed: bool)
      requires AllKept(def, commits)
      requires LeadsTo(def, next, end, id, State(), after)
      modifies this`status, this`context, this`error, this`commits
      ensures after == if proceed then Next(State()) else Halt(State())
      ensures AllKept(def, commits)
    {
      hide AtStep, RunInv, AllKept, FailureMessage;
      match end
      case Escaped =>
        proceed := false;
      case StepFailed(why) =>
        Finish(Failed, Some(FailureMessage(id, why)));
        proceed := false;
      case Finished(output) =>
        Complete(id, output, next);
        proceed := true;
    }

    /** The step's output is recorded and committed. */
    method Complete(id: string, output: string, ghost next: nat)
      requires next <= |def| && AtStep(def, next, State().(context := context[id := output])) && AllKept(def, commits)
      modifies this`context, this`commits
      ensures State() == old(State()).(context := old(context)[id := output]) && AllKept(def, commits)
    {
      hide AtStep, RunInv, AllKept;
      RecordOutput(id, output);
      ReadyIsKept(def, next, State());
      Commit();
    }

    /** One turn of the executor's loop. */
    method ExecuteStep(i: nat) returns (proceed: bool)
      requires IdsApart(def) && i < |def| && AtStep(def, i, State()) && AllKept(def, commits)
      modifies this`stepRuns, this`status, this`context, this`error, this`currentStep, this`commits
      ensures AllKept(def, commits)
      ensures var step := Advance(def[i], input, old(State()), oracle);
        proceed == step.Next? && State() == step.state
      ensures WorkflowMeaning.FirstNewRow(old(stepRuns), stepRuns, WorkflowMeaning.IsSkipped(def[i], old(context)))
      ensures WorkflowMeaning.IsSkipped(def[i], old(context)) ==>
        && proceed && context == old(context) && status == old(status)
        && stepRuns == old(stepRuns) + [Row(def[i].id, KindOf(def[i].body), SKIPPED, 1, None, None)]
    {
      WorkflowMeaning.AdvanceSkipsIff(def[i], input, State(), oracle);
      hide WorkflowMeaning.IsSkipped, WorkflowMeaning.FirstNewRow;
      hide RunInv, IdsApart, AllKept, Trace, ContextOk, RunAttempts, ConditionMet, Message;
      var step := def[i];
      CurrentDoesNotMatter(def, i, State(), Some(step.id));
      currentStep := Some(step.id);
      ReadyIsKept(def, i, State());
      Commit();
      if step.when.Some? && !ConditionMet(step.when.value, context) {
        Skip(step, i);
        proceed := true;
      } else if step.body.Approval? {
        Pause(step, i);
        proceed := false;
      } else {
        proceed := Perform(step, i);
      }
    }

    /** _execute_from */
    method ExecuteFrom(start: nat)
      requires IdsApart(def) && start <= |def| && AtStep(def, start, State()) && AllKept(def, commits)
      modifies this`stepRuns, this`status, this`context, this`error, this`currentStep, this`commits
      ensures State() == Spec.ExecuteFrom(def, start, input, old(State()), oracle)
      ensures AllKept(def, commits)
    {
      hide RunInv, IdsApart, AllKept, AtStep, Advance;
      for i := start to |def|
        invariant AtStep(def, i, State()) && AllKept(def, commits)
        invariant Spec.ExecuteFrom(def, i, input, State(), oracle)
               == Spec.ExecuteFrom(def, start, input, old(State()), oracle)
      {
        AdvanceKeeps(def, i, input, State(), oracle);
        var proceed := ExecuteStep(i);
        if !proceed {
          return;
        }
      }
      AllPassed(def, State());
      Finish(Succeeded, None);
    }

    /** start_run */
    constructor (def: Definition, input: string, oracle: Oracle)
      requires WellFormed(def)
      ensures Valid() && this.def == def && this.input == input && this.oracle == oracle
      ensures decided == [] && State() == Spec.ExecuteFrom(def, 0, input, Fresh, oracle)
    {
      this.def, this.input, this.oracle := def, input, oracle;
      status, context, currentStep, error, stepRuns := Running, map[], None, None, [];
      commits, decided := [], [];
      new;
      FreshIsReady(def);
      ReadyIsKept(def, 0, Fresh);
      hide RunInv, AtStep, IdsApart, RefsBackward, Spec.ExecuteFrom;
      Commit();
      ExecuteFrom(0);
    }

    /** resume_run: the run ends up where the uninterrupted fold of its steps, given the
        same decisions, ends up. */
    method Resume(approved: bool)
      requires Valid() && status == Paused
      modifies this
      ensures Valid() && decided == old(decided) + [approved]
      ensures State() == Fold(def, 0, input, Fresh, decided, oracle)
    {
      ghost var i, next := Stopped(approved);
      hide *;
      decided := decided + [approved];
      var id := currentStep.value;
      Settle(approved, id, IndexOf(def, id), PendingOf(stepRuns, id), next);
    }

    /** The decision takes effect, and an approved run goes on. */
    method Settle(approved: bool, id: string, index: nat, pending: nat, ghost next: RunState)
      requires IdsApart(def) && index < |def| && pending < |stepRuns| && AllKept(def, commits)
      requires next == if approved then Approve(State(), id, pending) else Reject(State(), id, pending)
      requires if approved then AtStep(def, index + 1, next) else RunInv(def, next)
      modifies this`stepRuns, this`status, this`context, this`error, this`currentStep, this`commits
      ensures State() == if approved then Spec.ExecuteFrom(def, index + 1, input, next, oracle) else next
      ensures AllKept(def, commits)
    {
      hide IdsApart, AllKept, AtStep, RunInv, Approve, Reject, RejectionMessage, Spec.ExecuteFrom;
      Resolve(approved, id, pending);
      if approved {
        Proceed(index + 1);
      } else {
        Finish(Failed, Some(RejectionMessage(id)));
      }
    }

    /** The approval is committed and the remaining steps are executed. */
    method Proceed(next: nat)
      requires IdsApart(def) && next <= |def| && AtStep(def, next, State()) && AllKept(def, commits)
      modifies this`stepRuns, this`status, this`context, this`error, this`currentStep, this`commits
      ensures State() == Spec.ExecuteFrom(def, next, input, old(State()), oracle)
      ensures AllKept(def, commits)
    {
      hide RunInv, IdsApart, AllKept, AtStep, Advance, Spec.ExecuteFrom;
      ReadyIsKept(def, next, State());
      Commit();
      ExecuteFrom(next);
    }

    /** The pending row is decided in place; an approval counts as the step's output. */
    method Resolve(approved: bool, id: string, pending: nat)
      requires pending < |stepRuns|
      modifies this`stepRuns, this`context, this`status
      ensures approved ==> State() == Approve(old(State()), id, pending)
      ensures !approved ==>
        State().(status := Failed, error := Some(RejectionMessage(id))) == Reject(old(State()), id, pending)
    {
      hide RejectionMessage, FailureMessage;
      if approved {
        stepRuns := stepRuns[pending := stepRuns[pending].(status := SUCCEEDED)];
        RecordOutput(id, "approved");
        status := Running;
      } else {
        stepRuns := stepRuns[pending := stepRuns[pending].(status := FAILED, error := Some("rejected by operator"))];
      }
    }

    /** Where a paused run stopped, and where either decision leads it. */
    ghost method Stopped(approved: bool) returns (i: nat, next: RunState)
      requires Valid() && status == Paused
      ensures i < |def| && IdsApart(def) && AllKept(def, commits)
      ensures currentStep.Some? && IndexOf(def, currentStep.value) == i
      ensures PendingOf(stepRuns, currentStep.value) < |stepRuns|
      ensures next == if approved then Approve(State(), currentStep.value, PendingOf(stepRuns, currentStep.value))
                      else Reject(State(), currentStep.value, PendingOf(stepRuns, currentStep.value))
      ensures Fold(def, 0, input, Fresh, decided + [approved], oracle)
           == Decide(def, input, Spec.ExecuteFrom(def, 0, input, Fresh, oracle), decided + [approved], oracle)
           == if approved then Spec.ExecuteFrom(def, i + 1, input, next, oracle) else next
      ensures if approved then AtStep(def, i + 1, next) else RunInv(def, next)
    {
      var before: RunState;
      hide AtStep, RunInv, AllKept, IdsApart, RefsBackward, PauseAt;
      PausingIsTransparent(def, input, decided, oracle);
      FreshIsReady(def);
      i, before := PauseComesFrom(def, 0, input, Fresh, decided, oracle);
      PausedAtItsStep(def[i], input, before);
      hide Decide, Fold, Spec.ExecuteFrom, Approve, Reject, Approved, Rejected, IndexOf, PendingOf, Resumable;
      StoppedResumes(def, i, input, before, oracle);
      ResumeOutcome(def, i, input, before, decided, approved, oracle);
      next := if approved then Approved(def[i], input, before) else Rejected(def[i], input, before);
    }
  }
}
