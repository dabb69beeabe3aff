/** What every committed state of a workflow run satisfies, and what its steps may read
    (backend/app/services/workflow.py). */
module WorkflowInvariants {
  import opened Prelude
  import opened WorkflowSchema
  import opened WorkflowSpec

  // ----- the step trace ---------------------------------------------------------------------

  function At(def: Definition, r: Row): nat {
    IndexOf(def, r.stepId)
  }

  /** The row is one its step can have. */
  predicate RowFits(def: Definition, r: Row) {
    var i := At(def, r);
    && i < |def|
    && r.kind == KindOf(def[i].body)
    && 1 <= r.attempt <= MaxAttempts(def[i])
    && (r.status == PENDING ==> r.kind == ApprovalKind)
    && (r.status == RUNNING ==> r.kind != ApprovalKind)
    && (r.status == SKIPPED ==> r.attempt == 1)
  }

  predicate Passed(r: Row) {
    r.status == SUCCEEDED || r.status == SKIPPED
  }

  /** Row b may come right after row a: a retry of a failed attempt, or the first row of
      the next step after one that passed. */
  predicate Follows(def: Definition, a: Row, b: Row) {
    || (At(def, b) == At(def, a) && a.status == FAILED && b.attempt == a.attempt + 1)
    || (At(def, b) == At(def, a) + 1 && Passed(a) && b.attempt == 1)
  }

  predicate MayCome(def: Definition, rows: seq<Row>, r: Row) {
    if rows == [] then At(def, r) == 0 && r.attempt == 1 else Follows(def, rows[|rows| - 1], r)
  }

  /** Each step's rows are attempts 1, 2, ... of which only the last can have passed, still
      run, wait or have failed for good; the steps appear in order, none left out. */
  ghost predicate Trace(def: Definition, rows: seq<Row>) {
    forall k :: 0 <= k < |rows| ==> RowFits(def, rows[k]) && MayCome(def, rows[..k], rows[k])
  }

  lemma TraceAppend(def: Definition, rows: seq<Row>, r: Row)
    requires Trace(def, rows) && RowFits(def, r) && MayCome(def, rows, r)
    ensures Trace(def, rows + [r])
  {
    hide RowFits, MayCome;
    forall k | 0 <= k < |rows + [r]|
      ensures RowFits(def, (rows + [r])[k]) && MayCome(def, (rows + [r])[..k], (rows + [r])[k])
    {
      if k < |rows| {
        assert (rows + [r])[..k] == rows[..k];
      } else {
        assert (rows + [r])[..k] == rows;
      }
    }
  }

  /** Only the last row can be running, waiting, or failed for good. */
  lemma OnlyLastIsOpen(def: Definition, rows: seq<Row>, k: nat)
    requires Trace(def, rows) && k < |rows| - 1
    ensures Closed(def, rows[k])
  {
    assert rows[..k + 1][k] == rows[k];
    assert MayCome(def, rows[..k + 1], rows[k + 1]);
    assert Follows(def, rows[k], rows[k + 1]);
    assert RowFits(def, rows[k + 1]) && RowFits(def, rows[k]);
  }

  // ----- the run-state invariant --------------------------------------------------------------

  /** How the last row decides the run's status. A run still `running` may have any last
      row but a waiting one, since every attempt and step is committed as it goes. */
  ghost predicate RunInv(def: Definition, s: RunState) {
    && Trace(def, s.rows)
    && match s.status
       case Running => s.rows != [] ==> s.rows[|s.rows| - 1].status != PENDING
       case Paused =>
         s.rows != [] && s.rows[|s.rows| - 1].status == PENDING && s.current == Some(s.rows[|s.rows| - 1].stepId)
       case Succeeded =>
         if s.rows == [] then def == []
         else Passed(s.rows[|s.rows| - 1]) && At(def, s.rows[|s.rows| - 1]) == |def| - 1
       case Failed =>
         s.rows != [] && FailedForGood(def, s.rows[|s.rows| - 1])
         && s.current == Some(s.rows[|s.rows| - 1].stepId)
  }

  /** A run is paused exactly when one row waits for approval; it is the last row, of the
      current step. At most one row is running, again the last. */
  lemma WhatTheInvariantMeans(def: Definition, s: RunState)
    requires RunInv(def, s)
    ensures s.status == Paused <==> exists k :: 0 <= k < |s.rows| && s.rows[k].status == PENDING
    ensures forall k :: 0 <= k < |s.rows| && s.rows[k].status == PENDING ==>
      k == |s.rows| - 1 && s.current == Some(s.rows[k].stepId)
    ensures forall k :: 0 <= k < |s.rows| && s.rows[k].status == RUNNING ==> k == |s.rows| - 1 && s.status == Running
    ensures forall k :: 0 <= k < |s.rows| && FailedForGood(def, s.rows[k]) ==> k == |s.rows| - 1
  {
    hide Trace, FailedForGood;
    if s.rows != [] {
      var last := |s.rows| - 1;
      forall k: nat | k < last
        ensures s.rows[k].status != RUNNING && s.rows[k].status != PENDING && !FailedForGood(def, s.rows[k])
      {
        OnlyLastIsOpen(def, s.rows, k);
      }
      LastTellsStatus(def, s, last);
    }
  }

  lemma LastTellsStatus(def: Definition, s: RunState, last: nat)
    requires RunInv(def, s) && last == |s.rows| - 1
    ensures s.status == Paused <==> s.rows[last].status == PENDING
    ensures s.rows[last].status == PENDING ==> s.current == Some(s.rows[last].stepId)
    ensures s.rows[last].status == RUNNING ==> s.status == Running
  {
    hide Trace, At, MaxAttempts;
  }

  predicate FailedForGood(def: Definition, r: Row) {
    r.status == FAILED && At(def, r) < |def| && r.attempt >= MaxAttempts(def[At(def, r)])
  }

  predicate Closed(def: Definition, r: Row) {
    r.status != RUNNING && r.status != PENDING && !FailedForGood(def, r)
  }

  lemma ClosedBeforeLast(def: Definition, rows: seq<Row>)
    requires Trace(def, rows)
    ensures forall k :: 0 <= k < |rows| - 1 ==> Closed(def, rows[k])
  {
    forall k: nat | k < |rows| - 1
      ensures Closed(def, rows[k])
    {
      OnlyLastIsOpen(def, rows, k);
    }
  }

  // ----- what the context holds --------------------------------------------------------------------

  /** What a passed step recorded under its own id. */
  function Recorded(step: StepDef, r: Row): string {
    if step.body.Approval? then "approved" else OrEmpty(r.output)
  }

  /** Step j passed: it succeeded and its ids are recorded, or it was skipped and none is. */
  ghost predicate Settled(def: Definition, s: RunState, j: nat)
    requires j < |def|
  {
    exists k :: 0 <= k < |s.rows| && s.rows[k].stepId == def[j].id && SettledBy(def[j], s.context, s.rows[k])
  }

  ghost predicate SettledBy(step: StepDef, context: Context, r: Row) {
    || (r.status == SUCCEEDED && IdSet(step) <= context.Keys
        && step.id in context && context[step.id] == Recorded(step, r))
    || (r.status == SKIPPED && IdSet(step) !! context.Keys)
  }

  ghost predicate ContextOk(def: Definition, i: nat, s: RunState)
    requires i <= |def|
  {
    && (forall j :: 0 <= j < i ==> Settled(def, s, j))
    && (forall id :: id in s.context ==> DefinedBefore(def, i, id))
  }

  /** Ready to execute step i: every earlier step passed, nothing of a later one exists. */
  ghost predicate AtStep(def: Definition, i: nat, s: RunState)
    requires i <= |def|
  {
    && s.status == Running
    && Trace(def, s.rows)
    && (if i == 0 then s.rows == []
        else s.rows != [] && At(def, s.rows[|s.rows| - 1]) == i - 1 && Passed(s.rows[|s.rows| - 1]))
    && ContextOk(def, i, s)
  }

  /** Every reference of step i names an earlier step, which either succeeded, so that its
      recorded output is read, or was skipped, so that the reference renders empty. */
  ghost predicate ReadsSafely(def: Definition, i: nat, s: RunState)
    requires i < |def|
  {
    forall r :: r in Refs(def[i]) ==>
      exists j :: 0 <= j < i && r in IdSet(def[j]) && SafeRead(def[j], s, r)
  }

  ghost predicate SafeRead(step: StepDef, s: RunState, id: string) {
    exists k :: 0 <= k < |s.rows| && s.rows[k].stepId == step.id
      && ((s.rows[k].status == SUCCEEDED && id in s.context) || (s.rows[k].status == SKIPPED && id !in s.context))
  }

  /** An id defined by an earlier step reads safely there, and no other id does: what no
      earlier step defines reads empty. */
  lemma ReadsSafelyIff(def: Definition, i: nat, s: RunState, id: string)
    requires i <= |def| && AtStep(def, i, s)
    ensures DefinedBefore(def, i, id) <==> exists j :: 0 <= j < i && id in IdSet(def[j]) && SafeRead(def[j], s, id)
    ensures !DefinedBefore(def, i, id) ==> Lookup(s.context, id) == ""
  {
    hide IdSet, Trace, Recorded;
    if DefinedBefore(def, i, id) {
      var j :| 0 <= j < i && id in IdSet(def[j]);
      assert Settled(def, s, j);
      var k :| 0 <= k < |s.rows| && s.rows[k].stepId == def[j].id && SettledBy(def[j], s.context, s.rows[k]);
      assert SafeRead(def[j], s, id);
    }
  }

  lemma AtStepReadsSafely(def: Definition, i: nat, s: RunState)
    requires WellFormed(def) && i < |def| && AtStep(def, i, s)
    ensures ReadsSafely(def, i, s)
  {
    hide Refs, IdSet, Trace, SafeRead, AtStep;
    forall r | r in Refs(def[i])
      ensures exists j :: 0 <= j < i && r in IdSet(def[j]) && SafeRead(def[j], s, r)
    {
      assert DefinedBefore(def, i, r);
      ReadsSafelyIff(def, i, s, r);
    }
  }

  // ----- what a step adds to the context --------------------------------------------------------------

  /** From before to after, only ids of the step were touched, and all of them are there. */
  ghost predicate Adds(step: StepDef, before: Context, after: Context) {
    && after.Keys == before.Keys + IdSet(step)
    && (forall id :: id in before && id !in IdSet(step) ==> after[id] == before[id])
  }

  function SubIdSet(subs: seq<SubDef>): set<string> {
    if subs == [] then {} else {subs[0].id} + SubIdSet(subs[1..])
  }

  lemma {:induction false} RecordAllAdds(context: Context, subs: seq<SubDef>, replies: seq<Reply>)
    requires |subs| == |replies|
    ensures var after := RecordAll(context, subs, replies);
      && after.Keys == context.Keys + SubIdSet(subs)
      && (forall id :: id in context && id !in SubIdSet(subs) ==> after[id] == context[id])
    decreases |subs|
  {
    if subs != [] {
      var output := if replies[0].Done? then OrEmpty(replies[0].output) else "";
      RecordAllAdds(context[subs[0].id := output], subs[1..], replies[1..]);
    }
  }

  lemma {:induction false} SubIdSetIs(subs: seq<SubDef>, id: string)
    ensures id in SubIdSet(subs) <==> exists k :: 0 <= k < |subs| && subs[k].id == id
  {
    if subs != [] {
      var rest := subs[1..];
      SubIdSetIs(rest, id);
      if id in SubIdSet(rest) {
        var k :| 0 <= k < |rest| && rest[k].id == id;
        assert subs[k + 1].id == id;
      }
      if k :| 0 <= k < |subs| && subs[k].id == id && k > 0 {
        assert rest[k - 1].id == id;
      }
    }
  }

  /** A substep's recorded output is that of the last substep of its id. */
  lemma {:induction false} LastSubstepWins(context: Context, subs: seq<SubDef>, replies: seq<Reply>, k: nat)
    requires |subs| == |replies| && k < |subs|
    requires forall m :: k < m < |subs| ==> subs[m].id != subs[k].id
    ensures subs[k].id in RecordAll(context, subs, replies)
    ensures RecordAll(context, subs, replies)[subs[k].id] == if replies[k].Done? then OrEmpty(replies[k].output) else ""
    decreases |subs|
  {
    var context' := context[subs[0].id := if replies[0].Done? then OrEmpty(replies[0].output) else ""];
    var rest := subs[1..];
    assert forall m :: 0 <= m < |rest| ==> rest[m] == subs[m + 1];
    if k == 0 {
      RecordAllAdds(context', rest, replies[1..]);
      SubIdSetIs(rest, subs[0].id);
    } else {
      LastSubstepWins(context', rest, replies[1..], k - 1);
    }
  }

  lemma ParallelIds(step: StepDef)
    requires step.body.Parallel?
    ensures IdSet(step) == {step.id} + SubIdSet(step.body.subs)
  {
    var ids, subs := IdsHere(step), step.body.subs;
    assert forall k :: 0 <= k < |subs| ==> ids[k + 1] == subs[k].id;
    forall id
      ensures id in IdSet(step) <==> id in {step.id} + SubIdSet(subs)
    {
      SubIdSetIs(subs, id);
      if id in ids {
        var m :| 0 <= m < |ids| && ids[m] == id;
        assert m == 0 || ids[m] == subs[m - 1].id;
      }
      if k :| 0 <= k < |subs| && subs[k].id == id {
        assert ids[k + 1] == id;
      }
    }
  }

  lemma GoodAttemptAdds(step: StepDef, attempt: nat, input: string, context: Context, oracle: Oracle)
    requires !step.body.Approval? && RunAttempt(step, attempt, input, context, oracle).Good?
    ensures var a := RunAttempt(step, attempt, input, context, oracle);
      Adds(step, context, a.context[step.id := OrEmpty(a.output)])
  {
    OwnId(step);
    if step.body.Parallel? {
      var subs, replies := step.body.subs, SubReplies(step.id, step.body.subs, input, context, oracle);
      hide SubReplies, IdSet, Failures, Outputs, RecordAll, JoinWith;
      RecordAllAdds(context, subs, replies);
      ParallelIds(step);
    } else {
      hide Render;
      assert IdSet(step) == {step.id};
    }
  }

  // ----- one step keeps the invariants -----------------------------------------------------------------

  /** The attempts' last row tells how the step ended. */
  predicate LastTells(step: StepDef, rows: seq<Row>, outcome: Outcome) {
    rows != [] && Tells(step, rows[|rows| - 1], outcome)
  }

  predicate Tells(step: StepDef, last: Row, outcome: Outcome) {
    last.stepId == step.id
    && match outcome
       case Completed(output, _) => last.status == SUCCEEDED && OrEmpty(last.output) == output
       case GaveUp(_) => last.status == FAILED && last.attempt == MaxAttempts(step)
       case Crashed => last.status == RUNNING
  }

  lemma {:induction false} LastRowTells(step: StepDef, attempt: nat, input: string, context: Context, oracle: Oracle)
    requires !step.body.Approval? && 1 <= attempt <= MaxAttempts(step)
    ensures var a := RunAttempts(step, attempt, input, context, oracle);
      LastTells(step, a.rows, a.outcome)
    decreases MaxAttempts(step) - attempt
  {
    hide RunAttempt;
    if RunAttempt(step, attempt, input, context, oracle).Bad? && attempt < MaxAttempts(step) {
      LastRowTells(step, attempt + 1, input, context, oracle);
    }
  }

  lemma {:induction false} CompletedAdds(step: StepDef, attempt: nat, input: string, context: Context, oracle: Oracle)
    requires !step.body.Approval? && 1 <= attempt <= MaxAttempts(step)
    ensures var a := RunAttempts(step, attempt, input, context, oracle);
      a.outcome.Completed? ==> Adds(step, context, a.outcome.context[step.id := a.outcome.output])
    decreases MaxAttempts(step) - attempt
  {
    if RunAttempt(step, attempt, input, context, oracle).Good? {
      GoodAttemptAdds(step, attempt, input, context, oracle);
    }
    hide RunAttempt, Adds, OrEmpty, RowOf;
    if RunAttempt(step, attempt, input, context, oracle).Bad? && attempt < MaxAttempts(step) {
      CompletedAdds(step, attempt + 1, input, context, oracle);
    }
  }

  /** The rows of the attempts continue the trace. */
  lemma {:induction false} AttemptsContinueTrace(
      def: Definition, i: nat, rows: seq<Row>, attempt: nat, input: string, context: Context, oracle: Oracle)
    requires i < |def| && IndexOf(def, def[i].id) == i && !def[i].body.Approval?
    requires 1 <= attempt <= MaxAttempts(def[i]) && Trace(def, rows)
    requires MayCome(def, rows, RowOf(def[i], RUNNING, attempt, None, None))
    ensures Trace(def, rows + RunAttempts(def[i], attempt, input, context, oracle).rows)
    decreases MaxAttempts(def[i]) - attempt
  {
    hide RunAttempt, IndexOf, Trace, MayCome;
    var step := def[i];
    var a := RunAttempts(step, attempt, input, context, oracle);
    AttemptRow(def, i, rows, attempt, a.rows[0]);
    if RunAttempt(step, attempt, input, context, oracle).Bad? && attempt < MaxAttempts(step) {
      var row := a.rows[0];
      var more := RunAttempts(step, attempt + 1, input, context, oracle);
      hide RunAttempts, RowOf;
      AttemptsContinueTrace(def, i, rows + [row], attempt + 1, input, context, oracle);
      Assoc(rows, [row], more.rows);
    } else {
      assert a.rows == [a.rows[0]];
    }
  }

  /** One attempt's row continues the trace; a failed one lets a retry come. */
  lemma AttemptRow(def: Definition, i: nat, rows: seq<Row>, attempt: nat, row: Row)
    requires i < |def| && IndexOf(def, def[i].id) == i && !def[i].body.Approval?
    requires 1 <= attempt <= MaxAttempts(def[i]) && Trace(def, rows)
    requires MayCome(def, rows, RowOf(def[i], RUNNING, attempt, None, None))
    requires row == RowOf(def[i], row.status, attempt, row.output, row.error)
    requires row.status != SKIPPED && row.status != PENDING
    ensures Trace(def, rows + [row])
    ensures row.status == FAILED ==> MayCome(def, rows + [row], RowOf(def[i], RUNNING, attempt + 1, None, None))
  {
    hide IndexOf, Trace;
    TraceAppend(def, rows, row);
    assert (rows + [row])[|rows + [row]| - 1] == row;
  }

  lemma FirstRowMayCome(def: Definition, i: nat, s: RunState, status: RowStatus, output: Option<string>,
          error: Option<string>)
    requires i < |def| && IndexOf(def, def[i].id) == i && AtStep(def, i, s)
    ensures MayCome(def, s.rows, RowOf(def[i], status, 1, output, error))
  {
    hide Trace, ContextOk, IndexOf;
  }

  /** The earlier steps stay settled when rows are added and only new ids recorded. */
  lemma EarlierStaysSettled(def: Definition, i: nat, j: nat, s: RunState, s': RunState)
    requires IdsApart(def) && j < i < |def| && Settled(def, s, j)
    requires s.rows <= s'.rows && (s'.context == s.context || Adds(def[i], s.context, s'.context))
    ensures Settled(def, s', j)
  {
    var k :| 0 <= k < |s.rows| && s.rows[k].stepId == def[j].id && SettledBy(def[j], s.context, s.rows[k]);
    assert s'.rows[k] == s.rows[k];
    OwnId(def[j]);
    assert IdSet(def[j]) !! IdSet(def[i]);
    hide IdSet, Recorded;
  }

  lemma ContextGrows(def: Definition, i: nat, s: RunState, s': RunState, k: nat)
    requires IdsApart(def) && i < |def| && ContextOk(def, i, s)
    requires s.rows <= s'.rows && (s'.context == s.context || Adds(def[i], s.context, s'.context))
    requires k < |s'.rows| && s'.rows[k].stepId == def[i].id && SettledBy(def[i], s'.context, s'.rows[k])
    ensures ContextOk(def, i + 1, s')
  {
    hide SettledBy, IdsApart;
    forall j | 0 <= j < i + 1
      ensures Settled(def, s', j)
    {
      if j < i {
        EarlierStaysSettled(def, i, j, s, s');
      }
    }
    hide IdSet;
    forall id | id in s'.context
      ensures DefinedBefore(def, i + 1, id)
    {
      if id in s.context {
        assert DefinedBefore(def, i, id);
        var j :| 0 <= j < i && id in IdSet(def[j]);
      }
    }
  }

  /** None of a step's ids is recorded before it runs. */
  lemma NotYetRecorded(def: Definition, i: nat, s: RunState)
    requires IdsApart(def) && i < |def| && ContextOk(def, i, s)
    ensures IdSet(def[i]) !! s.context.Keys
  {
    hide IdSet;
    forall id | id in s.context
      ensures id !in IdSet(def[i])
    {
      assert DefinedBefore(def, i, id);
      var j :| 0 <= j < i && id in IdSet(def[j]);
    }
  }

  lemma OwnIndex(def: Definition, i: nat)
    requires IdsApart(def) && i < |def|
    ensures IndexOf(def, def[i].id) == i
  {
    forall j: nat | j < i
      ensures def[j].id != def[i].id
    {
      if def[j].id == def[i].id {
        TopLevelIdsDistinct(def, j, i);
      }
    }
    FirstOfItsName(def, i);
  }

  /** New rows whose last settles step i: the run is ready for step i + 1. */
  lemma LastRowSettles(def: Definition, i: nat, s: RunState, added: seq<Row>, s': RunState)
    requires IdsApart(def) && i < |def| && ContextOk(def, i, s)
    requires s'.status == Running && added != [] && s'.rows == s.rows + added && Trace(def, s'.rows)
    requires s'.context == s.context || Adds(def[i], s.context, s'.context)
    requires var last := added[|added| - 1];
      last.stepId == def[i].id && Passed(last) && SettledBy(def[i], s'.context, last)
    ensures AtStep(def, i + 1, s')
  {
    var last := s'.rows[|s'.rows| - 1];
    assert last == added[|added| - 1];
    OwnIndex(def, i);
    assert At(def, last) == i;
    hide IndexOf, SettledBy, Adds, IdsApart, At, Passed, Trace;
    ContextGrows(def, i, s, s', |s'.rows| - 1);
    hide ContextOk;
  }

  lemma SkipKeeps(def: Definition, i: nat, s: RunState)
    requires IdsApart(def) && i < |def| && AtStep(def, i, s)
    ensures AtStep(def, i + 1, SkipStep(def[i], s))
  {
    OwnIndex(def, i);
    NotYetRecorded(def, i, s);
    FirstRowMayCome(def, i, s, SKIPPED, None, None);
    hide IndexOf, ContextOk, IdSet, MayCome, IdsApart;
    TraceAppend(def, s.rows, RowOf(def[i], SKIPPED, 1, None, None));
    hide Trace, Adds;
    LastRowSettles(def, i, s, [RowOf(def[i], SKIPPED, 1, None, None)], SkipStep(def[i], s));
  }

  lemma RecordedSettles(step: StepDef, before: Context, after: Context, row: Row)
    requires Adds(step, before, after) && !step.body.Approval?
    requires row.status == SUCCEEDED && step.id in after && after[step.id] == OrEmpty(row.output)
    ensures SettledBy(step, after, row)
  {
  }

  lemma StepCompletes(def: Definition, i: nat, s: RunState, a: Attempts, s': RunState)
    requires IdsApart(def) && i < |def| && AtStep(def, i, s) && !def[i].body.Approval?
    requires Trace(def, s.rows + a.rows) && LastTells(def[i], a.rows, a.outcome) && a.outcome.Completed?
    requires s'.rows == s.rows + a.rows && s'.status == s.status
    requires s'.context == a.outcome.context[def[i].id := a.outcome.output] && Adds(def[i], s.context, s'.context)
    ensures AtStep(def, i + 1, s')
  {
    hide IndexOf, IdSet, Trace, IdsApart, Adds, SettledBy, ContextOk;
    RecordedSettles(def[i], s.context, s'.context, a.rows[|a.rows| - 1]);
    LastRowSettles(def, i, s, a.rows, s');
  }

  lemma StepHalts(def: Definition, i: nat, s: RunState, a: Attempts, s': RunState)
    requires i < |def| && IndexOf(def, def[i].id) == i
    requires Trace(def, s.rows + a.rows) && LastTells(def[i], a.rows, a.outcome) && !a.outcome.Completed?
    requires s'.rows == s.rows + a.rows && s'.current == Some(def[i].id)
    requires s'.status == if a.outcome.GaveUp? then Failed else Running
    ensures RunInv(def, s')
  {
    hide IndexOf, Trace, MaxAttempts;
    assert s'.rows[|s'.rows| - 1] == a.rows[|a.rows| - 1];
  }

  lemma RunStepKeeps(def: Definition, i: nat, input: string, s: RunState, oracle: Oracle)
    requires IdsApart(def) && i < |def| && AtStep(def, i, s) && !def[i].body.Approval?
    ensures match RunStep(def[i], input, s, oracle)
      case Next(s') => AtStep(def, i + 1, s')
      case Halt(s') => RunInv(def, s')
      case Wait(_) => false
  {
    OwnIndex(def, i);
    var step := def[i];
    FirstRowMayCome(def, i, s, RUNNING, None, None);
    var a := RunAttempts(step, 1, input, s.context, oracle);
    assert Trace(def, s.rows) && s.status == Running;
    hide AtStep, RunInv, RunAttempts, IndexOf, MayCome, Trace, IdsApart, MaxAttempts, LastTells, Adds,
        RejectionMessage, FailureMessage;
    AttemptsContinueTrace(def, i, s.rows, 1, input, s.context, oracle);
    LastRowTells(step, 1, input, s.context, oracle);
    CompletedAdds(step, 1, input, s.context, oracle);
    var s' := RunStep(step, input, s, oracle).state;
    if a.outcome.Completed? {
      StepCompletes(def, i, s, a, s');
    } else {
      StepHalts(def, i, s, a, s');
    }
  }

  /** The step executed from a good state leads to a good state. */
  lemma AdvanceKeeps(def: Definition, i: nat, input: string, s: RunState, oracle: Oracle)
    requires IdsApart(def) && i < |def| && AtStep(def, i, s)
    ensures match Advance(def[i], input, s, oracle)
      case Next(s') => AtStep(def, i + 1, s')
      case Halt(s') => RunInv(def, s')
      case Wait(s') => RunInv(def, s') && def[i].body.Approval? && s' == PauseAt(def[i], input, s)
  {
    if Skips(def[i], s.context) {
      SkipKeeps(def, i, s);
    } else if def[i].body.Approval? {
      WaitingKeeps(def, i, input, s);
    } else {
      RunStepKeeps(def, i, input, s, oracle);
    }
  }

  lemma ApprovalTrace(def: Definition, i: nat, s: RunState, row: Row)
    requires IdsApart(def) && i < |def| && AtStep(def, i, s) && def[i].body.Approval?
    requires row == RowOf(def[i], row.status, 1, row.output, row.error)
    requires row.status == PENDING || row.status == SUCCEEDED || row.status == FAILED
    ensures Trace(def, s.rows + [row]) && At(def, row) == i
  {
    OwnIndex(def, i);
    FirstRowMayCome(def, i, s, row.status, row.output, row.error);
    hide IndexOf, AtStep, MayCome, IdsApart, Trace;
    TraceAppend(def, s.rows, row);
  }

  /** A waiting approval, and what either decision makes of it. */
  lemma WaitingKeeps(def: Definition, i: nat, input: string, s: RunState)
    requires IdsApart(def) && i < |def| && AtStep(def, i, s) && def[i].body.Approval?
    ensures RunInv(def, PauseAt(def[i], input, s))
  {
    hide Message, AtStep, IdsApart, Trace;
    ApprovalTrace(def, i, s, RowOf(def[i], PENDING, 1, Message(def[i], input, s.context), None));
  }

  lemma RejectionKeeps(def: Definition, i: nat, input: string, s: RunState)
    requires IdsApart(def) && i < |def| && AtStep(def, i, s) && def[i].body.Approval?
    ensures RunInv(def, Rejected(def[i], input, s))
  {
    hide Message, AtStep, IdsApart, Trace, RejectionMessage, FailureMessage;
    var s' := Rejected(def[i], input, s);
    ApprovalTrace(def, i, s, s'.rows[|s'.rows| - 1]);
  }

  lemma ApprovalKeeps(def: Definition, i: nat, input: string, s: RunState)
    requires IdsApart(def) && i < |def| && AtStep(def, i, s) && def[i].body.Approval?
    ensures AtStep(def, i + 1, Approved(def[i], input, s))
  {
    hide Message, IdsApart, Trace, ContextOk;
    var step, s' := def[i], Approved(def[i], input, s);
    var row := s'.rows[|s'.rows| - 1];
    OwnId(step);
    assert IdSet(step) == {step.id};
    ApprovalTrace(def, i, s, row);
    hide IdSet;
    assert SettledBy(step, s'.context, row);
    assert Adds(step, s.context, s'.context);
    hide SettledBy, Adds;
    LastRowSettles(def, i, s, [row], s');
  }

  // ----- whole runs ------------------------------------------------------------------------------------

  lemma AllPassed(def: Definition, s: RunState)
    requires AtStep(def, |def|, s)
    ensures RunInv(def, s.(status := Succeeded, error := None))
  {
    hide ContextOk, Trace, IndexOf;
  }

  lemma {:induction false} FoldKeeps(def: Definition, i: nat, input: string, s: RunState, decisions: seq<bool>,
          oracle: Oracle)
    requires IdsApart(def) && i <= |def| && AtStep(def, i, s)
    ensures RunInv(def, Fold(def, i, input, s, decisions, oracle))
    decreases |def| - i
  {
    hide IdsApart, AtStep, RunInv, Advance, Message, PauseAt, Rejected, Approved;
    if i == |def| {
      AllPassed(def, s);
    } else {
      AdvanceKeeps(def, i, input, s, oracle);
      match Advance(def[i], input, s, oracle)
      case Halt(_) =>
      case Next(s') => FoldKeeps(def, i + 1, input, s', decisions, oracle);
      case Wait(_) =>
        RejectionKeeps(def, i, input, s);
        ApprovalKeeps(def, i, input, s);
        if decisions != [] && decisions[0] {
          FoldKeeps(def, i + 1, input, Approved(def[i], input, s), decisions[1..], oracle);
        }
    }
  }

  lemma FreshIsReady(def: Definition)
    ensures AtStep(def, 0, Fresh)
  {
  }

  /** In every run of a validated definition, after any number of decisions, the run is
      paused exactly when its last row waits, failed exactly with a last row failed for
      good, and succeeded only when every step passed. */
  lemma EveryRunKeepsTheInvariant(def: Definition, input: string, decisions: seq<bool>, oracle: Oracle)
    requires WellFormed(def)
    ensures RunInv(def, Decide(def, input, ExecuteFrom(def, 0, input, Fresh, oracle), decisions, oracle))
  {
    PausingIsTransparent(def, input, decisions, oracle);
    FreshIsReady(def);
    FoldKeeps(def, 0, input, Fresh, decisions, oracle);
  }

  /** A paused run stopped at an approval it had reached in good order. */
  lemma {:induction false} PauseComesFrom(
      def: Definition, i: nat, input: string, s: RunState, decisions: seq<bool>, oracle: Oracle)
    returns (k: nat, before: RunState)
    requires IdsApart(def) && i <= |def| && AtStep(def, i, s)
    requires Fold(def, i, input, s, decisions, oracle).status == Paused
    ensures k < |def| && AtStep(def, k, before) && def[k].body.Approval?
    ensures Fold(def, i, input, s, decisions, oracle) == PauseAt(def[k], input, before)
    decreases |def| - i
  {
    hide IdsApart, AtStep, Advance, Message, PauseAt, Approved, Rejected;
    if i < |def| {
      WaitOrGoOn(def, i, input, s, oracle);
      match Advance(def[i], input, s, oracle)
      case Halt(_) =>
      case Next(s') => k, before := PauseComesFrom(def, i + 1, input, s', decisions, oracle);
      case Wait(_) =>
        if decisions == [] {
          k, before := i, s;
        } else {
          RejectedFails(def[i], input, s);
          k, before := PauseComesFrom(def, i + 1, input, Approved(def[i], input, s), decisions[1..], oracle);
        }
    }
  }

  lemma WaitOrGoOn(def: Definition, i: nat, input: string, s: RunState, oracle: Oracle)
    requires IdsApart(def) && i < |def| && AtStep(def, i, s)
    ensures match Advance(def[i], input, s, oracle)
      case Next(s') => AtStep(def, i + 1, s')
      case Halt(s') => s'.status != Paused
      case Wait(s') =>
        def[i].body.Approval? && s' == PauseAt(def[i], input, s) && AtStep(def, i + 1, Approved(def[i], input, s))
  {
    ReadyHasNoPending(def, i, s);
    hide IdsApart, AtStep, Advance, PauseAt, Approved, NonePending, RunInv;
    AdvanceLeavesNonePending(def[i], input, s, oracle);
    AdvanceKeeps(def, i, input, s, oracle);
    if Advance(def[i], input, s, oracle).Wait? {
      ApprovalKeeps(def, i, input, s);
    }
  }

  lemma RejectedFails(step: StepDef, input: string, s: RunState)
    requires step.body.Approval?
    ensures Rejected(step, input, s).status == Failed
  {
  }

  lemma ReadyHasNoPending(def: Definition, i: nat, s: RunState)
    requires i <= |def| && AtStep(def, i, s)
    ensures NonePending(s.rows) && s.status == Running
  {
    ClosedBeforeLast(def, s.rows);
    hide Trace, ContextOk, At, FailedForGood;
  }

  /** A step about to be executed, and the state it is executed in. */
  datatype Visit = Visit(step: nat, state: RunState)

  /** Every step the fold reaches, with the state it finds. */
  function Visits(def: Definition, i: nat, input: string, s: RunState, decisions: seq<bool>, oracle: Oracle): seq<Visit>
    requires i <= |def|
    decreases |def| - i
  {
    if i == |def| then []
    else
      [Visit(i, s)] +
      match Advance(def[i], input, s, oracle)
      case Next(s') => Visits(def, i + 1, input, s', decisions, oracle)
      case Halt(_) => []
      case Wait(_) =>
        if decisions == [] || !decisions[0] then []
        else Visits(def, i + 1, input, Approved(def[i], input, s), decisions[1..], oracle)
  }

  ghost predicate Ready(def: Definition, v: Visit) {
    v.step < |def| && AtStep(def, v.step, v.state)
  }

  ghost predicate AllReady(def: Definition, visits: seq<Visit>) {
    forall k :: 0 <= k < |visits| ==> Ready(def, visits[k])
  }

  lemma ConsReady(def: Definition, v: Visit, rest: seq<Visit>)
    requires Ready(def, v) && AllReady(def, rest)
    ensures AllReady(def, [v] + rest)
  {
    hide Ready;
  }

  lemma {:induction false} VisitsAreReady(
      def: Definition, i: nat, input: string, s: RunState, decisions: seq<bool>, oracle: Oracle)
    requires IdsApart(def) && i <= |def| && AtStep(def, i, s)
    ensures AllReady(def, Visits(def, i, input, s, decisions, oracle))
    decreases |def| - i
  {
    hide IdsApart, AtStep, RunInv, Advance, AllReady, Approved, PauseAt;
    if i == |def| {
      assert AllReady(def, []) by { NoneReady(def); }
    } else {
      assert Ready(def, Visit(i, s));
      hide Ready;
      AdvanceKeeps(def, i, input, s, oracle);
      match Advance(def[i], input, s, oracle)
      case Halt(_) =>
        NoneReady(def);
        ConsReady(def, Visit(i, s), []);
      case Next(s') =>
        VisitsAreReady(def, i + 1, input, s', decisions, oracle);
        ConsReady(def, Visit(i, s), Visits(def, i + 1, input, s', decisions, oracle));
      case Wait(_) =>
        if decisions == [] || !decisions[0] {
          NoneReady(def);
          ConsReady(def, Visit(i, s), []);
        } else {
          var s' := Approved(def[i], input, s);
          ApprovalKeeps(def, i, input, s);
          VisitsAreReady(def, i + 1, input, s', decisions[1..], oracle);
          ConsReady(def, Visit(i, s), Visits(def, i + 1, input, s', decisions[1..], oracle));
        }
    }
  }

  lemma NoneReady(def: Definition)
    ensures AllReady(def, [])
  {
  }

  /** In every run of a validated definition, whatever a step references when it is
      reached belongs to an earlier step that has succeeded, and whose output is read, or
      was skipped, and reads empty. */
  lemma ReferencesAreSafe(def: Definition, input: string, decisions: seq<bool>, oracle: Oracle, v: Visit)
    requires WellFormed(def) && v in Visits(def, 0, input, Fresh, decisions, oracle)
    ensures v.step < |def| && ReadsSafely(def, v.step, v.state)
  {
    FreshIsReady(def);
    VisitsAreReady(def, 0, input, Fresh, decisions, oracle);
    assert Ready(def, v);
    AtStepReadsSafely(def, v.step, v.state);
  }

  // ----- a step reads nothing but its references ---------------------------------------------------------

  ghost predicate SameReads(refs: set<string>, a: Context, b: Context) {
    forall id :: id in refs ==> Lookup(a, id) == Lookup(b, id)
  }

  lemma {:induction false} RenderReadsRefs(t: Template, input: string, a: Context, b: Context)
    requires SameReads(TemplateRefs(t), a, b)
    ensures Render(t, input, a) == Render(t, input, b)
  {
    if t != [] {
      assert t[0].Output? ==> t[0].id in TemplateRefs(t);
      assert forall k :: 0 <= k < |t[1..]| ==> t[1..][k] == t[k + 1];
      RenderReadsRefs(t[1..], input, a, b);
    }
  }

  lemma TaskReadsRefs(step: string, attempt: nat, sub: Option<nat>, task: TaskDef, input: string, a: Context,
          b: Context, oracle: Oracle)
    requires SameReads(TaskRefs(task), a, b)
    ensures CallTask(step, attempt, sub, task, input, a, oracle) == CallTask(step, attempt, sub, task, input, b, oracle)
  {
    hide Render, TemplateRefs;
    RenderReadsRefs(task.prompt, input, a, b);
    if task.query.Some? {
      RenderReadsRefs(task.query.value, input, a, b);
    }
  }

  lemma SubsReadRefs(step: StepDef, input: string, a: Context, b: Context, oracle: Oracle)
    requires step.body.Parallel? && SameReads(BodyRefs(step.body), a, b)
    ensures SubReplies(step.id, step.body.subs, input, a, oracle)
         == SubReplies(step.id, step.body.subs, input, b, oracle)
  {
    hide TaskRefs, CallTask;
    var subs := step.body.subs;
    forall k | 0 <= k < |subs|
      ensures CallTask(step.id, 1, Some(k), subs[k].task, input, a, oracle)
           == CallTask(step.id, 1, Some(k), subs[k].task, input, b, oracle)
    {
      forall id | id in TaskRefs(subs[k].task)
        ensures Lookup(a, id) == Lookup(b, id)
      {
        assert id in BodyRefs(step.body);
      }
      TaskReadsRefs(step.id, 1, Some(k), subs[k].task, input, a, b, oracle);
    }
  }

  /** What an attempt shows of itself: its output or its error. */
  predicate SameAttempt(a: Attempt, b: Attempt) {
    match a
    case Good(output, _) => b.Good? && b.output == output
    case Bad(error) => b == Bad(error)
    case Crash => b.Crash?
  }

  lemma AttemptReadsRefs(step: StepDef, attempt: nat, input: string, a: Context, b: Context, oracle: Oracle)
    requires !step.body.Approval? && SameReads(BodyRefs(step.body), a, b)
    ensures SameAttempt(RunAttempt(step, attempt, input, a, oracle), RunAttempt(step, attempt, input, b, oracle))
  {
    hide Render, CallTask, SubReplies, SameReads, TaskRefs, TemplateRefs, Failures, Outputs, JoinWith, RecordAll,
        TaskError;
    match step.body
    case Task(task) => TaskReadsRefs(step.id, attempt, None, task, input, a, b, oracle);
    case Retrieve(query) => RenderReadsRefs(query, input, a, b);
    case Parallel(_) => SubsReadRefs(step, input, a, b, oracle);
  }

  lemma {:induction false} AttemptsReadRefs(step: StepDef, attempt: nat, input: string, a: Context, b: Context,
          oracle: Oracle)
    requires !step.body.Approval? && 1 <= attempt <= MaxAttempts(step) && SameReads(BodyRefs(step.body), a, b)
    ensures RunAttempts(step, attempt, input, a, oracle).rows == RunAttempts(step, attempt, input, b, oracle).rows
    decreases MaxAttempts(step) - attempt
  {
    AttemptReadsRefs(step, attempt, input, a, b, oracle);
    hide RunAttempt, SameReads, RowOf;
    if RunAttempt(step, attempt, input, a, oracle).Bad? && attempt < MaxAttempts(step) {
      AttemptsReadRefs(step, attempt + 1, input, a, b, oracle);
    }
  }

  /** Whether a step is skipped, what it sends out and every row it leaves depend on the
      context only through the step's references: those the validator checked. */
  lemma StepReadsOnlyItsReferences(step: StepDef, input: string, a: Context, b: Context, oracle: Oracle)
    requires !step.body.Approval? && SameReads(Refs(step), a, b)
    ensures Skips(step, a) == Skips(step, b)
    ensures RunAttempts(step, 1, input, a, oracle).rows == RunAttempts(step, 1, input, b, oracle).rows
  {
    assert SameReads(BodyRefs(step.body), a, b);
    hide RunAttempts, BodyRefs, Occurs;
    AttemptsReadRefs(step, 1, input, a, b, oracle);
    if step.when.Some? {
      assert step.when.value.step in Refs(step);
    }
  }

  // ----- approval messages -----------------------------------------------------------------------

  /** The validator leaves an approval's message alone. Whenever an approval is reached, in
      any run of a validated definition, a reference of its message reads safely if and only
      if an earlier step defines the id; every other reference reads empty. */
  lemma ApprovalMessageReads(
      def: Definition, input: string, decisions: seq<bool>, oracle: Oracle, v: Visit, id: string)
    requires WellFormed(def) && v in Visits(def, 0, input, Fresh, decisions, oracle)
    requires v.step < |def| && def[v.step].body.Approval?
    ensures DefinedBefore(def, v.step, id)
       <==> exists j :: 0 <= j < v.step && id in IdSet(def[j]) && SafeRead(def[j], v.state, id)
    ensures !DefinedBefore(def, v.step, id) ==> Lookup(v.state.context, id) == ""
  {
    FreshIsReady(def);
    VisitsAreReady(def, 0, input, Fresh, decisions, oracle);
    assert Ready(def, v);
    ReadsSafelyIff(def, v.step, v.state, id);
  }

  /** An accepted definition whose message names a step there is not. */
  lemma ApprovalMessagesAreUnchecked(input: string)
    ensures var ask := StepDef("a", None, Approval([Output("b")]));
      WellFormed([ask]) && !DefinedBefore([ask], 1, "b") && Render(ask.body.message, input, Fresh.context) == ""
  {
    var ask := StepDef("a", None, Approval([Output("b")]));
    assert IdsHere(ask) == ["a"];
    assert Render(ask.body.message, input, map[]) == RenderPart(Output("b"), input, map[]) + Render([], input, map[]);
  }
}
