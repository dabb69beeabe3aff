/** Uploads that are still being ingested while their collection is deleted
    (backend/app/services/knowledge/ingestion.py, backend/app/api/v1/knowledge.py). The
    vector store and the database are updated separately; each database commit is one step. */
module DeleteRace {
  import opened Prelude

  type Doc = nat

  /** Where one ingestion is: before it made sure of the vector collection, before it added
      its vectors, about to commit its terminal state, or cleaning up after a deletion. */
  datatype Phase = Working | Ensured | Finishing | RowsGone | Orphaned | Ended

  /** `vectors` is None while the store holds no collection. */
  datatype State = State(
    row: bool, docs: set<Doc>, vectors: Option<set<Doc>>, phases: map<Doc, Phase>, dropped: bool)

  datatype Step =
    | Upload(doc: Doc)
    | Ensure(doc: Doc)
    | Upsert(doc: Doc)
    | Fail(doc: Doc)
    | Commit(doc: Doc)
    | LookUp(doc: Doc)
    | DropAgain(doc: Doc)
    | Drop
    | CommitDelete

  predicate In(s: State, doc: Doc, phase: Phase) {
    doc in s.phases && s.phases[doc] == phase
  }

  predicate Enabled(s: State, step: Step) {
    match step
    case Upload(d) => s.row && d !in s.phases
    case Ensure(d) => In(s, d, Working)
    case Upsert(d) => In(s, d, Ensured)
    case Fail(d) => In(s, d, Working) || In(s, d, Ensured)
    case Commit(d) => In(s, d, Finishing)
    case LookUp(d) => In(s, d, RowsGone)
    case DropAgain(d) => In(s, d, Orphaned)
    case Drop => s.row
    case CommitDelete => s.row && s.dropped
  }

  function To(s: State, doc: Doc, phase: Phase): State {
    s.(phases := s.phases[doc := phase])
  }

  /** An upsert into a dropped collection fails, and the ingestion with it. A commit whose
      rows were deleted finds nothing to update, and looks further. */
  function Apply(s: State, step: Step): State
    requires Enabled(s, step)
  {
    match step
    case Upload(d) => To(s, d, Working).(docs := s.docs + {d})
    case Ensure(d) => To(s, d, Ensured).(vectors := if s.vectors.None? then Some({}) else s.vectors)
    case Upsert(d) =>
      To(s, d, Finishing).(vectors := if s.vectors.None? then None else Some(s.vectors.value + {d}))
    case Fail(d) => To(s, d, Finishing)
    case Commit(d) => To(s, d, if d in s.docs then Ended else RowsGone)
    case LookUp(d) => To(s, d, if s.row then Ended else Orphaned)
    case DropAgain(d) => To(s, d, Ended).(vectors := None)
    case Drop => s.(vectors := None, dropped := true)
    case CommitDelete => s.(row := false, docs := {})
  }

  predicate CanRun(s: State, steps: seq<Step>)
    decreases |steps|
  {
    steps == [] || (Enabled(s, steps[0]) && CanRun(Apply(s, steps[0]), steps[1..]))
  }

  function Run(s: State, steps: seq<Step>): State
    requires CanRun(s, steps)
    decreases |steps|
  {
    if steps == [] then s else Run(Apply(s, steps[0]), steps[1..])
  }

  const Init := State(true, {}, None, map[], false)

  predicate AllEnded(s: State) {
    forall d :: d in s.phases ==> s.phases[d] == Ended
  }

  // ----- after the deletion is committed -----------------------------------------------------------

  /** Whoever is still at work will find its rows gone and drop the collection again. */
  predicate Guarded(s: State) {
    !s.row && s.docs == {} && (s.vectors.None? || !AllEnded(s))
  }

  lemma {:induction false} StaysGuarded(s: State, steps: seq<Step>)
    requires Guarded(s) && CanRun(s, steps)
    ensures Guarded(Run(s, steps))
    decreases |steps|
  {
    if steps != [] {
      StepStaysGuarded(s, steps[0]);
      StaysGuarded(Apply(s, steps[0]), steps[1..]);
    }
  }

  lemma StepStaysGuarded(s: State, step: Step)
    requires Guarded(s) && Enabled(s, step)
    ensures Guarded(Apply(s, step))
  {
    if !step.DropAgain? {
      assert Apply(s, step).phases[step.doc] != Ended;
    }
  }

  lemma {:induction false} NothingMovesAnyMore(s: State, steps: seq<Step>)
    requires !s.row && AllEnded(s) && CanRun(s, steps)
    ensures steps == []
  {
  }

  /** The exact outcome: once everything has ended, the store holds nothing for a deleted
      collection if and only if it held nothing when the deletion was committed, or some
      ingestion was still running then. */
  lemma DeletionIsCleanIff(s: State, steps: seq<Step>)
    requires Enabled(s, CommitDelete)
    requires CanRun(Apply(s, CommitDelete), steps) && AllEnded(Run(Apply(s, CommitDelete), steps))
    ensures Run(Apply(s, CommitDelete), steps).vectors.None? <==> s.vectors.None? || !AllEnded(s)
  {
    var deleted := Apply(s, CommitDelete);
    assert AllEnded(deleted) == AllEnded(s);
    if s.vectors.None? || !AllEnded(s) {
      StaysGuarded(deleted, steps);
    } else {
      NothingMovesAnyMore(deleted, steps);
    }
  }

  // ----- between the drop and the commit -------------------------------------------------------------

  /** Nobody commits an ingestion in these steps. */
  predicate NoneEnds(steps: seq<Step>) {
    forall k :: 0 <= k < |steps| ==>
      !steps[k].Commit? && !steps[k].LookUp? && !steps[k].DropAgain? && !steps[k].CommitDelete?
  }

  predicate Covered(s: State) {
    s.vectors.None? || !AllEnded(s)
  }

  lemma {:induction false} StaysCovered(s: State, steps: seq<Step>)
    requires Covered(s) && s.dropped && CanRun(s, steps) && NoneEnds(steps)
    ensures Covered(Run(s, steps)) && Run(s, steps).dropped && Run(s, steps).row == s.row
    decreases |steps|
  {
    if steps != [] {
      var step := steps[0];
      assert !step.Commit?;
      if !step.Drop? {
        assert Apply(s, step).phases[step.doc] != Ended;
      }
      assert NoneEnds(steps[1..]) by {
        assert forall k :: 0 <= k < |steps[1..]| ==> steps[1..][k] == steps[k + 1];
      }
      StaysCovered(Apply(s, step), steps[1..]);
    }
  }

  /** When no ingestion commits between the delete's drop and its commit, no vectors
      survive, however many ingestions run and however they interleave. */
  lemma LateCommitsAreSafe(s: State, between: seq<Step>, after: seq<Step>)
    requires s.row && CanRun(Apply(s, Drop), between) && NoneEnds(between)
    requires var last := Run(Apply(s, Drop), between);
      && Enabled(last, CommitDelete) && CanRun(Apply(last, CommitDelete), after)
      && AllEnded(Run(Apply(last, CommitDelete), after))
    ensures Run(Apply(Run(Apply(s, Drop), between), CommitDelete), after).vectors.None?
  {
    StaysCovered(Apply(s, Drop), between);
    DeletionIsCleanIff(Run(Apply(s, Drop), between), after);
  }

  /** That hypothesis is needed: an ingestion that adds its vectors and commits between the
      two leaves them behind for good. */
  lemma EarlyCommitLeavesVectors()
    ensures var steps := [Upload(0), Drop, Ensure(0), Upsert(0), Commit(0), CommitDelete];
      && CanRun(Init, steps) && AllEnded(Run(Init, steps))
      && !Run(Init, steps).row && Run(Init, steps).vectors == Some({0})
  {
    var s1 := State(true, {0}, None, map[0 := Working], false);
    var s2 := s1.(dropped := true);
    var s3 := State(true, {0}, Some({}), map[0 := Ensured], true);
    var steps := CommitsTooEarly(s3);
    hide CanRun, Run;
    steps := Prepend(s2, Ensure(0), s3, steps);
    steps := Prepend(s1, Drop, s2, steps);
    steps := Prepend(Init, Upload(0), s1, steps);
    assert steps == [Upload(0), Drop, Ensure(0), Upsert(0), Commit(0), CommitDelete];
  }

  lemma CommitsTooEarly(s: State) returns (steps: seq<Step>)
    requires s == State(true, {0}, Some({}), map[0 := Ensured], true)
    ensures steps == [Upsert(0), Commit(0), CommitDelete]
    ensures CanRun(s, steps) && Run(s, steps) == State(false, {}, Some({0}), map[0 := Ended], true)
  {
    var s4 := State(true, {0}, Some({0}), map[0 := Finishing], true);
    var s5 := s4.(phases := map[0 := Ended]);
    var s6 := s5.(row := false, docs := {});
    var none: set<Doc> := {};
    assert none + {0} == {0};
    steps := [];
    assert CanRun(s6, steps) && Run(s6, steps) == s6;
    hide CanRun, Run;
    steps := Prepend(s5, CommitDelete, s6, steps);
    steps := Prepend(s4, Commit(0), s5, steps);
    steps := Prepend(s, Upsert(0), s4, steps);
  }

  lemma Prepend(s: State, step: Step, next: State, rest: seq<Step>) returns (steps: seq<Step>)
    requires Enabled(s, step) && Apply(s, step) == next && CanRun(next, rest)
    ensures steps == [step] + rest && CanRun(s, steps) && Run(s, steps) == Run(next, rest)
  {
    steps := [step] + rest;
    assert steps[1..] == rest;
  }
}
