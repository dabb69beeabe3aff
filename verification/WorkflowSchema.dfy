/** Workflow definitions and their validation (backend/app/schemas/workflow.py). A
    template is its literal pieces and references, the empty text being []; finding them in
    text is a regular expression's work and not part of this model. */
module WorkflowSchema {
  import opened Prelude

  datatype Part = Lit(text: string) | RunInput | Output(id: string)
  type Template = seq<Part>

  datatype When = Contains(step: string, text: string) | Equals(step: string, text: string)

  /** `across` is the reference, if any, that is spelled across the border of prompt and
      query: the validator scans the two as one text, the renderer never does. */
  datatype TaskDef = TaskDef(prompt: Template, query: Option<Template>, across: Option<string>, retries: nat)

  /** A task inside a parallel step. Its own `when` and retries are never used. */
  datatype SubDef = SubDef(id: string, when: Option<When>, task: TaskDef)

  datatype Body =
    | Task(task: TaskDef)
    | Retrieve(query: Template)
    | Approval(message: Template)
    | Parallel(subs: seq<SubDef>)

  datatype StepDef = StepDef(id: string, when: Option<When>, body: Body)

  type Definition = seq<StepDef>

  function TemplateRefs(t: Template): set<string> {
    set k | 0 <= k < |t| && t[k].Output? :: t[k].id
  }

  function TaskRefs(task: TaskDef): set<string> {
    TemplateRefs(task.prompt)
    + (if task.query.Some? then TemplateRefs(task.query.value) else {})
    + (if task.across.Some? then {task.across.value} else {})
  }

  /** template_refs: an approval's message is not checked. */
  function BodyRefs(body: Body): set<string> {
    match body
    case Task(task) => TaskRefs(task)
    case Retrieve(query) => TemplateRefs(query)
    case Approval(_) => {}
    case Parallel(subs) => set k, r | 0 <= k < |subs| && r in TaskRefs(subs[k].task) :: r
  }

  function Refs(step: StepDef): set<string> {
    BodyRefs(step.body) + (if step.when.Some? then {step.when.value.step} else {})
  }

  function SubIds(subs: seq<SubDef>): seq<string> {
    seq(|subs|, k requires 0 <= k < |subs| => subs[k].id)
  }

  /** The step's own id, then the ids of its substeps. */
  function IdsHere(step: StepDef): seq<string> {
    [step.id] + if step.body.Parallel? then SubIds(step.body.subs) else []
  }

  function IdSet(step: StepDef): set<string> {
    set id | id in IdsHere(step)
  }

  // ----- what a valid definition is -------------------------------------------------------

  /** No id of one step is an id of another. Within one parallel step ids may repeat. */
  ghost predicate IdsApart(def: Definition) {
    forall i, j :: 0 <= i < j < |def| ==> IdSet(def[i]) !! IdSet(def[j])
  }

  ghost predicate DefinedBefore(def: Definition, i: nat, id: string)
    requires i <= |def|
  {
    exists j :: 0 <= j < i && id in IdSet(def[j])
  }

  ghost predicate RefsBackward(def: Definition) {
    forall i, r :: 0 <= i < |def| && r in Refs(def[i]) ==> DefinedBefore(def, i, r)
  }

  ghost predicate WellFormed(def: Definition) {
    IdsApart(def) && RefsBackward(def)
  }

  lemma OwnId(step: StepDef)
    ensures step.id in IdSet(step)
  {
    assert IdsHere(step)[0] == step.id;
  }

  lemma TopLevelIdsDistinct(def: Definition, i: nat, j: nat)
    requires IdsApart(def) && i < |def| && j < |def| && def[i].id == def[j].id
    ensures i == j
  {
    OwnId(def[i]);
    OwnId(def[j]);
  }

  // ----- the validator ---------------------------------------------------------------------

  datatype SchemaError = DuplicateId(id: string) | UnknownReference(step: string, unknown: set<string>)

  ghost predicate SeenIs(def: Definition, i: nat, seen: set<string>)
    requires i <= |def|
  {
    forall id :: id in seen <==> DefinedBefore(def, i, id)
  }

  lemma SeenGrows(def: Definition, i: nat, seen: set<string>)
    requires i < |def| && SeenIs(def, i, seen)
    ensures SeenIs(def, i + 1, seen + IdSet(def[i]))
  {
    hide IdSet;
    forall id
      ensures id in seen + IdSet(def[i]) <==> DefinedBefore(def, i + 1, id)
    {
      if DefinedBefore(def, i + 1, id) {
        var j :| 0 <= j < i + 1 && id in IdSet(def[j]);
      }
    }
  }

  /** _validate_references: accepts exactly the well-formed definitions. */
  method ValidateReferences(def: Definition) returns (error: Option<SchemaError>)
    ensures error.None? <==> WellFormed(def)
  {
    hide IdSet, Refs, IdsHere;
    var seen: set<string> := {};
    for i := 0 to |def|
      invariant SeenIs(def, i, seen)
      invariant IdsApart(def[..i]) && RefsBackward(def[..i])
    {
      var clash := FirstSeen(IdsHere(def[i]), seen);
      if clash.Some? {
        ClashIsNotApart(def, i, seen, clash.value);
        return Some(DuplicateId(clash.value));
      }
      var unknown := Refs(def[i]) - seen;
      if unknown != {} {
        UnknownIsNotBackward(def, i, seen);
        return Some(UnknownReference(def[i].id, unknown));
      }
      assert forall r :: r in Refs(def[i]) && r !in seen ==> r in unknown;
      OneMoreStep(def, i, seen);
      SeenGrows(def, i, seen);
      seen := seen + IdSet(def[i]);
    }
    assert def[..|def|] == def;
    error := None;
  }

  /** The first of the ids already seen, if any. */
  method FirstSeen(ids: seq<string>, seen: set<string>) returns (clash: Option<string>)
    ensures clash.Some? ==> clash.value in ids && clash.value in seen
    ensures clash.None? ==> forall id :: id in ids ==> id !in seen
  {
    for k := 0 to |ids|
      invariant forall m :: 0 <= m < k ==> ids[m] !in seen
    {
      if ids[k] in seen {
        return Some(ids[k]);
      }
    }
    clash := None;
  }

  lemma ClashIsNotApart(def: Definition, i: nat, seen: set<string>, id: string)
    requires i < |def| && SeenIs(def, i, seen) && id in IdsHere(def[i]) && id in seen
    ensures !IdsApart(def)
  {
    hide IdsHere;
    assert DefinedBefore(def, i, id);
    var j :| 0 <= j < i && id in IdSet(def[j]);
    assert id in IdSet(def[i]);
  }

  lemma UnknownIsNotBackward(def: Definition, i: nat, seen: set<string>)
    requires i < |def| && SeenIs(def, i, seen) && Refs(def[i]) - seen != {}
    ensures !RefsBackward(def)
  {
    hide Refs;
    var r :| r in Refs(def[i]) - seen;
    assert !DefinedBefore(def, i, r);
  }

  lemma OneMoreStep(def: Definition, i: nat, seen: set<string>)
    requires i < |def| && SeenIs(def, i, seen) && IdsApart(def[..i]) && RefsBackward(def[..i])
    requires (forall id :: id in IdsHere(def[i]) ==> id !in seen) && Refs(def[i]) <= seen
    ensures IdsApart(def[..i + 1]) && RefsBackward(def[..i + 1])
  {
    hide IdsHere, Refs;
    var longer, shorter := def[..i + 1], def[..i];
    forall a, b | 0 <= a < b < |longer|
      ensures IdSet(longer[a]) !! IdSet(longer[b])
    {
      if b < i {
        assert shorter[a] == longer[a] && shorter[b] == longer[b];
      } else {
        forall id | id in IdSet(def[a])
          ensures id !in IdSet(def[i])
        {
          assert DefinedBefore(def, i, id);
        }
      }
    }
    forall a, r | 0 <= a < |longer| && r in Refs(longer[a])
      ensures DefinedBefore(longer, a, r)
    {
      if a < i {
        assert shorter[a] == longer[a] && DefinedBefore(shorter, a, r);
        var j :| 0 <= j < a && r in IdSet(shorter[j]);
        assert longer[j] == shorter[j];
      } else {
        assert DefinedBefore(def, i, r);
        var j :| 0 <= j < i && r in IdSet(def[j]);
        assert longer[j] == def[j];
      }
    }
  }
}
