/** Leases on workflow runs, tasks and ingestions (backend/app/services/workflow.py,
    orchestrator.py, knowledge/ingestion.py, main.py, core/config.py). Workers renew the
    leases of what they execute on a timer; any number of reapers fail what was not
    renewed, by a select followed by one compare-and-set per row. Every database commit is
    one step, and all clocks are one clock. */
module Lease {
  import opened Prelude

  type Id = nat
  type Worker = nat

  /** `Unfinished` stands for a run's or job's `running` and a task's `queued`, `assigned`
      and `running`; only runs can be paused. */
  datatype Status = Unfinished | Paused | Succeeded | Failed

  /** A leased row: its last beat, and the child rows (task executions, step rows, an
      uploaded document) still open. */
  datatype Item = Item(status: Status, beat: int, open: set<nat>)

  /** When a worker's next renewal is due, and how many in a row it has missed. */
  datatype Timer = Timer(due: int, missed: nat)

  /** A reaper between its select and its last compare-and-set: the rows it read. */
  datatype Pass = Pass(at: int, todo: map<Id, set<nat>>)

  datatype Config = Config(interval: int, staleAfter: int, passEvery: int)

  datatype State = State(
    now: int,
    items: map<Id, Item>,
    holder: map<Id, Worker>,
    timers: map<Worker, Timer>,
    passes: map<Worker, Pass>,
    passed: int,
    reaped: seq<Id>)

  datatype Step =
    | Boot(worker: Worker)
    | Crash(worker: Worker)
    | Start(worker: Worker, id: Id)
    | Resume(worker: Worker, id: Id)
    | Write(id: Id, open: set<nat>)
    | Pause(id: Id)
    | Finish(id: Id, end: Status)
    | Abandon(id: Id)
    | Renew(worker: Worker)
    | Miss(worker: Worker)
    | Select(reaper: Worker)
    | Claim(reaper: Worker, id: Id)
    | EndPass(reaper: Worker)
    | Advance(to: int)

  predicate Terminal(status: Status) {
    status == Succeeded || status == Failed
  }

  // ----- the effect of each step ---------------------------------------------------------------

  /** update ... where id in live and status is unfinished: heartbeat = now */
  function Renewed(items: map<Id, Item>, live: set<Id>, now: int): map<Id, Item> {
    map id | id in items ::
      if id in live && items[id].status == Unfinished then items[id].(beat := now) else items[id]
  }

  function HeldBy(holder: map<Id, Worker>, worker: Worker): set<Id> {
    set id | id in holder && holder[id] == worker
  }

  predicate Stale(item: Item, cutoff: int) {
    item.status == Unfinished && item.beat < cutoff
  }

  /** What a reaper's select returns: the stale rows, each with the open children it read. */
  function Selected(items: map<Id, Item>, cutoff: int): map<Id, set<nat>> {
    map id | id in items && Stale(items[id], cutoff) :: items[id].open
  }

  /** A won compare-and-set fails the row and closes the children the select had read. */
  function Reaped(item: Item, read: set<nat>): Item {
    item.(status := Failed, open := item.open - read)
  }

  function Cutoff(c: Config, at: int): int {
    at - c.staleAfter
  }

  function ClaimOne(c: Config, s: State, reaper: Worker, id: Id): State
    requires reaper in s.passes && id in s.passes[reaper].todo && id in s.items
  {
    var pass := s.passes[reaper];
    var s1 := s.(passes := s.passes[reaper := pass.(todo := pass.todo - {id})]);
    if Stale(s.items[id], Cutoff(c, pass.at)) then
      s1.(items := s.items[id := Reaped(s.items[id], pass.todo[id])], reaped := s.reaped + [id])
    else s1
  }

  /** When a step can happen. Timing: a renewal comes at most `interval` after the last
      one, is missed at most twice in a row, and a reaper pass begins and completes at
      least every `passEvery`. */
  predicate Enabled(c: Config, s: State, step: Step) {
    match step
    case Boot(w) => w !in s.timers
    case Crash(w) => w in s.timers
    case Start(w, id) => w in s.timers && id !in s.items
    case Resume(w, id) => w in s.timers && id in s.items && s.items[id].status == Paused && id !in s.holder
    case Write(id, _) => id in s.holder && id in s.items
    case Pause(id) => id in s.holder && id in s.items && s.items[id].open == {}
    case Finish(id, end) => id in s.holder && id in s.items && s.items[id].open == {} && Terminal(end)
    case Abandon(id) => id in s.holder
    case Renew(w) => w in s.timers
    case Miss(w) => w in s.timers && s.timers[w].missed < 2
    case Select(r) => r !in s.passes
    case Claim(r, id) => r in s.passes && id in s.passes[r].todo && id in s.items
    case EndPass(r) => r in s.passes && s.passes[r].todo == map[]
    case Advance(t) => s.now <= t <= s.passed + c.passEvery && forall w :: w in s.timers ==> t <= s.timers[w].due
  }

  /** A holder writes its row without looking at it first. */
  function Apply(c: Config, s: State, step: Step): State
    requires Enabled(c, s, step)
  {
    match step
    case Boot(w) => s.(timers := s.timers[w := Timer(s.now + c.interval, 0)])
    case Crash(w) => s.(timers := s.timers - {w}, holder := s.holder - HeldBy(s.holder, w))
    case Start(w, id) =>
      s.(items := s.items[id := Item(Unfinished, s.now, {})], holder := s.holder[id := w])
    case Resume(w, id) =>
      s.(items := s.items[id := s.items[id].(status := Unfinished, beat := s.now)], holder := s.holder[id := w])
    case Write(id, open) => s.(items := s.items[id := s.items[id].(open := open)])
    case Pause(id) => s.(items := s.items[id := s.items[id].(status := Paused)], holder := s.holder - {id})
    case Finish(id, end) => s.(items := s.items[id := s.items[id].(status := end)], holder := s.holder - {id})
    case Abandon(id) => s.(holder := s.holder - {id})
    case Renew(w) =>
      s.(items := Renewed(s.items, HeldBy(s.holder, w), s.now), timers := s.timers[w := Timer(s.now + c.interval, 0)])
    case Miss(w) => s.(timers := s.timers[w := Timer(s.now + c.interval, s.timers[w].missed + 1)])
    case Select(r) => s.(passes := s.passes[r := Pass(s.now, Selected(s.items, Cutoff(c, s.now)))])
    case Claim(r, id) => ClaimOne(c, s, r, id)
    case EndPass(r) =>
      s.(passes := s.passes - {r}, passed := if s.passes[r].at > s.passed then s.passes[r].at else s.passed)
    case Advance(t) => s.(now := t)
  }

  predicate CanRun(c: Config, s: State, steps: seq<Step>)
    decreases |steps|
  {
    steps == [] || (Enabled(c, s, steps[0]) && CanRun(c, Apply(c, s, steps[0]), steps[1..]))
  }

  function Run(c: Config, s: State, steps: seq<Step>): State
    requires CanRun(c, s, steps)
    decreases |steps|
  {
    if steps == [] then s else Run(c, Apply(c, s, steps[0]), steps[1..])
  }

  const Init := State(0, map[], map[], map[], map[], 0, [])

  /** enforce_workflow_lease, enforce_ingest_lease */
  predicate Accepted(c: Config) {
    c.interval > 0 && c.staleAfter >= 3 * c.interval
  }

  // ----- the invariant --------------------------------------------------------------------------

  function Grace(c: Config, missed: nat): int {
    if missed == 0 then c.interval else if missed == 1 then 2 * c.interval else 3 * c.interval
  }

  predicate TimerOk(c: Config, now: int, t: Timer) {
    now <= t.due <= now + c.interval && t.missed <= 2
  }

  /** A held row is unfinished and was renewed recently enough. */
  predicate Fresh(c: Config, item: Item, t: Timer) {
    item.status == Unfinished && item.beat >= t.due - Grace(c, t.missed)
  }

  ghost predicate TimersOk(c: Config, s: State) {
    forall w :: w in s.timers ==> TimerOk(c, s.now, s.timers[w])
  }

  ghost predicate Held(s: State, id: Id) {
    id in s.holder && s.holder[id] in s.timers && id in s.items
  }

  ghost predicate HeldFresh(c: Config, s: State) {
    forall id :: id in s.holder ==> Held(s, id) && Fresh(c, s.items[id], s.timers[s.holder[id]])
  }

  /** What a reaper has still to claim: all the stale rows, read as they still are, and
      nobody's. */
  ghost predicate PassOk(c: Config, s: State, pass: Pass) {
    && pass.at <= s.now
    && (forall id :: id in pass.todo ==> id in s.items)
    && (forall id :: id in s.items && Stale(s.items[id], Cutoff(c, pass.at)) ==>
          id in pass.todo && pass.todo[id] == s.items[id].open && id !in s.holder)
  }

  ghost predicate PassesOk(c: Config, s: State) {
    forall r :: r in s.passes ==> PassOk(c, s, s.passes[r])
  }

  ghost predicate NoneLeftBehind(c: Config, s: State) {
    s.passed <= s.now
    && forall id :: id in s.items && s.items[id].status == Unfinished ==> s.items[id].beat >= Cutoff(c, s.passed)
  }

  ghost predicate ReapedOk(s: State) {
    && (forall i, j :: 0 <= i < j < |s.reaped| ==> s.reaped[i] != s.reaped[j])
    && (forall i :: 0 <= i < |s.reaped| ==> s.reaped[i] in s.items && Buried(s.items[s.reaped[i]]))
  }

  predicate Buried(item: Item) {
    item.status == Failed && item.open == {}
  }

  ghost predicate Inv(c: Config, s: State) {
    TimersOk(c, s) && HeldFresh(c, s) && PassesOk(c, s) && NoneLeftBehind(c, s) && ReapedOk(s)
  }

  /** A held row is never stale. */
  lemma HeldIsNotStale(c: Config, s: State, id: Id, at: int)
    requires Accepted(c) && TimersOk(c, s) && HeldFresh(c, s) && id in s.holder && at <= s.now
    ensures id in s.items && !Stale(s.items[id], Cutoff(c, at))
  {
    assert Held(s, id);
    assert TimerOk(c, s.now, s.timers[s.holder[id]]);
  }

  lemma HeldIsUnfinished(c: Config, s: State, id: Id)
    requires HeldFresh(c, s)
    ensures id in s.holder ==> id in s.items && s.items[id].status == Unfinished
  {
    assert id in s.holder ==> Held(s, id);
  }

  // ----- every step keeps it --------------------------------------------------------------------------

  lemma TimersKept(c: Config, s: State, step: Step)
    requires Accepted(c) && TimersOk(c, s) && Enabled(c, s, step)
    ensures TimersOk(c, Apply(c, s, step))
  {
    hide Renewed, Selected, HeldBy, Stale, Reaped;
  }

  lemma HeldKept(c: Config, s: State, step: Step)
    requires Accepted(c) && TimersOk(c, s) && HeldFresh(c, s) && PassesOk(c, s) && Enabled(c, s, step)
    ensures HeldFresh(c, Apply(c, s, step))
  {
    hide Selected;
    var s' := Apply(c, s, step);
    forall id | id in s'.holder
      ensures Held(s', id) && Fresh(c, s'.items[id], s'.timers[s'.holder[id]])
    {
      if id in s.holder {
        assert Held(s, id) && Fresh(c, s.items[id], s.timers[s.holder[id]]);
      }
    }
  }

  /** The row was stale before as well; and if nobody held it, nobody does now and nothing
      was written to it. */
  ghost predicate StaleAlready(s: State, s': State, id: Id, cutoff: int)
    requires id in s'.items
  {
    && id in s.items && Stale(s.items[id], cutoff)
    && (id !in s.holder ==> s'.items[id].open == s.items[id].open && id !in s'.holder)
  }

  lemma StaleAfterRenewal(c: Config, s: State, w: Worker, id: Id, cutoff: int)
    requires Enabled(c, s, Renew(w)) && cutoff <= s.now && id in s.items
    requires Stale(Apply(c, s, Renew(w)).items[id], cutoff)
    ensures StaleAlready(s, Apply(c, s, Renew(w)), id, cutoff)
  {
  }

  lemma StaleAfterClaim(c: Config, s: State, r: Worker, claimed: Id, id: Id, cutoff: int)
    requires Enabled(c, s, Claim(r, claimed)) && id in s.items
    requires Stale(Apply(c, s, Claim(r, claimed)).items[id], cutoff)
    ensures StaleAlready(s, Apply(c, s, Claim(r, claimed)), id, cutoff)
  {
    hide Cutoff;
  }

  lemma StaleAfterWrite(c: Config, s: State, step: Step, id: Id, cutoff: int)
    requires step.Start? || step.Resume? || step.Write? || step.Pause? || step.Finish?
    requires Enabled(c, s, step) && cutoff <= s.now && id in Apply(c, s, step).items
    requires Stale(Apply(c, s, step).items[id], cutoff)
    ensures StaleAlready(s, Apply(c, s, step), id, cutoff)
  {
  }

  lemma StaleAfterOther(c: Config, s: State, step: Step, id: Id, cutoff: int)
    requires !step.Start? && !step.Resume? && !step.Write? && !step.Pause? && !step.Finish?
    requires !step.Renew? && !step.Claim?
    requires Enabled(c, s, step) && id in Apply(c, s, step).items
    requires Stale(Apply(c, s, step).items[id], cutoff)
    ensures StaleAlready(s, Apply(c, s, step), id, cutoff)
  {
    hide Stale, Selected, Cutoff;
  }

  /** What one step does to a row that is stale afterwards, and was so before. */
  lemma StaleStays(c: Config, s: State, step: Step, id: Id, at: int)
    requires Accepted(c) && TimersOk(c, s) && HeldFresh(c, s) && Enabled(c, s, step)
    requires at <= s.now && id in Apply(c, s, step).items && Stale(Apply(c, s, step).items[id], Cutoff(c, at))
    ensures id in s.items && Stale(s.items[id], Cutoff(c, at))
    ensures Apply(c, s, step).items[id].open == s.items[id].open && id !in s.holder && id !in Apply(c, s, step).holder
  {
    var s', cutoff := Apply(c, s, step), Cutoff(c, at);
    assert cutoff <= s.now;
    assert step.Renew? || step.Claim? ==> s'.items.Keys == s.items.Keys;
    hide Apply, Enabled, Cutoff, Stale, TimersOk, HeldFresh;
    if step.Renew? {
      StaleAfterRenewal(c, s, step.worker, id, cutoff);
    } else if step.Claim? {
      StaleAfterClaim(c, s, step.reaper, step.id, id, cutoff);
    } else if step.Start? || step.Resume? || step.Write? || step.Pause? || step.Finish? {
      StaleAfterWrite(c, s, step, id, cutoff);
    } else {
      StaleAfterOther(c, s, step, id, cutoff);
    }
    if id in s.holder {
      HeldIsNotStale(c, s, id, at);
    }
  }

  lemma PassesKept(c: Config, s: State, step: Step)
    requires Accepted(c) && TimersOk(c, s) && HeldFresh(c, s) && PassesOk(c, s) && Enabled(c, s, step)
    ensures PassesOk(c, Apply(c, s, step))
  {
    var s' := Apply(c, s, step);
    forall r | r in s'.passes
      ensures PassOk(c, s', s'.passes[r])
    {
      if step.Select? && step.reaper == r {
        NewPassOk(c, s);
      } else {
        PassKept(c, s, step, r);
      }
    }
  }

  lemma NewPassOk(c: Config, s: State)
    requires Accepted(c) && TimersOk(c, s) && HeldFresh(c, s)
    ensures PassOk(c, s, Pass(s.now, Selected(s.items, Cutoff(c, s.now))))
  {
    forall id | id in s.items && Stale(s.items[id], Cutoff(c, s.now))
      ensures id !in s.holder
    {
      if id in s.holder {
        HeldIsNotStale(c, s, id, s.now);
      }
    }
  }

  /** Another reaper's pass, and this one's but for the row just claimed, stay as they are. */
  lemma PassShape(c: Config, s: State, step: Step, r: Worker)
    requires Enabled(c, s, step) && r in Apply(c, s, step).passes && step != Select(r)
    ensures r in s.passes && s.now <= Apply(c, s, step).now
    ensures Apply(c, s, step).passes[r]
         == s.passes[r].(todo := s.passes[r].todo - if step.Claim? && step.reaper == r then {step.id} else {})
    ensures s.items.Keys <= Apply(c, s, step).items.Keys
  {
    hide Selected, HeldBy, Stale, Reaped;
    assert s.passes[r].todo - {} == s.passes[r].todo;
  }

  /** The row just claimed is not stale any more. */
  lemma ClaimedIsNotStale(c: Config, s: State, r: Worker, id: Id)
    requires Enabled(c, s, Claim(r, id))
    ensures !Stale(Apply(c, s, Claim(r, id)).items[id], Cutoff(c, s.passes[r].at))
  {
  }

  /** A row that is still stale is still to be claimed, as it was read. */
  lemma TodoKept(c: Config, s: State, step: Step, r: Worker, id: Id)
    requires Accepted(c) && TimersOk(c, s) && HeldFresh(c, s) && Enabled(c, s, step)
    requires r in s.passes && PassOk(c, s, s.passes[r])
    requires r in Apply(c, s, step).passes && step != Select(r)
    requires id in Apply(c, s, step).items && Stale(Apply(c, s, step).items[id], Cutoff(c, s.passes[r].at))
    ensures var s' := Apply(c, s, step);
      && id in s'.passes[r].todo && s'.passes[r].todo[id] == s'.items[id].open && id !in s'.holder
  {
    PassShape(c, s, step, r);
    if step.Claim? && step.reaper == r {
      ClaimedIsNotStale(c, s, r, step.id);
    }
    StaleStays(c, s, step, id, s.passes[r].at);
    hide Apply, Enabled, Cutoff, TimersOk, HeldFresh, Stale;
    assert id in s.passes[r].todo && s.passes[r].todo[id] == s.items[id].open;
  }

  lemma PassOkAgain(c: Config, s: State, s': State, pass: Pass, pass': Pass)
    requires PassOk(c, s, pass) && pass'.at == pass.at && s.now <= s'.now
    requires pass'.todo.Keys <= pass.todo.Keys && s.items.Keys <= s'.items.Keys
    requires forall id :: id in s'.items && Stale(s'.items[id], Cutoff(c, pass.at)) ==>
      id in pass'.todo && pass'.todo[id] == s'.items[id].open && id !in s'.holder
    ensures PassOk(c, s', pass')
  {
    hide Stale, Cutoff;
  }

  lemma PassKept(c: Config, s: State, step: Step, r: Worker)
    requires Accepted(c) && TimersOk(c, s) && HeldFresh(c, s) && PassesOk(c, s) && Enabled(c, s, step)
    requires r in Apply(c, s, step).passes && step != Select(r)
    ensures PassOk(c, Apply(c, s, step), Apply(c, s, step).passes[r])
  {
    var s' := Apply(c, s, step);
    hide Apply, Enabled, Cutoff, TimersOk, HeldFresh, Stale, PassOk;
    PassShape(c, s, step, r);
    assert PassOk(c, s, s.passes[r]);
    hide PassesOk;
    forall id | id in s'.items && Stale(s'.items[id], Cutoff(c, s.passes[r].at))
      ensures id in s'.passes[r].todo && s'.passes[r].todo[id] == s'.items[id].open && id !in s'.holder
    {
      TodoKept(c, s, step, r, id);
    }
    PassOkAgain(c, s, s', s.passes[r], s'.passes[r]);
  }

  lemma LeftBehindKept(c: Config, s: State, step: Step)
    requires Inv(c, s) && Accepted(c) && Enabled(c, s, step)
    ensures NoneLeftBehind(c, Apply(c, s, step))
  {
    var s' := Apply(c, s, step);
    if step.EndPass? {
      assert PassOk(c, s, s.passes[step.reaper]);
    } else {
      hide ReapedOk;
      forall id | id in s'.items && s'.items[id].status == Unfinished
        ensures s'.items[id].beat >= Cutoff(c, s'.passed)
      {
        if Stale(s'.items[id], Cutoff(c, s.passed)) {
          StaleStays(c, s, step, id, s.passed);
        }
      }
    }
  }

  lemma ReapedKept(c: Config, s: State, step: Step)
    requires Inv(c, s) && Accepted(c) && Enabled(c, s, step)
    ensures ReapedOk(Apply(c, s, step))
  {
    var s' := Apply(c, s, step);
    forall i | 0 <= i < |s'.reaped|
      ensures s'.reaped[i] in s'.items && Buried(s'.items[s'.reaped[i]])
    {
      BuriedKept(c, s, step, s'.reaped[i]);
    }
    if step.Claim? && s'.reaped != s.reaped {
      assert s'.reaped == s.reaped + [step.id];
      assert step.id in s.reaped ==> Buried(s.items[step.id]);
    }
  }

  /** A row once buried stays buried; a row becomes so by a claim that wins. */
  lemma BuriedKept(c: Config, s: State, step: Step, id: Id)
    requires Inv(c, s) && Accepted(c) && Enabled(c, s, step) && id in Apply(c, s, step).reaped
    ensures id in Apply(c, s, step).items && Buried(Apply(c, s, step).items[id])
  {
    hide NoneLeftBehind, TimersOk;
    var s' := Apply(c, s, step);
    if id in s.reaped {
      HeldIsUnfinished(c, s, id);
    } else {
      assert PassOk(c, s, s.passes[step.reaper]);
    }
  }

  lemma StepKeepsInv(c: Config, s: State, step: Step)
    requires Inv(c, s) && Accepted(c) && Enabled(c, s, step)
    ensures Inv(c, Apply(c, s, step))
  {
    TimersKept(c, s, step);
    HeldKept(c, s, step);
    PassesKept(c, s, step);
    LeftBehindKept(c, s, step);
    ReapedKept(c, s, step);
  }

  lemma {:induction false} RunKeepsInv(c: Config, s: State, steps: seq<Step>)
    requires Inv(c, s) && Accepted(c) && CanRun(c, s, steps)
    ensures Inv(c, Run(c, s, steps))
    decreases |steps|
  {
    hide Inv, Enabled, Apply;
    if steps != [] {
      StepKeepsInv(c, s, steps[0]);
      RunKeepsInv(c, Apply(c, s, steps[0]), steps[1..]);
    }
  }

  // ----- no run reaps a row that is still being executed ---------------------------------------------

  ghost predicate NoneReapedWhileHeld(s: State) {
    forall id :: id in s.holder ==> id in s.items && s.items[id].status == Unfinished && id !in s.reaped
  }

  /** Lease safety: in every run of any number of workers and reapers, whatever a worker is
      still executing (started, or resumed after any pause) is unfinished and unreaped. */
  lemma LeasesAreSafe(c: Config, steps: seq<Step>)
    requires Accepted(c) && CanRun(c, Init, steps)
    ensures NoneReapedWhileHeld(Run(c, Init, steps))
  {
    var s := Run(c, Init, steps);
    RunKeepsInv(c, Init, steps);
    forall id | id in s.holder
      ensures id in s.items && s.items[id].status == Unfinished && id !in s.reaped
    {
      HeldIsUnfinished(c, s, id);
    }
  }

  ghost predicate SafeSettings(interval: int, staleAfter: int) {
    forall c: Config, steps ::
      c.interval == interval && c.staleAfter == staleAfter && CanRun(c, Init, steps)
      ==> NoneReapedWhileHeld(Run(c, Init, steps))
  }

  /** The start-up check is exact: it accepts the settings under which no run, however
      timed, reaps a row that is still being executed, and no others. */
  lemma TheCheckIsExact(interval: int, staleAfter: int)
    requires interval > 0
    ensures SafeSettings(interval, staleAfter) <==> staleAfter >= 3 * interval
  {
    if staleAfter >= 3 * interval {
      forall c: Config, steps | c.interval == interval && c.staleAfter == staleAfter && CanRun(c, Init, steps)
        ensures NoneReapedWhileHeld(Run(c, Init, steps))
      {
        LeasesAreSafe(c, steps);
      }
    } else {
      var c := Config(interval, staleAfter, 3 * interval);
      var steps := TwoMisses(c);
      assert !NoneReapedWhileHeld(Run(c, Init, steps));
    }
  }

  /** Worker 0 executes row 0, started at time 0 and not renewed since. */
  function Unrenewed(now: int, due: int, missed: nat): State {
    State(now, map[0 := Item(Unfinished, 0, {})], map[0 := 0], map[0 := Timer(due, missed)], map[], 0, [])
  }

  /** Two renewals missed in a row, and a reaper just before the third. */
  lemma TwoMisses(c: Config) returns (steps: seq<Step>)
    requires c.interval > 0 && c.staleAfter < 3 * c.interval && c.passEvery == 3 * c.interval
    ensures CanRun(c, Init, steps) && !NoneReapedWhileHeld(Run(c, Init, steps))
  {
    var i := c.interval;
    hide *;
    steps := ReaperStrikes(c, 2 * i, 3 * i, 2);
    steps := MissedTurn(c, i, 2 * i, 1, steps);
    steps := MissedTurn(c, 0, i, 0, steps);
    steps := FromTheStart(c, steps);
  }

  lemma MissedTurn(c: Config, now: int, due: int, missed: nat, rest: seq<Step>) returns (steps: seq<Step>)
    requires now <= due <= c.passEvery && missed < 2 && CanRun(c, Unrenewed(due, due + c.interval, missed + 1), rest)
    ensures CanRun(c, Unrenewed(now, due, missed), steps)
    ensures Run(c, Unrenewed(now, due, missed), steps) == Run(c, Unrenewed(due, due + c.interval, missed + 1), rest)
  {
    Passes(c, now, due, missed, due);
    Misses(c, due, due, missed);
    hide *;
    steps := Prepend(c, Unrenewed(due, due, missed), Miss(0), rest, Unrenewed(due, due + c.interval, missed + 1));
    steps := Prepend(c, Unrenewed(now, due, missed), Advance(due), steps, Unrenewed(due, due, missed));
  }

  lemma FromTheStart(c: Config, rest: seq<Step>) returns (steps: seq<Step>)
    requires CanRun(c, Unrenewed(0, c.interval, 0), rest)
    ensures CanRun(c, Init, steps) && Run(c, Init, steps) == Run(c, Unrenewed(0, c.interval, 0), rest)
  {
    Begins(c);
    hide *;
    var booted := Init.(timers := map[0 := Timer(c.interval, 0)]);
    steps := Prepend(c, booted, Start(0, 0), rest, Unrenewed(0, c.interval, 0));
    steps := Prepend(c, Init, Boot(0), steps, booted);
  }

  lemma Passes(c: Config, now: int, due: int, missed: nat, to: int)
    requires now <= to <= due <= c.passEvery
    ensures Enabled(c, Unrenewed(now, due, missed), Advance(to))
    ensures Apply(c, Unrenewed(now, due, missed), Advance(to)) == Unrenewed(to, due, missed)
  {
  }

  lemma Misses(c: Config, now: int, due: int, missed: nat)
    requires missed < 2
    ensures Enabled(c, Unrenewed(now, due, missed), Miss(0))
    ensures Apply(c, Unrenewed(now, due, missed), Miss(0)) == Unrenewed(now, now + c.interval, missed + 1)
  {
  }

  lemma Begins(c: Config)
    ensures var booted := Init.(timers := map[0 := Timer(c.interval, 0)]);
      && Enabled(c, Init, Boot(0)) && Apply(c, Init, Boot(0)) == booted
      && Enabled(c, booted, Start(0, 0)) && Apply(c, booted, Start(0, 0)) == Unrenewed(0, c.interval, 0)
  {
  }

  lemma ReaperStrikes(c: Config, now: int, due: int, missed: nat) returns (steps: seq<Step>)
    requires c.staleAfter < due && now <= due <= c.passEvery
    ensures CanRun(c, Unrenewed(now, due, missed), steps)
    ensures !NoneReapedWhileHeld(Run(c, Unrenewed(now, due, missed), steps))
  {
    var s := Unrenewed(due, due, missed);
    var read: map<Id, set<nat>> := map[0 := {}];
    var selected := s.(passes := map[1 := Pass(due, read)]);
    steps := ClaimsFresh(c, selected);
    assert Selected(s.items, Cutoff(c, due)) == read;
    assert Enabled(c, s, Select(1)) && Apply(c, s, Select(1)) == selected;
    Passes(c, now, due, missed, due);
    hide *;
    steps := Prepend(c, s, Select(1), steps, selected);
    steps := Prepend(c, Unrenewed(now, due, missed), Advance(due), steps, s);
  }

  /** The last step of that run: the claim wins although the row is held. */
  lemma ClaimsFresh(c: Config, s: State) returns (steps: seq<Step>)
    requires s.items == map[0 := Item(Unfinished, 0, {})] && 0 in s.holder && s.reaped == []
    requires s.passes.Keys == {1} && s.passes[1].todo.Keys == {0} && Cutoff(c, s.passes[1].at) > 0
    ensures CanRun(c, s, steps) && !NoneReapedWhileHeld(Run(c, s, steps))
  {
    steps := [Claim(1, 0)];
    assert steps[1..] == [];
    var s' := Apply(c, s, steps[0]);
    assert s'.items[0].status == Failed;
  }

  lemma Prepend(c: Config, s: State, step: Step, rest: seq<Step>, s': State) returns (steps: seq<Step>)
    requires Enabled(c, s, step) && s' == Apply(c, s, step) && CanRun(c, s', rest)
    ensures CanRun(c, s, steps) && Run(c, s, steps) == Run(c, s', rest)
  {
    steps := [step] + rest;
    assert steps[1..] == rest;
  }

  // ----- every orphan is reaped, once and in time ---------------------------------------------------------

  /** Each row is claimed by at most one reaper, with one record, and is left failed with
      none of its children open. */
  lemma ReapedOnce(c: Config, steps: seq<Step>)
    requires Accepted(c) && CanRun(c, Init, steps)
    ensures ReapedOk(Run(c, Init, steps))
  {
    RunKeepsInv(c, Init, steps);
  }

  /** What no reaper may touch, and nobody once it has ended. */
  lemma SettledRowsStay(c: Config, s: State, step: Step, id: Id)
    requires Accepted(c) && Inv(c, s) && Enabled(c, s, step) && id in s.items
    requires Terminal(s.items[id].status) || (s.items[id].status == Paused && !step.Resume?)
    ensures id in Apply(c, s, step).items && Apply(c, s, step).items[id] == s.items[id]
  {
    HeldIsUnfinished(c, s, id);
    hide TimersOk, HeldFresh, PassesOk, NoneLeftBehind, ReapedOk;
  }

  /** A row that has ended, reaped or not, never changes again in any run. */
  lemma {:induction false} TheEndIsFinal(c: Config, s: State, steps: seq<Step>, id: Id)
    requires Accepted(c) && Inv(c, s) && CanRun(c, s, steps) && id in s.items && Terminal(s.items[id].status)
    ensures id in Run(c, s, steps).items && Run(c, s, steps).items[id] == s.items[id]
    decreases |steps|
  {
    hide Inv, Enabled, Apply;
    if steps != [] {
      StepKeepsInv(c, s, steps[0]);
      SettledRowsStay(c, s, steps[0], id);
      TheEndIsFinal(c, Apply(c, s, steps[0]), steps[1..], id);
    }
  }

  /** A row that has ended or is paused has nothing open. */
  ghost predicate EndedClosed(s: State) {
    forall id :: id in s.items && s.items[id].status != Unfinished ==> s.items[id].open == {}
  }

  lemma StepKeepsClosed(c: Config, s: State, step: Step)
    requires Accepted(c) && Inv(c, s) && Enabled(c, s, step) && EndedClosed(s)
    ensures EndedClosed(Apply(c, s, step))
  {
    var s' := Apply(c, s, step);
    forall id | id in s'.items && s'.items[id].status != Unfinished
      ensures s'.items[id].open == {}
    {
      HeldIsUnfinished(c, s, id);
      if step.Claim? {
        assert PassOk(c, s, s.passes[step.reaper]);
      }
      hide TimersOk, HeldFresh, PassesOk, PassOk, NoneLeftBehind, ReapedOk;
    }
  }

  lemma {:induction false} RunKeepsClosed(c: Config, s: State, steps: seq<Step>)
    requires Accepted(c) && Inv(c, s) && CanRun(c, s, steps) && EndedClosed(s)
    ensures EndedClosed(Run(c, s, steps))
    decreases |steps|
  {
    hide Inv, Enabled, Apply, EndedClosed;
    if steps != [] {
      StepKeepsInv(c, s, steps[0]);
      StepKeepsClosed(c, s, steps[0]);
      RunKeepsClosed(c, Apply(c, s, steps[0]), steps[1..]);
    }
  }

  /** However a row came to its end, by its holder or by a reaper, no child is left open. */
  lemma NothingIsLeftOpen(c: Config, steps: seq<Step>)
    requires Accepted(c) && CanRun(c, Init, steps)
    ensures EndedClosed(Run(c, Init, steps))
  {
    RunKeepsClosed(c, Init, steps);
  }

  lemma {:induction false} PassesComeInTime(c: Config, s: State, steps: seq<Step>)
    requires CanRun(c, s, steps) && s.now <= s.passed + c.passEvery
    ensures Run(c, s, steps).now <= Run(c, s, steps).passed + c.passEvery
    decreases |steps|
  {
    if steps != [] {
      hide Renewed, Selected, Stale, Reaped, HeldBy;
      PassesComeInTime(c, Apply(c, s, steps[0]), steps[1..]);
    }
  }

  /** A row left behind: unfinished, and nobody executes it any more. */
  predicate Orphan(s: State, id: Id) {
    id in s.items && s.items[id].status == Unfinished && id !in s.holder
  }

  /** Failed by a reaper, with a record and none of its children left open. */
  ghost predicate Laid(s: State, id: Id) {
    id in s.reaped && id in s.items && Buried(s.items[id])
  }

  /** An orphan stays exactly as it is until a reaper claims it; nothing else touches it. */
  lemma OrphanWaitsOrIsLaid(c: Config, s: State, step: Step, id: Id)
    requires Accepted(c) && Inv(c, s) && Enabled(c, s, step) && Orphan(s, id)
    ensures var s' := Apply(c, s, step);
      || (Orphan(s', id) && s'.items[id] == s.items[id])
      || (step.Claim? && step.id == id && Laid(s', id))
  {
    var s' := Apply(c, s, step);
    if step.Claim? && step.id == id && id in s'.reaped {
      BuriedKept(c, s, step, id);
    }
    hide TimersOk, HeldFresh, PassesOk, NoneLeftBehind, ReapedOk;
  }

  lemma RecordsStay(c: Config, s: State, step: Step, id: Id)
    requires Enabled(c, s, step) && id in s.reaped
    ensures id in Apply(c, s, step).reaped
  {
    hide Renewed, Selected, HeldBy, Stale, Reaped;
  }

  lemma {:induction false} LaidStays(c: Config, s: State, steps: seq<Step>, id: Id)
    requires Accepted(c) && Inv(c, s) && CanRun(c, s, steps) && Laid(s, id)
    ensures Laid(Run(c, s, steps), id)
    decreases |steps|
  {
    if steps != [] {
      StepKeepsInv(c, s, steps[0]);
      SettledRowsStay(c, s, steps[0], id);
      RecordsStay(c, s, steps[0], id);
      hide Inv, Enabled, Apply;
      LaidStays(c, Apply(c, s, steps[0]), steps[1..], id);
    }
  }

  lemma {:induction false} OrphanFate(c: Config, s: State, steps: seq<Step>, id: Id)
    requires Accepted(c) && Inv(c, s) && CanRun(c, s, steps) && Orphan(s, id)
    ensures var s' := Run(c, s, steps);
      Laid(s', id) || (Orphan(s', id) && s'.items[id] == s.items[id])
    decreases |steps|
  {
    hide Inv, Enabled, Apply, Laid, Orphan;
    if steps != [] {
      StepKeepsInv(c, s, steps[0]);
      OrphanWaitsOrIsLaid(c, s, steps[0], id);
      if Laid(Apply(c, s, steps[0]), id) {
        LaidStays(c, Apply(c, s, steps[0]), steps[1..], id);
      } else {
        OrphanFate(c, Apply(c, s, steps[0]), steps[1..], id);
      }
    }
  }

  /** Whatever left a row behind, once the stale threshold and one reaper period have passed
      since its last beat it has been claimed by a reaper: it is failed, recorded, and none
      of its children is open. */
  lemma OrphansAreReapedInTime(c: Config, s: State, steps: seq<Step>, id: Id)
    requires Accepted(c) && Inv(c, s) && CanRun(c, s, steps) && s.now <= s.passed + c.passEvery && Orphan(s, id)
    requires Run(c, s, steps).now > s.items[id].beat + c.staleAfter + c.passEvery
    ensures Laid(Run(c, s, steps), id)
  {
    OrphanFate(c, s, steps, id);
    RunKeepsInv(c, s, steps);
    PassesComeInTime(c, s, steps);
    hide Run, CanRun, TimersOk, HeldFresh, PassesOk, ReapedOk, Laid;
  }

  /** The same from the start: an orphan at any point of any run. */
  lemma OrphansAreBounded(c: Config, before: seq<Step>, after: seq<Step>, id: Id)
    requires Accepted(c) && c.passEvery >= 0 && CanRun(c, Init, before)
    requires var s := Run(c, Init, before);
      && Orphan(s, id) && CanRun(c, s, after)
      && Run(c, s, after).now > s.items[id].beat + c.staleAfter + c.passEvery
    ensures Laid(Run(c, Run(c, Init, before), after), id)
  {
    RunKeepsInv(c, Init, before);
    PassesComeInTime(c, Init, before);
    hide Run, CanRun, Inv, Orphan, Laid;
    OrphansAreReapedInTime(c, Run(c, Init, before), after, id);
  }

  // ----- the renewals and the reaper as the program runs them ----------------------------------------------

  function Renewable(items: map<Id, Item>, live: set<Id>): set<Id> {
    set id | id in items && id in live && items[id].status == Unfinished
  }

  /** One undisturbed pass: the stale rows are buried, the others as they were. */
  function Swept(items: map<Id, Item>, cutoff: int): map<Id, Item> {
    map id | id in items :: if Stale(items[id], cutoff) then Reaped(items[id], items[id].open) else items[id]
  }

  /** Row by row: the unfinished live rows beat now, nothing else changes. */
  ghost predicate Beaten(before: map<Id, Item>, after: map<Id, Item>, live: set<Id>, now: int) {
    after.Keys == before.Keys
    && forall id :: id in before ==>
      after[id] == if id in live && before[id].status == Unfinished then Item(Unfinished, now, before[id].open)
                   else before[id]
  }

  /** The sequence names exactly the given ids, each once. */
  ghost predicate Lists(order: seq<Id>, ids: set<Id>) {
    && (forall i, j :: 0 <= i < j < |order| ==> order[i] != order[j])
    && (forall id :: id in order <==> id in ids)
  }

  /** The table of leased rows, with one audit record for each row reaped. */
  class LeaseTable {
    var rows: map<Id, Item>
    var audited: seq<Id>

    /** heartbeat_live_runs, heartbeat_live_tasks, heartbeat_live_ingestions */
    method Heartbeat(live: set<Id>, now: int) returns (renewed: nat)
      modifies this`rows
      ensures Beaten(old(rows), rows, live, now)
      ensures renewed == |Renewable(old(rows), live)|
    {
      if live == {} {
        return 0;
      }
      renewed := |Renewable(rows, live)|;
      rows := Renewed(rows, live, now);
    }

    /** reap_stale_runs, reap_stale_tasks, reap_stale_ingestions, with nobody in between:
        exactly the stale rows are failed, each with one record. */
    method ReapStale(now: int, staleAfter: int) returns (reaped: nat)
      modifies this`rows, this`audited
      ensures rows == Swept(old(rows), now - staleAfter)
      ensures reaped == |Selected(old(rows), now - staleAfter)|
      ensures old(audited) <= audited
      ensures Lists(audited[|old(audited)|..], Selected(old(rows), now - staleAfter).Keys)
    {
      hide Swept, PartlySwept, Lists, Reaped, Selected, Stale;
      var cutoff := now - staleAfter;
      var read := Selected(rows, cutoff);
      var todo := read.Keys;
      ghost var added: seq<Id>, done: set<Id> := [], {};
      reaped := 0;
      NothingSwept(rows, read);
      while todo != {}
        invariant done + todo == read.Keys && done !! todo
        invariant rows == PartlySwept(old(rows), read, todo)
        invariant audited == old(audited) + added && Lists(added, done) && reaped + |todo| == |read|
      {
        var id :| id in todo;
        OneMoreSwept(old(rows), cutoff, todo, id);
        OneMoreListed(added, done, id);
        MovedOver(done, todo, id, read.Keys);
        todo, done := todo - {id}, done + {id};
        if Stale(rows[id], cutoff) {
          Assoc(old(audited), added, [id]);
          rows := rows[id := Reaped(rows[id], read[id])];
          audited := audited + [id];
          reaped := reaped + 1;
          added := added + [id];
        }
      }
      AllSwept(old(rows), cutoff);
      assert done == read.Keys;
      Appended(old(audited), added);
    }
  }

  lemma MovedOver(done: set<Id>, todo: set<Id>, id: Id, all: set<Id>)
    requires done + todo == all && done !! todo && id in todo
    ensures (done + {id}) + (todo - {id}) == all && (done + {id}) !! (todo - {id}) && |todo - {id}| == |todo| - 1
  {
  }

  lemma Appended(before: seq<Id>, added: seq<Id>)
    ensures before <= before + added && (before + added)[|before|..] == added
  {
  }

  lemma NothingSwept(items: map<Id, Item>, read: map<Id, set<nat>>)
    ensures PartlySwept(items, read, read.Keys) == items && Lists([], {}) && |read| == |read.Keys|
  {
  }

  lemma AllSwept(items: map<Id, Item>, cutoff: int)
    ensures PartlySwept(items, Selected(items, cutoff), {}) == Swept(items, cutoff)
  {
  }

  /** A row still to do is as it was, hence stale; the claim takes it off the list. */
  lemma OneMoreSwept(items: map<Id, Item>, cutoff: int, todo: set<Id>, id: Id)
    requires id in todo && todo <= Selected(items, cutoff).Keys
    ensures var read := Selected(items, cutoff);
      var rows := PartlySwept(items, read, todo);
      && id in rows && Stale(rows[id], cutoff)
      && rows[id := Reaped(rows[id], read[id])] == PartlySwept(items, read, todo - {id})
  {
  }

  lemma OneMoreListed(order: seq<Id>, ids: set<Id>, id: Id)
    requires Lists(order, ids) && id !in ids
    ensures Lists(order + [id], ids + {id})
  {
    assert id !in order;
  }

  /** The pass so far: the rows read but for those still to do. */
  ghost function PartlySwept(items: map<Id, Item>, read: map<Id, set<nat>>, todo: set<Id>): map<Id, Item> {
    map id | id in items :: if id in read && id !in todo then Reaped(items[id], read[id]) else items[id]
  }

  /** The table's renewal is the step system's. */
  lemma HeartbeatIsRenewal(c: Config, s: State, w: Worker, after: map<Id, Item>)
    requires Enabled(c, s, Renew(w)) && Beaten(s.items, after, HeldBy(s.holder, w), s.now)
    ensures after == Apply(c, s, Renew(w)).items
  {
  }

  function Claims(r: Worker, order: seq<Id>): seq<Step> {
    if order == [] then [EndPass(r)] else [Claim(r, order[0])] + Claims(r, order[1..])
  }

  /** The table's pass is the step system's, with nobody in between: for any order of the
      rows selected, the select, the claims and the end of the pass can run, and leave the
      rows and the records that ReapStale leaves. */
  lemma ReapStaleIsPass(c: Config, s: State, r: Worker, order: seq<Id>)
    requires Enabled(c, s, Select(r)) && Lists(order, Selected(s.items, Cutoff(c, s.now)).Keys)
    ensures var steps := [Select(r)] + Claims(r, order);
      && CanRun(c, s, steps)
      && Run(c, s, steps).items == Swept(s.items, Cutoff(c, s.now))
      && Run(c, s, steps).reaped == s.reaped + order
  {
    var s1 := Apply(c, s, Select(r));
    assert ([Select(r)] + Claims(r, order))[1..] == Claims(r, order);
    assert forall id :: id in order ==> id in Selected(s.items, Cutoff(c, s.now)).Keys;
    ClaimsRun(c, s1, r, order);
    assert Swept(s.items, Cutoff(c, s.now)) == PartlySwept(s1.items, s1.passes[r].todo, {});
  }

  lemma {:induction false} ClaimsRun(c: Config, s: State, r: Worker, order: seq<Id>)
    requires r in s.passes && Lists(order, s.passes[r].todo.Keys)
    requires forall id :: id in s.passes[r].todo ==>
      id in s.items && Stale(s.items[id], Cutoff(c, s.passes[r].at)) && s.passes[r].todo[id] == s.items[id].open
    ensures CanRun(c, s, Claims(r, order))
    ensures Run(c, s, Claims(r, order)).items == PartlySwept(s.items, s.passes[r].todo, {})
    ensures Run(c, s, Claims(r, order)).reaped == s.reaped + order
    decreases |order|
  {
    hide Selected, Renewed, HeldBy, Lists, PartlySwept;
    if order == [] {
      NoneListed(s.passes[r].todo);
      assert [EndPass(r)][1..] == [];
      AllClaimed(s.items, s.passes[r].todo);
    } else {
      var id, rest := order[0], order[1..];
      FirstListed(order, s.passes[r].todo);
      ClaimOfSelected(c, s, r, id);
      var s' := Apply(c, s, Claim(r, id));
      assert Claims(r, order)[1..] == Claims(r, rest);
      assert (s.reaped + [id]) + rest == s.reaped + order;
      hide Apply, Enabled, Stale;
      ClaimsRun(c, s', r, rest);
    }
  }

  lemma NoneListed(todo: map<Id, set<nat>>)
    requires Lists([], todo.Keys)
    ensures todo == map[]
  {
    assert todo.Keys == {};
  }

  lemma AllClaimed(items: map<Id, Item>, todo: map<Id, set<nat>>)
    requires todo == map[]
    ensures PartlySwept(items, todo, {}) == items
  {
  }

  lemma FirstListed(order: seq<Id>, todo: map<Id, set<nat>>)
    requires order != [] && Lists(order, todo.Keys)
    ensures order[0] in todo && Lists(order[1..], (todo - {order[0]}).Keys) && order == [order[0]] + order[1..]
  {
    assert order[0] in order && order == [order[0]] + order[1..];
  }

  /** Claiming a selected row buries it and leaves the rest of the pass as it was. */
  lemma ClaimOfSelected(c: Config, s: State, r: Worker, id: Id)
    requires r in s.passes && id in s.passes[r].todo
    requires forall x :: x in s.passes[r].todo ==>
      x in s.items && Stale(s.items[x], Cutoff(c, s.passes[r].at)) && s.passes[r].todo[x] == s.items[x].open
    ensures Enabled(c, s, Claim(r, id))
    ensures var s', todo := Apply(c, s, Claim(r, id)), s.passes[r].todo;
      && r in s'.passes && s'.passes[r] == s.passes[r].(todo := todo - {id}) && s'.reaped == s.reaped + [id]
      && PartlySwept(s'.items, todo - {id}, {}) == PartlySwept(s.items, todo, {})
      && forall x :: x in todo - {id} ==>
           x in s'.items && Stale(s'.items[x], Cutoff(c, s.passes[r].at)) && todo[x] == s'.items[x].open
  {
  }
}
