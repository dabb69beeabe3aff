/** The Redis-backed sliding window (backend/app/core/window_store.py), as a protocol:
    any number of workers run an atomic pipeline and, when rejected, a later zrem. One
    key, one window and limit; pipelines run with non-decreasing timestamps. */
module RedisWindow {
  import opened Prelude
  import Window

  type Id = nat

  /** What the key's callers share. */
  datatype Config = Config(window: nat, limit: nat)

  /** `members` is the sorted set. The rest is bookkeeping of what the members stand for:
      hits recorded since the last clear (admitted, or added unconditionally), and
      rejected hits whose zrem has not run yet. */
  datatype State = State(
    members: map<Id, real>,
    recorded: map<Id, real>,
    admitted: map<Id, real>,
    rejected: map<Id, real>,
    used: set<Id>,
    clock: real,
    expiresAt: real)

  datatype Step =
    | TryHit(id: Id, now: real)
    | Zrem(id: Id)
    | Penalty(now: real)
    | Add(id: Id, now: real)
    | Expire(now: real)
    | Clear

  const Empty := State(map[], map[], map[], map[], {}, 0.0, 0.0)

  /** zremrangebyscore(name, 0, windowStart): both ends inclusive. */
  function Prune(members: map<Id, real>, windowStart: real): map<Id, real> {
    map id | id in members && !(0.0 <= members[id] <= windowStart) :: members[id]
  }

  function Piped(s: State, id: Id, now: real, c: Config): map<Id, real> {
    Prune(s.members, now - c.window as real)[id := now]
  }

  /** The decision of try_hit's pipeline: the count includes the new member. */
  predicate Admits(s: State, id: Id, now: real, c: Config) {
    |Piped(s, id, now, c)| <= c.limit
  }

  ghost predicate Enabled(s: State, step: Step) {
    match step
    case TryHit(id, now) => id !in s.used && s.clock <= now
    case Zrem(id) => id in s.rejected
    case Penalty(now) => s.clock <= now
    case Add(id, now) => id !in s.used && s.clock <= now
    case Expire(now) => s.clock <= now && s.expiresAt <= now
    case Clear => true
  }

  function Next(s: State, step: Step, c: Config): State {
    match step
    case TryHit(id, now) =>
      var s1 := s.(members := Piped(s, id, now, c), used := s.used + {id}, clock := now,
                   expiresAt := now + c.window as real + 60.0);
      if Admits(s, id, now, c) then
        s1.(recorded := s.recorded[id := now], admitted := s.admitted[id := now])
      else
        s1.(rejected := s.rejected[id := now])
    case Zrem(id) => s.(members := s.members - {id}, rejected := s.rejected - {id})
    case Penalty(now) => s.(members := Prune(s.members, now - c.window as real), clock := now)
    case Add(id, now) =>
      s.(members := s.members[id := now], recorded := s.recorded[id := now], used := s.used + {id}, clock := now,
         expiresAt := now + c.window as real + 60.0)
    case Expire(now) => s.(members := map[], clock := now)
    case Clear => s.(members := map[], recorded := map[], admitted := map[], rejected := map[])
  }

  /** The hits of m in the half-open window (t - W, t]. */
  function InWindow(m: map<Id, real>, t: real, c: Config): set<Id> {
    set id | id in m && t - c.window as real < m[id] <= t
  }

  // ----- the invariant -----------------------------------------------------------------

  ghost predicate Times(m: map<Id, real>, s: State) {
    forall id :: id in m ==> id in s.used && 0.0 <= m[id] <= s.clock
  }

  /** Every entry of m still in the window is a member, with its own score. */
  ghost predicate Kept(m: map<Id, real>, s: State, c: Config) {
    forall id :: id in m && m[id] > s.clock - c.window as real ==> id in s.members && s.members[id] == m[id]
  }

  /** Every member is a recorded hit or a pending rejected one, with its own score. */
  ghost predicate Explained(s: State) {
    forall id :: id in s.members ==>
      || (id in s.recorded && s.members[id] == s.recorded[id])
      || (id in s.rejected && s.members[id] == s.rejected[id])
  }

  ghost predicate Expiring(s: State, c: Config) {
    forall id :: id in s.members ==> s.members[id] + c.window as real <= s.expiresAt
  }

  ghost predicate Inv(s: State, c: Config) {
    && 0.0 <= s.clock
    && Times(s.recorded, s) && Times(s.rejected, s)
    && s.recorded.Keys !! s.rejected.Keys
    && Kept(s.recorded, s, c) && Kept(s.rejected, s, c)
    && Explained(s) && Expiring(s, c)
    && (forall id :: id in s.admitted ==> id in s.recorded && s.recorded[id] == s.admitted[id])
  }

  /** No half-open window holds more than `limit` admitted hits. */
  ghost predicate WithinLimit(s: State, c: Config) {
    forall t: real :: |InWindow(s.admitted, t, c)| <= c.limit
  }

  /** After the pipeline the members are the recorded and pending hits of the window and
      the new one. */
  lemma PipedMember(s: State, id: Id, now: real, c: Config, x: Id)
    requires Inv(s, c) && Enabled(s, TryHit(id, now))
    ensures x in Piped(s, id, now, c) <==>
      x in InWindow(s.recorded, now, c) || x in InWindow(s.rejected, now, c) || x == id
  {
  }

  lemma ThreeApart(s: State, id: Id, now: real, c: Config)
    requires Inv(s, c) && Enabled(s, TryHit(id, now))
    ensures InWindow(s.recorded, now, c) !! InWindow(s.rejected, now, c)
    ensures id !in InWindow(s.recorded, now, c) && id !in InWindow(s.rejected, now, c)
  {
    hide Kept, Explained, Expiring;
  }

  /** Each of them counts once. */
  lemma PipelineCounts(s: State, id: Id, now: real, c: Config)
    requires Inv(s, c) && Enabled(s, TryHit(id, now))
    ensures Piped(s, id, now, c).Keys == InWindow(s.recorded, now, c) + InWindow(s.rejected, now, c) + {id}
    ensures |Piped(s, id, now, c)| == |InWindow(s.recorded, now, c)| + |InWindow(s.rejected, now, c)| + 1
  {
    var a, b := InWindow(s.recorded, now, c), InWindow(s.rejected, now, c);
    var p := Piped(s, id, now, c);
    hide Inv, InWindow, Piped, Enabled;
    ThreeApart(s, id, now, c);
    forall x
      ensures x in p.Keys <==> x in a + b + {id}
    {
      PipedMember(s, id, now, c, x);
    }
    UnionSize(a, b, id);
    assert p.Keys == a + b + {id};
    assert |p| == |p.Keys|;
  }

  lemma UnionSize(a: set<Id>, b: set<Id>, id: Id)
    requires a !! b && id !in a && id !in b
    ensures |a + b + {id}| == |a| + |b| + 1
  {
  }

  /** The decision, for any interleaving: pending rejected members count like recorded
      hits, so they can only cause more rejections. */
  lemma DecisionIff(s: State, id: Id, now: real, c: Config)
    requires Inv(s, c) && Enabled(s, TryHit(id, now))
    ensures Admits(s, id, now, c)
       <==> |InWindow(s.recorded, now, c)| + |InWindow(s.rejected, now, c)| < c.limit
    ensures s.rejected == map[] ==> (Admits(s, id, now, c) <==> |InWindow(s.recorded, now, c)| < c.limit)
    ensures Admits(s, id, now, c) ==> |InWindow(s.recorded, now, c)| < c.limit
  {
    PipelineCounts(s, id, now, c);
  }

  lemma TryHitExplained(s: State, id: Id, now: real, c: Config)
    requires Explained(s) && Times(s.recorded, s) && Times(s.rejected, s) && Enabled(s, TryHit(id, now))
    ensures Explained(Next(s, TryHit(id, now), c))
  {
    hide Admits;
  }

  lemma TryHitExpiring(s: State, id: Id, now: real, c: Config)
    requires Expiring(s, c) && Explained(s) && Times(s.recorded, s) && Times(s.rejected, s)
    requires Enabled(s, TryHit(id, now))
    ensures Expiring(Next(s, TryHit(id, now), c), c)
  {
    hide Admits;
  }

  lemma TryHitKept(s: State, id: Id, now: real, c: Config)
    requires Kept(s.recorded, s, c) && Kept(s.rejected, s, c) && Enabled(s, TryHit(id, now))
    requires Times(s.recorded, s) && Times(s.rejected, s)
    ensures Kept(Next(s, TryHit(id, now), c).recorded, Next(s, TryHit(id, now), c), c)
    ensures Kept(Next(s, TryHit(id, now), c).rejected, Next(s, TryHit(id, now), c), c)
  {
    hide Admits;
  }

  lemma TryHitTimes(s: State, id: Id, now: real, c: Config)
    requires 0.0 <= s.clock && Times(s.recorded, s) && Times(s.rejected, s) && Enabled(s, TryHit(id, now))
    ensures Times(Next(s, TryHit(id, now), c).recorded, Next(s, TryHit(id, now), c))
    ensures Times(Next(s, TryHit(id, now), c).rejected, Next(s, TryHit(id, now), c))
  {
    hide Admits, Piped;
  }

  lemma TryHitKeepsInv(s: State, id: Id, now: real, c: Config)
    requires Inv(s, c) && Enabled(s, TryHit(id, now))
    ensures Inv(Next(s, TryHit(id, now), c), c)
  {
    TryHitExplained(s, id, now, c);
    TryHitExpiring(s, id, now, c);
    TryHitKept(s, id, now, c);
    TryHitTimes(s, id, now, c);
    hide Admits, Piped, Kept, Explained, Expiring;
  }

  lemma AddKeepsInv(s: State, id: Id, now: real, c: Config)
    requires Inv(s, c) && Enabled(s, Add(id, now))
    ensures Inv(Next(s, Add(id, now), c), c)
  {
  }

  lemma ZremKeepsInv(s: State, id: Id, c: Config)
    requires Inv(s, c) && Enabled(s, Zrem(id))
    ensures Inv(Next(s, Zrem(id), c), c)
  {
  }

  lemma PenaltyKeepsInv(s: State, now: real, c: Config)
    requires Inv(s, c) && Enabled(s, Penalty(now))
    ensures Inv(Next(s, Penalty(now), c), c)
  {
  }

  lemma ExpireKeepsInv(s: State, now: real, c: Config)
    requires Inv(s, c) && Enabled(s, Expire(now))
    ensures Inv(Next(s, Expire(now), c), c)
  {
  }

  lemma StepKeepsInv(s: State, step: Step, c: Config)
    requires Inv(s, c) && Enabled(s, step)
    ensures Inv(Next(s, step, c), c)
  {
    match step
    case TryHit(id, now) => TryHitKeepsInv(s, id, now, c);
    case Zrem(id) => ZremKeepsInv(s, id, c);
    case Penalty(now) => PenaltyKeepsInv(s, now, c);
    case Add(id, now) => AddKeepsInv(s, id, now, c);
    case Expire(now) => ExpireKeepsInv(s, now, c);
    case Clear =>
  }

  /** An admission leaves every window within the limit: those with the new hit are no
      larger than what the pipeline counted. */
  lemma AdmittedWindow(s: State, id: Id, now: real, t: real, c: Config)
    requires Inv(s, c) && Enabled(s, TryHit(id, now)) && Admits(s, id, now, c)
    requires |InWindow(s.admitted, t, c)| <= c.limit
    ensures |InWindow(s.admitted[id := now], t, c)| <= c.limit
  {
    if now <= t && t - c.window as real < now {
      PipelineCounts(s, id, now, c);
      SubsetSize(InWindow(s.admitted[id := now], t, c), Piped(s, id, now, c).Keys);
    } else {
      assert InWindow(s.admitted[id := now], t, c) == InWindow(s.admitted, t, c) by {
        hide Kept, Explained, Expiring, Piped;
      }
    }
  }

  lemma StepKeepsLimit(s: State, step: Step, c: Config)
    requires Inv(s, c) && WithinLimit(s, c) && Enabled(s, step)
    ensures WithinLimit(Next(s, step, c), c)
  {
    hide Inv, Piped, Enabled, InWindow;
    var s' := Next(s, step, c);
    forall t: real
      ensures |InWindow(s'.admitted, t, c)| <= c.limit
    {
      assert |InWindow(s.admitted, t, c)| <= c.limit;
      match step
      case TryHit(id, now) =>
        if Admits(s, id, now, c) {
          AdmittedWindow(s, id, now, t, c);
        }
      case Clear =>
        NoHits(t, c);
      case _ =>
    }
  }

  lemma NoHits(t: real, c: Config)
    ensures InWindow(map[], t, c) == {}
  {
  }

  // ----- whole runs ------------------------------------------------------------------------

  ghost predicate Legal(s: State, steps: seq<Step>, c: Config)
    decreases |steps|
  {
    steps == [] || (Enabled(s, steps[0]) && Legal(Next(s, steps[0], c), steps[1..], c))
  }

  ghost function Final(s: State, steps: seq<Step>, c: Config): State
    decreases |steps|
  {
    if steps == [] then s else Final(Next(s, steps[0], c), steps[1..], c)
  }

  /** In every run of any number of workers, at most `limit` hits are admitted in any
      window (t - W, t] since the last clear. */
  lemma {:induction false} NeverOverLimit(s: State, steps: seq<Step>, c: Config)
    requires Inv(s, c) && WithinLimit(s, c) && Legal(s, steps, c)
    ensures Inv(Final(s, steps, c), c) && WithinLimit(Final(s, steps, c), c)
    decreases |steps|
  {
    if steps != [] {
      StepKeepsInv(s, steps[0], c);
      StepKeepsLimit(s, steps[0], c);
      NeverOverLimit(Next(s, steps[0], c), steps[1..], c);
    }
  }

  lemma EmptyIsFine(c: Config)
    ensures Inv(Empty, c) && WithinLimit(Empty, c)
  {
    forall t: real
      ensures InWindow(Empty.admitted, t, c) == {}
    {
      NoHits(t, c);
    }
  }

  lemma NeverOverLimitFromEmpty(steps: seq<Step>, c: Config)
    requires Legal(Empty, steps, c)
    ensures WithinLimit(Final(Empty, steps, c), c)
  {
    EmptyIsFine(c);
    NeverOverLimit(Empty, steps, c);
  }

  // ----- penalty: the same check, recording nothing ----------------------------------------------

  /** The reply of penalty: zero while the pruned count is below the limit, or none is left. */
  predicate PenaltyIsZero(s: State, now: real, c: Config) {
    var left := Prune(s.members, now - c.window as real);
    |left| < c.limit || left == map[]
  }

  /** It is zero exactly when the recorded and the pending hits of the window are together
      below the limit, or there are none. */
  lemma PenaltyIff(s: State, now: real, c: Config)
    requires Inv(s, c) && Enabled(s, Penalty(now))
    ensures var hits := |InWindow(s.recorded, now, c)| + |InWindow(s.rejected, now, c)|;
      PenaltyIsZero(s, now, c) <==> hits < c.limit || hits == 0
  {
    var left := Prune(s.members, now - c.window as real);
    var a, b := InWindow(s.recorded, now, c), InWindow(s.rejected, now, c);
    PrunedMembers(s, now, c);
    assert a !! b;
    assert |left| == |left.Keys|;
    hide Inv, InWindow, Enabled, Prune;
    assert |a + b| == |a| + |b|;
  }

  lemma PrunedMembers(s: State, now: real, c: Config)
    requires Inv(s, c) && Enabled(s, Penalty(now))
    ensures Prune(s.members, now - c.window as real).Keys == InWindow(s.recorded, now, c) + InWindow(s.rejected, now, c)
  {
    forall x
      ensures x in Prune(s.members, now - c.window as real)
         <==> x in InWindow(s.recorded, now, c) || x in InWindow(s.rejected, now, c)
    {
    }
  }

  // ----- the advertised wait ----------------------------------------------------------------

  /** t is the lowest score among the ids. */
  ghost predicate OldestOf(m: map<Id, real>, ids: set<Id>, t: real) {
    && (exists x :: x in ids && x in m && m[x] == t)
    && (forall x :: x in ids && x in m ==> m[x] >= t)
  }

  /** With every pending removal carried out. */
  function Drained(s: State): State {
    s.(members := s.members - s.rejected.Keys, rejected := map[])
  }

  lemma DrainedKeepsInv(s: State, c: Config)
    requires Inv(s, c)
    ensures Inv(Drained(s), c)
  {
  }

  /** A rejection is due to pending removals alone if and only if the recorded hits are
      below the limit and those pending make up for it; then no wait at all is called for. */
  lemma SpuriousIff(s: State, id: Id, now: real, c: Config)
    requires Inv(s, c) && Enabled(s, TryHit(id, now))
    ensures !Admits(s, id, now, c) && Admits(Drained(s), id, now, c)
       <==> var recorded := |InWindow(s.recorded, now, c)|;
            recorded < c.limit <= recorded + |InWindow(s.rejected, now, c)|
  {
    DrainedKeepsInv(s, c);
    DecisionIff(s, id, now, c);
    DecisionIff(Drained(s), id, now, c);
    hide Inv, Admits;
  }

  /** Otherwise the wait is taken from the oldest member. Of the interface, where `add` may
      record hits on the key too, this much is true: the wait is the one the recorded hits
      call for exactly when no pending member in the window is older than all of them, or
      the rounding hides the difference; and it is never longer. */
  lemma AdvertisedWait(s: State, id: Id, now: real, c: Config, oldest: real, first: real)
    requires Inv(s, c) && Enabled(s, TryHit(id, now)) && |InWindow(s.recorded, now, c)| >= c.limit
    requires OldestOf(Piped(s, id, now, c), Piped(s, id, now, c).Keys, oldest)
    requires OldestOf(s.recorded, InWindow(s.recorded, now, c), first)
    ensures !Admits(s, id, now, c)
    ensures oldest == first <==> forall x :: x in InWindow(s.rejected, now, c) ==> s.rejected[x] >= first
    ensures var start := now - c.window as real;
      && oldest <= first && Window.RetryAfter(oldest, start) <= Window.RetryAfter(first, start)
      && (Window.RetryAfter(oldest, start) == Window.RetryAfter(first, start)
          <==> forall x :: x in InWindow(s.rejected, now, c) ==>
                 Window.RetryAfter(s.rejected[x], start) >= Window.RetryAfter(first, start))
  {
    DecisionIff(s, id, now, c);
    OldestMember(s, id, now, c, oldest, first);
    var start := now - c.window as real;
    hide Inv, Enabled, Admits, InWindow, Piped, OldestOf, Window.RetryAfter;
    LaterWaitsLonger(oldest, first, start);
    forall x | x in InWindow(s.rejected, now, c)
      ensures Window.RetryAfter(oldest, start) <= Window.RetryAfter(s.rejected[x], start)
    {
      LaterWaitsLonger(oldest, s.rejected[x], start);
    }
  }

  /** The oldest member is the oldest recorded hit or an older pending one. */
  lemma OldestMember(s: State, id: Id, now: real, c: Config, oldest: real, first: real)
    requires Inv(s, c) && Enabled(s, TryHit(id, now))
    requires OldestOf(Piped(s, id, now, c), Piped(s, id, now, c).Keys, oldest)
    requires OldestOf(s.recorded, InWindow(s.recorded, now, c), first)
    ensures forall x :: x in InWindow(s.rejected, now, c) ==> x in s.rejected && s.rejected[x] >= oldest
    ensures oldest <= first
    ensures oldest == first || exists x :: x in InWindow(s.rejected, now, c) && s.rejected[x] == oldest
  {
    PipelineCounts(s, id, now, c);
    var p := Piped(s, id, now, c);
    forall x | x in InWindow(s.rejected, now, c)
      ensures x in p && p[x] == s.rejected[x]
    {
    }
    forall x | x in InWindow(s.recorded, now, c)
      ensures x in p && p[x] == s.recorded[x]
    {
    }
    var y :| y in InWindow(s.recorded, now, c) && s.recorded[y] == first;
    var z :| z in p && p[z] == oldest;
    assert z in InWindow(s.recorded, now, c) || z in InWindow(s.rejected, now, c) || z == id;
  }

  lemma LaterWaitsLonger(a: real, b: real, start: real)
    requires a <= b
    ensures Window.RetryAfter(a, start) <= Window.RetryAfter(b, start)
  {
  }

  // ----- keys on which nothing but try_hit records -------------------------------------------------

  /** The recorded hits later than t. */
  function LaterThan(m: map<Id, real>, t: real): set<Id> {
    set x | x in m && m[x] > t
  }

  /** The room left when a hit was rejected is not used up while its removal is pending: it
      was counted by every admission since. */
  ghost predicate CountedSince(s: State, c: Config) {
    forall x :: x in s.rejected && s.rejected[x] > s.clock - c.window as real ==>
      |LaterThan(s.recorded, s.rejected[x])| < c.limit
  }

  lemma NoneLater(m: map<Id, real>, t: real)
    requires forall x :: x in m ==> m[x] <= t
    ensures LaterThan(m, t) == {}
  {
  }

  /** An admission counted the pending member x and all recorded hits later than it. */
  lemma AdmissionCountsPending(s: State, id: Id, now: real, c: Config, x: Id)
    requires Inv(s, c) && Enabled(s, TryHit(id, now)) && Admits(s, id, now, c)
    requires x in s.rejected && s.rejected[x] > now - c.window as real
    ensures |LaterThan(s.recorded[id := now], s.rejected[x])| < c.limit
  {
    PipelineCounts(s, id, now, c);
    var later := LaterThan(s.recorded[id := now], s.rejected[x]);
    assert later <= InWindow(s.recorded, now, c) + {id};
    SubsetSize(later, InWindow(s.recorded, now, c) + {id});
    assert x in InWindow(s.rejected, now, c);
    assert |InWindow(s.rejected, now, c)| >= 1;
    hide Inv, Piped, InWindow, LaterThan;
    assert |InWindow(s.recorded, now, c) + {id}| <= |InWindow(s.recorded, now, c)| + 1;
  }

  lemma StepKeepsCounted(s: State, step: Step, c: Config)
    requires c.limit >= 1 && Inv(s, c) && CountedSince(s, c) && Enabled(s, step) && !step.Add?
    ensures CountedSince(Next(s, step, c), c)
  {
    var s' := Next(s, step, c);
    forall x | x in s'.rejected && s'.rejected[x] > s'.clock - c.window as real
      ensures |LaterThan(s'.recorded, s'.rejected[x])| < c.limit
    {
      match step
      case TryHit(id, now) =>
        if Admits(s, id, now, c) {
          AdmissionCountsPending(s, id, now, c, x);
        } else if x == id {
          NoneLater(s.recorded, now);
        }
      case _ =>
    }
  }

  predicate OnlyTryHits(steps: seq<Step>) {
    forall k :: 0 <= k < |steps| ==> !steps[k].Add?
  }

  lemma {:induction false} RunKeepsCounted(s: State, steps: seq<Step>, c: Config)
    requires c.limit >= 1 && Inv(s, c) && CountedSince(s, c) && Legal(s, steps, c) && OnlyTryHits(steps)
    ensures Inv(Final(s, steps, c), c) && CountedSince(Final(s, steps, c), c)
    decreases |steps|
  {
    if steps != [] {
      StepKeepsInv(s, steps[0], c);
      StepKeepsCounted(s, steps[0], c);
      assert forall k :: 0 <= k < |steps[1..]| ==> steps[1..][k] == steps[k + 1];
      hide Inv, CountedSince, Enabled, Next;
      RunKeepsCounted(Next(s, steps[0], c), steps[1..], c);
    }
  }

  /** In every run in which only try_hit records, and whatever is cleared, expires or looked
      at: a rejection that the recorded hits alone call for advertises exactly their wait. */
  lemma WaitIsExact(steps: seq<Step>, id: Id, now: real, c: Config, oldest: real, first: real)
    requires c.limit >= 1 && Legal(Empty, steps, c) && OnlyTryHits(steps)
    requires var s := Final(Empty, steps, c);
      && Enabled(s, TryHit(id, now)) && |InWindow(s.recorded, now, c)| >= c.limit
      && OldestOf(Piped(s, id, now, c), Piped(s, id, now, c).Keys, oldest)
      && OldestOf(s.recorded, InWindow(s.recorded, now, c), first)
    ensures !Admits(Final(Empty, steps, c), id, now, c) && oldest == first
  {
    EmptyIsFine(c);
    RunKeepsCounted(Empty, steps, c);
    var s := Final(Empty, steps, c);
    hide Final, Legal;
    AdvertisedWait(s, id, now, c, oldest, first);
    forall x | x in InWindow(s.rejected, now, c)
      ensures s.rejected[x] >= first
    {
      if s.rejected[x] < first {
        assert InWindow(s.recorded, now, c) <= LaterThan(s.recorded, s.rejected[x]);
        SubsetSize(InWindow(s.recorded, now, c), LaterThan(s.recorded, s.rejected[x]));
      }
    }
  }

  // ----- two runs --------------------------------------------------------------------------------

  const OneAMinute := Config(60, 1)
  const OneHit := State(map[0 := 1.0], map[0 := 1.0], map[0 := 1.0], map[], {0}, 1.0, 121.0)

  /** OneHit, after a second one was rejected at t and not yet removed. */
  function TooSoon(t: real): State {
    State(map[0 := 1.0, 1 := t], map[0 := 1.0], map[0 := 1.0], map[1 := t], {0, 1}, t, t + 120.0)
  }

  lemma OneHitIsNext()
    ensures Next(Empty, TryHit(0, 1.0), OneAMinute) == OneHit
  {
    assert Piped(Empty, 0, 1.0, OneAMinute) == map[0 := 1.0];
  }

  lemma TooSoonIsNext(t: real)
    requires 1.0 <= t < 61.0
    ensures Next(OneHit, TryHit(1, t), OneAMinute) == TooSoon(t)
  {
    var p := Piped(OneHit, 1, t, OneAMinute);
    assert p == map[0 := 1.0, 1 := t];
    assert p.Keys == {0, 1};
    assert |p| == |p.Keys|;
    hide Piped, Prune;
  }

  lemma Unfold(s: State, steps: seq<Step>, c: Config)
    ensures steps == [] ==> Legal(s, steps, c) && Final(s, steps, c) == s
    ensures steps != [] ==>
      var s' := Next(s, steps[0], c);
      && (Legal(s, steps, c) <==> Enabled(s, steps[0]) && Legal(s', steps[1..], c))
      && Final(s, steps, c) == Final(s', steps[1..], c)
  {
  }

  lemma TooSoonRun(t: real, more: seq<Step>)
    requires 1.0 <= t < 61.0
    ensures var steps := [TryHit(0, 1.0), TryHit(1, t)] + more;
      && (Legal(Empty, steps, OneAMinute) <==> Legal(TooSoon(t), more, OneAMinute))
      && Final(Empty, steps, OneAMinute) == Final(TooSoon(t), more, OneAMinute)
  {
    var first, second := TryHit(0, 1.0), TryHit(1, t);
    OneHitIsNext();
    TooSoonIsNext(t);
    assert Enabled(Empty, first) && Enabled(OneHit, second);
    assert ([first, second] + more)[1..] == [second] + more && ([second] + more)[1..] == more;
    hide Next, Enabled, Legal, Final;
    Unfold(Empty, [first, second] + more, OneAMinute);
    Unfold(OneHit, [second] + more, OneAMinute);
  }

  lemma TooSoonHits()
    ensures InWindow(TooSoon(60.9).recorded, 61.1, OneAMinute) == {}
    ensures InWindow(TooSoon(60.9).rejected, 61.1, OneAMinute) == {1}
  {
  }

  /** One hit a minute: the second comes too soon; the third comes in time, but meets the
      second, whose removal is still under way. */
  lemma SpuriousRun()
    ensures var steps := [TryHit(0, 1.0), TryHit(1, 60.9)]; var s := Final(Empty, steps, OneAMinute);
      && Legal(Empty, steps, OneAMinute) && OnlyTryHits(steps) && Enabled(s, TryHit(2, 61.1))
      && !Admits(s, 2, 61.1, OneAMinute) && Admits(Drained(s), 2, 61.1, OneAMinute)
  {
    var steps, s := [TryHit(0, 1.0), TryHit(1, 60.9)], TooSoon(60.9);
    assert steps + [] == steps;
    TooSoonRun(60.9, []);
    Unfold(s, [], OneAMinute);
    EmptyIsFine(OneAMinute);
    hide Legal, Final, WithinLimit, Admits, Piped, Inv, Next, InWindow, Drained;
    NeverOverLimit(Empty, steps, OneAMinute);
    TooSoonHits();
    SpuriousIff(s, 2, 61.1, OneAMinute);
  }

  /** With `add` on the same key the wait can be too short: the hit added at 30 counts until
      90, but the pending one rejected at 2 is the oldest member. */
  lemma AddShortensTheWait()
    ensures var steps := [TryHit(0, 1.0), TryHit(1, 2.0), Add(2, 30.0)]; var s := Final(Empty, steps, OneAMinute);
      && Legal(Empty, steps, OneAMinute) && Enabled(s, TryHit(3, 61.5)) && !Admits(s, 3, 61.5, OneAMinute)
      && OldestOf(Piped(s, 3, 61.5, OneAMinute), Piped(s, 3, 61.5, OneAMinute).Keys, 2.0)
      && OldestOf(s.recorded, InWindow(s.recorded, 61.5, OneAMinute), 30.0)
      && Window.RetryAfter(2.0, 1.5) == 1 && Window.RetryAfter(30.0, 1.5) == 29
  {
    var added := [Add(2, 30.0)];
    assert [TryHit(0, 1.0), TryHit(1, 2.0), Add(2, 30.0)] == [TryHit(0, 1.0), TryHit(1, 2.0)] + added;
    TooSoonRun(2.0, added);
    var s := Next(TooSoon(2.0), Add(2, 30.0), OneAMinute);
    assert added[1..] == [];
    Unfold(TooSoon(2.0), added, OneAMinute);
    Unfold(s, [], OneAMinute);
    hide Legal, Final;
    AddedOldest(s);
  }

  lemma AddedOldest(s: State)
    requires s == Next(TooSoon(2.0), Add(2, 30.0), OneAMinute)
    ensures !Admits(s, 3, 61.5, OneAMinute)
    ensures OldestOf(Piped(s, 3, 61.5, OneAMinute), Piped(s, 3, 61.5, OneAMinute).Keys, 2.0)
    ensures OldestOf(s.recorded, InWindow(s.recorded, 61.5, OneAMinute), 30.0)
  {
    var p := Piped(s, 3, 61.5, OneAMinute);
    assert p == map[1 := 2.0, 2 := 30.0, 3 := 61.5];
    assert p.Keys == {1, 2, 3} && |p| == |p.Keys|;
    assert 1 in p.Keys && p[1] == 2.0;
    assert s.recorded == map[0 := 1.0, 2 := 30.0];
    assert 2 in InWindow(s.recorded, 61.5, OneAMinute);
  }
}
