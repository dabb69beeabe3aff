/** The leader gate (backend/app/core/leader.py): a Redis lock taken by SET NX EX and
    renewed by a GET and a later EXPIRE. */
module Leader {
  import opened Prelude

  type Worker = nat

  datatype Lock = Lock(holder: Worker, until: int)

  /** Inside try_lead, after SET NX failed or after GET found the worker's own id. */
  datatype Place = Asking | Renewing

  /** `leads` tells until when each worker takes itself for the leader: its last True plus
      the time to live. */
  datatype State = State(now: int, lock: Option<Lock>, places: map<Worker, Place>, leads: map<Worker, int>)

  datatype Step = SetNx(w: Worker) | Get(w: Worker) | Expire(w: Worker) | Advance(to: int)

  const Init := State(0, None, map[], map[])

  predicate Live(s: State) {
    s.lock.Some? && s.now < s.lock.value.until
  }

  predicate Enabled(s: State, step: Step) {
    match step
    case SetNx(w) => w !in s.places
    case Get(w) => w in s.places && s.places[w] == Asking
    case Expire(w) => w in s.places && s.places[w] == Renewing
    case Advance(t) => t >= s.now
  }

  function Led(s: State, w: Worker, ttl: int): State {
    s.(leads := s.leads[w := s.now + ttl], places := s.places - {w})
  }

  /** EXPIRE extends whatever lock is there; try_lead does not look at its answer. */
  function Apply(s: State, step: Step, ttl: int): State
    requires Enabled(s, step)
  {
    match step
    case SetNx(w) =>
      if Live(s) then s.(places := s.places[w := Asking]) else Led(s, w, ttl).(lock := Some(Lock(w, s.now + ttl)))
    case Get(w) =>
      if Live(s) && s.lock.value.holder == w then s.(places := s.places[w := Renewing])
      else s.(places := s.places - {w})
    case Expire(w) =>
      Led(s, w, ttl).(lock := if Live(s) then Some(s.lock.value.(until := s.now + ttl)) else s.lock)
    case Advance(t) => s.(now := t)
  }

  predicate Leads(s: State, w: Worker) {
    w in s.leads && s.now < s.leads[w]
  }

  ghost predicate OneLeader(s: State) {
    forall v, w :: Leads(s, v) && Leads(s, w) ==> v == w
  }

  // ----- runs from the start, prefix by prefix --------------------------------------------------

  /** The first n steps can be taken one after the other. */
  predicate CanRun(steps: seq<Step>, n: nat, ttl: int)
    requires n <= |steps|
    decreases n, 0
  {
    n == 0 || (CanRun(steps, n - 1, ttl) && Enabled(After(steps, n - 1, ttl), steps[n - 1]))
  }

  /** The state after the first n steps. */
  function After(steps: seq<Step>, n: nat, ttl: int): State
    requires n <= |steps| && CanRun(steps, n, ttl)
    decreases n, 1
  {
    if n == 0 then Init else Apply(After(steps, n - 1, ttl), steps[n - 1], ttl)
  }

  lemma {:induction false} PrefixRuns(steps: seq<Step>, k: nat, n: nat, ttl: int)
    requires k <= n <= |steps| && CanRun(steps, n, ttl)
    ensures CanRun(steps, k, ttl) && After(steps, k, ttl).now <= After(steps, n, ttl).now
    decreases n
  {
    if k < n {
      PrefixRuns(steps, k, n - 1, ttl);
    }
  }

  // ----- when there are two leaders ----------------------------------------------------------------

  /** An EXPIRE that arrives when the lock is not its worker's own any more. */
  predicate Late(s: State, step: Step) {
    step.Expire? && !(Live(s) && s.lock.value.holder == step.w)
  }

  /** try_lead answers True. */
  predicate Wins(s: State, step: Step) {
    step.Expire? || (step.SetNx? && !Live(s))
  }

  ghost predicate LateAt(steps: seq<Step>, i: nat, ttl: int)
    requires i < |steps| && CanRun(steps, i, ttl)
  {
    Late(After(steps, i, ttl), steps[i])
  }

  /** The i-th step renews late while another worker has the lock. */
  ghost predicate LateOverLock(steps: seq<Step>, i: nat, ttl: int)
    requires i < |steps| && CanRun(steps, i, ttl)
  {
    LateAt(steps, i, ttl) && Live(After(steps, i, ttl))
  }

  /** The i-th step renews late, and within the time to live the j-th makes another worker
      lead. */
  ghost predicate LateThenWon(steps: seq<Step>, i: nat, j: nat, ttl: int)
    requires i < j < |steps| && CanRun(steps, j, ttl) && CanRun(steps, i, ttl)
  {
    && LateAt(steps, i, ttl)
    && Wins(After(steps, j, ttl), steps[j]) && steps[j].w != steps[i].w
    && After(steps, j, ttl).now < After(steps, i, ttl).now + ttl
  }

  /** Among the first n steps a renewal came too late, and either another worker had the
      lock or another worker was told that it leads within the time to live. */
  ghost predicate Conflict(steps: seq<Step>, n: nat, ttl: int)
    requires n <= |steps| && CanRun(steps, n, ttl)
  {
    || (exists i: nat :: i < n && CanRun(steps, i, ttl) && LateOverLock(steps, i, ttl))
    || (exists i: nat, j: nat ::
          i < j < n && CanRun(steps, i, ttl) && CanRun(steps, j, ttl) && LateThenWon(steps, i, j, ttl))
  }

  /** At no point of the first n steps do two workers lead. */
  ghost predicate OneLeaderThroughout(steps: seq<Step>, n: nat, ttl: int)
    requires n <= |steps| && CanRun(steps, n, ttl)
  {
    forall k: nat :: k <= n && CanRun(steps, k, ttl) ==> OneLeader(After(steps, k, ttl))
  }

  // What a worker's claim to lead rests on.

  predicate HoldsLock(s: State, w: Worker) {
    Live(s) && s.lock.value.holder == w && w in s.leads && s.leads[w] <= s.lock.value.until
  }

  ghost predicate FromLateRenewal(steps: seq<Step>, n: nat, ttl: int, w: Worker)
    requires n <= |steps| && CanRun(steps, n, ttl)
  {
    exists i: nat :: i < n && CanRun(steps, i, ttl) && LateAt(steps, i, ttl) && steps[i].w == w
      && w in After(steps, n, ttl).leads && After(steps, n, ttl).leads[w] == After(steps, i, ttl).now + ttl
  }

  lemma {:induction false} LeadsInTime(steps: seq<Step>, n: nat, ttl: int, w: Worker)
    requires ttl > 0 && n <= |steps| && CanRun(steps, n, ttl)
    ensures w in After(steps, n, ttl).leads ==> After(steps, n, ttl).leads[w] <= After(steps, n, ttl).now + ttl
    decreases n
  {
    if n > 0 {
      LeadsInTime(steps, n - 1, ttl, w);
    }
  }

  /** Who leads holds the lock, or was last told so by a late renewal. */
  lemma {:induction false} WhyItLeads(steps: seq<Step>, n: nat, ttl: int, w: Worker)
    requires ttl > 0 && n <= |steps| && CanRun(steps, n, ttl) && Leads(After(steps, n, ttl), w)
    ensures HoldsLock(After(steps, n, ttl), w) || FromLateRenewal(steps, n, ttl, w)
    decreases n
  {
    if n > 0 {
      var s, step := After(steps, n - 1, ttl), steps[n - 1];
      LeadsInTime(steps, n - 1, ttl, w);
      if Wins(s, step) && step.w == w {
        if Late(s, step) {
          assert LateAt(steps, n - 1, ttl);
        }
      } else {
        WhyItLeads(steps, n - 1, ttl, w);
        if FromLateRenewal(steps, n - 1, ttl, w) {
          var i: nat :| i < n - 1 && CanRun(steps, i, ttl) && LateAt(steps, i, ttl) && steps[i].w == w
            && w in s.leads && s.leads[w] == After(steps, i, ttl).now + ttl;
          assert LateAt(steps, i, ttl);
        }
      }
    }
  }

  /** While no renewal came late over another's lock, the holder of the lock leads as long
      as the lock lives. */
  lemma {:induction false} HolderLeads(steps: seq<Step>, n: nat, ttl: int)
    requires ttl > 0 && n <= |steps| && CanRun(steps, n, ttl)
    requires forall i: nat :: i < n && CanRun(steps, i, ttl) ==> !LateOverLock(steps, i, ttl)
    ensures var s := After(steps, n, ttl);
      Live(s) ==> Leads(s, s.lock.value.holder)
    ensures var s := After(steps, n, ttl);
      s.lock.Some? ==> s.lock.value.holder in s.leads && s.lock.value.until <= s.leads[s.lock.value.holder]
    decreases n
  {
    if n > 0 {
      HolderLeads(steps, n - 1, ttl);
      assert !LateOverLock(steps, n - 1, ttl);
      assert steps[n - 1].Expire? ==> LateAt(steps, n - 1, ttl) == Late(After(steps, n - 1, ttl), steps[n - 1]);
    }
  }

  /** A claim, once made, is not withdrawn before its time. */
  lemma {:induction false} ClaimLasts(steps: seq<Step>, k: nat, n: nat, ttl: int, w: Worker)
    requires ttl > 0 && k <= n <= |steps| && CanRun(steps, n, ttl) && CanRun(steps, k, ttl)
    requires w in After(steps, k, ttl).leads
    ensures w in After(steps, n, ttl).leads && After(steps, n, ttl).leads[w] >= After(steps, k, ttl).leads[w]
    decreases n
  {
    if k < n {
      ClaimLasts(steps, k, n - 1, ttl, w);
      LeadsInTime(steps, n - 1, ttl, w);
    }
  }

  /** A conflict shows: two workers lead at some point. */
  lemma ConflictMakesTwo(steps: seq<Step>, n: nat, ttl: int)
    requires ttl > 0 && n <= |steps| && CanRun(steps, n, ttl) && Conflict(steps, n, ttl)
    ensures !OneLeaderThroughout(steps, n, ttl)
  {
    if i: nat :| i < n && CanRun(steps, i, ttl) && LateOverLock(steps, i, ttl) {
      FirstLateOverLock(steps, i, n, ttl);
    } else {
      var i: nat, j: nat :|
        i < j < n && CanRun(steps, i, ttl) && CanRun(steps, j, ttl) && LateThenWon(steps, i, j, ttl);
      LateThenWonMakesTwo(steps, i, j, n, ttl);
    }
  }

  lemma LateThenWonMakesTwo(steps: seq<Step>, i: nat, j: nat, n: nat, ttl: int)
    requires ttl > 0 && i < j < n <= |steps| && CanRun(steps, n, ttl) && CanRun(steps, i, ttl) && CanRun(steps, j, ttl)
    requires LateThenWon(steps, i, j, ttl)
    ensures !OneLeaderThroughout(steps, n, ttl)
  {
    PrefixRuns(steps, j + 1, n, ttl);
    hide After, CanRun, LateThenWon, OneLeader;
    TwoAfterTheWin(steps, i, j, ttl);
  }

  lemma TwoAfterTheWin(steps: seq<Step>, i: nat, j: nat, ttl: int)
    requires ttl > 0 && i < j < |steps| && CanRun(steps, i, ttl) && CanRun(steps, j, ttl) && CanRun(steps, j + 1, ttl)
    requires LateThenWon(steps, i, j, ttl)
    ensures !OneLeader(After(steps, j + 1, ttl))
  {
    var s, s', v, w := After(steps, j, ttl), After(steps, j + 1, ttl), steps[i].w, steps[j].w;
    assert v != w && Wins(s, steps[j]);
    hide After, CanRun, LateThenWon, Wins, Leads, OneLeader;
    LateStillLeads(steps, i, j, ttl);
    WinnerLeads(steps, j, ttl);
    BothLead(s, s', v, w, ttl);
  }

  lemma LateStillLeads(steps: seq<Step>, i: nat, j: nat, ttl: int)
    requires ttl > 0 && i < j < |steps| && CanRun(steps, i, ttl) && CanRun(steps, j, ttl)
    requires LateThenWon(steps, i, j, ttl)
    ensures Leads(After(steps, j, ttl), steps[i].w)
  {
    PrefixRuns(steps, i + 1, j, ttl);
    WinnerLeads(steps, i, ttl);
    var w := steps[i].w;
    hide CanRun, Apply, Enabled, After;
    ClaimLasts(steps, i + 1, j, ttl, w);
  }

  lemma BothLead(s: State, s': State, v: Worker, w: Worker, ttl: int)
    requires ttl > 0 && v != w && Leads(s, v) && s'.now == s.now && s'.leads == s.leads[w := s.now + ttl]
    ensures !OneLeader(s')
  {
    assert Leads(s', v) && Leads(s', w);
  }

  /** A worker told to lead does, for the time to live; nobody else's claim changes. */
  lemma WinnerLeads(steps: seq<Step>, i: nat, ttl: int)
    requires ttl > 0 && i < |steps| && CanRun(steps, i + 1, ttl) && CanRun(steps, i, ttl)
    requires Wins(After(steps, i, ttl), steps[i])
    ensures var s, s', w := After(steps, i, ttl), After(steps, i + 1, ttl), steps[i].w;
      s'.now == s.now && s'.leads == s.leads[w := s.now + ttl]
  {
  }

  /** The first late renewal over another's lock adds a leader to the holder. */
  lemma {:induction false} FirstLateOverLock(steps: seq<Step>, i: nat, n: nat, ttl: int)
    requires ttl > 0 && i < n <= |steps| && CanRun(steps, n, ttl) && CanRun(steps, i, ttl)
    requires LateOverLock(steps, i, ttl)
    ensures !OneLeaderThroughout(steps, n, ttl)
    decreases i
  {
    if k: nat :| k < i && CanRun(steps, k, ttl) && LateOverLock(steps, k, ttl) {
      FirstLateOverLock(steps, k, n, ttl);
    } else {
      HolderLeads(steps, i, ttl);
      PrefixRuns(steps, i + 1, n, ttl);
      var s, s' := After(steps, i, ttl), After(steps, i + 1, ttl);
      assert Leads(s', s.lock.value.holder) && Leads(s', steps[i].w);
      assert !OneLeader(s');
    }
  }

  /** Without a conflict, one leader stays one leader. */
  lemma {:induction false} NoConflictKeepsOne(steps: seq<Step>, n: nat, ttl: int)
    requires ttl > 0 && n <= |steps| && CanRun(steps, n, ttl) && !Conflict(steps, n, ttl)
    ensures OneLeader(After(steps, n, ttl))
    decreases n
  {
    if n > 0 {
      NoConflictEarlier(steps, n, ttl);
      NoConflictKeepsOne(steps, n - 1, ttl);
      var s, s', step := After(steps, n - 1, ttl), After(steps, n, ttl), steps[n - 1];
      forall v: Worker, w: Worker | Leads(s', v) && Leads(s', w)
        ensures v == w
      {
        if v != w && Wins(s, step) && (step.w == v || step.w == w) {
          SecondNeedsConflict(steps, n - 1, ttl, if step.w == v then w else v);
        }
        assert Leads(s, v) || (Wins(s, step) && step.w == v);
        assert Leads(s, w) || (Wins(s, step) && step.w == w);
      }
    }
  }

  lemma NoConflictEarlier(steps: seq<Step>, n: nat, ttl: int)
    requires 0 < n <= |steps| && CanRun(steps, n, ttl) && !Conflict(steps, n, ttl)
    ensures !Conflict(steps, n - 1, ttl)
  {
  }

  /** Being told to lead while another leads is a conflict. */
  lemma SecondNeedsConflict(steps: seq<Step>, n: nat, ttl: int, w: Worker)
    requires ttl > 0 && n < |steps| && CanRun(steps, n + 1, ttl) && CanRun(steps, n, ttl)
    requires var s := After(steps, n, ttl); Wins(s, steps[n]) && steps[n].w != w && Leads(s, w)
    ensures Conflict(steps, n + 1, ttl)
  {
    WhyItLeads(steps, n, ttl, w);
    var s := After(steps, n, ttl);
    if HoldsLock(s, w) {
      assert LateOverLock(steps, n, ttl);
    } else {
      var i: nat :| i < n && CanRun(steps, i, ttl) && LateAt(steps, i, ttl) && steps[i].w == w
        && w in s.leads && s.leads[w] == After(steps, i, ttl).now + ttl;
      assert LateThenWon(steps, i, n, ttl);
    }
  }

  /** The exact condition, for every run: two workers never lead at once if and only if
      every late renewal finds no other worker's lock, and no other worker is told that it
      leads within the time to live after it. */
  lemma OneLeaderIff(steps: seq<Step>, n: nat, ttl: int)
    requires ttl > 0 && n <= |steps| && CanRun(steps, n, ttl)
    ensures OneLeaderThroughout(steps, n, ttl) <==> !Conflict(steps, n, ttl)
  {
    if Conflict(steps, n, ttl) {
      ConflictMakesTwo(steps, n, ttl);
    } else {
      forall k: nat | k <= n && CanRun(steps, k, ttl)
        ensures OneLeader(After(steps, k, ttl))
      {
        NoConflictKeepsOne(steps, k, ttl);
      }
    }
  }

  /** In particular, while every renewal arrives in time there is one leader. */
  lemma InTimeMeansOneLeader(steps: seq<Step>, n: nat, ttl: int)
    requires ttl > 0 && n <= |steps| && CanRun(steps, n, ttl)
    requires forall i: nat :: i < n && CanRun(steps, i, ttl) ==> !LateAt(steps, i, ttl)
    ensures OneLeaderThroughout(steps, n, ttl)
  {
    OneLeaderIff(steps, n, ttl);
  }

  /** It does happen: the gate alone never excludes two leaders, neither after a late
      renewal of another's lock nor after one of a lapsed lock. */
  lemma TwoLeaders(ttl: int)
    requires ttl > 0
    ensures var steps := [SetNx(0), SetNx(0), Get(0), Advance(ttl), SetNx(1), Expire(0)];
      CanRun(steps, 6, ttl) && LateOverLock(steps, 5, ttl) && !OneLeaderThroughout(steps, 6, ttl)
    ensures var steps := [SetNx(0), SetNx(0), Get(0), Advance(ttl), Expire(0), SetNx(1)];
      CanRun(steps, 6, ttl) && LateThenWon(steps, 4, 5, ttl) && !OneLeaderThroughout(steps, 6, ttl)
  {
    var steps := [SetNx(0), SetNx(0), Get(0), Advance(ttl), SetNx(1), Expire(0)];
    LapsesWhileRenewing(steps, ttl);
    assert CanRun(steps, 5, ttl);
    assert CanRun(steps, 6, ttl);
    FirstLateOverLock(steps, 5, 6, ttl);
    var other := [SetNx(0), SetNx(0), Get(0), Advance(ttl), Expire(0), SetNx(1)];
    LapsesWhileRenewing(other, ttl);
    assert CanRun(other, 5, ttl);
    assert CanRun(other, 6, ttl);
    assert LateThenWon(other, 4, 5, ttl);
    ConflictMakesTwo(other, 6, ttl);
  }

  /** Worker 0 has read its own id when its lock lapses. */
  lemma LapsesWhileRenewing(steps: seq<Step>, ttl: int)
    requires ttl > 0 && |steps| >= 4 && steps[..4] == [SetNx(0), SetNx(0), Get(0), Advance(ttl)]
    ensures CanRun(steps, 4, ttl)
    ensures After(steps, 4, ttl) == State(ttl, Some(Lock(0, ttl)), map[0 := Renewing], map[0 := ttl])
  {
    var first := steps[..4];
    assert steps[0] == first[0] && steps[1] == first[1] && steps[2] == first[2] && steps[3] == first[3];
    var s1 := State(0, Some(Lock(0, ttl)), map[], map[0 := ttl]);
    assert CanRun(steps, 0, ttl);
    assert CanRun(steps, 1, ttl) && After(steps, 1, ttl) == s1;
    assert CanRun(steps, 2, ttl) && After(steps, 2, ttl) == s1.(places := map[0 := Asking]);
    assert CanRun(steps, 3, ttl) && After(steps, 3, ttl) == s1.(places := map[0 := Renewing]);
    assert CanRun(steps, 4, ttl);
  }
}
