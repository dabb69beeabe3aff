/** Provider accounts and routing policies (backend/app/llm/accounts.py, routing.py): who
    owns what, which accounts a route may name, and what a caller's route resolves to. */
module Routing {
  import opened Prelude

  type User = nat
  type AccountId = nat

  datatype Purpose = Default | Coding | Reasoning | Vision | Cheap | Private | Offline | Unknown(name: string)

  /** Who calls; user is None for API-key callers. */
  datatype Actor = Actor(admin: bool, user: Option<User>)

  datatype Scope = Personal | Deployment

  /** owner None is a deployment account. `local` tells where its endpoint is. */
  datatype Account = Account(owner: Option<User>, provider: string, name: string, active: bool, local: bool)

  /** One entry of the catalogue: a local or compatible runtime, or one bound to a node. */
  datatype Spec = Spec(runtime: bool, nodeBound: bool)

  type Catalog = map<string, Spec>

  datatype Entry = Entry(account: AccountId, model: string)
  datatype Key = Key(owner: Option<User>, purpose: Purpose)
  datatype Target = Target(id: AccountId, account: Account, model: string)

  type Accounts = map<AccountId, Account>
  type Policies = map<Key, seq<Entry>>

  const MAX_CHAIN := 5
  const MAX_ACCOUNTS_PER_OWNER := 50

  // ----- rules -----------------------------------------------------------------------------------

  predicate Owns(a: Account, actor: Actor) {
    actor.user.Some? && a.owner == actor.user
  }

  predicate CanUse(a: Account, actor: Actor) {
    a.active && (a.owner.None? || Owns(a, actor))
  }

  predicate CanManage(a: Account, actor: Actor) {
    (a.owner.None? && actor.admin) || Owns(a, actor)
  }

  predicate CanRemove(a: Account, actor: Actor) {
    CanManage(a, actor) || actor.admin
  }

  predicate LocalOnly(p: Purpose) {
    p == Private || p == Offline
  }

  predicate LocalTarget(catalog: Catalog, a: Account) {
    a.local && a.provider in catalog && catalog[a.provider].runtime
  }

  // ----- what every operation keeps ----------------------------------------------------------------

  /** A chain under this key may name the account: anyone may use deployment accounts, and
      only their owner's own routes may use personal ones. */
  predicate MayName(owner: Option<User>, a: Account) {
    a.owner.None? || (owner.Some? && a.owner == owner)
  }

  ghost predicate ChainOk(accounts: Accounts, key: Key, chain: seq<Entry>) {
    && 1 <= |chain| <= MAX_CHAIN && !key.purpose.Unknown?
    && forall k :: 0 <= k < |chain| ==> chain[k].account in accounts && MayName(key.owner, accounts[chain[k].account])
  }

  ghost predicate PoliciesOk(accounts: Accounts, policies: Policies) {
    forall key :: key in policies ==> ChainOk(accounts, key, policies[key])
  }

  predicate SameName(a: Account, b: Account) {
    a.owner == b.owner && a.provider == b.provider && a.name == b.name
  }

  predicate NameTaken(accounts: Accounts, a: Account) {
    exists id :: id in accounts && SameName(accounts[id], a)
  }

  ghost predicate NamesApart(accounts: Accounts) {
    forall i, j :: i in accounts && j in accounts && SameName(accounts[i], accounts[j]) ==> i == j
  }

  function OwnedBy(accounts: Accounts, owner: Option<User>): set<AccountId> {
    set id | id in accounts && accounts[id].owner == owner
  }

  predicate OwnerWithinLimit(accounts: Accounts, owner: Option<User>) {
    |OwnedBy(accounts, owner)| <= MAX_ACCOUNTS_PER_OWNER
  }

  ghost predicate WithinLimit(accounts: Accounts) {
    forall owner :: OwnerWithinLimit(accounts, owner)
  }

  // ----- resolution -----------------------------------------------------------------------------------

  predicate Usable(accounts: Accounts, catalog: Catalog, actor: Actor, localOnly: bool, e: Entry) {
    e.account in accounts && CanUse(accounts[e.account], actor)
    && (localOnly ==> LocalTarget(catalog, accounts[e.account]))
  }

  /** The usable entries of a chain, in order. */
  function TargetsOf(accounts: Accounts, catalog: Catalog, actor: Actor, localOnly: bool,
          chain: seq<Entry>): seq<Target> {
    if chain == [] then []
    else
      (if Usable(accounts, catalog, actor, localOnly, chain[0])
       then [Target(chain[0].account, accounts[chain[0].account], chain[0].model)] else [])
      + TargetsOf(accounts, catalog, actor, localOnly, chain[1..])
  }

  /** The usable part of the policy stored under a key; nothing if there is none. */
  function Route(accounts: Accounts, policies: Policies, catalog: Catalog, actor: Actor, localOnly: bool,
          key: Key): seq<Target> {
    if key in policies then
      var chain := policies[key];
      TargetsOf(accounts, catalog, actor, localOnly, if |chain| > MAX_CHAIN then chain[..MAX_CHAIN] else chain)
    else []
  }

  /** Where a purpose is looked up, in this order: the caller's own policy and the
      deployment's, for the purpose and then for the default one. */
  function Candidates(actor: Actor, purpose: Purpose): seq<Key> {
    var own := (p: Purpose) => if actor.user.Some? then [Key(actor.user, p)] else [];
    own(purpose) + [Key(None, purpose)]
    + if purpose == Default then [] else own(Default) + [Key(None, Default)]
  }

  function FirstRoute(accounts: Accounts, policies: Policies, catalog: Catalog, actor: Actor, localOnly: bool,
          keys: seq<Key>): seq<Target> {
    if keys == [] then []
    else
      var here := Route(accounts, policies, catalog, actor, localOnly, keys[0]);
      if here != [] then here else FirstRoute(accounts, policies, catalog, actor, localOnly, keys[1..])
  }

  /** The route; empty stands for the error that there is none. */
  function Resolved(accounts: Accounts, policies: Policies, catalog: Catalog, actor: Actor, purpose: Purpose,
          privacy: bool): seq<Target> {
    if purpose.Unknown? then []
    else FirstRoute(accounts, policies, catalog, actor, privacy || LocalOnly(purpose), Candidates(actor, purpose))
  }

  // ----- what resolution promises ----------------------------------------------------------------------

  predicate GoodTarget(accounts: Accounts, catalog: Catalog, actor: Actor, localOnly: bool, t: Target) {
    && t.id in accounts && t.account == accounts[t.id] && t.account.active
    && (t.account.owner.None? || (actor.user.Some? && t.account.owner == actor.user))
    && (localOnly ==> LocalTarget(catalog, t.account))
  }

  lemma {:induction false} TargetsAreGood(accounts: Accounts, catalog: Catalog, actor: Actor, localOnly: bool,
          chain: seq<Entry>)
    ensures var ts := TargetsOf(accounts, catalog, actor, localOnly, chain);
      |ts| <= |chain| && forall k :: 0 <= k < |ts| ==> GoodTarget(accounts, catalog, actor, localOnly, ts[k])
  {
    if chain != [] {
      TargetsAreGood(accounts, catalog, actor, localOnly, chain[1..]);
    }
  }

  lemma {:induction false} FirstRouteIsGood(
      accounts: Accounts, policies: Policies, catalog: Catalog, actor: Actor, localOnly: bool, keys: seq<Key>)
    ensures var ts := FirstRoute(accounts, policies, catalog, actor, localOnly, keys);
      |ts| <= MAX_CHAIN && forall k :: 0 <= k < |ts| ==> GoodTarget(accounts, catalog, actor, localOnly, ts[k])
  {
    if keys != [] {
      if keys[0] in policies {
        var chain := policies[keys[0]];
        TargetsAreGood(accounts, catalog, actor, localOnly, if |chain| > MAX_CHAIN then chain[..MAX_CHAIN] else chain);
      }
      hide GoodTarget, TargetsOf;
      FirstRouteIsGood(accounts, policies, catalog, actor, localOnly, keys[1..]);
    }
  }

  /** Whatever is stored, nobody's request is routed through another user's account or a
      disabled one, and private or offline work only to local runtimes. */
  lemma ResolvedIsGood(accounts: Accounts, policies: Policies, catalog: Catalog, actor: Actor, purpose: Purpose,
          privacy: bool)
    ensures var ts := Resolved(accounts, policies, catalog, actor, purpose, privacy);
      |ts| <= MAX_CHAIN
      && forall k :: 0 <= k < |ts| ==> GoodTarget(accounts, catalog, actor, privacy || LocalOnly(purpose), ts[k])
  {
    FirstRouteIsGood(accounts, policies, catalog, actor, privacy || LocalOnly(purpose), Candidates(actor, purpose));
  }

  /** The route is that of the first place with anything usable, and of no other. */
  lemma {:induction false} FirstRouteIsFirst(
      accounts: Accounts, policies: Policies, catalog: Catalog, actor: Actor, localOnly: bool, keys: seq<Key>, k: nat)
    requires k < |keys|
    requires forall j :: 0 <= j < k ==> Route(accounts, policies, catalog, actor, localOnly, keys[j]) == []
    requires Route(accounts, policies, catalog, actor, localOnly, keys[k]) != []
    ensures FirstRoute(accounts, policies, catalog, actor, localOnly, keys)
         == Route(accounts, policies, catalog, actor, localOnly, keys[k])
  {
    hide Route;
    if k > 0 {
      assert forall j :: 0 <= j < |keys[1..]| ==> keys[1..][j] == keys[j + 1];
      FirstRouteIsFirst(accounts, policies, catalog, actor, localOnly, keys[1..], k - 1);
    }
  }

  lemma {:induction false} NoRouteIffNone(
      accounts: Accounts, policies: Policies, catalog: Catalog, actor: Actor, localOnly: bool, keys: seq<Key>)
    ensures FirstRoute(accounts, policies, catalog, actor, localOnly, keys) == []
       <==> forall k :: 0 <= k < |keys| ==> Route(accounts, policies, catalog, actor, localOnly, keys[k]) == []
  {
    hide Route;
    if keys != [] {
      NoRouteIffNone(accounts, policies, catalog, actor, localOnly, keys[1..]);
      assert forall j :: 0 < j < |keys| ==> keys[j] == keys[1..][j - 1];
      assert forall j :: 0 <= j < |keys[1..]| ==> keys[1..][j] == keys[j + 1];
    }
  }

  // ----- the route, spelled out ---------------------------------------------------------------------------

  /** An account that exists, is active, is the deployment's or the caller's own and, when
      the work must stay local, has a local endpoint on a runtime. */
  predicate Serves(accounts: Accounts, catalog: Catalog, actor: Actor, local: bool, e: Entry) {
    e.account in accounts &&
    var a := accounts[e.account];
    && a.active
    && (a.owner == None || (actor.user != None && a.owner == actor.user))
    && (local ==> a.local && a.provider in catalog && catalog[a.provider].runtime)
  }

  /** The places of the first n entries that serve. */
  function Places(accounts: Accounts, catalog: Catalog, actor: Actor, local: bool, chain: seq<Entry>, n: nat)
    : set<nat>
  {
    set k: nat | 0 <= k < n && k < |chain| && Serves(accounts, catalog, actor, local, chain[k])
  }

  /** The targets are the entries at those places, each after as many as serve before it. */
  ghost predicate AreTargets(
      ts: seq<Target>, accounts: Accounts, catalog: Catalog, actor: Actor, local: bool, chain: seq<Entry>, n: nat)
  {
    && |ts| == |Places(accounts, catalog, actor, local, chain, n)|
    && forall k :: k in Places(accounts, catalog, actor, local, chain, n) ==>
         var at, e := |Places(accounts, catalog, actor, local, chain, k)|, chain[k];
         at < |ts| && ts[at] == TargetOf(accounts, e)
  }

  /** A stored chain with an entry that serves among its first five. */
  ghost predicate HasRoute(accounts: Accounts, policies: Policies, catalog: Catalog, actor: Actor, local: bool,
          key: Key)
  {
    key in policies
    && exists k :: 0 <= k < |policies[key]| && k < 5 && Serves(accounts, catalog, actor, local, policies[key][k])
  }

  ghost predicate IsRouteOf(ts: seq<Target>, accounts: Accounts, policies: Policies, catalog: Catalog, actor: Actor,
          local: bool, key: Key)
  {
    key in policies && AreTargets(ts, accounts, catalog, actor, local, policies[key], 5)
  }

  /** The route of the first of own purpose, deployment purpose, own default and deployment
      default that has one; none for an unknown purpose or when none of them has. */
  ghost predicate IsResolution(ts: seq<Target>, accounts: Accounts, policies: Policies, catalog: Catalog, actor: Actor,
          purpose: Purpose, privacy: bool)
  {
    var local := privacy || purpose == Private || purpose == Offline;
    if purpose.Unknown? then ts == []
    else if actor.user != None && HasRoute(accounts, policies, catalog, actor, local, Key(actor.user, purpose)) then
      IsRouteOf(ts, accounts, policies, catalog, actor, local, Key(actor.user, purpose))
    else if HasRoute(accounts, policies, catalog, actor, local, Key(None, purpose)) then
      IsRouteOf(ts, accounts, policies, catalog, actor, local, Key(None, purpose))
    else if actor.user != None && HasRoute(accounts, policies, catalog, actor, local, Key(actor.user, Default)) then
      IsRouteOf(ts, accounts, policies, catalog, actor, local, Key(actor.user, Default))
    else if HasRoute(accounts, policies, catalog, actor, local, Key(None, Default)) then
      IsRouteOf(ts, accounts, policies, catalog, actor, local, Key(None, Default))
    else ts == []
  }

  /** One of the four places has a route. */
  ghost predicate SomeRoute(accounts: Accounts, policies: Policies, catalog: Catalog, actor: Actor, purpose: Purpose,
          privacy: bool)
  {
    var local := privacy || purpose == Private || purpose == Offline;
    exists owner, name ::
      && (owner == None || owner == actor.user) && (name == purpose || name == Default)
      && HasRoute(accounts, policies, catalog, actor, local, Key(owner, name))
  }

  function TargetOf(accounts: Accounts, e: Entry): Target
    requires e.account in accounts
  {
    Target(e.account, accounts[e.account], e.model)
  }

  lemma {:induction false} TargetsSnoc(accounts: Accounts, catalog: Catalog, actor: Actor, local: bool,
          chain: seq<Entry>, e: Entry)
    ensures TargetsOf(accounts, catalog, actor, local, chain + [e])
         == TargetsOf(accounts, catalog, actor, local, chain)
            + if Serves(accounts, catalog, actor, local, e) then [TargetOf(accounts, e)] else []
  {
    if chain == [] {
      assert [e][1..] == [] && chain + [e] == [e];
    } else {
      assert (chain + [e])[1..] == chain[1..] + [e];
      TargetsSnoc(accounts, catalog, actor, local, chain[1..], e);
    }
  }

  lemma {:induction false} TargetsAre(accounts: Accounts, catalog: Catalog, actor: Actor, local: bool,
          chain: seq<Entry>, n: nat)
    requires n <= |chain|
    ensures AreTargets(TargetsOf(accounts, catalog, actor, local, chain[..n]),
                       accounts, catalog, actor, local, chain, n)
  {
    if n == 0 {
      assert Places(accounts, catalog, actor, local, chain, 0) == {};
    } else {
      TargetsAre(accounts, catalog, actor, local, chain, n - 1);
      assert chain[..n] == chain[..n - 1] + [chain[n - 1]];
      TargetsSnoc(accounts, catalog, actor, local, chain[..n - 1], chain[n - 1]);
      hide TargetsOf, AreTargets;
      TargetsGrow(TargetsOf(accounts, catalog, actor, local, chain[..n - 1]),
                  accounts, catalog, actor, local, chain, n - 1);
    }
  }

  lemma TargetsGrow(
      ts: seq<Target>, accounts: Accounts, catalog: Catalog, actor: Actor, local: bool, chain: seq<Entry>, n: nat)
    requires n < |chain| && AreTargets(ts, accounts, catalog, actor, local, chain, n)
    ensures AreTargets(ts + if Serves(accounts, catalog, actor, local, chain[n]) then [TargetOf(accounts, chain[n])]
                            else [], accounts, catalog, actor, local, chain, n + 1)
  {
    var before, after := Places(accounts, catalog, actor, local, chain, n),
      Places(accounts, catalog, actor, local, chain, n + 1);
    var serves := Serves(accounts, catalog, actor, local, chain[n]);
    OneMorePlace(accounts, catalog, actor, local, chain, n);
    assert serves ==> chain[n].account in accounts;
    assert |after| == |before| + if serves then 1 else 0;
    hide Places, Serves, TargetOf;
    var ts' := ts + if serves then [TargetOf(accounts, chain[n])] else [];
    forall k | k in after
      ensures k < |chain| && chain[k].account in accounts
      ensures var at := |Places(accounts, catalog, actor, local, chain, k)|;
        at < |ts'| && ts'[at] == TargetOf(accounts, chain[k])
    {
      assert k == n || k in before;
    }
  }

  lemma OneMorePlace(accounts: Accounts, catalog: Catalog, actor: Actor, local: bool, chain: seq<Entry>, n: nat)
    requires n < |chain|
    ensures Places(accounts, catalog, actor, local, chain, n + 1) == Places(accounts, catalog, actor, local, chain, n)
         + if Serves(accounts, catalog, actor, local, chain[n]) then {n} else {}
    ensures n !in Places(accounts, catalog, actor, local, chain, n)
  {
    hide Serves;
  }

  lemma RouteIs(accounts: Accounts, policies: Policies, catalog: Catalog, actor: Actor, local: bool, key: Key)
    ensures var ts := Route(accounts, policies, catalog, actor, local, key);
      && (ts != [] <==> HasRoute(accounts, policies, catalog, actor, local, key))
      && (key in policies ==> IsRouteOf(ts, accounts, policies, catalog, actor, local, key))
  {
    if key in policies {
      var chain := policies[key];
      var n := if |chain| > MAX_CHAIN then MAX_CHAIN else |chain|;
      assert n == |chain| ==> chain[..n] == chain;
      TargetsAre(accounts, catalog, actor, local, chain, n);
      var places := Places(accounts, catalog, actor, local, chain, n);
      assert places == Places(accounts, catalog, actor, local, chain, 5);
      hide Serves, TargetsOf;
      assert places == {} <==> !HasRoute(accounts, policies, catalog, actor, local, key) by {
        hide AreTargets;
        if k :| 0 <= k < |chain| && k < 5 && Serves(accounts, catalog, actor, local, chain[k]) {
          assert k in places;
        }
        if k :| k in places {
          assert 0 <= k < |chain| && k < 5 && Serves(accounts, catalog, actor, local, chain[k]);
        }
      }
      hide Places;
    }
  }

  lemma SomeRouteIff(accounts: Accounts, policies: Policies, catalog: Catalog, actor: Actor, purpose: Purpose,
          privacy: bool)
    ensures var local, keys := privacy || LocalOnly(purpose), Candidates(actor, purpose);
      SomeRoute(accounts, policies, catalog, actor, purpose, privacy)
      <==> exists k :: 0 <= k < |keys| && HasRoute(accounts, policies, catalog, actor, local, keys[k])
  {
    var local, keys := privacy || LocalOnly(purpose), Candidates(actor, purpose);
    CandidatesInOrder(actor, purpose);
    hide HasRoute, Candidates;
    forall owner, name | (owner == None || owner == actor.user) && (name == purpose || name == Default)
      ensures exists k :: 0 <= k < |keys| && keys[k] == Key(owner, name)
    {
      assert keys[|keys| - 1] == Key(None, Default);
      assert keys[if actor.user.Some? then 1 else 0] == Key(None, purpose);
      assert actor.user.Some? ==> keys[0] == Key(actor.user, purpose) && keys[|keys| - 2] == Key(actor.user, Default);
    }
    forall k | 0 <= k < |keys|
      ensures (keys[k].owner == None || keys[k].owner == actor.user)
      ensures keys[k].purpose == purpose || keys[k].purpose == Default
      ensures keys[k] == Key(keys[k].owner, keys[k].purpose)
    {
    }
  }

  /** Resolution finds exactly that route. */
  lemma ResolvedIs(accounts: Accounts, policies: Policies, catalog: Catalog, actor: Actor, purpose: Purpose,
          privacy: bool)
    ensures var ts := Resolved(accounts, policies, catalog, actor, purpose, privacy);
      && IsResolution(ts, accounts, policies, catalog, actor, purpose, privacy)
      && (ts == [] <==> purpose.Unknown? || !SomeRoute(accounts, policies, catalog, actor, purpose, privacy))
  {
    var local, keys := privacy || LocalOnly(purpose), Candidates(actor, purpose);
    var ts := FirstRoute(accounts, policies, catalog, actor, local, keys);
    SomeRouteIff(accounts, policies, catalog, actor, purpose, privacy);
    CandidatesInOrder(actor, purpose);
    hide HasRoute, IsRouteOf, SomeRoute, Candidates, FirstRoute;
    if purpose.Unknown? {
    } else if k: nat :| k < |keys| && HasRoute(accounts, policies, catalog, actor, local, keys[k]) {
      var j := FirstWithRoute(accounts, policies, catalog, actor, local, keys, k);
      FirstRouteIs(accounts, policies, catalog, actor, local, keys, j);
      assert j > 0 ==> !HasRoute(accounts, policies, catalog, actor, local, keys[0]);
      assert j > 1 ==> !HasRoute(accounts, policies, catalog, actor, local, keys[1]);
      assert j > 2 ==> !HasRoute(accounts, policies, catalog, actor, local, keys[2]);
    } else {
      NoFirstRoute(accounts, policies, catalog, actor, local, keys);
      assert !HasRoute(accounts, policies, catalog, actor, local, keys[0]);
      assert |keys| > 1 ==> !HasRoute(accounts, policies, catalog, actor, local, keys[1]);
      assert |keys| > 2 ==> !HasRoute(accounts, policies, catalog, actor, local, keys[2]);
      assert |keys| > 3 ==> !HasRoute(accounts, policies, catalog, actor, local, keys[3]);
    }
  }

  lemma FirstRouteIs(
      accounts: Accounts, policies: Policies, catalog: Catalog, actor: Actor, local: bool, keys: seq<Key>, j: nat)
    requires j < |keys| && HasRoute(accounts, policies, catalog, actor, local, keys[j])
    requires forall i :: 0 <= i < j ==> !HasRoute(accounts, policies, catalog, actor, local, keys[i])
    ensures FirstRoute(accounts, policies, catalog, actor, local, keys) != []
    ensures IsRouteOf(FirstRoute(accounts, policies, catalog, actor, local, keys),
                      accounts, policies, catalog, actor, local, keys[j])
  {
    assert keys[j] in policies;
    hide HasRoute, Route, IsRouteOf;
    forall i | 0 <= i < j
      ensures Route(accounts, policies, catalog, actor, local, keys[i]) == []
    {
      RouteIs(accounts, policies, catalog, actor, local, keys[i]);
    }
    RouteIs(accounts, policies, catalog, actor, local, keys[j]);
    FirstRouteIsFirst(accounts, policies, catalog, actor, local, keys, j);
  }

  lemma NoFirstRoute(
      accounts: Accounts, policies: Policies, catalog: Catalog, actor: Actor, local: bool, keys: seq<Key>)
    requires forall i :: 0 <= i < |keys| ==> !HasRoute(accounts, policies, catalog, actor, local, keys[i])
    ensures FirstRoute(accounts, policies, catalog, actor, local, keys) == []
  {
    hide HasRoute, Route, IsRouteOf, FirstRoute;
    forall i | 0 <= i < |keys|
      ensures Route(accounts, policies, catalog, actor, local, keys[i]) == []
    {
      RouteIs(accounts, policies, catalog, actor, local, keys[i]);
    }
    NoRouteIffNone(accounts, policies, catalog, actor, local, keys);
  }

  lemma {:induction false} FirstWithRoute(accounts: Accounts, policies: Policies, catalog: Catalog, actor: Actor,
          local: bool, keys: seq<Key>, k: nat)
    returns (j: nat)
    requires k < |keys| && HasRoute(accounts, policies, catalog, actor, local, keys[k])
    ensures j <= k && HasRoute(accounts, policies, catalog, actor, local, keys[j])
    ensures forall i :: 0 <= i < j ==> !HasRoute(accounts, policies, catalog, actor, local, keys[i])
  {
    hide HasRoute;
    j := k;
    if i: nat :| i < k && HasRoute(accounts, policies, catalog, actor, local, keys[i]) {
      j := FirstWithRoute(accounts, policies, catalog, actor, local, keys, i);
    }
  }

  lemma CandidatesInOrder(actor: Actor, purpose: Purpose)
    ensures var keys := Candidates(actor, purpose);
      if purpose == Default then
        keys == if actor.user.Some? then [Key(actor.user, Default), Key(None, Default)] else [Key(None, Default)]
      else if actor.user.Some? then
        keys == [Key(actor.user, purpose), Key(None, purpose), Key(actor.user, Default), Key(None, Default)]
      else keys == [Key(None, purpose), Key(None, Default)]
  {
  }

  // ----- setting a policy ----------------------------------------------------------------------------------

  predicate MayAct(actor: Actor, scope: Scope) {
    if scope == Deployment then actor.admin else actor.user.Some?
  }

  predicate EntryOk(accounts: Accounts, catalog: Catalog, actor: Actor, scope: Scope, purpose: Purpose, e: Entry) {
    e.account in accounts && CanUse(accounts[e.account], actor)
    && (scope == Deployment ==> accounts[e.account].owner.None?)
    && (LocalOnly(purpose) ==> LocalTarget(catalog, accounts[e.account]))
  }

  predicate Acceptable(accounts: Accounts, catalog: Catalog, actor: Actor, scope: Scope, purpose: Purpose,
          chain: seq<Entry>) {
    !purpose.Unknown? && 1 <= |chain| <= MAX_CHAIN && MayAct(actor, scope)
    && forall k :: 0 <= k < |chain| ==> EntryOk(accounts, catalog, actor, scope, purpose, chain[k])
  }

  function OwnerOf(actor: Actor, scope: Scope): Option<User> {
    if scope == Deployment then None else actor.user
  }

  /** Every entry of a chain as a target, usable or not. */
  function AllTargets(accounts: Accounts, chain: seq<Entry>): seq<Target>
    requires forall k :: 0 <= k < |chain| ==> chain[k].account in accounts
  {
    seq(|chain|, k requires 0 <= k < |chain| => Target(chain[k].account, accounts[chain[k].account], chain[k].model))
  }

  lemma {:induction false} AllUsable(accounts: Accounts, catalog: Catalog, actor: Actor, localOnly: bool,
          chain: seq<Entry>)
    requires forall k :: 0 <= k < |chain| ==>
      chain[k].account in accounts && Usable(accounts, catalog, actor, localOnly, chain[k])
    ensures TargetsOf(accounts, catalog, actor, localOnly, chain) == AllTargets(accounts, chain)
  {
    if chain != [] {
      AllUsable(accounts, catalog, actor, localOnly, chain[1..]);
      assert AllTargets(accounts, chain) == AllTargets(accounts, chain[..1]) + AllTargets(accounts, chain[1..]);
    }
  }

  /** The entries of a chain whose account has a local endpoint on a runtime. */
  function LocalPart(accounts: Accounts, catalog: Catalog, chain: seq<Entry>): seq<Entry>
    requires forall k :: 0 <= k < |chain| ==> chain[k].account in accounts
  {
    if chain == [] then []
    else
      var a := accounts[chain[0].account];
      (if a.local && a.provider in catalog && catalog[a.provider].runtime then [chain[0]] else [])
      + LocalPart(accounts, catalog, chain[1..])
  }

  lemma {:induction false} LocalPartIsIn(accounts: Accounts, catalog: Catalog, chain: seq<Entry>)
    requires forall k :: 0 <= k < |chain| ==> chain[k].account in accounts
    ensures forall k :: 0 <= k < |LocalPart(accounts, catalog, chain)| ==>
      LocalPart(accounts, catalog, chain)[k].account in accounts
  {
    if chain != [] {
      LocalPartIsIn(accounts, catalog, chain[1..]);
    }
  }

  lemma {:induction false} LocalUsable(accounts: Accounts, catalog: Catalog, actor: Actor, chain: seq<Entry>)
    requires forall k :: 0 <= k < |chain| ==>
      chain[k].account in accounts && CanUse(accounts[chain[k].account], actor)
    ensures TargetsOf(accounts, catalog, actor, true, chain)
         == (LocalPartIsIn(accounts, catalog, chain); AllTargets(accounts, LocalPart(accounts, catalog, chain)))
  {
    LocalPartIsIn(accounts, catalog, chain);
    if chain != [] {
      LocalPartIsIn(accounts, catalog, chain[1..]);
      LocalUsable(accounts, catalog, actor, chain[1..]);
      var rest := LocalPart(accounts, catalog, chain[1..]);
      assert AllTargets(accounts, [chain[0]] + rest) == [TargetOf(accounts, chain[0])] + AllTargets(accounts, rest);
      assert [] + rest == rest && [] + AllTargets(accounts, rest) == AllTargets(accounts, rest);
    }
  }

  /** What an accepted chain is to resolve to. */
  function Wanted(accounts: Accounts, catalog: Catalog, chain: seq<Entry>, privacy: bool): seq<Target>
    requires forall k :: 0 <= k < |chain| ==> chain[k].account in accounts
  {
    LocalPartIsIn(accounts, catalog, chain);
    AllTargets(accounts, if privacy then LocalPart(accounts, catalog, chain) else chain)
  }

  /** An accepted route resolves to exactly its entries in order, a personal one for its
      owner, a deployment one for every caller without a personal one; with privacy, to
      exactly the local ones among them, if there are any. */
  lemma SetThenResolve(
      accounts: Accounts, policies: Policies, catalog: Catalog, actor: Actor, scope: Scope, purpose: Purpose,
      chain: seq<Entry>, caller: Actor, privacy: bool)
    requires Acceptable(accounts, catalog, actor, scope, purpose, chain)
    requires if scope == Personal then caller == actor
             else caller.user.None? || Key(caller.user, purpose) !in policies
    ensures forall k :: 0 <= k < |chain| ==> chain[k].account in accounts
    ensures Wanted(accounts, catalog, chain, privacy) != [] ==>
      Resolved(accounts, policies[Key(OwnerOf(actor, scope), purpose) := chain], catalog, caller, purpose, privacy)
      == Wanted(accounts, catalog, chain, privacy)
  {
    forall k | 0 <= k < |chain|
      ensures chain[k].account in accounts && CanUse(accounts[chain[k].account], caller)
      ensures Usable(accounts, catalog, caller, LocalOnly(purpose), chain[k])
    {
      assert EntryOk(accounts, catalog, actor, scope, purpose, chain[k]);
    }
    WantedIsUsable(accounts, catalog, caller, purpose, chain, privacy);
    if Wanted(accounts, catalog, chain, privacy) != [] {
      var key := Key(OwnerOf(actor, scope), purpose);
      hide Wanted, Acceptable, CanUse, Usable, TargetsOf;
      var k := if key.owner == caller.user then 0 else 1;
      SetRouteIsFirst(accounts, policies, catalog, caller, key, chain, privacy, k);
    }
  }

  lemma WantedIsUsable(
      accounts: Accounts, catalog: Catalog, caller: Actor, purpose: Purpose, chain: seq<Entry>, privacy: bool)
    requires forall k :: 0 <= k < |chain| ==>
      && chain[k].account in accounts && CanUse(accounts[chain[k].account], caller)
      && Usable(accounts, catalog, caller, LocalOnly(purpose), chain[k])
    ensures TargetsOf(accounts, catalog, caller, privacy || LocalOnly(purpose), chain)
         == Wanted(accounts, catalog, chain, privacy)
  {
    if privacy {
      LocalUsable(accounts, catalog, caller, chain);
    } else {
      AllUsable(accounts, catalog, caller, LocalOnly(purpose), chain);
    }
  }

  /** A chain just stored for a purpose is looked at first, or second when the caller has no
      policy of its own there. */
  lemma SetRouteIsFirst(
      accounts: Accounts, policies: Policies, catalog: Catalog, caller: Actor, key: Key, chain: seq<Entry>,
      privacy: bool, k: nat)
    requires !key.purpose.Unknown? && |chain| <= MAX_CHAIN
    requires TargetsOf(accounts, catalog, caller, privacy || LocalOnly(key.purpose), chain) != []
    requires if k == 0 then key.owner == caller.user
             else k == 1 && key.owner == None && caller.user.Some? && Key(caller.user, key.purpose) !in policies
    ensures Resolved(accounts, policies[key := chain], catalog, caller, key.purpose, privacy)
         == TargetsOf(accounts, catalog, caller, privacy || LocalOnly(key.purpose), chain)
  {
    var after, keys := policies[key := chain], Candidates(caller, key.purpose);
    var local := privacy || LocalOnly(key.purpose);
    CandidatesInOrder(caller, key.purpose);
    assert keys[k] == key;
    hide TargetsOf, Candidates;
    assert k == 1 ==> Route(accounts, after, catalog, caller, local, keys[0]) == [];
    FirstRouteIsFirst(accounts, after, catalog, caller, local, keys, k);
  }

  lemma SetKeepsPolicies(
      accounts: Accounts, policies: Policies, catalog: Catalog, actor: Actor, scope: Scope, purpose: Purpose,
          chain: seq<Entry>)
    requires PoliciesOk(accounts, policies) && Acceptable(accounts, catalog, actor, scope, purpose, chain)
    ensures PoliciesOk(accounts, policies[Key(OwnerOf(actor, scope), purpose) := chain])
  {
    forall k | 0 <= k < |chain|
      ensures chain[k].account in accounts && MayName(OwnerOf(actor, scope), accounts[chain[k].account])
    {
      assert EntryOk(accounts, catalog, actor, scope, purpose, chain[k]);
    }
  }

  // ----- removing an account ------------------------------------------------------------------------------

  function Without(chain: seq<Entry>, id: AccountId): seq<Entry> {
    if chain == [] then []
    else (if chain[0].account == id then [] else [chain[0]]) + Without(chain[1..], id)
  }

  lemma {:induction false} WithoutKeeps(chain: seq<Entry>, id: AccountId, e: Entry)
    ensures e in Without(chain, id) <==> e in chain && e.account != id
    ensures |Without(chain, id)| <= |chain|
    decreases |chain|
  {
    if chain != [] {
      WithoutKeeps(chain[1..], id, e);
      assert chain == [chain[0]] + chain[1..];
    }
  }

  /** The chains without the account; those it was alone in are gone. */
  function Pruned(policies: Policies, id: AccountId): Policies {
    map key | key in policies && Without(policies[key], id) != [] :: Without(policies[key], id)
  }

  lemma PrunedOk(accounts: Accounts, policies: Policies, id: AccountId)
    requires PoliciesOk(accounts, policies)
    ensures PoliciesOk(accounts - {id}, Pruned(policies, id))
  {
    var accounts', policies' := accounts - {id}, Pruned(policies, id);
    forall key | key in policies'
      ensures ChainOk(accounts', key, policies'[key])
    {
      var chain, before := policies'[key], policies[key];
      assert ChainOk(accounts, key, before);
      WithoutKeeps(before, id, chain[0]);
      forall k | 0 <= k < |chain|
        ensures chain[k].account in accounts' && MayName(key.owner, accounts'[chain[k].account])
      {
        WithoutKeeps(before, id, chain[k]);
        var j :| 0 <= j < |before| && before[j] == chain[k];
      }
    }
  }

  lemma {:induction false} PrunedTargets(
      accounts: Accounts, catalog: Catalog, actor: Actor, localOnly: bool, chain: seq<Entry>, id: AccountId)
    ensures TargetsOf(accounts - {id}, catalog, actor, localOnly, Without(chain, id))
         == TargetsOf(accounts - {id}, catalog, actor, localOnly, chain)
    decreases |chain|
  {
    if chain != [] {
      PrunedTargets(accounts, catalog, actor, localOnly, chain[1..], id);
      if chain[0].account == id {
        assert Without(chain, id) == Without(chain[1..], id);
      } else {
        assert Without(chain, id) == [chain[0]] + Without(chain[1..], id);
      }
    }
  }

  lemma PrunedRoute(
      accounts: Accounts, policies: Policies, catalog: Catalog, actor: Actor, localOnly: bool, key: Key, id: AccountId)
    requires PoliciesOk(accounts, policies)
    ensures Route(accounts - {id}, Pruned(policies, id), catalog, actor, localOnly, key)
         == Route(accounts - {id}, policies, catalog, actor, localOnly, key)
  {
    if key in policies {
      var chain := policies[key];
      assert ChainOk(accounts, key, chain);
      PrunedTargets(accounts, catalog, actor, localOnly, chain, id);
      if Without(chain, id) != [] {
        WithoutKeeps(chain, id, chain[0]);
      }
    }
  }

  lemma {:induction false} PrunedFirstRoute(
      accounts: Accounts, policies: Policies, catalog: Catalog, actor: Actor, localOnly: bool, keys: seq<Key>,
          id: AccountId)
    requires PoliciesOk(accounts, policies)
    ensures FirstRoute(accounts - {id}, Pruned(policies, id), catalog, actor, localOnly, keys)
         == FirstRoute(accounts - {id}, policies, catalog, actor, localOnly, keys)
  {
    hide Route, Pruned, PoliciesOk;
    if keys != [] {
      PrunedRoute(accounts, policies, catalog, actor, localOnly, keys[0], id);
      PrunedFirstRoute(accounts, policies, catalog, actor, localOnly, keys[1..], id);
    }
  }

  /** Dropping a removed account from the stored routes changes no caller's route: they
      resolve as if the entries were still there and only the account was gone. */
  lemma PruningChangesNoRoute(
      accounts: Accounts, policies: Policies, catalog: Catalog, actor: Actor, purpose: Purpose, privacy: bool,
          id: AccountId)
    requires PoliciesOk(accounts, policies)
    ensures Resolved(accounts - {id}, Pruned(policies, id), catalog, actor, purpose, privacy)
         == Resolved(accounts - {id}, policies, catalog, actor, purpose, privacy)
  {
    hide PoliciesOk, Pruned, FirstRoute;
    PrunedFirstRoute(accounts, policies, catalog, actor, privacy || LocalOnly(purpose), Candidates(actor, purpose), id);
  }

  // ----- the stored rows --------------------------------------------------------------------------------------

  /** A plan run on a node serves only its owner, and never counts as local. */
  ghost predicate AccountsOk(accounts: Accounts, catalog: Catalog) {
    && NamesApart(accounts) && WithinLimit(accounts)
    && forall id :: id in accounts ==> AccountOk(catalog, accounts[id])
  }

  predicate AccountOk(catalog: Catalog, a: Account) {
    a.provider in catalog && (catalog[a.provider].nodeBound ==> a.owner.Some? && !a.local)
  }

  lemma OneMoreOwned(accounts: Accounts, id: AccountId, a: Account)
    requires id !in accounts && WithinLimit(accounts) && |OwnedBy(accounts, a.owner)| < MAX_ACCOUNTS_PER_OWNER
    ensures WithinLimit(accounts[id := a])
  {
    var accounts' := accounts[id := a];
    forall owner
      ensures OwnerWithinLimit(accounts', owner)
    {
      assert OwnerWithinLimit(accounts, owner);
      assert OwnedBy(accounts', owner) == OwnedBy(accounts, owner) + if owner == a.owner then {id} else {};
    }
  }

  lemma SameOwners(accounts: Accounts, accounts': Accounts)
    requires WithinLimit(accounts) && accounts'.Keys <= accounts.Keys
    requires forall id :: id in accounts' ==> accounts'[id].owner == accounts[id].owner
    ensures WithinLimit(accounts')
  {
    forall owner
      ensures OwnerWithinLimit(accounts', owner)
    {
      assert OwnerWithinLimit(accounts, owner);
      SubsetSize(OwnedBy(accounts', owner), OwnedBy(accounts, owner));
    }
  }

  /** Chains stay valid when accounts keep their ids and owners. */
  lemma PoliciesFollow(accounts: Accounts, accounts': Accounts, policies: Policies)
    requires PoliciesOk(accounts, policies) && accounts.Keys <= accounts'.Keys
    requires forall id :: id in accounts ==> accounts'[id].owner == accounts[id].owner
    ensures PoliciesOk(accounts', policies)
  {
    forall key | key in policies
      ensures ChainOk(accounts', key, policies[key])
    {
      assert ChainOk(accounts, key, policies[key]);
    }
  }

  lemma OnlyItself(accounts: Accounts, id: AccountId)
    requires NamesApart(accounts) && id in accounts
    ensures forall other :: other in accounts && other != id ==> !SameName(accounts[other], accounts[id])
  {
  }

  lemma TakenByNoOther(accounts: Accounts, id: AccountId, a: Account)
    requires !NameTaken(accounts - {id}, a)
    ensures forall other :: other in accounts && other != id ==> !SameName(accounts[other], a)
  {
    forall other | other in accounts && other != id
      ensures !SameName(accounts[other], a)
    {
      assert other in accounts - {id};
    }
  }

  lemma UpdateKeeps(accounts: Accounts, catalog: Catalog, policies: Policies, id: AccountId, a: Account)
    requires AccountsOk(accounts, catalog) && PoliciesOk(accounts, policies) && id in accounts
    requires a.owner == accounts[id].owner && AccountOk(catalog, a)
    requires forall other :: other in accounts && other != id ==> !SameName(accounts[other], a)
    ensures AccountsOk(accounts[id := a], catalog) && PoliciesOk(accounts[id := a], policies)
  {
    SameOwners(accounts, accounts[id := a]);
    PoliciesFollow(accounts, accounts[id := a], policies);
    hide WithinLimit, PoliciesOk;
  }

  lemma CreateKeeps(accounts: Accounts, catalog: Catalog, policies: Policies, id: AccountId, a: Account)
    requires AccountsOk(accounts, catalog) && PoliciesOk(accounts, policies) && id !in accounts
    requires AccountOk(catalog, a) && |OwnedBy(accounts, a.owner)| < MAX_ACCOUNTS_PER_OWNER
    requires forall other :: other in accounts ==> !SameName(accounts[other], a)
    ensures AccountsOk(accounts[id := a], catalog) && PoliciesOk(accounts[id := a], policies)
  {
    OneMoreOwned(accounts, id, a);
    PoliciesFollow(accounts, accounts[id := a], policies);
    hide WithinLimit, PoliciesOk;
  }

  class RoutingStore {
    const catalog: Catalog
    var accounts: Accounts
    var policies: Policies

    ghost predicate Valid()
      reads this
    {
      AccountsOk(accounts, catalog) && PoliciesOk(accounts, policies)
    }

    constructor (catalog: Catalog)
      ensures Valid() && accounts == map[] && policies == map[] && this.catalog == catalog
    {
      this.catalog := catalog;
      accounts, policies := map[], map[];
      new;
      assert forall owner :: OwnedBy(accounts, owner) == {};
    }

    /** _chain_targets */
    method ChainTargets(actor: Actor, chain: seq<Entry>, localOnly: bool) returns (targets: seq<Target>)
      ensures targets == TargetsOf(accounts, catalog, actor, localOnly,
          if |chain| > MAX_CHAIN then chain[..MAX_CHAIN] else chain)
    {
      var entries := if |chain| > MAX_CHAIN then chain[..MAX_CHAIN] else chain;
      targets := [];
      hide TargetsOf, LocalTarget, CanUse;
      for k := 0 to |entries|
        invariant targets + TargetsOf(accounts, catalog, actor, localOnly, entries[k..])
               == TargetsOf(accounts, catalog, actor, localOnly, entries)
      {
        var e := entries[k];
        NextTarget(accounts, catalog, actor, localOnly, entries, k);
        if e.account in accounts && CanUse(accounts[e.account], actor) {
          if !localOnly || LocalTarget(catalog, accounts[e.account]) {
            Assoc(targets, [Target(e.account, accounts[e.account], e.model)],
                  TargetsOf(accounts, catalog, actor, localOnly, entries[k + 1..]));
            targets := targets + [Target(e.account, accounts[e.account], e.model)];
          }
        }
      }
      assert TargetsOf(accounts, catalog, actor, localOnly, []) == [] by {
        NoTargets(accounts, catalog, actor, localOnly);
      }
    }

    /** resolve */
    method Resolve(actor: Actor, purpose: Purpose, privacy: bool) returns (targets: seq<Target>)
      ensures targets == Resolved(accounts, policies, catalog, actor, purpose, privacy)
      ensures IsResolution(targets, accounts, policies, catalog, actor, purpose, privacy)
      ensures targets == [] <==>
        purpose.Unknown? || !SomeRoute(accounts, policies, catalog, actor, purpose, privacy)
    {
      ResolvedIs(accounts, policies, catalog, actor, purpose, privacy);
      hide IsResolution, SomeRoute, FirstRoute, Candidates, CrossKeys;
      if purpose.Unknown? {
        return [];
      }
      var localOnly := privacy || LocalOnly(purpose);
      var names := if purpose == Default then [Default] else [purpose, Default];
      var owners := if actor.user.Some? then [actor.user, None] else [None];
      CandidatesAreCrossed(actor, purpose, owners, names);
      targets := FirstUsable(actor, localOnly, owners, names);
    }

    /** Its nested loops over purposes and owners. */
    method FirstUsable(actor: Actor, localOnly: bool, owners: seq<Option<User>>, names: seq<Purpose>)
      returns (targets: seq<Target>)
      ensures targets == FirstRoute(accounts, policies, catalog, actor, localOnly, CrossKeys(owners, names))
    {
      hide Route;
      for i := 0 to |names|
        invariant FirstRoute(accounts, policies, catalog, actor, localOnly, CrossKeys(owners, names))
               == FirstRoute(accounts, policies, catalog, actor, localOnly, CrossKeys(owners, names[i..]))
      {
        NextName(owners, names, i);
        for j := 0 to |owners|
          invariant FirstRoute(accounts, policies, catalog, actor, localOnly, CrossKeys(owners, names))
                 == FirstRoute(accounts, policies, catalog, actor, localOnly,
                               RowKeys(owners[j..], names[i]) + CrossKeys(owners, names[i + 1..]))
        {
          NextKey(owners, names, i, j);
          targets := RouteOf(actor, localOnly, Key(owners[j], names[i]));
          if targets != [] {
            return;
          }
        }
        RowIsDone(owners, names, i);
      }
      targets := [];
    }

    /** The usable part of one stored policy, if there is one. */
    method RouteOf(actor: Actor, localOnly: bool, key: Key) returns (targets: seq<Target>)
      ensures targets == Route(accounts, policies, catalog, actor, localOnly, key)
    {
      targets := [];
      if key in policies {
        targets := ChainTargets(actor, policies[key], localOnly);
      }
    }

    /** set_policy */
    method SetPolicy(actor: Actor, scope: Scope, purpose: Purpose, chain: seq<Entry>) returns (refused: Refusal)
      requires Valid()
      modifies this`policies
      ensures Valid()
      ensures refused == SetRefusal(accounts, catalog, actor, scope, purpose, chain)
      ensures refused.None? <==> MayStore(accounts, catalog, actor, scope, purpose, chain)
      ensures refused == Some(403) <==> !purpose.Unknown? && 1 <= |chain| <= 5 && !MayWrite(actor, scope)
      ensures policies == if refused.Some? then old(policies)
                          else old(policies)[Key(OwnerOf(actor, scope), purpose) := chain]
    {
      if purpose.Unknown? || !(1 <= |chain| <= MAX_CHAIN) {
        return Some(422);
      }
      if !MayAct(actor, scope) {
        return Some(403);
      }
      for k := 0 to |chain|
        invariant forall j :: 0 <= j < k ==> EntryOk(accounts, catalog, actor, scope, purpose, chain[j])
      {
        if !EntryOk(accounts, catalog, actor, scope, purpose, chain[k]) {
          return Some(422);
        }
      }
      SetKeepsPolicies(accounts, policies, catalog, actor, scope, purpose, chain);
      policies := policies[Key(OwnerOf(actor, scope), purpose) := chain];
      refused := None;
    }

    /** delete_policy */
    method DeletePolicy(actor: Actor, scope: Scope, purpose: Purpose) returns (refused: Refusal, deleted: bool)
      requires Valid()
      modifies this`policies
      ensures Valid()
      ensures refused == if MayWrite(actor, scope) then None else Some(403)
      ensures deleted <==> refused.None? && Key(OwnerOf(actor, scope), purpose) in old(policies)
      ensures policies == if refused.Some? then old(policies) else old(policies) - {Key(OwnerOf(actor, scope), purpose)}
    {
      if !MayAct(actor, scope) {
        return Some(403), false;
      }
      var key := Key(OwnerOf(actor, scope), purpose);
      deleted := key in policies;
      policies := policies - {key};
      refused := None;
    }

    /** The owner and status part of create_account, under a fresh id. */
    method CreateAccount(actor: Actor, scope: Scope, provider: string, name: string, local: bool, id: AccountId)
      returns (refused: Refusal)
      requires Valid() && id !in accounts
      modifies this`accounts
      ensures Valid()
      ensures refused == CreateRefusal(old(accounts), catalog, actor, scope, provider, name)
      ensures refused.None? <==> MayCreate(old(accounts), catalog, actor, scope, provider, name)
      ensures accounts == if refused.Some? then old(accounts)
                          else old(accounts)[id := Created(catalog, actor, scope, provider, name, local)]
    {
      if provider !in catalog {
        return Some(422);
      }
      if !MayAct(actor, scope) {
        return Some(403);
      }
      if catalog[provider].nodeBound && scope != Personal {
        return Some(422);
      }
      var owner := OwnerOf(actor, scope);
      if |OwnedBy(accounts, owner)| >= MAX_ACCOUNTS_PER_OWNER {
        return Some(409);
      }
      var account := Created(catalog, actor, scope, provider, name, local);
      if NameTaken(accounts, account) {
        return Some(409);
      }
      CreateKeeps(accounts, catalog, policies, id, account);
      accounts := accounts[id := account];
      refused := None;
    }

    /** The name, status and locality part of update_account: the owner never changes. */
    method UpdateAccount(actor: Actor, id: AccountId, name: Option<string>, active: Option<bool>, local: Option<bool>)
      returns (refused: Refusal)
      requires Valid() && id in accounts
      modifies this`accounts
      ensures Valid()
      ensures refused == UpdateRefusal(old(accounts), catalog, actor, id, name, local)
      ensures refused.None? <==> MayUpdate(old(accounts), catalog, actor, id, name, local)
      ensures accounts == if refused.Some? then old(accounts)
                          else old(accounts)[id := Updated(old(accounts)[id], name, active, local)]
    {
      OnlyItself(accounts, id);
      hide PoliciesOk, NamesApart, WithinLimit;
      var account := accounts[id];
      if !CanManage(account, actor) {
        return Some(403);
      }
      if catalog[account.provider].nodeBound && local.Some? {
        return Some(422);
      }
      if name.Some? && NameTaken(accounts - {id}, account.(name := name.value)) {
        return Some(409);
      }
      var updated := Updated(account, name, active, local);
      if name.Some? {
        TakenByNoOther(accounts, id, account.(name := name.value));
      }
      UpdateKeeps(accounts, catalog, policies, id, updated);
      accounts := accounts[id := updated];
      refused := None;
    }

    /** delete_account */
    method DeleteAccount(actor: Actor, id: AccountId) returns (refused: Refusal)
      requires Valid() && id in accounts
      modifies this`accounts, this`policies
      ensures Valid()
      ensures var owner := old(accounts)[id].owner;
        refused == if actor.admin || (owner != None && owner == actor.user) then None else Some(403)
      ensures accounts == if refused.Some? then old(accounts) else old(accounts) - {id}
      ensures policies == if refused.Some? then old(policies) else Pruned(old(policies), id)
    {
      if !CanRemove(accounts[id], actor) {
        return Some(403);
      }
      PrunedOk(accounts, policies, id);
      SameOwners(accounts, accounts - {id});
      PruneChains(id);
      accounts := accounts - {id};
      refused := None;
    }

    /** The account is dropped from every chain that names it; a chain left empty goes. */
    method PruneChains(id: AccountId)
      modifies this`policies
      ensures policies == Pruned(old(policies), id)
    {
      var todo := policies.Keys;
      ghost var before := policies;
      while todo != {}
        invariant todo <= before.Keys
        invariant policies == PartlyPruned(before, id, todo)
      {
        var key :| key in todo;
        todo := todo - {key};
        var chain := Filtered(policies[key], id);
        policies := if chain == [] then policies - {key} else policies[key := chain];
      }
    }

    method Filtered(chain: seq<Entry>, id: AccountId) returns (kept: seq<Entry>)
      ensures kept == Without(chain, id)
    {
      kept := [];
      for k := 0 to |chain|
        invariant kept + Without(chain[k..], id) == Without(chain, id)
      {
        assert chain[k..][1..] == chain[k + 1..];
        if chain[k].account != id {
          kept := kept + [chain[k]];
        }
      }
    }
  }

  /** The policies pruned so far: all but those still to do. */
  ghost function PartlyPruned(policies: Policies, id: AccountId, todo: set<Key>): Policies {
    map key | key in policies && (key in todo || Without(policies[key], id) != []) ::
      if key in todo then policies[key] else Without(policies[key], id)
  }

  /** Why a request is refused, by its HTTP status. */
  type Refusal = Option<nat>

  function SetRefusal(accounts: Accounts, catalog: Catalog, actor: Actor, scope: Scope, purpose: Purpose,
          chain: seq<Entry>): Refusal {
    if purpose.Unknown? || !(1 <= |chain| <= MAX_CHAIN) then Some(422)
    else if !MayAct(actor, scope) then Some(403)
    else if !Acceptable(accounts, catalog, actor, scope, purpose, chain) then Some(422)
    else None
  }

  // What is not refused, spelled out.

  predicate MayWrite(actor: Actor, scope: Scope) {
    (scope == Deployment && actor.admin) || (scope == Personal && actor.user != None)
  }

  /** One to five active accounts of the deployment or, in a personal chain, of the caller;
      on local runtimes for private and offline work. */
  ghost predicate MayStore(accounts: Accounts, catalog: Catalog, actor: Actor, scope: Scope, purpose: Purpose,
          chain: seq<Entry>)
  {
    && !purpose.Unknown? && 1 <= |chain| <= 5 && MayWrite(actor, scope)
    && forall k :: 0 <= k < |chain| ==>
         chain[k].account in accounts &&
         var a := accounts[chain[k].account];
         && a.active && (a.owner == None || (scope == Personal && a.owner == actor.user))
         && (purpose == Private || purpose == Offline ==>
               a.local && a.provider in catalog && catalog[a.provider].runtime)
  }

  /** A known provider, a personal account if it is bound to a node, fewer than fifty of the
      owner's so far, and none of them of the same provider and name. */
  ghost predicate MayCreate(accounts: Accounts, catalog: Catalog, actor: Actor, scope: Scope, provider: string,
          name: string)
  {
    var owner := if scope == Deployment then None else actor.user;
    && provider in catalog && MayWrite(actor, scope) && (catalog[provider].nodeBound ==> scope == Personal)
    && |OwnedBy(accounts, owner)| < 50
    && forall id :: id in accounts ==>
         !(accounts[id].owner == owner && accounts[id].provider == provider && accounts[id].name == name)
  }

  /** By its owner, or an administrator for the deployment's; not the locality of one bound to
      a node, nor a name that another of the owner's at the provider has. */
  ghost predicate MayUpdate(accounts: Accounts, catalog: Catalog, actor: Actor, id: AccountId, name: Option<string>,
          local: Option<bool>)
    requires id in accounts
  {
    var a := accounts[id];
    && ((a.owner == None && actor.admin) || (a.owner != None && a.owner == actor.user))
    && (a.provider in catalog && catalog[a.provider].nodeBound ==> local == None)
    && (name.Some? ==> forall other :: other in accounts && other != id ==>
          !(accounts[other].owner == a.owner && accounts[other].provider == a.provider
            && accounts[other].name == name.value))
  }

  function Created(catalog: Catalog, actor: Actor, scope: Scope, provider: string, name: string, local: bool): Account
    requires provider in catalog
  {
    Account(OwnerOf(actor, scope), provider, name, true, local && !catalog[provider].nodeBound)
  }

  function CreateRefusal(accounts: Accounts, catalog: Catalog, actor: Actor, scope: Scope, provider: string,
          name: string): Refusal {
    if provider !in catalog then Some(422)
    else if !MayAct(actor, scope) then Some(403)
    else if catalog[provider].nodeBound && scope != Personal then Some(422)
    else if |OwnedBy(accounts, OwnerOf(actor, scope))| >= MAX_ACCOUNTS_PER_OWNER then Some(409)
    else if NameTaken(accounts, Created(catalog, actor, scope, provider, name, false)) then Some(409)
    else None
  }

  function Updated(a: Account, name: Option<string>, active: Option<bool>, local: Option<bool>): Account {
    Account(a.owner, a.provider, if name.Some? then name.value else a.name,
            if active.Some? then active.value else a.active, if local.Some? then local.value else a.local)
  }

  function UpdateRefusal(accounts: Accounts, catalog: Catalog, actor: Actor, id: AccountId, name: Option<string>,
          local: Option<bool>): Refusal
    requires id in accounts && accounts[id].provider in catalog
  {
    if !CanManage(accounts[id], actor) then Some(403)
    else if catalog[accounts[id].provider].nodeBound && local.Some? then Some(422)
    else if name.Some? && NameTaken(accounts - {id}, accounts[id].(name := name.value)) then Some(409)
    else None
  }

  lemma NextTarget(accounts: Accounts, catalog: Catalog, actor: Actor, localOnly: bool, entries: seq<Entry>, k: nat)
    requires k < |entries|
    ensures var rest := TargetsOf(accounts, catalog, actor, localOnly, entries[k + 1..]);
      TargetsOf(accounts, catalog, actor, localOnly, entries[k..])
      == if Usable(accounts, catalog, actor, localOnly, entries[k])
         then [Target(entries[k].account, accounts[entries[k].account], entries[k].model)] + rest else rest
  {
    hide Usable;
    assert entries[k..][1..] == entries[k + 1..];
    var rest := TargetsOf(accounts, catalog, actor, localOnly, entries[k + 1..]);
    assert [] + rest == rest;
  }

  lemma NoTargets(accounts: Accounts, catalog: Catalog, actor: Actor, localOnly: bool)
    ensures TargetsOf(accounts, catalog, actor, localOnly, []) == []
  {
  }

  // The places looked at, as the two nested loops enumerate them.

  function RowKeys(owners: seq<Option<User>>, name: Purpose): seq<Key> {
    if owners == [] then [] else [Key(owners[0], name)] + RowKeys(owners[1..], name)
  }

  function CrossKeys(owners: seq<Option<User>>, names: seq<Purpose>): seq<Key> {
    if names == [] then [] else RowKeys(owners, names[0]) + CrossKeys(owners, names[1..])
  }

  lemma CandidatesAreCrossed(actor: Actor, purpose: Purpose, owners: seq<Option<User>>, names: seq<Purpose>)
    requires names == if purpose == Default then [Default] else [purpose, Default]
    requires owners == if actor.user.Some? then [actor.user, None] else [None]
    ensures CrossKeys(owners, names) == Candidates(actor, purpose)
  {
    forall p: Purpose
      ensures RowKeys(owners, p) == (if actor.user.Some? then [Key(actor.user, p)] else []) + [Key(None, p)]
    {
      assert owners[1..] == if actor.user.Some? then [None] else [];
      assert RowKeys([None], p) == [Key(None, p)] + RowKeys([], p);
    }
    assert names[1..] == if purpose == Default then [] else [Default];
    assert CrossKeys(owners, [Default]) == RowKeys(owners, Default) + CrossKeys(owners, []);
  }

  lemma NextName(owners: seq<Option<User>>, names: seq<Purpose>, i: nat)
    requires i < |names|
    ensures CrossKeys(owners, names[i..]) == RowKeys(owners[0..], names[i]) + CrossKeys(owners, names[i + 1..])
  {
    hide RowKeys;
    assert names[i..][1..] == names[i + 1..] && owners[0..] == owners;
  }

  lemma RowIsDone(owners: seq<Option<User>>, names: seq<Purpose>, i: nat)
    requires i < |names|
    ensures RowKeys(owners[|owners|..], names[i]) + CrossKeys(owners, names[i + 1..])
         == CrossKeys(owners, names[i + 1..])
  {
    assert owners[|owners|..] == [];
  }

  lemma NextKey(owners: seq<Option<User>>, names: seq<Purpose>, i: nat, j: nat)
    requires i < |names| && j < |owners|
    ensures var rest := RowKeys(owners[j + 1..], names[i]) + CrossKeys(owners, names[i + 1..]);
      var keys := RowKeys(owners[j..], names[i]) + CrossKeys(owners, names[i + 1..]);
      keys != [] && keys[0] == Key(owners[j], names[i]) && keys[1..] == rest
  {
    hide CrossKeys;
    var rest := RowKeys(owners[j + 1..], names[i]);
    assert owners[j..][1..] == owners[j + 1..];
    assert RowKeys(owners[j..], names[i]) == [Key(owners[j], names[i])] + rest;
    var others := CrossKeys(owners, names[i + 1..]);
    hide RowKeys;
    ConsAppend(Key(owners[j], names[i]), rest, others);
  }

  lemma ConsAppend(first: Key, rest: seq<Key>, others: seq<Key>)
    ensures ([first] + rest + others)[1..] == rest + others
  {
  }
}
