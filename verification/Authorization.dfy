/**
 Authorization synthesis (auth/cedar_authorizer.rs, auth/permissions.rs): ownership and grants are
 compiled into permit policies for each request and evaluated together with a few guards. For session
 and OIDC identities the result is proved equal to a direct rule.
 */
module Authorization {
  import opened Common
  import opened Text
  import opened Principal
  import opened Grants
  import SM = StateMachine

  const REPOSITORY_ACTIONS: seq<Action> := [Pull, Create, Update, Delete]

  function ImpliedActions(allowed: Action): seq<Action> {
    (if ActionMatches(allowed, Pull) then [Pull] else []) +
    (if ActionMatches(allowed, Create) then [Create] else []) +
    (if ActionMatches(allowed, Update) then [Update] else []) +
    (if ActionMatches(allowed, Delete) then [Delete] else [])
  }

  lemma ImpliedMeaning(allowed: Action, a: Action)
    requires a != Admin
    ensures a in ImpliedActions(allowed) <==> ActionMatches(allowed, a)
  {
  }

  // ---- Requests and the store ----

  /** What the metadata answers about namespaces; grants come as a list. */
  datatype Store = Store(namespaces: map<string, Namespace>, grants: map<string, seq<Grant>>) {
    function Listed(handle: string): seq<Grant> { if handle in grants then grants[handle] else [] }

    predicate IsCurrent(e: SM.Epoch) { e.handle in namespaces && namespaces[e.handle].generation == e.generation }

    ghost predicate GrantsWellFormed() {
      forall h, g :: h in grants && g in grants[h] ==> g.WellFormed()
    }

    /** The answers are those of a replicated state, the grants of a namespace in whatever order. */
    ghost predicate Reads(namespaces: map<string, Namespace>, grants: GrantTable) {
      this.namespaces == namespaces && forall h, g :: g in Listed(h) <==> g in GrantsOf(grants, h).Values
    }
  }

  /** Every answer read from a valid state of the metadata has well-formed grants. */
  lemma ReadsWellFormed(store: Store, namespaces: map<string, Namespace>, released: map<string, nat>,
                        grants: GrantTable)
    requires SM.NamespacesOk(namespaces, released, grants) && store.Reads(namespaces, grants)
    ensures store.GrantsWellFormed()
  {
    forall h, g | h in store.grants && g in store.grants[h] ensures g.WellFormed() {
      assert g in store.Listed(h);
    }
  }

  /** A session or OIDC identity. */
  datatype Actor = Actor(principal: Id, username: Option<string>, groups: seq<Id>)
  datatype Resource = Resource(epoch: SM.Epoch, relativePath: string)
  datatype Request = Request(actor: Actor, repository: string, resource: Option<Resource>, action: Action)

  // ---- Personal namespaces ----

  predicate InPersonalNamespace(username: Option<string>, repository: string) {
    username.Some? && username.value != "" && "users/" + username.value + "/" <= repository
  }

  function PersonalNamespaceOf(repository: string): Option<string> {
    if "users/" <= repository then
      var user := Split(repository[6..], '/')[0];
      if user == "" then None else Some(user)
    else None
  }

  predicate CrossUser(r: Request) {
    PersonalNamespaceOf(r.repository).Some? && r.actor.username != PersonalNamespaceOf(r.repository)
  }

  predicate UnclaimedWrite(r: Request) {
    && r.action != Pull && r.resource.None? && r.repository != "*"
    && SM.HandleOf(r.repository).Some? && !SM.IsReserved(SM.HandleOf(r.repository).value)
  }

  // ---- Entity ids of ownership epochs ----

  function Decimal(n: nat): string {
    if n < 10 then [DIGITS[n]] else Decimal(n / 10) + [DIGITS[n % 10]]
  }

  const DIGITS: string := "0123456789"

  function EntityId(e: SM.Epoch): string { e.handle + ['#'] + Decimal(e.generation) }

  lemma {:induction false} DecimalHasNoHash(n: nat)
    ensures '#' !in Decimal(n)
  {
    if n >= 10 {
      DecimalHasNoHash(n / 10);
    }
  }

  lemma {:induction false} DecimalIsInjective(m: nat, n: nat)
    requires Decimal(m) == Decimal(n)
    ensures m == n
  {
    var a, b := Decimal(m), Decimal(n);
    assert a[|a| - 1] == DIGITS[m % 10] && b[|b| - 1] == DIGITS[n % 10];
    if m >= 10 && n >= 10 {
      assert a[..|a| - 1] == Decimal(m / 10) && b[..|b| - 1] == Decimal(n / 10);
      DecimalIsInjective(m / 10, n / 10);
    } else if m >= 10 {
      DecimalIsNotEmpty(m / 10);
    } else if n >= 10 {
      DecimalIsNotEmpty(n / 10);
    }
  }

  lemma DecimalIsNotEmpty(n: nat)
    ensures Decimal(n) != ""
  {
  }

  /** Successive owners of a handle never share an entity id, so no policy text carries over. */
  lemma EpochIdsAreDistinct(d: SM.Epoch, e: SM.Epoch)
    requires EntityId(d) == EntityId(e)
    ensures d == e
  {
    DecimalHasNoHash(d.generation);
    DecimalHasNoHash(e.generation);
    var s, i, j := EntityId(d), |d.handle|, |e.handle|;
    assert s[i] == '#' && s[j] == '#';
    assert s[i + 1..] == Decimal(d.generation) && s[j + 1..] == Decimal(e.generation);
    assert d.handle == s[..i] && e.handle == s[..j];
    DecimalIsInjective(d.generation, e.generation);
  }

  // ---- Policies ----

  /**
   Principals by id, namespaces by epoch; `EpochIdsAreDistinct` says the id text of an epoch is as good as the
   epoch.
   */
  datatype Entity = UserEntity(id: Id) | GroupEntity(id: Id) | NamespaceEntity(epoch: SM.Epoch)

  datatype PrincipalScope = PrincipalIs(e: Entity) | PrincipalIn(e: Entity)

  /** A synthesized permit, or a policy of a configured policy set with an arbitrary condition. */
  datatype Policy =
    | Permit(principal: PrincipalScope, action: Action, namespace: Entity)
    | Custom(permits: bool, applies: Request -> bool)

  function PrincipalEntity(id: Id): Entity {
    match id.kind case User => UserEntity(id) case Group => GroupEntity(id)
  }

  /** The principal's parents: its group ids of kind group. */
  function Groups(a: Actor): set<Entity> {
    set id | id in a.groups && id.kind == Group :: GroupEntity(id)
  }

  predicate PrincipalMatches(scope: PrincipalScope, a: Actor) {
    match scope
    case PrincipalIs(e) => PrincipalEntity(a.principal) == e
    case PrincipalIn(e) => PrincipalEntity(a.principal) == e || e in Groups(a)
  }

  /** `resource in namespace`: a resolved repository has the namespace of its epoch as parent. */
  predicate InNamespace(r: Request, namespace: Entity) {
    r.resource.Some? && NamespaceEntity(r.resource.value.epoch) == namespace
  }

  predicate Satisfied(p: Policy, r: Request) {
    match p
    case Permit(scope, action, namespace) =>
      PrincipalMatches(scope, r.actor) && r.action == action && InNamespace(r, namespace)
    case Custom(_, applies) => applies(r)
  }

  predicate IsPermit(p: Policy) { p.Permit? || p.permits }

  predicate SomeSatisfied(policies: seq<Policy>, permit: bool, r: Request) {
    exists i :: 0 <= i < |policies| && IsPermit(policies[i]) == permit && Satisfied(policies[i], r)
  }

  /** Cedar's decision: some permit is satisfied and no forbid is. */
  predicate CedarAllows(policies: seq<Policy>, r: Request) {
    SomeSatisfied(policies, true, r) && !SomeSatisfied(policies, false, r)
  }

  /** Repository actions apply to users on repositories; any other request fails validation and is denied. */
  predicate SchemaAccepts(r: Request) {
    && r.actor.principal.kind == User
    && (if r.repository == "*" && r.resource.None? then r.action == Admin else r.action != Admin)
  }

  predicate Decision(policies: seq<Policy>, r: Request) {
    if CrossUser(r) || UnclaimedWrite(r) then false
    else if InPersonalNamespace(r.actor.username, r.repository) then true
    else SchemaAccepts(r) && CedarAllows(policies, r)
  }

  // ---- Synthesis ----

  function PermitsFor(scope: PrincipalScope, actions: seq<Action>, namespace: Entity): (r: seq<Policy>)
    ensures |r| == |actions| && forall i :: 0 <= i < |actions| ==> r[i] == Permit(scope, actions[i], namespace)
  {
    seq(|actions|, i requires 0 <= i < |actions| => Permit(scope, actions[i], namespace))
  }

  method AppendPermitsForActions(policy: seq<Policy>, scope: PrincipalScope, allowed: Action, namespace: Entity)
    returns (after: seq<Policy>)
    ensures after == policy + PermitsFor(scope, ImpliedActions(allowed), namespace)
  {
    after := policy;
    var actions := ImpliedActions(allowed);
    for i := 0 to |actions|
      invariant after == policy + PermitsFor(scope, actions[..i], namespace)
    {
      assert PermitsFor(scope, actions[..i + 1], namespace) ==
             PermitsFor(scope, actions[..i], namespace) + [Permit(scope, actions[i], namespace)];
      after := after + [Permit(scope, actions[i], namespace)];
    }
    assert actions[..|actions|] == actions;
  }

  function OwnerPolicies(provider: Bytes, owner: Owner, epoch: SM.Epoch): Result<seq<Policy>> {
    match owner
    case OwnedByOrg(_) => Ok([])
    case OwnedByUser(subject) =>
      match AtProvider(provider, User, subject)
      case Some(id) => Ok(PermitsFor(PrincipalIs(PrincipalEntity(id)), ImpliedActions(Delete), NamespaceEntity(epoch)))
      case None => Err
  }

  function GrantPolicies(g: Grant, epoch: SM.Epoch): seq<Policy> {
    match g.grantee
    case ToGroup(id) => PermitsFor(PrincipalIn(PrincipalEntity(id)), ImpliedActions(g.action), NamespaceEntity(epoch))
    case ToUser(id) => PermitsFor(PrincipalIs(PrincipalEntity(id)), ImpliedActions(g.action), NamespaceEntity(epoch))
    case ToPublic => []
  }

  function AllGrantPolicies(grants: seq<Grant>, epoch: SM.Epoch): seq<Policy> {
    if grants == [] then []
    else AllGrantPolicies(grants[..|grants| - 1], epoch) + GrantPolicies(grants[|grants| - 1], epoch)
  }

  /** Everything compiled from ownership and grants; the owner policy fails for an owner with an empty subject. */
  function Synthesized(r: Request, store: Store): Result<seq<Policy>> {
    if r.resource.Some? && store.IsCurrent(r.resource.value.epoch) then
      var epoch := r.resource.value.epoch;
      match OwnerPolicies(r.actor.principal.provider, store.namespaces[epoch.handle].owner, epoch)
      case Ok(ps) => Ok(ps + AllGrantPolicies(store.Listed(epoch.handle), epoch))
      case Err => Err
    else Ok([])
  }

  method AppendNamespaceOwnerPolicies(policy: seq<Policy>, provider: Bytes, owner: Owner, epoch: SM.Epoch)
    returns (after: Result<seq<Policy>>)
    ensures after == match OwnerPolicies(provider, owner, epoch) case Ok(ps) => Ok(policy + ps) case Err => Err
  {
    match owner {
      case OwnedByOrg(_) =>
        assert policy + [] == policy;
        return Ok(policy);
      case OwnedByUser(subject) =>
        var id := AtProvider(provider, User, subject);
        if id.None? {
          return Err;
        }
        var owner := PrincipalIs(PrincipalEntity(id.value));
        var appended := AppendPermitsForActions(policy, owner, Delete, NamespaceEntity(epoch));
        return Ok(appended);
    }
  }

  method AppendNamespaceGrantPolicies(policy: seq<Policy>, g: Grant, epoch: SM.Epoch) returns (after: seq<Policy>)
    ensures after == policy + GrantPolicies(g, epoch)
  {
    match g.grantee {
      case ToGroup(id) =>
        after := AppendPermitsForActions(policy, PrincipalIn(PrincipalEntity(id)), g.action, NamespaceEntity(epoch));
      case ToUser(id) =>
        after := AppendPermitsForActions(policy, PrincipalIs(PrincipalEntity(id)), g.action, NamespaceEntity(epoch));
      case ToPublic =>
        after := policy;
    }
  }

  lemma AllGrantPoliciesStep(policy: seq<Policy>, grants: seq<Grant>, i: nat, epoch: SM.Epoch)
    requires i < |grants|
    ensures policy + AllGrantPolicies(grants[..i + 1], epoch) ==
            policy + AllGrantPolicies(grants[..i], epoch) + GrantPolicies(grants[i], epoch)
  {
    assert grants[..i + 1][..i] == grants[..i] && grants[..i + 1][i] == grants[i];
    var before, added := AllGrantPolicies(grants[..i], epoch), GrantPolicies(grants[i], epoch);
    assert policy + (before + added) == policy + before + added;
  }

  method AppendAllGrants(policy: seq<Policy>, grants: seq<Grant>, epoch: SM.Epoch) returns (after: seq<Policy>)
    ensures after == policy + AllGrantPolicies(grants, epoch)
  {
    after := policy;
    for i := 0 to |grants|
      invariant after == policy + AllGrantPolicies(grants[..i], epoch)
    {
      AllGrantPoliciesStep(policy, grants, i, epoch);
      after := AppendNamespaceGrantPolicies(after, grants[i], epoch);
    }
    assert grants[..|grants|] == grants;
  }

  /** The configured policy sets follow; None when one of them does not parse, and then nothing does. */
  function WithSets(ps: seq<Policy>, sets: Option<seq<Policy>>): Option<seq<Policy>> {
    match sets case Some(qs) => Some(ps + qs) case None => None
  }

  /** `cedar_decision`: text that does not parse denies. */
  predicate Decides(policies: Option<seq<Policy>>, r: Request) {
    policies.Some? && Decision(policies.value, r)
  }

  method PolicyForRequest(r: Request, store: Store, sets: Option<seq<Policy>>)
    returns (policies: Result<Option<seq<Policy>>>)
    ensures policies == match Synthesized(r, store) case Ok(ps) => Ok(WithSets(ps, sets)) case Err => Err
  {
    var policy: seq<Policy> := [];
    if r.resource.Some? && store.IsCurrent(r.resource.value.epoch) {
      var epoch := r.resource.value.epoch;
      var provider, owner := r.actor.principal.provider, store.namespaces[epoch.handle].owner;
      var owned := AppendNamespaceOwnerPolicies(policy, provider, owner, epoch);
      if owned.Err? {
        return Err;
      }
      assert [] + OwnerPolicies(r.actor.principal.provider, store.namespaces[epoch.handle].owner, epoch).value ==
             OwnerPolicies(r.actor.principal.provider, store.namespaces[epoch.handle].owner, epoch).value;
      policy := AppendAllGrants(owned.value, store.Listed(epoch.handle), epoch);
    }
    policies := Ok(WithSets(policy, sets));
  }

  /** `authorize`: synthesis, then the decision. */
  function Authorized(r: Request, store: Store, sets: Option<seq<Policy>>): Result<bool> {
    match Synthesized(r, store)
    case Ok(ps) => Ok(Decides(WithSets(ps, sets), r))
    case Err => Err
  }

  // ---- The direct rule ----

  predicate IsOwner(a: Actor, owner: Owner) {
    owner.OwnedByUser? && a.principal.kind == User && a.principal.local == owner.subject
  }

  predicate Covers(g: Grant, a: Actor) {
    match g.grantee
    case ToGroup(id) => id in a.groups
    case ToUser(id) => id == a.principal
    case ToPublic => false
  }

  /** Owner of the namespace, or grantee at or above the action, in the namespace's current epoch. */
  predicate OwnsOrIsGranted(r: Request, store: Store) {
    && r.resource.Some? && store.IsCurrent(r.resource.value.epoch)
    && var handle := r.resource.value.epoch.handle;
       || IsOwner(r.actor, store.namespaces[handle].owner)
       || exists g :: g in store.Listed(handle) && Covers(g, r.actor) && ActionMatches(g.action, r.action)
  }

  predicate DirectRule(r: Request, store: Store) {
    && !CrossUser(r)
    && (|| InPersonalNamespace(r.actor.username, r.repository)
        || (r.actor.principal.kind == User && OwnsOrIsGranted(r, store)))
  }

  lemma PermitsMeaning(scope: PrincipalScope, allowed: Action, namespace: Entity, r: Request)
    requires r.action != Admin
    ensures (exists p :: p in PermitsFor(scope, ImpliedActions(allowed), namespace) && Satisfied(p, r)) <==>
            ActionMatches(allowed, r.action) && PrincipalMatches(scope, r.actor) && InNamespace(r, namespace)
  {
    ImpliedMeaning(allowed, r.action);
    var actions := ImpliedActions(allowed);
    var permits := PermitsFor(scope, actions, namespace);
    if p :| p in permits && Satisfied(p, r) {
      var i :| 0 <= i < |permits| && permits[i] == p;
      assert actions[i] == r.action;
    }
    if r.action in actions && PrincipalMatches(scope, r.actor) && InNamespace(r, namespace) {
      var i :| 0 <= i < |actions| && actions[i] == r.action;
      assert permits[i] in permits && Satisfied(permits[i], r);
    }
  }

  lemma GrantMeaning(g: Grant, r: Request)
    requires r.action != Admin && r.resource.Some? && r.actor.principal.kind == User
    requires g.WellFormed()
    ensures (exists p :: p in GrantPolicies(g, r.resource.value.epoch) && Satisfied(p, r)) <==>
            Covers(g, r.actor) && ActionMatches(g.action, r.action)
  {
    var namespace := NamespaceEntity(r.resource.value.epoch);
    match g.grantee
    case ToGroup(id) =>
      PermitsMeaning(PrincipalIn(PrincipalEntity(id)), g.action, namespace, r);
      assert id in r.actor.groups <==> GroupEntity(id) in Groups(r.actor);
    case ToUser(id) =>
      PermitsMeaning(PrincipalIs(PrincipalEntity(id)), g.action, namespace, r);
    case ToPublic =>
  }

  lemma {:induction false} GrantsMeaning(grants: seq<Grant>, r: Request)
    requires r.action != Admin && r.resource.Some? && r.actor.principal.kind == User
    requires forall g :: g in grants ==> g.WellFormed()
    ensures (exists p :: p in AllGrantPolicies(grants, r.resource.value.epoch) && Satisfied(p, r)) <==>
            exists g :: g in grants && Covers(g, r.actor) && ActionMatches(g.action, r.action)
    decreases |grants|
  {
    if grants != [] {
      var front, last := grants[..|grants| - 1], grants[|grants| - 1];
      assert grants == front + [last];
      GrantsMeaning(front, r);
      GrantMeaning(last, r);
      var epoch := r.resource.value.epoch;
      assert forall p :: p in AllGrantPolicies(grants, epoch) <==>
             p in AllGrantPolicies(front, epoch) || p in GrantPolicies(last, epoch);
      assert forall g :: g in grants <==> g in front || g == last;
    }
  }

  lemma {:induction false} GrantPoliciesArePermits(grants: seq<Grant>, epoch: SM.Epoch)
    ensures forall p :: p in AllGrantPolicies(grants, epoch) ==> p.Permit?
    decreases |grants|
  {
    if grants != [] {
      GrantPoliciesArePermits(grants[..|grants| - 1], epoch);
    }
  }

  lemma PersonalIsReserved(repository: string)
    requires "users/" <= repository && |repository| > 6
    ensures SM.HandleOf(repository) == Some("users")
  {
    SplitOnceJoined("users", '/', repository[6..]);
    assert repository == "users" + ['/'] + repository[6..];
  }

  /** The one case in which synthesis fails. */
  predicate OwnerIsNameless(r: Request, store: Store) {
    && r.resource.Some? && store.IsCurrent(r.resource.value.epoch)
    && store.namespaces[r.resource.value.epoch.handle].owner == OwnedByUser([])
  }

  lemma OwnerMeaning(r: Request, owner: Owner)
    requires r.action != Admin && r.resource.Some? && owner != OwnedByUser([])
    ensures var ps := OwnerPolicies(r.actor.principal.provider, owner, r.resource.value.epoch);
            && ps.Ok? && (forall p :: p in ps.value ==> p.Permit?)
            && ((exists p :: p in ps.value && Satisfied(p, r)) <==> IsOwner(r.actor, owner))
  {
    if owner.OwnedByUser? {
      var id := Id(r.actor.principal.provider, User, owner.subject);
      PermitsMeaning(PrincipalIs(PrincipalEntity(id)), Delete, NamespaceEntity(r.resource.value.epoch), r);
    }
  }

  lemma CurrentEpochMeaning(r: Request, store: Store)
    requires r.actor.principal.kind == User && store.GrantsWellFormed()
    requires r.action != Admin && r.resource.Some? && store.IsCurrent(r.resource.value.epoch) &&
             !OwnerIsNameless(r, store)
    ensures Synthesized(r, store).Ok? && CedarAllows(Synthesized(r, store).value, r) == OwnsOrIsGranted(r, store)
  {
    var epoch := r.resource.value.epoch;
    var owner, grants := store.namespaces[epoch.handle].owner, store.Listed(epoch.handle);
    OwnerMeaning(r, owner);
    GrantsMeaning(grants, r);
    GrantPoliciesArePermits(grants, epoch);
    var owned := OwnerPolicies(r.actor.principal.provider, owner, epoch).value;
    var granted := AllGrantPolicies(grants, epoch);
    SatisfiedInEither(owned, granted, r);
  }

  lemma SatisfiedInEither(ps: seq<Policy>, qs: seq<Policy>, r: Request)
    requires forall p :: p in ps || p in qs ==> p.Permit?
    ensures CedarAllows(ps + qs, r) <==>
            (exists p :: p in ps && Satisfied(p, r)) || (exists p :: p in qs && Satisfied(p, r))
  {
    var all := ps + qs;
    assert forall i :: 0 <= i < |all| ==> all[i] in ps || all[i] in qs;
    assert !SomeSatisfied(all, false, r);
    if p :| (p in ps || p in qs) && Satisfied(p, r) {
      assert p in all;
      var i :| 0 <= i < |all| && all[i] == p;
      assert SomeSatisfied(all, true, r);
    }
  }

  lemma GuardsMeaning(ps: seq<Policy>, r: Request, store: Store)
    requires r.action != Admin
    requires r.actor.principal.kind == User ==> CedarAllows(ps, r) == OwnsOrIsGranted(r, store)
    ensures Decision(ps, r) == DirectRule(r, store)
  {
    if InPersonalNamespace(r.actor.username, r.repository) {
      PersonalIsReserved(r.repository);
    }
  }

  lemma SynthesisMeaning(r: Request, store: Store)
    requires store.GrantsWellFormed() && r.action != Admin
    ensures Synthesized(r, store).Err? <==> OwnerIsNameless(r, store)
    ensures Synthesized(r, store).Ok? && r.actor.principal.kind == User ==>
              CedarAllows(Synthesized(r, store).value, r) == OwnsOrIsGranted(r, store)
  {
    if r.resource.Some? && store.IsCurrent(r.resource.value.epoch) {
      SynthesisFailsIff(r, store);
      if r.actor.principal.kind == User && !OwnerIsNameless(r, store) {
        CurrentEpochMeaning(r, store);
      }
    } else {
      assert !CedarAllows([], r);
    }
  }

  lemma SynthesisFailsIff(r: Request, store: Store)
    ensures Synthesized(r, store).Err? <==> OwnerIsNameless(r, store)
  {
  }

  /**
   The compiled policies and the guards together decide exactly the direct rule, for every identity,
   request and store; a request fails only where the current owner has an empty subject.
   */
  lemma AuthorizeMeansDirectRule(r: Request, store: Store)
    requires store.GrantsWellFormed() && r.action != Admin
    ensures Authorized(r, store, Some([])) == if OwnerIsNameless(r, store) then Err else Ok(DirectRule(r, store))
  {
    SynthesisMeaning(r, store);
    if Synthesized(r, store).Ok? {
      var ps := Synthesized(r, store).value;
      assert ps + [] == ps;
      GuardsMeaning(ps, r, store);
    }
  }

  ghost predicate SomeApplies(sets: seq<Policy>, permits: bool, r: Request) {
    exists q :: q in sets && q.Custom? && q.permits == permits && q.applies(r)
  }

  /**
   Policy sets on top: outside the guards, an action is allowed by ownership, a grant or some permit of a set,
   and no permit helps against a forbid that applies.
   */
  lemma PolicySetsMeaning(r: Request, store: Store, sets: seq<Policy>)
    requires store.GrantsWellFormed() && r.action != Admin && !OwnerIsNameless(r, store)
    requires forall q :: q in sets ==> q.Custom?
    ensures Authorized(r, store, Some(sets)) ==
            Ok(&& !CrossUser(r) && !UnclaimedWrite(r)
               && (|| InPersonalNamespace(r.actor.username, r.repository)
                   || (&& r.actor.principal.kind == User && !(r.repository == "*" && r.resource.None?)
                       && (OwnsOrIsGranted(r, store) || SomeApplies(sets, true, r)) && !SomeApplies(sets, false, r))))
  {
    SynthesisMeaning(r, store);
    SynthesisIsPermits(r, store);
    CedarOfSets(Synthesized(r, store).value, sets, r);
  }

  lemma SynthesisIsPermits(r: Request, store: Store)
    requires Synthesized(r, store).Ok?
    ensures forall p :: p in Synthesized(r, store).value ==> p.Permit?
  {
    if r.resource.Some? && store.IsCurrent(r.resource.value.epoch) {
      GrantPoliciesArePermits(store.Listed(r.resource.value.epoch.handle), r.resource.value.epoch);
    }
  }

  lemma CedarOfSets(ps: seq<Policy>, sets: seq<Policy>, r: Request)
    requires (forall p :: p in ps ==> p.Permit?) && (forall q :: q in sets ==> q.Custom?)
    ensures CedarAllows(ps + sets, r) <==>
            (CedarAllows(ps, r) || SomeApplies(sets, true, r)) && !SomeApplies(sets, false, r)
  {
    var all := ps + sets;
    forall permit: bool
      ensures SomeSatisfied(all, permit, r) <==> SomeSatisfied(ps, permit, r) || SomeApplies(sets, permit, r) {
      SatisfiedInSets(ps, sets, permit, r);
    }
    assert forall i :: 0 <= i < |ps| ==> ps[i] in ps;
    assert !SomeSatisfied(ps, false, r);
  }

  lemma SatisfiedInSets(ps: seq<Policy>, sets: seq<Policy>, permit: bool, r: Request)
    requires forall q :: q in sets ==> q.Custom?
    ensures SomeSatisfied(ps + sets, permit, r) <==> SomeSatisfied(ps, permit, r) || SomeApplies(sets, permit, r)
  {
    var all := ps + sets;
    if i :| 0 <= i < |all| && IsPermit(all[i]) == permit && Satisfied(all[i], r) {
      if i >= |ps| {
        assert sets[i - |ps|] in sets;
      }
    }
    if i :| 0 <= i < |ps| && IsPermit(ps[i]) == permit && Satisfied(ps[i], r) {
      assert all[i] == ps[i];
    }
    if q :| q in sets && q.Custom? && q.permits == permit && q.applies(r) {
      var i :| 0 <= i < |sets| && sets[i] == q;
      assert all[|ps| + i] == q;
    }
  }

  /** Whoever may do an action may do every lower one. */
  lemma DirectRuleIsDownwardClosed(r: Request, lower: Action, store: Store)
    requires DirectRule(r, store) && r.action != Admin && Rank(lower) <= Rank(r.action)
    ensures DirectRule(r.(action := lower), store)
  {
  }

  lemma PersonalNames(repository: string, user: string, rest: string)
    requires user != "" && '/' !in user && repository == "users/" + user + "/" + rest
    ensures PersonalNamespaceOf(repository) == Some(user) && SM.HandleOf(repository) == Some("users")
    ensures InPersonalNamespace(Some(user), repository)
  {
    assert repository[6..] == user + ['/'] + rest;
    SplitJoined(user, '/', rest);
    PersonalIsReserved(repository);
    assert "users/" + user + "/" <= repository;
  }

  lemma PersonalDecision(policies: seq<Policy>, r: Request, user: string)
    requires PersonalNamespaceOf(r.repository) == Some(user) && InPersonalNamespace(Some(user), r.repository)
    ensures r.actor.username != Some(user) ==> !Decision(policies, r)
    ensures !UnclaimedWrite(r) ==> Decision(policies, r) == (r.actor.username == Some(user))
  {
  }

  /**
   A personal namespace belongs to its user alone: whatever grants, policy sets and action, access is
   granted to that user and to nobody else, and to nobody while some policy set does not parse.
   */
  lemma PersonalNamespaceIsPrivate(r: Request, user: string, rest: string, store: Store, sets: Option<seq<Policy>>)
    requires user != "" && '/' !in user && r.repository == "users/" + user + "/" + rest
    ensures r.actor.username != Some(user) ==> Authorized(r, store, sets) != Ok(true)
    ensures r.resource.None? ==> Authorized(r, store, sets) == Ok(sets.Some? && r.actor.username == Some(user))
  {
    PersonalNames(r.repository, user, rest);
    assert !UnclaimedWrite(r);
    if Synthesized(r, store).Ok? && sets.Some? {
      PersonalDecision(Synthesized(r, store).value + sets.value, r, user);
    }
  }

  // ---- The largest grantable action ----

  method Authorize(r: Request, store: Store, sets: Option<seq<Policy>>) returns (allowed: Result<bool>)
    ensures allowed == Authorized(r, store, sets)
  {
    var policies := PolicyForRequest(r, store, sets);
    allowed := if policies.Err? then Err else Ok(Decides(policies.value, r));
  }

  /** The resource of a repository under a claimed handle, in the handle's current epoch. */
  function ResourceFor(repository: string, store: Store): Option<Resource> {
    match SM.HandleOf(repository)
    case Some(handle) =>
      if SM.IsReserved(handle) || handle !in store.namespaces then None
      else Some(Resource(SM.Epoch(handle, store.namespaces[handle].generation), SplitOnce(repository, '/').value.1))
    case None => None
  }

  predicate MayDo(actor: Actor, repository: string, action: Action, store: Store, sets: Option<seq<Policy>>) {
    Authorized(Request(actor, repository, ResourceFor(repository, store), action), store, sets) == Ok(true)
  }

  /** The actions an actor may take on a repository. */
  ghost function Allowed(actor: Actor, repository: string, store: Store, sets: Option<seq<Policy>>): set<Action> {
    set a: Action | MayDo(actor, repository, a, store, sets)
  }

  /** Without policy sets, whoever may do an action on a repository may do every lower one. */
  lemma AllowedIsDownwardClosed(actor: Actor, repository: string, action: Action, lower: Action, store: Store)
    requires store.GrantsWellFormed() && action != Admin && Rank(lower) <= Rank(action)
    requires action in Allowed(actor, repository, store, Some([]))
    ensures lower in Allowed(actor, repository, store, Some([]))
  {
    var r := Request(actor, repository, ResourceFor(repository, store), action);
    AuthorizeMeansDirectRule(r, store);
    AuthorizeMeansDirectRule(r.(action := lower), store);
    DirectRuleIsDownwardClosed(r, lower, store);
  }

  /** The highest of the allowed actions of rank below `bound`. */
  ghost predicate IsHighest(max: Option<Action>, bound: int, allowed: set<Action>) {
    && (max.Some? ==> Rank(max.value) < bound && max.value in allowed)
    && forall a :: a in allowed && Rank(a) < bound ==> max.Some? && Rank(a) <= Rank(max.value)
  }

  lemma HighestStep(max: Option<Action>, action: Action, allowed: set<Action>)
    requires IsHighest(max, Rank(action), allowed)
    ensures IsHighest(if action in allowed then Some(action) else max, Rank(action) + 1, allowed)
  {
  }

  lemma LadderIsExact(max: Option<Action>, allowed: set<Action>)
    requires IsHighest(max, Rank(Admin), allowed)
    requires forall a, lower :: a in allowed && a != Admin && Rank(lower) <= Rank(a) ==> lower in allowed
    ensures forall a :: a != Admin ==> (a in allowed <==> max.Some? && Rank(a) <= Rank(max.value))
  {
  }

  /** Without policy sets, the highest allowed action describes the allowed set exactly. */
  lemma HighestIsExact(max: Option<Action>, actor: Actor, repository: string, store: Store)
    requires store.GrantsWellFormed()
    requires IsHighest(max, Rank(Admin), Allowed(actor, repository, store, Some([])))
    ensures forall a :: a != Admin ==>
            (a in Allowed(actor, repository, store, Some([])) <==> max.Some? && Rank(a) <= Rank(max.value))
  {
    forall a, lower | a in Allowed(actor, repository, store, Some([])) && a != Admin && Rank(lower) <= Rank(a)
      ensures lower in Allowed(actor, repository, store, Some([]))
    {
      AllowedIsDownwardClosed(actor, repository, a, lower, store);
    }
    LadderIsExact(max, Allowed(actor, repository, store, Some([])));
  }

  // ---- The decisions in plain terms ----

  /** The ladder: what a grant of an action gives. */
  ghost function UpTo(a: Action): set<Action> {
    match a
    case Pull => {Pull}
    case Create => {Pull, Create}
    case Update => {Pull, Create, Update}
    case Delete => {Pull, Create, Update, Delete}
    case Admin => {}
  }

  /** `handle/rest` is a repository under a handle that is not the personal one. */
  ghost predicate IsShared(repository: string, handle: string, rest: string) {
    SM.IsUnder(repository, handle, rest) && handle != "users"
  }

  /** Everything for the owner, and for others what the grants that name them give. */
  ghost function Granted(actor: Actor, handle: string, store: Store): set<Action>
    requires handle in store.namespaces
  {
    if store.namespaces[handle].owner == OwnedByUser(actor.principal.local) then {Pull, Create, Update, Delete}
    else set g, a | g in store.Listed(handle) && Covers(g, actor) && a in UpTo(g.action) :: a
  }

  lemma NotPersonal(repository: string, handle: string, rest: string)
    requires IsShared(repository, handle, rest)
    ensures !("users/" <= repository) && SM.HandleOf(repository) == Some(handle)
  {
    SplitOnceJoined(handle, '/', rest);
    PersonalPrefix(repository);
  }

  lemma PersonalPrefix(repository: string)
    ensures "users/" <= repository ==> SplitOnce(repository, '/') == Some(("users", repository[6..]))
  {
    if "users/" <= repository {
      SplitOnceJoined("users", '/', repository[6..]);
      assert repository == "users" + ['/'] + repository[6..];
    }
  }

  /**
   What a user may do on a repository of a claimed handle, without policy sets: everything as its owner, and
   otherwise exactly what the grants that name the user, or a group of the user, give.
   */
  lemma AllowedAreGranted(actor: Actor, repository: string, handle: string, rest: string, store: Store)
    requires store.GrantsWellFormed() && actor.principal.kind == User && IsShared(repository, handle, rest)
    requires handle in store.namespaces && store.namespaces[handle].owner != OwnedByUser([])
    ensures Allowed(actor, repository, store, Some([])) - {Admin} == Granted(actor, handle, store)
  {
    var allowed, granted := Allowed(actor, repository, store, Some([])), Granted(actor, handle, store);
    MayIffGranted(actor, repository, handle, rest, Pull, store);
    MayIffGranted(actor, repository, handle, rest, Create, store);
    MayIffGranted(actor, repository, handle, rest, Update, store);
    MayIffGranted(actor, repository, handle, rest, Delete, store);
    AdminIsNotGranted(actor, handle, store);
    SameBelowAdmin(allowed, granted);
  }

  lemma AdminIsNotGranted(actor: Actor, handle: string, store: Store)
    requires handle in store.namespaces
    ensures Admin !in Granted(actor, handle, store)
  {
  }

  lemma SameBelowAdmin(allowed: set<Action>, granted: set<Action>)
    requires Pull in allowed <==> Pull in granted
    requires Create in allowed <==> Create in granted
    requires Update in allowed <==> Update in granted
    requires Delete in allowed <==> Delete in granted
    requires Admin !in granted
    ensures allowed - {Admin} == granted
  {
    forall a: Action ensures a in allowed - {Admin} <==> a in granted {
      match a case Pull => case Create => case Update => case Delete => case Admin =>
    }
  }

  lemma MayIffGranted(actor: Actor, repository: string, handle: string, rest: string, a: Action, store: Store)
    requires store.GrantsWellFormed() && actor.principal.kind == User && IsShared(repository, handle, rest)
    requires handle in store.namespaces && store.namespaces[handle].owner != OwnedByUser([]) && a != Admin
    ensures MayDo(actor, repository, a, store, Some([])) <==> a in Granted(actor, handle, store)
  {
    NotPersonal(repository, handle, rest);
    var resource := ResourceFor(repository, store);
    AuthorizeMeansDirectRule(Request(actor, repository, resource, a), store);
    DirectRuleGrants(actor, repository, handle, resource.value, a, store);
  }

  lemma DirectRuleGrants(actor: Actor, repository: string, handle: string, resource: Resource, a: Action, store: Store)
    requires actor.principal.kind == User && !("users/" <= repository) && a != Admin && handle in store.namespaces
    requires resource.epoch == SM.Epoch(handle, store.namespaces[handle].generation)
    ensures DirectRule(Request(actor, repository, Some(resource), a), store) <==> a in Granted(actor, handle, store)
  {
    LadderMeaning(a);
    NoPersonalClaim(actor.username, repository);
  }

  lemma NoPersonalClaim(username: Option<string>, repository: string)
    requires !("users/" <= repository)
    ensures !InPersonalNamespace(username, repository)
  {
    if username.Some? {
      assert "users/" <= "users/" + username.value + "/";
    }
  }

  lemma LadderMeaning(a: Action)
    requires a != Admin
    ensures forall g: Action :: ActionMatches(g, a) <==> a in UpTo(g)
  {
  }

  ghost function Top(actions: set<Action>): Option<Action> {
    if Delete in actions then Some(Delete)
    else if Update in actions then Some(Update)
    else if Create in actions then Some(Create)
    else if Pull in actions then Some(Pull)
    else None
  }

  lemma HighestIsTop(max: Option<Action>, allowed: set<Action>)
    requires IsHighest(max, Rank(Admin), allowed)
    ensures max == Top(allowed - {Admin})
  {
    assert {Pull, Create, Update, Delete} - {Admin} == {Pull, Create, Update, Delete};
    assert max.Some? ==> max.value in allowed - {Admin};
  }

  /** Nothing is granted in an epoch that is over: the claims of earlier owners and their grants have lapsed. */
  lemma LapsedEpochIsDenied(r: Request, store: Store)
    requires r.resource.Some? && !("users/" <= r.repository)
    requires var e := r.resource.value.epoch;
             e.handle in store.namespaces ==> store.namespaces[e.handle].generation != e.generation
    ensures Authorized(r, store, Some([])) == Ok(false)
  {
    var none: seq<Policy> := [];
    assert none + [] == none && !CedarAllows(none, r);
    NoPersonalClaim(r.actor.username, r.repository);
  }

  /** Under a handle nobody has claimed nothing can be written, whatever the policy sets permit. */
  lemma UnclaimedIsReadOnly(actor: Actor, repository: string, handle: string, rest: string, action: Action,
                            store: Store,
                            sets: Option<seq<Policy>>)
    requires IsShared(repository, handle, rest) && handle !in store.namespaces && action != Pull
    ensures ResourceFor(repository, store) == None
    ensures Authorized(Request(actor, repository, None, action), store, sets) == Ok(false)
  {
    NotPersonal(repository, handle, rest);
    assert repository[|handle|] == '/';
  }

  /** What a request for an action comes to; it fails for all actions alike. */
  ghost predicate IsVerdict(verdict: Result<bool>, action: Action, fails: bool, allowed: set<Action>) {
    verdict == if fails then Err else Ok(action in allowed)
  }

  /**
   Whatever the policy sets, the highest allowed action; without any, on a claimed handle, the highest the user
   was granted.
   */
  method MaxGrantableAction(actor: Actor, repository: string, store: Store, sets: Option<seq<Policy>>)
    returns (max: Result<Option<Action>>)
    ensures max.Err? <==> OwnerIsNameless(Request(actor, repository, ResourceFor(repository, store), Pull), store)
    ensures max.Ok? ==> IsHighest(max.value, Rank(Admin), Allowed(actor, repository, store, sets))
    ensures forall handle, rest ::
              IsShared(repository, handle, rest) && handle in store.namespaces && sets == Some([]) && max.Ok? &&
              store.GrantsWellFormed() && actor.principal.kind == User ==>
                max.value == Top(Granted(actor, handle, store))
  {
    ghost var can, fails;
    max, can, fails := Climb(actor, repository, ResourceFor(repository, store), store, sets);
    if max.Ok? && sets == Some([]) && store.GrantsWellFormed() && actor.principal.kind == User {
      forall handle, rest | IsShared(repository, handle, rest) && handle in store.namespaces
        ensures max.value == Top(Granted(actor, handle, store)) {
        NotPersonal(repository, handle, rest);
        AllowedAreGranted(actor, repository, handle, rest, store);
        HighestIsTop(max.value, can);
      }
    }
  }

  method Climb(actor: Actor, repository: string, resource: Option<Resource>, store: Store, sets: Option<seq<Policy>>)
    returns (max: Result<Option<Action>>, ghost can: set<Action>, ghost fails: bool)
    requires resource == ResourceFor(repository, store)
    ensures can == Allowed(actor, repository, store, sets)
    ensures fails == OwnerIsNameless(Request(actor, repository, resource, Pull), store)
    ensures if fails then max.Err? else max.Ok? && IsHighest(max.value, Rank(Admin), can)
  {
    can := Allowed(actor, repository, store, sets);
    fails := OwnerIsNameless(Request(actor, repository, resource, Pull), store);
    var highest: Option<Action> := None;
    for i := 0 to 4
      invariant i > 0 ==> !fails
      invariant IsHighest(highest, i, can)
    {
      var action := REPOSITORY_ACTIONS[i];
      assert Rank(action) == i;
      var allowed := AuthorizeAction(actor, repository, resource, action, store, sets, fails, can);
      if allowed.Err? {
        return Err, can, fails;
      }
      HighestStep(highest, action, can);
      if allowed.value {
        highest := Some(action);
      }
    }
    max := Ok(highest);
  }

  method AuthorizeAction(actor: Actor, repository: string, resource: Option<Resource>, action: Action, store: Store,
                         sets: Option<seq<Policy>>, ghost fails: bool, ghost can: set<Action>)
    returns (allowed: Result<bool>)
    requires resource == ResourceFor(repository, store)
    requires fails == OwnerIsNameless(Request(actor, repository, resource, Pull), store)
    requires can == Allowed(actor, repository, store, sets)
    ensures IsVerdict(allowed, action, fails, can)
  {
    allowed := Authorize(Request(actor, repository, resource, action), store, sets);
    SynthesisFailsIff(Request(actor, repository, resource, action), store);
  }
}
