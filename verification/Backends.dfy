/**
  The in-memory backends behind the authorizer: current principals, revocations,
  replay reservations and the audit trail. Each is a class whose methods are
  atomic (the source holds a lock), specified by operations on a state value;
  the protocol model interleaves those operations.
 */
module Backends {
  import opened Wrappers
  import opened Credentials

  // ---------------------------------------------------------------------------
  // Faults and the clock
  // ---------------------------------------------------------------------------

  /** A backend access works, fails, or fails after it has taken effect. */
  datatype Fault = Works | Raises | ActsThenRaises

  /** What befalls one access: how much later it happens than the one before, and whether it works. */
  datatype Access = Access(elapsed: nat, fault: Fault)

  type Script = nat -> Access

  /** The clock, and the fate of every access in turn. */
  class Environment {
    const script: Script
    var accesses: nat
    var now: int

    constructor (script: Script, now: int)
      ensures this.script == script && accesses == 0 && this.now == now
    {
      this.script, accesses, this.now := script, 0, now;
    }

    /** The next access: the clock has moved on, and the access works or does not. */
    method Next() returns (fault: Fault)
      modifies this
      ensures fault == script(old(accesses)).fault
      ensures accesses == old(accesses) + 1 && now == old(now) + script(old(accesses)).elapsed
    {
      var access := script(accesses);
      accesses, now := accesses + 1, now + access.elapsed;
      return access.fault;
    }
  }

  // ---------------------------------------------------------------------------
  // Trusted issuers
  // ---------------------------------------------------------------------------

  /** The policy in force, and how many changes have ever been made: what the revision commits to. */
  datatype IssuerState = IssuerState(policy: IssuerPolicy, counter: nat) {
    function Set(changed: IssuerPolicy): IssuerState {
      IssuerState(changed, counter + 1)
    }
  }

  const NO_ISSUERS := IssuerPolicy("", map[])

  /** An issuer policy that never changes. */
  class StaticTrustedIssuerBackend {
    const policy: IssuerPolicy

    function State(): IssuerState {
      IssuerState(policy, 0)
    }

    constructor (policy: IssuerPolicy)
      ensures State() == IssuerState(policy, 0)
    {
      this.policy := policy;
    }

    method Snapshot() returns (snapshot: IssuerState)
      ensures snapshot == State()
    {
      return IssuerState(policy, 0);
    }
  }

  // ---------------------------------------------------------------------------
  // Principals
  // ---------------------------------------------------------------------------

  datatype Binding = Binding(principal: Principal, active: bool)

  /** The bindings in force, and how many changes have ever been made. */
  datatype PrincipalState = PrincipalState(bindings: map<string, Binding>, counter: nat) {
    function Set(principal: Principal, active: bool): PrincipalState {
      PrincipalState(bindings[principal.id := Binding(principal, active)], counter + 1)
    }

    function Remove(id: string): PrincipalState {
      PrincipalState(bindings - {id}, counter + 1)
    }
  }

  /** What a revision string commits to: the change count together with one binding. */
  datatype PrincipalRevision = PrincipalRevision(counter: nat, binding: Binding)

  function PrincipalSnapshot(s: PrincipalState, id: string): Option<PrincipalRevision> {
    if id in s.bindings then Some(PrincipalRevision(s.counter, s.bindings[id])) else None
  }

  function InitialBindings(principals: seq<Principal>): map<string, Binding> {
    if principals == [] then map[]
    else
      var last := principals[|principals| - 1];
      InitialBindings(principals[..|principals| - 1])[last.id := Binding(last, true)]
  }

  /** At the start the last principal given under an id is bound, and active. */
  lemma {:induction false} LastIsBound(principals: seq<Principal>, id: string)
    ensures id in InitialBindings(principals) <==> exists p :: p in principals && p.id == id
    ensures forall k :: 0 <= k < |principals| && principals[k].id == id
              && (forall m :: k < m < |principals| ==> principals[m].id != id)
              ==> InitialBindings(principals)[id] == Binding(principals[k], true)
    decreases |principals|
  {
    if principals != [] {
      var front, last := principals[..|principals| - 1], principals[|principals| - 1];
      LastIsBound(front, id);
      assert principals == front + [last];
    }
  }

  class InMemoryPrincipalPolicyBackend {
    var principals: map<string, Binding>
    var counter: nat

    ghost function State(): PrincipalState
      reads this
    {
      PrincipalState(principals, counter)
    }

    constructor (initial: seq<Principal>)
      ensures State() == PrincipalState(InitialBindings(initial), 0)
    {
      var bindings := map[];
      for i := 0 to |initial|
        invariant bindings == InitialBindings(initial[..i])
      {
        bindings := bindings[initial[i].id := Binding(initial[i], true)];
        assert initial[..i + 1][..i] == initial[..i];
      }
      assert initial[..|initial|] == initial;
      principals, counter := bindings, 0;
    }

    method Set(principal: Principal, active: bool)
      modifies this
      ensures State() == old(State()).Set(principal, active)
      ensures principals == old(principals)[principal.id := Binding(principal, active)]
      ensures counter == old(counter) + 1
    {
      principals := principals[principal.id := Binding(principal, active)];
      counter := counter + 1;
    }

    method Remove(id: string)
      modifies this
      ensures State() == old(State()).Remove(id)
      ensures principals == old(principals) - {id} && counter == old(counter) + 1
    {
      if id in principals {
        principals := principals - {id};
      }
      counter := counter + 1;
      assert principals == old(principals) - {id};
    }

    method Snapshot(principal: Principal) returns (snapshot: Option<PrincipalRevision>)
      ensures snapshot == PrincipalSnapshot(State(), principal.id)
      ensures snapshot.Some? <==> principal.id in principals
      ensures snapshot.Some? ==> snapshot.value == PrincipalRevision(counter, principals[principal.id])
    {
      if principal.id !in principals {
        return None;
      }
      return Some(PrincipalRevision(counter, principals[principal.id]));
    }
  }

  // ---------------------------------------------------------------------------
  // Revocations
  // ---------------------------------------------------------------------------

  /** Everything ever revoked, and how many revocations there were: what the revision commits to. */
  datatype RevocationState = RevocationState(revoked: set<Digest>, counter: nat) {
    function Revoke(d: Digest): RevocationState {
      RevocationState(revoked + {d}, counter + 1)
    }
  }

  function Digests(chain: seq<Credential>): set<Digest> {
    set c | c in chain :: DigestOf(c)
  }

  class InMemoryRevocationBackend {
    var revoked: set<Digest>
    var counter: nat

    ghost function State(): RevocationState
      reads this
    {
      RevocationState(revoked, counter)
    }

    constructor ()
      ensures State() == RevocationState({}, 0)
    {
      revoked, counter := {}, 0;
    }

    method Revoke(d: Digest)
      modifies this
      ensures State() == old(State()).Revoke(d)
      ensures revoked == old(revoked) + {d} && counter == old(counter) + 1
    {
      revoked := revoked + {d};
      counter := counter + 1;
    }

    method Snapshot(digests: set<Digest>) returns (revision: RevocationState, revokedHere: set<Digest>)
      ensures revision == State() == RevocationState(revoked, counter)
      ensures revokedHere == digests * revoked
    {
      revision := RevocationState(revoked, counter);
      revokedHere := digests * revoked;
    }
  }

  // ---------------------------------------------------------------------------
  // Replay reservations
  // ---------------------------------------------------------------------------

  type Reservations = map<Digest, int>

  /** Forget the reservations that have run out. One expiring exactly now is still held. */
  function Unexpired(reservations: Reservations, now: int): Reservations {
    map d | d in reservations && reservations[d] >= now :: reservations[d]
  }

  predicate Held(reservations: Reservations, d: Digest, now: int) {
    d in reservations && reservations[d] >= now
  }

  function AfterReserve(reservations: Reservations, d: Digest, expiresAt: int, now: int): Reservations {
    if Held(reservations, d, now) then Unexpired(reservations, now)
    else Unexpired(reservations, now)[d := expiresAt]
  }

  class InMemoryReplayBackend {
    var reservations: Reservations

    constructor ()
      ensures reservations == map[]
    {
      reservations := map[];
    }

    method Reserve(d: Digest, expiresAt: int, now: int) returns (reserved: bool)
      modifies this
      ensures reserved <==> !Held(old(reservations), d, now)
      ensures reservations == AfterReserve(old(reservations), d, expiresAt, now)
      ensures reserved <==> d !in old(reservations) || old(reservations)[d] < now
      ensures reserved ==> d in reservations && reservations[d] == expiresAt
      ensures forall k :: k != d || !reserved ==>
                (k in reservations <==> k in old(reservations) && old(reservations)[k] >= now)
                && (k in reservations ==> reservations[k] == old(reservations)[k])
    {
      reservations := map k | k in reservations && reservations[k] >= now :: reservations[k];
      if d in reservations {
        return false;
      }
      reservations := reservations[d := expiresAt];
      return true;
    }
  }

  // ---------------------------------------------------------------------------
  // Reading the principals that a chain and a request name
  // ---------------------------------------------------------------------------

  function ChainPrincipals(chain: seq<Credential>): seq<Principal> {
    if chain == [] then [] else ChainPrincipals(chain[..|chain| - 1]) + [chain[|chain| - 1].principal]
  }

  /** Every principal that a verifier must find current: those of the chain, then the requester. */
  function Asserted(chain: seq<Credential>, request: Request): seq<Principal> {
    ChainPrincipals(chain) + [request.principal]
  }

  /** Who is named: the principals of the chain's links, and the requester. */
  lemma {:induction false} AssertedAreNamed(chain: seq<Credential>, request: Request, p: Principal)
    ensures p in Asserted(chain, request) <==> p == request.principal || exists c :: c in chain && c.principal == p
    decreases |chain|
  {
    if chain != [] {
      var front, last := chain[..|chain| - 1], chain[|chain| - 1];
      AssertedAreNamed(front, request, p);
      assert chain == front + [last];
      assert forall c :: c in chain <==> c in front || c == last;
    }
  }

  lemma {:induction false} ChainPrincipalsAreNamed(chain: seq<Credential>, i: nat)
    requires i < |chain|
    ensures chain[i].principal in ChainPrincipals(chain)
    decreases |chain|
  {
    if i < |chain| - 1 {
      ChainPrincipalsAreNamed(chain[..|chain| - 1], i);
    }
  }

  /** The ids among `ps`, each once, in order of first mention. */
  function DistinctIds(ps: seq<Principal>): (ids: seq<string>)
    ensures ps != [] ==> ids != []
  {
    if ps == [] then []
    else
      var front, last := ps[..|ps| - 1], ps[|ps| - 1];
      if last.id in DistinctIds(front) then DistinctIds(front) else DistinctIds(front) + [last.id]
  }

  lemma {:induction false} DistinctIdsAreTheNamed(ps: seq<Principal>)
    ensures forall id :: id in DistinctIds(ps) <==> exists p :: p in ps && p.id == id
    ensures forall i, j :: 0 <= i < j < |DistinctIds(ps)| ==> DistinctIds(ps)[i] != DistinctIds(ps)[j]
    decreases |ps|
  {
    if ps != [] {
      var front, last := ps[..|ps| - 1], ps[|ps| - 1];
      DistinctIdsAreTheNamed(front);
      assert ps == front + [last];
      assert forall p :: p in ps <==> p in front || p == last;
    }
  }

  /** Position `k` is where the id in place `j` is first mentioned: all that is mentioned before comes before it. */
  ghost predicate FirstMention(ps: seq<Principal>, j: nat, k: nat) {
    && j < |DistinctIds(ps)| && k < |ps| && ps[k].id == DistinctIds(ps)[j]
    && forall m :: 0 <= m < k ==> ps[m].id in DistinctIds(ps)[..j]
  }

  /** The order is that of first mention. */
  lemma {:induction false} DistinctIdsInOrder(ps: seq<Principal>, j: nat)
    requires j < |DistinctIds(ps)|
    ensures exists k: nat :: FirstMention(ps, j, k)
    decreases |ps|
  {
    var n := |ps| - 1;
    var front, ids := ps[..n], DistinctIds(ps[..n]);
    DistinctIdsAreTheNamed(front);
    if j < |ids| {
      DistinctIdsInOrder(front, j);
      var k: nat :| FirstMention(front, j, k);
      assert DistinctIds(ps)[..j] == ids[..j];
      assert FirstMention(ps, j, k);
    } else {
      assert DistinctIds(ps)[..j] == ids;
      assert forall m :: 0 <= m < n ==> front[m] == ps[m] && front[m] in front;
      assert FirstMention(ps, j, n);
    }
  }

  datatype PrincipalRef = PrincipalRef(id: string, revision: PrincipalRevision)

  predicate AllMatch(ps: seq<Principal>, id: string, principal: Principal) {
    forall p :: p in ps && p.id == id ==> p == principal
  }

  function BindingReason(b: Binding, ps: seq<Principal>, id: string): (reason: Option<Reason>)
    ensures reason != Some(AuditUnavailable)
    ensures reason == Some(PrincipalRebound) <==> exists p :: p in ps && p.id == id && p != b.principal
    ensures reason == Some(PrincipalInactive) <==> (forall p :: p in ps && p.id == id ==> p == b.principal) && !b.active
    ensures reason in {None, Some(PrincipalRebound), Some(PrincipalInactive)}
  {
    if !AllMatch(ps, id, b.principal) then Some(PrincipalRebound)
    else if !b.active then Some(PrincipalInactive)
    else None
  }

  /** Under this id a principal is bound, it is the asserted one, and it is active. */
  predicate Unobjectionable(s: PrincipalState, ps: seq<Principal>, id: string) {
    id in s.bindings && BindingReason(s.bindings[id], ps, id).None?
  }

  ghost predicate NoObjections(s: PrincipalState, ps: seq<Principal>, ids: seq<string>, k: nat, n: nat)
    requires n <= |ids|
  {
    forall j :: k <= j < n ==> Unobjectionable(s, ps, ids[j])
  }

  /** Every asserted principal is the one bound under its id, and active. */
  ghost predicate PrincipalsCurrent(s: PrincipalState, ps: seq<Principal>) {
    forall p :: p in ps ==> p.id in s.bindings && s.bindings[p.id] == Binding(p, true)
  }

  ghost predicate LiveRefs(s: PrincipalState, ids: seq<string>, refs: seq<PrincipalRef>) {
    && |refs| <= |ids|
    && forall k :: 0 <= k < |refs| ==>
         ids[k] in s.bindings && refs[k] == PrincipalRef(ids[k], PrincipalRevision(s.counter, s.bindings[ids[k]]))
  }

  /** No id draws an objection exactly when every asserted principal is current. */
  lemma CurrentIsNoObjection(s: PrincipalState, ps: seq<Principal>)
    ensures PrincipalsCurrent(s, ps) <==> NoObjections(s, ps, DistinctIds(ps), 0, |DistinctIds(ps)|)
  {
    var ids := DistinctIds(ps);
    DistinctIdsAreTheNamed(ps);
    if PrincipalsCurrent(s, ps) {
      forall j | 0 <= j < |ids| ensures Unobjectionable(s, ps, ids[j]) {
        assert ids[j] in ids;
      }
    }
    if NoObjections(s, ps, ids, 0, |ids|) {
      forall p | p in ps
        ensures p.id in s.bindings && s.bindings[p.id] == Binding(p, true)
      {
        assert p.id in ids;
        var j :| 0 <= j < |ids| && ids[j] == p.id;
        assert Unobjectionable(s, ps, ids[j]);
      }
    }
  }

  /** `values` lists, perhaps with repetition, exactly the principals of `ps` with this id. */
  ghost predicate ListsAsserted(ps: seq<Principal>, id: string, values: seq<Principal>) {
    values != [] && forall p :: p in values <==> p in ps && p.id == id
  }

  ghost predicate Gathered(ps: seq<Principal>, order: seq<string>, asserted: map<string, seq<Principal>>) {
    && order == DistinctIds(ps)
    && (forall id :: id in asserted <==> id in order)
    && (forall id :: id in asserted ==> ListsAsserted(ps, id, asserted[id]))
  }

  lemma ListsOneMore(ps: seq<Principal>, id: string, values: seq<Principal>, p: Principal)
    requires ListsAsserted(ps, id, values)
    ensures p.id != id || p in values ==> ListsAsserted(ps + [p], id, values)
    ensures p.id == id ==> ListsAsserted(ps + [p], id, values + [p])
  {
    assert forall q :: q in ps + [p] <==> q in ps || q == p;
    assert forall q :: q in values + [p] <==> q in values || q == p;
  }

  lemma ListsFirst(ps: seq<Principal>, p: Principal)
    requires p.id !in DistinctIds(ps)
    ensures ListsAsserted(ps + [p], p.id, [p])
  {
    DistinctIdsAreTheNamed(ps);
    assert forall q :: q in ps + [p] <==> q in ps || q == p;
  }

  /** The first loop: collect what is asserted under each id. */
  method GatherAsserted(ps: seq<Principal>) returns (order: seq<string>, asserted: map<string, seq<Principal>>)
    ensures Gathered(ps, order, asserted)
  {
    asserted, order := map[], [];
    for n := 0 to |ps|
      invariant Gathered(ps[..n], order, asserted)
    {
      var p := ps[n];
      ghost var seen := ps[..n];
      ghost var before := asserted;
      assert ps[..n + 1] == seen + [p] && (seen + [p])[..n] == seen;
      forall id | id in before
        ensures p.id != id || p in before[id] ==> ListsAsserted(seen + [p], id, before[id])
        ensures p.id == id ==> ListsAsserted(seen + [p], id, before[id] + [p])
      {
        ListsOneMore(seen, id, before[id], p);
      }
      if p.id !in asserted {
        ListsFirst(seen, p);
        order := order + [p.id];
        asserted := asserted[p.id := [p]];
      } else if p !in asserted[p.id] {
        asserted := asserted[p.id := asserted[p.id] + [p]];
      }
    }
    assert ps[..|ps|] == ps;
  }
}
