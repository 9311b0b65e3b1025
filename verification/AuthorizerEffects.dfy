/**
  What an allow means and what the events do to it, in the fields of credentials and backends: a clock
  that moves on, a revocation, a changed principal and a changed issuer policy all tell on every call
  that begins later.
 */
module AuthorizerEffects {
  import opened Wrappers
  import opened Credentials
  import opened Issuance
  import opened Backends
  import opened Authorizer
  import opened AuthorizerSafety
  import opened AuthorizerRuns

  // ---------------------------------------------------------------------------
  // What an allow means
  // ---------------------------------------------------------------------------

  /** Of one link: signed by one who could, not revoked, and its principal bound as named and active. */
  ghost predicate LinkIsLive(at: Shared, c: Credential) {
    && c.signature != "" && c in at.minted && DigestOf(c) !in at.revocations.revoked
    && c.principal.id in at.principals.bindings
    && at.principals.bindings[c.principal.id].principal == c.principal
    && at.principals.bindings[c.principal.id].active
  }

  /** Everything that makes an allow right, field by field. */
  ghost predicate RightlyAllowed(at: Shared, chain: seq<Credential>, request: Request) {
    && at.issuers.policy.version == "capauth-delegated-authz/v1"
    && 1 <= |chain| <= 3 && chain[0].parent.None?
    && (forall i :: 0 <= i < |chain| ==>
          LinkStands(chain, i, at.issuers.policy, at.now) && LinkIsLive(at, chain[i]))
    && (forall i :: 1 <= i < |chain| ==> LinkFollows(chain, i))
    && chain[|chain| - 1].principal == request.principal && chain[|chain| - 1].scope == request.scope
  }

  lemma PrincipalsInFields(s: PrincipalState, chain: seq<Credential>, request: Request)
    ensures PrincipalsCurrent(s, Asserted(chain, request)) <==>
            && request.principal.id in s.bindings
            && s.bindings[request.principal.id] == Binding(request.principal, true)
            && (forall c :: c in chain ==>
                  c.principal.id in s.bindings && s.bindings[c.principal.id] == Binding(c.principal, true))
  {
    forall p
      ensures p in Asserted(chain, request) <==> p == request.principal || exists c :: c in chain && c.principal == p
    {
      AssertedAreNamed(chain, request, p);
    }
  }

  /** The condition that the authorizer establishes is this one. */
  lemma JustifiedIsRight(at: Shared, chain: seq<Credential>, request: Request)
    ensures chain != [] && Justified(at, chain, request) <==> RightlyAllowed(at, chain, request)
  {
    AcceptedInFields(chain, at.issuers.policy, at.now);
    PrincipalsInFields(at.principals, chain, request);
    hide ChainReason, PrincipalsCurrent, LinkStands, LinkFollows, Asserted;
    if chain != [] && Justified(at, chain, request) {
      forall i | 0 <= i < |chain| ensures LinkIsLive(at, chain[i]) {
        assert chain[i] in chain && DigestOf(chain[i]) in Digests(chain);
      }
    }
    if RightlyAllowed(at, chain, request) {
      forall c | c in chain ensures LinkIsLive(at, c) {
        var i :| 0 <= i < |chain| && chain[i] == c;
      }
      assert chain[|chain| - 1] in chain;
    }
  }

  /** Event `k` wrote the audit record of call `i`, and was right to. */
  ghost predicate RightlyRecorded(s: State, events: seq<Event>, i: nat, k: nat)
    requires i < |Run(s, events).calls| && k < |events|
  {
    var c := Run(s, events).calls[i];
    events[k].Advance? && events[k].call == i && i < |Run(s, events[..k]).calls|
    && RightlyAllowed(Run(s, events[..k]).shared, c.chain, c.request)
  }

  lemma AllowIsRight(s: State, events: seq<Event>, i: nat)
    requires Init(s) && i < |Run(s, events).calls| && Allowed(Run(s, events).calls[i])
    ensures exists k :: 0 <= k < |events| && RightlyRecorded(s, events, i, k)
  {
    hide Run, Apply, RightlyAllowed, Justified, EvidenceIsLive;
    var c := Run(s, events).calls[i];
    AllowIsTrueAtItsAuditRecord(s, events, i);
    var k :| 0 <= k < |events| && WasTrueAt(s, events, i, k);
    AllowedHasChain(s, events, i);
    JustifiedIsRight(Run(s, events[..k]).shared, c.chain, c.request);
    assert RightlyRecorded(s, events, i, k);
  }

  lemma AllowedHasChain(s: State, events: seq<Event>, i: nat)
    requires Init(s) && i < |Run(s, events).calls| && Allowed(Run(s, events).calls[i])
    ensures Run(s, events).calls[i].chain != []
  {
    hide Run;
    RunKeepsInv(s, events);
    assert CallInv(Run(s, events).shared, Run(s, events).calls[i]);
  }

  /** A call that begins after the first `n` events is recorded after them. */
  lemma RecordedAfter(s: State, events: seq<Event>, n: nat, i: nat) returns (k: nat)
    requires Init(s) && n <= |events|
    requires |Run(s, events[..n]).calls| <= i < |Run(s, events).calls| && Allowed(Run(s, events).calls[i])
    ensures n <= k < |events| && RightlyRecorded(s, events, i, k)
  {
    hide Run, Apply, RightlyAllowed;
    AllowIsRight(s, events, i);
    k :| 0 <= k < |events| && RightlyRecorded(s, events, i, k);
    if k < n {
      RevokedStays(s, events, k, n);
      assert false;
    }
  }

  // ---------------------------------------------------------------------------
  // The clock
  // ---------------------------------------------------------------------------

  /** How much time the ticks of a run add up to. */
  function Elapsed(events: seq<Event>): nat {
    if events == [] then 0
    else
      var e := events[|events| - 1];
      Elapsed(events[..|events| - 1]) + if e.Tick? then e.elapsed else 0
  }

  lemma ApplyMovesClock(s: State, e: Event)
    ensures Apply(s, e).shared.now == s.shared.now + if e.Tick? then e.elapsed else 0
  {
    hide ReadStep;
  }

  lemma {:induction false} ClockIsTicks(s: State, events: seq<Event>)
    ensures Run(s, events).shared.now == s.shared.now + Elapsed(events)
    decreases |events|
  {
    hide Apply;
    if events != [] {
      ClockIsTicks(s, events[..|events| - 1]);
      ApplyMovesClock(Run(s, events[..|events| - 1]), events[|events| - 1]);
    }
  }

  lemma {:induction false} ElapsedGrows(events: seq<Event>, k: nat)
    requires k <= |events|
    ensures Elapsed(events[..k]) <= Elapsed(events)
    decreases |events|
  {
    if k < |events| {
      ElapsedGrows(events[..|events| - 1], k);
      assert events[..|events| - 1][..k] == events[..k];
    } else {
      assert events[..k] == events;
    }
  }

  /** Once the ticks have passed the expiry of a credential, no call that begins later is allowed on or below it. */
  lemma ExpiredIsNeverAllowed(s: State, events: seq<Event>, n: nat, i: nat, c: Credential)
    requires Init(s) && n <= |events| && s.shared.now + Elapsed(events[..n]) >= c.expiresAt
    requires |Run(s, events[..n]).calls| <= i < |Run(s, events).calls| && Allowed(Run(s, events).calls[i])
    ensures c !in Run(s, events).calls[i].chain
  {
    hide Run, Apply, LinkIsLive, LinkFollows;
    var k := RecordedAfter(s, events, n, i);
    var chain := Run(s, events).calls[i].chain;
    ClockIsTicks(s, events[..k]);
    ElapsedGrows(events[..k], n);
    assert events[..k][..n] == events[..n];
    forall j | 0 <= j < |chain| ensures chain[j] != c {
      assert LinkStands(chain, j, Run(s, events[..k]).shared.issuers.policy, Run(s, events[..k]).shared.now);
    }
  }

  // ---------------------------------------------------------------------------
  // Revocation
  // ---------------------------------------------------------------------------

  /** The event revokes: what it names is in the revoked set from then on. */
  lemma RevokeRevokes(s: State, events: seq<Event>, n: nat, d: Digest)
    requires n < |events| && events[n] == Revoke(d)
    ensures d in Run(s, events[..n + 1]).shared.revocations.revoked
  {
    RunSnoc(s, events[..n], events[n]);
    assert events[..n] + [events[n]] == events[..n + 1];
  }

  /**
    After a revocation, no call that begins later is ever allowed on what was revoked or on anything that
    descends from it.
   */
  lemma RevokedIsNeverAllowed(s: State, events: seq<Event>, n: nat, i: nat, d: Digest)
    requires Init(s) && n < |events| && events[n] == Revoke(d)
    requires |Run(s, events[..n + 1]).calls| <= i < |Run(s, events).calls| && Allowed(Run(s, events).calls[i])
    ensures var chain := Run(s, events).calls[i].chain;
            chain != [] && !DescendsFrom(chain[|chain| - 1], d) && forall c :: c in chain ==> DigestOf(c) != d
  {
    hide Run, Apply;
    RevokeRevokes(s, events, n, d);
    RevocationIsPermanentAndCascades(s, events, n + 1, i, d);
    var k := RecordedAfter(s, events, n + 1, i);
    RevokedStays(s, events, n + 1, k);
    var chain, at := Run(s, events).calls[i].chain, Run(s, events[..k]).shared;
    hide LinkStands, LinkFollows;
    forall c | c in chain ensures DigestOf(c) != d {
      var j :| 0 <= j < |chain| && chain[j] == c;
      assert LinkIsLive(at, chain[j]);
    }
  }

  // ---------------------------------------------------------------------------
  // Principals
  // ---------------------------------------------------------------------------

  /** The event changes what is bound under this id. */
  predicate Rebinds(e: Event, id: string) {
    (e.SetPrincipal? && e.principal.id == id) || (e.RemovePrincipal? && e.id == id)
  }

  /** From position `n` on, nothing is bound or unbound under this id. */
  ghost predicate Unbothered(events: seq<Event>, n: nat, id: string) {
    forall k :: n <= k < |events| ==> !Rebinds(events[k], id)
  }

  /** What is bound under an id. */
  function BoundUnder(sh: Shared, id: string): Option<Binding> {
    if id in sh.principals.bindings then Some(sh.principals.bindings[id]) else None
  }

  lemma ApplyKeepsBinding(s: State, e: Event, id: string)
    requires !Rebinds(e, id)
    ensures BoundUnder(Apply(s, e).shared, id) == BoundUnder(s.shared, id)
  {
    hide ReadStep;
  }

  lemma {:induction false} BindingStays(s: State, events: seq<Event>, n: nat, k: nat, id: string)
    requires n <= k <= |events| && Unbothered(events, n, id)
    ensures BoundUnder(Run(s, events[..k]).shared, id) == BoundUnder(Run(s, events[..n]).shared, id)
    decreases k
  {
    hide Apply, BoundUnder;
    if n < k {
      BindingStays(s, events, n, k - 1, id);
      RunSnoc(s, events[..k - 1], events[k - 1]);
      assert events[..k - 1] + [events[k - 1]] == events[..k];
      ApplyKeepsBinding(Run(s, events[..k - 1]), events[k - 1], id);
    }
  }

  /** The events bind and unbind. */
  lemma RebindingRebinds(s: State, events: seq<Event>, n: nat)
    requires n < |events|
    ensures var e, after := events[n], Run(s, events[..n + 1]).shared;
            && (e.SetPrincipal? ==> BoundUnder(after, e.principal.id) == Some(Binding(e.principal, e.active)))
            && (e.RemovePrincipal? ==> BoundUnder(after, e.id) == None)
  {
    RunSnoc(s, events[..n], events[n]);
    assert events[..n] + [events[n]] == events[..n + 1];
  }

  /** The principal is the requester, or named by a link of the chain. */
  ghost predicate Names(c: Call, p: Principal) {
    p == c.request.principal || exists x :: x in c.chain && x.principal == p
  }

  lemma NamedIsBound(at: Shared, c: Call, p: Principal)
    requires RightlyAllowed(at, c.chain, c.request) && Names(c, p)
    ensures BoundUnder(at, p.id) == Some(Binding(p, true))
  {
    hide LinkStands, LinkFollows;
    assert LinkIsLive(at, c.chain[|c.chain| - 1]);
    if p != c.request.principal {
      var x :| x in c.chain && x.principal == p;
      var j :| 0 <= j < |c.chain| && c.chain[j] == x;
      assert LinkIsLive(at, c.chain[j]);
    }
  }

  /** An allowed call names only principals that are, under their ids, as the last change left them. */
  lemma AllowedNamesTheBound(s: State, events: seq<Event>, n: nat, i: nat, p: Principal)
    requires Init(s) && n <= |events| && Unbothered(events, n, p.id)
    requires |Run(s, events[..n]).calls| <= i < |Run(s, events).calls| && Allowed(Run(s, events).calls[i])
    requires Names(Run(s, events).calls[i], p)
    ensures BoundUnder(Run(s, events[..n]).shared, p.id) == Some(Binding(p, true))
  {
    hide Run, Apply, RightlyAllowed, Names, BoundUnder;
    var k := RecordedAfter(s, events, n, i);
    NamedIsBound(Run(s, events[..k]).shared, Run(s, events).calls[i], p);
    BindingStays(s, events, n, k, p.id);
  }

  /**
    After a principal was set inactive or removed, no call that begins later is allowed that names the id, until
    it is bound again; and after it was set active, only as it was set.
   */
  lemma UnboundIsNeverAllowed(s: State, events: seq<Event>, n: nat, i: nat, p: Principal)
    requires Init(s) && n < |events| && Rebinds(events[n], p.id) && Unbothered(events, n + 1, p.id)
    requires |Run(s, events[..n + 1]).calls| <= i < |Run(s, events).calls| && Allowed(Run(s, events).calls[i])
    requires Names(Run(s, events).calls[i], p)
    ensures events[n] == SetPrincipal(p, true)
  {
    hide Run, Apply, Names;
    AllowedNamesTheBound(s, events, n + 1, i, p);
    RebindingRebinds(s, events, n);
  }

  // ---------------------------------------------------------------------------
  // Issuers
  // ---------------------------------------------------------------------------

  lemma ApplyKeepsIssuers(s: State, e: Event)
    ensures Apply(s, e).shared.issuers.policy == if e.SetIssuers? then e.policy else s.shared.issuers.policy
  {
    hide ReadStep;
  }

  lemma {:induction false} PolicyStays(s: State, events: seq<Event>, n: nat, k: nat)
    requires n <= k <= |events| && forall j :: n <= j < |events| ==> !events[j].SetIssuers?
    ensures Run(s, events[..k]).shared.issuers.policy == Run(s, events[..n]).shared.issuers.policy
    decreases k
  {
    hide Apply;
    if n < k {
      PolicyStays(s, events, n, k - 1);
      RunSnoc(s, events[..k - 1], events[k - 1]);
      assert events[..k - 1] + [events[k - 1]] == events[..k];
      ApplyKeepsIssuers(Run(s, events[..k - 1]), events[k - 1]);
    }
  }

  /** After a change of issuer policy, every call that begins later is judged by it, until it changes again. */
  lemma NewPolicyDecides(s: State, events: seq<Event>, n: nat, i: nat, policy: IssuerPolicy)
    requires Init(s) && n < |events| && events[n] == SetIssuers(policy)
    requires forall j :: n + 1 <= j < |events| ==> !events[j].SetIssuers?
    requires |Run(s, events[..n + 1]).calls| <= i < |Run(s, events).calls| && Allowed(Run(s, events).calls[i])
    ensures policy.version == "capauth-delegated-authz/v1"
    ensures forall c :: c in Run(s, events).calls[i].chain ==>
              && c.issuer in policy.grants
              && c.scope.capability in policy.grants[c.issuer].capabilities
              && c.scope.audience in policy.grants[c.issuer].audiences
              && c.principal.kind in policy.grants[c.issuer].principalKinds
  {
    hide Run, Apply, LinkIsLive, LinkFollows;
    var k := RecordedAfter(s, events, n + 1, i);
    PolicyStays(s, events, n + 1, k);
    RunSnoc(s, events[..n], events[n]);
    assert events[..n] + [events[n]] == events[..n + 1];
    ApplyKeepsIssuers(Run(s, events[..n]), events[n]);
    var chain, at := Run(s, events).calls[i].chain, Run(s, events[..k]).shared;
    forall c | c in chain
      ensures c.issuer in policy.grants && c.scope.capability in policy.grants[c.issuer].capabilities
      ensures c.scope.audience in policy.grants[c.issuer].audiences
      ensures c.principal.kind in policy.grants[c.issuer].principalKinds
    {
      var j :| 0 <= j < |chain| && chain[j] == c;
      assert LinkStands(chain, j, at.issuers.policy, at.now);
    }
  }

  // ---------------------------------------------------------------------------
  // Roots and delegation
  // ---------------------------------------------------------------------------

  /** Event `k` issued this root, as asked and at its instant. */
  ghost predicate IssuedBy(s: State, events: seq<Event>, k: nat, c: Credential)
    requires k < |events|
  {
    events[k].MintRoot? && RootAsAsked(c, events[k].seal, events[k].root, Run(s, events[..k]).shared.now)
  }

  /** What an event adds to the minted credentials is a root that it asks for, or below something. */
  lemma MintedByEvent(s: State, e: Event, c: Credential)
    requires c in Apply(s, e).shared.minted && c !in s.shared.minted && c.depth == 0
    ensures e.MintRoot? && RootAsAsked(c, e.seal, e.root, s.shared.now)
  {
    hide ReadStep, IssueRoot, IssueChild, RootAsAsked;
    if e.MintRoot? {
      IssuedRoot(e.seal, e.root, s.shared.now);
    } else if e.Advance? && e.call < |s.calls| && s.calls[e.call].chain != [] {
      var leaf := s.calls[e.call].chain[|s.calls[e.call].chain| - 1];
      if s.calls[e.call].job.Delegate? {
        IssuedChild(e.seal, leaf, s.calls[e.call].job.request, s.shared.now);
      }
    }
  }

  /** Every root was issued by an event, and is what that event asked for. */
  lemma {:induction false} RootWasIssued(s: State, events: seq<Event>, c: Credential)
    requires Init(s) && c in Run(s, events).shared.minted && c.depth == 0
    ensures exists k :: 0 <= k < |events| && IssuedBy(s, events, k, c)
    decreases |events|
  {
    hide Apply, RootAsAsked;
    if events != [] {
      var n := |events| - 1;
      var front := events[..n];
      if c in Run(s, front).shared.minted {
        RootWasIssued(s, front, c);
        var k :| 0 <= k < |front| && IssuedBy(s, front, k, c);
        assert front[..k] == events[..k] && front[k] == events[k];
        assert IssuedBy(s, events, k, c);
      } else {
        MintedByEvent(Run(s, front), events[n], c);
        assert IssuedBy(s, events, n, c);
      }
    }
  }

  /** Whatever is allowed grows from a root that was issued as asked. */
  lemma AllowedRootWasIssued(s: State, events: seq<Event>, i: nat)
    requires Init(s) && i < |Run(s, events).calls| && Allowed(Run(s, events).calls[i])
    ensures var chain := Run(s, events).calls[i].chain;
            chain != [] && exists k :: 0 <= k < |events| && IssuedBy(s, events, k, chain[0])
  {
    hide Run, Apply, IssuedBy;
    AllowedChain(s, events, i);
    RootWasIssued(s, events, Run(s, events).calls[i].chain[0]);
  }

  /** Event `k` began call `j`, to delegate under `parent`. */
  ghost predicate BegunBy(s: State, events: seq<Event>, k: nat, j: nat, c: Call)
    requires k < |events|
  {
    && c.job.Delegate? && |Run(s, events[..k]).calls| == j
    && events[k].BeginDelegate? && events[k].child == c.job.request
    && events[k].parent != [] && (c.chain != [] ==> c.chain == events[k].parent)
    && c.request.principal == events[k].authenticated
    && c.request.scope == events[k].parent[|events[k].parent| - 1].scope
  }

  lemma StepKeepsTask(sh: Shared, id: nat, c: Call, fault: Fault, seal: Seal)
    ensures var c' := Step(sh, id, c, fault, seal).1;
            c'.chain == c.chain && c'.request == c.request && c'.job == c.job
  {
    StepKeepsRequest(sh, id, c, fault, seal);
  }

  lemma ApplyKeepsTask(s: State, e: Event, j: nat)
    requires j < |s.calls|
    ensures j < |Apply(s, e).calls|
    ensures var c, c' := s.calls[j], Apply(s, e).calls[j];
            c'.chain == c.chain && c'.request == c.request && c'.job == c.job
  {
    hide Step;
    if e.Advance? && e.call < |s.calls| {
      StepKeepsTask(s.shared, e.call, s.calls[e.call], e.fault, e.seal);
    }
  }

  lemma NewCallIsBegun(s: State, e: Event)
    requires |Apply(s, e).calls| > |s.calls|
    ensures |Apply(s, e).calls| == |s.calls| + 1
    ensures var c := Apply(s, e).calls[|s.calls|];
            c.job.Delegate? ==>
              && e.BeginDelegate? && e.child == c.job.request
              && e.parent != [] && (c.chain != [] ==> c.chain == e.parent)
              && c.request.principal == e.authenticated && c.request.scope == e.parent[|e.parent| - 1].scope
  {
    hide Step, Parses, MayDelegate, WellFormed;
  }

  /** Every call on behalf of a delegation was begun by one. */
  lemma {:induction false} DelegationWasBegun(s: State, events: seq<Event>, j: nat)
    requires Init(s) && j < |Run(s, events).calls| && Run(s, events).calls[j].job.Delegate?
    ensures exists k :: 0 <= k < |events| && BegunBy(s, events, k, j, Run(s, events).calls[j])
    decreases |events|
  {
    hide Apply;
    if events != [] {
      var n, e := |events| - 1, events[|events| - 1];
      var front := events[..n];
      var before := Run(s, front);
      assert front + [e] == events;
      RunSnoc(s, front, e);
      if j < |before.calls| {
        ApplyKeepsTask(before, e, j);
        DelegationWasBegun(s, front, j);
        var k :| 0 <= k < |front| && BegunBy(s, front, k, j, before.calls[j]);
        assert front[..k] == events[..k] && front[k] == events[k];
        assert BegunBy(s, events, k, j, Run(s, events).calls[j]);
      } else {
        NewCallIsBegun(before, e);
        assert BegunBy(s, events, n, j, Run(s, events).calls[j]);
      }
    }
  }

  /** This delegation, by the principal of the parent itself, asked for `child` and for nothing else. */
  ghost predicate WasDelegated(e: Event, parent: seq<Credential>, child: Credential) {
    && e.BeginDelegate? && e.parent == parent && parent != []
    && e.authenticated == parent[|parent| - 1].principal
    && child.principal == e.child.principal && child.scope == e.child.scope
    && child.expiresAt <= parent[|parent| - 1].expiresAt
    && child.expiresAt <= child.issuedAt + e.child.ttl * 1_000_000
  }

  /**
    Whoever is allowed on a child may do what the delegation asked for, as the principal that it named, and the
    delegation was made by the parent's own principal on exactly the rest of the chain.
   */
  lemma AllowedChildWasDelegated(s: State, events: seq<Event>, i: nat)
    requires Init(s) && i < |Run(s, events).calls| && Allowed(Run(s, events).calls[i])
    requires |Run(s, events).calls[i].chain| > 1
    ensures var c := Run(s, events).calls[i];
            var n := |c.chain| - 1;
            && c.request.principal == c.chain[n].principal && c.request.scope == c.chain[n].scope
            && exists k :: 0 <= k < |events| && WasDelegated(events[k], c.chain[..n], c.chain[n])
  {
    hide Run, Apply, WasDelegated, RightlyRecorded;
    var chain := Run(s, events).calls[i].chain;
    var n := |chain| - 1;
    AllowedIsAsRequested(s, events, i);
    AllowedChain(s, events, i);
    DepthIsPosition(chain, n);
    assert LinkedAt(chain, n) && chain[n] in chain;
    var m := MinterOf(s, events, chain[n - 1], chain[n]);
    MinterWasBegun(s, events, m, chain);
  }

  lemma AllowedIsAsRequested(s: State, events: seq<Event>, i: nat)
    requires Init(s) && i < |Run(s, events).calls| && Allowed(Run(s, events).calls[i])
    ensures var c := Run(s, events).calls[i];
            && c.chain != [] && c.request.principal == c.chain[|c.chain| - 1].principal
            && c.request.scope == c.chain[|c.chain| - 1].scope
  {
    hide Run, Apply, LinkStands, LinkIsLive, LinkFollows;
    AllowIsRight(s, events, i);
    var k :| 0 <= k < |events| && RightlyRecorded(s, events, i, k);
  }

  /** The call that minted the last link began as a delegation under the rest of the chain. */
  lemma MinterWasBegun(s: State, events: seq<Event>, m: nat, chain: seq<Credential>)
    requires Init(s) && |chain| > 1 && Linked(chain)
    requires m < |Run(s, events).calls| && Allowed(Run(s, events).calls[m])
    requires var c := Run(s, events).calls[m];
             c.child == Minted(chain[|chain| - 1]) && c.chain != [] && Leaf(c) == chain[|chain| - 2]
    ensures exists k :: 0 <= k < |events| && WasDelegated(events[k], chain[..|chain| - 1], chain[|chain| - 1])
  {
    hide Run, Apply, Linked, LinkedAt;
    var n, c := |chain| - 1, Run(s, events).calls[m];
    AllowedIsAsRequested(s, events, m);
    AllowedChain(s, events, m);
    SameLeafSameChain(chain[..n], c.chain, chain);
    RunKeepsMintInv(s, events);
    assert ChildInv(c);
    DelegationWasBegun(s, events, m);
    var k :| 0 <= k < |events| && BegunBy(s, events, k, m, c);
    assert WasDelegated(events[k], chain[..n], chain[n]);
  }

  /** The rest of a linked chain is the chain of its last link. */
  lemma SameLeafSameChain(front: seq<Credential>, other: seq<Credential>, chain: seq<Credential>)
    requires |chain| > 1 && front == chain[..|chain| - 1]
    requires Linked(chain) && Linked(other) && other[|other| - 1] == front[|front| - 1]
    ensures front == other
  {
    forall i | 1 <= i < |front| ensures LinkedAt(front, i) {
      assert LinkedAt(chain, i);
    }
    LinkedIsLineage(front);
    LinkedIsLineage(other);
  }
}
