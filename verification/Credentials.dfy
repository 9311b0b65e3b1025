/**
  Signed capability credentials, the delegation chains built from them, and the
  checks that the verifier makes on a whole chain.
 */
module Credentials {
  import opened Wrappers

  const MAX_DELEGATION_DEPTH: nat := 2
  const VERIFIER_POLICY_VERSION := "capauth-delegated-authz/v1"

  // Clock readings are counted in microseconds, the resolution of the clock.
  const SECOND: nat := 1_000_000
  const MAX_TTL_SECONDS: nat := 3600

  datatype Principal = Principal(id: string, subject: string, kind: string)

  datatype Scope = Scope(
    audience: string,
    target: string,
    capability: string,
    operation: string,
    resourceType: string,
    resourceId: Option<string>,
    constraints: set<string>)

  /** A parsed credential: the signed claims, their validity window and the signature text. */
  datatype Credential = Credential(
    issuer: string,
    policyVersion: string,
    nonce: nat,
    principal: Principal,
    scope: Scope,
    depth: int,
    maxDepth: int,
    parent: Option<Digest>,
    issuedAt: int,
    notBefore: int,
    expiresAt: int,
    signature: string)

  /**
    The collision-free digest of a credential. A 64-digit string that is the
    digest of no credential can still be written into a parent field or revoked.
   */
  datatype Digest = DigestOf(credential: Credential) | Unmatched(hex: string)

  datatype Request = Request(principal: Principal, scope: Scope)

  datatype Reason =
    | MissingCredential
    | MalformedCredential
    | UnsignedCredential
    | InvalidSignature
    | UntrustedIssuer
    | PolicyMismatch
    | BackendUnavailable
    | PrincipalUnbound
    | PrincipalInactive
    | PrincipalRebound
    | Expired
    | AncestorExpired
    | NotYetValid
    | TtlExceeded
    | Revoked
    | AncestorRevoked
    | Replayed
    | WrongPrincipal
    | WrongScope
    | OverDelegated
    | DelegationChainInvalid
    | AuditUnavailable
    | CurrentStateChanged

  datatype IssuerGrant = IssuerGrant(
    capabilities: set<string>, audiences: set<string>, principalKinds: set<string>)

  /** The trusted-issuer snapshot. Fingerprints are unique, so the grants form a map. */
  datatype IssuerPolicy = IssuerPolicy(version: string, grants: map<string, IssuerGrant>)

  /** What parsing guarantees of every credential it returns. */
  predicate WellFormed(c: Credential) {
    && 0 <= c.depth <= c.maxDepth <= MAX_DELEGATION_DEPTH
    && (c.depth == 0 <==> c.parent.None?)
    && c.policyVersion == VERIFIER_POLICY_VERSION
  }

  // ---------------------------------------------------------------------------
  // Attenuation between a parent and its child
  // ---------------------------------------------------------------------------

  predicate SameInvocation(parent: Scope, child: Scope) {
    && parent.audience == child.audience
    && parent.target == child.target
    && parent.capability == child.capability
    && parent.operation == child.operation
    && parent.resourceType == child.resourceType
  }

  predicate ScopeIsMonotonic(parent: Scope, child: Scope) {
    && SameInvocation(parent, child)
    && (parent.resourceId.Some? ==> child.resourceId == parent.resourceId)
    && parent.constraints <= child.constraints
  }

  predicate IsMonotonic(parent: Credential, child: Credential) {
    && child.depth == parent.depth + 1
    && child.maxDepth <= parent.maxDepth
    && parent.depth < parent.maxDepth
    && ScopeIsMonotonic(parent.scope, child.scope)
  }

  // ---------------------------------------------------------------------------
  // The verifier's checks, link by link
  // ---------------------------------------------------------------------------

  /** The first objection to the validity window of link `i`, if any. */
  function LinkTimeReason(chain: seq<Credential>, i: nat, now: int): Option<Reason>
    requires i < |chain|
  {
    var c := chain[i];
    if c.expiresAt <= now then
      Some(if i == |chain| - 1 then Expired else AncestorExpired)
    else if c.notBefore > now || c.issuedAt > now then Some(NotYetValid)
    else if c.expiresAt - c.issuedAt > MAX_TTL_SECONDS * SECOND then Some(TtlExceeded)
    else if i > 0 && c.expiresAt > chain[i - 1].expiresAt then Some(OverDelegated)
    else None
  }

  predicate Covers(policy: IssuerPolicy, c: Credential) {
    && c.issuer in policy.grants
    && c.scope.capability in policy.grants[c.issuer].capabilities
    && c.scope.audience in policy.grants[c.issuer].audiences
    && c.principal.kind in policy.grants[c.issuer].principalKinds
  }

  /** The first objection to the authority and lineage of link `i`, if any. */
  function LinkReason(chain: seq<Credential>, i: nat, policy: IssuerPolicy): Option<Reason>
    requires i < |chain|
  {
    var c := chain[i];
    if !Covers(policy, c) then Some(UntrustedIssuer)
    else if c.policyVersion != VERIFIER_POLICY_VERSION then Some(PolicyMismatch)
    else if c.depth != i then Some(DelegationChainInvalid)
    else if i == 0 then (if c.parent.Some? then Some(DelegationChainInvalid) else None)
    else if c.parent != Some(DigestOf(chain[i - 1])) then Some(DelegationChainInvalid)
    else if !IsMonotonic(chain[i - 1], c) then Some(OverDelegated)
    else None
  }

  /** The objection raised by the first offending link at or after `i`. */
  function TimeReasonFrom(chain: seq<Credential>, i: nat, now: int): (r: Option<Reason>)
    requires i <= |chain|
    ensures r.None? <==> forall k :: i <= k < |chain| ==> LinkTimeReason(chain, k, now).None?
    ensures r != Some(AuditUnavailable)
    decreases |chain| - i
  {
    if i == |chain| then None
    else if LinkTimeReason(chain, i, now).Some? then LinkTimeReason(chain, i, now)
    else TimeReasonFrom(chain, i + 1, now)
  }

  function LineageReasonFrom(chain: seq<Credential>, i: nat, policy: IssuerPolicy): (r: Option<Reason>)
    requires i <= |chain|
    ensures r.None? <==> forall k :: i <= k < |chain| ==> LinkReason(chain, k, policy).None?
    ensures r != Some(AuditUnavailable)
    decreases |chain| - i
  {
    if i == |chain| then None
    else if LinkReason(chain, i, policy).Some? then LinkReason(chain, i, policy)
    else LineageReasonFrom(chain, i + 1, policy)
  }

  function ChainTimeReason(chain: seq<Credential>, now: int): Option<Reason> {
    TimeReasonFrom(chain, 0, now)
  }

  function ChainReason(chain: seq<Credential>, policy: IssuerPolicy, now: int): Option<Reason> {
    if !(1 <= |chain| <= MAX_DELEGATION_DEPTH + 1) then Some(DelegationChainInvalid)
    else if ChainTimeReason(chain, now).Some? then ChainTimeReason(chain, now)
    else LineageReasonFrom(chain, 0, policy)
  }

  /** The verifier's loop over the validity windows, with its single clock reading. */
  method ValidateChainTime(chain: seq<Credential>, now: int) returns (reason: Option<Reason>)
    ensures reason == ChainTimeReason(chain, now)
  {
    for index := 0 to |chain|
      invariant ChainTimeReason(chain, now) == TimeReasonFrom(chain, index, now)
    {
      var item := chain[index];
      if item.expiresAt <= now {
        if index == |chain| - 1 {
          return Some(Expired);
        }
        return Some(AncestorExpired);
      }
      if item.notBefore > now || item.issuedAt > now {
        return Some(NotYetValid);
      }
      if item.expiresAt - item.issuedAt > MAX_TTL_SECONDS * SECOND {
        return Some(TtlExceeded);
      }
      if index > 0 && item.expiresAt > chain[index - 1].expiresAt {
        return Some(OverDelegated);
      }
    }
    return None;
  }

  /** The verifier's loop over the links, early exits in source order. */
  method ValidateChain(chain: seq<Credential>, policy: IssuerPolicy, now: int) returns (reason: Option<Reason>)
    ensures reason == ChainReason(chain, policy, now)
  {
    if !(1 <= |chain| <= MAX_DELEGATION_DEPTH + 1) {
      return Some(DelegationChainInvalid);
    }
    var timeReason := ValidateChainTime(chain, now);
    if timeReason.Some? {
      return timeReason;
    }
    for index := 0 to |chain|
      invariant ChainReason(chain, policy, now) == LineageReasonFrom(chain, index, policy)
    {
      var item := chain[index];
      if item.issuer !in policy.grants {
        return Some(UntrustedIssuer);
      }
      var grant := policy.grants[item.issuer];
      if || item.scope.capability !in grant.capabilities
         || item.scope.audience !in grant.audiences
         || item.principal.kind !in grant.principalKinds
      {
        return Some(UntrustedIssuer);
      }
      if item.policyVersion != VERIFIER_POLICY_VERSION {
        return Some(PolicyMismatch);
      }
      if item.depth != index {
        return Some(DelegationChainInvalid);
      }
      if index == 0 {
        if item.parent.Some? {
          return Some(DelegationChainInvalid);
        }
      } else {
        var parent := chain[index - 1];
        if item.parent != Some(DigestOf(parent)) {
          return Some(DelegationChainInvalid);
        }
        if !IsMonotonic(parent, item) {
          return Some(OverDelegated);
        }
      }
    }
    return None;
  }

  // ---------------------------------------------------------------------------
  // What a validated chain is
  // ---------------------------------------------------------------------------

  /** Link `i` names its predecessor and attenuates it. */
  ghost predicate LinkedAt(chain: seq<Credential>, i: nat)
    requires 1 <= i < |chain|
  {
    chain[i].parent == Some(DigestOf(chain[i - 1])) && IsMonotonic(chain[i - 1], chain[i])
  }

  /** Link `i` expires no later than its predecessor. */
  ghost predicate NestedAt(chain: seq<Credential>, i: nat)
    requires 1 <= i < |chain|
  {
    chain[i].expiresAt <= chain[i - 1].expiresAt
  }

  /** The lineage of a chain: positions, digests and attenuation, nothing about time or trust. */
  ghost predicate Linked(chain: seq<Credential>) {
    && |chain| >= 1
    && chain[0].depth == 0 && chain[0].parent.None?
    && (forall i :: 1 <= i < |chain| ==> LinkedAt(chain, i))
  }

  ghost predicate Trusted(chain: seq<Credential>, policy: IssuerPolicy) {
    forall c :: c in chain ==> Covers(policy, c) && c.policyVersion == VERIFIER_POLICY_VERSION
  }

  /** Every link is inside its window, windows are short enough and nest. */
  ghost predicate Timely(chain: seq<Credential>, now: int) {
    && (forall c :: c in chain ==>
          c.issuedAt <= now && c.notBefore <= now < c.expiresAt
          && c.expiresAt - c.issuedAt <= MAX_TTL_SECONDS * SECOND)
    && (forall i :: 1 <= i < |chain| ==> NestedAt(chain, i))
  }

  lemma DepthIsPosition(chain: seq<Credential>, i: nat)
    requires Linked(chain) && i < |chain|
    ensures chain[i].depth == i
  {
    if i > 0 {
      DepthIsPosition(chain, i - 1);
      assert LinkedAt(chain, i);
    }
  }

  lemma TimelyIsNoTimeReason(chain: seq<Credential>, now: int)
    ensures ChainTimeReason(chain, now).None? <==> Timely(chain, now)
  {
    if Timely(chain, now) {
      forall i | 0 <= i < |chain| ensures LinkTimeReason(chain, i, now).None? {
        assert chain[i] in chain;
        assert i > 0 ==> NestedAt(chain, i);
      }
    }
    if ChainTimeReason(chain, now).None? {
      forall i | 0 <= i < |chain|
        ensures chain[i].issuedAt <= now && chain[i].notBefore <= now < chain[i].expiresAt
        ensures chain[i].expiresAt - chain[i].issuedAt <= MAX_TTL_SECONDS * SECOND
        ensures i > 0 ==> NestedAt(chain, i)
      {
        assert LinkTimeReason(chain, i, now).None?;
      }
    }
  }

  lemma LinkedIsNoLineageReason(chain: seq<Credential>, policy: IssuerPolicy)
    requires |chain| >= 1
    ensures LineageReasonFrom(chain, 0, policy).None? <==> Linked(chain) && Trusted(chain, policy)
  {
    if Linked(chain) && Trusted(chain, policy) {
      forall i | 0 <= i < |chain| ensures LinkReason(chain, i, policy).None? {
        DepthIsPosition(chain, i);
        assert chain[i] in chain;
        assert i > 0 ==> LinkedAt(chain, i);
      }
    }
    if LineageReasonFrom(chain, 0, policy).None? {
      assert LinkReason(chain, 0, policy).None?;
      forall i | 1 <= i < |chain| ensures LinkedAt(chain, i) {
        assert LinkReason(chain, i, policy).None?;
      }
      forall i | 0 <= i < |chain|
        ensures Covers(policy, chain[i]) && chain[i].policyVersion == VERIFIER_POLICY_VERSION
      {
        assert LinkReason(chain, i, policy).None?;
      }
    }
  }

  /** The loop's verdict, said without a loop: what acceptance by the verifier means. */
  lemma AcceptedChain(chain: seq<Credential>, policy: IssuerPolicy, now: int)
    ensures ChainReason(chain, policy, now).None? <==>
            && 1 <= |chain| <= 3
            && Linked(chain) && Trusted(chain, policy) && Timely(chain, now)
  {
    TimelyIsNoTimeReason(chain, now);
    if |chain| >= 1 {
      LinkedIsNoLineageReason(chain, policy);
    }
  }

  // ---------------------------------------------------------------------------
  // The same field by field
  // ---------------------------------------------------------------------------

  /** Link `i` by itself: in place, of the right version, issued by one trusted for it, and within its window. */
  ghost predicate LinkStands(chain: seq<Credential>, i: nat, policy: IssuerPolicy, now: int)
    requires i < |chain|
  {
    var c := chain[i];
    && c.depth == i && c.policyVersion == "capauth-delegated-authz/v1"
    && c.issuer in policy.grants
    && c.scope.capability in policy.grants[c.issuer].capabilities
    && c.scope.audience in policy.grants[c.issuer].audiences
    && c.principal.kind in policy.grants[c.issuer].principalKinds
    && c.issuedAt <= now && c.notBefore <= now < c.expiresAt
    && c.expiresAt - c.issuedAt <= 3600 * 1_000_000
  }

  /** What `c` may have that was delegated under `parent`: no more in any field. */
  ghost predicate Narrower(parent: Credential, c: Credential) {
    && parent.depth < parent.maxDepth && c.depth == parent.depth + 1 && c.maxDepth <= parent.maxDepth
    && c.scope.audience == parent.scope.audience && c.scope.target == parent.scope.target
    && c.scope.capability == parent.scope.capability && c.scope.operation == parent.scope.operation
    && c.scope.resourceType == parent.scope.resourceType
    && (parent.scope.resourceId.Some? ==> c.scope.resourceId == parent.scope.resourceId)
    && parent.scope.constraints <= c.scope.constraints
  }

  /** Link `i` against its predecessor: it names it, takes nothing more than it was given, and no longer. */
  ghost predicate LinkFollows(chain: seq<Credential>, i: nat)
    requires 1 <= i < |chain|
  {
    var parent, c := chain[i - 1], chain[i];
    c.parent == Some(DigestOf(parent)) && Narrower(parent, c) && c.expiresAt <= parent.expiresAt
  }

  /** Exactly which chains the verifier accepts. */
  lemma AcceptedInFields(chain: seq<Credential>, policy: IssuerPolicy, now: int)
    ensures ChainReason(chain, policy, now).None? <==>
            && 1 <= |chain| <= 3 && chain[0].parent.None?
            && (forall i :: 0 <= i < |chain| ==> LinkStands(chain, i, policy, now))
            && (forall i :: 1 <= i < |chain| ==> LinkFollows(chain, i))
  {
    if 1 <= |chain| {
      forall i | 0 <= i < |chain|
        ensures LinkTimeReason(chain, i, now).None? && LinkReason(chain, i, policy).None? <==>
                && LinkStands(chain, i, policy, now)
                && (if i == 0 then chain[0].parent.None? else LinkFollows(chain, i))
      {
        LinkInFields(chain, i, policy, now);
      }
    }
  }

  lemma LinkInFields(chain: seq<Credential>, i: nat, policy: IssuerPolicy, now: int)
    requires i < |chain|
    ensures LinkTimeReason(chain, i, now).None? && LinkReason(chain, i, policy).None? <==>
            && LinkStands(chain, i, policy, now)
            && (if i == 0 then chain[0].parent.None? else LinkFollows(chain, i))
  {
  }

  /** Exactly which objection to a link's window comes first. */
  lemma LinkTimeReasonIs(chain: seq<Credential>, i: nat, now: int)
    requires i < |chain|
    ensures var c, reason := chain[i], LinkTimeReason(chain, i, now);
            var current, begun := now < c.expiresAt, c.issuedAt <= now && c.notBefore <= now;
            var short := c.expiresAt - c.issuedAt <= 3600 * 1_000_000;
            && (reason == Some(Expired) <==> !current && i == |chain| - 1)
            && (reason == Some(AncestorExpired) <==> !current && i < |chain| - 1)
            && (reason == Some(NotYetValid) <==> current && !begun)
            && (reason == Some(TtlExceeded) <==> current && begun && !short)
            && (reason == Some(OverDelegated) <==>
                current && begun && short && i > 0 && c.expiresAt > chain[i - 1].expiresAt)
            && reason in {None, Some(Expired), Some(AncestorExpired), Some(NotYetValid), Some(TtlExceeded),
                          Some(OverDelegated)}
  {
  }

  /** Exactly which objection to a link's authority and lineage comes first. */
  lemma LinkReasonIs(chain: seq<Credential>, i: nat, policy: IssuerPolicy)
    requires i < |chain|
    ensures var c, reason := chain[i], LinkReason(chain, i, policy);
            var trusted :=
              && c.issuer in policy.grants
              && c.scope.capability in policy.grants[c.issuer].capabilities
              && c.scope.audience in policy.grants[c.issuer].audiences
              && c.principal.kind in policy.grants[c.issuer].principalKinds;
            var current := c.policyVersion == "capauth-delegated-authz/v1";
            var placed := c.depth == i && c.parent == if i == 0 then None else Some(DigestOf(chain[i - 1]));
            && (reason == Some(UntrustedIssuer) <==> !trusted)
            && (reason == Some(PolicyMismatch) <==> trusted && !current)
            && (reason == Some(DelegationChainInvalid) <==> trusted && current && !placed)
            && (reason == Some(OverDelegated) <==>
                trusted && current && placed && i > 0 && !Narrower(chain[i - 1], c))
            && reason in {None, Some(UntrustedIssuer), Some(PolicyMismatch), Some(DelegationChainInvalid),
                          Some(OverDelegated)}
  {
  }

  /** Link `k` is the first to which there is an objection of this kind. */
  ghost predicate FirstAt(objection: int -> Option<Reason>, n: nat, k: nat, reason: Reason) {
    k < n && objection(k) == Some(reason) && forall j :: 0 <= j < k ==> objection(j).None?
  }

  ghost function TimeObjections(chain: seq<Credential>, now: int): int -> Option<Reason> {
    j => if 0 <= j < |chain| then LinkTimeReason(chain, j, now) else None
  }

  ghost function LineageObjections(chain: seq<Credential>, policy: IssuerPolicy): int -> Option<Reason> {
    j => if 0 <= j < |chain| then LinkReason(chain, j, policy) else None
  }

  lemma {:induction false} TimeReasonIsFirst(chain: seq<Credential>, i: nat, now: int, reason: Reason)
    requires i <= |chain| && TimeReasonFrom(chain, i, now) == Some(reason)
    requires forall j :: 0 <= j < i ==> TimeObjections(chain, now)(j).None?
    ensures exists k :: FirstAt(TimeObjections(chain, now), |chain|, k, reason)
    decreases |chain| - i
  {
    hide LinkTimeReason;
    if i < |chain| {
      if LinkTimeReason(chain, i, now).Some? {
        assert FirstAt(TimeObjections(chain, now), |chain|, i, reason);
      } else {
        TimeReasonIsFirst(chain, i + 1, now, reason);
      }
    }
  }

  lemma {:induction false} LineageReasonIsFirst(chain: seq<Credential>, i: nat, policy: IssuerPolicy, reason: Reason)
    requires i <= |chain| && LineageReasonFrom(chain, i, policy) == Some(reason)
    requires forall j :: 0 <= j < i ==> LineageObjections(chain, policy)(j).None?
    ensures exists k :: FirstAt(LineageObjections(chain, policy), |chain|, k, reason)
    decreases |chain| - i
  {
    hide LinkReason;
    if i < |chain| {
      if LinkReason(chain, i, policy).Some? {
        assert FirstAt(LineageObjections(chain, policy), |chain|, i, reason);
      } else {
        LineageReasonIsFirst(chain, i + 1, policy, reason);
      }
    }
  }

  /** The reason of a refused chain: its length, or the first bad window, or if there is none the first bad link. */
  lemma ChainReasonIsTheFirst(chain: seq<Credential>, policy: IssuerPolicy, now: int)
    requires ChainReason(chain, policy, now).Some?
    ensures var reason := ChainReason(chain, policy, now).value;
            if !(1 <= |chain| <= 3) then reason == DelegationChainInvalid
            else
              || (exists k :: FirstAt(TimeObjections(chain, now), |chain|, k, reason))
              || ((forall j :: 0 <= j < |chain| ==> LinkTimeReason(chain, j, now).None?)
                  && exists k :: FirstAt(LineageObjections(chain, policy), |chain|, k, reason))
  {
    hide LinkReason, LinkTimeReason;
    if 1 <= |chain| <= 3 {
      if ChainTimeReason(chain, now).Some? {
        TimeReasonIsFirst(chain, 0, now, ChainTimeReason(chain, now).value);
      } else {
        LineageReasonIsFirst(chain, 0, policy, ChainReason(chain, policy, now).value);
      }
    }
  }

  // ---------------------------------------------------------------------------
  // From links to the whole chain
  // ---------------------------------------------------------------------------

  /** Authority only shrinks between any two positions of an accepted chain, not just neighbours. */
  lemma {:induction false} WholeChainAttenuation(
      chain: seq<Credential>, policy: IssuerPolicy, now: int, i: nat, j: nat)
    requires forall c :: c in chain ==> WellFormed(c)
    requires ChainReason(chain, policy, now).None?
    requires i <= j < |chain|
    ensures chain[j].depth == j && j <= chain[j].maxDepth <= chain[i].maxDepth
    ensures chain[j].scope.audience == chain[i].scope.audience && chain[j].scope.target == chain[i].scope.target
    ensures chain[j].scope.capability == chain[i].scope.capability
    ensures chain[j].scope.operation == chain[i].scope.operation
    ensures chain[j].scope.resourceType == chain[i].scope.resourceType
    ensures chain[i].scope.resourceId.Some? ==> chain[j].scope.resourceId == chain[i].scope.resourceId
    ensures chain[i].scope.constraints <= chain[j].scope.constraints
    ensures chain[j].expiresAt <= chain[i].expiresAt
    ensures i < j ==> i < chain[i].maxDepth
    decreases j - i
  {
    AcceptedChain(chain, policy, now);
    DepthIsPosition(chain, i);
    DepthIsPosition(chain, j);
    assert WellFormed(chain[j]);
    if i < j {
      WholeChainAttenuation(chain, policy, now, i, j - 1);
      assert LinkedAt(chain, j) && NestedAt(chain, j);
    }
  }

  /** The lineage a credential names, root first, or None when it names a digest of nothing. */
  ghost function LineageOf(leaf: Credential): Option<seq<Credential>>
    decreases leaf
  {
    match leaf.parent
    case None => Some([leaf])
    case Some(Unmatched(_)) => None
    case Some(DigestOf(parent)) =>
      match LineageOf(parent)
      case None => None
      case Some(ancestors) => Some(ancestors + [leaf])
  }

  lemma {:induction false} LinkedIsLineage(chain: seq<Credential>)
    requires Linked(chain)
    ensures LineageOf(chain[|chain| - 1]) == Some(chain)
    decreases |chain|
  {
    if |chain| > 1 {
      var front := chain[..|chain| - 1];
      forall i | 1 <= i < |front| ensures LinkedAt(front, i) {
        assert LinkedAt(chain, i);
      }
      LinkedIsLineage(front);
      assert LinkedAt(chain, |chain| - 1);
      assert chain == front + [chain[|chain| - 1]];
    } else {
      assert chain == [chain[0]];
    }
  }

  /** Two accepted chains with the same leaf are the same chain. */
  lemma LeafDeterminesChain(
      chain1: seq<Credential>, policy1: IssuerPolicy, now1: int,
      chain2: seq<Credential>, policy2: IssuerPolicy, now2: int)
    requires ChainReason(chain1, policy1, now1).None?
    requires ChainReason(chain2, policy2, now2).None?
    requires chain1[|chain1| - 1] == chain2[|chain2| - 1]
    ensures chain1 == chain2
  {
    AcceptedChain(chain1, policy1, now1);
    AcceptedChain(chain2, policy2, now2);
    LinkedIsLineage(chain1);
    LinkedIsLineage(chain2);
  }

  /** `d` is the digest of the credential itself or of something it descends from. */
  ghost predicate DescendsFrom(leaf: Credential, d: Digest)
    decreases leaf
  {
    || DigestOf(leaf) == d
    || match leaf.parent
       case None => false
       case Some(Unmatched(_)) => leaf.parent.value == d
       case Some(DigestOf(parent)) => DescendsFrom(parent, d)
  }

  /** The digests shown by a linked chain are exactly those its leaf descends from. */
  lemma {:induction false} ChainShowsAncestry(chain: seq<Credential>, d: Digest)
    requires Linked(chain)
    ensures DescendsFrom(chain[|chain| - 1], d) <==> exists c :: c in chain && DigestOf(c) == d
    decreases |chain|
  {
    var leaf := chain[|chain| - 1];
    if |chain| > 1 {
      var front := chain[..|chain| - 1];
      forall i | 1 <= i < |front| ensures LinkedAt(front, i) {
        assert LinkedAt(chain, i);
      }
      ChainShowsAncestry(front, d);
      assert LinkedAt(chain, |chain| - 1);
      assert chain == front + [leaf];
    }
  }
}
