/**
  Issuing root and child credentials, and the agreement between what the issuer
  produces and what the verifier accepts.
 */
module Issuance {
  import opened Wrappers
  import opened Credentials

  datatype IssueError = BadTtl | BadDelegation | AlreadyExpired | SigningFailed

  /** What the issuer draws from outside: its fingerprint, the random nonce and the signer's output. */
  datatype Seal = Seal(issuer: string, nonce: nat, signature: string)

  datatype RootRequest = RootRequest(principal: Principal, scope: Scope, ttl: int, maxDepth: int)

  datatype ChildRequest = ChildRequest(principal: Principal, scope: Scope, ttl: int)

  function Min(a: int, b: int): int { if a <= b then a else b }

  function Issue(seal: Seal, principal: Principal, scope: Scope, depth: int, maxDepth: int,
                 parent: Option<Digest>, ttl: int, now: int, parentExpiresAt: Option<int>)
    : Result<Credential, IssueError>
  {
    if !(1 <= ttl <= MAX_TTL_SECONDS) then Err(BadTtl)
    else
      var own := now + ttl * SECOND;
      var expiresAt := if parentExpiresAt.Some? then Min(own, parentExpiresAt.value) else own;
      if expiresAt <= now then Err(AlreadyExpired)
      else if seal.signature == "" then Err(SigningFailed)
      else Ok(Credential(seal.issuer, VERIFIER_POLICY_VERSION, seal.nonce, principal, scope,
                         depth, maxDepth, parent, now, now, expiresAt, seal.signature))
  }

  function IssueRoot(seal: Seal, r: RootRequest, now: int): Result<Credential, IssueError> {
    if !(0 <= r.maxDepth <= MAX_DELEGATION_DEPTH) then Err(BadDelegation)
    else Issue(seal, r.principal, r.scope, 0, r.maxDepth, None, r.ttl, now, None)
  }

  /** The check a delegating issuer makes before it consumes the parent. */
  predicate MayDelegate(parent: Credential, r: ChildRequest) {
    parent.depth < parent.maxDepth && ScopeIsMonotonic(parent.scope, r.scope)
  }

  function IssueChild(seal: Seal, parent: Credential, r: ChildRequest, now: int): Result<Credential, IssueError> {
    if !(1 <= parent.depth + 1 <= parent.maxDepth <= MAX_DELEGATION_DEPTH) then Err(BadDelegation)
    else Issue(seal, r.principal, r.scope, parent.depth + 1, parent.maxDepth,
               Some(DigestOf(parent)), r.ttl, now, Some(parent.expiresAt))
  }

  // ---------------------------------------------------------------------------
  // What is issued, field by field
  // ---------------------------------------------------------------------------

  /** The broadening check, field by field. */
  lemma MayDelegateInFields(parent: Credential, r: ChildRequest)
    ensures MayDelegate(parent, r) <==>
            && parent.depth < parent.maxDepth
            && r.scope.audience == parent.scope.audience && r.scope.target == parent.scope.target
            && r.scope.capability == parent.scope.capability && r.scope.operation == parent.scope.operation
            && r.scope.resourceType == parent.scope.resourceType
            && (parent.scope.resourceId.Some? ==> r.scope.resourceId == parent.scope.resourceId)
            && parent.scope.constraints <= r.scope.constraints
  {
  }

  /** Sealed by the issuer at this instant, and of the current version. */
  ghost predicate SealedNow(c: Credential, seal: Seal, now: int) {
    && c.issuer == seal.issuer && c.nonce == seal.nonce && c.signature == seal.signature
    && c.policyVersion == "capauth-delegated-authz/v1" && c.issuedAt == now && c.notBefore == now
  }

  /** A root is what was asked for. */
  ghost predicate RootAsAsked(c: Credential, seal: Seal, r: RootRequest, now: int) {
    && SealedNow(c, seal, now)
    && c.principal == r.principal && c.scope == r.scope
    && c.depth == 0 && c.maxDepth == r.maxDepth && c.parent.None?
    && c.expiresAt == now + r.ttl * 1_000_000
  }

  /** A child is what was asked for, one step below its parent, and expires no later than it. */
  ghost predicate ChildAsAsked(c: Credential, seal: Seal, parent: Credential, r: ChildRequest, now: int) {
    && SealedNow(c, seal, now)
    && c.principal == r.principal && c.scope == r.scope
    && c.depth == parent.depth + 1 && c.maxDepth == parent.maxDepth && c.parent == Some(DigestOf(parent))
    && var own := now + r.ttl * 1_000_000;
       c.expiresAt == if own <= parent.expiresAt then own else parent.expiresAt
  }

  /** When a root is issued, which, and otherwise the first objection. */
  lemma IssuedRoot(seal: Seal, r: RootRequest, now: int)
    ensures match IssueRoot(seal, r, now)
            case Ok(c) => RootAsAsked(c, seal, r, now)
            case Err(e) =>
              e == if !(0 <= r.maxDepth <= 2) then BadDelegation
                   else if !(1 <= r.ttl <= 3600) then BadTtl
                   else SigningFailed
    ensures IssueRoot(seal, r, now).Ok? <==>
            0 <= r.maxDepth <= 2 && 1 <= r.ttl <= 3600 && seal.signature != ""
  {
  }

  /** When a child is issued, which, and otherwise the first objection. */
  lemma IssuedChild(seal: Seal, parent: Credential, r: ChildRequest, now: int)
    ensures match IssueChild(seal, parent, r, now)
            case Ok(c) => ChildAsAsked(c, seal, parent, r, now)
            case Err(e) =>
              e == if !(0 <= parent.depth < parent.maxDepth <= 2) then BadDelegation
                   else if !(1 <= r.ttl <= 3600) then BadTtl
                   else if parent.expiresAt <= now then AlreadyExpired
                   else SigningFailed
    ensures IssueChild(seal, parent, r, now).Ok? <==>
            && 0 <= parent.depth < parent.maxDepth <= 2 && 1 <= r.ttl <= 3600
            && now < parent.expiresAt && seal.signature != ""
  {
  }

  // ---------------------------------------------------------------------------
  // Chains that issuance produces
  // ---------------------------------------------------------------------------

  ghost predicate FreshWindow(c: Credential) {
    && c.notBefore == c.issuedAt < c.expiresAt
    && c.expiresAt - c.issuedAt <= MAX_TTL_SECONDS * SECOND
  }

  /** Link `i` was issued no earlier than its predecessor and expires no later. */
  ghost predicate WindowNestsAt(chain: seq<Credential>, i: nat)
    requires 1 <= i < |chain|
  {
    chain[i - 1].issuedAt <= chain[i].issuedAt && NestedAt(chain, i)
  }

  /** Linked, with fresh windows that nest, each link issued no earlier than its parent. */
  ghost predicate WellIssued(chain: seq<Credential>) {
    && Linked(chain)
    && (forall c :: c in chain ==> WellFormed(c) && FreshWindow(c) && c.signature != "")
    && (forall i :: 1 <= i < |chain| ==> WindowNestsAt(chain, i))
  }

  lemma RootIsWellIssued(seal: Seal, r: RootRequest, now: int)
    requires IssueRoot(seal, r, now).Ok?
    ensures WellIssued([IssueRoot(seal, r, now).value])
  {
    var c := IssueRoot(seal, r, now).value;
    assert forall x :: x in [c] ==> x == c;
  }

  lemma ChildIsWellIssued(chain: seq<Credential>, seal: Seal, r: ChildRequest, now: int)
    requires WellIssued(chain)
    requires chain[|chain| - 1].issuedAt <= now
    requires MayDelegate(chain[|chain| - 1], r)
    requires IssueChild(seal, chain[|chain| - 1], r, now).Ok?
    ensures WellIssued(chain + [IssueChild(seal, chain[|chain| - 1], r, now).value])
  {
    var parent := chain[|chain| - 1];
    var child := IssueChild(seal, parent, r, now).value;
    var longer := chain + [child];
    forall i | 1 <= i < |longer| ensures LinkedAt(longer, i) && WindowNestsAt(longer, i) {
      if i < |chain| {
        assert LinkedAt(chain, i) && WindowNestsAt(chain, i);
      }
    }
    forall c | c in longer ensures WellFormed(c) && FreshWindow(c) && c.signature != "" {
      assert c in chain || c == child;
    }
  }

  /** Windows nest from both ends: the leaf was issued last and expires first. */
  lemma {:induction false} LeafWindowIsNarrowest(chain: seq<Credential>, i: nat)
    requires WellIssued(chain) && i < |chain|
    ensures chain[i].issuedAt <= chain[|chain| - 1].issuedAt
    ensures chain[|chain| - 1].expiresAt <= chain[i].expiresAt
    decreases |chain| - i
  {
    if i + 1 < |chain| {
      LeafWindowIsNarrowest(chain, i + 1);
      assert WindowNestsAt(chain, i + 1);
    }
  }

  /** Depth is bounded by the maximum that parsing enforces, so chains stay short. */
  lemma WellIssuedIsShort(chain: seq<Credential>)
    requires WellIssued(chain)
    ensures |chain| <= 3
  {
    DepthIsPosition(chain, |chain| - 1);
    assert WellFormed(chain[|chain| - 1]);
  }

  /**
    Issuer and verifier agree: given grants that cover the links, the verifier accepts an issued
    chain exactly from the instant its leaf was issued until the leaf expires.
   */
  lemma IssuerVerifierAgree(chain: seq<Credential>, policy: IssuerPolicy, now: int)
    requires WellIssued(chain)
    requires forall c :: c in chain ==> Covers(policy, c)
    ensures ChainReason(chain, policy, now).None? <==>
            chain[|chain| - 1].issuedAt <= now < chain[|chain| - 1].expiresAt
  {
    AcceptedChain(chain, policy, now);
    WellIssuedIsShort(chain);
    var leaf := chain[|chain| - 1];
    assert leaf in chain;
    forall i | 1 <= i < |chain| ensures NestedAt(chain, i) {
      assert WindowNestsAt(chain, i);
    }
    if leaf.issuedAt <= now < leaf.expiresAt {
      forall c | c in chain
        ensures c.issuedAt <= now && c.notBefore <= now < c.expiresAt
      {
        var i :| 0 <= i < |chain| && chain[i] == c;
        LeafWindowIsNarrowest(chain, i);
      }
    }
  }

  datatype DelegationStep = DelegationStep(seal: Seal, request: ChildRequest, now: int)

  datatype DelegationFailure = NotIssued(error: IssueError) | WouldBroaden

  /** One `issue_root` followed by a `delegate` for each step, each seeing the chain so far. */
  function BuildChain(seal: Seal, root: RootRequest, now: int, steps: seq<DelegationStep>)
    : (r: Result<seq<Credential>, DelegationFailure>)
    ensures r.Ok? ==> |r.value| == |steps| + 1
  {
    if steps == [] then
      match IssueRoot(seal, root, now)
      case Err(e) => Err(NotIssued(e))
      case Ok(c) => Ok([c])
    else
      var last := steps[|steps| - 1];
      match BuildChain(seal, root, now, steps[..|steps| - 1])
      case Err(e) => Err(e)
      case Ok(chain) =>
        var parent := chain[|chain| - 1];
        if !MayDelegate(parent, last.request) then Err(WouldBroaden)
        else
          match IssueChild(last.seal, parent, last.request, last.now)
          case Err(e) => Err(NotIssued(e))
          case Ok(child) => Ok(chain + [child])
  }

  /** The issuer's clock never runs backwards between the root and the last delegation. */
  ghost predicate ClockRunsForward(now: int, steps: seq<DelegationStep>) {
    && (forall i :: 0 <= i < |steps| ==> now <= steps[i].now)
    && (forall i, j :: 0 <= i < j < |steps| ==> steps[i].now <= steps[j].now)
  }

  lemma {:induction false} BuiltIsWellIssued(seal: Seal, root: RootRequest, now: int, steps: seq<DelegationStep>)
    requires ClockRunsForward(now, steps)
    requires BuildChain(seal, root, now, steps).Ok?
    ensures var chain := BuildChain(seal, root, now, steps).value;
            && WellIssued(chain)
            && chain[|steps|].issuedAt == if steps == [] then now else steps[|steps| - 1].now
    decreases |steps|
  {
    if steps == [] {
      RootIsWellIssued(seal, root, now);
    } else {
      var front := steps[..|steps| - 1];
      var last := steps[|steps| - 1];
      BuiltIsWellIssued(seal, root, now, front);
      var chain := BuildChain(seal, root, now, front).value;
      ChildIsWellIssued(chain, last.seal, last.request, last.now);
    }
  }

  /** Every chain of any length that issuance can build is accepted exactly during its leaf's window. */
  lemma BuiltChainsVerify(seal: Seal, root: RootRequest, start: int, steps: seq<DelegationStep>,
                          policy: IssuerPolicy, now: int)
    requires ClockRunsForward(start, steps)
    requires BuildChain(seal, root, start, steps).Ok?
    requires forall c :: c in BuildChain(seal, root, start, steps).value ==> Covers(policy, c)
    ensures var chain := BuildChain(seal, root, start, steps).value;
            ChainReason(chain, policy, now).None? <==>
            chain[|steps|].issuedAt <= now < chain[|steps|].expiresAt
  {
    BuiltIsWellIssued(seal, root, start, steps);
    IssuerVerifierAgree(BuildChain(seal, root, start, steps).value, policy, now);
  }
}
