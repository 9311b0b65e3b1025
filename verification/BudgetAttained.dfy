/**
  The budget of a root is not an overestimate: a root of maximum depth d does buy d + 1 allowed
  authorizations, one for each of d delegations down a single chain and one for the use of its end.
 */
module BudgetAttained {
  import opened Wrappers
  import opened Credentials
  import opened Issuance
  import opened Backends
  import opened Authorizer
  import opened AuthorizerSafety
  import opened AuthorizerRuns
  import opened Admission
  import opened SequentialAuthorizer
  import opened Counting

  const QUIET: Script := _ => Access(0, Works)

  /** Nothing stands against the root: its issuer is trusted for it, and its principal is bound and active. */
  ghost predicate Welcome(sh: Shared, root: Credential) {
    && sh.issuers.policy.version == VERIFIER_POLICY_VERSION && Covers(sh.issuers.policy, root)
    && root.principal.id in sh.principals.bindings
    && sh.principals.bindings[root.principal.id] == Binding(root.principal, true)
    && sh.revocations.revoked == {}
  }

  /** A link that differs from the root in nothing but its place. */
  ghost predicate Alike(root: Credential, c: Credential) {
    && c.issuer == root.issuer && c.principal == root.principal && c.scope == root.scope
    && c.maxDepth == root.maxDepth && c.signature != "" && c.issuedAt == root.issuedAt
    && c.issuedAt == c.notBefore < c.expiresAt
  }

  ghost predicate ChainInUse(sh: Shared, root: Credential, chain: seq<Credential>) {
    && chain != [] && chain[0] == root && WellIssued(chain) && Parses(chain)
    && (forall c :: c in chain ==> Alike(root, c) && c in sh.minted)
    && sh.now == root.issuedAt
    && (forall d :: d in sh.reservations ==> exists k :: 0 <= k < |chain| - 1 && d == DigestOf(chain[k]))
  }

  ghost predicate AllUnder(calls: seq<Call>, root: Credential) {
    forall i :: 0 <= i < |calls| ==> Allowed(calls[i]) && calls[i].chain != [] && calls[i].chain[0] == root
  }

  ghost predicate Ready(s: State, root: Credential, chain: seq<Credential>) {
    && Welcome(s.shared, root) && ChainInUse(s.shared, root, chain)
    && |s.calls| == |chain| - 1 && AllUnder(s.calls, root)
  }

  lemma ChainIsPrincipals(chain: seq<Credential>, root: Credential, request: Request)
    requires forall c :: c in chain ==> Alike(root, c)
    requires request.principal == root.principal
    ensures forall p :: p in Asserted(chain, request) ==> p == root.principal
  {
    hide Alike;
    if chain != [] {
      var front, last := chain[..|chain| - 1], chain[|chain| - 1];
      assert last in chain && forall c :: c in front ==> c in chain;
      ChainIsPrincipals(front, root, request);
      assert Alike(root, last) ==> last.principal == root.principal by { AlikePrincipal(root, last); }
      assert Asserted(chain, request) == ChainPrincipals(front) + [last.principal] + [request.principal];
      assert forall p :: p in ChainPrincipals(front) ==> p in Asserted(front, request);
    }
  }

  lemma AlikePrincipal(root: Credential, c: Credential)
    requires Alike(root, c)
    ensures c.principal == root.principal
  {
  }

  lemma LeafIsNotReserved(sh: Shared, root: Credential, chain: seq<Credential>)
    requires ChainInUse(sh, root, chain)
    ensures DigestOf(chain[|chain| - 1]) !in sh.reservations
  {
    var n := |chain| - 1;
    DepthIsPosition(chain, n);
    forall k | 0 <= k < n ensures DigestOf(chain[k]) != DigestOf(chain[n]) {
      DepthIsPosition(chain, k);
    }
  }

  lemma ReadyIsAdmissible(sh: Shared, root: Credential, chain: seq<Credential>)
    requires Welcome(sh, root) && ChainInUse(sh, root, chain)
    ensures Admissible(sh, chain, Request(root.principal, root.scope))
  {
    var request := Request(root.principal, root.scope);
    hide Parses;
    forall c | c in chain ensures Covers(sh.issuers.policy, c) {
      assert Alike(root, c);
    }
    assert chain[|chain| - 1] in chain;
    IssuerVerifierAgree(chain, sh.issuers.policy, sh.now);
    ChainIsPrincipals(chain, root, request);
    LeafIsNotReserved(sh, root, chain);
    hide WellIssued, ChainReason;
    assert Alike(root, chain[|chain| - 1]);
  }

  /** A quiet call on the chain is allowed and changes nothing but the reservations and the trail. */
  lemma QuietCallIsAllowed(m: Moment, root: Credential, chain: seq<Credential>, id: nat, job: Job)
    requires Welcome(m.shared, root) && ChainInUse(m.shared, root, chain)
    ensures Runnable(NewCall(Chain(chain), Request(root.principal, root.scope), job))
    ensures var (m', c') := Complete(QUIET, m, id, NewCall(Chain(chain), Request(root.principal, root.scope), job));
            && Allowed(c') && c'.chain == chain && Undisturbed(m.shared, m'.shared)
            && (forall d :: d in m'.shared.reservations ==>
                  d in m.shared.reservations || d == DigestOf(chain[|chain| - 1]))
  {
    var request := Request(root.principal, root.scope);
    var c := NewCall(Chain(chain), request, job);
    ReadyIsAdmissible(m.shared, root, chain);
    NewCallIsConsistent(m.shared, chain, request, job);
    UndisturbedCallIsDecidedCorrectly(QUIET, m, id, chain, request, job);
    hide NewCall, Complete, Runnable, ChainInUse, Welcome, Admissible;
    CompleteIsConsistent(m.shared, QUIET, m, id, c);
    CompleteLeavesAlone(QUIET, m, id, c);
    var (m', c') := Complete(QUIET, m, id, c);
    ConsistentIsUndisturbed(m.shared, m'.shared, c');
  }

  lemma ConsistentIsUndisturbed(start: Shared, sh: Shared, c: Call)
    requires Consistent(start, sh, c)
    ensures Undisturbed(start, sh)
  {
  }

  // ---------------------------------------------------------------------------
  // One more link
  // ---------------------------------------------------------------------------

  function SealLike(root: Credential): Seal {
    Seal(root.issuer, 0, root.signature)
  }

  /** A child with the principal, scope and issuer of the root. */
  function ChildLike(root: Credential): ChildRequest {
    ChildRequest(root.principal, root.scope, 1)
  }

  lemma ChildIsAlike(sh: Shared, root: Credential, chain: seq<Credential>)
    requires ChainInUse(sh, root, chain) && |chain| <= root.maxDepth
    ensures var leaf := chain[|chain| - 1];
            && MayDelegate(leaf, ChildLike(root))
            && var issued := IssueChild(SealLike(root), leaf, ChildLike(root), sh.now);
               issued.Ok? && Alike(root, issued.value) && WellFormed(issued.value)
               && issued.value.depth == |chain|
  {
    var leaf := chain[|chain| - 1];
    assert leaf in chain && root in chain && Alike(root, leaf) && WellFormed(leaf);
    DepthIsPosition(chain, |chain| - 1);
  }

  lemma LongerChainInUse(sh: Shared, root: Credential, chain: seq<Credential>, after: Shared)
    requires ChainInUse(sh, root, chain) && |chain| <= root.maxDepth
    requires var child := IssueChild(SealLike(root), chain[|chain| - 1], ChildLike(root), sh.now);
             child.Ok? && child.value in after.minted
    requires sh.minted <= after.minted && after.now == sh.now
    requires forall d :: d in after.reservations ==> d in sh.reservations || d == DigestOf(chain[|chain| - 1])
    ensures var child := IssueChild(SealLike(root), chain[|chain| - 1], ChildLike(root), sh.now).value;
            ChainInUse(after, root, chain + [child])
  {
    var child := IssueChild(SealLike(root), chain[|chain| - 1], ChildLike(root), sh.now).value;
    ChildIsAlike(sh, root, chain);
    assert chain[|chain| - 1] in chain && Alike(root, chain[|chain| - 1]);
    ChildIsWellIssued(chain, SealLike(root), ChildLike(root), sh.now);
    assert root in chain && WellFormed(root);
    hide IssueChild, MayDelegate, WellIssued;
    forall d | d in after.reservations ensures exists k :: 0 <= k < |chain| && d == DigestOf((chain + [child])[k]) {
      if d == DigestOf(chain[|chain| - 1]) {
        assert d == DigestOf((chain + [child])[|chain| - 1]);
      } else {
        var k :| 0 <= k < |chain| - 1 && d == DigestOf(chain[k]);
        assert d == DigestOf((chain + [child])[k]);
      }
    }
  }

  /** What one more link is, and that it can be issued. */
  function NextLink(sh: Shared, root: Credential, chain: seq<Credential>): Credential
    requires chain != [] && IssueChild(SealLike(root), chain[|chain| - 1], ChildLike(root), sh.now).Ok?
  {
    IssueChild(SealLike(root), chain[|chain| - 1], ChildLike(root), sh.now).value
  }

  /** A quiet delegation succeeds, and changes nothing else but the reservations and the trail. */
  lemma QuietDelegation(m: Moment, root: Credential, chain: seq<Credential>, id: nat) returns (end: Moment)
    requires Welcome(m.shared, root) && ChainInUse(m.shared, root, chain) && |chain| <= root.maxDepth
    ensures IssueChild(SealLike(root), chain[|chain| - 1], ChildLike(root), m.shared.now).Ok?
    ensures Delegates(QUIET, id, m, chain, root.principal, ChildLike(root), SealLike(root), end,
                      Ok(chain + [NextLink(m.shared, root, chain)]))
    ensures Undisturbed(m.shared, end.shared)
    ensures forall d :: d in end.shared.reservations ==>
              d in m.shared.reservations || d == DigestOf(chain[|chain| - 1])
  {
    ChildIsAlike(m.shared, root, chain);
    assert chain[|chain| - 1] in chain && Alike(root, chain[|chain| - 1]);
    QuietCallIsAllowed(m, root, chain, id, Delegate(ChildLike(root)));
    hide NewCall, Complete, Runnable, IssueChild, MayDelegate, Alike, ChainInUse, Welcome;
    var c := DelegateCall(chain, root.principal, ChildLike(root));
    var (mid, c') := Complete(QUIET, m, id, c);
    end := Next(QUIET, mid);
    var decision := c'.pc.decision;
    assert Ends(QUIET, id, m, c, mid, decision);
    assert Spends(QUIET, chain, ChildLike(root), SealLike(root), mid, decision, end,
                  Ok(chain + [NextLink(m.shared, root, chain)]));
  }

  /** One delegation down the chain. */
  lemma DelegateOnce(s: State, root: Credential, chain: seq<Credential>)
    returns (events: seq<Event>, longer: seq<Credential>)
    requires Ready(s, root, chain) && |chain| <= root.maxDepth
    ensures Ready(Run(s, events), root, longer) && |longer| == |chain| + 1
  {
    var m, leaf := Moment(0, s.shared), chain[|chain| - 1];
    var end := QuietDelegation(m, root, chain, |s.calls|);
    LeafMayDelegate(s.shared, root, chain);
    longer := chain + [NextLink(s.shared, root, chain)];
    hide Run, Delegates, IssueChild, MayDelegate, WellFormed, ChainInUse, Welcome, Shows;
    ChainHasRoot(s.shared, root, chain);
    var rest := DelegatesIsARun(QUIET, m, s.calls, chain, root.principal, ChildLike(root), SealLike(root), end,
                                Ok(longer));
    events := [BeginDelegate(chain, root.principal, ChildLike(root))] + rest;
    ShowsChain(Run(s, events).calls[|s.calls|], chain, longer, end.shared, Run(s, events).shared);
    DelegationKeepsReady(s, root, chain, longer, end.shared, Run(s, events));
  }

  lemma ShowsChain(c: Call, parent: seq<Credential>, longer: seq<Credential>, end: Shared, shared: Shared)
    requires Shows(c, parent, Ok(longer), end, shared)
    ensures c.chain == parent
  {
  }

  lemma LeafMayDelegate(sh: Shared, root: Credential, chain: seq<Credential>)
    requires ChainInUse(sh, root, chain) && |chain| <= root.maxDepth
    ensures WellFormed(chain[|chain| - 1]) && MayDelegate(chain[|chain| - 1], ChildLike(root))
  {
    ChildIsAlike(sh, root, chain);
    assert chain[|chain| - 1] in chain;
  }

  lemma DelegationKeepsReady(s: State, root: Credential, chain: seq<Credential>, longer: seq<Credential>,
                             end: Shared, s': State)
    requires Ready(s, root, chain) && |chain| <= root.maxDepth
    requires IssueChild(SealLike(root), chain[|chain| - 1], ChildLike(root), s.shared.now).Ok?
    requires longer == chain + [IssueChild(SealLike(root), chain[|chain| - 1], ChildLike(root), s.shared.now).value]
    requires Undisturbed(s.shared, end)
    requires forall d :: d in end.reservations ==> d in s.shared.reservations || d == DigestOf(chain[|chain| - 1])
    requires |s'.calls| == |s.calls| + 1 && s'.calls[..|s.calls|] == s.calls
    requires Shows(s'.calls[|s.calls|], chain, Ok(longer), end, s'.shared)
    requires s'.calls[|s.calls|].chain == chain
    ensures Ready(s', root, longer)
  {
    hide IssueChild, ChainInUse;
    LongerChainInUse(s.shared, root, chain, s'.shared);
    ChainHasRoot(s.shared, root, chain);
    forall i | 0 <= i < |s'.calls|
      ensures Allowed(s'.calls[i]) && s'.calls[i].chain != [] && s'.calls[i].chain[0] == root
    {
      if i < |s.calls| {
        assert s'.calls[i] == s'.calls[..|s.calls|][i];
      }
    }
  }

  lemma ChainHasRoot(sh: Shared, root: Credential, chain: seq<Credential>)
    requires ChainInUse(sh, root, chain)
    ensures chain != [] && chain[0] == root
  {
  }

  // ---------------------------------------------------------------------------
  // The whole budget
  // ---------------------------------------------------------------------------

  /** The use of the chain's end. */
  lemma UseOnce(s: State, root: Credential, chain: seq<Credential>) returns (events: seq<Event>)
    requires Ready(s, root, chain)
    ensures |Run(s, events).calls| == |chain| && AllUnder(Run(s, events).calls, root)
  {
    var id, m, request := |s.calls|, Moment(0, s.shared), Request(root.principal, root.scope);
    QuietCallIsAllowed(m, root, chain, id, AuthorizeOnly);
    ChainHasRoot(s.shared, root, chain);
    hide Run, NewCall, Complete, Runnable, ChainInUse, Welcome;
    var c := NewCall(Chain(chain), request, AuthorizeOnly);
    var c' := Complete(QUIET, m, id, c).1;
    events := CompleteIsRun(QUIET, m, s.calls + [c], id);
    RunCons(s, BeginAuthorize(Chain(chain), request), events);
    assert Run(s, [BeginAuthorize(Chain(chain), request)] + events).calls == (s.calls + [c])[id := c'];
    events := [BeginAuthorize(Chain(chain), request)] + events;
  }

  lemma {:induction false} SpendAll(s: State, root: Credential, chain: seq<Credential>) returns (events: seq<Event>)
    requires Ready(s, root, chain) && |chain| <= root.maxDepth + 1
    ensures |Run(s, events).calls| == root.maxDepth + 1 && AllUnder(Run(s, events).calls, root)
    decreases root.maxDepth + 1 - |chain|
  {
    hide Run, Ready, AllUnder;
    if |chain| == root.maxDepth + 1 {
      events := UseOnce(s, root, chain);
    } else {
      var first, longer := DelegateOnce(s, root, chain);
      var rest := SpendAll(Run(s, first), root, longer);
      RunSplit(s, first + rest, |first|);
      assert (first + rest)[..|first|] == first && (first + rest)[|first|..] == rest;
      events := first + rest;
    }
  }

  lemma AllUnderCounts(calls: seq<Call>, root: Credential)
    requires AllUnder(calls, root)
    ensures |AllowedUnder(calls, root)| == |calls|
  {
    RangeIsRange(|calls|);
    assert AllowedUnder(calls, root) == Range(|calls|);
  }

  /**
    From any start in which a root can be minted that nothing stands against, some run allows as many
    authorizations under it as its budget permits.
   */
  lemma RootBudgetIsAttained(s: State, seal: Seal, request: RootRequest) returns (events: seq<Event>)
    requires Init(s) && IssueRoot(seal, request, s.shared.now).Ok?
    requires Welcome(s.shared, IssueRoot(seal, request, s.shared.now).value)
    ensures var root := IssueRoot(seal, request, s.shared.now).value;
            |AllowedUnder(Run(s, events).calls, root)| == root.maxDepth + 1
  {
    var root, mint := IssueRoot(seal, request, s.shared.now).value, MintRoot(seal, request);
    var minted := Apply(s, mint);
    RootIsReady(s, seal, request);
    var rest := SpendAll(minted, root, [root]);
    RunCons(s, mint, rest);
    events := [mint] + rest;
    AllUnderCounts(Run(s, events).calls, root);
  }

  lemma RootIsReady(s: State, seal: Seal, request: RootRequest)
    requires Init(s) && IssueRoot(seal, request, s.shared.now).Ok?
    requires Welcome(s.shared, IssueRoot(seal, request, s.shared.now).value)
    ensures var root := IssueRoot(seal, request, s.shared.now).value;
            Ready(Apply(s, MintRoot(seal, request)), root, [root]) && 1 <= root.maxDepth + 1
  {
    RootIsWellIssued(seal, request, s.shared.now);
    hide WellIssued;
    var root := IssueRoot(seal, request, s.shared.now).value;
    assert forall c :: c in [root] ==> c == root;
  }
}
