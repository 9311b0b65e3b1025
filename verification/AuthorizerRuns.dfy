/**
  Properties of whole runs that relate several calls: a credential is allowed once,
  a root buys a bounded number of allows, and everything ever minted verifies.
 */
module AuthorizerRuns {
  import opened Wrappers
  import opened Credentials
  import opened Issuance
  import opened Backends
  import opened Authorizer
  import opened AuthorizerSafety
  import opened Counting

  function Leaf(c: Call): Credential
    requires c.chain != []
  {
    c.chain[|c.chain| - 1]
  }

  // ---------------------------------------------------------------------------
  // How a step moves a call
  // ---------------------------------------------------------------------------

  lemma StepKeepsRequest(sh: Shared, id: nat, c: Call, fault: Fault, seal: Seal)
    ensures var (sh', c') := Step(sh, id, c, fault, seal);
            c'.chain == c.chain && c'.request == c.request && c'.job == c.job
  {
  }

  lemma ReadMovesForward(sh: Shared, id: nat, c: Call, failed: bool)
    requires c.chain != [] && !c.pc.Reserve? && !c.pc.RecordAllow? && !c.pc.Returned? && !c.pc.RecordDenial?
    ensures var c' := ReadStep(sh, id, c, failed);
            && (Stage(c.pc) < 7 ==> Stage(c'.pc) < 7)
            && (Stage(c.pc) == 7 && Stage(c'.pc) >= 8 ==> ChainTimeReason(c.chain, sh.now).None?)
  {
    hide ChainReason, ChainTimeReason, RevocationReason, SignatureReason, RequestReason, BindingReason;
  }

  /** Reservation and its confirmation are passed one at a time, and denial is final. */
  lemma StepMovesForward(sh: Shared, id: nat, c: Call, fault: Fault, seal: Seal)
    requires Stage(c.pc) >= 0 ==> c.chain != []
    ensures var (sh', c') := Step(sh, id, c, fault, seal);
            && (Stage(c'.pc) >= 7 && Stage(c.pc) < 7 ==>
                  c.pc.Reserve? && Stage(c'.pc) == 7 && !Held(sh.reservations, DigestOf(Leaf(c)), sh.now))
            && (Stage(c'.pc) >= 8 && Stage(c.pc) < 8 ==>
                  c.pc.CheckTimeAgain? && ChainTimeReason(c.chain, sh.now).None?)
            && (Allowed(c) ==> c'.pc == c.pc)
  {
    if c.chain != [] && !c.pc.Reserve? && !c.pc.RecordAllow? && !c.pc.Returned? && !c.pc.RecordDenial? {
      ReadMovesForward(sh, id, c, !fault.Works?);
    }
  }

  lemma StepReservations(sh: Shared, id: nat, c: Call, fault: Fault, seal: Seal)
    requires Stage(c.pc) >= 0 ==> c.chain != []
    ensures var (sh', c') := Step(sh, id, c, fault, seal);
            && (sh'.reservations == sh.reservations
                || (c.pc.Reserve? && sh'.reservations ==
                      AfterReserve(sh.reservations, DigestOf(Leaf(c)), Leaf(c).expiresAt, sh.now)))
            && (c.pc.Reserve? && c'.pc.CheckTimeAgain? ==> DigestOf(Leaf(c)) in sh'.reservations)
            && sh'.now == sh.now
  {
  }

  // ---------------------------------------------------------------------------
  // Each leaf is allowed at most once
  // ---------------------------------------------------------------------------

  ghost predicate SameLeaf(c: Call, c': Call) {
    c.chain != [] && c'.chain != [] && Leaf(c) == Leaf(c')
  }

  /** A reservation is remembered until the credential has expired. */
  ghost predicate Remembered(sh: Shared, c: Call) {
    Stage(c.pc) >= 7 ==>
      c.chain != [] && (DigestOf(Leaf(c)) in sh.reservations || Leaf(c).expiresAt < sh.now)
  }

  /** Two live reservations of one leaf mean that it has expired, and at most one of them was confirmed. */
  ghost predicate Exclusive(sh: Shared, c: Call, c': Call) {
    Stage(c.pc) >= 7 && Stage(c'.pc) >= 7 && SameLeaf(c, c') ==>
      Leaf(c).expiresAt < sh.now && (Stage(c.pc) < 8 || Stage(c'.pc) < 8)
  }

  ghost predicate ReservesExpiry(reservations: Reservations) {
    forall d :: d in reservations ==> d.DigestOf? && reservations[d] == d.credential.expiresAt
  }

  ghost predicate ReplayInv(s: State) {
    && ReservesExpiry(s.shared.reservations)
    && (forall i :: 0 <= i < |s.calls| ==> Remembered(s.shared, s.calls[i]))
    && (forall i, j :: 0 <= i < |s.calls| && 0 <= j < |s.calls| && i != j ==>
          Exclusive(s.shared, s.calls[i], s.calls[j]))
  }

  lemma RememberedStays(before: Shared, after: Shared, c: Call, d: Digest, expiresAt: int)
    requires Remembered(before, c) && ReservesExpiry(before.reservations)
    requires before.now <= after.now
    requires after.reservations == before.reservations
          || after.reservations == AfterReserve(before.reservations, d, expiresAt, before.now)
    ensures Remembered(after, c)
  {
  }

  /** A second reservation succeeds only after expiry, and then the clock check refuses to confirm it. */
  lemma MovedCallIsExclusive(sh: Shared, id: nat, c: Call, other: Call, fault: Fault, seal: Seal)
    requires ReservesExpiry(sh.reservations)
    requires CallInv(sh, c) && Remembered(sh, other) && Exclusive(sh, c, other)
    ensures var (sh', c') := Step(sh, id, c, fault, seal);
            Exclusive(sh', c', other) && Exclusive(sh', other, c')
  {
    StepKeepsRequest(sh, id, c, fault, seal);
    StepMovesForward(sh, id, c, fault, seal);
    StepReservations(sh, id, c, fault, seal);
    if c.pc.CheckTimeAgain? && ChainTimeReason(c.chain, sh.now).None? {
      assert LinkTimeReason(c.chain, |c.chain| - 1, sh.now).None?;
    }
  }

  lemma MovedCallIsRemembered(sh: Shared, id: nat, c: Call, fault: Fault, seal: Seal)
    requires ReservesExpiry(sh.reservations)
    requires CallInv(sh, c) && Remembered(sh, c)
    ensures var (sh', c') := Step(sh, id, c, fault, seal);
            ReservesExpiry(sh'.reservations) && Remembered(sh', c')
  {
    StepKeepsRequest(sh, id, c, fault, seal);
    StepMovesForward(sh, id, c, fault, seal);
    StepReservations(sh, id, c, fault, seal);
    var (sh', c') := Step(sh, id, c, fault, seal);
    if c.chain != [] {
      RememberedStays(sh, sh', c, DigestOf(Leaf(c)), Leaf(c).expiresAt);
    }
  }

  lemma OthersStayExclusive(s: State, i: nat, fault: Fault, seal: Seal, j: nat)
    requires Inv(s) && ReplayInv(s) && i < |s.calls| && j < |s.calls| && j != i
    ensures var (shared, c) := Step(s.shared, i, s.calls[i], fault, seal);
            && Remembered(shared, s.calls[j])
            && Exclusive(shared, c, s.calls[j]) && Exclusive(shared, s.calls[j], c)
  {
    hide Step, CallInv, Remembered, Exclusive, ReservesExpiry;
    var (shared, c) := Step(s.shared, i, s.calls[i], fault, seal);
    assert CallInv(s.shared, s.calls[i]);
    assert Exclusive(s.shared, s.calls[i], s.calls[j]);
    MovedCallIsExclusive(s.shared, i, s.calls[i], s.calls[j], fault, seal);
    StepRemembersOthers(s.shared, i, s.calls[i], fault, seal, s.calls[j]);
  }

  lemma StepRemembersOthers(sh: Shared, id: nat, c: Call, fault: Fault, seal: Seal, other: Call)
    requires CallInv(sh, c) && ReservesExpiry(sh.reservations) && Remembered(sh, other)
    ensures Remembered(Step(sh, id, c, fault, seal).0, other)
  {
    StepReservations(sh, id, c, fault, seal);
    var shared := Step(sh, id, c, fault, seal).0;
    hide Step, Remembered, ReservesExpiry;
    if c.chain != [] {
      RememberedStays(sh, shared, other, DigestOf(Leaf(c)), Leaf(c).expiresAt);
    } else {
      RememberedStays(sh, shared, other, Unmatched(""), 0);
    }
  }

  lemma AdvanceKeepsReplayInv(s: State, i: nat, fault: Fault, seal: Seal)
    requires Inv(s) && ReplayInv(s) && i < |s.calls|
    ensures ReplayInv(Apply(s, Advance(i, fault, seal)))
  {
    hide Step, CallInv, Remembered, Exclusive, ReservesExpiry;
    var (shared, c) := Step(s.shared, i, s.calls[i], fault, seal);
    var s' := Apply(s, Advance(i, fault, seal));
    assert CallInv(s.shared, s.calls[i]);
    MovedCallIsRemembered(s.shared, i, s.calls[i], fault, seal);
    forall j | 0 <= j < |s.calls| && j != i
      ensures Remembered(shared, s.calls[j])
      ensures Exclusive(shared, c, s.calls[j]) && Exclusive(shared, s.calls[j], c)
    {
      OthersStayExclusive(s, i, fault, seal, j);
    }
    forall j, k | 0 <= j < |s.calls| && 0 <= k < |s.calls| && j != k
      ensures Exclusive(shared, s'.calls[j], s'.calls[k])
    {
      if j != i && k != i {
        assert Exclusive(s.shared, s.calls[j], s.calls[k]);
        StepKeepsNow(s.shared, i, s.calls[i], fault, seal);
        ExclusiveDependsOnTime(s.shared, shared, s.calls[j], s.calls[k]);
      }
    }
  }

  lemma StepKeepsNow(sh: Shared, id: nat, c: Call, fault: Fault, seal: Seal)
    ensures Step(sh, id, c, fault, seal).0.now == sh.now
  {
    hide ReadStep;
  }

  lemma ExclusiveDependsOnTime(before: Shared, after: Shared, c: Call, c': Call)
    requires Exclusive(before, c, c') && before.now <= after.now
    ensures Exclusive(after, c, c')
  {
  }

  lemma ApplyKeepsReplayInv(s: State, e: Event)
    requires Inv(s) && ReplayInv(s)
    ensures ReplayInv(Apply(s, e))
  {
    if e.Advance? && e.call < |s.calls| {
      AdvanceKeepsReplayInv(s, e.call, e.fault, e.seal);
    } else {
      var s' := Apply(s, e);
      assert s'.shared.reservations == s.shared.reservations && s'.shared.now >= s.shared.now;
      forall j | 0 <= j < |s'.calls|
        ensures Remembered(s'.shared, s'.calls[j])
        ensures j < |s.calls| ==> s'.calls[j] == s.calls[j]
        ensures j >= |s.calls| ==> Stage(s'.calls[j].pc) < 7
      {
      }
      forall j, k | 0 <= j < |s'.calls| && 0 <= k < |s'.calls| && j != k
        ensures Exclusive(s'.shared, s'.calls[j], s'.calls[k])
      {
        if j < |s.calls| && k < |s.calls| {
          assert Exclusive(s.shared, s.calls[j], s.calls[k]);
        }
      }
    }
  }

  lemma {:induction false} RunKeepsReplayInv(s: State, events: seq<Event>)
    requires Init(s)
    ensures ReplayInv(Run(s, events))
    decreases |events|
  {
    if events != [] {
      RunKeepsReplayInv(s, events[..|events| - 1]);
      RunKeepsInv(s, events[..|events| - 1]);
      ApplyKeepsReplayInv(Run(s, events[..|events| - 1]), events[|events| - 1]);
    }
  }

  /** In any run, however interleaved, two different calls are never both allowed on one leaf. */
  lemma LeafAllowedOnce(s: State, events: seq<Event>, i: nat, j: nat)
    requires Init(s)
    requires var calls := Run(s, events).calls;
             && i < |calls| && j < |calls| && Allowed(calls[i]) && Allowed(calls[j])
             && SameLeaf(calls[i], calls[j])
    ensures i == j
  {
    RunKeepsReplayInv(s, events);
    var r := Run(s, events);
    assert i != j ==> Exclusive(r.shared, r.calls[i], r.calls[j]);
  }

  // ---------------------------------------------------------------------------
  // Where minted credentials come from
  // ---------------------------------------------------------------------------

  /** A child carried by a call was minted under the leaf that the call was allowed on. */
  ghost predicate ChildInv(c: Call) {
    && (c.job.Delegate? && c.chain != [] ==> MayDelegate(Leaf(c), c.job.request))
    && (c.child.Minted? ==>
          && Allowed(c) && c.chain != [] && c.job.Delegate?
          && AskedFor(c.child.credential, Leaf(c), c.job.request))
  }

  /** A credential that was minted under this parent is the one that was asked for. */
  ghost predicate AskedFor(c: Credential, parent: Credential, r: ChildRequest) {
    && c.parent == Some(DigestOf(parent)) && c.depth == parent.depth + 1 && c.maxDepth == parent.maxDepth
    && c.principal == r.principal && c.scope == r.scope
    && c.expiresAt <= parent.expiresAt && c.expiresAt <= c.issuedAt + r.ttl * 1_000_000
  }

  ghost predicate MintedBy(calls: seq<Call>, j: nat, c: Credential) {
    j < |calls| && calls[j].child == Minted(c)
  }

  ghost predicate HasMinter(calls: seq<Call>, c: Credential) {
    exists j :: MintedBy(calls, j, c)
  }

  /** Every minted credential was issued on a well-issued lineage, and no later than now. */
  ghost predicate LineageIsSound(sh: Shared, c: Credential) {
    && LineageOf(c).Some? && WellIssued(LineageOf(c).value)
    && LineageOf(c).value[|LineageOf(c).value| - 1] == c
    && c.issuedAt <= sh.now
  }

  ghost predicate MintInv(s: State) {
    && (forall i :: 0 <= i < |s.calls| ==> ChildInv(s.calls[i]))
    && (forall c :: c in s.shared.minted && c.depth > 0 ==> HasMinter(s.calls, c))
    && (forall c :: c in s.shared.minted ==> LineageIsSound(s.shared, c))
  }

  /** A step mints at most one credential, and only for an allowed call that has no child yet. */
  lemma StepMints(sh: Shared, id: nat, c: Call, fault: Fault, seal: Seal)
    ensures var (sh', c') := Step(sh, id, c, fault, seal);
            || (sh'.minted == sh.minted && c'.child == c.child)
            || (sh'.minted == sh.minted && c'.child == IssuanceFailed && c.child.NoChild?)
            || (&& Allowed(c) && c'.pc == c.pc && c.child.NoChild? && c.chain != [] && c.job.Delegate?
                && IssueChild(seal, Leaf(c), c.job.request, sh.now).Ok?
                && c'.child == Minted(IssueChild(seal, Leaf(c), c.job.request, sh.now).value)
                && sh'.minted == sh.minted + {c'.child.credential})
  {
  }

  lemma ChildLineageIsSound(sh: Shared, c: Call, seal: Seal)
    requires CallInv(sh, c) && ChildInv(c) && Allowed(c) && c.chain != [] && c.job.Delegate?
    requires LineageIsSound(sh, Leaf(c))
    requires IssueChild(seal, Leaf(c), c.job.request, sh.now).Ok?
    ensures LineageIsSound(sh, IssueChild(seal, Leaf(c), c.job.request, sh.now).value)
  {
    var child := IssueChild(seal, Leaf(c), c.job.request, sh.now).value;
    var ancestors := LineageOf(Leaf(c)).value;
    ChildIsWellIssued(ancestors, seal, c.job.request, sh.now);
    assert LineageOf(child) == Some(ancestors + [child]);
  }

  lemma RootLineageIsSound(sh: Shared, seal: Seal, root: RootRequest)
    requires IssueRoot(seal, root, sh.now).Ok?
    ensures LineageIsSound(sh, IssueRoot(seal, root, sh.now).value)
    ensures IssueRoot(seal, root, sh.now).value.depth == 0
  {
    RootIsWellIssued(seal, root, sh.now);
  }

  lemma MinterStays(calls: seq<Call>, calls': seq<Call>, c: Credential)
    requires HasMinter(calls, c) && |calls| <= |calls'|
    requires forall j :: 0 <= j < |calls| && calls[j].child.Minted? ==> calls'[j].child == calls[j].child
    ensures HasMinter(calls', c)
  {
    var j :| MintedBy(calls, j, c);
    assert MintedBy(calls', j, c);
  }

  /** What one step mints has a sound lineage and a recorded minter. */
  lemma StepKeepsLineages(s: State, i: nat, fault: Fault, seal: Seal)
    requires Inv(s) && MintInv(s) && i < |s.calls|
    ensures var (shared, c') := Step(s.shared, i, s.calls[i], fault, seal);
            forall x :: x in shared.minted ==>
              LineageIsSound(shared, x) && (x !in s.shared.minted ==> c'.child == Minted(x))
  {
    var c := s.calls[i];
    StepMints(s.shared, i, c, fault, seal);
    StepReservations(s.shared, i, c, fault, seal);
    assert CallInv(s.shared, c) && ChildInv(c);
    if Step(s.shared, i, c, fault, seal).0.minted != s.shared.minted {
      assert Leaf(c) in c.chain;
      ChildLineageIsSound(s.shared, c, seal);
    }
  }

  lemma IssuedIsAskedFor(seal: Seal, parent: Credential, r: ChildRequest, now: int)
    requires IssueChild(seal, parent, r, now).Ok?
    ensures AskedFor(IssueChild(seal, parent, r, now).value, parent, r)
  {
    IssuedChild(seal, parent, r, now);
  }

  lemma StepKeepsChildInv(sh: Shared, id: nat, c: Call, fault: Fault, seal: Seal)
    requires CallInv(sh, c) && ChildInv(c)
    ensures var (sh', c') := Step(sh, id, c, fault, seal);
            ChildInv(c') && (c.child.Minted? ==> c'.child == c.child)
  {
    StepMints(sh, id, c, fault, seal);
    StepKeepsRequest(sh, id, c, fault, seal);
    StepMovesForward(sh, id, c, fault, seal);
    hide Step, CallInv, AskedFor, IssueChild, MayDelegate;
    var c' := Step(sh, id, c, fault, seal).1;
    if c'.child != c.child && c'.child.Minted? {
      IssuedIsAskedFor(seal, Leaf(c), c.job.request, sh.now);
    }
  }

  lemma MintersAfter(calls: seq<Call>, i: nat, c': Call, minted: set<Credential>, minted': set<Credential>)
    requires i < |calls| && (calls[i].child.Minted? ==> c'.child == calls[i].child)
    requires forall x :: x in minted && x.depth > 0 ==> HasMinter(calls, x)
    requires forall x :: x in minted' && x !in minted ==> c'.child == Minted(x)
    ensures forall x :: x in minted' && x.depth > 0 ==> HasMinter(calls[i := c'], x)
  {
    forall x | x in minted' && x.depth > 0 ensures HasMinter(calls[i := c'], x) {
      if x in minted {
        MinterStays(calls, calls[i := c'], x);
      } else {
        assert MintedBy(calls[i := c'], i, x);
      }
    }
  }

  lemma MintInvAfter(s: State, i: nat, shared: Shared, c': Call)
    requires MintInv(s) && i < |s.calls| && ChildInv(c')
    requires forall x :: x in shared.minted && x.depth > 0 ==> HasMinter(s.calls[i := c'], x)
    requires forall x :: x in shared.minted ==> LineageIsSound(shared, x)
    ensures MintInv(State(shared, s.calls[i := c']))
  {
  }

  lemma AdvanceKeepsMintInv(s: State, i: nat, fault: Fault, seal: Seal)
    requires Inv(s) && MintInv(s) && i < |s.calls|
    ensures var (shared, c') := Step(s.shared, i, s.calls[i], fault, seal);
            MintInv(State(shared, s.calls[i := c']))
  {
    assert CallInv(s.shared, s.calls[i]) && ChildInv(s.calls[i]);
    StepKeepsChildInv(s.shared, i, s.calls[i], fault, seal);
    StepKeepsLineages(s, i, fault, seal);
    var (shared, c') := Step(s.shared, i, s.calls[i], fault, seal);
    MintersAfter(s.calls, i, c', s.shared.minted, shared.minted);
    MintInvAfter(s, i, shared, c');
  }

  lemma ApplyKeepsMintInv(s: State, e: Event)
    requires Inv(s) && MintInv(s)
    ensures MintInv(Apply(s, e))
  {
    if e.Advance? {
      if e.call < |s.calls| {
        AdvanceKeepsMintInv(s, e.call, e.fault, e.seal);
      }
    } else {
      var s' := Apply(s, e);
      if e.MintRoot? && IssueRoot(e.seal, e.root, s.shared.now).Ok? {
        RootLineageIsSound(s.shared, e.seal, e.root);
      }
      forall x | x in s'.shared.minted
        ensures LineageIsSound(s'.shared, x)
        ensures x.depth > 0 ==> HasMinter(s'.calls, x)
      {
        if x in s.shared.minted && x.depth > 0 {
          MinterStays(s.calls, s'.calls, x);
        }
      }
    }
  }

  lemma {:induction false} RunKeepsMintInv(s: State, events: seq<Event>)
    requires Init(s)
    ensures MintInv(Run(s, events))
    decreases |events|
  {
    if events != [] {
      RunKeepsMintInv(s, events[..|events| - 1]);
      RunKeepsInv(s, events[..|events| - 1]);
      ApplyKeepsMintInv(Run(s, events[..|events| - 1]), events[|events| - 1]);
    }
  }

  /**
    Everything minted in any run verifies: given grants that cover its lineage, the verifier accepts
    that lineage exactly while the credential is inside its own window.
   */
  lemma MintedCredentialsVerify(s: State, events: seq<Event>, c: Credential, policy: IssuerPolicy, now: int)
    requires Init(s)
    requires c in Run(s, events).shared.minted
    requires LineageOf(c).Some? ==> forall x :: x in LineageOf(c).value ==> Covers(policy, x)
    ensures LineageOf(c).Some?
    ensures ChainReason(LineageOf(c).value, policy, now).None? <==> c.issuedAt <= now < c.expiresAt
  {
    RunKeepsMintInv(s, events);
    assert LineageIsSound(Run(s, events).shared, c);
    IssuerVerifierAgree(LineageOf(c).value, policy, now);
  }

  // ---------------------------------------------------------------------------
  // A root's budget
  // ---------------------------------------------------------------------------

  /** What an allowed call knows of its chain. */
  lemma AllowedChain(s: State, events: seq<Event>, i: nat)
    requires Init(s) && i < |Run(s, events).calls| && Allowed(Run(s, events).calls[i])
    ensures var c := Run(s, events).calls[i];
            && Linked(c.chain)
            && (forall x :: x in c.chain ==> x in Run(s, events).shared.minted)
            && |c.chain| - 1 <= c.chain[0].maxDepth
  {
    RunKeepsInv(s, events);
    var r := Run(s, events);
    var c := r.calls[i];
    assert CallInv(r.shared, c);
    var at := c.auditedIn.value;
    WholeChainAttenuation(c.chain, at.issuers.policy, at.now, 0, |c.chain| - 1);
  }

  /** A minted child of `parent` was minted by a call that was allowed on `parent`. */
  lemma MinterOf(s: State, events: seq<Event>, parent: Credential, child: Credential) returns (m: nat)
    requires Init(s) && child in Run(s, events).shared.minted
    requires child.depth > 0 && child.parent == Some(DigestOf(parent))
    ensures var calls := Run(s, events).calls;
            && m < |calls| && calls[m].child == Minted(child)
            && Allowed(calls[m]) && calls[m].chain != [] && Leaf(calls[m]) == parent
  {
    RunKeepsMintInv(s, events);
    var r := Run(s, events);
    assert HasMinter(r.calls, child);
    m :| MintedBy(r.calls, m, child);
    assert ChildInv(r.calls[m]);
  }

  /** Two minted children of one parent are the same credential. */
  lemma OneChildPerParent(s: State, events: seq<Event>, parent: Credential, x: Credential, y: Credential)
    requires Init(s) && x in Run(s, events).shared.minted && y in Run(s, events).shared.minted
    requires x.depth > 0 && x.parent == Some(DigestOf(parent))
    requires y.depth > 0 && y.parent == Some(DigestOf(parent))
    ensures x == y
  {
    var m := MinterOf(s, events, parent, x);
    var n := MinterOf(s, events, parent, y);
    LeafAllowedOnce(s, events, m, n);
  }

  /** Allowed chains that grow from one root agree wherever both are defined. */
  lemma {:induction false} OneLineagePerRoot(s: State, events: seq<Event>, i: nat, j: nat, k: nat)
    requires Init(s)
    requires var calls := Run(s, events).calls;
             && i < |calls| && j < |calls| && Allowed(calls[i]) && Allowed(calls[j])
             && k < |calls[i].chain| && k < |calls[j].chain|
             && calls[i].chain[0] == calls[j].chain[0]
    ensures Run(s, events).calls[i].chain[k] == Run(s, events).calls[j].chain[k]
    decreases k
  {
    if k > 0 {
      OneLineagePerRoot(s, events, i, j, k - 1);
      AllowedChain(s, events, i);
      AllowedChain(s, events, j);
      var xs, ys := Run(s, events).calls[i].chain, Run(s, events).calls[j].chain;
      assert LinkedAt(xs, k) && LinkedAt(ys, k);
      DepthIsPosition(xs, k);
      DepthIsPosition(ys, k);
      OneChildPerParent(s, events, xs[k - 1], xs[k], ys[k]);
    }
  }

  /** The calls that were allowed on a chain starting at `root`. */
  ghost function AllowedUnder(calls: seq<Call>, root: Credential): set<int> {
    set i | 0 <= i < |calls| && Allowed(calls[i]) && calls[i].chain != [] && calls[i].chain[0] == root
  }

  /**
    A root issued with maximum depth d buys at most d + 1 allowed authorizations in any run,
    counting those of all its descendants, whatever is delegated, retried or interleaved.
   */
  lemma RootBudget(s: State, events: seq<Event>, root: Credential)
    requires Init(s) && root.maxDepth >= 0
    ensures |AllowedUnder(Run(s, events).calls, root)| <= root.maxDepth + 1
  {
    var calls := Run(s, events).calls;
    var xs := AllowedUnder(calls, root);
    var depth := map i | i in xs :: |calls[i].chain| - 1;
    forall i | i in xs ensures 0 <= depth[i] < root.maxDepth + 1 {
      AllowedChain(s, events, i);
    }
    forall i, j | i in xs && j in xs && depth[i] == depth[j] ensures i == j {
      OneLineagePerRoot(s, events, i, j, |calls[i].chain| - 1);
      LeafAllowedOnce(s, events, i, j);
    }
    InjectionBoundsSize(xs, depth, root.maxDepth + 1);
  }
}
