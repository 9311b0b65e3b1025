/**
  What every run of the authorizer keeps, for one call against an arbitrary
  environment, and the first consequence: an allow that is returned was true at a
  single instant.
 */
module AuthorizerSafety {
  import opened Wrappers
  import opened Credentials
  import opened Issuance
  import opened Backends
  import opened Authorizer

  // ---------------------------------------------------------------------------
  // What the environment of a call may do
  // ---------------------------------------------------------------------------

  /**
    Time does not run backwards, nothing is un-minted, un-revoked or struck from the audit trail,
    and equal change counts mean that nothing changed.
   */
  ghost predicate Evolves(before: Shared, after: Shared) {
    && before.now <= after.now
    && before.issuers.counter <= after.issuers.counter
    && (before.issuers.counter == after.issuers.counter ==> before.issuers == after.issuers)
    && before.principals.counter <= after.principals.counter
    && (before.principals.counter == after.principals.counter ==> before.principals == after.principals)
    && before.revocations.counter <= after.revocations.counter
    && (before.revocations.counter == after.revocations.counter ==> before.revocations == after.revocations)
    && before.revocations.revoked <= after.revocations.revoked
    && before.minted <= after.minted
    && before.audit <= after.audit
  }

  lemma ApplyEvolves(s: State, e: Event)
    ensures Evolves(s.shared, Apply(s, e).shared)
    ensures |s.calls| <= |Apply(s, e).calls|
  {
  }

  lemma {:induction false} RunEvolves(s: State, events: seq<Event>)
    ensures Evolves(s.shared, Run(s, events).shared)
    ensures |s.calls| <= |Run(s, events).calls|
    decreases |events|
  {
    if events != [] {
      RunEvolves(s, events[..|events| - 1]);
      ApplyEvolves(Run(s, events[..|events| - 1]), events[|events| - 1]);
    }
  }

  // ---------------------------------------------------------------------------
  // The invariant of one call
  // ---------------------------------------------------------------------------

  function RoundStage(round: Round, initial: int, beforeAudit: int, afterAudit: int): int {
    match round
    case Initial => initial
    case BeforeAudit => beforeAudit
    case AfterAudit => afterAudit
  }

  /** How many checks a call has passed; -1 once it is being denied. */
  function Stage(pc: Pc): int {
    match pc
    case ReadIssuers(round) => RoundStage(round, 0, 8, 13)
    case ReadPrincipals(round, _) => RoundStage(round, 1, 10, 15)
    case CheckChain(round) => RoundStage(round, 2, 9, 14)
    case ReadRevocations(round) => RoundStage(round, 3, 11, 16)
    case VerifySignatures => 4
    case CheckTime => 5
    case Reserve => 6
    case CheckTimeAgain => 7
    case RecordAllow => 12
    case FinalTime => 17
    case RecordDenial(_, _) => -1
    case Returned(decision) => if decision.verdict.Allow? then 18 else -1
  }

  /** A chain check succeeded at some reading no later than now: the part that neither time nor policy can undo. */
  ghost predicate Checked(sh: Shared, chain: seq<Credential>) {
    Linked(chain) && forall c :: c in chain ==> c.issuedAt <= sh.now && c.notBefore <= sh.now
  }

  /** An issuer policy that was read, and is no newer than the state. */
  ghost predicate IssuersSound(s: IssuerState, read: IssuerState) {
    && read.policy.version == VERIFIER_POLICY_VERSION
    && read.counter <= s.counter
    && (read.counter == s.counter ==> read == s)
  }

  /** A reference that agrees with everything asserted under its id and is no newer than the state. */
  ghost predicate RefSound(s: PrincipalState, ps: seq<Principal>, ref: PrincipalRef) {
    && ref.revision.binding.active
    && AllMatch(ps, ref.id, ref.revision.binding.principal)
    && ref.revision.counter <= s.counter
    && (ref.revision.counter == s.counter ==>
          ref.id in s.bindings && s.bindings[ref.id] == ref.revision.binding)
  }

  ghost predicate RefsSound(s: PrincipalState, ps: seq<Principal>, refs: seq<PrincipalRef>, k: nat) {
    && |refs| == k <= |DistinctIds(ps)|
    && (forall j :: 0 <= j < k ==> refs[j].id == DistinctIds(ps)[j] && RefSound(s, ps, refs[j]))
  }

  ghost predicate RevisionSound(s: RevocationState, chain: seq<Credential>, read: RevocationState) {
    && Digests(chain) !! read.revoked
    && read.counter <= s.counter
    && (read.counter == s.counter ==> read == s)
  }

  ghost predicate EvidenceSound(sh: Shared, c: Call, e: Evidence) {
    && e.issuers.Some? && IssuersSound(sh.issuers, e.issuers.value) && Trusted(c.chain, e.issuers.value.policy)
    && RefsSound(sh.principals, Asserted(c.chain, c.request), e.refs, |Ids(c)|)
    && e.revocations.Some? && RevisionSound(sh.revocations, c.chain, e.revocations.value)
  }

  /** Everything that an allow claims, at the instant `sh`. */
  ghost predicate Justified(sh: Shared, chain: seq<Credential>, request: Request) {
    && sh.issuers.policy.version == VERIFIER_POLICY_VERSION
    && ChainReason(chain, sh.issuers.policy, sh.now).None?
    && PrincipalsCurrent(sh.principals, Asserted(chain, request))
    && Digests(chain) !! sh.revocations.revoked
    && (forall c :: c in chain ==> c.signature != "" && c in sh.minted)
    && chain[|chain| - 1].principal == request.principal
    && chain[|chain| - 1].scope == request.scope
  }

  /** After the allow was recorded: what was known at that instant, and that nothing since is older. */
  ghost predicate AuditedInv(sh: Shared, c: Call) {
    && c.auditedIn.Some?
    && var at := c.auditedIn.value;
       && Evolves(at, sh)
       && Checked(at, c.chain)
       && EvidenceSound(at, c, c.audited)
       && (forall x :: x in c.chain ==> x.signature != "" && x in at.minted)
  }

  ghost predicate RefsSince(at: Shared, refs: seq<PrincipalRef>) {
    forall j :: 0 <= j < |refs| ==> at.principals.counter <= refs[j].revision.counter
  }

  /** The facts that checks already passed have established for good. */
  ghost predicate Progress(sh: Shared, c: Call) {
    var stage := Stage(c.pc);
    && (stage >= 0 ==> Parses(c.chain))
    && (stage >= 3 ==> Checked(sh, c.chain))
    && (stage >= 5 ==> forall x :: x in c.chain ==> x.signature != "" && x in sh.minted)
    && (stage >= 6 ==> RequestReason(c.chain[|c.chain| - 1], c.request).None?)
  }

  /** The revisions read so far in the current round. */
  ghost predicate Reading(sh: Shared, c: Call) {
    var stage := Stage(c.pc);
    var ps := Asserted(c.chain, c.request);
    && (stage >= 1 ==> c.current.issuers.Some? && IssuersSound(sh.issuers, c.current.issuers.value))
    && (10 <= stage < 13 || stage >= 15 ==> Trusted(c.chain, c.current.issuers.value.policy))
    && (c.pc.ReadPrincipals? ==> c.pc.k < |Ids(c)| && RefsSound(sh.principals, ps, c.current.refs, c.pc.k))
    && (stage == 11 || stage == 12 || stage >= 16 ==> RefsSound(sh.principals, ps, c.current.refs, |Ids(c)|))
    && (stage == 12 || stage >= 17 ==> EvidenceSound(sh, c, c.current))
  }

  /** From the audit write on: the recorded instant, and that later readings are no older than it. */
  ghost predicate Audited(sh: Shared, c: Call) {
    var stage := Stage(c.pc);
    && (stage >= 13 ==> AuditedInv(sh, c))
    && (stage >= 14 ==>
          c.current.issuers.Some? && c.auditedIn.value.issuers.counter <= c.current.issuers.value.counter)
    && (stage >= 15 ==> RefsSince(c.auditedIn.value, c.current.refs))
    && (stage >= 17 ==>
          c.current.revocations.Some?
          && c.auditedIn.value.revocations.counter <= c.current.revocations.value.counter)
    && (stage == 18 ==>
          && Justified(c.auditedIn.value, c.chain, c.request)
          && c.pc.decision.verdict.evidence == c.audited
          && EvidenceIsLive(c.auditedIn.value, c))
  }

  ghost predicate CallInv(sh: Shared, c: Call) {
    Progress(sh, c) && Reading(sh, c) && Audited(sh, c)
  }

  /** The recorded revisions are the ones in force at `sh`. */
  ghost predicate EvidenceIsLive(sh: Shared, c: Call) {
    && c.audited.issuers == Some(sh.issuers)
    && LiveRefs(sh.principals, Ids(c), c.audited.refs) && |c.audited.refs| == |Ids(c)|
    && c.audited.revocations == Some(sh.revocations)
  }

  /** The environment cannot break the invariant of a call that does not move. */
  lemma EnvironmentKeepsCallInv(before: Shared, after: Shared, c: Call)
    requires CallInv(before, c) && Evolves(before, after)
    ensures CallInv(after, c)
  {
    var stage := Stage(c.pc);
    if stage >= 13 {
      assert Evolves(c.auditedIn.value, after);
    }
  }

  // ---------------------------------------------------------------------------
  // A step of the call itself
  // ---------------------------------------------------------------------------

  lemma NewCallInv(sh: Shared, presented: Presented, request: Request, job: Job)
    ensures CallInv(sh, NewCall(presented, request, job))
  {
  }

  lemma DenialInv(sh: Shared, c: Call)
    requires c.pc.RecordDenial?
    ensures CallInv(sh, c)
  {
  }

  /** Reading one more binding without objection extends the sound references by one. */
  lemma OneMoreRef(sh: Shared, c: Call, round: Round, k: nat, revision: PrincipalRevision)
    requires c.pc == ReadPrincipals(round, k) && CallInv(sh, c)
    requires PrincipalSnapshot(sh.principals, Ids(c)[k]) == Some(revision)
    requires BindingReason(revision.binding, Asserted(c.chain, c.request), Ids(c)[k]).None?
    ensures var refs := c.current.refs + [PrincipalRef(Ids(c)[k], revision)];
            && RefsSound(sh.principals, Asserted(c.chain, c.request), refs, k + 1)
            && (round.AfterAudit? ==> RefsSince(c.auditedIn.value, refs))
  {
    assert RefSound(sh.principals, Asserted(c.chain, c.request), PrincipalRef(Ids(c)[k], revision));
  }

  /** `c'` is `c` with other progress and other readings of principals and revocations. */
  predicate SameCall(c: Call, c': Call) {
    && c'.chain == c.chain && c'.current.issuers == c.current.issuers && c'.request == c.request
    && c'.audited == c.audited && c'.auditedIn == c.auditedIn
  }

  /** A call that has read one more reference may continue with the next id or the next phase. */
  lemma AfterOneMoreRef(sh: Shared, c: Call, c': Call, round: Round, k: nat)
    requires c.pc == ReadPrincipals(round, k) && CallInv(sh, c) && SameCall(c, c')
    requires RefsSound(sh.principals, Asserted(c.chain, c.request), c'.current.refs, k + 1)
    requires round.AfterAudit? ==> RefsSince(c.auditedIn.value, c'.current.refs)
    requires c'.pc == if k + 1 < |Ids(c)| then ReadPrincipals(round, k + 1)
                      else if round.Initial? then CheckChain(Initial)
                      else ReadRevocations(round)
    ensures CallInv(sh, c')
  {
    assert Ids(c') == Ids(c);
    assert Stage(c.pc) <= Stage(c'.pc) <= Stage(c.pc) + 1;
    assert Progress(sh, c');
    assert AuditedInv(sh, c) ==> AuditedInv(sh, c');
  }

  lemma PrincipalStepInv(sh: Shared, c: Call, round: Round, k: nat)
    requires c.pc == ReadPrincipals(round, k) && CallInv(sh, c)
    ensures CallInv(sh, PrincipalStep(sh, c, round, k))
  {
    var c' := PrincipalStep(sh, c, round, k);
    if c'.pc.RecordDenial? {
      DenialInv(sh, c');
    } else {
      OneMoreRef(sh, c, round, k, PrincipalSnapshot(sh.principals, Ids(c)[k]).value);
      AfterOneMoreRef(sh, c, c', round, k);
    }
  }

  lemma NoneRevoked(chain: seq<Credential>, revoked: set<Digest>)
    requires chain != []
    ensures RevocationReason(chain, revoked).None? <==> Digests(chain) !! revoked
  {
    if RevocationReason(chain, revoked).None? {
      forall d | d in Digests(chain) ensures d !in revoked {
        var c :| c in chain && DigestOf(c) == d;
      }
    } else {
      var c :| c in chain && DigestOf(c) in revoked;
      assert DigestOf(c) in Digests(chain);
    }
  }

  lemma CheckChainInv(sh: Shared, id: nat, c: Call, failed: bool)
    requires c.pc.CheckChain? && CallInv(sh, c)
    ensures CallInv(sh, ReadStep(sh, id, c, failed))
  {
    AcceptedChain(c.chain, PolicyRead(c), sh.now);
  }

  /** `c` with the revocations of `sh` read. */
  function WithRevocations(sh: Shared, c: Call): Call {
    c.(current := c.current.(revocations := Some(sh.revocations)))
  }

  lemma FirstRevocationsInv(sh: Shared, c: Call)
    requires c.pc == ReadRevocations(Initial) && CallInv(sh, c)
    ensures CallInv(sh, Goto(WithRevocations(sh, c), VerifySignatures))
  {
    hide Checked, IssuersSound, Parses;
  }

  lemma EvidenceComplete(sh: Shared, c: Call)
    requires c.pc == ReadRevocations(BeforeAudit) || c.pc == ReadRevocations(AfterAudit)
    requires CallInv(sh, c) && Digests(c.chain) !! sh.revocations.revoked
    ensures EvidenceSound(sh, c, WithRevocations(sh, c).current)
  {
    hide Checked, IssuersSound, Parses, AuditedInv, Audited;
  }

  lemma RevocationsBeforeAuditInv(sh: Shared, c: Call)
    requires c.pc == ReadRevocations(BeforeAudit) && CallInv(sh, c)
    requires Digests(c.chain) !! sh.revocations.revoked
    ensures CallInv(sh, Goto(WithRevocations(sh, c), RecordAllow))
  {
    EvidenceComplete(sh, c);
    hide Checked, IssuersSound, RefsSound, RevisionSound, Parses;
    assert Ids(Goto(WithRevocations(sh, c), RecordAllow)) == Ids(c);
  }

  lemma RevocationsAfterAuditInv(sh: Shared, c: Call)
    requires c.pc == ReadRevocations(AfterAudit) && CallInv(sh, c)
    requires Digests(c.chain) !! sh.revocations.revoked
    ensures CallInv(sh, Goto(WithRevocations(sh, c), FinalTime))
  {
    var c' := Goto(WithRevocations(sh, c), FinalTime);
    EvidenceComplete(sh, c);
    hide Checked, IssuersSound, RefsSound, Parses;
    assert Ids(c') == Ids(c);
    assert AuditedInv(sh, c');
  }

  lemma ReadRevocationsInv(sh: Shared, id: nat, c: Call, failed: bool)
    requires c.pc.ReadRevocations? && CallInv(sh, c)
    ensures CallInv(sh, ReadStep(sh, id, c, failed))
  {
    var c' := ReadStep(sh, id, c, failed);
    NoneRevoked(c.chain, sh.revocations.revoked);
    hide CallInv, RevocationReason;
    if c'.pc.RecordDenial? {
      DenialInv(sh, c');
    } else {
      match c.pc.round
      case Initial => FirstRevocationsInv(sh, c);
      case BeforeAudit => RevocationsBeforeAuditInv(sh, c);
      case AfterAudit => RevocationsAfterAuditInv(sh, c);
    }
  }

  /**
    The heart of the protocol: revisions read after the audit write equal those read before it, and
    every change moves a counter, so the state they describe was in force when the allow was written.
   */
  lemma UnchangedEvidenceIsLive(sh: Shared, c: Call)
    requires c.pc.FinalTime? && CallInv(sh, c) && c.current == c.audited
    ensures EvidenceIsLive(c.auditedIn.value, c)
    ensures c.auditedIn.value.issuers.policy.version == VERIFIER_POLICY_VERSION
    ensures Trusted(c.chain, c.auditedIn.value.issuers.policy)
    ensures PrincipalsCurrent(c.auditedIn.value.principals, Asserted(c.chain, c.request))
    ensures Digests(c.chain) !! c.auditedIn.value.revocations.revoked
  {
    var at := c.auditedIn.value;
    var ps := Asserted(c.chain, c.request);
    forall j | 0 <= j < |Ids(c)|
      ensures Ids(c)[j] in at.principals.bindings
      ensures c.audited.refs[j] == PrincipalRef(Ids(c)[j],
                PrincipalRevision(at.principals.counter, at.principals.bindings[Ids(c)[j]]))
    {
      assert RefSound(at.principals, ps, c.audited.refs[j]);
      assert c.audited.refs[j].revision.counter == at.principals.counter;
    }
    DistinctIdsAreTheNamed(ps);
    forall p | p in ps
      ensures p.id in at.principals.bindings && at.principals.bindings[p.id] == Binding(p, true)
    {
      assert p.id in Ids(c);
      var j :| 0 <= j < |Ids(c)| && Ids(c)[j] == p.id;
      assert RefSound(at.principals, ps, c.audited.refs[j]);
    }
  }

  lemma AllowedIsJustified(sh: Shared, c: Call)
    requires c.pc.FinalTime? && CallInv(sh, c) && c.current == c.audited
    requires ChainTimeReason(c.chain, sh.now).None?
    ensures Justified(c.auditedIn.value, c.chain, c.request)
  {
    UnchangedEvidenceIsLive(sh, c);
    var at := c.auditedIn.value;
    TimelyIsNoTimeReason(c.chain, sh.now);
    hide RefsSound, RevisionSound, IssuersSound, EvidenceIsLive, PrincipalsCurrent, ChainTimeReason;
    assert Timely(c.chain, at.now);
    AcceptedChain(c.chain, at.issuers.policy, at.now);
  }

  lemma ReturnAllowInv(sh: Shared, id: nat, c: Call)
    requires c.pc.FinalTime? && CallInv(sh, c) && c.current == c.audited
    requires ChainTimeReason(c.chain, sh.now).None?
    ensures CallInv(sh, Goto(c, Returned(Decision(id, 1, Allow(c.audited)))))
  {
    AllowedIsJustified(sh, c);
    UnchangedEvidenceIsLive(sh, c);
    hide RefsSound, RevisionSound, IssuersSound, Justified, Checked, ChainTimeReason;
    var c' := Goto(c, Returned(Decision(id, 1, Allow(c.audited))));
    assert Ids(c') == Ids(c) && AuditedInv(sh, c');
  }

  lemma FinalTimeInv(sh: Shared, id: nat, c: Call, failed: bool)
    requires c.pc.FinalTime? && CallInv(sh, c)
    ensures CallInv(sh, ReadStep(sh, id, c, failed))
  {
    var c' := ReadStep(sh, id, c, failed);
    hide CallInv, ChainTimeReason;
    if c'.pc.RecordDenial? {
      DenialInv(sh, c');
    } else {
      ReturnAllowInv(sh, id, c);
    }
  }

  lemma RecordAllowInv(sh: Shared, id: nat, c: Call, fault: Fault)
    requires c.pc.RecordAllow? && CallInv(sh, c)
    ensures var (sh', c') := RecordAllowStep(sh, id, c, fault); CallInv(sh', c')
  {
    var (sh', c') := RecordAllowStep(sh, id, c, fault);
    assert Evolves(sh, sh');
  }

  /** Passing a gate that reads nothing: only the new fact of the next stage is needed. */
  lemma GotoInv(sh: Shared, c: Call, pc: Pc)
    requires CallInv(sh, c) && Progress(sh, Goto(c, pc))
    requires Stage(c.pc) in {4, 5, 6, 7} && Stage(pc) == Stage(c.pc) + 1
    ensures CallInv(sh, Goto(c, pc))
  {
    var c' := Goto(c, pc);
    assert Reading(sh, c');
    assert AuditedInv(sh, c) ==> AuditedInv(sh, c');
  }

  lemma ChildIsIrrelevant(sh: Shared, c: Call, child: Child)
    requires CallInv(sh, c)
    ensures CallInv(sh, c.(child := child))
  {
    var c' := c.(child := child);
    assert Progress(sh, c') && Reading(sh, c');
    assert AuditedInv(sh, c) ==> AuditedInv(sh, c');
  }

  lemma MintStepInv(sh: Shared, c: Call, seal: Seal)
    requires c.pc.Returned? && c.chain != [] && CallInv(sh, c)
    ensures var (sh', c') := MintStep(sh, c, seal); CallInv(sh', c')
  {
    var (sh', c') := MintStep(sh, c, seal);
    assert Evolves(sh, sh');
    EnvironmentKeepsCallInv(sh, sh', c);
    ChildIsIrrelevant(sh', c, c'.child);
  }

  lemma ReserveStepInv(sh: Shared, c: Call, fault: Fault)
    requires c.pc.Reserve? && CallInv(sh, c)
    ensures var (sh', c') := ReserveStep(sh, c, fault); CallInv(sh', c')
  {
    var (sh', c') := ReserveStep(sh, c, fault);
    if c'.pc.RecordDenial? {
      DenialInv(sh', c');
    } else {
      assert Evolves(sh, sh');
      EnvironmentKeepsCallInv(sh, sh', c);
      GotoInv(sh', c, CheckTimeAgain);
    }
  }

  /** `c` with the issuer policy of `sh` read. */
  function WithIssuers(sh: Shared, c: Call): Call {
    c.(current := c.current.(issuers := Some(sh.issuers)))
  }

  lemma FirstIssuersInv(sh: Shared, c: Call)
    requires c.pc == ReadIssuers(Initial) && CallInv(sh, c)
    requires sh.issuers.policy.version == VERIFIER_POLICY_VERSION
    ensures CallInv(sh, StartReadingPrincipals(WithIssuers(sh, c), Initial))
  {
  }

  lemma IssuersAgainInv(sh: Shared, c: Call, round: Round)
    requires c.pc == ReadIssuers(round) && !round.Initial? && CallInv(sh, c)
    requires sh.issuers.policy.version == VERIFIER_POLICY_VERSION
    ensures CallInv(sh, Goto(WithIssuers(sh, c), CheckChain(round)))
  {
    hide Checked, RefsSound, RevisionSound, Parses;
    var c' := Goto(WithIssuers(sh, c), CheckChain(round));
    assert AuditedInv(sh, c) ==> AuditedInv(sh, c');
  }

  lemma ReadIssuersInv(sh: Shared, id: nat, c: Call, failed: bool)
    requires c.pc.ReadIssuers? && CallInv(sh, c)
    ensures CallInv(sh, ReadStep(sh, id, c, failed))
  {
    var c' := ReadStep(sh, id, c, failed);
    hide CallInv;
    if c'.pc.RecordDenial? {
      DenialInv(sh, c');
    } else if c.pc.round.Initial? {
      FirstIssuersInv(sh, c);
    } else {
      IssuersAgainInv(sh, c, c.pc.round);
    }
  }

  lemma GateStepInv(sh: Shared, id: nat, c: Call, failed: bool)
    requires c.pc.VerifySignatures? || c.pc.CheckTime? || c.pc.CheckTimeAgain?
    requires CallInv(sh, c)
    ensures CallInv(sh, ReadStep(sh, id, c, failed))
  {
    var c' := ReadStep(sh, id, c, failed);
    if c'.pc.RecordDenial? {
      DenialInv(sh, c');
    } else {
      GotoInv(sh, c, c'.pc);
    }
  }

  lemma ReadStepInv(sh: Shared, id: nat, c: Call, failed: bool)
    requires CallInv(sh, c) && c.chain != []
    ensures CallInv(sh, ReadStep(sh, id, c, failed))
  {
    match c.pc
    case ReadIssuers(_) => ReadIssuersInv(sh, id, c, failed);
    case ReadPrincipals(round, k) =>
      if failed {
        DenialInv(sh, Denied(c, BackendUnavailable, Attempt(round)));
      } else {
        PrincipalStepInv(sh, c, round, k);
      }
    case CheckChain(_) => CheckChainInv(sh, id, c, failed);
    case ReadRevocations(_) => ReadRevocationsInv(sh, id, c, failed);
    case VerifySignatures => GateStepInv(sh, id, c, failed);
    case CheckTime => GateStepInv(sh, id, c, failed);
    case CheckTimeAgain => GateStepInv(sh, id, c, failed);
    case FinalTime => FinalTimeInv(sh, id, c, failed);
    case _ =>
  }

  lemma StepInv(sh: Shared, id: nat, c: Call, fault: Fault, seal: Seal)
    requires CallInv(sh, c)
    ensures var (sh', c') := Step(sh, id, c, fault, seal); CallInv(sh', c')
  {
    if c.pc.RecordDenial? || c.chain == [] {
    } else if c.pc.Reserve? {
      ReserveStepInv(sh, c, fault);
    } else if c.pc.RecordAllow? {
      RecordAllowInv(sh, id, c, fault);
    } else if c.pc.Returned? {
      MintStepInv(sh, c, seal);
    } else {
      ReadStepInv(sh, id, c, !fault.Works?);
    }
  }

  // ---------------------------------------------------------------------------
  // Every reachable state
  // ---------------------------------------------------------------------------

  ghost predicate Inv(s: State) {
    forall i :: 0 <= i < |s.calls| ==> CallInv(s.shared, s.calls[i])
  }

  lemma OtherCallsKeepInv(s: State, shared: Shared)
    requires Inv(s) && Evolves(s.shared, shared)
    ensures Inv(State(shared, s.calls))
  {
    forall i | 0 <= i < |s.calls| ensures CallInv(shared, s.calls[i]) {
      EnvironmentKeepsCallInv(s.shared, shared, s.calls[i]);
    }
  }

  lemma AdvanceKeepsInv(s: State, i: nat, fault: Fault, seal: Seal)
    requires Inv(s) && i < |s.calls|
    ensures Inv(Apply(s, Advance(i, fault, seal)))
  {
    var (shared, c) := Step(s.shared, i, s.calls[i], fault, seal);
    ApplyEvolves(s, Advance(i, fault, seal));
    StepInv(s.shared, i, s.calls[i], fault, seal);
    hide CallInv, Step, Evolves;
    OtherCallsKeepInv(s, shared);
  }

  lemma BeginKeepsInv(s: State, presented: Presented, request: Request, job: Job)
    requires Inv(s)
    ensures Inv(State(s.shared, s.calls + [NewCall(presented, request, job)]))
  {
    NewCallInv(s.shared, presented, request, job);
  }

  lemma ApplyKeepsInv(s: State, e: Event)
    requires Inv(s)
    ensures Inv(Apply(s, e))
  {
    ApplyEvolves(s, e);
    hide Inv, Evolves, NewCall, Step;
    match e
    case Advance(i, fault, seal) =>
      if i < |s.calls| {
        AdvanceKeepsInv(s, i, fault, seal);
      }
    case BeginAuthorize(presented, request) => BeginKeepsInv(s, presented, request, AuthorizeOnly);
    case BeginDelegate(parent, authenticated, child) =>
      if Apply(s, e) != s {
        BeginKeepsInv(s, Chain(parent), Request(authenticated, parent[|parent| - 1].scope), Delegate(child));
      }
    case _ => OtherCallsKeepInv(s, Apply(s, e).shared);
  }

  lemma {:induction false} RunKeepsInv(s: State, events: seq<Event>)
    requires Init(s)
    ensures Inv(Run(s, events))
    decreases |events|
  {
    if events != [] {
      RunKeepsInv(s, events[..|events| - 1]);
      ApplyKeepsInv(Run(s, events[..|events| - 1]), events[|events| - 1]);
    }
  }

  /** The history variable tells the truth: it is the state just before this call wrote its allow. */
  lemma {:induction false} AuditedInWasReached(s: State, events: seq<Event>, i: nat) returns (k: nat)
    requires Init(s)
    requires i < |Run(s, events).calls| && Run(s, events).calls[i].auditedIn.Some?
    ensures k < |events| && events[k].Advance? && events[k].call == i
    ensures var before := Run(s, events[..k]);
            && i < |before.calls| && before.calls[i].pc.RecordAllow?
            && Run(s, events).calls[i].auditedIn == Some(before.shared)
    decreases |events|
  {
    var n := |events| - 1;
    var before := Run(s, events[..n]);
    if i < |before.calls| && before.calls[i].auditedIn == Run(s, events).calls[i].auditedIn {
      k := AuditedInWasReached(s, events[..n], i);
      assert events[..n][..k] == events[..k];
    } else {
      k := n;
    }
  }

  /**
    Event `k` wrote the audit record of call `i`, and just before it the call was rightly allowed: the
    chain was accepted, every named principal bound and active, nothing in the chain revoked or expired,
    every link signed, and the recorded revisions were the ones in force.
   */
  ghost predicate WasTrueAt(s: State, events: seq<Event>, i: nat, k: nat)
    requires i < |Run(s, events).calls| && k < |events|
  {
    var c := Run(s, events).calls[i];
    var before := Run(s, events[..k]);
    && events[k].Advance? && events[k].call == i
    && i < |before.calls| && before.calls[i].pc.RecordAllow?
    && Justified(before.shared, c.chain, c.request)
    && EvidenceIsLive(before.shared, c)
    && c.pc.Returned? && c.pc.decision.verdict == Allow(c.audited)
  }

  /** Every returned allow was true at one instant of the run, the instant its audit record was written. */
  lemma AllowIsTrueAtItsAuditRecord(s: State, events: seq<Event>, i: nat)
    requires Init(s)
    requires i < |Run(s, events).calls| && Allowed(Run(s, events).calls[i])
    ensures exists k :: 0 <= k < |events| && WasTrueAt(s, events, i, k)
  {
    hide Apply, Run;
    RunKeepsInv(s, events);
    assert CallInv(Run(s, events).shared, Run(s, events).calls[i]);
    var k := AuditedInWasReached(s, events, i);
    assert WasTrueAt(s, events, i, k);
  }

  // ---------------------------------------------------------------------------
  // Revocation
  // ---------------------------------------------------------------------------

  lemma RevokedStays(s: State, events: seq<Event>, n: nat, k: nat)
    requires n <= k <= |events|
    ensures Run(s, events[..n]).shared.revocations.revoked <= Run(s, events[..k]).shared.revocations.revoked
    ensures |Run(s, events[..n]).calls| <= |Run(s, events[..k]).calls|
  {
    RunSplit(s, events[..k], n);
    assert events[..k][..n] == events[..n];
    RunEvolves(Run(s, events[..n]), events[..k][n..]);
  }

  /**
    Once `d` is revoked, no call that begins later is ever allowed on `d` or on anything that
    descends from it, whatever else happens during the rest of the run.
   */
  lemma RevocationIsPermanentAndCascades(s: State, events: seq<Event>, n: nat, i: nat, d: Digest)
    requires Init(s) && n <= |events|
    requires d in Run(s, events[..n]).shared.revocations.revoked
    requires |Run(s, events[..n]).calls| <= i < |Run(s, events).calls|
    requires Allowed(Run(s, events).calls[i])
    ensures var chain := Run(s, events).calls[i].chain;
            chain != [] && !DescendsFrom(chain[|chain| - 1], d)
  {
    hide Apply, Run, EvidenceIsLive, PrincipalsCurrent;
    var c := Run(s, events).calls[i];
    AllowIsTrueAtItsAuditRecord(s, events, i);
    var k :| 0 <= k < |events| && WasTrueAt(s, events, i, k);
    if k < n {
      RevokedStays(s, events, k, n);
      assert false;
    }
    RevokedStays(s, events, n, k);
    var at := Run(s, events[..k]).shared;
    AcceptedChain(c.chain, at.issuers.policy, at.now);
    ChainShowsAncestry(c.chain, d);
    assert forall x :: x in c.chain ==> DigestOf(x) in Digests(c.chain);
  }
}
