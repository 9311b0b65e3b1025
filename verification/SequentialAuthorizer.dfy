/**
  The authorizer as one method over its backends, in the order in which it consults them,
  with a clock that moves between any two accesses and accesses that may fail. It is proved
  to do what the transition system does when no other call runs meanwhile.
 */
module SequentialAuthorizer {
  import opened Wrappers
  import opened Credentials
  import opened Issuance
  import opened Backends
  import opened Authorizer
  import opened AuthorizerSafety
  import opened Admission

  // ---------------------------------------------------------------------------
  // One stage at a time
  // ---------------------------------------------------------------------------

  /** From either of these situations the call ends in the same way. */
  ghost predicate SameEnd(o: Script, id: nat, m: Moment, c: Call, m': Moment, c': Call) {
    Runnable(c) && Runnable(c') && Complete(o, m, id, c) == Complete(o, m', id, c')
  }

  predicate Fails(o: Script, m: Moment) {
    !o(m.n).fault.Works?
  }

  lemma StepSameEnd(o: Script, id: nat, m: Moment, c: Call, sh': Shared, c': Call)
    requires Runnable(c) && !c.pc.Returned?
    requires Step(Next(o, m).shared, id, c, o(m.n).fault, NO_SEAL) == (sh', c')
    ensures SameEnd(o, id, m, c, Moment(m.n + 1, sh'), c')
  {
    StepDescends(Next(o, m).shared, id, c, o(m.n).fault);
  }

  lemma ReadSameEnd(o: Script, id: nat, m: Moment, c: Call)
    requires Runnable(c) && c.chain != []
    requires !c.pc.Reserve? && !c.pc.RecordAllow? && !c.pc.RecordDenial? && !c.pc.Returned?
    ensures SameEnd(o, id, m, c, Next(o, m), ReadStep(Next(o, m).shared, id, c, Fails(o, m)))
  {
    hide Complete, Runnable, ReadStep;
    StepSameEnd(o, id, m, c, Next(o, m).shared, ReadStep(Next(o, m).shared, id, c, Fails(o, m)));
  }

  lemma FromReadIssuers(o: Script, id: nat, m: Moment, c: Call, round: Round)
    requires Runnable(c) && c.pc == ReadIssuers(round)
    ensures var sh, read := m.shared, WithIssuers(m.shared, c);
            SameEnd(o, id, m, c, Next(o, m),
                    if Fails(o, m) then Denied(c, BackendUnavailable, Attempt(round))
                    else if sh.issuers.policy.version != VERIFIER_POLICY_VERSION
                    then Denied(c, PolicyMismatch, Attempt(round))
                    else if round.Initial? then StartReadingPrincipals(read, round)
                    else Goto(read, CheckChain(round)))
  {
    hide Complete;
    ReadSameEnd(o, id, m, c);
  }

  function AfterPrincipals(round: Round): Pc {
    if round.Initial? then CheckChain(Initial) else ReadRevocations(round)
  }

  /** Where a call is that has read its first `k` ids with these references. */
  function PrincipalsRead(c: Call, round: Round, k: nat, refs: seq<PrincipalRef>): Call {
    Goto(c.(current := c.current.(refs := refs)),
         if k < |Ids(c)| then ReadPrincipals(round, k) else AfterPrincipals(round))
  }

  lemma FromReadPrincipal(o: Script, id: nat, m: Moment, c: Call, round: Round, k: nat, refs: seq<PrincipalRef>)
    requires c.chain != [] && k < |Ids(c)|
    ensures var read, snapshot := PrincipalsRead(c, round, k, refs), PrincipalSnapshot(m.shared.principals, Ids(c)[k]);
            SameEnd(o, id, m, read, Next(o, m),
                    if Fails(o, m) then Denied(read, BackendUnavailable, Attempt(round))
                    else if snapshot.None? then Denied(read, PrincipalUnbound, Attempt(round))
                    else
                      var next := PrincipalsRead(c, round, k + 1, refs + [PrincipalRef(Ids(c)[k], snapshot.value)]);
                      OrDeny(next, BindingReason(snapshot.value.binding, Asserted(c.chain, c.request), Ids(c)[k]),
                             Attempt(round), next))
  {
    hide Complete, BindingReason;
    var read := PrincipalsRead(c, round, k, refs);
    assert Ids(read) == Ids(c);
    ReadSameEnd(o, id, m, read);
  }

  lemma FromCheckChain(o: Script, id: nat, m: Moment, c: Call, round: Round)
    requires Runnable(c) && c.pc == CheckChain(round)
    ensures SameEnd(o, id, m, c, Next(o, m),
                    if Fails(o, m) then Denied(c, BackendUnavailable, Attempt(round))
                    else OrDeny(c, ChainReason(c.chain, PolicyRead(c), Next(o, m).shared.now), Attempt(round),
                                if round.Initial? then Goto(c, ReadRevocations(round))
                                else StartReadingPrincipals(c, round)))
  {
    hide Complete, ChainReason;
    ReadSameEnd(o, id, m, c);
  }

  function AfterRevocations(round: Round): Pc {
    match round
    case Initial => VerifySignatures
    case BeforeAudit => RecordAllow
    case AfterAudit => FinalTime
  }

  lemma FromReadRevocations(o: Script, id: nat, m: Moment, c: Call, round: Round)
    requires Runnable(c) && c.chain != [] && c.pc == ReadRevocations(round)
    ensures var read := WithRevocations(m.shared, c);
            SameEnd(o, id, m, c, Next(o, m),
                    if Fails(o, m) then Denied(c, BackendUnavailable, Attempt(round))
                    else OrDeny(read, RevocationReason(c.chain, m.shared.revocations.revoked), Attempt(round),
                                Goto(read, AfterRevocations(round))))
  {
    hide Complete, RevocationReason;
    ReadSameEnd(o, id, m, c);
  }

  lemma FromVerifySignatures(o: Script, id: nat, m: Moment, c: Call)
    requires Runnable(c) && c.pc == VerifySignatures
    ensures SameEnd(o, id, m, c, Next(o, m),
                    OrDeny(c, SignatureReason(c.chain, if Fails(o, m) then {} else m.shared.minted), 1,
                           Goto(c, CheckTime)))
  {
    hide Complete, SignatureReason;
    ReadSameEnd(o, id, m, c);
  }

  lemma FromCheckTime(o: Script, id: nat, m: Moment, c: Call)
    requires Runnable(c) && c.chain != [] && c.pc == CheckTime
    ensures SameEnd(o, id, m, c, Next(o, m),
                    if Fails(o, m) then Denied(c, BackendUnavailable, 1)
                    else OrDeny(c, ChainTimeReason(c.chain, Next(o, m).shared.now), 1,
                                OrDeny(c, RequestReason(c.chain[|c.chain| - 1], c.request), 1, Goto(c, Reserve))))
  {
    hide Complete, ChainTimeReason, RequestReason;
    ReadSameEnd(o, id, m, c);
  }

  lemma FromReserve(o: Script, id: nat, m: Moment, c: Call)
    requires Runnable(c) && c.chain != [] && c.pc == Reserve
    ensures var (sh', c') := ReserveStep(Next(o, m).shared, c, o(m.n).fault);
            SameEnd(o, id, m, c, Moment(m.n + 1, sh'), c')
  {
    hide Complete, Runnable, AfterReserve, Held;
    var (sh', c') := ReserveStep(Next(o, m).shared, c, o(m.n).fault);
    StepSameEnd(o, id, m, c, sh', c');
  }

  lemma FromCheckTimeAgain(o: Script, id: nat, m: Moment, c: Call)
    requires Runnable(c) && c.pc == CheckTimeAgain
    ensures SameEnd(o, id, m, c, Next(o, m),
                    if Fails(o, m) then Denied(c, BackendUnavailable, 1)
                    else OrDeny(c, ChainTimeReason(c.chain, Next(o, m).shared.now), 1,
                                Goto(c, ReadIssuers(BeforeAudit))))
  {
    hide Complete, ChainTimeReason;
    ReadSameEnd(o, id, m, c);
  }

  lemma FromRecordAllow(o: Script, id: nat, m: Moment, c: Call)
    requires Runnable(c) && c.pc == RecordAllow
    ensures var (sh', c') := RecordAllowStep(Next(o, m).shared, id, c, o(m.n).fault);
            SameEnd(o, id, m, c, Moment(m.n + 1, sh'), c')
  {
    hide Complete, Runnable;
    var (sh', c') := RecordAllowStep(Next(o, m).shared, id, c, o(m.n).fault);
    RunnableHasChain(c);
    StepSameEnd(o, id, m, c, sh', c');
  }

  lemma RunnableHasChain(c: Call)
    requires Runnable(c) && !c.pc.RecordDenial? && !c.pc.Returned?
    ensures c.chain != []
  {
  }

  lemma FromFinalTime(o: Script, id: nat, m: Moment, c: Call)
    requires Runnable(c) && c.pc == FinalTime
    ensures SameEnd(o, id, m, c, Next(o, m),
                    if Fails(o, m) then Denied(c, BackendUnavailable, 2)
                    else OrDeny(c, ChainTimeReason(c.chain, Next(o, m).shared.now), 2,
                                if c.current != c.audited then Denied(c, CurrentStateChanged, 2)
                                else Goto(c, Returned(Decision(id, 1, Allow(c.audited))))))
  {
    hide Complete, ChainTimeReason;
    ReadSameEnd(o, id, m, c);
  }

  /** The call, begun at `start` as `c`, ends at `m` with this decision. */
  ghost predicate Ends(o: Script, id: nat, start: Moment, c: Call, m: Moment, decision: Decision) {
    Runnable(c) && Complete(o, start, id, c).0 == m && Complete(o, start, id, c).1.pc == Returned(decision)
  }

  lemma ReturnedEnds(o: Script, id: nat, start: Moment, c: Call, m: Moment, c': Call, decision: Decision)
    requires SameEnd(o, id, start, c, m, c') && c'.pc == Returned(decision)
    ensures Ends(o, id, start, c, m, decision)
  {
  }

  lemma DenialEnds(o: Script, id: nat, start: Moment, c: Call, m: Moment, c': Call, reason: Reason, attempt: nat)
    requires SameEnd(o, id, start, c, m, Denied(c', reason, attempt))
    ensures var (sh', returned) := RecordDenialStep(Next(o, m).shared, id, Denied(c', reason, attempt), o(m.n).fault);
            Ends(o, id, start, c, Moment(m.n + 1, sh'), returned.pc.decision)
  {
    hide Complete;
    var denied := Denied(c', reason, attempt);
    var (sh', returned) := RecordDenialStep(Next(o, m).shared, id, denied, o(m.n).fault);
    StepSameEnd(o, id, m, denied, sh', returned);
    ReturnedEnds(o, id, start, c, Moment(m.n + 1, sh'), returned, returned.pc.decision);
  }

  /** Which call this is, and how it began. */
  datatype Goal = Goal(id: nat, start: Moment, begun: Call)

  /** The call that began so has come to be `c` at `m`. */
  ghost predicate OnTrack(o: Script, g: Goal, m: Moment, c: Call) {
    SameEnd(o, g.id, g.start, g.begun, m, c)
  }

  /** One more stretch of the way. */
  lemma StayOnTrack(o: Script, g: Goal, m: Moment, c: Call)
    requires OnTrack(o, g, m, c)
    ensures forall m', c' :: SameEnd(o, g.id, m, c, m', c') ==> OnTrack(o, g, m', c')
    ensures Runnable(c)
  {
  }

  /** What ends so is a run of the transition system: the call begins, the clock ticks, and the call steps on. */
  lemma EndsIsARun(o: Script, m: Moment, calls: seq<Call>, presented: Presented, request: Request, m': Moment,
                   decision: Decision)
    returns (events: seq<Event>)
    requires Ends(o, |calls|, m, NewCall(presented, request, AuthorizeOnly), m', decision)
    ensures var s := Run(State(m.shared, calls), [BeginAuthorize(presented, request)] + events);
            && s.shared == m'.shared
            && |s.calls| == |calls| + 1 && s.calls[..|calls|] == calls
            && s.calls[|calls|].pc == Returned(decision)
    ensures forall e :: e in events ==> e.Tick? || (e.Advance? && e.call == |calls|)
  {
    hide Complete, Step, NewCall;
    var begun := calls + [NewCall(presented, request, AuthorizeOnly)];
    events := CompleteIsRun(o, m, begun, |calls|);
    RunCons(State(m.shared, calls), BeginAuthorize(presented, request), events);
  }

  // ---------------------------------------------------------------------------
  // Delegation
  // ---------------------------------------------------------------------------

  datatype DelegationError = ParentMalformed | NotAuthorized(decision: Decision) | NotMinted(why: DelegationFailure)

  type Delegation = Result<seq<Credential>, DelegationError>

  /** What the issuer makes of the seal: an issuer that fails signs nothing. */
  function SealAt(o: Script, m: Moment, seal: Seal): Seal {
    if Fails(o, m) then seal.(signature := "") else seal
  }

  function DelegateCall(parent: seq<Credential>, authenticated: Principal, child: ChildRequest): Call
    requires parent != []
  {
    NewCall(Chain(parent), Request(authenticated, parent[|parent| - 1].scope), Delegate(child))
  }

  /** What follows the authorization: a denial is passed on, and an allow is spent on issuing the child. */
  ghost predicate Spends(o: Script, parent: seq<Credential>, child: ChildRequest, seal: Seal,
                         m: Moment, decision: Decision, end: Moment, r: Delegation)
    requires parent != []
  {
    if decision.verdict.Deny? then r == Err(NotAuthorized(decision)) && end == m
    else
      && end == Next(o, m)
      && match IssueChild(SealAt(o, m, seal), parent[|parent| - 1], child, end.shared.now)
         case Ok(issued) => r == Ok(parent + [issued])
         case Err(e) => r == Err(NotMinted(NotIssued(e)))
  }

  /** A delegation by call number `id`, begun at `start`, ends at `end` with this result. */
  ghost predicate Delegates(o: Script, id: nat, start: Moment, parent: seq<Credential>, authenticated: Principal,
                            child: ChildRequest, seal: Seal, end: Moment, r: Delegation)
    requires parent != []
  {
    exists m, decision ::
      && Ends(o, id, start, DelegateCall(parent, authenticated, child), m, decision)
      && Spends(o, parent, child, seal, m, decision, end, r)
  }

  /** What the transition system shows for such a result. */
  ghost predicate Shows(c: Call, parent: seq<Credential>, r: Delegation, end: Shared, shared: Shared) {
    match r
    case Ok(chain) =>
      && Allowed(c) && c.chain == parent && chain != [] && chain[..|chain| - 1] == parent
      && c.child == Minted(chain[|chain| - 1])
      && shared == end.(minted := end.minted + {chain[|chain| - 1]})
    case Err(NotAuthorized(decision)) => c.pc == Returned(decision) && c.child.NoChild? && shared == end
    case Err(_) => Allowed(c) && c.child.IssuanceFailed? && shared == end
  }

  /** The mint step does what `Spends` says. */
  lemma MintShows(o: Script, parent: seq<Credential>, child: ChildRequest, seal: Seal, m: Moment, decision: Decision,
                  end: Moment, r: Delegation, c: Call)
    requires parent != [] && Spends(o, parent, child, seal, m, decision, end, r) && decision.verdict.Allow?
    requires c.pc == Returned(decision) && c.chain == parent && c.job == Delegate(child) && c.child.NoChild?
    ensures var (shared, c') := MintStep(end.shared, c, SealAt(o, m, seal)); Shows(c', parent, r, end.shared, shared)
  {
    hide IssueChild;
  }

  /** What `Delegate` does is a run of the transition system, which ends with the child recorded as minted. */
  lemma DelegatesIsARun(o: Script, start: Moment, calls: seq<Call>, parent: seq<Credential>, authenticated: Principal,
                        child: ChildRequest, seal: Seal, end: Moment, r: Delegation)
    returns (events: seq<Event>)
    requires parent != [] && WellFormed(parent[|parent| - 1]) && MayDelegate(parent[|parent| - 1], child)
    requires Delegates(o, |calls|, start, parent, authenticated, child, seal, end, r)
    ensures var s := Run(State(start.shared, calls), [BeginDelegate(parent, authenticated, child)] + events);
            && |s.calls| == |calls| + 1 && s.calls[..|calls|] == calls
            && Shows(s.calls[|calls|], parent, r, end.shared, s.shared)
  {
    hide Complete, Step, Run, MayDelegate, Spends;
    var id, c := |calls|, DelegateCall(parent, authenticated, child);
    var m, decision :| Ends(o, id, start, c, m, decision) && Spends(o, parent, child, seal, m, decision, end, r);
    var begin, s0 := BeginDelegate(parent, authenticated, child), State(start.shared, calls);
    events := CompleteIsRun(o, start, calls + [c], id);
    RunCons(s0, begin, events);
    CompleteLeavesAlone(o, start, id, c);
    var c' := Complete(o, start, id, c).1;
    var s := State(m.shared, (calls + [c])[id := c']);
    if decision.verdict.Allow? {
      AllowedIsParsed(o, id, start, Chain(parent), c.request, c.job, m, decision);
      var tick, mint := Tick(o(m.n).elapsed), Advance(id, Works, SealAt(o, m, seal));
      SpendingIsTwoEvents(o, parent, child, seal, m, decision, end, r, s, id);
      RunSnoc(s0, [begin] + events, tick);
      RunSnoc(s0, [begin] + events + [tick], mint);
      assert [begin] + events + [tick] + [mint] == [begin] + (events + [tick, mint]);
      events := events + [tick, mint];
    } else {
      DenialShows(o, parent, child, seal, m, decision, end, r, c');
    }
  }

  /** What does not parse is denied. */
  lemma AllowedIsParsed(o: Script, id: nat, start: Moment, presented: Presented, request: Request, job: Job,
                        m: Moment, decision: Decision)
    requires Ends(o, id, start, NewCall(presented, request, job), m, decision) && decision.verdict.Allow?
    ensures presented.Chain? && NewCall(presented, request, job).chain == presented.credentials != []
  {
    hide Complete, Step;
    var c := NewCall(presented, request, job);
    if c.chain == [] {
      DenialEnds(o, id, start, c, start, c, c.pc.reason, c.pc.attempt);
    }
  }

  lemma DenialShows(o: Script, parent: seq<Credential>, child: ChildRequest, seal: Seal, m: Moment, decision: Decision,
                    end: Moment, r: Delegation, c: Call)
    requires parent != [] && Spends(o, parent, child, seal, m, decision, end, r) && decision.verdict.Deny?
    requires c.pc == Returned(decision) && c.child.NoChild?
    ensures Shows(c, parent, r, end.shared, m.shared)
  {
  }

  lemma SpendingIsTwoEvents(o: Script, parent: seq<Credential>, child: ChildRequest, seal: Seal, m: Moment,
                            decision: Decision, end: Moment, r: Delegation, s: State, id: nat)
    requires parent != [] && Spends(o, parent, child, seal, m, decision, end, r) && decision.verdict.Allow?
    requires id < |s.calls| && s.shared == m.shared
    requires var c := s.calls[id];
             c.pc == Returned(decision) && c.chain == parent && c.job == Delegate(child) && c.child.NoChild?
    ensures var s' := Apply(Apply(s, Tick(o(m.n).elapsed)), Advance(id, Works, SealAt(o, m, seal)));
            && |s'.calls| == |s.calls| && s'.calls[..id] == s.calls[..id]
            && Shows(s'.calls[id], parent, r, end.shared, s'.shared)
  {
    hide IssueChild, Shows, MintStep, ReadStep;
    MintShows(o, parent, child, seal, m, decision, end, r, s.calls[id]);
  }

  // ---------------------------------------------------------------------------
  // The program
  // ---------------------------------------------------------------------------

  class InMemoryAuditSink {
    var decisions: seq<Decision>

    constructor ()
      ensures decisions == []
    {
      decisions := [];
    }

    method Record(decision: Decision)
      modifies this
      ensures decisions == old(decisions) + [decision]
    {
      decisions := decisions + [decision];
    }
  }

  /** The first credential of a chain that is unsigned or whose signature does not verify. */
  method VerifySignaturesOf(chain: seq<Credential>, verifying: set<Credential>) returns (reason: Option<Reason>)
    ensures reason == SignatureReason(chain, verifying)
  {
    for i := 0 to |chain|
      invariant SignatureReason(chain, verifying) == SignatureReason(chain[i..], verifying)
    {
      assert chain[i..][1..] == chain[i + 1..];
      if chain[i].signature == "" {
        return Some(UnsignedCredential);
      }
      if chain[i] !in verifying {
        return Some(InvalidSignature);
      }
    }
    return None;
  }

  class CapabilityAuthorizer {
    const env: Environment
    const issuers: StaticTrustedIssuerBackend
    const principals: InMemoryPrincipalPolicyBackend
    const revocations: InMemoryRevocationBackend
    const replay: InMemoryReplayBackend
    const audit: InMemoryAuditSink

    constructor (env: Environment, issuers: StaticTrustedIssuerBackend, principals: InMemoryPrincipalPolicyBackend,
                 revocations: InMemoryRevocationBackend, replay: InMemoryReplayBackend, audit: InMemoryAuditSink)
      ensures this.env == env && this.issuers == issuers && this.principals == principals
      ensures this.revocations == revocations && this.replay == replay && this.audit == audit
    {
      this.env, this.issuers, this.principals := env, issuers, principals;
      this.revocations, this.replay, this.audit := revocations, replay, audit;
    }

    /** What the backends hold; which signatures verify comes from outside. */
    ghost function State(verifying: set<Credential>): Shared
      reads env, principals, revocations, replay, audit
    {
      Shared(env.now, issuers.State(), principals.State(), revocations.State(), replay.reservations,
             audit.decisions, verifying)
    }

    ghost function Now(verifying: set<Credential>): Moment
      reads env, principals, revocations, replay, audit
    {
      Moment(env.accesses, State(verifying))
    }

    /** Write the denial; if that fails, the caller sees another. */
    method DenyAndRecord(reason: Reason, attempt: nat, verifying: set<Credential>, id: nat,
                         ghost g: Goal, ghost c: Call)
      returns (decision: Decision)
      requires g.id == id && OnTrack(env.script, g, Now(verifying), Denied(c, reason, attempt))
      modifies env, audit
      ensures Ends(env.script, id, g.start, g.begun, Now(verifying), decision)
      ensures decision == Decision(id, attempt, Deny(if Fails(env.script, old(Now(verifying))) then AuditUnavailable
                                                    else reason))
    {
      hide SameEnd, Ends;
      DenialEnds(env.script, id, g.start, g.begun, Now(verifying), c, reason, attempt);
      decision := Decision(id, attempt, Deny(reason));
      var fault := env.Next();
      if !fault.Raises? {
        audit.Record(decision);
      }
      if !fault.Works? {
        decision := Decision(id, attempt, Deny(AuditUnavailable));
      }
    }

    method CheckRevocations(chain: seq<Credential>) returns (reason: Option<Reason>, revision: RevocationState)
      requires chain != []
      ensures reason == RevocationReason(chain, revocations.State().revoked)
      ensures revision == revocations.State()
    {
      var revokedHere: set<Digest>;
      revision, revokedHere := revocations.Snapshot(Digests(chain));
      var leaf := chain[|chain| - 1];
      assert forall c :: c in chain ==> (DigestOf(c) in revokedHere <==> DigestOf(c) in revision.revoked);
      if DigestOf(leaf) in revokedHere {
        return Some(Revoked), revision;
      }
      if exists c :: c in chain[..|chain| - 1] && DigestOf(c) in revokedHere {
        return Some(AncestorRevoked), revision;
      }
      assert chain == chain[..|chain| - 1] + [leaf];
      reason := None;
    }

    /** Consult the backend for one id, under which these values are asserted. */
    method ConsultPrincipal(name: string, values: seq<Principal>, ghost ps: seq<Principal>)
      returns (reason: Option<Reason>, reference: Option<PrincipalRef>)
      requires ListsAsserted(ps, name, values)
      modifies env
      ensures env.accesses == old(env.accesses) + 1
      ensures env.now == old(env.now) + env.script(old(env.accesses)).elapsed
      ensures var snapshot := PrincipalSnapshot(principals.State(), name);
              if !env.script(old(env.accesses)).fault.Works?
              then reason == Some(BackendUnavailable) && reference.None?
              else if snapshot.None? then reason == Some(PrincipalUnbound) && reference.None?
              else reason == BindingReason(snapshot.value.binding, ps, name)
                   && reference == Some(PrincipalRef(name, snapshot.value))
    {
      assert values[0] in values;
      var fault := env.Next();
      if !fault.Works? {
        return Some(BackendUnavailable), None;
      }
      var snapshot := principals.Snapshot(values[0]);
      if snapshot.None? {
        return Some(PrincipalUnbound), None;
      }
      reference := Some(PrincipalRef(name, snapshot.value));
      assert AllMatch(ps, name, snapshot.value.binding.principal) <==>
             forall v :: v in values ==> v == snapshot.value.binding.principal;
      if exists v :: v in values && v != snapshot.value.binding.principal {
        return Some(PrincipalRebound), reference;
      }
      if !snapshot.value.binding.active {
        return Some(PrincipalInactive), reference;
      }
      reason := None;
    }

    /** Consult the backend for each id that the chain and the request name; the first objection wins. */
    method ValidatePrincipals(chain: seq<Credential>, request: Request, verifying: set<Credential>, round: Round,
                              ghost g: Goal, ghost c: Call)
      returns (reason: Option<Reason>, references: seq<PrincipalRef>)
      requires c.chain == chain != [] && c.request == request
      requires OnTrack(env.script, g, Now(verifying), StartReadingPrincipals(c, round))
      modifies env
      ensures var read := c.(current := c.current.(refs := references));
              OnTrack(env.script, g, Now(verifying),
                      OrDeny(read, reason, Attempt(round), Goto(read, AfterPrincipals(round))))
      ensures reason.None? ==> PrincipalsCurrent(principals.State(), Asserted(chain, request))
      ensures PrincipalsCurrent(principals.State(), Asserted(chain, request)) ==>
              reason.None? || reason == Some(BackendUnavailable)
    {
      hide OnTrack, SameEnd, PrincipalsCurrent, BindingReason, DistinctIds, Asserted, ListsAsserted;
      ghost var s := principals.State();
      var ps := Asserted(chain, request);
      var order, asserted := GatherAsserted(ps);
      assert order == Ids(c);
      CurrentIsNoObjection(s, ps);
      references := [];
      ReadingStarts(c, round);
      for k := 0 to |order|
        invariant principals.State() == s
        invariant OnTrack(env.script, g, Now(verifying), PrincipalsRead(c, round, k, references))
        invariant NoObjections(s, ps, order, 0, k)
      {
        assert order[k] in asserted;
        FromReadPrincipal(env.script, g.id, Now(verifying), c, round, k, references);
        StayOnTrack(env.script, g, Now(verifying), PrincipalsRead(c, round, k, references));
        var reference;
        reason, reference := ConsultPrincipal(order[k], asserted[order[k]], ps);
        assert reason.None? ==> Unobjectionable(s, ps, order[k]);
        assert reason.Some? ==> reason == Some(BackendUnavailable) || !Unobjectionable(s, ps, order[k]);
        if reference.Some? {
          references := references + [reference.value];
        }
        if reason.Some? {
          return;
        }
      }
      reason := None;
    }

    method ReadIssuerPolicy(verifying: set<Credential>, round: Round, ghost g: Goal, ghost c: Call)
      returns (reason: Option<Reason>, snapshot: IssuerState)
      requires c.chain != [] && c.pc == ReadIssuers(round) && OnTrack(env.script, g, Now(verifying), c)
      modifies env
      ensures snapshot == issuers.State()
      ensures reason.None? ==> snapshot.policy.version == VERIFIER_POLICY_VERSION
      ensures var read := c.(current := c.current.(issuers := Some(snapshot)));
              OnTrack(env.script, g, Now(verifying),
                      if reason.Some? then Denied(c, reason.value, Attempt(round))
                      else if round.Initial? then StartReadingPrincipals(read, round)
                      else Goto(read, CheckChain(round)))
    {
      hide OnTrack, SameEnd;
      StayOnTrack(env.script, g, Now(verifying), c);
      FromReadIssuers(env.script, g.id, Now(verifying), c, round);
      var fault := env.Next();
      snapshot := issuers.Snapshot();
      if !fault.Works? {
        return Some(BackendUnavailable), snapshot;
      }
      if snapshot.policy.version != VERIFIER_POLICY_VERSION {
        return Some(PolicyMismatch), snapshot;
      }
      reason := None;
    }

    method CheckChainAgainst(policy: IssuerPolicy, chain: seq<Credential>, verifying: set<Credential>, round: Round,
                             ghost g: Goal, ghost c: Call)
      returns (reason: Option<Reason>)
      requires c.chain == chain != [] && c.pc == CheckChain(round) && PolicyRead(c) == policy
      requires OnTrack(env.script, g, Now(verifying), c)
      modifies env
      ensures reason.None? ==> ChainReason(chain, policy, env.now).None?
      ensures OnTrack(env.script, g, Now(verifying),
                      OrDeny(c, reason, Attempt(round),
                             if round.Initial? then Goto(c, ReadRevocations(round))
                             else StartReadingPrincipals(c, round)))
    {
      hide OnTrack, SameEnd, ChainReason, Runnable;
      StayOnTrack(env.script, g, Now(verifying), c);
      FromCheckChain(env.script, g.id, Now(verifying), c, round);
      var fault := env.Next();
      if !fault.Works? {
        return Some(BackendUnavailable);
      }
      reason := ValidateChain(chain, policy, env.now);
    }

    method ReadRevocationState(chain: seq<Credential>, verifying: set<Credential>, round: Round,
                               ghost g: Goal, ghost c: Call)
      returns (reason: Option<Reason>, revision: Option<RevocationState>)
      requires c.chain == chain != [] && c.pc == ReadRevocations(round) && OnTrack(env.script, g, Now(verifying), c)
      modifies env
      ensures reason.None? ==>
              revision == Some(revocations.State()) && Digests(chain) !! revocations.State().revoked
      ensures revision.None? ==> reason.Some?
      ensures var read := if revision.Some? then c.(current := c.current.(revocations := revision)) else c;
              OnTrack(env.script, g, Now(verifying),
                      OrDeny(read, reason, Attempt(round), Goto(read, AfterRevocations(round))))
    {
      hide OnTrack, SameEnd, RevocationReason, Runnable;
      StayOnTrack(env.script, g, Now(verifying), c);
      FromReadRevocations(env.script, g.id, Now(verifying), c, round);
      NoneRevoked(chain, revocations.State().revoked);
      var fault := env.Next();
      if !fault.Works? {
        return Some(BackendUnavailable), None;
      }
      var read;
      reason, read := CheckRevocations(chain);
      revision := Some(read);
    }

    method CheckSignatures(chain: seq<Credential>, verifying: set<Credential>, ghost g: Goal, ghost c: Call)
      returns (reason: Option<Reason>)
      requires c.chain == chain && c.pc == VerifySignatures && OnTrack(env.script, g, Now(verifying), c)
      modifies env
      ensures reason.None? ==> forall x :: x in chain ==> x.signature != "" && x in verifying
      ensures OnTrack(env.script, g, Now(verifying), OrDeny(c, reason, 1, Goto(c, CheckTime)))
    {
      hide OnTrack, SameEnd, Runnable;
      StayOnTrack(env.script, g, Now(verifying), c);
      FromVerifySignatures(env.script, g.id, Now(verifying), c);
      var fault := env.Next();
      reason := VerifySignaturesOf(chain, if fault.Works? then verifying else {});
    }

    /** The clock, and then what the leaf is for. */
    method CheckLeaf(chain: seq<Credential>, request: Request, verifying: set<Credential>, ghost g: Goal, ghost c: Call)
      returns (reason: Option<Reason>)
      requires c.chain == chain != [] && c.request == request && c.pc == CheckTime
      requires OnTrack(env.script, g, Now(verifying), c)
      modifies env
      ensures reason.None? ==>
              && ChainTimeReason(chain, env.now).None?
              && chain[|chain| - 1].principal == request.principal && chain[|chain| - 1].scope == request.scope
      ensures OnTrack(env.script, g, Now(verifying), OrDeny(c, reason, 1, Goto(c, Reserve)))
    {
      hide OnTrack, SameEnd, Runnable, ChainTimeReason;
      StayOnTrack(env.script, g, Now(verifying), c);
      FromCheckTime(env.script, g.id, Now(verifying), c);
      var fault := env.Next();
      if !fault.Works? {
        return Some(BackendUnavailable);
      }
      reason := ValidateChainTime(chain, env.now);
      if reason.Some? {
        return;
      }
      var leaf := chain[|chain| - 1];
      if leaf.principal != request.principal {
        return Some(WrongPrincipal);
      }
      if leaf.scope != request.scope {
        return Some(WrongScope);
      }
    }

    /** The first reading of issuers, principals, chain and revocations. */
    method FirstReading(chain: seq<Credential>, request: Request, verifying: set<Credential>,
                        ghost g: Goal, ghost c: Call)
      returns (reason: Option<Reason>, ghost c': Call)
      requires c.chain == chain != [] && c.request == request && c.pc == ReadIssuers(Initial)
      requires OnTrack(env.script, g, Now(verifying), c)
      modifies env
      ensures reason.None? ==>
              && issuers.State().policy.version == VERIFIER_POLICY_VERSION
              && (exists before: int :: ChainReason(chain, issuers.State().policy, before).None?)
              && PrincipalsCurrent(principals.State(), Asserted(chain, request))
              && Digests(chain) !! revocations.State().revoked
      ensures c'.chain == chain && c'.request == request
      ensures OnTrack(env.script, g, Now(verifying), OrDeny(c', reason, 1, Goto(c', VerifySignatures)))
    {
      hide OnTrack, ChainReason, PrincipalsCurrent, Digests, Asserted;
      var snapshot, refs, revision;
      c' := c;
      reason, snapshot := ReadIssuerPolicy(verifying, Initial, g, c');
      if reason.Some? {
        return;
      }
      c' := c'.(current := c'.current.(issuers := Some(snapshot)));
      reason, refs := ValidatePrincipals(chain, request, verifying, Initial, g, c');
      c' := c'.(current := c'.current.(refs := refs));
      if reason.Some? {
        return;
      }
      c' := Goto(c', CheckChain(Initial));
      reason := CheckChainAgainst(snapshot.policy, chain, verifying, Initial, g, c');
      if reason.Some? {
        return;
      }
      c' := Goto(c', ReadRevocations(Initial));
      reason, revision := ReadRevocationState(chain, verifying, Initial, g, c');
      if revision.Some? {
        c' := c'.(current := c'.current.(revocations := revision));
      }
    }

    /** Everything that is checked before the leaf is reserved. */
    method FirstChecks(chain: seq<Credential>, request: Request, verifying: set<Credential>,
                       ghost g: Goal, ghost c: Call)
      returns (reason: Option<Reason>, ghost c': Call)
      requires c.chain == chain != [] && c.request == request && c.pc == ReadIssuers(Initial)
      requires OnTrack(env.script, g, Now(verifying), c)
      modifies env
      ensures reason.None? ==> Justified(State(verifying), chain, request)
      ensures c'.chain == chain && c'.request == request
      ensures OnTrack(env.script, g, Now(verifying), OrDeny(c', reason, 1, Goto(c', Reserve)))
    {
      hide OnTrack, ChainReason, ChainTimeReason, PrincipalsCurrent, Digests, Asserted;
      reason, c' := FirstReading(chain, request, verifying, g, c);
      if reason.Some? {
        return;
      }
      c' := Goto(c', VerifySignatures);
      reason := CheckSignatures(chain, verifying, g, c');
      if reason.Some? {
        return;
      }
      c' := Goto(c', CheckTime);
      reason := CheckLeaf(chain, request, verifying, g, c');
      if reason.None? {
        var policy := issuers.State().policy;
        ghost var before: int :| ChainReason(chain, policy, before).None?;
        StillAccepted(chain, policy, before, env.now);
      }
    }

    /** Reserve the leaf, if the store works and does not hold it. */
    method TakeReservation(chain: seq<Credential>, verifying: set<Credential>, ghost g: Goal, ghost c: Call)
      returns (reason: Option<Reason>)
      requires c.chain == chain != [] && c.pc == Reserve && OnTrack(env.script, g, Now(verifying), c)
      modifies env, replay
      ensures reason.None? ==>
              var d := DigestOf(chain[|chain| - 1]);
              && d in replay.reservations && replay.reservations[d] == chain[|chain| - 1].expiresAt
              && (d in old(replay.reservations) ==> old(replay.reservations)[d] < env.now)
      ensures OnTrack(env.script, g, Now(verifying), OrDeny(c, reason, 1, Goto(c, CheckTimeAgain)))
    {
      hide OnTrack, SameEnd, Runnable, AfterReserve;
      var leaf, reserved := chain[|chain| - 1], false;
      StayOnTrack(env.script, g, Now(verifying), c);
      FromReserve(env.script, g.id, Now(verifying), c);
      var fault := env.Next();
      if !fault.Raises? {
        reserved := replay.Reserve(DigestOf(leaf), leaf.expiresAt, env.now);
      }
      if !fault.Works? {
        return Some(BackendUnavailable);
      }
      if !reserved {
        return Some(Replayed);
      }
      reason := None;
    }

    /** Reserve the leaf, and look at the clock again. */
    method ReserveLeaf(chain: seq<Credential>, verifying: set<Credential>, ghost g: Goal, ghost c: Call)
      returns (reason: Option<Reason>)
      requires c.chain == chain != [] && c.pc == Reserve && OnTrack(env.script, g, Now(verifying), c)
      modifies env, replay
      ensures reason.None? ==>
              var d := DigestOf(chain[|chain| - 1]);
              && d in replay.reservations && replay.reservations[d] > env.now
              && (d in old(replay.reservations) ==> old(replay.reservations)[d] < env.now)
      ensures OnTrack(env.script, g, Now(verifying), OrDeny(c, reason, 1, Goto(c, ReadIssuers(BeforeAudit))))
    {
      hide OnTrack, SameEnd, Runnable, ChainTimeReason;
      reason := TakeReservation(chain, verifying, g, c);
      if reason.Some? {
        return;
      }
      StayOnTrack(env.script, g, Now(verifying), Goto(c, CheckTimeAgain));
      FromCheckTimeAgain(env.script, g.id, Now(verifying), Goto(c, CheckTimeAgain));
      var fault := env.Next();
      if !fault.Works? {
        return Some(BackendUnavailable);
      }
      reason := ValidateChainTime(chain, env.now);
      LeafIsTimely(chain, env.now);
    }

    /** Live issuers, chain, principals and revocations once more, before and again after the audit write. */
    method RefreshCurrentState(chain: seq<Credential>, request: Request, verifying: set<Credential>, round: Round,
                               ghost g: Goal, ghost c: Call)
      returns (reason: Option<Reason>, evidence: Evidence, ghost c': Call)
      requires !round.Initial?
      requires c.chain == chain != [] && c.request == request && c.pc == ReadIssuers(round)
      requires OnTrack(env.script, g, Now(verifying), c)
      modifies env
      ensures reason.None? ==>
              && evidence.issuers == Some(issuers.State()) && evidence.revocations == Some(revocations.State())
              && issuers.State().policy.version == VERIFIER_POLICY_VERSION
              && PrincipalsCurrent(principals.State(), Asserted(chain, request))
              && Digests(chain) !! revocations.State().revoked
              && c'.current == evidence
      ensures c'.chain == chain && c'.request == request && c'.audited == c.audited
      ensures OnTrack(env.script, g, Now(verifying),
                      OrDeny(c', reason, Attempt(round), Goto(c', AfterRevocations(round))))
    {
      hide OnTrack, ChainReason, PrincipalsCurrent;
      var snapshot, refs, revision;
      c', evidence := c, NO_EVIDENCE;
      reason, snapshot := ReadIssuerPolicy(verifying, round, g, c');
      if reason.Some? {
        return;
      }
      c' := Goto(c'.(current := c'.current.(issuers := Some(snapshot))), CheckChain(round));
      reason := CheckChainAgainst(snapshot.policy, chain, verifying, round, g, c');
      if reason.Some? {
        return;
      }
      reason, refs := ValidatePrincipals(chain, request, verifying, round, g, c');
      c' := c'.(current := c'.current.(refs := refs));
      if reason.Some? {
        return;
      }
      c' := Goto(c', ReadRevocations(round));
      reason, revision := ReadRevocationState(chain, verifying, round, g, c');
      if revision.Some? {
        c' := c'.(current := c'.current.(revocations := revision));
      }
      evidence := Evidence(Some(snapshot), refs, revision);
    }

    /** Write the allow; the decision is what the caller sees if that fails. */
    method RecordAllowDecision(evidence: Evidence, verifying: set<Credential>, id: nat, ghost g: Goal, ghost c: Call)
      returns (decision: Decision, ghost c': Call)
      requires g.id == id && c.chain != [] && c.pc == RecordAllow && c.current == evidence
      requires OnTrack(env.script, g, Now(verifying), c)
      modifies env, audit
      ensures decision == Decision(id, 1, if decision.verdict.Allow? then Allow(evidence) else Deny(AuditUnavailable))
      ensures c'.chain == c.chain && c'.request == c.request
      ensures c'.pc == if decision.verdict.Allow? then ReadIssuers(AfterAudit) else Returned(decision)
      ensures decision.verdict.Allow? ==> c'.audited == evidence
      ensures OnTrack(env.script, g, Now(verifying), c')
    {
      hide OnTrack, SameEnd, Runnable;
      StayOnTrack(env.script, g, Now(verifying), c);
      FromRecordAllow(env.script, id, Now(verifying), c);
      ghost var at := Next(env.script, Now(verifying)).shared;
      decision := Decision(id, 1, Allow(evidence));
      var fault := env.Next();
      c' := RecordAllowStep(at, id, c, fault).1;
      if !fault.Raises? {
        audit.Record(decision);
      }
      if !fault.Works? {
        decision := Decision(id, 1, Deny(AuditUnavailable));
      }
    }

    /** The last look at the clock, and at whether anything has changed since the audit write. */
    method FinalCheck(chain: seq<Credential>, evidence: Evidence, final: Evidence, verifying: set<Credential>, id: nat,
                      ghost g: Goal, ghost c: Call)
      returns (reason: Option<Reason>)
      requires g.id == id && c.chain == chain != [] && c.pc == FinalTime
      requires c.current == final && c.audited == evidence && OnTrack(env.script, g, Now(verifying), c)
      modifies env
      ensures reason.None? ==> final == evidence && ChainTimeReason(chain, env.now).None?
      ensures OnTrack(env.script, g, Now(verifying),
                      OrDeny(c, reason, 2, Goto(c, Returned(Decision(id, 1, Allow(evidence))))))
    {
      hide OnTrack, SameEnd, Runnable, ChainTimeReason;
      StayOnTrack(env.script, g, Now(verifying), c);
      FromFinalTime(env.script, id, Now(verifying), c);
      var fault := env.Next();
      if !fault.Works? {
        return Some(BackendUnavailable);
      }
      reason := ValidateChainTime(chain, env.now);
      if reason.None? && final != evidence {
        reason := Some(CurrentStateChanged);
      }
    }

    /** From the leaf's reservation on. */
    method Conclude(chain: seq<Credential>, request: Request, verifying: set<Credential>, id: nat,
                    ghost g: Goal, ghost c: Call)
      returns (decision: Decision)
      requires g.id == id && c.chain == chain != [] && c.request == request && c.pc == ReadIssuers(BeforeAudit)
      requires OnTrack(env.script, g, Now(verifying), c)
      modifies env, audit
      ensures Ends(env.script, id, g.start, g.begun, Now(verifying), decision)
    {
      hide OnTrack, Ends, ChainTimeReason;
      ghost var c';
      var reason, evidence, final;
      reason, evidence, c' := RefreshCurrentState(chain, request, verifying, BeforeAudit, g, c);
      if reason.Some? {
        decision := DenyAndRecord(reason.value, 1, verifying, id, g, c');
        return;
      }
      decision, c' := RecordAllowDecision(evidence, verifying, id, g, Goto(c', RecordAllow));
      if decision.verdict.Deny? {
        TrackEnds(env.script, g, Now(verifying), c', decision);
        return;
      }
      reason, final, c' := RefreshCurrentState(chain, request, verifying, AfterAudit, g, c');
      if reason.None? {
        c' := Goto(c', FinalTime);
        reason := FinalCheck(chain, evidence, final, verifying, id, g, c');
      }
      if reason.Some? {
        decision := DenyAndRecord(reason.value, 2, verifying, id, g, c');
        return;
      }
      TrackEnds(env.script, g, Now(verifying), Goto(c', Returned(decision)), decision);
    }

    /** The whole way of a chain that parses. */
    method AuthorizeChain(chain: seq<Credential>, request: Request, verifying: set<Credential>, id: nat,
                          ghost g: Goal, ghost c: Call)
      returns (decision: Decision)
      requires g.id == id && c.chain == chain != [] && c.request == request && c.pc == ReadIssuers(Initial)
      requires OnTrack(env.script, g, Now(verifying), c)
      modifies env, replay, audit
      ensures Ends(env.script, id, g.start, g.begun, Now(verifying), decision)
      ensures decision.verdict.Allow? ==>
              chain[|chain| - 1].principal == request.principal && chain[|chain| - 1].scope == request.scope
    {
      hide OnTrack, Ends, Justified;
      ghost var c';
      var reason;
      reason, c' := FirstChecks(chain, request, verifying, g, c);
      if reason.None? {
        JustifiedNames(State(verifying), chain, request);
        c' := Goto(c', Reserve);
        reason := ReserveLeaf(chain, verifying, g, c');
      }
      if reason.Some? {
        decision := DenyAndRecord(reason.value, 1, verifying, id, g, c');
      } else {
        decision := Conclude(chain, request, verifying, id, g, Goto(c', ReadIssuers(BeforeAudit)));
      }
    }

    /**
      The whole of `authorize`. It ends as the transition system does when no other call runs meanwhile,
      and so if nothing at all happens meanwhile it allows exactly the admissible requests.
     */
    method Authorize(presented: Presented, request: Request, verifying: set<Credential>, id: nat, ghost job: Job)
      returns (decision: Decision)
      modifies env, replay, audit
      ensures Ends(env.script, id, old(Now(verifying)), NewCall(presented, request, job), Now(verifying), decision)
      ensures decision.verdict.Allow? ==>
              && presented.Chain? && Parses(presented.credentials) && presented.credentials != []
              && presented.credentials[|presented.credentials| - 1].principal == request.principal
              && presented.credentials[|presented.credentials| - 1].scope == request.scope
      ensures !presented.Chain? || !Parses(presented.credentials) ==>
              decision == Decision(id, 1, Deny(if Fails(env.script, old(Now(verifying))) then AuditUnavailable
                                               else if presented.Missing? then MissingCredential
                                               else MalformedCredential))
      ensures Quiet(env.script) ==>
              (decision.verdict.Allow? <==>
               presented.Chain? && Parses(presented.credentials)
               && Admissible(old(State(verifying)), presented.credentials, request))
      ensures Quiet(env.script) && presented.Chain? && Parses(presented.credentials) && decision.verdict.Deny? ==>
              FirstObjection(old(State(verifying)), presented.credentials, request) == Some(decision.verdict.reason)
    {
      hide OnTrack, Ends, Admissible, Parses, FirstObjection;
      ghost var c := NewCall(presented, request, job);
      ghost var g := Goal(id, Now(verifying), c);
      NewCallIsRunnable(presented, request, job);
      TrackBegins(env.script, g);
      if presented.Missing? {
        decision := DenyAndRecord(MissingCredential, 1, verifying, id, g, c);
        return;
      }
      if presented.Malformed? || !Parses(presented.credentials) {
        decision := DenyAndRecord(MalformedCredential, 1, verifying, id, g, c);
        return;
      }
      ParsedIsNonempty(presented.credentials);
      decision := AuthorizeChain(presented.credentials, request, verifying, id, g, c);
      if Quiet(env.script) {
        EndsInItsVerdict(env.script, g, presented.credentials, request, job, Now(verifying), decision);
      }
    }
  }

  class DelegatingCapabilityIssuer {
    const authorizer: CapabilityAuthorizer

    constructor (authorizer: CapabilityAuthorizer)
      ensures this.authorizer == authorizer
    {
      this.authorizer := authorizer;
    }

    /**
      Spend one invocation of the parent on one narrower child. If nothing else happens meanwhile it succeeds
      exactly if the child would not broaden the parent, the parent is admissible, and the issuer can issue.
     */
    method Delegate(parent: Presented, authenticated: Principal, child: ChildRequest, seal: Seal,
                    verifying: set<Credential>, id: nat)
      returns (r: Delegation)
      modifies authorizer.env, authorizer.replay, authorizer.audit
      ensures r.Ok? ==>
              && parent.Chain? && Parses(parent.credentials)
              && var leaf := parent.credentials[|parent.credentials| - 1];
                 var issued := IssueChild(seal, leaf, child, authorizer.env.now);
                 && MayDelegate(leaf, child)
                 && issued.Ok? && r.value == parent.credentials + [issued.value]
                 && (WellIssued(parent.credentials) && leaf.issuedAt <= authorizer.env.now ==> WellIssued(r.value))
      ensures r.Ok? ==>
              && |r.value| == |parent.credentials| + 1 && r.value[..|parent.credentials|] == parent.credentials
              && ChildAsAsked(r.value[|parent.credentials|], seal, parent.credentials[|parent.credentials| - 1], child,
                              authorizer.env.now)
              && authenticated == parent.credentials[|parent.credentials| - 1].principal
      ensures Quiet(authorizer.env.script) ==>
              (r.Ok? <==>
               && parent.Chain? && Parses(parent.credentials)
               && var leaf := parent.credentials[|parent.credentials| - 1];
                  && MayDelegate(leaf, child)
                  && Admissible(old(authorizer.State(verifying)), parent.credentials,
                                Request(authenticated, leaf.scope))
                  && IssueChild(seal, leaf, child, authorizer.env.now).Ok?)
      ensures var refused := r.Err? && (r.error.ParentMalformed? || r.error == NotMinted(WouldBroaden));
              && (refused ==> authorizer.Now(verifying) == old(authorizer.Now(verifying)))
              && (!refused ==>
                    && parent.Chain? && parent.credentials != []
                    && WellFormed(parent.credentials[|parent.credentials| - 1])
                    && MayDelegate(parent.credentials[|parent.credentials| - 1], child)
                    && Delegates(authorizer.env.script, id, old(authorizer.Now(verifying)), parent.credentials,
                                 authenticated, child, seal, authorizer.Now(verifying), r))
    {
      hide Admissible, IssueChild, WellIssued, Ends;
      if !parent.Chain? || parent.credentials == [] || !WellFormed(parent.credentials[|parent.credentials| - 1]) {
        return Err(ParentMalformed);
      }
      var leaf := parent.credentials[|parent.credentials| - 1];
      if !MayDelegate(leaf, child) {
        return Err(NotMinted(WouldBroaden));
      }
      var chain, request := parent.credentials, Request(authenticated, leaf.scope);
      var decision := authorizer.Authorize(parent, request, verifying, id, Job.Delegate(child));
      ghost var m := authorizer.Now(verifying);
      if decision.verdict.Deny? {
        r := Err(NotAuthorized(decision));
        assert Spends(authorizer.env.script, chain, child, seal, m, decision, authorizer.Now(verifying), r);
        return;
      }
      var fault := authorizer.env.Next();
      var issued := IssueChild(if fault.Works? then seal else seal.(signature := ""), leaf, child, authorizer.env.now);
      NothingIssuedUnsealed(seal, leaf, child, authorizer.env.now);
      IssuedChild(seal, leaf, child, authorizer.env.now);
      r := if issued.Err? then Err(NotMinted(NotIssued(issued.error))) else Ok(chain + [issued.value]);
      assert Spends(authorizer.env.script, chain, child, seal, m, decision, authorizer.Now(verifying), r);
      if issued.Ok? && WellIssued(chain) && leaf.issuedAt <= authorizer.env.now {
        ChildIsWellIssued(chain, seal, child, authorizer.env.now);
      }
    }
  }

  lemma NothingIssuedUnsealed(seal: Seal, leaf: Credential, child: ChildRequest, now: int)
    ensures IssueChild(seal.(signature := ""), leaf, child, now).Err?
  {
  }

  lemma NewCallIsRunnable(presented: Presented, request: Request, job: Job)
    ensures Runnable(NewCall(presented, request, job))
  {
  }

  lemma TrackBegins(o: Script, g: Goal)
    requires Runnable(g.begun)
    ensures OnTrack(o, g, g.start, g.begun)
  {
  }

  lemma TrackEnds(o: Script, g: Goal, m: Moment, c: Call, decision: Decision)
    requires OnTrack(o, g, m, c) && c.pc == Returned(decision)
    ensures Ends(o, g.id, g.start, g.begun, m, decision)
  {
  }

  lemma EndsInItsVerdict(o: Script, g: Goal, chain: seq<Credential>, request: Request, job: Job,
                         m: Moment, decision: Decision)
    requires Parses(chain) && Quiet(o) && g.begun == NewCall(Chain(chain), request, job)
    requires Ends(o, g.id, g.start, g.begun, m, decision)
    ensures decision.verdict.Allow? <==> Admissible(g.start.shared, chain, request)
    ensures decision.verdict.Deny? ==> FirstObjection(g.start.shared, chain, request) == Some(decision.verdict.reason)
  {
    UndisturbedCallIsDecidedCorrectly(o, g.start, g.id, chain, request, job);
  }

  lemma JustifiedNames(sh: Shared, chain: seq<Credential>, request: Request)
    requires chain != [] && Justified(sh, chain, request)
    ensures chain[|chain| - 1].principal == request.principal && chain[|chain| - 1].scope == request.scope
  {
  }

  lemma ParsedIsNonempty(chain: seq<Credential>)
    requires Parses(chain)
    ensures chain != []
  {
  }

  /** Of a chain once accepted, only the time can become wrong. */
  lemma StillAccepted(chain: seq<Credential>, policy: IssuerPolicy, before: int, now: int)
    requires ChainReason(chain, policy, before).None? && ChainTimeReason(chain, now).None?
    ensures ChainReason(chain, policy, now).None?
  {
  }

  lemma LeafIsTimely(chain: seq<Credential>, now: int)
    requires chain != []
    ensures ChainTimeReason(chain, now).None? ==> chain[|chain| - 1].expiresAt > now
  {
    if ChainTimeReason(chain, now).None? {
      assert LinkTimeReason(chain, |chain| - 1, now).None?;
    }
  }

  lemma ReadingStarts(c: Call, round: Round)
    requires c.chain != []
    ensures StartReadingPrincipals(c, round) == PrincipalsRead(c, round, 0, [])
  {
  }
}
