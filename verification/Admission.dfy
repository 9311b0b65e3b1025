/**
  The authorizer decides what it should: a call that nothing disturbs and no backend
  fails is allowed exactly when its chain is justified by the current state and its
  leaf is not already reserved.
 */
module Admission {
  import opened Wrappers
  import opened Credentials
  import opened Issuance
  import opened Backends
  import opened Authorizer
  import opened AuthorizerSafety
  import opened AuthorizerRuns

  /** The condition on the state at the start, stated without any step. */
  ghost predicate Admissible(sh: Shared, chain: seq<Credential>, request: Request)
    requires chain != []
  {
    && Justified(sh, chain, request)
    && !Held(sh.reservations, DigestOf(chain[|chain| - 1]), sh.now)
  }

  /** The first id, in order of first mention, that is unbound, rebound or inactive. */
  function PrincipalsReason(s: PrincipalState, ps: seq<Principal>, ids: seq<string>, k: nat): Option<Reason>
    requires k <= |ids|
    decreases |ids| - k
  {
    if k == |ids| then None
    else if ids[k] !in s.bindings then Some(PrincipalUnbound)
    else if BindingReason(s.bindings[ids[k]], ps, ids[k]).Some? then BindingReason(s.bindings[ids[k]], ps, ids[k])
    else PrincipalsReason(s, ps, ids, k + 1)
  }

  function NamedReason(sh: Shared, chain: seq<Credential>, request: Request): Option<Reason> {
    var ps := Asserted(chain, request);
    PrincipalsReason(sh.principals, ps, DistinctIds(ps), 0)
  }

  function OrElse(first: Option<Reason>, second: Option<Reason>): Option<Reason> {
    if first.Some? then first else second
  }

  /** The objections from the reservation, the leaf, the signatures, the revocations and the chain on. */
  function ReplayObjection(sh: Shared, chain: seq<Credential>): Option<Reason>
    requires chain != []
  {
    if Held(sh.reservations, DigestOf(chain[|chain| - 1]), sh.now) then Some(Replayed) else None
  }

  function LeafObjection(sh: Shared, chain: seq<Credential>, request: Request): Option<Reason>
    requires chain != []
  {
    OrElse(RequestReason(chain[|chain| - 1], request), ReplayObjection(sh, chain))
  }

  function SignatureObjection(sh: Shared, chain: seq<Credential>, request: Request): Option<Reason>
    requires chain != []
  {
    OrElse(SignatureReason(chain, sh.minted), LeafObjection(sh, chain, request))
  }

  function RevocationObjection(sh: Shared, chain: seq<Credential>, request: Request): Option<Reason>
    requires chain != []
  {
    OrElse(RevocationReason(chain, sh.revocations.revoked), SignatureObjection(sh, chain, request))
  }

  function ChainObjection(sh: Shared, chain: seq<Credential>, request: Request): Option<Reason>
    requires chain != []
  {
    OrElse(ChainReason(chain, sh.issuers.policy, sh.now), RevocationObjection(sh, chain, request))
  }

  /** The first objection to a request: policy, principals, chain, revocations, signatures, leaf, replay. */
  function FirstObjection(sh: Shared, chain: seq<Credential>, request: Request): Option<Reason>
    requires chain != []
  {
    if sh.issuers.policy.version != VERIFIER_POLICY_VERSION then Some(PolicyMismatch)
    else OrElse(NamedReason(sh, chain, request), ChainObjection(sh, chain, request))
  }

  lemma {:induction false} ObjectionsSkipped(s: PrincipalState, ps: seq<Principal>, ids: seq<string>, k: nat)
    requires k <= |ids| && NoObjections(s, ps, ids, 0, k)
    ensures PrincipalsReason(s, ps, ids, 0) == PrincipalsReason(s, ps, ids, k)
    decreases k
  {
    hide BindingReason;
    if k > 0 {
      ObjectionsSkipped(s, ps, ids, k - 1);
      assert Unobjectionable(s, ps, ids[k - 1]);
    }
  }

  lemma CurrentNamesNoReason(sh: Shared, chain: seq<Credential>, request: Request)
    ensures NamedReason(sh, chain, request).None? <==> PrincipalsCurrent(sh.principals, Asserted(chain, request))
  {
    var ps := Asserted(chain, request);
    CurrentIsNoObjection(sh.principals, ps);
    NoReasonNoObjection(sh.principals, ps, DistinctIds(ps), 0);
  }

  lemma {:induction false} NoReasonNoObjection(s: PrincipalState, ps: seq<Principal>, ids: seq<string>, k: nat)
    requires k <= |ids|
    ensures PrincipalsReason(s, ps, ids, k).None? <==> NoObjections(s, ps, ids, k, |ids|)
    decreases |ids| - k
  {
    hide BindingReason;
    if k < |ids| {
      NoReasonNoObjection(s, ps, ids, k + 1);
    }
  }

  /** There is no objection exactly to what is admissible. */
  lemma NothingAgainstTheAdmissible(sh: Shared, chain: seq<Credential>, request: Request)
    requires chain != []
    ensures FirstObjection(sh, chain, request).None? <==> Admissible(sh, chain, request)
  {
    CurrentNamesNoReason(sh, chain, request);
    NoneRevoked(chain, sh.revocations.revoked);
    hide NamedReason, PrincipalsCurrent, RevocationReason, ChainReason, SignatureReason;
  }

  ghost predicate AllRead(sh: Shared, c: Call, refs: seq<PrincipalRef>) {
    LiveRefs(sh.principals, Ids(c), refs) && |refs| == |Ids(c)|
  }

  /** Only the reservations and the trail move when a call runs alone. */
  ghost predicate Undisturbed(start: Shared, sh: Shared) {
    sh == start.(reservations := sh.reservations, audit := sh.audit)
  }

  /** The conditions of `Admissible` that a call at this stage has already established. */
  ghost predicate Established(start: Shared, c: Call) {
    var stage := Stage(c.pc);
    && (stage >= 1 ==> start.issuers.policy.version == VERIFIER_POLICY_VERSION)
    && (stage >= 2 ==> PrincipalsCurrent(start.principals, Asserted(c.chain, c.request)))
    && (stage >= 3 ==> ChainReason(c.chain, start.issuers.policy, start.now).None?)
    && (stage >= 4 ==> Digests(c.chain) !! start.revocations.revoked)
    && (stage >= 5 ==> forall x :: x in c.chain ==> x.signature != "" && x in start.minted)
    && (stage >= 6 ==> RequestReason(c.chain[|c.chain| - 1], c.request).None?)
    && (stage >= 7 ==> !Held(start.reservations, DigestOf(c.chain[|c.chain| - 1]), start.now))
  }

  ghost predicate Read(start: Shared, c: Call) {
    var stage := Stage(c.pc);
    && (stage >= 1 ==> c.current.issuers == Some(start.issuers))
    && (c.pc.ReadPrincipals? ==>
          c.pc.k < |Ids(c)| && |c.current.refs| == c.pc.k
          && LiveRefs(start.principals, Ids(c), c.current.refs)
          && NoObjections(start.principals, Asserted(c.chain, c.request), Ids(c), 0, c.pc.k))
    && (stage == 11 || stage == 12 || stage >= 16 ==> AllRead(start, c, c.current.refs))
    && (stage == 12 || stage >= 17 ==> c.current.revocations == Some(start.revocations))
    && (stage >= 13 ==>
          && AllRead(start, c, c.audited.refs) && c.audited.issuers == Some(start.issuers)
          && c.audited.revocations == Some(start.revocations))
  }

  function ReasonGiven(pc: Pc): Reason
    requires Stage(pc) < 0
  {
    if pc.RecordDenial? then pc.reason else pc.decision.verdict.reason
  }

  /** What a call has passed is out of the way: the first objection is among those to come. */
  lemma PassedWithoutObjection(start: Shared, c: Call)
    requires c.chain != [] && Established(start, c)
    ensures var stage, first := Stage(c.pc), FirstObjection(start, c.chain, c.request);
            && (stage >= 1 ==> first == OrElse(NamedReason(start, c.chain, c.request),
                                               ChainObjection(start, c.chain, c.request)))
            && (stage >= 2 ==> first == ChainObjection(start, c.chain, c.request))
            && (stage >= 3 ==> first == RevocationObjection(start, c.chain, c.request))
            && (stage >= 4 ==> first == SignatureObjection(start, c.chain, c.request))
            && (stage >= 5 ==> first == LeafObjection(start, c.chain, c.request))
            && (stage >= 6 ==> first == ReplayObjection(start, c.chain))
            && (stage >= 7 ==> first.None?)
  {
    CurrentNamesNoReason(start, c.chain, c.request);
    NoneRevoked(c.chain, start.revocations.revoked);
    hide NamedReason, PrincipalsCurrent, RevocationReason, ChainReason, SignatureReason, RequestReason, Held;
  }

  ghost predicate Consistent(start: Shared, sh: Shared, c: Call) {
    && c.chain != []
    && Undisturbed(start, sh)
    && (Stage(c.pc) < 0 ==> FirstObjection(start, c.chain, c.request) == Some(ReasonGiven(c.pc)))
    && (0 <= Stage(c.pc) < 7 ==> sh.reservations == start.reservations)
    && Established(start, c) && Read(start, c)
  }

  // ---------------------------------------------------------------------------
  // Running a call alone
  // ---------------------------------------------------------------------------

  const NO_SEAL := Seal("", 0, "")

  function Phase(c: Call): nat {
    if c.pc.Returned? then 0 else if c.pc.RecordDenial? then 1 else 2
  }

  function Left(c: Call): nat {
    if c.pc.ReadPrincipals? && c.pc.k < |Ids(c)| then |Ids(c)| - c.pc.k else 0
  }

  /** A call that always has a next step: one without a chain can only be denied. */
  ghost predicate Runnable(c: Call) {
    && (c.chain == [] ==> c.pc.RecordDenial? || c.pc.Returned?)
    && (c.pc.ReadPrincipals? ==> c.pc.k < |Ids(c)|)
  }

  lemma SomePrincipalIsNamed(c: Call)
    ensures c.chain != [] ==> Ids(c) != []
  {
  }

  lemma ReadDescends(sh: Shared, id: nat, c: Call, failed: bool)
    requires Runnable(c) && Phase(c) == 2 && !c.pc.Reserve? && !c.pc.RecordAllow?
    ensures var c' := ReadStep(sh, id, c, failed);
            && Runnable(c')
            && (Phase(c') < 2 || Stage(c'.pc) > Stage(c.pc) || (Stage(c'.pc) == Stage(c.pc) && Left(c') < Left(c)))
  {
    hide ChainReason, ChainTimeReason, RevocationReason, SignatureReason, RequestReason, BindingReason;
    SomePrincipalIsNamed(c);
    hide AllMatch, Parses, Asserted, DistinctIds;
  }

  lemma StepDescends(sh: Shared, id: nat, c: Call, fault: Fault)
    requires Runnable(c) && !c.pc.Returned?
    ensures var c' := Step(sh, id, c, fault, NO_SEAL).1;
            && Runnable(c')
            && (Phase(c') < Phase(c)
                || (Phase(c') == Phase(c) && Stage(c'.pc) > Stage(c.pc))
                || (Phase(c') == Phase(c) && Stage(c'.pc) == Stage(c.pc) && Left(c') < Left(c)))
  {
    if Phase(c) == 2 && !c.pc.Reserve? && !c.pc.RecordAllow? {
      ReadDescends(sh, id, c, !fault.Works?);
    }
  }

  /** An instant of a call that runs alone: how often it has accessed a backend, and what the backends hold. */
  datatype Moment = Moment(n: nat, shared: Shared)

  /** The next access: the clock has moved on. */
  function Next(o: Script, m: Moment): Moment {
    Moment(m.n + 1, m.shared.(now := m.shared.now + o(m.n).elapsed))
  }

  /** The call steps on until it returns; only the clock moves meanwhile, and accesses fail as scripted. */
  ghost function Complete(o: Script, m: Moment, id: nat, c: Call): (Moment, Call)
    requires Runnable(c)
    decreases Phase(c), 20 - Stage(c.pc), Left(c)
  {
    if c.pc.Returned? then (m, c)
    else
      StepDescends(Next(o, m).shared, id, c, o(m.n).fault);
      var (sh', c') := Step(Next(o, m).shared, id, c, o(m.n).fault, NO_SEAL);
      Complete(o, Moment(m.n + 1, sh'), id, c')
  }

  /** Such a completion is a run of the transition system, made of ticks and of steps of this call only. */
  lemma {:induction false} CompleteIsRun(o: Script, m: Moment, calls: seq<Call>, i: nat) returns (events: seq<Event>)
    requires i < |calls| && Runnable(calls[i])
    ensures var (m', c') := Complete(o, m, i, calls[i]);
            Run(State(m.shared, calls), events) == State(m'.shared, calls[i := c'])
    ensures forall e :: e in events ==> e.Tick? || (e.Advance? && e.call == i)
    decreases Phase(calls[i]), 20 - Stage(calls[i].pc), Left(calls[i])
  {
    hide Step, Apply, NewCall;
    if calls[i].pc.Returned? {
      assert calls[i := calls[i]] == calls;
      events := [];
    } else {
      var a := o(m.n);
      StepDescends(Next(o, m).shared, i, calls[i], a.fault);
      var (sh', c') := Step(Next(o, m).shared, i, calls[i], a.fault, NO_SEAL);
      AccessIsTwoEvents(o, m, calls, i, sh', c');
      var rest := CompleteIsRun(o, Moment(m.n + 1, sh'), calls[i := c'], i);
      TwoEvents(State(m.shared, calls), Tick(a.elapsed), Advance(i, a.fault, NO_SEAL), rest);
      var end := Complete(o, m, i, calls[i]).1;
      assert calls[i := c'][i := end] == calls[i := end];
      events := [Tick(a.elapsed), Advance(i, a.fault, NO_SEAL)] + rest;
    }
  }

  lemma AccessIsTwoEvents(o: Script, m: Moment, calls: seq<Call>, i: nat, sh': Shared, c': Call)
    requires i < |calls|
    requires Step(Next(o, m).shared, i, calls[i], o(m.n).fault, NO_SEAL) == (sh', c')
    ensures var s := State(m.shared, calls);
            Apply(Apply(s, Tick(o(m.n).elapsed)), Advance(i, o(m.n).fault, NO_SEAL)) == State(sh', calls[i := c'])
  {
    hide Step;
  }

  lemma TwoEvents(s: State, first: Event, second: Event, rest: seq<Event>)
    ensures Run(s, [first, second] + rest) == Run(Apply(Apply(s, first), second), rest)
  {
    hide Apply;
    var events := [first, second] + rest;
    RunSplit(s, events, 2);
    assert events[..2] == [first, second] && events[2..] == rest;
    assert [first, second][..1] == [first] && [first][..0] == [];
    assert Run(s, [first]) == Apply(Run(s, []), first);
    assert Run(s, [first, second]) == Apply(Run(s, [first]), second);
  }

  /** Nothing at all happens meanwhile. */
  ghost predicate Quiet(o: Script) {
    forall n :: o(n) == Access(0, Works)
  }

  // ---------------------------------------------------------------------------
  // Each step keeps the conditions in step with the outcome
  // ---------------------------------------------------------------------------

  lemma DenialIsConsistent(start: Shared, sh: Shared, c: Call)
    requires c.chain != [] && Undisturbed(start, sh) && Stage(c.pc) < 0
    requires FirstObjection(start, c.chain, c.request) == Some(ReasonGiven(c.pc))
    ensures Consistent(start, sh, c)
  {
    hide FirstObjection;
  }

  /** A binding with an objection is the first objection, if there was none before. */
  lemma PrincipalObjection(start: Shared, c: Call, k: nat)
    requires c.chain != [] && k < |Ids(c)| && start.issuers.policy.version == VERIFIER_POLICY_VERSION
    requires NoObjections(start.principals, Asserted(c.chain, c.request), Ids(c), 0, k)
    requires !Unobjectionable(start.principals, Asserted(c.chain, c.request), Ids(c)[k])
    ensures FirstObjection(start, c.chain, c.request) ==
            if Ids(c)[k] !in start.principals.bindings then Some(PrincipalUnbound)
            else BindingReason(start.principals.bindings[Ids(c)[k]], Asserted(c.chain, c.request), Ids(c)[k])
  {
    ObjectionsSkipped(start.principals, Asserted(c.chain, c.request), Ids(c), k);
    hide ChainObjection, BindingReason;
  }

  lemma ReadOneMoreIsConsistent(start: Shared, sh: Shared, c: Call, c': Call, round: Round, k: nat)
    requires c.pc == ReadPrincipals(round, k) && Consistent(start, sh, c)
    requires Unobjectionable(start.principals, Asserted(c.chain, c.request), Ids(c)[k])
    requires c'.(pc := c.pc, current := c.current) == c && c'.current.(refs := c.current.refs) == c.current
    requires |c'.current.refs| == k + 1 && LiveRefs(start.principals, Ids(c), c'.current.refs)
    requires c'.pc == if k + 1 < |Ids(c)| then ReadPrincipals(round, k + 1)
                      else if round.Initial? then CheckChain(Initial)
                      else ReadRevocations(round)
    ensures Consistent(start, sh, c')
  {
    assert Ids(c') == Ids(c);
    assert NoObjections(start.principals, Asserted(c.chain, c.request), Ids(c), 0, k + 1);
    if k + 1 == |Ids(c)| {
      CurrentIsNoObjection(start.principals, Asserted(c.chain, c.request));
    }
    assert Established(start, c');
  }

  lemma PrincipalDenied(start: Shared, sh: Shared, id: nat, c: Call)
    requires c.pc.ReadPrincipals? && Consistent(start, sh, c) && ReadStep(sh, id, c, false).pc.RecordDenial?
    ensures FirstObjection(start, c.chain, c.request) == Some(ReadStep(sh, id, c, false).pc.reason)
    ensures ReadStep(sh, id, c, false).chain == c.chain && ReadStep(sh, id, c, false).request == c.request
  {
    hide BindingReason, FirstObjection, Asserted, DistinctIds, PrincipalsCurrent;
    PrincipalObjection(start, c, c.pc.k);
  }

  lemma ReadPrincipalsIsConsistent(start: Shared, sh: Shared, id: nat, c: Call)
    requires c.pc.ReadPrincipals? && Consistent(start, sh, c)
    ensures Consistent(start, sh, ReadStep(sh, id, c, false))
  {
    hide FirstObjection, Asserted, DistinctIds, AllMatch;
    var c', k := ReadStep(sh, id, c, false), c.pc.k;
    if c'.pc.RecordDenial? {
      PrincipalDenied(start, sh, id, c);
      DenialIsConsistent(start, sh, c');
    } else {
      ReadOneMoreIsConsistent(start, sh, c, c', c.pc.round, k);
    }
  }

  lemma RevocationsReadIsConsistent(start: Shared, sh: Shared, c: Call, pc: Pc)
    requires c.pc.ReadRevocations? && Consistent(start, sh, c) && Digests(c.chain) !! start.revocations.revoked
    requires pc == match c.pc.round
                   case Initial => VerifySignatures
                   case BeforeAudit => RecordAllow
                   case AfterAudit => FinalTime
    ensures Consistent(start, sh, Goto(WithRevocations(sh, c), pc))
  {
    hide LiveRefs, NoObjections, PrincipalsCurrent, ChainReason, Held, Parses;
    assert Ids(Goto(WithRevocations(sh, c), pc)) == Ids(c);
  }

  lemma RevocationDenied(start: Shared, sh: Shared, id: nat, c: Call)
    requires c.pc.ReadRevocations? && Consistent(start, sh, c) && ReadStep(sh, id, c, false).pc.RecordDenial?
    ensures FirstObjection(start, c.chain, c.request) == Some(ReadStep(sh, id, c, false).pc.reason)
  {
    PassedWithoutObjection(start, c);
    hide FirstObjection, SignatureObjection, Read, NamedReason, PrincipalsCurrent, ChainReason, RevocationReason;
  }

  lemma ReadRevocationsIsConsistent(start: Shared, sh: Shared, id: nat, c: Call)
    requires c.pc.ReadRevocations? && Consistent(start, sh, c)
    ensures Consistent(start, sh, ReadStep(sh, id, c, false))
  {
    hide RevocationReason, Established, Read, FirstObjection;
    var c' := ReadStep(sh, id, c, false);
    NoneRevoked(c.chain, start.revocations.revoked);
    if c'.pc.RecordDenial? {
      RevocationDenied(start, sh, id, c);
      DenialIsConsistent(start, sh, c');
    } else {
      RevocationsReadIsConsistent(start, sh, c, c'.pc);
    }
  }

  lemma LiveRefsAreUnique(s: PrincipalState, ids: seq<string>, refs: seq<PrincipalRef>, refs': seq<PrincipalRef>)
    requires LiveRefs(s, ids, refs) && LiveRefs(s, ids, refs') && |refs| == |refs'|
    ensures refs == refs'
  {
  }

  lemma FinalTimeIsConsistent(start: Shared, sh: Shared, id: nat, c: Call)
    requires c.pc.FinalTime? && Consistent(start, sh, c)
    ensures Consistent(start, sh, ReadStep(sh, id, c, false))
  {
    var c' := ReadStep(sh, id, c, false);
    LiveRefsAreUnique(start.principals, Ids(c), c.current.refs, c.audited.refs);
    ChainTimeAsAtFirst(c.chain, start.issuers.policy, sh.now);
    hide FirstObjection, ChainReason, ChainTimeReason, PrincipalsCurrent, NoObjections, LiveRefs;
    assert c'.pc.Returned? && Ids(c') == Ids(c);
  }

  lemma ChainTimeAsAtFirst(chain: seq<Credential>, policy: IssuerPolicy, now: int)
    ensures ChainReason(chain, policy, now).None? ==> ChainTimeReason(chain, now).None?
  {
  }

  /** Passing to the next stage without reading anything that is kept. */
  lemma GotoIsConsistent(start: Shared, sh: Shared, c: Call, pc: Pc)
    requires Consistent(start, sh, c) && Established(start, Goto(c, pc))
    requires Stage(c.pc) in {2, 4, 5, 7, 8, 13} && Stage(pc) == Stage(c.pc) + 1
    ensures Consistent(start, sh, Goto(c, pc))
  {
    assert Ids(Goto(c, pc)) == Ids(c);
  }

  lemma StartReadingIsConsistent(start: Shared, sh: Shared, c: Call, round: Round)
    requires Consistent(start, sh, c) && c.current.issuers == Some(start.issuers)
    requires Established(start, StartReadingPrincipals(c, round))
    requires Stage(c.pc) in {0, 9, 14} && Stage(ReadPrincipals(round, 0)) == Stage(c.pc) + 1
    ensures Consistent(start, sh, StartReadingPrincipals(c, round))
  {
    assert Ids(StartReadingPrincipals(c, round)) == Ids(c);
  }

  lemma IssuersReadIsConsistent(start: Shared, sh: Shared, c: Call)
    requires c.pc.ReadIssuers? && Consistent(start, sh, c)
    ensures Consistent(start, sh, WithIssuers(sh, c))
  {
    assert Ids(WithIssuers(sh, c)) == Ids(c);
  }

  lemma ReadIssuersIsConsistent(start: Shared, sh: Shared, id: nat, c: Call)
    requires c.pc.ReadIssuers? && Consistent(start, sh, c)
    ensures Consistent(start, sh, ReadStep(sh, id, c, false))
  {
    var c', read := ReadStep(sh, id, c, false), WithIssuers(sh, c);
    IssuersReadIsConsistent(start, sh, c);
    hide NamedReason, ChainObjection;
    if c'.pc.RecordDenial? {
      DenialIsConsistent(start, sh, c');
    } else if c.pc.round.Initial? {
      StartReadingIsConsistent(start, sh, read, c.pc.round);
    } else {
      GotoIsConsistent(start, sh, read, c'.pc);
    }
  }

  lemma ChainDenied(start: Shared, sh: Shared, c: Call)
    requires c.pc.CheckChain? && Consistent(start, sh, c)
    ensures var reason := ChainReason(c.chain, start.issuers.policy, start.now);
            reason.Some? ==> FirstObjection(start, c.chain, c.request) == reason
  {
    PassedWithoutObjection(start, c);
    hide NamedReason, LiveRefs, NoObjections, ChainReason, PrincipalsCurrent, FirstObjection, RevocationObjection, Read;
  }

  lemma CheckChainIsConsistent(start: Shared, sh: Shared, id: nat, c: Call)
    requires c.pc.CheckChain? && Consistent(start, sh, c)
    ensures Consistent(start, sh, ReadStep(sh, id, c, false))
  {
    var c' := ReadStep(sh, id, c, false);
    hide NamedReason, LiveRefs, NoObjections, ChainReason, PrincipalsCurrent;
    if c'.pc.RecordDenial? {
      ChainDenied(start, sh, c);
      hide FirstObjection, Established, Read;
      DenialIsConsistent(start, sh, c');
    } else if c.pc.round.Initial? {
      GotoIsConsistent(start, sh, c, c'.pc);
    } else {
      StartReadingIsConsistent(start, sh, c, c.pc.round);
    }
  }

  lemma GateDenied(start: Shared, sh: Shared, id: nat, c: Call)
    requires c.pc.VerifySignatures? || c.pc.CheckTime? || c.pc.CheckTimeAgain?
    requires Consistent(start, sh, c) && ReadStep(sh, id, c, false).pc.RecordDenial?
    ensures FirstObjection(start, c.chain, c.request) == Some(ReadStep(sh, id, c, false).pc.reason)
  {
    PassedWithoutObjection(start, c);
    hide FirstObjection, ReplayObjection, Read, NamedReason, PrincipalsCurrent, Held, SignatureReason, RequestReason;
  }

  lemma GatesAreConsistent(start: Shared, sh: Shared, id: nat, c: Call)
    requires c.pc.VerifySignatures? || c.pc.CheckTime? || c.pc.CheckTimeAgain?
    requires Consistent(start, sh, c)
    ensures Consistent(start, sh, ReadStep(sh, id, c, false))
  {
    hide FirstObjection, ChainReason, ChainTimeReason, RequestReason;
    var c' := ReadStep(sh, id, c, false);
    if c'.pc.RecordDenial? {
      GateDenied(start, sh, id, c);
      DenialIsConsistent(start, sh, c');
    } else {
      GotoIsConsistent(start, sh, c, c'.pc);
    }
  }

  lemma ReserveDenied(start: Shared, sh: Shared, c: Call)
    requires c.pc.Reserve? && Consistent(start, sh, c) && Held(sh.reservations, DigestOf(Leaf(c)), sh.now)
    ensures FirstObjection(start, c.chain, c.request) == Some(Replayed)
  {
    PassedWithoutObjection(start, c);
    hide FirstObjection, Read, NamedReason, PrincipalsCurrent, ChainReason, RequestReason;
  }

  lemma ReplayIsConsistent(start: Shared, sh: Shared, c: Call, reservations: Reservations)
    requires c.pc.Reserve? && Consistent(start, sh, c) && Held(sh.reservations, DigestOf(Leaf(c)), sh.now)
    ensures Consistent(start, sh.(reservations := reservations), Denied(c, Replayed, 1))
  {
    ReserveDenied(start, sh, c);
    hide FirstObjection, Established, Read, Held;
    DenialIsConsistent(start, sh.(reservations := reservations), Denied(c, Replayed, 1));
  }

  lemma ReservedIsConsistent(start: Shared, sh: Shared, c: Call, reservations: Reservations)
    requires c.pc.Reserve? && Consistent(start, sh, c) && !Held(sh.reservations, DigestOf(Leaf(c)), sh.now)
    ensures Consistent(start, sh.(reservations := reservations), Goto(c, CheckTimeAgain))
  {
    hide FirstObjection, ChainReason, PrincipalsCurrent, RequestReason, LiveRefs, NoObjections;
    assert Ids(Goto(c, CheckTimeAgain)) == Ids(c);
  }

  lemma ReserveIsConsistent(start: Shared, sh: Shared, c: Call)
    requires c.pc.Reserve? && Consistent(start, sh, c)
    ensures c.chain != []
    ensures var (sh', c') := ReserveStep(sh, c, Works); Consistent(start, sh', c')
  {
    assert c.chain != [];
    hide Consistent, AfterReserve, Held;
    if Held(sh.reservations, DigestOf(Leaf(c)), sh.now) {
      ReplayIsConsistent(start, sh, c, ReserveStep(sh, c, Works).0.reservations);
    } else {
      ReservedIsConsistent(start, sh, c, ReserveStep(sh, c, Works).0.reservations);
    }
  }

  lemma RecordAllowIsConsistent(start: Shared, sh: Shared, id: nat, c: Call)
    requires c.pc.RecordAllow? && Consistent(start, sh, c)
    ensures var (sh', c') := RecordAllowStep(sh, id, c, Works); Consistent(start, sh', c')
  {
    var (sh', c') := RecordAllowStep(sh, id, c, Works);
    assert Ids(c') == Ids(c) && Established(start, c');
  }

  lemma StepIsConsistent(start: Shared, sh: Shared, id: nat, c: Call)
    requires Consistent(start, sh, c) && !c.pc.Returned?
    ensures var (sh', c') := Step(sh, id, c, Works, NO_SEAL); Consistent(start, sh', c')
  {
    if c.pc.RecordDenial? {
      var (sh', c') := RecordDenialStep(sh, id, c, Works);
      DenialIsConsistent(start, sh', c');
    } else if c.pc.Reserve? {
      ReserveIsConsistent(start, sh, c);
    } else if c.pc.RecordAllow? {
      RecordAllowIsConsistent(start, sh, id, c);
    } else if c.pc.ReadPrincipals? {
      ReadPrincipalsIsConsistent(start, sh, id, c);
    } else if c.pc.ReadRevocations? {
      ReadRevocationsIsConsistent(start, sh, id, c);
    } else if c.pc.FinalTime? {
      FinalTimeIsConsistent(start, sh, id, c);
    } else if c.pc.ReadIssuers? {
      ReadIssuersIsConsistent(start, sh, id, c);
    } else if c.pc.CheckChain? {
      CheckChainIsConsistent(start, sh, id, c);
    } else {
      GatesAreConsistent(start, sh, id, c);
    }
  }

  lemma {:induction false} CompleteIsConsistent(start: Shared, o: Script, m: Moment, id: nat, c: Call)
    requires Runnable(c) && Consistent(start, m.shared, c) && Quiet(o)
    ensures var (m', c') := Complete(o, m, id, c);
            c'.pc.Returned? && Consistent(start, m'.shared, c') && c'.chain == c.chain && c'.request == c.request
    decreases Phase(c), 20 - Stage(c.pc), Left(c)
  {
    hide Step, Consistent, Admissible;
    if !c.pc.Returned? {
      assert o(m.n) == Access(0, Works) && Next(o, m).shared == m.shared;
      StepDescends(m.shared, id, c, Works);
      StepIsConsistent(start, m.shared, id, c);
      StepKeepsRequest(m.shared, id, c, Works, NO_SEAL);
      var (sh', c') := Step(m.shared, id, c, Works, NO_SEAL);
      CompleteIsConsistent(start, o, Moment(m.n + 1, sh'), id, c');
    }
  }

  lemma NewCallIsConsistent(sh: Shared, chain: seq<Credential>, request: Request, job: Job)
    requires Parses(chain)
    ensures var c := NewCall(Chain(chain), request, job);
            Runnable(c) && Consistent(sh, sh, c) && c.chain == chain && c.request == request
  {
    hide Admissible, ChainReason, PrincipalsCurrent;
  }

  lemma VerdictIsConsistent(start: Shared, sh: Shared, c: Call)
    requires c.pc.Returned? && Consistent(start, sh, c)
    ensures Allowed(c) <==> Admissible(start, c.chain, c.request)
    ensures c.pc.decision.verdict.Deny? ==>
            FirstObjection(start, c.chain, c.request) == Some(c.pc.decision.verdict.reason)
  {
    NothingAgainstTheAdmissible(start, c.chain, c.request);
    hide ChainReason, PrincipalsCurrent, AllRead, Held, FirstObjection;
  }

  /**
    Left alone, a parsed chain is allowed if and only if it is admissible when the call begins; otherwise the
    reason of the denial is the first objection to it.
   */
  lemma UndisturbedCallIsDecidedCorrectly(o: Script, m: Moment, id: nat, chain: seq<Credential>, request: Request,
                                          job: Job)
    requires Parses(chain) && Quiet(o)
    ensures Runnable(NewCall(Chain(chain), request, job))
    ensures var c := Complete(o, m, id, NewCall(Chain(chain), request, job)).1;
            && c.pc.Returned?
            && (Allowed(c) <==> Admissible(m.shared, chain, request))
            && (c.pc.decision.verdict.Deny? ==>
                  FirstObjection(m.shared, chain, request) == Some(c.pc.decision.verdict.reason))
  {
    var c := NewCall(Chain(chain), request, job);
    NewCallIsConsistent(m.shared, chain, request, job);
    hide NewCall, Complete, Consistent, Admissible, Runnable, Parses, FirstObjection;
    CompleteIsConsistent(m.shared, o, m, id, c);
    var (m', c') := Complete(o, m, id, c);
    VerdictIsConsistent(m.shared, m'.shared, c');
  }

  /** In any state of any run, what is admissible can still be allowed: some continuation does so. */
  lemma AdmissibleCanBeAllowed(s: State, chain: seq<Credential>, request: Request) returns (events: seq<Event>)
    requires Parses(chain) && Admissible(s.shared, chain, request)
    ensures var r := Run(s, [BeginAuthorize(Chain(chain), request)] + events);
            |r.calls| == |s.calls| + 1 && Allowed(r.calls[|s.calls|])
  {
    var quiet: Script := _ => Access(0, Works);
    var c := NewCall(Chain(chain), request, AuthorizeOnly);
    var m := Moment(0, s.shared);
    UndisturbedCallIsDecidedCorrectly(quiet, m, |s.calls|, chain, request, AuthorizeOnly);
    hide NewCall, Complete, Step, Parses, Admissible, Runnable, Run;
    events := CompleteIsRun(quiet, m, s.calls + [c], |s.calls|);
    RunCons(s, BeginAuthorize(Chain(chain), request), events);
  }

  // ---------------------------------------------------------------------------
  // What a completion leaves alone
  // ---------------------------------------------------------------------------

  /** Of what the backends hold, these a call that runs alone cannot change, except to reserve its own leaf. */
  ghost predicate LeavesAlone(before: Shared, c: Call, after: Shared, c': Call) {
    && c'.chain == c.chain && c'.request == c.request && c'.job == c.job && c'.child == c.child
    && after.issuers == before.issuers && after.principals == before.principals
    && after.revocations == before.revocations && after.minted == before.minted
    && (forall d :: d in after.reservations ==>
          d in before.reservations || (c.chain != [] && d == DigestOf(Leaf(c))))
  }

  lemma StepLeavesAlone(sh: Shared, id: nat, c: Call, fault: Fault)
    requires Runnable(c) && !c.pc.Returned?
    ensures var (sh', c') := Step(sh, id, c, fault, NO_SEAL); LeavesAlone(sh, c, sh', c')
  {
    hide ChainReason, ChainTimeReason, RevocationReason, SignatureReason, RequestReason, BindingReason;
  }

  lemma {:induction false} CompleteLeavesAlone(o: Script, m: Moment, id: nat, c: Call)
    requires Runnable(c)
    ensures var (m', c') := Complete(o, m, id, c); LeavesAlone(m.shared, c, m'.shared, c')
    decreases Phase(c), 20 - Stage(c.pc), Left(c)
  {
    hide Step;
    if !c.pc.Returned? {
      var sh, fault := Next(o, m).shared, o(m.n).fault;
      StepDescends(sh, id, c, fault);
      StepLeavesAlone(sh, id, c, fault);
      var (sh', c') := Step(sh, id, c, fault, NO_SEAL);
      CompleteLeavesAlone(o, Moment(m.n + 1, sh'), id, c');
    }
  }
}
