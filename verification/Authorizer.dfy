/**
  The authorizer as a transition system. Every `authorize` or `delegate` call is a
  process that advances one backend access at a time; between any two of its steps
  other calls may advance, principals may be set or removed, credentials may be
  revoked or issued, the issuer policy may change, and the shared clock may move
  forward. Any backend access may fail, before or after it has taken effect, which
  is the `fault` of an `Advance` event.
 */
module Authorizer {
  import opened Wrappers
  import opened Credentials
  import opened Issuance
  import opened Backends

  /** The state of all backends at one instant. */
  datatype Shared = Shared(
    now: int,
    issuers: IssuerState,
    principals: PrincipalState,
    revocations: RevocationState,
    reservations: Reservations,
    audit: seq<Decision>,
    minted: set<Credential>)

  /** The current-state revisions that a call has read. */
  datatype Evidence = Evidence(
    issuers: Option<IssuerState>, refs: seq<PrincipalRef>, revocations: Option<RevocationState>)

  const NO_EVIDENCE := Evidence(None, [], None)

  datatype Verdict = Allow(evidence: Evidence) | Deny(reason: Reason)

  /** A decision of call number `call`; `attempt` is 2 once an allow has been written. */
  datatype Decision = Decision(call: nat, attempt: nat, verdict: Verdict)

  /** Live state is read once at the start, and refreshed before and after the audit write. */
  datatype Round = Initial | BeforeAudit | AfterAudit

  datatype Pc =
    | ReadIssuers(round: Round)
    | ReadPrincipals(round: Round, k: nat)
    | CheckChain(round: Round)
    | ReadRevocations(round: Round)
    | VerifySignatures
    | CheckTime
    | Reserve
    | CheckTimeAgain
    | RecordAllow
    | FinalTime
    | RecordDenial(reason: Reason, attempt: nat)
    | Returned(decision: Decision)

  datatype Job = AuthorizeOnly | Delegate(request: ChildRequest)

  datatype Child = NoChild | Minted(credential: Credential) | IssuanceFailed

  /** `auditedIn` is a history variable: the backends at the instant the allow was recorded. */
  datatype Call = Call(
    chain: seq<Credential>,
    request: Request,
    job: Job,
    pc: Pc,
    current: Evidence,
    audited: Evidence,
    auditedIn: Option<Shared>,
    child: Child)

  datatype State = State(shared: Shared, calls: seq<Call>)

  /** What a caller hands to `authorize`. */
  datatype Presented = Missing | Malformed | Chain(credentials: seq<Credential>)

  datatype Event =
    | Tick(elapsed: nat)
    | SetIssuers(policy: IssuerPolicy)
    | SetPrincipal(principal: Principal, active: bool)
    | RemovePrincipal(id: string)
    | Revoke(digest: Digest)
    | MintRoot(seal: Seal, root: RootRequest)
    | BeginAuthorize(presented: Presented, request: Request)
    | BeginDelegate(parent: seq<Credential>, authenticated: Principal, child: ChildRequest)
    | Advance(call: nat, fault: Fault, seal: Seal)

  // ---------------------------------------------------------------------------
  // One step of one call
  // ---------------------------------------------------------------------------

  function Ids(c: Call): seq<string> {
    DistinctIds(Asserted(c.chain, c.request))
  }

  function Attempt(round: Round): nat {
    if round.AfterAudit? then 2 else 1
  }

  function Denied(c: Call, reason: Reason, attempt: nat): Call {
    c.(pc := RecordDenial(reason, attempt))
  }

  function Goto(c: Call, pc: Pc): Call {
    c.(pc := pc)
  }

  function StartReadingPrincipals(c: Call, round: Round): Call {
    c.(pc := ReadPrincipals(round, 0), current := c.current.(refs := []))
  }

  /** The first credential of the chain, root first, that is unsigned or does not verify. */
  function SignatureReason(chain: seq<Credential>, verifying: set<Credential>): (r: Option<Reason>)
    ensures r.None? <==> forall c :: c in chain ==> c.signature != "" && c in verifying
    ensures r != Some(AuditUnavailable)
  {
    if chain == [] then None
    else if chain[0].signature == "" then Some(UnsignedCredential)
    else if chain[0] !in verifying then Some(InvalidSignature)
    else SignatureReason(chain[1..], verifying)
  }

  function RevocationReason(chain: seq<Credential>, revoked: set<Digest>): Option<Reason>
    requires chain != []
  {
    if DigestOf(chain[|chain| - 1]) in revoked then Some(Revoked)
    else if exists c :: c in chain && DigestOf(c) in revoked then Some(AncestorRevoked)
    else None
  }

  function RequestReason(leaf: Credential, request: Request): Option<Reason> {
    if leaf.principal != request.principal then Some(WrongPrincipal)
    else if leaf.scope != request.scope then Some(WrongScope)
    else None
  }

  function OrDeny(c: Call, reason: Option<Reason>, attempt: nat, next: Call): Call {
    if reason.Some? then Denied(c, reason.value, attempt) else next
  }

  /** Read the binding of id number `k`, and move on to the next id or the next phase. */
  function PrincipalStep(sh: Shared, c: Call, round: Round, k: nat): Call {
    if k >= |Ids(c)| then c
    else
      match PrincipalSnapshot(sh.principals, Ids(c)[k])
      case None => Denied(c, PrincipalUnbound, Attempt(round))
      case Some(revision) =>
        var read := c.(current := c.current.(refs := c.current.refs + [PrincipalRef(Ids(c)[k], revision)]));
        var next := if k + 1 < |Ids(c)| then ReadPrincipals(round, k + 1)
                    else if round.Initial? then CheckChain(Initial)
                    else ReadRevocations(round);
        OrDeny(read, BindingReason(revision.binding, Asserted(c.chain, c.request), Ids(c)[k]), Attempt(round),
               Goto(read, next))
  }

  /** The issuer policy as of this call's last reading; the chain is checked against that. */
  function PolicyRead(c: Call): IssuerPolicy {
    if c.current.issuers.Some? then c.current.issuers.value.policy else NO_ISSUERS
  }

  /** The backend accesses that read but change nothing shared. */
  function ReadStep(sh: Shared, id: nat, c: Call, failed: bool): Call
    requires c.chain != []
  {
    match c.pc
    case ReadIssuers(round) =>
      if failed then Denied(c, BackendUnavailable, Attempt(round))
      else if sh.issuers.policy.version != VERIFIER_POLICY_VERSION then Denied(c, PolicyMismatch, Attempt(round))
      else
        var read := c.(current := c.current.(issuers := Some(sh.issuers)));
        if round.Initial? then StartReadingPrincipals(read, round) else Goto(read, CheckChain(round))
    case ReadPrincipals(round, k) =>
      if failed then Denied(c, BackendUnavailable, Attempt(round)) else PrincipalStep(sh, c, round, k)
    case CheckChain(round) =>
      if failed then Denied(c, BackendUnavailable, Attempt(round))
      else OrDeny(c, ChainReason(c.chain, PolicyRead(c), sh.now), Attempt(round),
                  if round.Initial? then Goto(c, ReadRevocations(round)) else StartReadingPrincipals(c, round))
    case ReadRevocations(round) =>
      if failed then Denied(c, BackendUnavailable, Attempt(round))
      else
        var read := c.(current := c.current.(revocations := Some(sh.revocations)));
        OrDeny(read, RevocationReason(c.chain, sh.revocations.revoked), Attempt(round),
               Goto(read, match round
                          case Initial => VerifySignatures
                          case BeforeAudit => RecordAllow
                          case AfterAudit => FinalTime))
    case VerifySignatures =>
      OrDeny(c, SignatureReason(c.chain, if failed then {} else sh.minted), 1, Goto(c, CheckTime))
    case CheckTime =>
      if failed then Denied(c, BackendUnavailable, 1)
      else OrDeny(c, ChainTimeReason(c.chain, sh.now), 1,
                  OrDeny(c, RequestReason(c.chain[|c.chain| - 1], c.request), 1, Goto(c, Reserve)))
    case CheckTimeAgain =>
      if failed then Denied(c, BackendUnavailable, 1)
      else OrDeny(c, ChainTimeReason(c.chain, sh.now), 1, Goto(c, ReadIssuers(BeforeAudit)))
    case FinalTime =>
      if failed then Denied(c, BackendUnavailable, 2)
      else OrDeny(c, ChainTimeReason(c.chain, sh.now), 2,
                  if c.current != c.audited then Denied(c, CurrentStateChanged, 2)
                  else Goto(c, Returned(Decision(id, 1, Allow(c.audited)))))
    case _ => c
  }

  /** An allowed call that was made on behalf of `delegate` mints its one child. */
  function MintStep(sh: Shared, c: Call, seal: Seal): (Shared, Call)
    requires c.chain != []
  {
    if c.job.Delegate? && c.child.NoChild? && Allowed(c) then
      match IssueChild(seal, c.chain[|c.chain| - 1], c.job.request, sh.now)
      case Err(_) => (sh, c.(child := IssuanceFailed))
      case Ok(child) => (sh.(minted := sh.minted + {child}), c.(child := Minted(child)))
    else (sh, c)
  }

  predicate Allowed(c: Call) {
    c.pc.Returned? && c.pc.decision.verdict.Allow?
  }

  /** The denial is written to the audit sink; if that fails, the caller sees a different denial. */
  function RecordDenialStep(sh: Shared, id: nat, c: Call, fault: Fault): (Shared, Call)
    requires c.pc.RecordDenial?
  {
    var decision := Decision(id, c.pc.attempt, Deny(c.pc.reason));
    (if fault.Raises? then sh else sh.(audit := sh.audit + [decision]),
     Goto(c, Returned(if fault.Works? then decision else Decision(id, c.pc.attempt, Deny(AuditUnavailable)))))
  }

  function ReserveStep(sh: Shared, c: Call, fault: Fault): (Shared, Call)
    requires c.chain != []
  {
    var leaf := c.chain[|c.chain| - 1];
    (if fault.Raises? then sh
     else sh.(reservations := AfterReserve(sh.reservations, DigestOf(leaf), leaf.expiresAt, sh.now)),
     if !fault.Works? then Denied(c, BackendUnavailable, 1)
     else if Held(sh.reservations, DigestOf(leaf), sh.now) then Denied(c, Replayed, 1)
     else Goto(c, CheckTimeAgain))
  }

  function RecordAllowStep(sh: Shared, id: nat, c: Call, fault: Fault): (Shared, Call) {
    (if fault.Raises? then sh else sh.(audit := sh.audit + [Decision(id, 1, Allow(c.current))]),
     if fault.Works? then c.(audited := c.current, auditedIn := Some(sh), pc := ReadIssuers(AfterAudit))
     else Goto(c, Returned(Decision(id, 1, Deny(AuditUnavailable)))))
  }

  /** One atomic step of call number `id`. */
  function Step(sh: Shared, id: nat, c: Call, fault: Fault, seal: Seal): (Shared, Call) {
    if c.pc.RecordDenial? then RecordDenialStep(sh, id, c, fault)
    else if c.chain == [] then (sh, c)
    else if c.pc.Reserve? then ReserveStep(sh, c, fault)
    else if c.pc.RecordAllow? then RecordAllowStep(sh, id, c, fault)
    else if c.pc.Returned? then MintStep(sh, c, seal)
    else (sh, ReadStep(sh, id, c, !fault.Works?))
  }

  // ---------------------------------------------------------------------------
  // Whole-system events and runs
  // ---------------------------------------------------------------------------

  predicate Parses(chain: seq<Credential>) {
    1 <= |chain| <= MAX_DELEGATION_DEPTH + 1 && forall c :: c in chain ==> WellFormed(c)
  }

  function NewCall(presented: Presented, request: Request, job: Job): Call {
    match presented
    case Missing =>
      Call([], request, job, RecordDenial(MissingCredential, 1), NO_EVIDENCE, NO_EVIDENCE, None, NoChild)
    case Malformed =>
      Call([], request, job, RecordDenial(MalformedCredential, 1), NO_EVIDENCE, NO_EVIDENCE, None, NoChild)
    case Chain(chain) =>
      Call(if Parses(chain) then chain else [], request, job,
           if Parses(chain) then ReadIssuers(Initial) else RecordDenial(MalformedCredential, 1),
           NO_EVIDENCE, NO_EVIDENCE, None, NoChild)
  }

  function Apply(s: State, e: Event): State {
    var sh := s.shared;
    match e
    case Tick(elapsed) => s.(shared := sh.(now := sh.now + elapsed))
    case SetIssuers(policy) => s.(shared := sh.(issuers := sh.issuers.Set(policy)))
    case SetPrincipal(principal, active) => s.(shared := sh.(principals := sh.principals.Set(principal, active)))
    case RemovePrincipal(id) => s.(shared := sh.(principals := sh.principals.Remove(id)))
    case Revoke(digest) => s.(shared := sh.(revocations := sh.revocations.Revoke(digest)))
    case MintRoot(seal, root) =>
      (match IssueRoot(seal, root, sh.now)
       case Err(_) => s
       case Ok(c) => s.(shared := sh.(minted := sh.minted + {c})))
    case BeginAuthorize(presented, request) =>
      s.(calls := s.calls + [NewCall(presented, request, AuthorizeOnly)])
    case BeginDelegate(parent, authenticated, child) =>
      if parent == [] || !WellFormed(parent[|parent| - 1]) || !MayDelegate(parent[|parent| - 1], child) then s
      else
        var request := Request(authenticated, parent[|parent| - 1].scope);
        s.(calls := s.calls + [NewCall(Chain(parent), request, Delegate(child))])
    case Advance(i, fault, seal) =>
      if i >= |s.calls| then s
      else
        var (shared, c) := Step(sh, i, s.calls[i], fault, seal);
        State(shared, s.calls[i := c])
  }

  /** Before the first event: any clock, any policy, any principals; nothing revoked, held, audited or minted. */
  ghost predicate Init(s: State) {
    && s.calls == []
    && s.shared.revocations == RevocationState({}, 0)
    && s.shared.reservations == map[]
    && s.shared.audit == []
    && s.shared.minted == {}
  }

  /** The state after a run. Quantifying over event sequences quantifies over all interleavings. */
  function Run(s: State, events: seq<Event>): State {
    if events == [] then s else Apply(Run(s, events[..|events| - 1]), events[|events| - 1])
  }

  lemma {:induction false} RunSplit(s: State, events: seq<Event>, k: nat)
    requires k <= |events|
    ensures Run(s, events) == Run(Run(s, events[..k]), events[k..])
    decreases |events|
  {
    if k == |events| {
      assert events[..k] == events;
    } else {
      var front := events[..|events| - 1];
      RunSplit(s, front, k);
      assert front[..k] == events[..k];
      assert events[k..][..|events[k..]| - 1] == front[k..];
    }
  }

  lemma RunSnoc(s: State, events: seq<Event>, e: Event)
    ensures Run(s, events + [e]) == Apply(Run(s, events), e)
  {
    hide Apply;
    assert (events + [e])[..|events|] == events;
  }

  lemma RunOfOne(s: State, e: Event)
    ensures Run(s, [e]) == Apply(s, e)
  {
    hide Apply;
    assert [e][..0] == [] && Run(s, []) == s;
  }

  lemma RunCons(s: State, first: Event, rest: seq<Event>)
    ensures Run(s, [first] + rest) == Run(Apply(s, first), rest)
  {
    hide Apply, Run;
    RunSplit(s, [first] + rest, 1);
    assert ([first] + rest)[..1] == [first] && ([first] + rest)[1..] == rest;
    RunOfOne(s, first);
  }

  // ---------------------------------------------------------------------------
  // The objections of the later checks, told apart
  // ---------------------------------------------------------------------------

  /** What parsing guarantees, field by field. */
  lemma ParsesInFields(chain: seq<Credential>)
    ensures Parses(chain) <==>
            && 1 <= |chain| <= 3
            && forall c :: c in chain ==>
                 && 0 <= c.depth <= c.maxDepth <= 2 && (c.depth == 0 <==> c.parent.None?)
                 && c.policyVersion == "capauth-delegated-authz/v1"
  {
  }

  lemma RevocationReasonIs(chain: seq<Credential>, revoked: set<Digest>)
    requires chain != []
    ensures var reason, n := RevocationReason(chain, revoked), |chain| - 1;
            var ancestor := exists i :: 0 <= i < n && DigestOf(chain[i]) in revoked;
            && (reason == Some(Revoked) <==> DigestOf(chain[n]) in revoked)
            && (reason == Some(AncestorRevoked) <==> DigestOf(chain[n]) !in revoked && ancestor)
            && reason in {None, Some(Revoked), Some(AncestorRevoked)}
  {
    if i :| 0 <= i < |chain| - 1 && DigestOf(chain[i]) in revoked {
      assert chain[i] in chain;
    } else if c :| c in chain && DigestOf(c) in revoked {
      var i :| 0 <= i < |chain| && chain[i] == c;
    }
  }

  lemma RequestReasonIs(leaf: Credential, request: Request)
    ensures var reason := RequestReason(leaf, request);
            && (reason == Some(WrongPrincipal) <==> leaf.principal != request.principal)
            && (reason == Some(WrongScope) <==> leaf.principal == request.principal && leaf.scope != request.scope)
            && reason in {None, Some(WrongPrincipal), Some(WrongScope)}
  {
  }

  /** Link `k` is the first that is unsigned or does not verify. */
  ghost predicate FirstUnverified(chain: seq<Credential>, verifying: set<Credential>, k: nat, reason: Reason) {
    && k < |chain|
    && (forall j :: 0 <= j < k ==> chain[j].signature != "" && chain[j] in verifying)
    && (reason == UnsignedCredential <==> chain[k].signature == "")
    && (reason == InvalidSignature <==> chain[k].signature != "" && chain[k] !in verifying)
    && reason in {UnsignedCredential, InvalidSignature}
  }

  lemma {:induction false} SignatureReasonIsFirst(chain: seq<Credential>, verifying: set<Credential>)
    requires SignatureReason(chain, verifying).Some?
    ensures exists k: nat :: FirstUnverified(chain, verifying, k, SignatureReason(chain, verifying).value)
    decreases |chain|
  {
    var reason := SignatureReason(chain, verifying).value;
    if chain[0].signature == "" || chain[0] !in verifying {
      assert FirstUnverified(chain, verifying, 0, reason);
    } else {
      SignatureReasonIsFirst(chain[1..], verifying);
      var k: nat :| FirstUnverified(chain[1..], verifying, k, reason);
      assert chain[1..][k] == chain[k + 1];
      forall j | 0 <= j < k + 1 ensures chain[j].signature != "" && chain[j] in verifying {
        assert j > 0 ==> chain[1..][j - 1] == chain[j];
      }
      assert FirstUnverified(chain, verifying, k + 1, reason);
    }
  }

  /** When a delegation is taken up at all, and with which request. */
  lemma DelegationBegins(s: State, parent: seq<Credential>, authenticated: Principal, child: ChildRequest)
    requires parent != []
    ensures var leaf, s' := parent[|parent| - 1], Apply(s, BeginDelegate(parent, authenticated, child));
            if WellFormed(leaf) && MayDelegate(leaf, child) then
              && s'.shared == s.shared && |s'.calls| == |s.calls| + 1 && s'.calls[..|s.calls|] == s.calls
              && var c := s'.calls[|s.calls|];
                 && c.chain == (if Parses(parent) then parent else []) && c.job == Delegate(child)
                 && c.request.principal == authenticated && c.request.scope == leaf.scope
            else s' == s
  {
  }
}
