/** What the audit trail shows of one call, with a sink that may fail at any write. */
module AuditTrail {
  import opened Wrappers
  import opened Credentials
  import opened Issuance
  import opened Backends
  import opened Authorizer
  import opened AuthorizerSafety

  /** The decisions recorded for call number `id`, oldest first. */
  function RecordsOf(audit: seq<Decision>, id: nat): seq<Decision> {
    if audit == [] then []
    else
      var front, last := audit[..|audit| - 1], audit[|audit| - 1];
      if last.call == id then RecordsOf(front, id) + [last] else RecordsOf(front, id)
  }

  function RecordedAllow(id: nat, c: Call): Decision {
    Decision(id, 1, Allow(c.audited))
  }

  /** A record that a failing sink may have kept although the caller was told that it failed. */
  ghost predicate KeptAnyway(d: Decision, id: nat, attempt: nat) {
    d.call == id && d.attempt == attempt && (attempt == 2 ==> d.verdict.Deny?)
  }

  /** What the trail must show of a call at each point of its progress. */
  ghost predicate Shows(records: seq<Decision>, id: nat, c: Call) {
    match c.pc
    case RecordDenial(_, attempt) => records == if attempt == 2 then [RecordedAllow(id, c)] else []
    case Returned(decision) =>
      if decision.verdict.Allow? then records == [decision]
      else
        var withdrawn := if decision.attempt == 2 then [RecordedAllow(id, c)] else [];
        if decision.verdict.reason.AuditUnavailable? then
          || records == withdrawn
          || exists d :: KeptAnyway(d, id, decision.attempt) && records == withdrawn + [d]
        else records == withdrawn + [decision]
    case _ => records == if Stage(c.pc) >= 13 then [RecordedAllow(id, c)] else []
  }

  ghost predicate TrailInv(records: seq<Decision>, id: nat, c: Call) {
    && Shows(records, id, c)
    && (c.pc.RecordDenial? ==> !c.pc.reason.AuditUnavailable? && 1 <= c.pc.attempt <= 2)
    && (c.pc.Returned? ==>
          var d := c.pc.decision;
          d.call == id && 1 <= d.attempt <= 2 && (d.verdict.Allow? ==> d == RecordedAllow(id, c)))
  }

  lemma ReasonsAreNotAudit(c: Call, sh: Shared, revoked: set<Digest>)
    ensures ChainReason(c.chain, PolicyRead(c), sh.now) != Some(AuditUnavailable)
    ensures c.chain != [] ==> RevocationReason(c.chain, revoked) != Some(AuditUnavailable)
    ensures c.chain != [] ==> RequestReason(c.chain[|c.chain| - 1], c.request) != Some(AuditUnavailable)
  {
  }

  /** `c'` follows `c` by a read: still on the same side of the audit write, or being denied with its attempt. */
  ghost predicate FollowsByRead(id: nat, c: Call, c': Call) {
    && c'.audited == c.audited
    && (if c'.pc.RecordDenial? then
          c'.pc.attempt == (if Stage(c.pc) >= 13 then 2 else 1) && !c'.pc.reason.AuditUnavailable?
        else if c'.pc.Returned? then Stage(c.pc) >= 13 && c'.pc.decision == RecordedAllow(id, c)
        else Stage(c'.pc) >= 13 <==> Stage(c.pc) >= 13)
  }

  predicate Reads(pc: Pc) {
    !pc.Returned? && !pc.RecordDenial? && !pc.Reserve? && !pc.RecordAllow?
  }

  lemma PrincipalReadFollows(sh: Shared, id: nat, c: Call, round: Round, k: nat)
    requires c.pc == ReadPrincipals(round, k)
    ensures FollowsByRead(id, c, PrincipalStep(sh, c, round, k))
  {
    hide DistinctIds, Asserted, AllMatch, BindingReason;
  }

  lemma GateFollows(sh: Shared, id: nat, c: Call, failed: bool)
    requires c.chain != [] && Reads(c.pc) && !c.pc.ReadPrincipals? && !c.pc.CheckChain? && !c.pc.ReadRevocations?
    ensures FollowsByRead(id, c, ReadStep(sh, id, c, failed))
  {
    ReasonsAreNotAudit(c, sh, sh.revocations.revoked);
  }

  lemma ReadFollows(sh: Shared, id: nat, c: Call, failed: bool)
    requires c.chain != [] && Reads(c.pc)
    ensures FollowsByRead(id, c, ReadStep(sh, id, c, failed))
  {
    if c.pc.ReadPrincipals? {
      PrincipalReadFollows(sh, id, c, c.pc.round, c.pc.k);
    } else if c.pc.CheckChain? || c.pc.ReadRevocations? {
      ReasonsAreNotAudit(c, sh, sh.revocations.revoked);
    } else {
      GateFollows(sh, id, c, failed);
    }
  }

  /** A read does not change what the trail should show. */
  lemma ReadKeepsTrail(records: seq<Decision>, id: nat, c: Call, c': Call)
    requires Reads(c.pc) && FollowsByRead(id, c, c') && TrailInv(records, id, c)
    ensures TrailInv(records, id, c')
  {
  }

  lemma RecordAppends(audit: seq<Decision>, decision: Decision, id: nat)
    ensures RecordsOf(audit + [decision], id) ==
            if decision.call == id then RecordsOf(audit, id) + [decision] else RecordsOf(audit, id)
  {
    assert (audit + [decision])[..|audit|] == audit;
  }

  lemma RecordDenialKeepsTrail(records: seq<Decision>, sh: Shared, id: nat, c: Call, fault: Fault)
    requires TrailInv(records, id, c) && c.pc.RecordDenial?
    ensures var c' := RecordDenialStep(sh, id, c, fault).1;
            var written := Decision(id, c.pc.attempt, Deny(c.pc.reason));
            TrailInv(if fault.Raises? then records else records + [written], id, c')
  {
    assert KeptAnyway(Decision(id, c.pc.attempt, Deny(c.pc.reason)), id, c.pc.attempt);
  }

  lemma RecordAllowKeepsTrail(records: seq<Decision>, sh: Shared, id: nat, c: Call, fault: Fault)
    requires TrailInv(records, id, c) && c.pc.RecordAllow?
    ensures var c' := RecordAllowStep(sh, id, c, fault).1;
            TrailInv(if fault.Raises? then records else records + [Decision(id, 1, Allow(c.current))], id, c')
  {
    assert KeptAnyway(Decision(id, 1, Allow(c.current)), id, 1);
  }

  lemma StepKeepsTrail(sh: Shared, id: nat, c: Call, fault: Fault, seal: Seal)
    requires TrailInv(RecordsOf(sh.audit, id), id, c)
    ensures var (sh', c') := Step(sh, id, c, fault, seal); TrailInv(RecordsOf(sh'.audit, id), id, c')
  {
    var records := RecordsOf(sh.audit, id);
    if c.pc.RecordDenial? {
      RecordDenialKeepsTrail(records, sh, id, c, fault);
      RecordAppends(sh.audit, Decision(id, c.pc.attempt, Deny(c.pc.reason)), id);
    } else if c.chain != [] {
      if c.pc.RecordAllow? {
        RecordAllowKeepsTrail(records, sh, id, c, fault);
        RecordAppends(sh.audit, Decision(id, 1, Allow(c.current)), id);
      } else if !c.pc.Reserve? && !c.pc.Returned? {
        ReadFollows(sh, id, c, !fault.Works?);
        ReadKeepsTrail(records, id, c, ReadStep(sh, id, c, !fault.Works?));
      }
    }
  }

  lemma StepLeavesOtherTrails(sh: Shared, id: nat, c: Call, fault: Fault, seal: Seal, other: nat)
    requires other != id
    ensures RecordsOf(Step(sh, id, c, fault, seal).0.audit, other) == RecordsOf(sh.audit, other)
  {
    hide ReadStep, RecordsOf, IssueChild, AfterReserve, Held;
    if c.pc.RecordDenial? {
      RecordAppends(sh.audit, Decision(id, c.pc.attempt, Deny(c.pc.reason)), other);
    } else if c.pc.RecordAllow? {
      RecordAppends(sh.audit, Decision(id, 1, Allow(c.current)), other);
    }
  }

  ghost predicate TrailsInv(s: State) {
    && (forall i :: 0 <= i < |s.calls| ==> TrailInv(RecordsOf(s.shared.audit, i), i, s.calls[i]))
    && (forall i {:trigger RecordsOf(s.shared.audit, i)} :: i >= |s.calls| ==> RecordsOf(s.shared.audit, i) == [])
  }

  lemma AdvanceKeepsTrails(s: State, i: nat, shared: Shared, c': Call)
    requires TrailsInv(s) && i < |s.calls|
    requires TrailInv(RecordsOf(shared.audit, i), i, c')
    requires forall j: nat :: j != i ==> RecordsOf(shared.audit, j) == RecordsOf(s.shared.audit, j)
    ensures TrailsInv(State(shared, s.calls[i := c']))
  {
    forall j: nat | j >= |s.calls| ensures RecordsOf(shared.audit, j) == [] {
      assert RecordsOf(s.shared.audit, j) == [];
    }
  }

  lemma ApplyKeepsTrails(s: State, e: Event)
    requires TrailsInv(s)
    ensures TrailsInv(Apply(s, e))
  {
    if e.Advance? && e.call < |s.calls| {
      var i := e.call;
      StepKeepsTrail(s.shared, i, s.calls[i], e.fault, e.seal);
      var (shared, c') := Step(s.shared, i, s.calls[i], e.fault, e.seal);
      forall j: nat | j != i
        ensures RecordsOf(shared.audit, j) == RecordsOf(s.shared.audit, j)
      {
        StepLeavesOtherTrails(s.shared, i, s.calls[i], e.fault, e.seal, j);
      }
      AdvanceKeepsTrails(s, i, shared, c');
    } else {
      assert RecordsOf(s.shared.audit, |s.calls|) == [];
    }
  }

  lemma {:induction false} RunKeepsTrails(s: State, events: seq<Event>)
    requires Init(s)
    ensures TrailsInv(Run(s, events))
    decreases |events|
  {
    if events != [] {
      RunKeepsTrails(s, events[..|events| - 1]);
      ApplyKeepsTrails(Run(s, events[..|events| - 1]), events[|events| - 1]);
    }
  }

  ghost predicate IsAllow(d: Decision) {
    d.verdict.Allow? && d.attempt == 1
  }

  /**
    The trail of a finished call: a returned allow is its only record; a denial is its own record,
    preceded by the allow it withdraws if it came after the audit write; and only for a denial for
    the lack of an audit sink may the record be missing, or be that of the decision it replaced.
   */
  lemma FinishedTrail(s: State, events: seq<Event>, i: nat)
    requires Init(s) && i < |Run(s, events).calls| && Run(s, events).calls[i].pc.Returned?
    ensures var d := Run(s, events).calls[i].pc.decision;
            var records := RecordsOf(Run(s, events).shared.audit, i);
            && d.call == i
            && (d.verdict.Allow? ==> records == [d] && d.attempt == 1)
            && (d.verdict.Deny? ==>
                  var withdrawn := if d.attempt == 2 then 1 else 0;
                  && (d.verdict.reason.AuditUnavailable? ==> withdrawn <= |records| <= withdrawn + 1)
                  && (!d.verdict.reason.AuditUnavailable? ==> |records| == withdrawn + 1 && records[withdrawn] == d)
                  && (withdrawn == 1 ==> IsAllow(records[0])))
  {
    RunKeepsTrails(s, events);
    assert TrailInv(RecordsOf(Run(s, events).shared.audit, i), i, Run(s, events).calls[i]);
  }

  /** Unless the sink failed it, a call was allowed exactly when its last record is an allow. */
  lemma LastRecordDecides(s: State, events: seq<Event>, i: nat)
    requires Init(s) && i < |Run(s, events).calls| && Run(s, events).calls[i].pc.Returned?
    requires Run(s, events).calls[i].pc.decision.verdict != Deny(AuditUnavailable)
    ensures var records := RecordsOf(Run(s, events).shared.audit, i);
            records != [] && (Allowed(Run(s, events).calls[i]) <==> records[|records| - 1].verdict.Allow?)
  {
    FinishedTrail(s, events, i);
  }

  /** At every moment of a run, finished or not, a call has one of four trails. */
  lemma TrailShape(s: State, events: seq<Event>, i: nat)
    requires Init(s) && i < |Run(s, events).calls|
    ensures var records := RecordsOf(Run(s, events).shared.audit, i);
            || records == []
            || (|records| == 1 && (IsAllow(records[0]) || records[0].verdict.Deny?))
            || (|records| == 2 && IsAllow(records[0]) && records[1].verdict.Deny? && records[1].attempt == 2)
  {
    RunKeepsTrails(s, events);
    assert TrailInv(RecordsOf(Run(s, events).shared.audit, i), i, Run(s, events).calls[i]);
  }

  // ---------------------------------------------------------------------------
  // Exactly when the last record tells the outcome
  // ---------------------------------------------------------------------------

  /**
    The two failures of the sink after which its trail says allow and the caller was denied: it keeps
    the allow and then raises, or it refuses the denial that should withdraw the allow.
   */
  ghost predicate Misleads(s: State, e: Event, i: nat) {
    && e.Advance? && e.call == i && i < |s.calls|
    && ((s.calls[i].pc.RecordAllow? && s.calls[i].chain != [] && e.fault.ActsThenRaises?)
        || (s.calls[i].pc.RecordDenial? && s.calls[i].pc.attempt == 2 && e.fault.Raises?))
  }

  ghost predicate EverMisleads(s: State, events: seq<Event>, i: nat) {
    exists k :: 0 <= k < |events| && Misleads(Run(s, events[..k]), events[k], i)
  }

  ghost predicate EndsInAllow(records: seq<Decision>) {
    records != [] && records[|records| - 1].verdict.Allow?
  }

  /** The call returned a denial, and its trail ends in an allow. */
  ghost predicate Misled(records: seq<Decision>, c: Call) {
    c.pc.Returned? && c.pc.decision.verdict.Deny? && EndsInAllow(records)
  }

  lemma ReadMisleadsNobody(records: seq<Decision>, id: nat, c: Call, c': Call)
    requires Reads(c.pc) && FollowsByRead(id, c, c')
    ensures !Misled(records, c) && !Misled(records, c')
  {
  }

  lemma StepMisleads(s: State, i: nat, fault: Fault, seal: Seal)
    requires i < |s.calls| && TrailInv(RecordsOf(s.shared.audit, i), i, s.calls[i])
    ensures var (sh', c') := Step(s.shared, i, s.calls[i], fault, seal);
            Misled(RecordsOf(sh'.audit, i), c') <==>
            Misled(RecordsOf(s.shared.audit, i), s.calls[i]) || Misleads(s, Advance(i, fault, seal), i)
  {
    hide ReadStep, RecordsOf, FollowsByRead, IssueChild, AfterReserve, Held;
    var sh, c := s.shared, s.calls[i];
    if c.pc.RecordDenial? {
      RecordAppends(sh.audit, Decision(i, c.pc.attempt, Deny(c.pc.reason)), i);
    } else if c.chain != [] {
      if c.pc.RecordAllow? {
        RecordAppends(sh.audit, Decision(i, 1, Allow(c.current)), i);
      } else if !c.pc.Reserve? && !c.pc.Returned? {
        ReadFollows(sh, i, c, !fault.Works?);
        ReadMisleadsNobody(RecordsOf(sh.audit, i), i, c, ReadStep(sh, i, c, !fault.Works?));
      }
    }
  }

  ghost predicate MisledAt(s: State, i: nat) {
    i < |s.calls| && Misled(RecordsOf(s.shared.audit, i), s.calls[i])
  }

  lemma ApplyMisleads(s: State, e: Event, i: nat)
    requires TrailsInv(s)
    ensures MisledAt(Apply(s, e), i) <==> MisledAt(s, i) || Misleads(s, e, i)
  {
    hide Step, RecordsOf, TrailInv, Misled;
    if e.Advance? && e.call < |s.calls| {
      if e.call == i {
        assert TrailInv(RecordsOf(s.shared.audit, i), i, s.calls[i]);
        StepMisleads(s, i, e.fault, e.seal);
      } else {
        StepLeavesOtherTrails(s.shared, e.call, s.calls[e.call], e.fault, e.seal, i);
      }
    } else {
      NewCallIsNotMisled(s, e, i);
    }
  }

  lemma NewCallIsNotMisled(s: State, e: Event, i: nat)
    requires !(e.Advance? && e.call < |s.calls|)
    ensures MisledAt(Apply(s, e), i) <==> MisledAt(s, i)
  {
    hide RecordsOf;
  }

  lemma EverMisleadsSnoc(s: State, front: seq<Event>, e: Event, i: nat)
    ensures EverMisleads(s, front + [e], i) <==> EverMisleads(s, front, i) || Misleads(Run(s, front), e, i)
  {
    hide Run, Misleads;
    var events := front + [e];
    assert events[..|front|] == front && events[|front|] == e;
    assert forall k :: 0 <= k < |front| ==> events[..k] == front[..k] && events[k] == front[k];
    if EverMisleads(s, front, i) {
      var k :| 0 <= k < |front| && Misleads(Run(s, front[..k]), front[k], i);
      assert Misleads(Run(s, events[..k]), events[k], i);
    }
    if Misleads(Run(s, front), e, i) {
      assert Misleads(Run(s, events[..|front|]), events[|front|], i);
    }
  }

  lemma {:induction false} MisledExactlyIf(s: State, events: seq<Event>, i: nat)
    requires Init(s)
    ensures MisledAt(Run(s, events), i) <==> EverMisleads(s, events, i)
    decreases |events|
  {
    hide Apply, MisledAt, Misleads, EverMisleads;
    if events == [] {
      NobodyMisledYet(s, i);
    } else {
      var front, e := events[..|events| - 1], events[|events| - 1];
      assert events == front + [e];
      MisledExactlyIf(s, front, i);
      RunKeepsTrails(s, front);
      ApplyMisleads(Run(s, front), e, i);
      EverMisleadsSnoc(s, front, e, i);
    }
  }

  lemma NobodyMisledYet(s: State, i: nat)
    requires Init(s)
    ensures !MisledAt(s, i) && !EverMisleads(s, [], i)
  {
  }

  /**
    For a finished call of any run, the last record is an allow just when the call was allowed, exactly
    if the sink never failed on this call in one of the two misleading ways.
   */
  lemma LastRecordTellsExactlyIf(s: State, events: seq<Event>, i: nat)
    requires Init(s) && i < |Run(s, events).calls| && Run(s, events).calls[i].pc.Returned?
    ensures (EndsInAllow(RecordsOf(Run(s, events).shared.audit, i)) <==> Allowed(Run(s, events).calls[i]))
            <==> !EverMisleads(s, events, i)
  {
    hide EverMisleads, Run, RecordsOf;
    MisledExactlyIf(s, events, i);
    FinishedTrail(s, events, i);
  }

  /** The run up to the audit write of an allowed call `i` can go on in this way, and the trail misleads. */
  ghost predicate CanMislead(s: State, events: seq<Event>, i: nat, ending: seq<Event>) {
    exists k :: 0 <= k < |events| && MisledAt(Run(s, events[..k] + ending), i)
  }

  /** The first failure is real: had the sink kept the allow of any allowed call and then raised. */
  lemma KeptAllowOfADenial(s: State, events: seq<Event>, i: nat, seal: Seal)
    requires Init(s) && i < |Run(s, events).calls| && Allowed(Run(s, events).calls[i])
    ensures CanMislead(s, events, i, [Advance(i, ActsThenRaises, seal)])
  {
    hide Run, Apply, Justified, EvidenceIsLive, MisledAt;
    AllowIsTrueAtItsAuditRecord(s, events, i);
    var k :| 0 <= k < |events| && WasTrueAt(s, events, i, k);
    AuditWriteHasChain(s, events[..k], i);
    RunKeepsTrails(s, events[..k]);
    ApplyMisleads(Run(s, events[..k]), Advance(i, ActsThenRaises, seal), i);
    RunSnoc(s, events[..k], Advance(i, ActsThenRaises, seal));
  }

  lemma AuditWriteHasChain(s: State, events: seq<Event>, i: nat)
    requires Init(s) && i < |Run(s, events).calls| && Run(s, events).calls[i].pc.RecordAllow?
    ensures Run(s, events).calls[i].chain != []
  {
    hide Run;
    RunKeepsInv(s, events);
    assert CallInv(Run(s, events).shared, Run(s, events).calls[i]);
  }

  /** The second is, too: had the sink kept it, a backend failed then, and the sink refused the withdrawal. */
  lemma RefusedWithdrawal(s: State, events: seq<Event>, i: nat, seal: Seal)
    requires Init(s) && i < |Run(s, events).calls| && Allowed(Run(s, events).calls[i])
    ensures CanMislead(s, events, i, [Advance(i, Works, seal), Advance(i, Raises, seal), Advance(i, Raises, seal)])
  {
    hide Run, Apply, Justified, EvidenceIsLive, MisledAt;
    AllowIsTrueAtItsAuditRecord(s, events, i);
    var k :| 0 <= k < |events| && WasTrueAt(s, events, i, k);
    AuditWriteHasChain(s, events[..k], i);
    var write, fail := Advance(i, Works, seal), Advance(i, Raises, seal);
    var before := Run(s, events[..k]);
    WithdrawalFollows(before, i, seal);
    RunSnoc(s, events[..k], write);
    RunSnoc(s, events[..k] + [write], fail);
    RunSnoc(s, events[..k] + [write] + [fail], fail);
    RunKeepsTrails(s, events[..k] + [write] + [fail]);
    ApplyMisleads(Run(s, events[..k] + [write] + [fail]), fail, i);
    assert events[..k] + [write] + [fail] + [fail] == events[..k] + [write, fail, fail];
  }

  lemma WithdrawalFollows(s: State, i: nat, seal: Seal)
    requires i < |s.calls| && s.calls[i].pc.RecordAllow? && s.calls[i].chain != []
    ensures var s' := Apply(Apply(s, Advance(i, Works, seal)), Advance(i, Raises, seal));
            Misleads(s', Advance(i, Raises, seal), i)
  {
  }

  // ---------------------------------------------------------------------------
  // A sink that never fails
  // ---------------------------------------------------------------------------

  ghost predicate SinkFails(s: State, e: Event) {
    && e.Advance? && !e.fault.Works? && e.call < |s.calls|
    && (s.calls[e.call].pc.RecordDenial? || s.calls[e.call].pc.RecordAllow?)
  }

  ghost predicate SinkNeverFails(s: State, events: seq<Event>) {
    forall k :: 0 <= k < |events| ==> !SinkFails(Run(s, events[..k]), events[k])
  }

  ghost predicate Unrecorded(c: Call) {
    c.pc.Returned? && c.pc.decision.verdict == Deny(AuditUnavailable)
  }

  lemma StepWithoutSinkFailure(sh: Shared, id: nat, c: Call, fault: Fault, seal: Seal)
    requires TrailInv(RecordsOf(sh.audit, id), id, c) && !Unrecorded(c)
    requires !fault.Works? ==> !c.pc.RecordDenial? && !c.pc.RecordAllow?
    ensures !Unrecorded(Step(sh, id, c, fault, seal).1)
  {
    if c.chain != [] && Reads(c.pc) {
      ReadFollows(sh, id, c, !fault.Works?);
    }
  }

  ghost predicate AllRecorded(s: State) {
    forall i :: 0 <= i < |s.calls| ==> !Unrecorded(s.calls[i])
  }

  lemma ApplyWithoutSinkFailure(s: State, e: Event)
    requires TrailsInv(s) && AllRecorded(s) && !SinkFails(s, e)
    ensures AllRecorded(Apply(s, e))
  {
    hide Step, TrailInv, RecordsOf;
    if e.Advance? && e.call < |s.calls| {
      assert TrailInv(RecordsOf(s.shared.audit, e.call), e.call, s.calls[e.call]);
      StepWithoutSinkFailure(s.shared, e.call, s.calls[e.call], e.fault, e.seal);
    }
  }

  lemma {:induction false} SinkHoldsSoRecorded(s: State, events: seq<Event>)
    requires Init(s) && SinkNeverFails(s, events)
    ensures AllRecorded(Run(s, events))
    decreases |events|
  {
    hide Apply, SinkFails, AllRecorded;
    if events != [] {
      var front, e := events[..|events| - 1], events[|events| - 1];
      assert forall k :: 0 <= k < |front| ==> front[..k] == events[..k] && front[k] == events[k];
      SinkHoldsSoRecorded(s, front);
      RunKeepsTrails(s, front);
      ApplyWithoutSinkFailure(Run(s, front), e);
    } else {
      NoCallsAllRecorded(s);
    }
  }

  lemma NoCallsAllRecorded(s: State)
    requires s.calls == []
    ensures AllRecorded(s)
  {
  }

  /** With a sink that never fails, a finished call was allowed exactly when its last record is an allow. */
  lemma ReliableSinkTellsAllows(s: State, events: seq<Event>, i: nat)
    requires Init(s) && SinkNeverFails(s, events)
    requires i < |Run(s, events).calls| && Run(s, events).calls[i].pc.Returned?
    ensures var records := RecordsOf(Run(s, events).shared.audit, i);
            records != [] && (Allowed(Run(s, events).calls[i]) <==> records[|records| - 1].verdict.Allow?)
  {
    hide Step;
    SinkHoldsSoRecorded(s, events);
    assert !Unrecorded(Run(s, events).calls[i]);
    LastRecordDecides(s, events, i);
  }
}
