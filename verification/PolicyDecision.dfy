/**
  The policy decision point. A long cascade of early returns turns out to be a conjunction of
  independent gates; what may and what may not turn a denial into an allow follows from that.
 */
module PolicyDecision {
  import opened Wrappers
  import opened IdentityClasses

  datatype Device = Device(subject: string, mode: Mode, revoked: bool)

  /** `genuine` is whether the signature bytes verify against the issuer that the payload declares. */
  datatype Token = Token(
    id: string, subject: string, capabilities: seq<string>, notBefore: Option<int>, expiresAt: Option<int>,
    signature: Option<string>, genuine: bool)

  datatype Rule = Rule(required: string, minimumMode: Mode)

  /**
    Everything a decision reads. The clock is read afresh for each token, and once more for the grace
    deadline; these readings need not agree.
   */
  datatype World = World(
    file: AssignmentsFile, table: ClassTable, rules: map<string, Rule>, devices: seq<Device>,
    tokens: seq<Token>, revoked: set<string>, graceUntil: Option<int>, clock: Token -> int, graceClock: int)

  datatype DenyReason =
    | UnusableClass | ClassForbids | ClassDoesNotPermit | UnknownCapability | UnknownSubject
    | ClassFloor | InsufficientMode | NoToken | NoUsableToken | InvalidSignature | Unsigned

  /** `wildcard` is whether the reason names a token for all capabilities. */
  datatype Decision = Allow(underGrace: bool, wildcard: bool) | Deny(reason: DenyReason)

  function Filter<T(!new)>(p: T -> bool, xs: seq<T>): (r: seq<T>)
    ensures forall x :: x in r <==> x in xs && p(x)
  {
    if xs == [] then []
    else
      assert xs == [xs[0]] + xs[1..];
      (if p(xs[0]) then [xs[0]] else []) + Filter(p, xs[1..])
  }

  // ---------------------------------------------------------------------------
  // Devices
  // ---------------------------------------------------------------------------

  predicate LiveAt(d: Device, minimum: Mode) {
    !d.revoked && Satisfies(d.mode, minimum)
  }

  predicate HasLiveAt(devices: seq<Device>, minimum: Mode) {
    exists d :: d in devices && LiveAt(d, minimum)
  }

  /** The strongest mode that some live device has. */
  function Strongest(devices: seq<Device>): Option<Mode> {
    if HasLiveAt(devices, Verified) then Some(Verified)
    else if HasLiveAt(devices, Attested) then Some(Attested)
    else if HasLiveAt(devices, Tofu) then Some(Tofu)
    else None
  }

  method StrongestMode(devices: seq<Device>) returns (r: Option<Mode>)
    ensures r == Strongest(devices)
  {
    var live := Filter((d: Device) => !d.revoked, devices);
    if live == [] {
      return None;
    }
    var strongest := live[0].mode;
    ghost var best := live[0];
    for i := 1 to |live|
      invariant best in live && best.mode == strongest
      invariant forall j :: 0 <= j < i ==> Satisfies(strongest, live[j].mode)
    {
      if Satisfies(live[i].mode, strongest) {
        strongest, best := live[i].mode, live[i];
      }
    }
    assert best in devices && LiveAt(best, strongest);
    return Some(strongest);
  }

  lemma LiveAtLowerFloor(devices: seq<Device>, mode: Mode, minimum: Mode)
    requires HasLiveAt(devices, mode) && Satisfies(mode, minimum)
    ensures HasLiveAt(devices, minimum)
  {
    var d :| d in devices && LiveAt(d, mode);
    assert LiveAt(d, minimum);
  }

  /** The strongest mode meets a floor exactly if some live device does. */
  lemma StrongestMeetsFloor(devices: seq<Device>, minimum: Mode)
    ensures Strongest(devices).Some? && Satisfies(Strongest(devices).value, minimum) <==> HasLiveAt(devices, minimum)
  {
    hide HasLiveAt;
    if HasLiveAt(devices, minimum) {
      LiveAtLowerFloor(devices, minimum, Tofu);
    }
    if Strongest(devices).Some? && Satisfies(Strongest(devices).value, minimum) {
      LiveAtLowerFloor(devices, Strongest(devices).value, minimum);
    }
  }

  // ---------------------------------------------------------------------------
  // Tokens
  // ---------------------------------------------------------------------------

  predicate HasCapability(t: Token, capability: string) {
    WILDCARD in t.capabilities || capability in t.capabilities
  }

  predicate IsActive(t: Token, now: int) {
    (t.expiresAt.Some? ==> now <= t.expiresAt.value) && (t.notBefore.Some? ==> now >= t.notBefore.value)
  }

  predicate IsSigned(t: Token) {
    t.signature.Some? && Strip(t.signature.value) != ""
  }

  predicate SignatureVerifies(t: Token) {
    IsSigned(t) && t.genuine
  }

  predicate Grants(t: Token, keys: seq<string>, required: string) {
    t.subject in keys && HasCapability(t, required)
  }

  predicate Usable(w: World, t: Token, keys: seq<string>, required: string) {
    Grants(t, keys, required) && IsActive(t, w.clock(t)) && t.id !in w.revoked
  }

  predicate GraceIsLive(w: World) {
    w.graceUntil.Some? && w.graceClock < w.graceUntil.value
  }

  // ---------------------------------------------------------------------------
  // The decision
  // ---------------------------------------------------------------------------

  function SubjectDevices(w: World, keys: seq<string>): seq<Device> {
    Filter((d: Device) => d.subject in keys, w.devices)
  }

  /** `keys` are the names under which the subject's records may be stored, in the order they are looked up. */
  function Decide(w: World, keys: seq<string>, capability: string): Decision {
    var resolution := Resolve(keys, w.file, w.table);
    var mode := Strongest(SubjectDevices(w, keys));
    if resolution.Unusable? then Deny(UnusableClass)
    else if resolution.Classified? && Forbids(resolution.identityClass, capability) then Deny(ClassForbids)
    else if resolution.Classified? && !Permits(resolution.identityClass, capability) then Deny(ClassDoesNotPermit)
    else if capability !in w.rules then Deny(UnknownCapability)
    else if mode.None? then Deny(UnknownSubject)
    else if resolution.Classified? && !Satisfies(mode.value, resolution.identityClass.minimumMode) then Deny(ClassFloor)
    else if !Satisfies(mode.value, w.rules[capability].minimumMode) then Deny(InsufficientMode)
    else DecideByTokens(w, keys, w.rules[capability].required)
  }

  function GrantingTokens(w: World, keys: seq<string>, required: string): (granting: seq<Token>)
    ensures forall t :: t in granting <==> t in w.tokens && Grants(t, keys, required)
  {
    Filter((t: Token) => HasCapability(t, required), Filter((t: Token) => t.subject in keys, w.tokens))
  }

  function UsableTokens(w: World, keys: seq<string>, required: string): (usable: seq<Token>)
    ensures forall t :: t in usable <==> t in w.tokens && Usable(w, t, keys, required)
  {
    Filter((t: Token) => IsActive(t, w.clock(t)) && t.id !in w.revoked, GrantingTokens(w, keys, required))
  }

  function DecideByTokens(w: World, keys: seq<string>, required: string): Decision {
    var usable := UsableTokens(w, keys, required);
    if GrantingTokens(w, keys, required) == [] then Deny(NoToken)
    else if usable == [] then Deny(NoUsableToken)
    else
      var verified := Filter(SignatureVerifies, usable);
      if verified == [] then
        var unsigned := Filter((t: Token) => !IsSigned(t), usable);
        var invalid := Filter(IsSigned, usable);
        if invalid != [] then Deny(InvalidSignature)
        else if GraceIsLive(w) then Allow(true, exists t :: t in unsigned && WILDCARD in t.capabilities)
        else Deny(Unsigned)
      else Allow(false, exists t :: t in verified && WILDCARD in t.capabilities)
  }

  // ---------------------------------------------------------------------------
  // The closed form
  // ---------------------------------------------------------------------------

  ghost predicate SomeGranting(w: World, keys: seq<string>, required: string) {
    exists t :: t in w.tokens && Grants(t, keys, required)
  }

  ghost predicate SomeUsable(w: World, keys: seq<string>, required: string) {
    exists t :: t in w.tokens && Usable(w, t, keys, required)
  }

  ghost predicate SomeVerified(w: World, keys: seq<string>, required: string) {
    exists t :: t in w.tokens && Usable(w, t, keys, required) && SignatureVerifies(t)
  }

  ghost predicate AllUnsigned(w: World, keys: seq<string>, required: string) {
    forall t :: t in w.tokens && Usable(w, t, keys, required) ==> !IsSigned(t)
  }

  ghost predicate SubjectLiveAt(w: World, keys: seq<string>, minimum: Mode) {
    exists d :: d in w.devices && d.subject in keys && LiveAt(d, minimum)
  }

  /** What the ceiling of a class asks, floor included. */
  ghost predicate WithinCeiling(w: World, resolution: Resolution, keys: seq<string>, capability: string) {
    match resolution
    case Unusable => false
    case Unclassified => true
    case Classified(c) =>
      !Forbids(c, capability) && Permits(c, capability) && SubjectLiveAt(w, keys, c.minimumMode)
  }

  ghost predicate TokensSuffice(w: World, keys: seq<string>, required: string) {
    || SomeVerified(w, keys, required)
    || (GraceIsLive(w) && SomeUsable(w, keys, required) && AllUnsigned(w, keys, required))
  }

  /** The request is in order, classes aside. */
  ghost predicate Granted(w: World, keys: seq<string>, capability: string) {
    && capability in w.rules
    && SubjectLiveAt(w, keys, w.rules[capability].minimumMode)
    && TokensSuffice(w, keys, w.rules[capability].required)
  }

  lemma SubjectFloor(w: World, keys: seq<string>, minimum: Mode)
    ensures var mode := Strongest(SubjectDevices(w, keys));
            mode.Some? && Satisfies(mode.value, minimum) <==> SubjectLiveAt(w, keys, minimum)
  {
    hide Satisfies;
    StrongestMeetsFloor(SubjectDevices(w, keys), minimum);
  }

  /** The four ways in which tokens fall short, told apart. */
  lemma TokenReasons(w: World, keys: seq<string>, required: string)
    ensures var decision := DecideByTokens(w, keys, required);
            var verified, unsigned := SomeVerified(w, keys, required), AllUnsigned(w, keys, required);
            if !SomeGranting(w, keys, required) then decision == Deny(NoToken)
            else if !SomeUsable(w, keys, required) then decision == Deny(NoUsableToken)
            else if !verified && !unsigned then decision == Deny(InvalidSignature)
            else if !verified && !GraceIsLive(w) then decision == Deny(Unsigned)
            else decision.Allow? && decision.underGrace == !verified
  {
    hide Usable, Grants, IsSigned, GraceIsLive, UsableTokens, GrantingTokens;
    var granting, usable := GrantingTokens(w, keys, required), UsableTokens(w, keys, required);
    var verified, invalid := Filter(SignatureVerifies, usable), Filter(IsSigned, usable);
    UsableIsGranting(w, keys, required);
    assert granting != [] ==> granting[0] in granting;
    assert usable != [] ==> usable[0] in usable;
    assert verified != [] ==> verified[0] in verified;
    assert invalid != [] ==> invalid[0] in invalid;
  }

  lemma TokensClosedForm(w: World, keys: seq<string>, required: string)
    ensures DecideByTokens(w, keys, required).Allow? <==> TokensSuffice(w, keys, required)
  {
    hide DecideByTokens, IsActive, IsSigned, HasCapability, GraceIsLive;
    TokenReasons(w, keys, required);
  }

  /** Past the ceiling and the floors, the tokens decide. */
  lemma DecisionRestsOnTokens(w: World, keys: seq<string>, capability: string)
    requires WithinCeiling(w, Resolve(keys, w.file, w.table), keys, capability)
    requires capability in w.rules && SubjectLiveAt(w, keys, w.rules[capability].minimumMode)
    ensures Decide(w, keys, capability) == DecideByTokens(w, keys, w.rules[capability].required)
  {
    hide Satisfies, DecideByTokens, Strongest, Forbids, Permits, SubjectLiveAt, SubjectDevices, Resolve;
    var resolution := Resolve(keys, w.file, w.table);
    if resolution.Classified? {
      SubjectFloor(w, keys, resolution.identityClass.minimumMode);
    }
    SubjectFloor(w, keys, w.rules[capability].minimumMode);
  }

  /** Allowed exactly if within the ceiling of the class and granted; no gate depends on another. */
  lemma DecideClosedForm(w: World, keys: seq<string>, capability: string)
    ensures Decide(w, keys, capability).Allow? <==>
            WithinCeiling(w, Resolve(keys, w.file, w.table), keys, capability) && Granted(w, keys, capability)
  {
    hide Satisfies, DecideByTokens, Strongest, Forbids, Permits, TokensSuffice, SubjectLiveAt, SubjectDevices, Resolve;
    var resolution := Resolve(keys, w.file, w.table);
    if resolution.Classified? {
      SubjectFloor(w, keys, resolution.identityClass.minimumMode);
    }
    if capability in w.rules {
      SubjectFloor(w, keys, w.rules[capability].minimumMode);
      TokensClosedForm(w, keys, w.rules[capability].required);
    }
  }

  // ---------------------------------------------------------------------------
  // The same in fields
  // ---------------------------------------------------------------------------

  /** A device of the subject that is not revoked, enrolled at least so. */
  ghost predicate Enrolled(w: World, keys: seq<string>, minimum: Mode) {
    exists d :: d in w.devices && d.subject in keys && !d.revoked && AtLeast(d.mode, minimum)
  }

  /** A token of the subject for the capability or for all, within its time and not revoked. */
  ghost predicate Holds(w: World, keys: seq<string>, required: string, t: Token) {
    && t in w.tokens && t.subject in keys && ("*" in t.capabilities || required in t.capabilities)
    && (t.expiresAt.Some? ==> w.clock(t) <= t.expiresAt.value)
    && (t.notBefore.Some? ==> t.notBefore.value <= w.clock(t))
    && t.id !in w.revoked
  }

  /** There is a signature, and something in it. */
  ghost predicate BearsSignature(t: Token) {
    t.signature.Some? && !AllSpace(t.signature.value)
  }

  lemma HoldsIsUsable(w: World, keys: seq<string>, required: string)
    ensures forall t :: Holds(w, keys, required, t) <==> t in w.tokens && Usable(w, t, keys, required)
    ensures forall t :: BearsSignature(t) <==> IsSigned(t)
  {
    forall t ensures BearsSignature(t) <==> IsSigned(t) {
      if t.signature.Some? {
        StripBlank(t.signature.value);
      }
    }
  }

  lemma EnrolledIsLive(w: World, keys: seq<string>, minimum: Mode)
    ensures Enrolled(w, keys, minimum) <==> SubjectLiveAt(w, keys, minimum)
  {
    forall d: Device ensures LiveAt(d, minimum) <==> !d.revoked && AtLeast(d.mode, minimum) {
      SatisfiesIsAtLeast(d.mode, minimum);
    }
  }

  /** Exactly which requests are allowed. */
  lemma DecideInFields(w: World, keys: seq<string>, capability: string)
    ensures Decide(w, keys, capability).Allow? <==>
            var resolution := Resolve(keys, w.file, w.table);
            && !resolution.Unusable?
            && (resolution.Classified? ==>
                  var c := resolution.identityClass;
                  !Forbids(c, capability) && Permits(c, capability) && Enrolled(w, keys, c.minimumMode))
            && capability in w.rules
            && Enrolled(w, keys, w.rules[capability].minimumMode)
            && var required := w.rules[capability].required;
               || (exists t :: Holds(w, keys, required, t) && BearsSignature(t) && t.genuine)
               || (w.graceUntil.Some? && w.graceClock < w.graceUntil.value
                   && (exists t :: Holds(w, keys, required, t))
                   && (forall t :: Holds(w, keys, required, t) ==> !BearsSignature(t)))
  {
    DecideClosedForm(w, keys, capability);
    var resolution := Resolve(keys, w.file, w.table);
    if resolution.Classified? {
      EnrolledIsLive(w, keys, resolution.identityClass.minimumMode);
    }
    if capability in w.rules {
      EnrolledIsLive(w, keys, w.rules[capability].minimumMode);
      HoldsIsUsable(w, keys, w.rules[capability].required);
    }
    hide Decide, Resolve, Forbids, Permits, Enrolled, SubjectLiveAt, Holds, Usable, BearsSignature, IsSigned;
  }

  /** Which kind of token the reason of an allow names. */
  lemma ReasonNamesTheToken(w: World, keys: seq<string>, required: string)
    requires DecideByTokens(w, keys, required).Allow?
    ensures DecideByTokens(w, keys, required).wildcard <==>
            exists t :: && Holds(w, keys, required, t) && "*" in t.capabilities
                        && (SomeVerified(w, keys, required) ==> BearsSignature(t) && t.genuine)
  {
    TokenReasons(w, keys, required);
    HoldsIsUsable(w, keys, required);
    hide Usable, Grants, IsSigned, GraceIsLive, UsableTokens, GrantingTokens, Holds, BearsSignature;
    var usable := UsableTokens(w, keys, required);
    var verified := Filter(SignatureVerifies, usable);
    assert verified != [] ==> verified[0] in verified;
  }

  /** What cannot be told is refused: an unreadable file, and a class that the table does not have. */
  lemma UnusableClassDenies(w: World, keys: seq<string>, capability: string, i: nat)
    requires || w.file.Unreadable?
             || (w.file.Stored? && i < |keys| && keys[i] in w.file.assignments
                 && w.file.assignments[keys[i]] !in w.table
                 && forall j :: 0 <= j < i ==> keys[j] !in w.file.assignments)
    ensures Decide(w, keys, capability) == Deny(UnusableClass)
  {
    ResolveInFields(keys, w.file, w.table);
    hide Resolve;
  }

  // ---------------------------------------------------------------------------
  // Which reason is given
  // ---------------------------------------------------------------------------

  /** Each reason names one gate, and whether a request passes it does not depend on the others. */
  ghost predicate Passes(gate: DenyReason, w: World, keys: seq<string>, capability: string) {
    var resolution := Resolve(keys, w.file, w.table);
    match gate
    case UnusableClass => !resolution.Unusable?
    case ClassForbids => resolution.Classified? ==> !Forbids(resolution.identityClass, capability)
    case ClassDoesNotPermit => resolution.Classified? ==> Permits(resolution.identityClass, capability)
    case UnknownCapability => capability in w.rules
    case UnknownSubject => SubjectLiveAt(w, keys, Tofu)
    case ClassFloor => resolution.Classified? ==> SubjectLiveAt(w, keys, resolution.identityClass.minimumMode)
    case InsufficientMode =>
      capability in w.rules ==> SubjectLiveAt(w, keys, w.rules[capability].minimumMode)
    case NoToken => capability in w.rules ==> SomeGranting(w, keys, w.rules[capability].required)
    case NoUsableToken => capability in w.rules ==> SomeUsable(w, keys, w.rules[capability].required)
    case InvalidSignature =>
      capability in w.rules ==>
        var required := w.rules[capability].required;
        SomeVerified(w, keys, required) || AllUnsigned(w, keys, required)
    case Unsigned =>
      capability in w.rules ==> SomeVerified(w, keys, w.rules[capability].required) || GraceIsLive(w)
  }

  function Rank(gate: DenyReason): nat {
    match gate
    case UnusableClass => 0
    case ClassForbids => 1
    case ClassDoesNotPermit => 2
    case UnknownCapability => 3
    case UnknownSubject => 4
    case ClassFloor => 5
    case InsufficientMode => 6
    case NoToken => 7
    case NoUsableToken => 8
    case InvalidSignature => 9
    case Unsigned => 10
  }

  ghost predicate PassesBefore(rank: nat, w: World, keys: seq<string>, capability: string) {
    forall g: DenyReason :: Rank(g) < rank ==> Passes(g, w, keys, capability)
  }

  /** The reason of a denial is the first gate, in their fixed order, that the request does not pass. */
  lemma ReasonIsTheFirstFailure(w: World, keys: seq<string>, capability: string)
    ensures var decision := Decide(w, keys, capability);
            if decision.Allow? then PassesBefore(11, w, keys, capability)
            else !Passes(decision.reason, w, keys, capability)
                 && PassesBefore(Rank(decision.reason), w, keys, capability)
  {
    hide Satisfies, DecideByTokens, Strongest, Forbids, Permits, SubjectLiveAt, SubjectDevices, Resolve;
    hide SomeGranting, SomeUsable, SomeVerified, AllUnsigned, GraceIsLive;
    var resolution := Resolve(keys, w.file, w.table);
    AnyModeIsTofu(w, keys);
    if resolution.Classified? {
      SubjectFloor(w, keys, resolution.identityClass.minimumMode);
    }
    if capability in w.rules {
      SubjectFloor(w, keys, w.rules[capability].minimumMode);
      TokenReasons(w, keys, w.rules[capability].required);
    }
  }

  lemma AnyModeIsTofu(w: World, keys: seq<string>)
    ensures Strongest(SubjectDevices(w, keys)).Some? <==> SubjectLiveAt(w, keys, Tofu)
  {
    SubjectFloor(w, keys, Tofu);
  }

  // ---------------------------------------------------------------------------
  // Withdrawing tokens and devices
  // ---------------------------------------------------------------------------

  /** `less` is what removing and revoking tokens and devices can leave of `w`. */
  ghost predicate Withdrawn(less: World, w: World) {
    && less.file == w.file && less.table == w.table && less.rules == w.rules
    && less.graceUntil == w.graceUntil && less.clock == w.clock && less.graceClock == w.graceClock
    && (forall d :: d in less.devices && !d.revoked ==> d in w.devices)
    && (forall t :: t in less.tokens ==> t in w.tokens)
    && w.revoked <= less.revoked
  }

  lemma WithdrawnFloor(less: World, w: World, keys: seq<string>, minimum: Mode)
    requires Withdrawn(less, w) && SubjectLiveAt(less, keys, minimum)
    ensures SubjectLiveAt(w, keys, minimum)
  {
  }

  lemma WithdrawnTokens(less: World, w: World, keys: seq<string>, required: string)
    requires Withdrawn(less, w)
    ensures SomeVerified(less, keys, required) ==> SomeVerified(w, keys, required)
    ensures SomeUsable(less, keys, required) ==> SomeUsable(w, keys, required)
    ensures AllUnsigned(w, keys, required) ==> AllUnsigned(less, keys, required)
  {
    hide IsActive, IsSigned, HasCapability;
    assert forall t :: Usable(less, t, keys, required) ==> Usable(w, t, keys, required);
  }

  /**
    Withdrawing turns a denial into an allow only under a live grace deadline, and then only by
    taking away the last token whose signature was made but does not verify.
   */
  lemma WithdrawingAllowsOnlyUnderGrace(less: World, w: World, keys: seq<string>, capability: string)
    requires Withdrawn(less, w)
    ensures var before, after := Decide(w, keys, capability), Decide(less, keys, capability);
            before.Deny? && after.Allow? ==>
              GraceIsLive(w) && before == Deny(InvalidSignature) && after.underGrace
  {
    hide Decide, DecideByTokens, SomeUsable, SomeVerified, AllUnsigned, SubjectLiveAt, Forbids, Permits, Resolve;
    if Decide(w, keys, capability).Deny? && Decide(less, keys, capability).Allow? {
      DecideClosedForm(w, keys, capability);
      DecideClosedForm(less, keys, capability);
      var resolution, rule := Resolve(keys, w.file, w.table), w.rules[capability];
      if resolution.Classified? {
        WithdrawnFloor(less, w, keys, resolution.identityClass.minimumMode);
      }
      WithdrawnFloor(less, w, keys, rule.minimumMode);
      WithdrawnTokens(less, w, keys, rule.required);
      DecisionRestsOnTokens(w, keys, capability);
      DecisionRestsOnTokens(less, keys, capability);
      TokenReasons(w, keys, rule.required);
      TokenReasons(less, keys, rule.required);
      UsableIsGranting(w, keys, rule.required);
      UsableIsGranting(less, keys, rule.required);
    }
  }

  lemma UsableIsGranting(w: World, keys: seq<string>, required: string)
    ensures SomeUsable(w, keys, required) ==> SomeGranting(w, keys, required)
    ensures SomeVerified(w, keys, required) ==> SomeUsable(w, keys, required)
  {
  }

  /** Only unsigned tokens are left among those that could grant the request. */
  ghost predicate OnlyUnsignedLeft(w: World, keys: seq<string>, capability: string) {
    && capability in w.rules
    && SomeUsable(w, keys, w.rules[capability].required) && AllUnsigned(w, keys, w.rules[capability].required)
  }

  /**
    Exactly when withdrawing tokens and devices turns a denial into an allow: under a live grace
    deadline, when ceiling, rule and floors still hold, nothing verified before, an attempted signature
    stood in the way, and only unsigned tokens are left.
   */
  lemma WithdrawingAllowsExactlyIf(less: World, w: World, keys: seq<string>, capability: string)
    requires Withdrawn(less, w)
    ensures Decide(w, keys, capability).Deny? && Decide(less, keys, capability).Allow? <==>
            && w.graceUntil.Some? && w.graceClock < w.graceUntil.value && capability in w.rules
            && WithinCeiling(less, Resolve(keys, w.file, w.table), keys, capability)
            && SubjectLiveAt(less, keys, w.rules[capability].minimumMode)
            && !SomeVerified(w, keys, w.rules[capability].required)
            && !AllUnsigned(w, keys, w.rules[capability].required)
            && OnlyUnsignedLeft(less, keys, capability)
  {
    hide Decide, SomeUsable, SomeVerified, AllUnsigned, SubjectLiveAt, Forbids, Permits, Resolve;
    DecideClosedForm(w, keys, capability);
    DecideClosedForm(less, keys, capability);
    if capability in w.rules {
      var resolution, rule := Resolve(keys, w.file, w.table), w.rules[capability];
      if resolution.Classified? && WithinCeiling(less, resolution, keys, capability) {
        WithdrawnFloor(less, w, keys, resolution.identityClass.minimumMode);
      }
      if SubjectLiveAt(less, keys, rule.minimumMode) {
        WithdrawnFloor(less, w, keys, rule.minimumMode);
      }
      WithdrawnTokens(less, w, keys, rule.required);
    }
  }

  const KEYS := ["s"]
  const STOPPED: Token -> int := _ => 0
  const UNSIGNED_TOKEN := Token("t1", "s", ["c"], None, None, None, false)
  const FORGED_TOKEN := Token("t2", "s", ["c"], None, None, Some("x"), false)

  /** One subject with one pinned device, and one capability that asks for no more. */
  function SmallWorld(tokens: seq<Token>, graceUntil: Option<int>): World {
    World(Missing, map[], map["c" := Rule("c", Tofu)], [Device("s", Tofu, false)], tokens, {}, graceUntil, STOPPED, 0)
  }

  /** It does happen: with a live grace deadline, deleting a forged token beside an unsigned one opens the door. */
  lemma DeletingAForgedTokenAllows()
    ensures var w, less := SmallWorld([UNSIGNED_TOKEN, FORGED_TOKEN], Some(1)), SmallWorld([UNSIGNED_TOKEN], Some(1));
            Withdrawn(less, w) && Decide(w, KEYS, "c").Deny? && Decide(less, KEYS, "c").Allow?
  {
    hide Decide, DecideByTokens, Forbids, Permits;
    var w, less := SmallWorld([UNSIGNED_TOKEN, FORGED_TOKEN], Some(1)), SmallWorld([UNSIGNED_TOKEN], Some(1));
    var d := w.devices[0];
    assert d in w.devices && d in less.devices && d.subject in KEYS && LiveAt(d, Tofu);
    assert IsSigned(FORGED_TOKEN) && !IsSigned(UNSIGNED_TOKEN);
    assert Usable(w, FORGED_TOKEN, KEYS, "c") && Usable(less, UNSIGNED_TOKEN, KEYS, "c");
    assert FORGED_TOKEN in w.tokens && UNSIGNED_TOKEN in less.tokens;
    DecideClosedForm(w, KEYS, "c");
    DecideClosedForm(less, KEYS, "c");
  }

  // ---------------------------------------------------------------------------
  // Grace
  // ---------------------------------------------------------------------------

  lemma SameUsable(w': World, w: World, keys: seq<string>, required: string)
    requires w'.tokens == w.tokens && w'.revoked == w.revoked && w'.clock == w.clock
    ensures GrantingTokens(w', keys, required) == GrantingTokens(w, keys, required)
    ensures UsableTokens(w', keys, required) == UsableTokens(w, keys, required)
  {
    var granting := GrantingTokens(w, keys, required);
    assert Filter((t: Token) => IsActive(t, w'.clock(t)) && t.id !in w'.revoked, granting)
        == Filter((t: Token) => IsActive(t, w.clock(t)) && t.id !in w.revoked, granting);
  }

  lemma GraceMattersLast(w: World, keys: seq<string>, required: string)
    ensures var strict := DecideByTokens(w.(graceUntil := None), keys, required);
            var actual := DecideByTokens(w, keys, required);
            if strict == Deny(Unsigned) && GraceIsLive(w) then actual.Allow? && actual.underGrace
            else actual == strict
  {
    SameUsable(w.(graceUntil := None), w, keys, required);
    hide UsableTokens, GrantingTokens;
  }

  /** A grace deadline adds exactly the requests that fail for nothing but unsigned tokens; all else it leaves alone. */
  lemma GraceAddsExactlyTheUnsigned(w: World, keys: seq<string>, capability: string)
    ensures var strict, actual := Decide(w.(graceUntil := None), keys, capability), Decide(w, keys, capability);
            if strict == Deny(Unsigned) && GraceIsLive(w) then actual.Allow? && actual.underGrace
            else actual == strict
  {
    hide Resolve, Forbids, Permits, Strongest, Satisfies, DecideByTokens, GraceIsLive, SubjectDevices;
    SameDevices(w.(graceUntil := None), w, keys);
    if capability in w.rules {
      GraceMattersLast(w, keys, w.rules[capability].required);
    }
  }

  /** In guards: exactly when a grace deadline turns a denial into an allow. */
  lemma GraceAllowsExactlyIf(w: World, keys: seq<string>, capability: string)
    ensures Decide(w.(graceUntil := None), keys, capability).Deny? && Decide(w, keys, capability).Allow? <==>
            && w.graceUntil.Some? && w.graceClock < w.graceUntil.value && OnlyUnsignedLeft(w, keys, capability)
            && WithinCeiling(w, Resolve(keys, w.file, w.table), keys, capability)
            && SubjectLiveAt(w, keys, w.rules[capability].minimumMode)
  {
    hide Decide, Forbids, Permits, Resolve, IsActive, HasCapability;
    var strict := w.(graceUntil := None);
    DecideClosedForm(w, keys, capability);
    DecideClosedForm(strict, keys, capability);
    GraceIsNotAGrant(w, keys);
  }

  lemma GraceIsNotAGrant(w: World, keys: seq<string>)
    ensures var strict := w.(graceUntil := None);
            && (forall m :: SubjectLiveAt(strict, keys, m) == SubjectLiveAt(w, keys, m))
            && (forall t, required :: Usable(strict, t, keys, required) == Usable(w, t, keys, required))
  {
  }

  /** What is allowed under grace is allowed before the deadline. */
  lemma GraceIsBeforeTheDeadline(w: World, keys: seq<string>, capability: string)
    ensures Decide(w, keys, capability).Allow? && Decide(w, keys, capability).underGrace ==>
            w.graceUntil.Some? && w.graceClock < w.graceUntil.value
  {
    UnderGraceAllIsUnsigned(w, keys, capability);
    hide Decide;
  }

  /** A deadline that has passed is as good as none, for every request. */
  lemma PassedDeadlineIsNone(w: World, keys: seq<string>, capability: string)
    requires w.graceUntil.Some? && w.graceClock >= w.graceUntil.value
    ensures Decide(w, keys, capability) == Decide(w.(graceUntil := None), keys, capability)
  {
    GraceAddsExactlyTheUnsigned(w, keys, capability);
    hide Decide;
  }

  lemma SameDevices(w': World, w: World, keys: seq<string>)
    requires w'.devices == w.devices
    ensures SubjectDevices(w', keys) == SubjectDevices(w, keys)
  {
  }

  /** Whatever is allowed under grace is granted by unsigned tokens only. */
  lemma UnderGraceAllIsUnsigned(w: World, keys: seq<string>, capability: string)
    ensures Decide(w, keys, capability).Allow? && Decide(w, keys, capability).underGrace ==>
            GraceIsLive(w) && OnlyUnsignedLeft(w, keys, capability)
  {
    hide Decide, DecideByTokens, SubjectLiveAt, Forbids, Permits, Resolve, SomeUsable, SomeVerified, AllUnsigned;
    if Decide(w, keys, capability).Allow? {
      DecideClosedForm(w, keys, capability);
      DecisionRestsOnTokens(w, keys, capability);
      TokenReasons(w, keys, w.rules[capability].required);
    }
  }

  // ---------------------------------------------------------------------------
  // Ceilings
  // ---------------------------------------------------------------------------

  /** Changing who is assigned what, or what the classes are, and nothing else. */
  ghost predicate SameButClasses(changed: World, w: World) {
    changed == w.(file := changed.file, table := changed.table)
  }

  /**
    Exactly when a change of classes turns a denial into an allow: the request was granted all along,
    and only the old ceiling held it back.
   */
  lemma ReclassifyingAllowsExactlyIf(changed: World, w: World, keys: seq<string>, capability: string)
    requires SameButClasses(changed, w)
    ensures Decide(w, keys, capability).Deny? && Decide(changed, keys, capability).Allow? <==>
            && Granted(w, keys, capability)
            && !WithinCeiling(w, Resolve(keys, w.file, w.table), keys, capability)
            && WithinCeiling(w, Resolve(keys, changed.file, changed.table), keys, capability)
  {
    hide Decide, Resolve, Forbids, Permits;
    DecideClosedForm(w, keys, capability);
    DecideClosedForm(changed, keys, capability);
    ClassesAreNotGrants(changed, w, keys, capability);
  }

  lemma ClassesAreNotGrants(changed: World, w: World, keys: seq<string>, capability: string)
    requires SameButClasses(changed, w)
    ensures Granted(changed, keys, capability) <==> Granted(w, keys, capability)
    ensures forall m :: SubjectLiveAt(changed, keys, m) == SubjectLiveAt(w, keys, m)
  {
    assert forall t, required :: Usable(changed, t, keys, required) == Usable(w, t, keys, required);
  }

  /** So classifying a subject that had no class never allows anything new. */
  lemma ClassifyingNeverAllows(w: World, keys: seq<string>, capability: string, key: string, name: string)
    requires Resolve(keys, w.file, w.table).Unclassified? && !w.file.Unreadable?
    ensures Decide(w.(file := Assigned(w.file, key, name)), keys, capability).Allow? ==>
            Decide(w, keys, capability).Allow?
  {
    hide Decide, Resolve, Granted;
    ReclassifyingAllowsExactlyIf(w.(file := Assigned(w.file, key, name)), w, keys, capability);
  }

  const GENUINE_TOKEN := Token("t", "s", ["skchat.send"], None, None, Some("x"), true)

  /** A subject with one verified device, a genuine token to send messages, and these class assignments. */
  function ChatWorld(assignments: map<string, string>): World {
    World(Stored(assignments), DEFAULT_CLASSES, map["skchat.send" := Rule("skchat.send", Verified)],
          [Device("s", Verified, false)], [GENUINE_TOKEN], {}, None, STOPPED, 0)
  }

  const AS_NODE := map["s" := "node"]
  const AS_OPERATOR := map["s" := "operator"]

  lemma ChatClasses()
    ensures Resolve(KEYS, Stored(AS_NODE), DEFAULT_CLASSES) == Classified(NODE)
    ensures Resolve(KEYS, Stored(AS_OPERATOR), DEFAULT_CLASSES) == Classified(OPERATOR)
  {
    DefaultLookups(AS_NODE, "s");
    DefaultLookups(AS_OPERATOR, "s");
  }

  lemma NodesMayNotSend()
    ensures !Forbids(NODE, "skchat.send") && !Permits(NODE, "skchat.send")
  {
    hide Forbids, Permits, Strip;
    PlainStrip("skchat.send");
    DefaultCeilings("skchat.send");
  }

  lemma PlainStrip(s: string)
    requires s != "" && !IsSpace(s[0]) && !IsSpace(s[|s| - 1])
    ensures Strip(s) == s
  {
  }

  lemma HolderMaySend(assignments: map<string, string>, keys: seq<string>)
    requires "s" in keys
    ensures Granted(ChatWorld(assignments), keys, "skchat.send")
    ensures SubjectLiveAt(ChatWorld(assignments), keys, Verified)
  {
    hide Strip, DEFAULT_CLASSES;
    var w := ChatWorld(assignments);
    PlainStrip("x");
    assert w.devices[0].subject in keys && LiveAt(w.devices[0], Verified);
    assert GENUINE_TOKEN in w.tokens && Usable(w, GENUINE_TOKEN, keys, "skchat.send");
    assert SignatureVerifies(GENUINE_TOKEN);
  }

  /** For one who holds the token and the device, the class alone decides. */
  lemma ClassDecides(assignments: map<string, string>, keys: seq<string>)
    requires "s" in keys
    ensures var resolution := Resolve(keys, Stored(assignments), DEFAULT_CLASSES);
            var decision := Decide(ChatWorld(assignments), keys, "skchat.send");
            && (resolution == Classified(NODE) ==> decision == Deny(ClassDoesNotPermit))
            && (resolution == Classified(OPERATOR) ==> decision.Allow?)
  {
    hide DEFAULT_CLASSES, NODE, Resolve, Forbids, Permits, SubjectLiveAt, Granted;
    NodesMayNotSend();
    HolderMaySend(assignments, keys);
    DefaultCeilings("skchat.send");
    DecideClosedForm(ChatWorld(assignments), keys, "skchat.send");
  }

  /** But giving a subject another class can: a node made an operator may send messages. */
  lemma PromotingANodeAllows()
    ensures Decide(ChatWorld(AS_NODE), KEYS, "skchat.send") == Deny(ClassDoesNotPermit)
    ensures Decide(ChatWorld(AS_OPERATOR), KEYS, "skchat.send").Allow?
    ensures SameButClasses(ChatWorld(AS_OPERATOR), ChatWorld(AS_NODE))
  {
    hide DEFAULT_CLASSES, NODE, OPERATOR, Resolve, Decide;
    ChatClasses();
    ClassDecides(AS_NODE, KEYS);
    ClassDecides(AS_OPERATOR, KEYS);
  }

  /** And the order in which a subject's two names are looked up can decide a request. */
  lemma LookupOrderDecides()
    ensures Decide(ChatWorld(AS_BOTH), ["s", "t"], "skchat.send") == Deny(ClassDoesNotPermit)
    ensures Decide(ChatWorld(AS_BOTH), ["t", "s"], "skchat.send").Allow?
  {
    hide DEFAULT_CLASSES, NODE, OPERATOR, Resolve, Decide;
    OrderMatters();
    ClassDecides(AS_BOTH, ["s", "t"]);
    ClassDecides(AS_BOTH, ["t", "s"]);
  }

  /** For any world it does so exactly if one order stays within the ceiling and the other does not. */
  lemma LookupOrderDecidesExactlyIf(w: World, a: string, b: string, capability: string)
    ensures Decide(w, [a, b], capability).Deny? && Decide(w, [b, a], capability).Allow? <==>
            && Granted(w, [b, a], capability)
            && !WithinCeiling(w, Resolve([a, b], w.file, w.table), [a, b], capability)
            && WithinCeiling(w, Resolve([b, a], w.file, w.table), [b, a], capability)
  {
    hide Decide, Resolve, Forbids, Permits;
    DecideClosedForm(w, [a, b], capability);
    DecideClosedForm(w, [b, a], capability);
    GrantsIgnoreOrder(w, a, b);
  }

  lemma GrantsIgnoreOrder(w: World, a: string, b: string)
    ensures forall m :: SubjectLiveAt(w, [a, b], m) == SubjectLiveAt(w, [b, a], m)
    ensures forall t, required :: Usable(w, t, [a, b], required) == Usable(w, t, [b, a], required)
  {
    assert forall subject :: subject in [a, b] <==> subject in [b, a];
  }

  /** No token, device, rule or grace lets an agent, a node or an edge device do what only an operator may. */
  lemma OperatorPowersStayWithOperators(w: World, keys: seq<string>, capability: string)
    requires Resolve(keys, w.file, w.table) in [Classified(AGENT), Classified(NODE), Classified(EDGE_DEVICE)]
    requires Strip(capability) in ["*", "token:issue", "identity:sign"]
    ensures Decide(w, keys, capability) == Deny(ClassForbids)
  {
    DefaultCeilings(capability);
  }
}
