/** The two message handlers: the phone's signer and the desktop's one-shot relay. */
module BunkerPeers {
  import opened Wrappers
  import opened BunkerChannel
  import opened CanonicalNonce

  // ---------------------------------------------------------------------------
  // The phone
  // ---------------------------------------------------------------------------

  /**
    What the phone draws from outside while it handles one message. Asking, signing and looking up the
    fingerprint may fail; the first attempt to reply may fail, and so may the one that reports a failure.
   */
  datatype Choice = Choice(
    newKey: PrivateKey, approval: Result<bool, string>, signature: Result<string, string>,
    fingerprint: Result<string, string>, replyFault: Option<string>, retryWorks: bool)

  datatype Signature = Signature(payload: string, text: string)

  /** What the user was shown of a request, and whether the user approved it. */
  datatype Prompt = Prompt(request: Body, origin: string, parsed: Parsed, approved: bool)

  /** The origin that a payload names. */
  function NamedOrigin(payload: string): string {
    var fields := Parse(payload).fields;
    if "origin" in fields then fields["origin"] else ""
  }

  /** The origin that the request names, or else the one that its payload names. */
  function ShownOrigin(request: Body): string
    requires request.SignRequest?
  {
    if request.origin != "" then request.origin else NamedOrigin(request.payload)
  }

  function PromptFor(request: Body, approved: bool): Prompt
    requires request.SignRequest?
  {
    Prompt(request, ShownOrigin(request), Parse(request.payload), approved)
  }

  /** For any request, the origin shown is the one in the payload exactly if the request names the same or none. */
  lemma ShownOriginIsNamed(request: Body)
    requires request.SignRequest?
    ensures ShownOrigin(request) == NamedOrigin(request.payload) <==>
            request.origin == "" || request.origin == NamedOrigin(request.payload)
  {
  }

  /** Another payload that reaches the user looking the same: the same version and the same fields. */
  ghost predicate LooksLike(payload: string, other: string) {
    CrossCheck(other) && Parse(other) == Parse(payload)
  }

  /**
    For every payload that reaches the user, the version and fields shown fix the bytes to be signed exactly
    if the version is the checked one; with any other, a newline at the end does not show.
   */
  lemma ShownFixesTheBytes(payload: string)
    requires CrossCheck(payload)
    ensures (forall other :: LooksLike(payload, other) ==> other == payload) <==> Parse(payload).version == V2
  {
    if Parse(payload).version != V2 {
      TrailingNewlineIsNotShown(payload);
      assert LooksLike(payload, payload + ['\n']);
    }
  }

  /** For a payload that the extension builds from one-line fields, these are the fields shown. */
  lemma ShownIsSigned(request: Body, t: Nonce)
    requires request.SignRequest? && t.origin != "" && OneLine(t) && request.payload == BuildCanonical(t)
    ensures NonceOf(PromptFor(request, true).parsed.fields) == t
    ensures ShownOrigin(request) == t.origin <==> request.origin == "" || request.origin == t.origin
  {
    BuiltPayloadIsAccepted(t);
    OriginIsAField(t);
  }

  /** What the phone reports on its screen: a failure in the channel, or a handler that gave up without an answer. */
  datatype SignerError = Channel(error: ChannelError) | Unanswered

  /**
    `prompts` and `signatures` record what the user was shown and what the key signed, in order, and
    `choices` under what circumstances each request was handled.
   */
  datatype Signer = Signer(
    session: Session, choices: seq<Choice>, prompts: seq<Prompt>, signatures: seq<Signature>, errors: seq<SignerError>)

  predicate Approved(choice: Choice) {
    choice.approval == Ok(true)
  }

  /** The key signs: the payload was accepted and approved, and signing works. */
  predicate Signs(request: Body, choice: Choice)
    requires request.SignRequest?
  {
    CrossCheck(request.payload) && Approved(choice) && choice.signature.Ok?
  }

  function PromptsOf(request: Body, choice: Choice): seq<Prompt>
    requires request.SignRequest?
  {
    if CrossCheck(request.payload) then [PromptFor(request, Approved(choice))] else []
  }

  function SignaturesOf(request: Body, choice: Choice): seq<Signature>
    requires request.SignRequest?
  {
    if Signs(request, choice) then [Signature(request.payload, choice.signature.value)] else []
  }

  /** One attempt to answer; if it fails nothing is sent, and nobody tries again. */
  function Once(choice: Choice, body: Body): Option<Body> {
    if choice.replyFault.Some? then None else Some(body)
  }

  function SignFailed(request: Body, message: string): Body
    requires request.SignRequest?
  {
    Reject(request.id, "sign_error: " + message)
  }

  /** The approval flow for one request: refuse, ask, sign, answer. A failure in signing or after it is reported. */
  function Answer(request: Body, choice: Choice): (answer: Option<Body>)
    requires request.SignRequest?
    ensures answer.Some? ==> answer.value.id == request.id && !answer.value.SignRequest?
  {
    if !CrossCheck(request.payload) then Once(choice, Reject(request.id, "non_canonical_payload"))
    else if choice.approval.Err? then None
    else if !choice.approval.value then Once(choice, Reject(request.id, "user_declined"))
    else if choice.signature.Err? then Once(choice, SignFailed(request, choice.signature.error))
    else if choice.fingerprint.Err? then Once(choice, SignFailed(request, choice.fingerprint.error))
    else if choice.replyFault.None? then
      Some(SignResponse(request.id, choice.signature.value, choice.fingerprint.value))
    else if choice.retryWorks then Some(SignFailed(request, choice.replyFault.value))
    else None
  }

  /** A signature goes out exactly if it was made, the fingerprint was found and the first reply worked. */
  lemma SignatureIsSentExactlyIf(request: Body, choice: Choice)
    requires request.SignRequest?
    ensures Answer(request, choice).Some? && Answer(request, choice).value.SignResponse? <==>
            Signs(request, choice) && choice.fingerprint.Ok? && choice.replyFault.None?
  {
  }

  function Reply(session: Session, body: Body): Message {
    match session.Seal(body)
    case Ok(sealed) => sealed
    case Err(_) => Plain(body)
  }

  function Replies(session: Session, answer: Option<Body>): seq<Message> {
    if answer.None? then [] else [Reply(session, answer.value)]
  }

  function HandleSignRequest(s: Signer, request: Body, choice: Choice): (Signer, seq<Message>)
    requires request.SignRequest?
  {
    (s.(choices := s.choices + [choice], prompts := s.prompts + PromptsOf(request, choice),
        signatures := s.signatures + SignaturesOf(request, choice)),
     Replies(s.session, Answer(request, choice)))
  }

  function WithError(s: Signer, error: SignerError): Signer {
    s.(errors := s.errors + [error])
  }

  function SignerHandle(s: Signer, msg: Message, choice: Choice): (Signer, seq<Message>) {
    match msg
    case Paired =>
      var (session, kex) := s.session.Start(choice.newKey);
      (s.(session := session), [kex])
    case Kex(pub) =>
      (match s.session.OnKex(pub)
       case Ok(session) => (s.(session := session), [])
       case Err(e) => (WithError(s, Channel(e)), []))
    case Enc(ct, _) =>
      (match s.session.Open(ct)
       case Ok(body) =>
         if !body.SignRequest? then (s, [])
         else
           var (s', out) := HandleSignRequest(s, body, choice);
           (if Answer(body, choice).None? then WithError(s', Unanswered) else s', out)
       case Err(e) => (WithError(s, Channel(e)), []))
    case Plain(body) => if body.SignRequest? then HandleSignRequest(s, body, choice) else (s, [])
    case PeerLeft => (s, [])
    case BrokerError(_) => (s, [])
  }

  class BunkerSigner {
    const e2e: E2ESession
    ghost var choices: seq<Choice>
    var prompts: seq<Prompt>
    var signatures: seq<Signature>
    var errors: seq<SignerError>
    var socket: seq<Message>

    ghost function State(): Signer
      reads this, e2e
    {
      Signer(e2e.State(), choices, prompts, signatures, errors)
    }

    constructor (pairingSecret: string, frag: string)
      ensures State() == Signer(Session(pairingSecret, frag, None, None), [], [], [], [])
      ensures socket == [] && fresh(e2e)
    {
      e2e := new E2ESession(pairingSecret, frag);
      choices, prompts, signatures, errors, socket := [], [], [], [], [];
    }

    method Send(msg: Message)
      modifies this`socket
      ensures socket == old(socket) + [msg]
    {
      socket := socket + [msg];
    }

    /** Sealed when there is a key, plain otherwise; nothing at all if it fails. */
    method SendReply(body: Body, fault: Option<string>) returns (error: Option<string>)
      modifies this`socket
      ensures error == fault
      ensures socket == old(socket) + if fault.None? then [Reply(e2e.State(), body)] else []
    {
      if fault.Some? {
        return fault;
      }
      var sealed := e2e.Seal(body);
      if sealed.Ok? {
        Send(sealed.value);
      } else {
        Send(Plain(body));
      }
      return None;
    }

    /** After approval. A failure from here on is reported to the desktop, if that works. */
    method SignAndAnswer(request: Body, choice: Choice) returns (error: Option<string>)
      requires request.SignRequest? && CrossCheck(request.payload) && Approved(choice)
      modifies this`signatures, this`socket
      ensures signatures == old(signatures) + SignaturesOf(request, choice)
      ensures socket == old(socket) + Replies(e2e.State(), Answer(request, choice))
      ensures error.Some? <==> Answer(request, choice).None?
    {
      hide CrossCheck, Reply;
      if choice.signature.Err? {
        error := SendReply(SignFailed(request, choice.signature.error), choice.replyFault);
        return;
      }
      signatures := signatures + [Signature(request.payload, choice.signature.value)];
      if choice.fingerprint.Err? {
        error := SendReply(SignFailed(request, choice.fingerprint.error), choice.replyFault);
        return;
      }
      error := SendReply(SignResponse(request.id, choice.signature.value, choice.fingerprint.value), choice.replyFault);
      if error.Some? {
        error := SendReply(SignFailed(request, error.value), if choice.retryWorks then None else error);
      }
    }

    /** `error` is what escapes from the handler; then nothing was sent. */
    method OnSignRequest(request: Body, choice: Choice) returns (error: Option<string>)
      requires request.SignRequest?
      modifies this
      ensures State() == HandleSignRequest(old(State()), request, choice).0
      ensures socket == old(socket) + HandleSignRequest(old(State()), request, choice).1
      ensures error.Some? <==> Answer(request, choice).None?
    {
      hide RebuildV2, Parse, Reply, SignFailed;
      choices := choices + [choice];
      var parsed := ParseCanonical(request.payload);
      if parsed.version == V2 && RebuildV2(parsed.fields) != request.payload {
        error := SendReply(Reject(request.id, "non_canonical_payload"), choice.replyFault);
        return;
      }
      var fields := parsed.fields;
      var origin := if request.origin != "" then request.origin
                    else if "origin" in fields then fields["origin"] else "";
      prompts := prompts + [Prompt(request, origin, parsed, choice.approval == Ok(true))];
      if choice.approval.Err? {
        return Some(choice.approval.error);
      }
      if !choice.approval.value {
        error := SendReply(Reject(request.id, "user_declined"), choice.replyFault);
        return;
      }
      error := SignAndAnswer(request, choice);
    }

    method OnMessage(msg: Message, choice: Choice)
      modifies this, e2e
      ensures State() == SignerHandle(old(State()), msg, choice).0
      ensures socket == old(socket) + SignerHandle(old(State()), msg, choice).1
    {
      match msg
      case Paired =>
        var kex := e2e.Start(choice.newKey);
        Send(kex);
      case Kex(pub) =>
        var error := e2e.OnKex(pub);
        if error.Some? {
          errors := errors + [Channel(error.value)];
        }
      case Enc(ct, _) =>
        var inner := e2e.Open(ct);
        if inner.Err? {
          errors := errors + [Channel(inner.error)];
        } else if inner.value.SignRequest? {
          var error := OnSignRequest(inner.value, choice);
          if error.Some? {
            errors := errors + [Unanswered];
          }
        }
      case Plain(body) =>
        if body.SignRequest? {
          var _ := OnSignRequest(body, choice);
        }
      case _ =>
    }
  }

  // ---------------------------------------------------------------------------
  // The desktop
  // ---------------------------------------------------------------------------

  datatype Failure = E2EFailed(error: ChannelError) | TimedOut | SocketClosed | SocketFailed

  datatype Outcome = Resolved(body: Body) | ResolvedError(code: string) | Failed(why: Failure)

  datatype Client = Client(session: Session, request: Body, sent: bool, outcome: Option<Outcome>)

  /** Only the first settlement counts. */
  function Finish(c: Client, outcome: Outcome): Client {
    if c.outcome.Some? then c else c.(outcome := Some(outcome))
  }

  predicate AnswersRequest(c: Client, body: Body) {
    !body.SignRequest? && body.id == c.request.id
  }

  function FinishIfAnswer(c: Client, body: Body): Client {
    if AnswersRequest(c, body) then Finish(c, Resolved(body)) else c
  }

  function ClientHandle(c: Client, msg: Message, newKey: PrivateKey): (Client, seq<Message>) {
    match msg
    case Paired =>
      var (session, kex) := c.session.Start(newKey);
      (c.(session := session), [kex])
    case Kex(pub) =>
      (match c.session.OnKex(pub)
       case Err(e) => (Finish(c, Failed(E2EFailed(e))), [])
       case Ok(session) =>
         if c.sent then (c.(session := session), [])
         else
           var ready := c.(session := session, sent := true);
           match session.Seal(c.request)
           case Err(e) => (Finish(ready, Failed(E2EFailed(e))), [])
           case Ok(sealed) => (ready, [sealed]))
    case Enc(ct, _) =>
      (match c.session.Open(ct)
       case Err(e) => (Finish(c, Failed(E2EFailed(e))), [])
       case Ok(body) => (FinishIfAnswer(c, body), []))
    case Plain(body) => (FinishIfAnswer(c, body), [])
    case PeerLeft => (c, [])
    case BrokerError(code) => (Finish(c, ResolvedError(code)), [])
  }

  class RelayRequest {
    const e2e: E2ESession
    const request: Body
    var sent: bool
    var outcome: Option<Outcome>
    var socket: seq<Message>

    ghost function State(): Client
      reads this, e2e
    {
      Client(e2e.State(), request, sent, outcome)
    }

    constructor (pairingSecret: string, frag: string, request: Body)
      ensures State() == Client(Session(pairingSecret, frag, None, None), request, false, None)
      ensures socket == [] && fresh(e2e)
    {
      e2e := new E2ESession(pairingSecret, frag);
      this.request := request;
      sent, outcome, socket := false, None, [];
    }

    method Settle(result: Outcome)
      modifies this`outcome
      ensures State() == Finish(old(State()), result)
    {
      if outcome.None? {
        outcome := Some(result);
      }
    }

    method SettleIfAnswer(body: Body)
      modifies this`outcome
      ensures State() == FinishIfAnswer(old(State()), body)
    {
      if !body.SignRequest? && body.id == request.id {
        Settle(Resolved(body));
      }
    }

    method OnMessage(msg: Message, newKey: PrivateKey)
      modifies this, e2e
      ensures State() == ClientHandle(old(State()), msg, newKey).0
      ensures socket == old(socket) + ClientHandle(old(State()), msg, newKey).1
    {
      match msg
      case Paired =>
        var kex := e2e.Start(newKey);
        socket := socket + [kex];
      case Kex(pub) =>
        var error := e2e.OnKex(pub);
        if error.Some? {
          Settle(Failed(E2EFailed(error.value)));
        } else if !sent {
          sent := true;
          var sealed := e2e.Seal(request);
          if sealed.Ok? {
            socket := socket + [sealed.value];
          } else {
            assert false;
          }
        }
      case Enc(ct, _) =>
        var inner := e2e.Open(ct);
        if inner.Err? {
          Settle(Failed(E2EFailed(inner.error)));
        } else {
          SettleIfAnswer(inner.value);
        }
      case Plain(body) =>
        SettleIfAnswer(body);
      case PeerLeft =>
      case BrokerError(code) =>
        Settle(ResolvedError(code));
    }
  }

  // ---------------------------------------------------------------------------
  // The backend's sign()
  // ---------------------------------------------------------------------------

  datatype SignError =
    | Rejected(reason: string) | BunkerError(code: string) | NoSignature | WrongFingerprint | RelayFailed(why: Failure)

  function Upper(s: string): string {
    seq(|s|, i requires 0 <= i < |s| =>
      if 'a' <= s[i] <= 'z' then ((s[i] as int) - 32) as char else s[i])
  }

  /** What `sign` makes of the settled relay, given the fingerprint it expects in upper case. */
  function SignResult(expected: string, outcome: Outcome): Result<string, SignError> {
    match outcome
    case Failed(why) => Err(RelayFailed(why))
    case ResolvedError(code) => Err(BunkerError(code))
    case Resolved(Reject(_, reason)) => Err(Rejected(reason))
    case Resolved(SignRequest(_, _, _, _)) => Err(NoSignature)
    case Resolved(SignResponse(_, signature, fingerprint)) =>
      if signature == "" then Err(NoSignature)
      else if expected != "" && fingerprint != "" && Upper(fingerprint) != expected then Err(WrongFingerprint)
      else Ok(signature)
  }

  // ---------------------------------------------------------------------------
  // Case by case
  // ---------------------------------------------------------------------------

  /** Exactly when `sign` returns a signature, and exactly which error it throws otherwise. */
  lemma SignResultInFields(expected: string, outcome: Outcome)
    ensures var result := SignResult(expected, outcome);
            var answered := outcome.Resolved? && outcome.body.SignResponse? && outcome.body.signature != "";
            var matching := answered && (expected == "" || outcome.body.fingerprint == ""
                                         || Upper(outcome.body.fingerprint) == expected);
            && (result.Ok? <==> matching) && (matching ==> result == Ok(outcome.body.signature))
            && (result == Err(WrongFingerprint) <==> answered && !matching)
            && (result == Err(NoSignature) <==>
                outcome.Resolved? && (outcome.body.SignRequest?
                                      || (outcome.body.SignResponse? && outcome.body.signature == "")))
            && (forall reason :: result == Err(Rejected(reason)) <==>
                  outcome.Resolved? && outcome.body.Reject? && outcome.body.reason == reason)
            && (forall code :: result == Err(BunkerError(code)) <==> outcome == ResolvedError(code))
            && (forall why :: result == Err(RelayFailed(why)) <==> outcome == Failed(why))
  {
  }

  lemma UpperCapitalises()
    ensures Upper("abcdefghijklm") == "ABCDEFGHIJKLM" && Upper("nopqrstuvwxyz") == "NOPQRSTUVWXYZ"
    ensures Upper("0123456789ABCDEF") == "0123456789ABCDEF"
  {
  }

  lemma UpperIsByCharacter(s: string, t: string)
    ensures Upper(s + t) == Upper(s) + Upper(t)
  {
  }

  /** An answer to another request, and a request, leave the desktop waiting, sealed or not. */
  lemma OthersAreIgnored(c: Client, body: Body, newKey: PrivateKey)
    requires body.SignRequest? || body.id != c.request.id
    ensures ClientHandle(c, Plain(body), newKey) == (c, [])
    ensures c.session.key.Some? ==>
              ClientHandle(c, Enc(Sealed(c.session.key.value, body), body.id), newKey) == (c, [])
  {
  }

  /** What settles a desktop that waits: an answer to its request, or an error of the broker or the channel. */
  lemma SettledBy(c: Client, msg: Message, newKey: PrivateKey)
    requires c.outcome.None?
    ensures var outcome := ClientHandle(c, msg, newKey).0.outcome;
            && (msg.Plain? ==> outcome == (if !msg.body.SignRequest? && msg.body.id == c.request.id
                                           then Some(Resolved(msg.body)) else None))
            && (msg.BrokerError? ==> outcome == Some(ResolvedError(msg.code)))
            && (msg.Paired? || msg.PeerLeft? ==> outcome.None?)
            && (msg.Kex? ==> (outcome == if c.session.keyPair.None? then Some(Failed(E2EFailed(StartFirst))) else None))
            && (msg.Enc? && c.session.key.None? ==> outcome == Some(Failed(E2EFailed(NotSecured))))
            && (msg.Enc? && c.session.key.Some? && msg.ct.key != c.session.key.value ==>
                  outcome == Some(Failed(E2EFailed(DecryptFailed))))
  {
  }

  /** A request in the clear, from a desktop of the older kind, is handled alike. */
  lemma LegacyRequestIsHandled(s: Signer, request: Body, choice: Choice)
    requires request.SignRequest?
    ensures var (s', out) := SignerHandle(s, Plain(request), choice);
            && s'.prompts == s.prompts + PromptsOf(request, choice)
            && s'.signatures == s.signatures + SignaturesOf(request, choice)
            && match Answer(request, choice)
               case None => out == []
               case Some(answer) =>
                 out == [if s.session.key.Some? then Enc(Sealed(s.session.key.value, answer), answer.id)
                         else Plain(answer)]
  {
  }

  /** What the phone reports: a channel that is not ready or not its own, and a sealed request left unanswered. */
  lemma PhoneReports(s: Signer, msg: Message, choice: Choice)
    ensures var report := SignerHandle(s, msg, choice).0.errors;
            && (msg.Paired? || msg.Plain? || msg.PeerLeft? || msg.BrokerError? ==> report == s.errors)
            && (msg.Kex? ==> report == s.errors + if s.session.keyPair.None? then [Channel(StartFirst)] else [])
            && (msg.Enc? && s.session.key.None? ==> report == s.errors + [Channel(NotSecured)])
            && (msg.Enc? && s.session.key.Some? && msg.ct.key != s.session.key.value ==>
                  report == s.errors + [Channel(DecryptFailed)])
            && (msg.Enc? && s.session.key == Some(msg.ct.key) ==>
                  report == s.errors + if msg.ct.body.SignRequest? && Answer(msg.ct.body, choice).None?
                                       then [Unanswered] else [])
  {
  }

  /** Exactly how each request is answered. */
  lemma AnswerInFields(request: Body, choice: Choice)
    requires request.SignRequest?
    ensures var answer := Answer(request, choice);
            var canonical := CrossCheck(request.payload);
            var works := choice.replyFault.None?;
            && (!canonical ==> answer == if works then Some(Reject(request.id, "non_canonical_payload")) else None)
            && (canonical && choice.approval == Ok(false) ==>
                  answer == if works then Some(Reject(request.id, "user_declined")) else None)
            && (canonical && choice.approval.Err? ==> answer.None?)
            && (canonical && choice.approval == Ok(true) && choice.signature.Err? ==>
                  answer == if works then Some(Reject(request.id, "sign_error: " + choice.signature.error)) else None)
            && (Signs(request, choice) && choice.fingerprint.Err? ==>
                  answer == if works then Some(Reject(request.id, "sign_error: " + choice.fingerprint.error)) else None)
            && (Signs(request, choice) && choice.fingerprint.Ok? && works ==>
                  answer == Some(SignResponse(request.id, choice.signature.value, choice.fingerprint.value)))
            && (Signs(request, choice) && choice.fingerprint.Ok? && !works ==>
                  answer == if choice.retryWorks
                            then Some(Reject(request.id, "sign_error: " + choice.replyFault.value)) else None)
  {
  }
}
