/**
  Desktop, phone and broker as one transition system. The broker puts one `paired` first
  into each direction and relays in order; handlers are atomic; the broker's own notices,
  the timeout and the closing of the socket may strike the desktop at any moment.
 */
module BunkerSafety {
  import opened Wrappers
  import opened BunkerChannel
  import opened BunkerPeers
  import opened CanonicalNonce

  /** Each direction keeps everything ever put into it; `clientRead` and `signerRead` say how much was handled. */
  datatype System = System(
    client: Client, signer: Signer,
    toClient: seq<Message>, clientRead: nat,
    toSigner: seq<Message>, signerRead: nat,
    interrupted: bool)

  datatype Event =
    | ClientReads(newKey: PrivateKey)
    | SignerReads(choice: Choice)
    | NotifyClient(code: string)
    | PeerGone
    | Interrupt(why: Failure)

  /** What one side was paired with. */
  datatype Pairing = Pairing(secret: string, frag: string)

  function Init(client: Pairing, signer: Pairing, request: Body): System {
    System(Client(Session(client.secret, client.frag, None, None), request, false, None),
           Signer(Session(signer.secret, signer.frag, None, None), [], [], [], []),
           [Paired], 0, [Paired], 0, false)
  }

  function Apply(s: System, e: Event): System {
    match e
    case ClientReads(newKey) =>
      if s.clientRead >= |s.toClient| then s
      else
        var (client, out) := ClientHandle(s.client, s.toClient[s.clientRead], newKey);
        s.(client := client, clientRead := s.clientRead + 1, toSigner := s.toSigner + out)
    case SignerReads(choice) =>
      if s.signerRead >= |s.toSigner| then s
      else
        var (signer, out) := SignerHandle(s.signer, s.toSigner[s.signerRead], choice);
        s.(signer := signer, signerRead := s.signerRead + 1, toClient := s.toClient + out)
    case NotifyClient(code) =>
      s.(client := ClientHandle(s.client, BrokerError(code), PrivateKey(0)).0, interrupted := true)
    case PeerGone => s.(client := ClientHandle(s.client, PeerLeft, PrivateKey(0)).0)
    case Interrupt(why) => s.(client := Finish(s.client, Failed(why)), interrupted := true)
  }

  /** Interruptions come from the timer or the socket, never from the channel. */
  ghost predicate Genuine(events: seq<Event>) {
    forall e :: e in events && e.Interrupt? ==> !e.why.E2EFailed?
  }

  function Run(s: System, events: seq<Event>): System {
    if events == [] then s else Apply(Run(s, events[..|events| - 1]), events[|events| - 1])
  }

  // ---------------------------------------------------------------------------
  // What each side has said so far, as a function of how far it has come
  // ---------------------------------------------------------------------------

  predicate SamePairing(s: System) {
    && s.client.session.pairingSecret == s.signer.session.pairingSecret
    && s.client.session.frag == s.signer.session.frag
  }

  function KeyOf(own: Session, peer: Session): SessionKey
    requires own.keyPair.Some? && peer.keyPair.Some?
  {
    DeriveSharedKey(own.keyPair.value, PublicOf(peer.keyPair.value), own.pairingSecret, own.frag)
  }

  /** A session that has handled `n` messages of its peer: nothing, the pairing, the key exchange. */
  ghost predicate SessionAt(own: Session, peer: Session, n: nat) {
    && (own.keyPair.Some? <==> n >= 1)
    && (n >= 2 ==> peer.keyPair.Some? && own.key == Some(KeyOf(own, peer)))
    && (n < 2 ==> own.key.None?)
  }

  function Opening(session: Session): seq<Message> {
    [Paired] + if session.keyPair.Some? then [Kex(PublicOf(session.keyPair.value))] else []
  }

  function ClientScript(c: Client): seq<Message> {
    Opening(c.session)
    + if c.sent && c.session.key.Some? then [Enc(Sealed(c.session.key.value, c.request), c.request.id)] else []
  }

  /** Whether the phone has handled the request, and under what circumstances. */
  datatype Answered = NotYet | Handled(choice: Choice)

  /** What the phone did with the one request that it handled, if it did. */
  ghost predicate HandledWith(s: Signer, request: Body, choice: Choice)
    requires request.SignRequest?
  {
    && s.choices == [choice]
    && s.prompts == PromptsOf(request, choice) && s.signatures == SignaturesOf(request, choice)
  }

  ghost predicate AnswerRecorded(s: Signer, request: Body, a: Answered)
    requires request.SignRequest?
  {
    match a
    case NotYet => s.choices == [] && s.prompts == [] && s.signatures == []
    case Handled(choice) => HandledWith(s, request, choice)
  }

  /** The answer that the phone has given, if it got that far and could. */
  function Given(request: Body, a: Answered): Option<Body>
    requires request.SignRequest?
  {
    if a.Handled? then Answer(request, a.choice) else None
  }

  function SignerScript(s: Signer, request: Body, a: Answered): seq<Message>
    requires request.SignRequest?
  {
    var answer := Given(request, a);
    Opening(s.session)
    + if answer.Some? && s.session.key.Some?
      then [Enc(Sealed(s.session.key.value, answer.value), request.id)] else []
  }

  ghost predicate InvWith(s: System, a: Answered) {
    && s.client.request.SignRequest?
    && s.clientRead <= |s.toClient| && s.signerRead <= |s.toSigner|
    && SessionAt(s.client.session, s.signer.session, s.clientRead)
    && SessionAt(s.signer.session, s.client.session, s.signerRead)
    && (s.client.sent <==> s.clientRead >= 2)
    && s.toSigner == ClientScript(s.client)
    && s.toClient == SignerScript(s.signer, s.client.request, a)
    && (a.Handled? <==> s.signerRead >= 3 && SamePairing(s))
    && AnswerRecorded(s.signer, s.client.request, a)
    && OutcomeInv(s, a)
  }

  /** How the desktop can have settled, and what the phone can have objected to. */
  ghost predicate OutcomeInv(s: System, a: Answered)
    requires s.client.request.SignRequest?
  {
    var answer := Given(s.client.request, a);
    && (s.client.outcome.Some? && s.client.outcome.value.Resolved? ==>
          answer == Some(s.client.outcome.value.body) && s.clientRead >= 3)
    && (s.client.outcome.Some? && s.client.outcome.value.Failed? ==> !s.client.outcome.value.why.E2EFailed?)
    && (!s.interrupted ==>
          if s.clientRead >= 3 && answer.Some? then s.client.outcome == Some(Resolved(answer.value))
          else s.client.outcome.None?)
    && (forall e :: e in s.signer.errors ==>
          (e == Channel(DecryptFailed) && !SamePairing(s)) || (e.Unanswered? && a.Handled? && answer.None?))
  }

  ghost predicate Inv(s: System) {
    exists a :: InvWith(s, a)
  }

  lemma InitInv(client: Pairing, signer: Pairing, request: Body)
    requires request.SignRequest?
    ensures Inv(Init(client, signer, request))
  {
    assert InvWith(Init(client, signer, request), NotYet);
  }

  // ---------------------------------------------------------------------------
  // Each event keeps the scripts
  // ---------------------------------------------------------------------------

  /** There are at most three messages in each direction. */
  lemma ClientReadsInv(s: System, a: Answered, newKey: PrivateKey)
    requires InvWith(s, a)
    ensures InvWith(Apply(s, ClientReads(newKey)), a)
  {
    hide Answer, PromptsOf, SignaturesOf, SignerHandle;
    if s.clientRead < |s.toClient| {
      if s.clientRead == 2 {
        var key, peerKey := s.client.session.key.value, s.signer.session.key.value;
        KeysAgree(s.client.session.keyPair.value, s.signer.session.keyPair.value,
                  s.client.session.pairingSecret, s.client.session.frag,
                  s.signer.session.pairingSecret, s.signer.session.frag);
        assert key == peerKey;
      }
    }
  }

  function NextAnswer(s: System, a: Answered, choice: Choice): Answered
    requires s.client.request.SignRequest?
  {
    if s.signerRead == 2 && |s.toSigner| > 2 && SamePairing(s) then Handled(choice) else a
  }

  lemma SignerReadsRequest(s: System, a: Answered, choice: Choice)
    requires InvWith(s, a) && s.signerRead == 2 && |s.toSigner| > 2
    ensures InvWith(Apply(s, SignerReads(choice)), NextAnswer(s, a, choice))
  {
    hide Answer, PromptsOf, SignaturesOf, ClientHandle;
    KeysAgree(s.signer.session.keyPair.value, s.client.session.keyPair.value,
              s.signer.session.pairingSecret, s.signer.session.frag,
              s.client.session.pairingSecret, s.client.session.frag);
    assert s.toSigner[2] == Enc(Sealed(s.client.session.key.value, s.client.request), s.client.request.id);
  }

  lemma SignerReadsInv(s: System, a: Answered, choice: Choice)
    requires InvWith(s, a)
    ensures InvWith(Apply(s, SignerReads(choice)), NextAnswer(s, a, choice))
  {
    if s.signerRead == 2 && |s.toSigner| > 2 {
      SignerReadsRequest(s, a, choice);
    }
  }

  lemma ApplyKeepsInv(s: System, e: Event)
    requires Inv(s) && (e.Interrupt? ==> !e.why.E2EFailed?)
    ensures Inv(Apply(s, e))
  {
    var a :| InvWith(s, a);
    match e
    case ClientReads(newKey) => ClientReadsInv(s, a, newKey);
    case SignerReads(choice) => SignerReadsInv(s, a, choice);
    case _ => assert InvWith(Apply(s, e), a);
  }

  /** What never changes: the request and what each side was paired with. */
  ghost predicate Setup(s: System, client: Pairing, signer: Pairing, request: Body) {
    && s.client.request == request
    && s.client.session.pairingSecret == client.secret && s.client.session.frag == client.frag
    && s.signer.session.pairingSecret == signer.secret && s.signer.session.frag == signer.frag
  }

  lemma ApplyKeepsSetup(s: System, e: Event, client: Pairing, signer: Pairing, request: Body)
    requires Setup(s, client, signer, request)
    ensures Setup(Apply(s, e), client, signer, request)
  {
  }

  lemma {:induction false} RunKeepsInv(client: Pairing, signer: Pairing, request: Body, events: seq<Event>)
    requires request.SignRequest? && Genuine(events)
    ensures Inv(Run(Init(client, signer, request), events))
    ensures Setup(Run(Init(client, signer, request), events), client, signer, request)
    decreases |events|
  {
    if events == [] {
      InitInv(client, signer, request);
    } else {
      hide Apply, Inv, Setup, Init;
      var front, last := events[..|events| - 1], events[|events| - 1];
      assert last in events && Genuine(front);
      RunKeepsInv(client, signer, request, front);
      ApplyKeepsInv(Run(Init(client, signer, request), front), last);
      ApplyKeepsSetup(Run(Init(client, signer, request), front), last, client, signer, request);
    }
  }

  // ---------------------------------------------------------------------------
  // Consequences for every run
  // ---------------------------------------------------------------------------

  /** Whenever both sides hold a key, they hold the same key exactly if they were paired alike. */
  lemma SharedKey(client: Pairing, signer: Pairing, request: Body, events: seq<Event>)
    requires request.SignRequest? && Genuine(events)
    requires var s := Run(Init(client, signer, request), events);
             s.client.session.key.Some? && s.signer.session.key.Some?
    ensures var s := Run(Init(client, signer, request), events);
            s.client.session.key == s.signer.session.key <==> client == signer
  {
    RunKeepsInv(client, signer, request, events);
    var s := Run(Init(client, signer, request), events);
    var a :| InvWith(s, a);
    KeysAgree(s.client.session.keyPair.value, s.signer.session.keyPair.value,
              client.secret, client.frag, signer.secret, signer.frag);
  }

  /**
    No message reaches a side that is not ready for it: the desktop never fails in the channel, and
    all that the phone can object to is a request sealed under another pairing, or that it could not answer.
   */
  lemma NoChannelErrors(client: Pairing, signer: Pairing, request: Body, events: seq<Event>)
    requires request.SignRequest? && Genuine(events)
    ensures var s := Run(Init(client, signer, request), events);
            && (forall e :: s.client.outcome != Some(Failed(E2EFailed(e))))
            && (forall e :: e in s.signer.errors ==>
                  || (e == Channel(DecryptFailed) && client != signer)
                  || (e.Unanswered? && |s.signer.choices| == 1 && Answer(request, s.signer.choices[0]).None?))
  {
    RunKeepsInv(client, signer, request, events);
    var a :| InvWith(Run(Init(client, signer, request), events), a);
  }

  /** Whatever becomes of the answer, the key signs at most once, and only the request's payload, once approved. */
  lemma SignsOnlyWhatWasApproved(client: Pairing, signer: Pairing, request: Body, events: seq<Event>)
    requires request.SignRequest? && Genuine(events)
    ensures var s := Run(Init(client, signer, request), events);
            s.signer.signatures != [] ==>
              && |s.signer.signatures| == 1 && s.signer.signatures[0].payload == request.payload
              && CrossCheck(request.payload) && s.signer.prompts == [PromptFor(request, true)]
              && |s.signer.choices| == 1 && s.signer.choices[0].approval == Ok(true)
              && client == signer
  {
    RunKeepsInv(client, signer, request, events);
    var a :| InvWith(Run(Init(client, signer, request), events), a);
  }

  /** Pairing notice, public key, one sealed body: nothing else and in this order. */
  ghost predicate SealedExchange(log: seq<Message>) {
    && |log| <= 3
    && (|log| >= 1 ==> log[0].Paired?) && (|log| >= 2 ==> log[1].Kex?) && (|log| == 3 ==> log[2].Enc?)
  }

  /** Message number two, if it was sent, is this body sealed under the sender's key. */
  ghost predicate CarriesOnly(log: seq<Message>, sender: Session, body: Body) {
    |log| == 3 ==> sender.key.Some? && log[2] == Enc(Sealed(sender.key.value, body), body.id)
  }

  /**
    The relay carries keys and sealed bodies only, and at most one body each way: to the phone the request,
    and to the desktop the phone's answer to it.
   */
  lemma NothingUnsealed(client: Pairing, signer: Pairing, request: Body, events: seq<Event>)
    requires request.SignRequest? && Genuine(events)
    ensures var s := Run(Init(client, signer, request), events);
            && SealedExchange(s.toClient) && SealedExchange(s.toSigner)
            && CarriesOnly(s.toSigner, s.client.session, request)
            && (|s.toClient| == 3 ==>
                  && |s.signer.choices| == 1 && Answer(request, s.signer.choices[0]).Some?
                  && CarriesOnly(s.toClient, s.signer.session, Answer(request, s.signer.choices[0]).value))
  {
    RunKeepsInv(client, signer, request, events);
    var a :| InvWith(Run(Init(client, signer, request), events), a);
  }

  lemma ApplyStaysSettled(s: System, e: Event)
    requires s.client.outcome.Some?
    ensures Apply(s, e).client.outcome == s.client.outcome
  {
    hide SignerHandle;
  }

  /** Once settled, the desktop stays settled in the same way. */
  lemma {:induction false} SettlesOnce(s: System, events: seq<Event>)
    requires s.client.outcome.Some?
    ensures Run(s, events).client.outcome == s.client.outcome
    decreases |events|
  {
    hide Apply;
    if events != [] {
      SettlesOnce(s, events[..|events| - 1]);
      ApplyStaysSettled(Run(s, events[..|events| - 1]), events[|events| - 1]);
    }
  }

  lemma InterruptionApplies(s: System, e: Event)
    requires s.client.outcome.None?
    ensures e.Interrupt? ==> Apply(s, e).client.outcome == Some(Failed(e.why))
    ensures e.NotifyClient? ==> Apply(s, e).client.outcome == Some(ResolvedError(e.code))
    ensures e.PeerGone? ==> Apply(s, e) == s
  {
  }

  /**
    Whatever interrupts a desktop that still waits decides what `sign` throws, whatever happens later; only that
    the peer has left does not count.
   */
  lemma InterruptionDecides(s: System, events: seq<Event>, n: nat, expected: string)
    requires n < |events| && Run(s, events[..n]).client.outcome.None?
    ensures var outcome := Run(s, events).client.outcome;
            && (events[n].Interrupt? ==>
                  outcome.Some? && SignResult(expected, outcome.value) == Err(RelayFailed(events[n].why)))
            && (events[n].NotifyClient? ==>
                  outcome.Some? && SignResult(expected, outcome.value) == Err(BunkerError(events[n].code)))
    ensures events[n].PeerGone? ==> Run(s, events[..n + 1]) == Run(s, events[..n])
  {
    hide Apply, Run;
    RunStep(s, events, n);
    InterruptionApplies(Run(s, events[..n]), events[n]);
    if events[n].Interrupt? || events[n].NotifyClient? {
      RunStaysSettled(s, events, n + 1, |events|);
      assert events[..|events|] == events;
    }
  }

  lemma RunStep(s: System, events: seq<Event>, n: nat)
    requires n < |events|
    ensures Run(s, events[..n + 1]) == Apply(Run(s, events[..n]), events[n])
  {
    hide Apply;
    assert events[..n + 1][..n] == events[..n];
  }

  lemma {:induction false} RunStaysSettled(s: System, events: seq<Event>, n: nat, k: nat)
    requires n <= k <= |events| && Run(s, events[..n]).client.outcome.Some?
    ensures Run(s, events[..k]).client.outcome == Run(s, events[..n]).client.outcome
    decreases k
  {
    hide Apply, Run;
    if n < k {
      RunStaysSettled(s, events, n, k - 1);
      RunStep(s, events, k - 1);
      ApplyStaysSettled(Run(s, events[..k - 1]), events[k - 1]);
    }
  }

  /**
    A signature that `sign` returns is one that the phone's key made over exactly the requested
    payload, after its user was shown that request and approved it.
   */
  lemma SuccessIsThePhonesSignature(client: Pairing, signer: Pairing, request: Body, events: seq<Event>,
                                    expected: string)
    requires request.SignRequest? && Genuine(events)
    requires var s := Run(Init(client, signer, request), events);
             s.client.outcome.Some? && SignResult(expected, s.client.outcome.value).Ok?
    ensures var s := Run(Init(client, signer, request), events);
            && s.signer.signatures == [Signature(request.payload, SignResult(expected, s.client.outcome.value).value)]
            && s.signer.prompts == [PromptFor(request, true)]
            && CrossCheck(request.payload)
            && client == signer
            && |s.signer.choices| == 1
            && var choice := s.signer.choices[0];
               && choice.approval == Ok(true) && choice.fingerprint.Ok?
               && choice.signature == Ok(SignResult(expected, s.client.outcome.value).value)
               && (expected == "" || choice.fingerprint.value == "" || Upper(choice.fingerprint.value) == expected)
  {
    RunKeepsInv(client, signer, request, events);
    var a :| InvWith(Run(Init(client, signer, request), events), a);
  }

  /**
    A run that nothing interrupts settles when the phone's answer is read and not before, with that answer;
    it is a signature exactly if the phone signed, found its fingerprint and could reply at the first attempt.
   */
  lemma UninterruptedOutcome(client: Pairing, signer: Pairing, request: Body, events: seq<Event>)
    requires request.SignRequest? && Genuine(events)
    requires !Run(Init(client, signer, request), events).interrupted
    ensures var s := Run(Init(client, signer, request), events);
            && (s.client.outcome.Some? <==> s.clientRead == 3)
            && (s.client.outcome.Some? ==>
                  && |s.signer.choices| == 1
                  && var choice := s.signer.choices[0];
                     && HandledWith(s.signer, request, choice)
                     && s.client.outcome.value.Resolved?
                     && Answer(request, choice) == Some(s.client.outcome.value.body)
                     && (s.client.outcome.value.body.SignResponse? <==>
                         s.signer.signatures != [] && choice.fingerprint.Ok? && choice.replyFault.None?))
  {
    RunKeepsInv(client, signer, request, events);
    var a :| InvWith(Run(Init(client, signer, request), events), a);
    hide CrossCheck, PromptFor;
    if a.Handled? {
      SignatureIsSentExactlyIf(request, a.choice);
    }
  }

  /**
    With one pairing the exchange gets stuck only if the phone could not answer: until the answer has been
    read, some message is waiting.
   */
  lemma SomethingIsWaiting(pairing: Pairing, request: Body, events: seq<Event>)
    requires request.SignRequest? && Genuine(events)
    ensures var s := Run(Init(pairing, pairing, request), events);
            || s.clientRead < |s.toClient| || s.signerRead < |s.toSigner|
            || s.clientRead == s.signerRead == 3
            || (s.clientRead == 2 && s.signerRead == 3
                && |s.signer.choices| == 1 && Answer(request, s.signer.choices[0]).None?)
  {
    RunKeepsInv(pairing, pairing, request, events);
    var a :| InvWith(Run(Init(pairing, pairing, request), events), a);
  }

  /** The exchange when nothing goes wrong: pairing, keys, request, answer. */
  function Handshake(k: PrivateKey, choice: Choice): seq<Event> {
    [ClientReads(k), SignerReads(choice), ClientReads(k), SignerReads(choice), SignerReads(choice), ClientReads(k)]
  }

  lemma RunSnoc(s: System, events: seq<Event>, e: Event)
    ensures Run(s, events + [e]) == Apply(Run(s, events), e)
  {
    assert (events + [e])[..|events|] == events;
  }

  lemma {:induction false} RunConcat(s: System, first: seq<Event>, rest: seq<Event>)
    ensures Run(s, first + rest) == Run(Run(s, first), rest)
    decreases |rest|
  {
    hide Apply;
    if rest == [] {
      assert first + rest == first;
    } else {
      var front, e := rest[..|rest| - 1], rest[|rest| - 1];
      RunConcat(s, first, front);
      assert first + rest == (first + front) + [e];
      RunSnoc(s, first + front, e);
    }
  }

  lemma RunOfThree(s: System, a: Event, b: Event, c: Event)
    ensures Run(s, [a, b, c]) == Apply(Apply(Apply(s, a), b), c)
  {
    hide Apply;
    RunSnoc(s, [], a);
    RunSnoc(s, [a], b);
    RunSnoc(s, [a, b], c);
    assert [] + [a] == [a] && [a] + [b] == [a, b] && [a, b] + [c] == [a, b, c];
  }

  lemma RunOfSix(s: System, a: Event, b: Event, c: Event, d: Event, e: Event, f: Event)
    ensures Run(s, [a, b, c, d, e, f]) == Apply(Apply(Apply(Apply(Apply(Apply(s, a), b), c), d), e), f)
  {
    hide Apply, Run;
    assert [a, b, c] + [d, e, f] == [a, b, c, d, e, f];
    RunConcat(s, [a, b, c], [d, e, f]);
    RunOfThree(s, a, b, c);
    RunOfThree(Run(s, [a, b, c]), d, e, f);
  }

  /** The undisturbed exchange delivers the phone's answer, whatever it is, and if there is none the desktop waits. */
  lemma HandshakeOutcome(pairing: Pairing, request: Body, k: PrivateKey, choice: Choice)
    requires request.SignRequest?
    ensures var s, answer := Run(Init(pairing, pairing, request), Handshake(k, choice)), Answer(request, choice);
            && s.client.outcome == (if answer.Some? then Some(Resolved(answer.value)) else None)
            && HandledWith(s.signer, request, choice)
  {
    hide CrossCheck, PromptFor, Answer, PromptsOf, SignaturesOf;
    var s0, events := Init(pairing, pairing, request), Handshake(k, choice);
    var s1 := Apply(s0, events[0]);
    var s2 := Apply(s1, events[1]);
    var s3 := Apply(s2, events[2]);
    var s4 := Apply(s3, events[3]);
    var s5 := Apply(s4, events[4]);
    RunOfSix(s0, events[0], events[1], events[2], events[3], events[4], events[5]);
    KeysAgree(k, choice.newKey, pairing.secret, pairing.frag, pairing.secret, pairing.frag);
    assert s2.toClient[1] == Kex(PublicOf(choice.newKey)) && s2.toSigner[1] == Kex(PublicOf(k));
    assert s4.client.session.key == s4.signer.session.key && s4.client.session.key.Some?;
    assert s4.toSigner[2] == Enc(Sealed(s4.client.session.key.value, request), request.id);
    assert Answer(request, choice).Some? ==>
           s5.toClient[2] == Enc(Sealed(s4.client.session.key.value, Answer(request, choice).value), request.id);
  }

  /** A request that the phone signs does succeed, with that signature, if nothing fails after signing. */
  lemma ApprovedRequestSucceeds(pairing: Pairing, request: Body, k: PrivateKey, choice: Choice, expected: string)
    requires request.SignRequest? && Signs(request, choice) && choice.signature.value != ""
    requires choice.fingerprint.Ok? && choice.replyFault.None?
    requires expected == "" || Upper(choice.fingerprint.value) == expected
    ensures var s := Run(Init(pairing, pairing, request), Handshake(k, choice));
            s.client.outcome.Some? && SignResult(expected, s.client.outcome.value) == Ok(choice.signature.value)
  {
    hide Run, CrossCheck, HandledWith;
    HandshakeOutcome(pairing, request, k, choice);
  }

  /** If something does fail after signing, the key has signed and the desktop gets a reject, or nothing. */
  lemma SignedYetNotDelivered(pairing: Pairing, request: Body, k: PrivateKey, choice: Choice)
    requires request.SignRequest? && Signs(request, choice)
    requires choice.fingerprint.Err? || choice.replyFault.Some?
    ensures var s := Run(Init(pairing, pairing, request), Handshake(k, choice));
            && s.signer.signatures == [Signature(request.payload, choice.signature.value)]
            && (s.client.outcome.Some? ==> s.client.outcome.value.Resolved? && s.client.outcome.value.body.Reject?)
  {
    hide Run, CrossCheck;
    HandshakeOutcome(pairing, request, k, choice);
  }

  /** A phone that reports another key than the expected one is not believed. */
  lemma WrongKeyIsRefused(pairing: Pairing, request: Body, k: PrivateKey, choice: Choice, expected: string)
    requires request.SignRequest? && Signs(request, choice) && choice.signature.value != ""
    requires choice.fingerprint.Ok? && choice.replyFault.None?
    requires expected != "" && choice.fingerprint.value != "" && Upper(choice.fingerprint.value) != expected
    ensures var s := Run(Init(pairing, pairing, request), Handshake(k, choice));
            s.client.outcome.Some? && SignResult(expected, s.client.outcome.value) == Err(WrongFingerprint)
  {
    hide Run, CrossCheck, HandledWith;
    HandshakeOutcome(pairing, request, k, choice);
  }

  /** A request that is not canonical, or that the user declines, is rejected for that, and nothing is signed. */
  lemma RefusalIsReported(pairing: Pairing, request: Body, k: PrivateKey, choice: Choice, expected: string)
    requires request.SignRequest? && choice.replyFault.None?
    requires !CrossCheck(request.payload) || choice.approval == Ok(false)
    ensures var s := Run(Init(pairing, pairing, request), Handshake(k, choice));
            && s.signer.signatures == [] && s.client.outcome.Some?
            && SignResult(expected, s.client.outcome.value) ==
               Err(Rejected(if !CrossCheck(request.payload) then "non_canonical_payload" else "user_declined"))
  {
    hide Run, CrossCheck;
    HandshakeOutcome(pairing, request, k, choice);
  }
}
