/**
  The end-to-end channel between the desktop and the phone, with symbolic cryptography:
  key agreement depends on the unordered pair of key pairs (section 6.1 of RFC 7748), key
  derivation is a function of its inputs (section 2 of RFC 5869), and a sealed message
  opens only under the key that sealed it.
 */
module BunkerChannel {
  import opened Wrappers

  datatype PrivateKey = PrivateKey(id: nat)

  datatype PublicKey = PublicOf(key: PrivateKey)

  datatype SharedSecret = SharedSecret(parties: set<PrivateKey>)

  function Agree(own: PrivateKey, peer: PublicKey): SharedSecret {
    SharedSecret({own, peer.key})
  }

  datatype SessionKey = SessionKey(shared: SharedSecret, salt: string, info: string)

  const SCHEME := "capauth-bunker-e2e-v1"

  /** A fragment that only the QR code carries is bound into the derived key. */
  function InfoBytes(frag: string): string {
    if frag != "" then SCHEME + "\nfrag=" + frag else SCHEME
  }

  function DeriveSharedKey(own: PrivateKey, peer: PublicKey, pairingSecret: string, frag: string): SessionKey {
    SessionKey(Agree(own, peer), pairingSecret, InfoBytes(frag))
  }

  lemma InfoBytesInjective(frag: string, frag': string)
    ensures InfoBytes(frag) == InfoBytes(frag') ==> frag == frag'
  {
    var k := |SCHEME + "\nfrag="|;
    assert frag != "" ==> |InfoBytes(frag)| > |SCHEME| && InfoBytes(frag)[k..] == frag;
    assert frag' != "" ==> |InfoBytes(frag')| > |SCHEME| && InfoBytes(frag')[k..] == frag';
  }

  /** What is derived for: the scheme, and the fragment if there is one. */
  lemma InfoBytesInFull(frag: string)
    ensures InfoBytes("") == "capauth-bunker-e2e-v1"
    ensures frag != "" ==> InfoBytes(frag) == "capauth-bunker-e2e-v1\nfrag=" + frag
  {
    assert SCHEME + "\nfrag=" == "capauth-bunker-e2e-v1\nfrag=";
  }

  /** Both sides derive the same key exactly when they were paired with the same secret and fragment. */
  lemma KeysAgree(a: PrivateKey, b: PrivateKey, secret: string, frag: string, secret': string, frag': string)
    ensures DeriveSharedKey(a, PublicOf(b), secret, frag) == DeriveSharedKey(b, PublicOf(a), secret', frag')
            <==> secret == secret' && frag == frag'
  {
    InfoBytesInjective(frag, frag');
    assert {a, b} == {b, a};
  }

  /** A key is derived a second time exactly from the same two parties, secret and fragment: no third party has it. */
  lemma KeysAgreeExactlyIf(a: PrivateKey, b: PrivateKey, secret: string, frag: string,
                           a': PrivateKey, b': PrivateKey, secret': string, frag': string)
    ensures DeriveSharedKey(a, PublicOf(b), secret, frag) == DeriveSharedKey(a', PublicOf(b'), secret', frag')
            <==> ((a == a' && b == b') || (a == b' && b == a')) && secret == secret' && frag == frag'
  {
    InfoBytesInjective(frag, frag');
    assert a in {a, b} && b in {a, b} && a' in {a', b'} && b' in {a', b'};
  }

  // ---------------------------------------------------------------------------
  // Messages
  // ---------------------------------------------------------------------------

  datatype Body =
    | SignRequest(id: string, payload: string, origin: string, fingerprint: string)
    | SignResponse(id: string, signature: string, fingerprint: string)
    | Reject(id: string, reason: string)

  datatype Sealed = Sealed(key: SessionKey, body: Body)

  function OpenWith(key: SessionKey, ct: Sealed): Option<Body> {
    if ct.key == key then Some(ct.body) else None
  }

  /** What travels on a socket: the broker's own notices, and what it relays. */
  datatype Message =
    | Paired
    | Kex(pub: PublicKey)
    | Enc(ct: Sealed, id: string)
    | Plain(body: Body)
    | PeerLeft
    | BrokerError(code: string)

  datatype ChannelError = StartFirst | NotSecured | DecryptFailed

  // ---------------------------------------------------------------------------
  // One side's session
  // ---------------------------------------------------------------------------

  datatype Session = Session(
    pairingSecret: string, frag: string, keyPair: Option<PrivateKey>, key: Option<SessionKey>)
  {
    function Start(newKey: PrivateKey): (Session, Message) {
      (this.(keyPair := Some(newKey)), Kex(PublicOf(newKey)))
    }

    function OnKex(pub: PublicKey): Result<Session, ChannelError> {
      if keyPair.None? then Err(StartFirst)
      else Ok(this.(key := Some(DeriveSharedKey(keyPair.value, pub, pairingSecret, frag))))
    }

    function Seal(body: Body): Result<Message, ChannelError> {
      if key.None? then Err(NotSecured) else Ok(Enc(Sealed(key.value, body), body.id))
    }

    function Open(ct: Sealed): Result<Body, ChannelError> {
      if key.None? then Err(NotSecured)
      else match OpenWith(key.value, ct)
        case None => Err(DecryptFailed)
        case Some(body) => Ok(body)
    }
  }

  class E2ESession {
    const pairingSecret: string
    const frag: string
    var keyPair: Option<PrivateKey>
    var key: Option<SessionKey>

    ghost function State(): Session
      reads this
    {
      Session(pairingSecret, frag, keyPair, key)
    }

    constructor (pairingSecret: string, frag: string)
      ensures State() == Session(pairingSecret, frag, None, None)
    {
      this.pairingSecret, this.frag := pairingSecret, frag;
      keyPair, key := None, None;
    }

    method Start(newKey: PrivateKey) returns (kex: Message)
      modifies this
      ensures (State(), kex) == old(State()).Start(newKey)
    {
      keyPair := Some(newKey);
      return Kex(PublicOf(newKey));
    }

    method OnKex(pub: PublicKey) returns (error: Option<ChannelError>)
      modifies this
      ensures match old(State()).OnKex(pub)
              case Ok(next) => State() == next && error.None?
              case Err(e) => State() == old(State()) && error == Some(e)
    {
      if keyPair.None? {
        return Some(StartFirst);
      }
      key := Some(DeriveSharedKey(keyPair.value, pub, pairingSecret, frag));
      return None;
    }

    method Seal(body: Body) returns (r: Result<Message, ChannelError>)
      ensures r == State().Seal(body)
    {
      if key.None? {
        return Err(NotSecured);
      }
      return Ok(Enc(Sealed(key.value, body), body.id));
    }

    method Open(ct: Sealed) returns (r: Result<Body, ChannelError>)
      ensures r == State().Open(ct)
    {
      if key.None? {
        return Err(NotSecured);
      }
      var body := OpenWith(key.value, ct);
      if body.None? {
        return Err(DecryptFailed);
      }
      return Ok(body.value);
    }
  }

  /** Opening under the peer's key recovers exactly what was sealed; under any other it fails. */
  lemma OpenOfSeal(sender: Session, receiver: Session, body: Body)
    requires sender.key.Some? && receiver.key.Some?
    ensures sender.Seal(body).Ok? && sender.Seal(body).value.Enc?
    ensures receiver.Open(sender.Seal(body).value.ct) ==
            if sender.key == receiver.key then Ok(body) else Err(DecryptFailed)
  {
  }
}
