# CapAuth: a verified model

CapAuth issues, checks and revokes authority between agents, devices and people. This project models its
decision-making core in Dafny and proves what that core is for. `dafny verify dfyconfig.toml` checks everything.

## What is modelled

**Delegated capabilities** (`Credentials`, `Issuance`, `Backends`, `Authorizer`, `AuthorizerSafety`, `AuthorizerRuns`,
`AuthorizerEffects`, `BudgetAttained`, `AuditTrail`, `Admission`, `SequentialAuthorizer`). `Authorizer` is a
transition system: every `authorize` or `delegate` call advances by one backend access at a time, and between any two
of its steps other calls may advance, principals may be set or removed, credentials revoked or minted, the issuer
policy may change, the clock may move, and any backend access may fail, before or after it has acted. A run is any
finite sequence of such events, so a statement about `Run(s, events)` is a statement about all interleavings.
`SequentialAuthorizer` has the same logic in the form of the program, one method over backend objects whose accesses
may fail and whose clock moves between accesses, and proves that what it does is a run of the transition system in
which no other call takes part.

**Reed-Solomon** (`GaloisField`, `ReedSolomon`, `Codewords`). Arithmetic modulo 0x11D with its field laws, the log and
antilog tables, the generator polynomial, and the in-place systematic division, against ISO/IEC 18004:2015, section
7.5.2 and annex A; and what the code is for, the distance between codewords.

**The bunker relay** (`BunkerChannel`, `BunkerPeers`, `BunkerSafety`). The message handlers of desktop and phone as
classes over an end-to-end session, and both of them with two ordered channels as one transition system.

**The key transparency log** (`KeyTransparency`), **printers and parsers** (`CanonicalNonce`, `KeyFrames`, `Base58`,
over `Text` and `Radix`), and **the policy decision point** (`IdentityClasses`, `PolicyDecision`).

## Assumptions

- Time is an integer count of microseconds read from one clock, which issuer, authorizer and replay store share and
  which never runs backwards.
- A credential digest, and a revision, commit to what they are computed from: they are free constructors. A digest
  ignores letter case and surrounding space of the issuer and surrounding space of the signature; credentials are
  taken in that normal form.
- Only minted credentials verify, and a signer's output is part of the credential. The nonce of a new credential is
  an input of the event that mints it; a credential minted twice with every field equal is one credential.
- The revision of an issuer policy that changes commits to a change count, as the revisions of the in-memory
  principal and revocation backends do. `StaticTrustedIssuerBackend` is the case without changes.
- The hash of the key transparency log is a parameter, injective where tamper evidence needs it. The payload of an
  entry stands for its JSON text.
- Cryptography of the relay is symbolic: agreement depends on the unordered pair of key pairs (section 6.1 of RFC
  7748), derivation is a function (section 2 of RFC 5869), and a sealed body opens only under its key.
- The broker puts one `paired` into each direction before anything else and relays in order. This is assumed, not
  enforced: `src/capauth/service/bunker.py:453-455` sends the two notices one after the other and outside the lock, so
  the `kex` of the first peer could overtake the notice to the second. The broker's own notices, the timer and the
  socket may interrupt at any moment. Each message handler runs to its end before the next begins.
- Strings are sequences of characters. `Upper` maps ASCII letters only; the naming rules for subjects are two functions
  of which nothing is assumed. A parsed decimal is rounded by a function of which it is assumed only that it is exact
  below 2^53.

## What the proofs brought out

- `decide` is a conjunction of independent gates, but it is not monotonic under a live legacy grace deadline:
  deleting a token with a forged signature that stands beside an unsigned one turns a denial into an allow
  (`PolicyDecision.DeletingAForgedTokenAllows`, with the exact condition in `WithdrawingAllowsExactlyIf`).
- Assigning an identity class never allows anything new to a subject that had none; moving a subject from one class
  to another can (`PromotingANodeAllows`, with the exact condition in `ReclassifyingAllowsExactlyIf`).
- A subject has up to two lookup keys, visited in the order of a Python set. If the two are assigned to different
  classes, the ceiling depends on that order (`IdentityClasses.OrderMatters`, exactly when in `OrderIsImmaterial`), and
  so may the decision (`PolicyDecision.LookupOrderDecides`, exactly when in `LookupOrderDecidesExactlyIf`).
- The last record of a finished call does not always tell its outcome. A sink that keeps an allow and then raises, or
  that refuses the denial which should withdraw an allow, leaves a trail that says allow and a caller who was denied
  (`AuditTrail.KeptAllowOfADenial`, `AuditTrail.RefusedWithdrawal`); these two are all there is
  (`AuditTrail.LastRecordTellsExactlyIf`).
- The origin that the phone shows is the one that the request names, which need not be the one in the payload
  (`BunkerPeers.ShownOriginIsNamed`). The version and fields shown beside it fix the signed bytes for the checked
  version only; for any other, a newline at the end does not show (`BunkerPeers.ShownFixesTheBytes`).
- A reject does not mean that the key has not signed: if the fingerprint cannot be found or the first reply fails, the
  phone rejects after signing (`BunkerSafety.SignedYetNotDelivered`, exactly when in `SignatureIsSentExactlyIf`).
- `KeyFrameCollector.add` takes frames from beyond the end of a transfer, which `parseKeyFrame` would refuse. They count,
  so that a complete transfer may miss a chunk, which then prints as the word undefined
  (`KeyFrames.MissingChunkIsNotNoticed`, exactly when in `CompleteMissesNoneExactlyIf`).
- `_rsGeneratorPoly` reads past its table from degree 513 on. The undefined entries act as zero, and the encoding still
  vanishes at every power of alpha.
- The comment in `phone-signer/lib/canonical.js:9-14` calls the re-derivation check a later step, and the one in
  `browser-extension/lib/signer-backends.js:300-302` says that the phone re-derives nothing; the signer does
  perform the check. The model follows the code.

## Model

| member | source | states |
|---|---|---|
| AuthorizerSafety.AllowIsTrueAtItsAuditRecord | src/capauth/delegated.py:992-1075 | In any interleaving, with the issuer policy changing too, every returned allow was true at one instant, the one at which its audit record was written: the chain was accepted under the issuer policy and the clock of that instant, every named principal bound and active, nothing in the chain revoked, every link signed, and the recorded revisions the ones in force |
| AuthorizerSafety.RevocationIsPermanentAndCascades | src/capauth/delegated.py:707-716 | Once a digest is revoked, no call that begins later is ever allowed on that credential or on any descendant of it, for the rest of the run |
| AuthorizerSafety.RunKeepsInv | src/capauth/delegated.py:778-1075 | What a call has established by each of its steps (chain linked and trusted, principals seen current, revocations seen clear, evidence no newer than the state) holds in every reachable state |
| AuthorizerSafety.UnchangedEvidenceIsLive | src/capauth/delegated.py:1057-1074 | Equal counter-bearing revisions of issuers, principals and revocations before and after mean that nothing changed in between, not even there and back |
| AuthorizerRuns.RootBudget | src/capauth/delegated.py:1398-1439 | A root issued with maximum depth d is worth at most d + 1 allowed authorizations in any run, its descendants included |
| BudgetAttained.RootBudgetIsAttained | src/capauth/delegated.py:1398-1439 | The budget is not an overestimate: from any start in which a root can be minted that nothing stands against, d delegations and one use give d + 1 allowed authorizations under it |
| AuthorizerRuns.LeafAllowedOnce | src/capauth/delegated.py:938-990 | No two calls of any run are both allowed on one leaf, although the replay store forgets expired reservations: whoever reserves a second time fails the time check that follows |
| AuthorizerRuns.RunKeepsReplayInv | src/capauth/delegated.py:727-737 | In every reachable state a call past its reservation is remembered until its leaf expires, and two calls past the second time check never share a leaf |
| AuthorizerRuns.OneChildPerParent | src/capauth/delegated.py:1419-1439 | Two credentials minted under one parent are the same credential |
| AuthorizerRuns.OneLineagePerRoot | src/capauth/delegated.py:1398-1439 | Allowed chains that grow from one root agree at every depth that both reach |
| AuthorizerRuns.MintedCredentialsVerify | src/capauth/delegated.py:477-558 | Everything minted in any run has a complete lineage, and given covering grants the verifier accepts that lineage exactly while the credential is inside its own window |
| AuthorizerEffects.AllowIsRight | src/capauth/delegated.py:778-1075 | For every allow of any run there is an event, the one that wrote its audit record, at which everything was in order, spelled out in the fields of credentials and backends: version, length, windows, grants, lineage, attenuation, signatures, revocations, bindings, and the leaf as requested |
| AuthorizerEffects.JustifiedIsRight | src/capauth/delegated.py:778-936 | What the authorizer establishes is exactly this condition in fields |
| AuthorizerEffects.ExpiredIsNeverAllowed | src/capauth/delegated.py:1269-1272 | Once the ticks of a run add up to the expiry of a credential, no call that begins later is allowed on it or below it |
| AuthorizerEffects.RevokedIsNeverAllowed | src/capauth/delegated.py:707-716 | After an event that revokes a digest, no call that begins later is ever allowed on that credential or on any descendant of it |
| AuthorizerEffects.UnboundIsNeverAllowed | src/capauth/delegated.py:673-681 | After an event that sets a principal or removes it, no call that begins later and names the id is allowed before the next such event, unless the principal was set active, and just as it is named |
| AuthorizerEffects.AllowedNamesTheBound | src/capauth/delegated.py:1190-1215 | An allowed call names only principals that are bound, and active, as the last change under their ids left them |
| AuthorizerEffects.NewPolicyDecides | src/capauth/delegated.py:1227-1245 | After a change of issuer policy, every link of every call that begins later and is allowed is granted by the new policy, until it changes again |
| AuthorizerEffects.AllowedChildWasDelegated | src/capauth/delegated.py:1398-1439 | A call that is allowed on a child has the principal and scope that some delegation asked for, and that delegation was made by the parent's own principal on exactly the rest of the chain |
| AuthorizerEffects.AllowedRootWasIssued | src/capauth/delegated.py:477-492 | Every allowed chain grows from a root that an event issued, and the root is what that event asked for |
| AuditTrail.FinishedTrail | src/capauth/delegated.py:1003-1075 | The audit records of a finished call, with a sink that may fail at any write, having kept the record or not: a returned allow is the only record; a denial is its own last record, after the allow it withdraws if it came later; only a denial for lack of a sink may lack its record or stand against another |
| AuditTrail.TrailShape | src/capauth/delegated.py:1333-1370 | At every moment a call has left no record, one allow, one denial, or an allow followed by a denial numbered 2 |
| AuditTrail.LastRecordDecides | src/capauth/delegated.py:1333-1370 | A finished call that was not denied for lack of a sink has a record, and its last record is an allow exactly if it was allowed |
| AuditTrail.LastRecordTellsExactlyIf | src/capauth/delegated.py:1003-1028 | For a finished call of any run, the last record is an allow just when the call was allowed, exactly if the sink never kept its allow and then raised, and never refused the denial that withdraws it |
| AuditTrail.KeptAllowOfADenial | src/capauth/delegated.py:1003-1026 | The first failure is real: had the sink kept the allow of any allowed call and then raised, the trail would say allow and the caller would have been denied |
| AuditTrail.RefusedWithdrawal | src/capauth/delegated.py:1333-1370 | So is the second: had a backend failed after the audit write of any allowed call and the sink refused the denial, the trail would say allow |
| AuditTrail.ReliableSinkTellsAllows | src/capauth/delegated.py:1003-1028 | With a sink that never fails, in any run, a finished call has a record and was allowed exactly when its last record is an allow |
| AuditTrail.RunKeepsTrails | src/capauth/delegated.py:1003-1075 | In every reachable state the trail of every call is the one that its progress calls for, and calls not begun have none |
| Authorizer.ParsesInFields | src/capauth/delegated.py:133-156 | What parsing guarantees of every link, in fields |
| Authorizer.RevocationReasonIs | src/capauth/delegated.py:856-873 | A revoked leaf is told from a revoked ancestor, and the leaf comes first |
| Authorizer.RequestReasonIs | src/capauth/delegated.py:919-936 | The wrong principal is told from the wrong scope, and comes first |
| Authorizer.SignatureReasonIsFirst | src/capauth/delegated.py:875-902 | The signature objection is that of the first link that is unsigned or does not verify |
| Authorizer.DelegationBegins | src/capauth/delegated.py:1408-1428 | A delegation is taken up exactly if the parent is well formed and the child no broader; it then asks for the parent's whole scope as the authenticated principal |
| Admission.UndisturbedCallIsDecidedCorrectly | src/capauth/delegated.py:778-1075 | A call that nothing disturbs is allowed if and only if the state justifies its chain, policy version included, and the leaf is not already reserved; a denial gives the first objection, in the order policy, principals, chain, revocations, signatures, leaf, replay |
| Admission.NothingAgainstTheAdmissible | src/capauth/delegated.py:790-990 | There is no objection exactly to what is admissible |
| Admission.CompleteIsRun | src/capauth/delegated.py:778-1075 | A call that completes with no other call running, under any failures and any movement of the clock, is a run of the transition system made of ticks and of its own steps |
| Admission.AdmissibleCanBeAllowed | src/capauth/delegated.py:778-1075 | In any state of any run an admissible request can still be allowed |
| SequentialAuthorizer.CapabilityAuthorizer.Authorize | src/capauth/delegated.py:778-1075 | The whole of `authorize` over its backend objects, with a clock that moves between accesses and accesses that may fail: it leaves the backends and returns the decision that the transition system gives when no other call runs meanwhile; what is missing or malformed is denied as such; an allow is for the principal and scope of the leaf; and if nothing at all happens meanwhile it allows exactly the admissible requests and otherwise gives the first objection |
| SequentialAuthorizer.EndsIsARun | src/capauth/delegated.py:778-1075 | What `Authorize` does is a run of the transition system in which one call begins and takes all its steps |
| SequentialAuthorizer.CapabilityAuthorizer.FirstChecks | src/capauth/delegated.py:790-936 | Everything before the reservation, in the order of the source: without an objection the state justifies the chain when it ends |
| SequentialAuthorizer.CapabilityAuthorizer.ReserveLeaf | src/capauth/delegated.py:938-990 | The reservation and the time check after it: without an objection the leaf is held now and was not held before, whether the store fails before or after it acts |
| SequentialAuthorizer.CapabilityAuthorizer.Conclude | src/capauth/delegated.py:992-1075 | Refresh, audit write, second refresh, last time check and comparison of revisions; denials after the write carry attempt 2 |
| SequentialAuthorizer.CapabilityAuthorizer.RefreshCurrentState | src/capauth/delegated.py:1077-1188 | Issuers, chain, principals and revocations once more; without an objection all are in order and the evidence is that of this reading |
| SequentialAuthorizer.CapabilityAuthorizer.RecordAllowDecision | src/capauth/delegated.py:1003-1028 | The audit write: if it fails, kept or not, the caller sees a denial for lack of a sink |
| SequentialAuthorizer.CapabilityAuthorizer.FinalCheck | src/capauth/delegated.py:1038-1075 | The last time check, and the comparison of what was read before and after the write |
| SequentialAuthorizer.CapabilityAuthorizer.DenyAndRecord | src/capauth/delegated.py:1333-1370 | A denial is written before it is raised, with the given reason and attempt; if the sink fails, the one raised is for lack of a sink |
| SequentialAuthorizer.CapabilityAuthorizer.ValidatePrincipals | src/capauth/delegated.py:1190-1215 | Reading id by id: no objection only if every asserted principal is current, and if all are current only a failing backend objects |
| SequentialAuthorizer.CapabilityAuthorizer.ConsultPrincipal | src/capauth/delegated.py:1199-1214 | One binding: unbound, rebound and inactive told apart, and a failure from all of them |
| SequentialAuthorizer.CapabilityAuthorizer.CheckRevocations | src/capauth/delegated.py:838-873 | A revoked leaf is told from a revoked ancestor, and the revision is the one in force |
| SequentialAuthorizer.VerifySignaturesOf | src/capauth/delegated.py:875-902 | The first link, root first, that is unsigned or does not verify |
| SequentialAuthorizer.DelegatingCapabilityIssuer.Delegate | src/capauth/delegated.py:1398-1439 | The whole of `delegate`: its errors in source order, a parent consumed by `authorize`, and a child with exactly the principal and scope asked for, the issuer and instant of its seal, and the earlier of its own expiry and the parent's |
| SequentialAuthorizer.DelegatesIsARun | src/capauth/delegated.py:1398-1439 | What `Delegate` does is a run of the transition system in which one call begins and takes all its steps, and which ends with the child recorded as minted, or with the failure |
| Credentials.ValidateChain | src/capauth/delegated.py:1217-1258 | The verifier loop returns the reason of the first link that fails |
| Credentials.ValidateChainTime | src/capauth/delegated.py:1260-1279 | The time loop returns the reason of the first link that fails, and tells leaf from ancestor |
| Credentials.AcceptedChain | src/capauth/delegated.py:1217-1279 | The loops accept exactly the chains of admissible length that are linked, trusted and timely |
| Credentials.WholeChainAttenuation | src/capauth/delegated.py:1373-1388 | In an accepted chain any link is narrower than all before it, field by field: the same audience, target, capability, operation and resource type, the same resource once one is named, and all earlier constraints; depths rise and windows nest |
| Credentials.AcceptedInFields | src/capauth/delegated.py:1217-1279 | Exactly which chains are accepted, link by link and field by field |
| Credentials.LinkTimeReasonIs | src/capauth/delegated.py:1263-1279 | Which of the five objections to a link's window is given, each with its exact condition |
| Credentials.LinkReasonIs | src/capauth/delegated.py:1227-1257 | Which of the four objections to a link's authority and lineage is given, each with its exact condition |
| Credentials.ChainReasonIsTheFirst | src/capauth/delegated.py:1217-1279 | The reason of a refused chain is its length, or else the first bad window from the root on, or else the first bad link |
| Credentials.LeafDeterminesChain | src/capauth/delegated.py:329-341 | Two accepted chains with the same leaf are the same chain |
| Credentials.LinkedIsLineage | src/capauth/delegated.py:1247-1255 | A linked chain is the lineage that its leaf commits to |
| Credentials.ChainShowsAncestry | src/capauth/delegated.py:1247-1255 | A credential descends from a digest exactly if the digest occurs in its chain |
| Issuance.IssuerVerifierAgree | src/capauth/delegated.py:514-558 | Given covering grants, the verifier accepts an issued chain exactly from its leaf's issue time until the leaf expires |
| Issuance.BuiltChainsVerify | src/capauth/delegated.py:477-558 | Every chain that one `issue_root` and any number of `delegate` calls can build is accepted exactly during its leaf's window |
| Issuance.BuiltIsWellIssued | src/capauth/delegated.py:494-558 | Repeated delegation with a forward-running clock keeps windows nested and links linked |
| Issuance.IssuedRoot | src/capauth/delegated.py:477-492 | Exactly when a root is issued, which in every field, and which error there is otherwise |
| Issuance.IssuedChild | src/capauth/delegated.py:494-558 | Exactly when a child is issued, which in every field, and which error there is otherwise |
| Issuance.MayDelegateInFields | src/capauth/delegated.py:1413-1417 | A delegation is refused as broadening exactly if one of the scope's fields is not kept, or the depth is used up |
| Backends.InMemoryPrincipalPolicyBackend.Set | src/capauth/delegated.py:673-676 | Sets one binding and counts the change |
| Backends.InMemoryPrincipalPolicyBackend.Remove | src/capauth/delegated.py:678-681 | Removes one binding and counts the change, present or not |
| Backends.InMemoryPrincipalPolicyBackend.Snapshot | src/capauth/delegated.py:683-696 | The binding under an id with the count, or nothing |
| Backends.InMemoryRevocationBackend.Revoke | src/capauth/delegated.py:707-710 | Adds to the revoked set for good and counts the change |
| Backends.InMemoryRevocationBackend.Snapshot | src/capauth/delegated.py:712-716 | Which of the given digests are revoked, with the revision in force |
| Backends.InMemoryReplayBackend.Reserve | src/capauth/delegated.py:727-737 | Reserves exactly if no unexpired reservation is held; expired ones are forgotten |
| Backends.GatherAsserted | src/capauth/delegated.py:1193-1197 | Collects, for each id in order of first mention, exactly the principals asserted under it |
| Backends.DistinctIdsInOrder | src/capauth/delegated.py:1193-1199 | The ids are consulted in the order in which chain and request first mention them |
| Backends.AssertedAreNamed | src/capauth/delegated.py:1194 | Asserted are the principals of the links and the requester, and nobody else |
| Backends.BindingReason | src/capauth/delegated.py:1211-1214 | A rebound principal is told from an inactive one, and comes first |
| Backends.LastIsBound | src/capauth/delegated.py:668-671 | At the start the last principal given under an id is bound, and active |
| Backends.CurrentIsNoObjection | src/capauth/delegated.py:1190-1215 | No id draws an objection exactly if every asserted principal is the one bound under its id, and active |
| GaloisField.MulIsProductModulo | browser-extension/stages/QRDisplayStage.js:29-44 | The byte product and the carry-less product differ by a multiple of the polynomial 0x11D (ISO/IEC 18004:2015, section 7.5.2) |
| GaloisField.MulAdd | browser-extension/stages/QRDisplayStage.js:41-44 | Multiplication distributes over XOR |
| GaloisField.MulCommutative | browser-extension/stages/QRDisplayStage.js:41-44 | Multiplication is commutative |
| GaloisField.MulAssociative | browser-extension/stages/QRDisplayStage.js:41-44 | Multiplication is associative |
| GaloisField.NoZeroDivisors | browser-extension/stages/QRDisplayStage.js:41-44 | A product is zero exactly if a factor is |
| GaloisField.PowInjective | browser-extension/stages/QRDisplayStage.js:31-35 | The 255 powers of the generator are different |
| GaloisField.LogExists | browser-extension/stages/QRDisplayStage.js:31-35 | Every nonzero byte is one of the 255 powers |
| GaloisField.PowPeriodic | browser-extension/stages/QRDisplayStage.js:36-38 | The powers repeat after 255, which justifies the doubled table |
| ReedSolomon.GaloisTables.constructor | browser-extension/stages/QRDisplayStage.js:29-39 | The loops fill the exponent table with the powers and the log table with their inverse |
| ReedSolomon.GaloisTables.GfMul | browser-extension/stages/QRDisplayStage.js:41-44 | The product read off the tables is the product of the polynomials |
| ReedSolomon.GaloisTables.TimesFactor | browser-extension/stages/QRDisplayStage.js:49-56 | The accumulating inner loops multiply by a linear factor |
| ReedSolomon.GaloisTables.GeneratorPoly | browser-extension/stages/QRDisplayStage.js:46-59 | The generator of any degree is monic and takes everywhere the value of the product of its factors; past the end of the table a factor has no power |
| ReedSolomon.GaloisTables.DivideOut | browser-extension/stages/QRDisplayStage.js:66-70 | One elimination step clears the leading symbol and keeps the values at all roots |
| ReedSolomon.GaloisTables.RsEncode | browser-extension/stages/QRDisplayStage.js:61-73 | For all data and any number of check symbols, data followed by the returned symbols evaluates to zero at alpha^0 through alpha^(nsym-1) |
| ReedSolomon.TailIsUnique | browser-extension/stages/QRDisplayStage.js:61-73 | For up to 255 check symbols no other tail completes the data to a codeword (ISO/IEC 18004:2015, annex A) |
| ReedSolomon.EncodingIsLinear | browser-extension/stages/QRDisplayStage.js:61-73 | The check symbols of a sum are the sum of the check symbols |
| ReedSolomon.AsManyRootsAsCoefficients | browser-extension/stages/QRDisplayStage.js:46-59 | A polynomial with as many distinct roots as coefficients is zero |
| ReedSolomon.RootsOfProduct | browser-extension/stages/QRDisplayStage.js:46-59 | The product of the factors vanishes at exactly their roots |
| Codewords.CodewordsAreMultiples | browser-extension/stages/QRDisplayStage.js:61-73 | A word of any length is a codeword exactly if it is a polynomial multiple of the generator, that is, leaves no remainder |
| Codewords.DivideByMonic | browser-extension/stages/QRDisplayStage.js:64-71 | Division by the generator with quotient and remainder exists for every word |
| Codewords.CodewordsAreHeavy | browser-extension/stages/QRDisplayStage.js:61-73 | A codeword of at most 255 symbols that is not zero has more nonzero symbols than there are check symbols |
| Codewords.CodewordsAreFarApart | browser-extension/stages/QRDisplayStage.js:61-73 | Two codewords of at most 255 symbols differ in more places than there are check symbols |
| Codewords.ErrorsCanBeCorrected | browser-extension/stages/QRDisplayStage.js:61-73 | A word that differs from a codeword in at most half as many places as there are check symbols is that close to no other (ISO/IEC 18004:2015, section 7.5.2) |
| Codewords.FewTermsCannotCancel | browser-extension/stages/QRDisplayStage.js:61-73 | As many vanishing power sums as terms at distinct places leave no coefficient but zero |
| BunkerSafety.SharedKey | browser-extension/lib/signer-backends.js:460-489 | In every reachable state in which both sides hold a key, the keys are equal exactly if both were paired with the same secret and fragment |
| BunkerSafety.NoChannelErrors | browser-extension/lib/signer-backends.js:460-502 | No message reaches a side that is not ready for it: the desktop never fails in the channel, and the phone reports only a request sealed under another pairing or one that it could not answer |
| BunkerSafety.NothingUnsealed | phone-signer/lib/bunker-signer.js:63-109 | Each direction carries at most the pairing notice, one public key and one sealed body, in this order: to the phone exactly the request, to the desktop exactly the answer; neither payload nor signature travels in the clear |
| BunkerSafety.SignsOnlyWhatWasApproved | phone-signer/lib/bunker-signer.js:111-149 | Whatever becomes of the answer, the key signs at most once, and only the payload of the request after the cross-check and the approval |
| BunkerSafety.SettlesOnce | browser-extension/lib/signer-backends.js:439-449 | Once settled, the desktop stays settled in the same way |
| BunkerSafety.SuccessIsThePhonesSignature | browser-extension/lib/signer-backends.js:374-391 | A signature that `sign` returns is the only one the phone made, over exactly the requested payload, after its user saw that request and approved it, and by a key whose reported fingerprint is the expected one unless either is empty |
| BunkerSafety.WrongKeyIsRefused | browser-extension/lib/signer-backends.js:383-390 | An approved request that is signed by a key with another fingerprint ends in the error for that |
| BunkerSafety.RefusalIsReported | phone-signer/lib/bunker-signer.js:117-134 | A declined request and a non-canonical one settle as rejected, each with its own reason |
| BunkerSafety.InterruptionDecides | browser-extension/lib/signer-backends.js:450-457 | Whatever interrupts a desktop that still waits decides what `sign` throws, whatever happens later; that the peer has left does not count |
| BunkerSafety.UninterruptedOutcome | browser-extension/lib/signer-backends.js:480-489 | Without interruption the desktop settles when it reads the answer and not before, with that answer: a signature exactly if the phone signed, found its fingerprint and could reply at the first attempt |
| BunkerSafety.SomethingIsWaiting | browser-extension/lib/signer-backends.js:460-489 | With one pairing the exchange gets stuck before the answer is read only if the phone could not answer |
| BunkerSafety.HandshakeOutcome | phone-signer/lib/bunker-signer.js:111-155 | The undisturbed exchange delivers the phone's answer, whatever it is |
| BunkerSafety.ApprovedRequestSucceeds | phone-signer/lib/bunker-signer.js:111-155 | A request that the phone signs is answered with that signature if nothing fails after signing |
| BunkerSafety.SignedYetNotDelivered | phone-signer/lib/bunker-signer.js:135-148 | If the fingerprint or the reply does fail after signing, the key has signed and the desktop gets a reject or nothing |
| BunkerSafety.RunKeepsInv | browser-extension/lib/signer-backends.js:428-508 | What each side has said and learned is fixed by how many messages it has read, in every reachable state |
| BunkerPeers.BunkerSigner.OnMessage | phone-signer/lib/bunker-signer.js:63-109 | The phone's handler makes the transition of the protocol for each message |
| BunkerPeers.BunkerSigner.OnSignRequest | phone-signer/lib/bunker-signer.js:111-149 | The cross-check comes first, then the user, then the key; each outcome has its answer, and what escapes from the handler leaves none |
| BunkerPeers.BunkerSigner.SignAndAnswer | phone-signer/lib/bunker-signer.js:135-148 | A failure from signing on, the first reply included, is answered by a reject, whether or not the key has signed |
| BunkerPeers.SignatureIsSentExactlyIf | phone-signer/lib/bunker-signer.js:135-148 | A signature goes out exactly if it was made, the fingerprint was found and the first reply worked |
| BunkerPeers.AnswerInFields | phone-signer/lib/bunker-signer.js:111-149 | Exactly how each request is answered, with the reason of each reject |
| BunkerPeers.SignResultInFields | browser-extension/lib/signer-backends.js:374-391 | Exactly when `sign` returns a signature, and exactly which error it throws otherwise |
| BunkerPeers.UpperCapitalises | browser-extension/lib/signer-backends.js:387 | What upper case is, letter by letter |
| BunkerPeers.UpperIsByCharacter | browser-extension/lib/signer-backends.js:387 | Upper case of a text is that of its parts |
| BunkerPeers.SettledBy | browser-extension/lib/signer-backends.js:467-502 | Which messages settle a waiting desktop, and how |
| BunkerPeers.OthersAreIgnored | browser-extension/lib/signer-backends.js:480-497 | An answer to another request leaves the desktop waiting |
| BunkerPeers.LegacyRequestIsHandled | phone-signer/lib/bunker-signer.js:105-108 | A request in the clear is handled like a sealed one and answered under the key if there is one |
| BunkerPeers.PhoneReports | phone-signer/lib/bunker-signer.js:79-95 | Which messages the phone reports as errors |
| BunkerPeers.ShownOriginIsNamed | phone-signer/lib/bunker-signer.js:122-129 | For every request, the origin shown is the one in the payload exactly if the request names the same one or none |
| BunkerPeers.ShownFixesTheBytes | phone-signer/lib/bunker-signer.js:112-129 | For every payload that reaches the user, the version and fields shown fix the bytes to be signed exactly if the version is the checked one |
| BunkerPeers.ShownIsSigned | phone-signer/lib/bunker-signer.js:122-129 | For a payload that the extension builds the user is shown exactly its fields |
| BunkerPeers.BunkerSigner.SendReply | phone-signer/lib/bunker-signer.js:153-155 | Sealed when there is a key, plain otherwise, and nothing if it fails |
| BunkerPeers.RelayRequest.OnMessage | browser-extension/lib/signer-backends.js:460-502 | The desktop's handler makes the transition of the protocol for each message |
| BunkerPeers.RelayRequest.Settle | browser-extension/lib/signer-backends.js:439-449 | Only the first settlement counts |
| BunkerChannel.KeysAgree | browser-extension/lib/bunker-e2e.js:78-117 | Both sides derive one key exactly if secret and fragment agree (section 6.1 of RFC 7748, section 2 of RFC 5869) |
| BunkerChannel.KeysAgreeExactlyIf | browser-extension/lib/bunker-e2e.js:78-117 | A key is derived a second time exactly from the same two parties, secret and fragment |
| BunkerChannel.InfoBytesInFull | browser-extension/lib/bunker-e2e.js:43-45 | The derivation context in full |
| BunkerChannel.InfoBytesInjective | browser-extension/lib/bunker-e2e.js:43-45 | Different fragments give different derivation contexts |
| BunkerChannel.OpenOfSeal | browser-extension/lib/bunker-e2e.js:126-148 | Opening under the same key recovers what was sealed; under any other key it fails |
| BunkerChannel.E2ESession.OnKex | browser-extension/lib/bunker-e2e.js:170-178 | The key is derived from both key pairs, or the call fails because the session was not started |
| BunkerChannel.E2ESession.Open | browser-extension/lib/bunker-e2e.js:193-196 | Opens with the session key, or says why it cannot |
| KeyTransparency.TailHashDeterminesLog | src/capauth/key_transparency.py:371-428 | Two non-empty verifying logs with the same final hash are the same log, entry for entry |
| KeyTransparency.TamperingIsDetected | src/capauth/key_transparency.py:371-428 | Any edit, reordering, insertion or deletion that leaves the tail hash alone makes verification fail |
| KeyTransparency.KeyTransparencyLog.VerifyChain | src/capauth/key_transparency.py:371-428 | The walk returns the verdict: the longest verifying prefix and what stops it; it raises exactly if the file is malformed and nothing before that breaks |
| KeyTransparency.CheckedIsLongest | src/capauth/key_transparency.py:371-428 | A prefix verifies exactly if it is no longer than `entries_checked` |
| KeyTransparency.VerdictIsUnique | src/capauth/key_transparency.py:371-428 | A log has one verdict |
| KeyTransparency.KeyTransparencyLog.Append | src/capauth/key_transparency.py:265-330 | One entry more, with the given time, event type, fingerprint and payload, numbered and linked to the tail or to sixty-four zeros, and nothing else changed; or nothing at all if the file does not parse |
| KeyTransparency.BreakInFields | src/capauth/key_transparency.py:388-423 | Which of the three breaks an entry is, each with its exact condition |
| KeyTransparency.EntriesInFields | src/capauth/key_transparency.py:245-254 | Blank lines do not count, and a malformed line ends the reading |
| KeyTransparency.KeyTransparencyLog.LastEntry | src/capauth/key_transparency.py:256-261 | The last entry of the file, or an error exactly if some line is malformed |
| KeyTransparency.AppendKeepsVerifying | src/capauth/key_transparency.py:265-330 | Appending to a verifying log gives a verifying log |
| KeyTransparency.AppendKeepsBreak | src/capauth/key_transparency.py:265-330 | Nothing appended to a broken log repairs it or moves the break |
| KeyTransparency.VerdictOverRuns | src/capauth/key_transparency.py:265-330 | Over any run of appends the old entries stay a prefix, an intact log stays intact, and the verdict on a broken one never changes |
| CanonicalNonce.CrossCheckAcceptsPrintedForms | phone-signer/lib/bunker-signer.js:112-121 | The phone's cross-check accepts exactly the V2 payloads that print some tuple of six one-line fields, and the fields it shows are the only such tuple |
| CanonicalNonce.BuiltPayloadIsAccepted | browser-extension/lib/openpgp.js:45-65 | What the extension builds for an origin passes the cross-check exactly if no field contains a newline |
| CanonicalNonce.ParseOfPrint | phone-signer/lib/canonical.js:26-52 | Parsing inverts printing |
| CanonicalNonce.PrintedInFull | browser-extension/lib/openpgp.js:56-64 | The checked form, written out in full |
| CanonicalNonce.LegacyInFull | browser-extension/lib/openpgp.js:46-55 | The legacy form, written out in full |
| CanonicalNonce.FieldOfLine | phone-signer/lib/canonical.js:30-33 | A line gives a field exactly if something stands before its first equals sign |
| CanonicalNonce.ParseCanonical | phone-signer/lib/canonical.js:26-35 | The loop collects the key=value lines after the first, later lines winning |
| CanonicalNonce.LegacyPayloadIsNotChecked | browser-extension/lib/openpgp.js:46-55 | Without an origin the payload is of the legacy version, which the cross-check lets through |
| CanonicalNonce.TrailingNewlineIsNotShown | phone-signer/lib/canonical.js:26-35 | A newline at the end parses to nothing, and only the checked version notices it |
| KeyFrames.CollectorDeliversThePayload | phone-signer/lib/keyqr.js:73-116 | For any payload, chunk size and scan order, with duplicates, noise and other transfers, if the first key frame belongs to the transfer and no foreign frame claims to: complete exactly when every frame was seen, and then the payload is what is assembled |
| KeyFrames.PrintedFramesAreSeen | phone-signer/lib/keyqr.js:53-67 | Scanning every printed frame at least once, in any order and company, is enough |
| KeyFrames.ParseOfFrame | phone-signer/lib/keyqr.js:53-67 | A printed frame parses to itself, whatever its chunk contains, exactly if its transfer id is non-empty and free of the separator |
| KeyFrames.ParseInFields | phone-signer/lib/keyqr.js:54-67 | Exactly which texts parse as a frame, and to which |
| KeyFrames.NumbersAreLenient | phone-signer/lib/keyqr.js:59-60 | Numbers are read past space and a sign and up to the first other character |
| KeyFrames.SpacesInFull | phone-signer/lib/keyqr.js:59-60 | Which characters are space to JavaScript |
| KeyFrames.ChunkPayload | phone-signer/lib/keyqr.js:41-47 | The loop prints one frame for each chunk, in order |
| KeyFrames.ConcatOfChunks | phone-signer/lib/keyqr.js:41-47 | The chunks concatenate to the payload |
| KeyFrames.PieceSizes | phone-signer/lib/keyqr.js:43-45 | Every chunk but the last is full, and none of a non-empty payload is empty |
| KeyFrames.KeyFrameCollector.AddFrame | phone-signer/lib/keyqr.js:81-90 | The first frame fixes the transfer; a frame of another id or count is refused and changes nothing |
| KeyFrames.KeyFrameCollector.AddRaw | phone-signer/lib/keyqr.js:92-95 | What does not parse changes nothing; what does is added |
| KeyFrames.KeyFrameCollector.Assemble | phone-signer/lib/keyqr.js:110-116 | Nothing until complete, then the chunks in order |
| KeyFrames.CompleteHasAll | phone-signer/lib/keyqr.js:105-107 | With positions in range, the count of frames reaches the total exactly if every position is filled |
| KeyFrames.CompleteMissesNoneExactlyIf | phone-signer/lib/keyqr.js:105-116 | A complete transfer misses no chunk exactly if no frame was taken from beyond its end |
| KeyFrames.MissingChunkIsNotNoticed | phone-signer/lib/keyqr.js:110-116 | Where one was, the missing chunk prints as the word undefined |
| Base58.B58Encode | src/capauth/did.py:74-89 | The two loops compute the encoding of every byte string |
| Base58.DecodeOfEncode | src/capauth/did.py:74-89 | The natural decoder undoes the encoding |
| Base58.EncodeOfDecode | src/capauth/did.py:74-89 | Encoding undoes the decoder on every text that it accepts |
| Base58.EncodingIsBijective | src/capauth/did.py:74-89 | Encoding is injective and reaches exactly the texts over the alphabet |
| Base58.EncodingShape | src/capauth/did.py:76-89 | Leading zero bytes become exactly that many leading ones; the rest is the minimal base-58 form of the big-endian value |
| Base58.AlphabetInFull | src/capauth/did.py:35 | The alphabet is, in ascending order, the letters and numerals without 0, O, I and l |
| IdentityClasses.MatchesAny | src/capauth/identity_class.py:177-187 | The searching loop finds a match exactly if some entry matches |
| IdentityClasses.NamespaceEntry | src/capauth/identity_class.py:177-187 | A namespace entry, with or without space around it, covers what begins with the namespace and a dot, and nothing beside it but itself |
| IdentityClasses.BlankMatchesNothing | src/capauth/identity_class.py:181-183 | An entry of nothing but space matches no capability |
| IdentityClasses.StripKeepsTheRest | src/capauth/identity_class.py:179-181 | Stripping takes space from both sides and nothing else |
| IdentityClasses.SpacesInFull | src/capauth/identity_class.py:179-181 | Which characters are space to Python |
| IdentityClasses.DefaultCeilings | src/capauth/identity_class.py:219-287 | What each default class forbids and permits, for every capability string, with every entry named |
| IdentityClasses.DefaultTable | src/capauth/identity_class.py:224-287 | Under which name each default class stands, and the floor that it imposes |
| IdentityClasses.SatisfiesIsAtLeast | src/capauth/pairing/records.py:58-97 | The order of the enrollment modes |
| IdentityClasses.ResolveIdentityClass | src/capauth/identity_class.py:405-445 | The first key that has an assignment decides; an unreadable file or an unknown class makes the assignment unusable |
| IdentityClasses.ResolveInFields | src/capauth/identity_class.py:405-445 | Exactly what the assignments say of a list of keys, in terms of the file alone |
| IdentityClasses.OrderIsImmaterial | src/capauth/identity_class.py:435-445 | The unordered iteration over a subject's two keys matters exactly if they are assigned to classes that differ |
| IdentityClasses.OrderMatters | src/capauth/identity_class.py:435-445 | It does matter: a subject that is a node under one name and an operator under the other |
| IdentityClasses.ClassAssignments.Assign | src/capauth/identity_class.py:356-402 | Assigns exactly if the class is known, the subject not blank and the file usable, and otherwise changes nothing |
| IdentityClasses.AssignThenResolve | src/capauth/identity_class.py:356-445 | An assignment takes effect for its subject and for nobody else |
| IdentityClasses.AssignedSubjectResolves | src/capauth/identity_class.py:298-312 | In whatever order its names are looked up, a subject has its assigned class, unless another name has one |
| IdentityClasses.CanonicalNameResolves | src/capauth/identity_class.py:298-312 | A class assigned to the canonical name holds under every way to write a subject that has it |
| PolicyDecision.DecideClosedForm | src/capauth/authz.py:719-913 | The cascade of early returns allows exactly if the class ceiling, the rule, the strongest live mode and the tokens all agree |
| PolicyDecision.DecideInFields | src/capauth/authz.py:719-913 | Exactly which requests are allowed, with devices, tokens, signatures and the grace clock spelled out |
| PolicyDecision.ReasonNamesTheToken | src/capauth/authz.py:863-911 | An allow names the wildcard exactly if one of the tokens it rests on is for all capabilities |
| PolicyDecision.UnusableClassDenies | src/capauth/authz.py:719-746 | An unreadable assignments file, and a class that the table does not have, deny |
| PolicyDecision.ReasonIsTheFirstFailure | src/capauth/authz.py:719-913 | The reason of a denial is the first, in a fixed order, of eleven independent gates that the request does not pass |
| PolicyDecision.TokenReasons | src/capauth/authz.py:806-893 | Which of the four token denials is given, or whether the allow is under grace |
| PolicyDecision.StrongestMode | src/capauth/authz.py:600-610 | The loop finds the strongest mode of a live device |
| PolicyDecision.StrongestMeetsFloor | src/capauth/authz.py:600-610 | The strongest mode meets a floor exactly if some live device does |
| PolicyDecision.WithdrawingAllowsOnlyUnderGrace | src/capauth/authz.py:806-893 | Removing or revoking tokens and devices never turns a denial into an allow without a live grace deadline; with one, only a denial for an invalid signature can turn |
| PolicyDecision.WithdrawingAllowsExactlyIf | src/capauth/authz.py:840-893 | Exactly when removing or revoking tokens and devices turns a denial into an allow: under live grace, with ceiling, rule and floors still met, when nothing verified before, an attempted signature stood in the way, and only unsigned tokens are left |
| PolicyDecision.DeletingAForgedTokenAllows | src/capauth/authz.py:842-893 | It does happen: under grace, deleting a forged token beside an unsigned one |
| PolicyDecision.GraceAddsExactlyTheUnsigned | src/capauth/authz.py:858-893 | A grace deadline turns exactly the denials for unsigned tokens into allows and leaves every other decision as it is |
| PolicyDecision.GraceAllowsExactlyIf | src/capauth/authz.py:858-893 | Exactly when a grace deadline turns a denial into an allow: the clock is before it, ceiling and floors are met, and only unsigned tokens could grant |
| PolicyDecision.GraceIsBeforeTheDeadline | src/capauth/authz.py:481-530 | An allow under grace is given before the deadline |
| PolicyDecision.PassedDeadlineIsNone | src/capauth/authz.py:527-528 | A deadline that has passed decides every request as no deadline does |
| PolicyDecision.UnderGraceAllIsUnsigned | src/capauth/authz.py:841-886 | What is allowed under grace is granted by unsigned tokens only |
| PolicyDecision.ReclassifyingAllowsExactlyIf | src/capauth/authz.py:637-661 | Exactly when a change of classes turns a denial into an allow: granted all along, outside the old ceiling, within the new |
| PolicyDecision.ClassifyingNeverAllows | src/capauth/authz.py:719-746 | Assigning a class to a subject that had none never turns a denial into an allow |
| PolicyDecision.PromotingANodeAllows | src/capauth/authz.py:719-746 | Assigning another class can: a node made an operator |
| PolicyDecision.LookupOrderDecides | src/capauth/authz.py:719-746 | The order in which a subject's two names are looked up can decide a request |
| PolicyDecision.LookupOrderDecidesExactlyIf | src/capauth/authz.py:719-746 | It does so exactly if the request is granted and one order stays within the ceiling while the other does not |
| PolicyDecision.OperatorPowersStayWithOperators | src/capauth/identity_class.py:209-217 | No token, device, rule or grace lets an agent, node or edge device do what only an operator may |

## Left out

- Real cryptography, JSON, OpenPGP and the wire form of credentials: a presented credential is missing, malformed or
  a parsed chain, and signature verification is membership in what was minted.
- The branch for a credential without expiry or start in `src/capauth/delegated.py:1264-1265`: parsing refuses such
  credentials, so no parsed chain reaches it.
- The refusal of a chain that repeats a credential (`src/capauth/delegated.py:239-240`): such a chain is denied
  later, because it is not linked.
- Decision fields that only label a record: correlation id, principal id, scope and credential digests.
- The constraint that a decision id is fresh: call numbers stand for decision ids.
- QR code construction other than Reed-Solomon: bit stream, interleaving, module placement and masks.
- BunkerSafety.NothingUnsealed: what an active broker could do by substituting keys, repeated pairing, and two handlers of one side that overlap while they wait.
- Failing status callbacks of the phone, and errors of its socket after a reply has gone out.
- The checks of `sign` before it opens the relay (empty payload, no pairing) and the Web Push that wakes the phone.
- Creation and permissions of the log file.
- Letter case and canonical names of subjects as such: any naming functions will do.
- The audit obligation and the advisory trust signal of a policy decision: no branch reads them.
- The default capability rule table: decisions are proved for every table.
- Liveness, timeouts as durations, real concurrency inside a lock, user interfaces, and the modules for custody,
  estate, manifests, seals, DID documents, login and registries: record keeping or I/O around the core.
