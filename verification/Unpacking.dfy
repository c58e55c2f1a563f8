/** Unpacking: the mutable envelope with its metadata, the steps that each peel one layer, and the
    driver. The functions say what each step makes of the state of the envelope; the methods of
    `MetaEnvelope` do it in place. */
module Unpacking {
  import opened Wrappers
  import opened Octets
  import opened JsonText
  import opened Symbols
  import opened Documents
  import opened Jwe
  import opened JweCrypto
  import opened Jws
  import opened Messages
  import opened Envelopes
  import opened Rotation
  import opened Packing
  import opened Routing
  import Base64Url

  datatype AuthCryptAlg = A256CbcHs512Ecdh1Pu

  datatype Metadata = Metadata(
    encrypted: bool,
    authenticated: bool,
    nonRepudiation: bool,
    anonymousSender: bool,
    reWrapped: bool,
    encryptedFromKid: Option<string>,
    encryptedToKids: Option<seq<string>>,
    signFrom: Option<string>,
    fromPriorIssuerKid: Option<string>,
    encAlgAuth: Option<AuthCryptAlg>,
    encAlgAnon: Option<AnonCryptAlg>,
    signAlg: Option<SignAlgorithm>,
    signedMessage: Option<Jws>,
    fromPrior: Option<FromPrior>)

  const NO_METADATA := Metadata(false, false, false, false, false, None, None, None, None, None, None, None, None, None)

  /** What an envelope knows besides its parsed form. */
  datatype State = State(
    metadata: Metadata,
    fromKid: Option<string>,
    fromDid: Option<string>,
    fromKey: Option<Key>,
    toKid: Option<string>,
    toDid: Option<string>,
    toKidsFound: seq<string>)

  const INITIAL := State(NO_METADATA, None, None, None, None, None, [])

  datatype Options = Options(allKeys: bool, unwrapForward: bool, limit: nat)

  // ----- Sender and recipients of an encrypted envelope -----

  /** The kid's document, if it lists the kid as a key agreement, and the key it gives for it. */
  function AgreementKey(kid: string, resolver: Resolver): Result<Key> {
    var _ :- Check(DidOrUrl(kid).1.Some?, Malformed);
    var doc :- Resolve(resolver, DidOrUrl(kid).0);
    var _ :- Check(kid in doc.keyAgreement, DIDUrlNotFound);
    var vm :- OkOr(FindMethod(doc.methods, kid), DIDUrlNotFound);
    var key :- OkOr(vm.key, Malformed);
    var _ :- Check(key.alg != UnsupportedAlg, Malformed);
    Ok(key)
  }

  function FillSender(p: ParsedJwe, s: State, resolver: Resolver): Result<State> {
    match p.apu
    case None => Ok(s.(metadata := s.metadata.(anonymousSender := true)))
    case Some(apu) =>
      var kid :- OkOr(FromUtf8(apu), Malformed);
      var key :- AgreementKey(kid, resolver);
      Ok(s.(fromDid := Some(DidOrUrl(kid).0), fromKid := Some(kid), fromKey := Some(key),
            metadata := s.metadata.(authenticated := true, encrypted := true, encryptedFromKid := Some(kid))))
  }

  /** The key ids are at least one, with fragments, all of one DID. */
  predicate OneDid(kids: seq<string>) {
    kids != [] && forall k :: k in kids ==> DidOrUrl(k).0 == DidOrUrl(kids[0]).0 && DidOrUrl(k).1.Some?
  }

  function FillRecipients(p: ParsedJwe, s: State, secrets: Secrets): Result<State> {
    var _ :- Check(OneDid(p.toKids), Malformed);
    var held := FindSecrets(secrets, p.toKids);
    var _ :- Check(held != [], SecretNotFound);
    Ok(s.(toKid := Some(p.toKids[0]), toDid := Some(DidOrUrl(p.toKids[0]).0), toKidsFound := held,
          metadata := s.metadata.(encryptedToKids := Some(p.toKids))))
  }

  /** `fill_envelope_from` */
  function Fill(p: ParsedJwe, s: State, resolver: Resolver, secrets: Secrets): Result<State> {
    var filled :- FillSender(p, s, resolver);
    FillRecipients(p, filled, secrets)
  }

  /** `MetaEnvelope::new` */
  function Opened(text: string, resolver: Resolver, secrets: Secrets): Result<(ParsedEnvelope, State)> {
    var e :- ReadEnvelope(text);
    match e
    case ParsedJweEnvelope(p) =>
      var s :- Fill(p, INITIAL, resolver, secrets);
      Ok((e, s))
    case _ => Ok((e, INITIAL))
  }

  // ----- anoncrypt -----

  function AnonAlg(e: EncAlgorithm): Option<AnonCryptAlg> {
    match e
    case A256CbcHs512 => Some(A256CbcHs512EcdhEs)
    case Xc20P => Some(Xc20PEcdhEs)
    case A256Gcm => Some(A256GcmEcdhEs)
    case OtherEnc(_) => None
  }

  /** The wallet's key pair for a key id. */
  function WalletKey(secrets: Secrets, kid: string): Result<Key> {
    if kid !in secrets then Err(InvalidState)
    else if secrets[kid].alg == UnsupportedAlg then Err(Unsupported)
    else Ok(secrets[kid])
  }

  function AnonOne(p: ParsedJwe, kid: string, secrets: Secrets): Result<bytes> {
    var key :- WalletKey(secrets, kid);
    var _ :- Check(CanAgree(key.alg) && AnonAlg(p.header.enc).Some?, Unsupported);
    Decrypted(p, key.alg, EcdhEs, p.header.enc, None, Named(kid, key))
  }

  /** What the loop over the held key ids leaves as payload: that of the first key, or of the last if
      all keys are to be tried. */
  function AnonPayload(p: ParsedJwe, held: seq<string>, secrets: Secrets, allKeys: bool): Result<Option<bytes>> {
    if held == [] then Ok(None) else
      var payload :- AnonOne(p, held[0], secrets);
      if !allKeys then Ok(Some(payload)) else
        var rest :- AnonPayload(p, held[1..], secrets, allKeys);
        Ok(if rest.None? then Some(payload) else rest)
  }

  /** A decrypted payload read as an envelope. */
  function ReadPayload(payload: Option<bytes>): Result<ParsedEnvelope> {
    var b :- OkOr(payload, InvalidState);
    var text :- OkOr(FromUtf8(b), Malformed);
    ReadEnvelope(text)
  }

  /** `_try_unpack_anoncrypt` */
  function TryAnoncrypt(e: ParsedEnvelope, s: State, secrets: Secrets, o: Options)
    : Result<(Option<ParsedEnvelope>, State)>
  {
    match e
    case ParsedJweEnvelope(p) =>
      if p.header.alg != EcdhEsA256Kw then Ok((None, s)) else
        var _ :- Check(OneDid(p.toKids), Malformed);
        var held := FindSecrets(secrets, p.toKids);
        var _ :- Check(held != [], SecretNotFound);
        var payload :- AnonPayload(p, held, secrets, o.allKeys);
        var inner :- ReadPayload(payload);
        Ok((Some(inner), s.(metadata := s.metadata.(encryptedToKids := Some(p.toKids), encrypted := true,
                                                    anonymousSender := true, encAlgAnon := AnonAlg(p.header.enc)))))
    case _ => Ok((None, s))
  }

  // ----- authcrypt -----

  /** Of two different curves, one is X25519 and the other is P-256 or secp256k1. */
  predicate Incompatible(a: KeyAlg, b: KeyAlg) {
    (a == X25519 && (b == P256 || b == K256)) || (b == X25519 && (a == P256 || a == K256))
  }

  function AuthOne(p: ParsedJwe, fromKid: Option<string>, fromKey: Option<Key>, kid: string, secrets: Secrets)
    : Result<bytes>
  {
    var key :- WalletKey(secrets, kid);
    var from :- OkOr(fromKey, Panic);
    if from.alg == key.alg && CanAgree(key.alg) && p.header.enc == A256CbcHs512 then
      var skid :- OkOr(fromKid, Panic);
      Decrypted(p, key.alg, Ecdh1Pu, A256CbcHs512, Some(Named(skid, from)), Named(kid, key))
    else if Incompatible(from.alg, key.alg) then Err(Malformed)
    else Err(Unsupported)
  }

  /** What the loop over the held key ids leaves as payload, `count` operations being spent before. */
  function AuthPayload(p: ParsedJwe, fromKid: Option<string>, fromKey: Option<Key>, held: seq<string>,
                       secrets: Secrets, o: Options, count: nat): Result<Option<bytes>>
  {
    if held == [] then Ok(None)
    else if count + 1 >= o.limit then Err(TooManyCryptoOperations)
    else
      var payload :- AuthOne(p, fromKid, fromKey, held[0], secrets);
      if !o.allKeys then Ok(Some(payload)) else
        var rest :- AuthPayload(p, fromKid, fromKey, held[1..], secrets, o, count + 1);
        Ok(if rest.None? then Some(payload) else rest)
  }

  /** The envelope is filled again if its sender is not known yet. */
  function SenderKnown(p: ParsedJwe, s: State, resolver: Resolver, secrets: Secrets): Result<State> {
    if p.apu.Some? && s.fromKid.None? then Fill(p, s, resolver, secrets) else Ok(s)
  }

  /** `_try_unpack_authcrypt` */
  function TryAuthcrypt(e: ParsedEnvelope, s: State, resolver: Resolver, secrets: Secrets, o: Options, count: nat)
    : Result<(Option<ParsedEnvelope>, State)>
  {
    match e
    case ParsedJweEnvelope(p) =>
      if p.header.alg != Ecdh1PuA256Kw then Ok((None, s)) else
        var known :- SenderKnown(p, s, resolver, secrets);
        var payload :- AuthPayload(p, known.fromKid, known.fromKey, known.toKidsFound, secrets, o, count);
        var inner :- ReadPayload(payload);
        Ok((Some(inner), known.(metadata := known.metadata.(encAlgAuth := Some(A256CbcHs512Ecdh1Pu)))))
    case _ => Ok((None, s))
  }

  // ----- Signatures and plaintext -----

  /** `_try_unpack_sign` */
  function TrySign(e: ParsedEnvelope, s: State, resolver: Resolver): Result<(Option<ParsedEnvelope>, State)> {
    match e
    case ParsedJwsEnvelope(p) =>
      var _ :- Check(|p.headers| == 1, Malformed);
      if p.jws.signatures == [] || p.headers == [] then Err(InvalidState) else
        var alg, kid := p.headers[0].alg, p.jws.signatures[0].kid;
        var _ :- Check(DidOrUrl(kid).1.Some?, Malformed);
        var doc :- Resolve(resolver, DidOrUrl(kid).0);
        var key :- SignerKey(doc, kid, alg, NoCompatibleCrypto);
        var valid :- VerifyJws(p, kid, key);
        var _ :- Check(valid, Malformed);
        var b :- OkOr(Base64Url.Decode(p.jws.payload), Malformed);
        var text :- OkOr(FromUtf8(b), Malformed);
        var inner :- ReadEnvelope(text);
        Ok((Some(inner), s.(metadata := s.metadata.(signAlg := Some(alg), authenticated := true, nonRepudiation := true,
                                                    signFrom := Some(kid), signedMessage := Some(p.jws)))))
    case _ => Ok((None, s))
  }

  /** `_try_unpack_plaintext` */
  function TryPlaintext(e: ParsedEnvelope, s: State, resolver: Resolver): Result<(Option<Message>, State)> {
    match e
    case ParsedMessage(message) =>
      var m :- Validate(message);
      match m.fromPrior {
        case None => Ok((Some(m), s))
        case Some(jwt) =>
          var prior :- UnpackFromPrior(jwt, resolver);
          Ok((Some(m), s.(metadata := s.metadata.(fromPrior := Some(prior.0), fromPriorIssuerKid := Some(prior.1)))))
      }
    case _ => Ok((None, s))
  }

  // ----- The driver -----

  /** `has_key_agreement_secret` */
  function HasAgreementSecret(didOrKid: string, resolver: Resolver, secrets: Secrets): Result<bool> {
    match DidOrUrl(didOrKid).1
    case Some(kid) => Ok(FindSecrets(secrets, [kid]) != [])
    case None =>
      var doc :- Resolve(resolver, didOrKid);
      Ok(FindSecrets(secrets, doc.keyAgreement) != [])
  }

  /** `_try_unwrap_forwarded_message` */
  function TryUnwrapForwarded(e: ParsedEnvelope, resolver: Resolver, secrets: Secrets): Result<Option<string>> {
    match e
    case ParsedMessage(m) =>
      (match TryParseForward(m)
       case None => Ok(None)
       case Some(forward) =>
         var mine :- HasAgreementSecret(forward.next, resolver, secrets);
         Ok(if mine then Some(Print(forward.forwarded)) else None))
    case _ => Ok(None)
  }

  datatype Peeled = Peeled(envelope: ParsedEnvelope, state: State, count: nat)

  /** The loop of `unpack`: peel an anonymous layer, and go on with what it holds if that is a Forward
      message for a key of the wallet. */
  function PeelForwards(e: ParsedEnvelope, s: State, resolver: Resolver, secrets: Secrets, o: Options, count: nat)
    : Result<Peeled>
    decreases o.limit - count
  {
    if count + 1 >= o.limit then Err(TooManyCryptoOperations) else
      var step :- TryAnoncrypt(e, s, secrets, o);
      match step.0
      case None => Ok(Peeled(e, step.1, count + 1))
      case Some(inner) =>
        if !o.unwrapForward then Ok(Peeled(inner, step.1, count + 1)) else
          var forwarded :- TryUnwrapForwarded(inner, resolver, secrets);
          match forwarded
          case None => Ok(Peeled(inner, step.1, count + 1))
          case Some(text) =>
            var next :- ReadEnvelope(text);
            PeelForwards(next, step.1.(metadata := step.1.metadata.(reWrapped := true)), resolver, secrets, o,
                         count + 1)
  }

  function OrElse(o: Option<ParsedEnvelope>, e: ParsedEnvelope): ParsedEnvelope {
    match o
    case None => e
    case Some(inner) => inner
  }

  /** The signature and plaintext steps. */
  function FinishContent(e: ParsedEnvelope, s: State, resolver: Resolver): Result<(Message, Metadata)> {
    var sign :- TrySign(e, s, resolver);
    var plain :- TryPlaintext(OrElse(sign.0, e), sign.1, resolver);
    var m :- OkOr(plain.0, Malformed);
    Ok((m, plain.1.metadata))
  }

  /** What follows the loop. */
  function Finish(u: Peeled, resolver: Resolver, secrets: Secrets, o: Options): Result<(Message, Metadata)> {
    var auth :- TryAuthcrypt(u.envelope, u.state, resolver, secrets, o, u.count);
    FinishContent(OrElse(auth.0, u.envelope), auth.1, resolver)
  }

  /** `Message::unpack` */
  function Unpack(e: ParsedEnvelope, s: State, resolver: Resolver, secrets: Secrets, o: Options)
    : Result<(Message, Metadata)>
  {
    var u :- PeelForwards(e, s, resolver, secrets, o, 0);
    Finish(u, resolver, secrets, o)
  }

  /** `Message::unpack_string` */
  function UnpackString(text: string, resolver: Resolver, secrets: Secrets, o: Options): Result<(Message, Metadata)> {
    var start :- Opened(text, resolver, secrets);
    Unpack(start.0, start.1, resolver, secrets, o)
  }

  // ----- The loops, step by step -----

  /** The decrypt loop of the anoncrypt step. */
  method AnonDecrypt(p: ParsedJwe, held: seq<string>, secrets: Secrets, allKeys: bool)
    returns (r: Result<Option<bytes>>)
    ensures r == AnonPayload(p, held, secrets, allKeys)
  {
    hide AnonOne;
    var payload: Option<bytes> := None;
    assert held[0..] == held;
    for i := 0 to |held|
      invariant var rest := AnonPayload(p, held[i..], secrets, allKeys);
                AnonPayload(p, held, secrets, allKeys)
                == if rest.Ok? && rest.value.None? then Ok(payload) else rest
      invariant i > 0 ==> allKeys && payload.Some?
    {
      assert held[i..][1..] == held[i + 1..];
      var one := AnonOne(p, held[i], secrets);
      if one.Err? {
        return Err(one.kind);
      }
      payload := Some(one.value);
      if !allKeys {
        break;
      }
    }
    return Ok(payload);
  }

  /** The decrypt loop of the authcrypt step; `tried` is the number of decryptions it performed. */
  method AuthDecrypt(p: ParsedJwe, fromKid: Option<string>, fromKey: Option<Key>, held: seq<string>, secrets: Secrets,
                     o: Options, present: nat) returns (r: Result<Option<bytes>>, tried: nat)
    ensures r == AuthPayload(p, fromKid, fromKey, held, secrets, o, present)
    ensures tried <= |held|
    ensures tried > 0 ==> present + tried < o.limit
    ensures !o.allKeys ==> tried <= 1
  {
    hide AuthOne;
    var payload: Option<bytes> := None;
    var count := present;
    tried := 0;
    assert held[0..] == held;
    for i := 0 to |held|
      invariant count == present + i && tried == i
      invariant var rest := AuthPayload(p, fromKid, fromKey, held[i..], secrets, o, count);
                AuthPayload(p, fromKid, fromKey, held, secrets, o, present)
                == if rest.Ok? && rest.value.None? then Ok(payload) else rest
      invariant i > 0 ==> o.allKeys && payload.Some? && count < o.limit
    {
      assert held[i..][1..] == held[i + 1..];
      count := count + 1;
      if count >= o.limit {
        return Err(TooManyCryptoOperations), tried;
      }
      var one := AuthOne(p, fromKid, fromKey, held[i], secrets);
      tried := tried + 1;
      if one.Err? {
        return Err(one.kind), tried;
      }
      payload := Some(one.value);
      if !o.allKeys {
        break;
      }
    }
    return Ok(payload), tried;
  }
}
