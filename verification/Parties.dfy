/** The sender and the recipients that an envelope names: when unpacking takes them, and how it refuses, on
    the documents and the wallet. */
module Parties {
  import opened Wrappers
  import opened Octets
  import opened Symbols
  import opened Documents
  import opened Jwe
  import opened JweCrypto
  import opened Packing
  import opened Jws
  import opened Envelopes
  import opened Rotation
  import opened Unpacking
  import Base64Url

  // ----- The sender -----

  /** The DID of the key id resolves, its document lists the id as a key agreement, and gives this key for it. */
  ghost predicate Agreed(resolver: Resolver, kid: string, key: Key) {
    exists did :: && UrlOf(kid, did) && did in resolver && kid in resolver[did].keyAgreement
                  && Gives(resolver[did], kid, Some(key)) && key.alg != UnsupportedAlg
  }

  /** The sender's key is the documented one, and every way not to have one is told as its error. */
  lemma AgreementKeyExact(kid: string, resolver: Resolver)
    ensures forall key :: AgreementKey(kid, resolver) == Ok(key) <==> Agreed(resolver, kid, key)
    ensures '#' !in kid ==> AgreementKey(kid, resolver) == Err(Malformed)
    ensures forall did :: UrlOf(kid, did) && did !in resolver ==> AgreementKey(kid, resolver) == Err(DIDNotResolved)
    ensures forall did :: UrlOf(kid, did) && did in resolver ==>
              if kid !in resolver[did].keyAgreement || NoMethod(resolver[did], kid) then
                AgreementKey(kid, resolver) == Err(DIDUrlNotFound)
              else AgreementKey(kid, resolver).Ok? || AgreementKey(kid, resolver) == Err(Malformed)
  {
    hide DidOrUrl, FindMethod, UrlOf, Gives, NoMethod;
    DidOrUrlExact(kid);
    var did := DidOrUrl(kid).0;
    forall d ensures UrlOf(kid, d) <==> DidOrUrl(kid).1.Some? && d == did {
      UrlOfExact(kid, d);
    }
    if did in resolver {
      forall key ensures Gives(resolver[did], kid, key)
                         <==> FindMethod(resolver[did].methods, kid).Some?
                              && FindMethod(resolver[did].methods, kid).value.key == key
      {
        GivesExact(resolver[did], kid, key);
      }
      GivesExact(resolver[did], kid, None);
    }
  }

  /** Without "apu" the sender is recorded as anonymous; with one that is no text the envelope is malformed; otherwise
      the text is the sender's key id, which is recorded with its DID and documented key. */
  lemma SenderExact(p: ParsedJwe, s: State, resolver: Resolver)
    ensures var r := FillSender(p, s, resolver);
            if p.apu.None? then r == Ok(s.(metadata := s.metadata.(anonymousSender := true)))
            else if FromUtf8(p.apu.value).None? then r == Err(Malformed)
            else
              var kid := FromUtf8(p.apu.value).value;
              match AgreementKey(kid, resolver)
              case Err(kind) => r == Err(kind)
              case Ok(key) =>
                forall did :: UrlOf(kid, did) ==>
                  r == Ok(s.(fromDid := Some(did), fromKid := Some(kid), fromKey := Some(key),
                             metadata := s.metadata.(authenticated := true, encrypted := true,
                                                     encryptedFromKid := Some(kid))))
  {
    hide AgreementKey, FromUtf8, UrlOf, DidOrUrl;
    if p.apu.Some? && FromUtf8(p.apu.value).Some? {
      var kid := FromUtf8(p.apu.value).value;
      forall did | UrlOf(kid, did) ensures DidOrUrl(kid).0 == did {
        UrlOfExact(kid, did);
      }
    }
  }

  // ----- The recipients -----

  /** At least one key id, and all of this DID. */
  predicate AllOf(kids: seq<string>, did: string) {
    kids != [] && forall k :: k in kids ==> UrlOf(k, did)
  }

  lemma OneDidExact(kids: seq<string>)
    ensures OneDid(kids) <==> exists did :: AllOf(kids, did)
    ensures forall did :: AllOf(kids, did) ==> DidOrUrl(kids[0]).0 == did
  {
    hide DidOrUrl, UrlOf;
    if OneDid(kids) {
      var did := DidOrUrl(kids[0]).0;
      forall k | k in kids ensures UrlOf(k, did) {
        UrlOfExact(k, did);
        DidOrUrlExact(k);
      }
      assert AllOf(kids, did);
    }
    forall did | AllOf(kids, did) ensures OneDid(kids) && DidOrUrl(kids[0]).0 == did {
      forall k | k in kids ensures DidOrUrl(k) == (did, Some(k)) {
        UrlOfExact(k, did);
      }
      assert kids[0] in kids;
    }
  }

  /** The recipients must be of one DID, and the wallet must hold one of them; then the first one and its DID
      are recorded, and all that are held. */
  lemma RecipientsExact(p: ParsedJwe, s: State, secrets: Secrets)
    ensures var r, kids := FillRecipients(p, s, secrets), p.toKids;
            && ((forall did :: !AllOf(kids, did)) ==> r == Err(Malformed))
            && forall did :: AllOf(kids, did) ==>
                 r == if forall k :: k in kids ==> k !in secrets then Err(SecretNotFound)
                      else Ok(s.(toKid := Some(kids[0]), toDid := Some(did), toKidsFound := FindSecrets(secrets, kids),
                                 metadata := s.metadata.(encryptedToKids := Some(kids))))
  {
    hide DidOrUrl, AllOf, FindSecrets, OneDid;
    OneDidExact(p.toKids);
    NoneHeld(secrets, p.toKids);
  }

  /** An envelope that says it is from a key id is refused, whatever else it holds, exactly as the lookup of
      that key id is. */
  lemma SenderRefused(text: string, p: ParsedJwe, kid: string, resolver: Resolver, secrets: Secrets, o: Options)
    requires ReadEnvelope(text) == Ok(ParsedJweEnvelope(p)) && p.apu == Some(Utf8(kid))
    requires forall key :: !Agreed(resolver, kid, key)
    ensures AgreementKey(kid, resolver).Err?
    ensures UnpackString(text, resolver, secrets, o) == Err(AgreementKey(kid, resolver).kind)
  {
    hide ReadEnvelope, AgreementKey, FillRecipients, Unpack, Utf8, FromUtf8, Agreed;
    AgreementKeyExact(kid, resolver);
    Utf8RoundTrip(kid);
  }

  /** The anoncrypt step checks the recipients again, for every layer: they must be of one DID, and the wallet
      must hold one of them. A layer of another algorithm it leaves alone. */
  lemma AnonStepRecipients(p: ParsedJwe, s: State, secrets: Secrets, o: Options)
    ensures var r := TryAnoncrypt(ParsedJweEnvelope(p), s, secrets, o);
            if p.header.alg != EcdhEsA256Kw then r == Ok((None, s))
            else
              && ((forall did :: !AllOf(p.toKids, did)) ==> r == Err(Malformed))
              && forall did :: AllOf(p.toKids, did) ==>
                   if forall k :: k in p.toKids ==> k !in secrets then r == Err(SecretNotFound)
                   else
                     match AnonPayload(p, FindSecrets(secrets, p.toKids), secrets, o.allKeys)
                     case Err(kind) => r == Err(kind)
                     case Ok(payload) =>
                       match ReadPayload(payload)
                       case Err(kind) => r == Err(kind)
                       case Ok(inner) => r.Ok? && r.value.0 == Some(inner)
  {
    hide AllOf, FindSecrets, OneDid, AnonPayload, ReadPayload;
    OneDidExact(p.toKids);
    NoneHeld(secrets, p.toKids);
  }

  // ----- The key of the wallet -----

  /** With a key of the sender and a held key of the wallet: keys of different types cannot be used together, and
      it is malformed if one is an X25519 key and the other of a NIST or Koblitz curve; keys of one type can,
      unless it is a type for signing, or the content encryption is not the one that ECDH-1PU goes with. */
  lemma AuthOneExact(p: ParsedJwe, skid: string, from: Key, kid: string, secrets: Secrets)
    requires kid in secrets && from.alg != UnsupportedAlg
    ensures var key := secrets[kid];
            AuthOne(p, Some(skid), Some(from), kid, secrets)
            == if {from.alg, key.alg} in {{X25519, P256}, {X25519, K256}} then Err(Malformed)
               else if from.alg == key.alg && key.alg in {X25519, P256, K256} && p.header.enc == A256CbcHs512 then
                 Decrypted(p, key.alg, Ecdh1Pu, A256CbcHs512, Some(Named(skid, from)), Named(kid, key))
               else Err(Unsupported)
  {
    hide Decrypted;
    var key := secrets[kid];
    assert {from.alg, key.alg} == {X25519, P256}
           <==> (from.alg == X25519 && key.alg == P256) || (from.alg == P256 && key.alg == X25519);
    assert {from.alg, key.alg} == {X25519, K256}
           <==> (from.alg == X25519 && key.alg == K256) || (from.alg == K256 && key.alg == X25519);
  }

  lemma AnonOneExact(p: ParsedJwe, kid: string, secrets: Secrets)
    requires kid in secrets
    ensures AnonOne(p, kid, secrets)
            == if secrets[kid].alg in {X25519, P256, K256} && p.header.enc in {A256CbcHs512, Xc20P, A256Gcm} then
                 Decrypted(p, secrets[kid].alg, EcdhEs, p.header.enc, None, Named(kid, secrets[kid]))
               else Err(Unsupported)
  {
    hide Decrypted;
  }

  /** A key id that the wallet does not hold cannot be asked for by unpacking, which asks for held ones only. */
  lemma WalletKeyExact(kid: string, secrets: Secrets)
    ensures WalletKey(secrets, kid) == if kid !in secrets then Err(InvalidState)
                                       else if secrets[kid].alg == UnsupportedAlg then Err(Unsupported)
                                       else Ok(secrets[kid])
  {
  }

  /** Decrypted octets that are no text are malformed; a text is read as an envelope. */
  lemma ReadPayloadExact(payload: Option<bytes>)
    ensures ReadPayload(payload) == if payload.None? then Err(InvalidState)
                                    else if FromUtf8(payload.value).None? then Err(Malformed)
                                    else ReadEnvelope(FromUtf8(payload.value).value)
  {
    hide ReadEnvelope, FromUtf8;
  }

  // ----- The signer and the content -----

  /** The signature step on a parsed signed message, which has one header for each signature. It takes exactly one;
      its key id must be a DID URL of a DID that resolves; the key comes from that document; the signature must be
      that key's over the header and the payload as they are; and the payload must read as an envelope. */
  lemma TrySignExact(p: ParsedJws, s: State, resolver: Resolver, did: string)
    requires |p.headers| == |p.jws.signatures|
    requires |p.headers| == 1 && '#' in p.jws.signatures[0].kid ==> UrlOf(p.jws.signatures[0].kid, did)
    ensures var r := TrySign(ParsedJwsEnvelope(p), s, resolver);
            if |p.headers| != 1 then r == Err(Malformed)
            else
              var kid, alg, signed := p.jws.signatures[0].kid, p.headers[0].alg, p.jws.signatures[0];
              if '#' !in kid then r == Err(Malformed)
              else if did !in resolver then r == Err(DIDNotResolved)
              else
                match SignerKey(resolver[did], kid, alg, NoCompatibleCrypto)
                case Err(kind) => r == Err(kind)
                case Ok(key) =>
                  if Base64Url.Decode(signed.signature)
                     != Some(Signature(key, Utf8(signed.protected + "." + p.jws.payload))) then r == Err(Malformed)
                  else
                    match Base64Url.Decode(p.jws.payload)
                    case None => r == Err(Malformed)
                    case Some(b) =>
                      match ReadPayload(Some(b))
                      case Err(kind) => r == Err(kind)
                      case Ok(inner) =>
                        r == Ok((Some(inner),
                                 s.(metadata := s.metadata.(signAlg := Some(alg), authenticated := true,
                                                            nonRepudiation := true, signFrom := Some(kid),
                                                            signedMessage := Some(p.jws)))))
  {
    hide DidOrUrl, ReadEnvelope, FromUtf8, Base64Url.Decode, Signature, Utf8, UrlOf, FindMethod;
    if |p.headers| == 1 {
      var kid := p.jws.signatures[0].kid;
      DidOrUrlExact(kid);
      UrlOfExact(kid, did);
      assert IndexOfKid(p.jws.signatures, kid) == Some(0);
    }
  }

  /** What is left when encryption is opened must be a message with the plaintext `typ`, or signed and hold such
      a message; then its rotation, if it has one, must unpack, and is reported. */
  lemma ContentExact(e: ParsedEnvelope, s: State, resolver: Resolver)
    ensures var r := FinishContent(e, s, resolver);
            match e
            case ParsedJweEnvelope(_) => r == Err(Malformed)
            case ParsedJwsEnvelope(_) =>
              (match TrySign(e, s, resolver)
               case Err(kind) => r == Err(kind)
               case Ok((None, _)) => false
               case Ok((Some(inner), signed)) =>
                 if inner.ParsedMessage? then r == FinishContent(inner, signed, resolver) else r == Err(Malformed))
            case ParsedMessage(m) =>
              if m.typ != "application/didcomm-plain+json" then r == Err(Malformed)
              else
                match m.fromPrior
                case None => r == Ok((m, s.metadata))
                case Some(jwt) =>
                  match UnpackFromPrior(jwt, resolver)
                  case Err(kind) => r == Err(kind)
                  case Ok((f, kid)) =>
                    r == Ok((m, s.metadata.(fromPrior := Some(f), fromPriorIssuerKid := Some(kid))))
  {
    hide UnpackFromPrior, SignerKey, VerifyJws, Base64Url.Decode, FromUtf8, DidOrUrl, ReadEnvelope;
  }
}
