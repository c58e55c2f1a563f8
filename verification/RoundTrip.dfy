/** The whole stack: what is packed is what the recipient unpacks, through signing, authenticated and
    anonymous encryption, with metadata that says which of these were applied. */
module RoundTrip {
  import opened Wrappers
  import opened Octets
  import opened JsonText
  import opened Symbols
  import opened Documents
  import opened Jwe
  import opened JweCrypto
  import opened JweTheorems
  import opened Jws
  import opened Messages
  import opened Envelopes
  import opened Rotation
  import opened Packing
  import opened Negotiation
  import opened Routing
  import opened PackEncrypted
  import opened Unpacking
  import opened Forwarding
  import Base64Url

  /** The wallet holds the private key of what the document publishes for this key id. */
  predicate Owns(resolver: Resolver, secrets: Secrets, kid: string) {
    && DidOrUrl(kid).1.Some? && DidOrUrl(kid).0 in resolver
    && kid in secrets && secrets[kid].private
    && var vm := FindMethod(resolver[DidOrUrl(kid).0].methods, kid);
       vm.Some? && vm.value.key.Some? && SameKey(secrets[kid], vm.value.key.value)
  }

  // ----- Signed and plaintext content -----

  /** A message whose custom headers can be told from its fields and from an envelope. */
  predicate WellFormed(m: Message) {
    DistinctNames(m.extraHeaders) && NoClash(m.extraHeaders) && PlainHeaders(m.extraHeaders)
  }

  lemma PlainReads(m: Message, resolver: Resolver)
    requires WellFormed(m) && PackPlaintext(m, resolver).Ok?
    ensures ReadEnvelope(PackPlaintext(m, resolver).value) == Ok(ParsedMessage(TravelledMessage(m)))
    ensures m.fromPrior.Some? ==> UnpackFromPrior(m.fromPrior.value, resolver).Ok?
  {
    hide ReadEnvelope, Print, MessageToJson, UnpackFromPrior, ValidatePlaintext, TravelledMessage, NoClash,
         PlainHeaders;
    MessageTravels(m);
  }

  lemma SignedReads(m: Message, signBy: string, resolver: Resolver, secrets: Secrets, s: State)
    requires WellFormed(m) && PackSigned(m, signBy, resolver, secrets).Ok?
    requires var kid := PackSigned(m, signBy, resolver, secrets).value.1;
             kid in secrets && Publishes(resolver, kid, secrets[kid])
    ensures var signed := PackSigned(m, signBy, resolver, secrets).value;
            var e := ReadEnvelope(signed.0);
            && e.Ok? && e.value.ParsedJwsEnvelope?
            && var r := TrySign(e.value, s, resolver);
               && r.Ok? && r.value.0 == Some(ParsedMessage(TravelledMessage(m)))
               && SignAlgFor(secrets[signed.1].alg).Ok?
               && r.value.1 == s.(metadata := s.metadata.(signAlg := Some(SignAlgFor(secrets[signed.1].alg).value),
                                                          authenticated := true, nonRepudiation := true,
                                                          signFrom := Some(signed.1),
                                                          signedMessage := Some(e.value.jws.jws)))
  {
    hide ReadEnvelope, WellFormed, PackPlaintext, SigningKid, SignJws, DidOrUrl, Utf8, FromUtf8, Base64Url.Decode,
         TravelledMessage, VerifyJws;
    var kid := PackSigned(m, signBy, resolver, secrets).value.1;
    var plain := PackPlaintext(m, resolver).value;
    var alg := SignAlgFor(secrets[kid].alg).value;
    var jws := SignJws(Utf8(plain), kid, secrets[kid], alg).value;
    PlainReads(m, resolver);
    Utf8RoundTrip(plain);
    var vm := FindMethod(resolver[DidOrUrl(kid).0].methods, kid).value;
    SignedVerifies(Utf8(plain), kid, secrets[kid], alg, vm.key.value);
    JwsReads(jws);
  }

  lemma JwsReads(jws: Jws)
    requires ParseJws(jws).Ok?
    ensures ReadEnvelope(Print(JwsToJson(jws))) == Ok(ParsedJwsEnvelope(ParseJws(jws).value))
  {
    hide EnvelopeFromStr, Print, JwsToJson, ParseJws;
    JwsDecodes(jws);
  }

  // ----- One layer of encryption -----

  /** What a reader makes of an encrypted text. */
  lemma SealedReads(curve: KeyAlg, kdf: Kdf, alg: Algorithm, enc: EncAlgorithm, plaintext: bytes, sender: Option<Named>,
                    recipients: seq<Named>, rnd: Fresh)
    requires Standard(alg, enc)
    requires Encrypted(curve, kdf, alg, enc, plaintext, sender, recipients, rnd).Ok?
    ensures Sealed(curve, kdf, alg, enc, plaintext, sender, recipients, rnd).Ok?
    ensures var e := ReadEnvelope(Encrypted(curve, kdf, alg, enc, plaintext, sender, recipients, rnd).value);
            && e.Ok? && e.value.ParsedJweEnvelope?
            && ParseJwe(Sealed(curve, kdf, alg, enc, plaintext, sender, recipients, rnd).value) == Ok(e.value.jwe)
            && e.value.jwe.header.alg == alg && e.value.jwe.header.enc == enc
            && e.value.jwe.apu == SkidOctets(sender) && e.value.jwe.toKids == Kids(recipients)
  {
    hide EnvelopeFromStr, Print, JweToJson, ParseJwe, VerifyDidcomm, Sealed, ProtectedFor, Apv, Kids, SkidOctets,
         Base64Url.Encode;
    ParsedSealed(curve, kdf, alg, enc, plaintext, sender, recipients, rnd);
    JweDecodes(Sealed(curve, kdf, alg, enc, plaintext, sender, recipients, rnd).value);
  }

  /** The recipients of a message encrypted for the keys that a document gives for these key ids. */
  lemma {:induction false} ChosenKey(doc: Document, kids: seq<string>, missing: ErrorKind, alg: KeyAlg, kid: string)
    requires Materials(doc, kids, missing).Ok?
    requires kid in Kids(WithAlg(Materials(doc, kids, missing).value, alg))
    ensures FindMethod(doc.methods, kid).Some? && FindMethod(doc.methods, kid).value.key.Some?
    ensures FindNamed(WithAlg(Materials(doc, kids, missing).value, alg), kid) == FindMethod(doc.methods, kid).value.key
  {
    if kids != [] {
      var keys := Materials(doc, kids, missing).value;
      assert keys[1..] == Materials(doc, kids[1..], missing).value;
      var all, rest := WithAlg(keys, alg), WithAlg(keys[1..], alg);
      FindMethodId(doc.methods, kids[0]);
      if HasAlg(keys[0], alg) {
        assert all[1..] == rest && Kids(all) == [kids[0]] + Kids(rest);
        if kid != kids[0] {
          ChosenKey(doc, kids[1..], missing, alg, kid);
        }
      } else {
        assert all == rest;
        ChosenKey(doc, kids[1..], missing, alg, kid);
      }
    }
  }

  /** The holder of a chosen key is entitled to open the message. */
  lemma OwnerEntitled(to: string, resolver: Resolver, limit: nat, missing: ErrorKind, alg: KeyAlg, mine: Secrets,
                      kid: string)
    requires RecipientKeys(to, resolver, limit, missing).Ok?
    requires kid in Kids(WithAlg(RecipientKeys(to, resolver, limit, missing).value, alg))
    requires Owns(resolver, mine, kid) && DidOrUrl(kid).0 == DidOrUrl(to).0
    ensures Entitled(WithAlg(RecipientKeys(to, resolver, limit, missing).value, alg), Named(kid, mine[kid]))
    ensures mine[kid].alg == alg
  {
    hide Materials, WithAlg, FindMethod, DidOrUrl, FindNamed;
    var doc := resolver[DidOrUrl(to).0];
    var kids := FilterKid(doc.keyAgreement, DidOrUrl(to).1);
    ChosenKey(doc, kids, missing, alg, kid);
    ChosenKids(doc, kids, missing, alg);
    AllWithAlgElements(Kids(WithAlg(Materials(doc, kids, missing).value, alg)), doc, kids, alg);
  }

  predicate AllEntitled(recipients: seq<Named>, held: seq<string>, mine: Secrets, alg: KeyAlg) {
    forall k :: k in held ==> k in mine && mine[k].alg == alg && Entitled(recipients, Named(k, mine[k]))
  }

  /** Each held key of a recipient opens an anonymous layer, one key or all of them. */
  lemma {:induction false} AnonOpens(curve: KeyAlg, enc: EncAlgorithm, plaintext: bytes, recipients: seq<Named>,
                                     rnd: Fresh, p: ParsedJwe, held: seq<string>, mine: Secrets, allKeys: bool)
    requires AnonAlg(enc).Some? && CanAgree(curve) && Standard(EcdhEsA256Kw, enc) && p.header.enc == enc
    requires Sealed(curve, EcdhEs, EcdhEsA256Kw, enc, plaintext, None, recipients, rnd).Ok?
    requires ParseJwe(Sealed(curve, EcdhEs, EcdhEsA256Kw, enc, plaintext, None, recipients, rnd).value) == Ok(p)
    requires held != [] && AllEntitled(recipients, held, mine, curve)
    ensures AnonPayload(p, held, mine, allKeys) == Ok(Some(plaintext))
  {
    hide Decrypted, ParseJwe, Sealed, Entitled;
    var k := held[0];
    DecryptExact(curve, EcdhEs, EcdhEsA256Kw, enc, plaintext, None, recipients, rnd, None, Named(k, mine[k]));
    if |held| > 1 {
      AnonOpens(curve, enc, plaintext, recipients, rnd, p, held[1..], mine, allKeys);
    } else {
      assert held[1..] == [];
    }
  }

  /** Each held key of a recipient opens an authenticated layer, if the budget allows. */
  lemma {:induction false} AuthOpens(curve: KeyAlg, plaintext: bytes, sender: Named, recipients: seq<Named>,
                                     rnd: Fresh, p: ParsedJwe, key: Key, held: seq<string>, mine: Secrets, o: Options,
                                     count: nat)
    requires CanAgree(curve) && p.header.enc == A256CbcHs512 && sender.key.alg == curve && SameKey(sender.key, key)
    requires Sealed(curve, Ecdh1Pu, Ecdh1PuA256Kw, A256CbcHs512, plaintext, Some(sender), recipients, rnd).Ok?
    requires ParseJwe(Sealed(curve, Ecdh1Pu, Ecdh1PuA256Kw, A256CbcHs512, plaintext, Some(sender), recipients,
                             rnd).value) == Ok(p)
    requires held != [] && AllEntitled(recipients, held, mine, curve)
    requires count + (if o.allKeys then |held| else 1) < o.limit
    ensures AuthPayload(p, Some(sender.kid), Some(key), held, mine, o, count) == Ok(Some(plaintext))
  {
    hide Decrypted, ParseJwe, Sealed, Entitled;
    var k := held[0];
    DecryptExact(curve, Ecdh1Pu, Ecdh1PuA256Kw, A256CbcHs512, plaintext, Some(sender), recipients, rnd,
                 Some(Named(sender.kid, key)), Named(k, mine[k]));
    if o.allKeys && |held| > 1 {
      AuthOpens(curve, plaintext, sender, recipients, rnd, p, key, held[1..], mine, o, count + 1);
    } else if |held| == 1 {
      assert held[1..] == [];
    }
  }

  /** The wallet can open a message for these recipients: the key ids are of one DID, at least one is
      held, and each one that is held is entitled. */
  predicate Receives(recipients: seq<Named>, mine: Secrets, alg: KeyAlg) {
    var held := FindSecrets(mine, Kids(recipients));
    OneDid(Kids(recipients)) && held != [] && AllEntitled(recipients, held, mine, alg)
  }

  /** An anonymous layer is recognised and peeled. */
  lemma AnonLayer(curve: KeyAlg, enc: EncAlgorithm, plaintext: bytes, recipients: seq<Named>, rnd: Fresh, mine: Secrets,
                  text: string, s: State, o: Options)
    requires AnonAlg(enc).Some? && CanAgree(curve) && Receives(recipients, mine, curve)
    requires Encrypted(curve, EcdhEs, EcdhEsA256Kw, enc, plaintext, None, recipients, rnd) == Ok(text)
    ensures var e := ReadEnvelope(text);
            && e.Ok? && e.value.ParsedJweEnvelope?
            && e.value.jwe.apu.None? && e.value.jwe.toKids == Kids(recipients)
            && TryAnoncrypt(e.value, s, mine, o)
               == match ReadPayload(Some(plaintext))
                  case Err(kind) => Err(kind)
                  case Ok(inner) =>
                    Ok((Some(inner), s.(metadata := s.metadata.(encryptedToKids := Some(Kids(recipients)),
                                                                encrypted := true, anonymousSender := true,
                                                                    encAlgAnon := AnonAlg(enc)))))
  {
    hide Encrypted, Sealed, ParseJwe, ReadEnvelope, AnonPayload, ReadPayload, OneDid, AllEntitled, FindSecrets, Kids;
    SealedReads(curve, EcdhEs, EcdhEsA256Kw, enc, plaintext, None, recipients, rnd);
    var p := ReadEnvelope(text).value.jwe;
    var held := FindSecrets(mine, Kids(recipients));
    AnonOpens(curve, enc, plaintext, recipients, rnd, p, held, mine, o.allKeys);
  }

  /** The state after an envelope told its sender and recipients. */
  function FilledState(s: State, kid: string, key: Key, kids: seq<string>, held: seq<string>): State
    requires kids != []
  {
    var metadata := s.metadata.(authenticated := true, encrypted := true, encryptedFromKid := Some(kid),
                                encryptedToKids := Some(kids));
    State(metadata, Some(kid), Some(DidOrUrl(kid).0), Some(key), Some(kids[0]), Some(DidOrUrl(kids[0]).0), held)
  }

  lemma FillOk(p: ParsedJwe, s: State, resolver: Resolver, mine: Secrets, kid: string, key: Key)
    requires p.apu == Some(Utf8(kid)) && AgreementKey(kid, resolver) == Ok(key)
    requires OneDid(p.toKids) && FindSecrets(mine, p.toKids) != []
    ensures Fill(p, s, resolver, mine) == Ok(FilledState(s, kid, key, p.toKids, FindSecrets(mine, p.toKids)))
  {
    hide AgreementKey, FindSecrets, Utf8, FromUtf8, DidOrUrl;
    Utf8RoundTrip(kid);
  }

  /** An authenticated layer is recognised and opened, whether the sender is known already or not. */
  lemma AuthLayer(curve: KeyAlg, plaintext: bytes, sender: Named, recipients: seq<Named>, rnd: Fresh,
                  resolver: Resolver, mine: Secrets, key: Key, text: string, s: State, o: Options, count: nat)
    requires CanAgree(curve) && Receives(recipients, mine, curve) && sender.key.alg == curve
    requires AgreementKey(sender.kid, resolver) == Ok(key) && SameKey(sender.key, key)
    requires Encrypted(curve, Ecdh1Pu, Ecdh1PuA256Kw, A256CbcHs512, plaintext, Some(sender), recipients, rnd)
             == Ok(text)
    requires var held := FindSecrets(mine, Kids(recipients));
             && count + (if o.allKeys then |held| else 1) < o.limit
             && (s.fromKid.None? || s == FilledState(INITIAL, sender.kid, key, Kids(recipients), held))
    ensures var e := ReadEnvelope(text);
            var held := FindSecrets(mine, Kids(recipients));
            && e.Ok? && e.value.ParsedJweEnvelope?
            && TryAnoncrypt(e.value, s, mine, o) == Ok((None, s))
            && Fill(e.value.jwe, INITIAL, resolver, mine)
               == Ok(FilledState(INITIAL, sender.kid, key, Kids(recipients), held))
            && var t := if s.fromKid.None? then FilledState(s, sender.kid, key, Kids(recipients), held) else s;
               TryAuthcrypt(e.value, s, resolver, mine, o, count)
               == match ReadPayload(Some(plaintext))
                  case Err(kind) => Err(kind)
                  case Ok(inner) =>
                    Ok((Some(inner), t.(metadata := t.metadata.(encAlgAuth := Some(A256CbcHs512Ecdh1Pu)))))
  {
    hide Encrypted, Sealed, ParseJwe, ReadEnvelope, AuthPayload, ReadPayload, OneDid, AllEntitled, FindSecrets, Kids,
         AgreementKey, Fill, SameKey, Utf8, DidOrUrl;
    SealedReads(curve, Ecdh1Pu, Ecdh1PuA256Kw, A256CbcHs512, plaintext, Some(sender), recipients, rnd);
    var p := ReadEnvelope(text).value.jwe;
    var held := FindSecrets(mine, Kids(recipients));
    FillOk(p, s, resolver, mine, sender.kid, key);
    FillOk(p, INITIAL, resolver, mine, sender.kid, key);
    AuthOpens(curve, plaintext, sender, recipients, rnd, p, key, held, mine, o, count);
  }

  // ----- What is inside the encryption -----

  /** If the message is itself a Forward message, it is to a hop that the wallet can tell to be another's. */
  ghost predicate NotForMe(m: Message, resolver: Resolver, mine: Secrets) {
    forall next, j :: IsForward(TravelledMessage(m), next, j) ==>
      Addressable(next, resolver) && !HoldsKeyFor(next, resolver, mine)
  }

  lemma NotForMeStays(m: Message, resolver: Resolver, mine: Secrets)
    requires NotForMe(m, resolver, mine)
    ensures TryUnwrapForwarded(ParsedMessage(TravelledMessage(m)), resolver, mine) == Ok(None)
  {
    hide IsForward, Addressable, HoldsKeyFor, TryUnwrapForwarded, TravelledMessage;
    TryUnwrapExact(ParsedMessage(TravelledMessage(m)), resolver, mine);
  }

  /** The signed message that a text spells. */
  function SpelledJws(text: string): Option<Jws> {
    match EnvelopeFromStr(text)
    case Ok(JwsEnvelope(jws)) => Some(jws)
    case _ => None
  }

  lemma SpelledIsRead(text: string)
    requires ReadEnvelope(text).Ok? && ReadEnvelope(text).value.ParsedJwsEnvelope?
    ensures SpelledJws(text) == Some(ReadEnvelope(text).value.jws.jws)
  {
    hide EnvelopeFromStr, ParseSignHeaders, ParseJwe, VerifyDidcomm;
  }

  /** The algorithm that the wallet's key for a key id signs with. */
  function KeySignAlg(secrets: Secrets, kid: string): Option<SignAlgorithm> {
    if kid !in secrets then None
    else match SignAlgFor(secrets[kid].alg) case Ok(alg) => Some(alg) case Err(_) => None
  }

  function WithSignature(d: Metadata, signKid: Option<string>, text: string, secrets: Secrets): Metadata {
    match signKid
    case None => d
    case Some(kid) =>
      d.(authenticated := true, nonRepudiation := true, signFrom := signKid, signAlg := KeySignAlg(secrets, kid),
         signedMessage := SpelledJws(text))
  }

  function WithPrior(d: Metadata, m: Message, resolver: Resolver): Metadata {
    match m.fromPrior
    case None => d
    case Some(jwt) =>
      match UnpackFromPrior(jwt, resolver)
      case Err(_) => d
      case Ok(prior) => d.(fromPrior := Some(prior.0), fromPriorIssuerKid := Some(prior.1))
  }

  /** The metadata after the content: who signed, how and what, and the earlier DID. */
  function ContentMetadata(d: Metadata, m: Message, signKid: Option<string>, text: string, resolver: Resolver,
                           secrets: Secrets): Metadata
  {
    WithPrior(WithSignature(d, signKid, text, secrets), m, resolver)
  }

  lemma PlainFinishes(m: Message, s: State, resolver: Resolver)
    requires m.fromPrior.Some? ==> UnpackFromPrior(m.fromPrior.value, resolver).Ok?
    ensures var plain := TryPlaintext(ParsedMessage(TravelledMessage(m)), s, resolver);
            if m.typ == PLAINTEXT_TYP then
              plain == Ok((Some(TravelledMessage(m)), s.(metadata := WithPrior(s.metadata, m, resolver))))
            else plain == Err(Malformed)
  {
    hide UnpackFromPrior, AllTravelled;
  }

  /** The signature and plaintext steps recover the message with exactly the metadata of its content, and
      fail exactly on a `typ` that packing let pass and unpacking refuses. */
  lemma ContentFinishes(m: Message, signBy: Option<string>, resolver: Resolver, secrets: Secrets, mine: Secrets,
                        text: string, signKid: Option<string>, s: State)
    requires WellFormed(m) && Inner(m, signBy, resolver, secrets) == Ok((text, signKid))
    requires signKid.Some? ==> signKid.value in secrets && Publishes(resolver, signKid.value, secrets[signKid.value])
    ensures var e := ReadPayload(Some(Utf8(text)));
            && e.Ok? && !e.value.ParsedJweEnvelope?
            && (signKid.Some? || NotForMe(m, resolver, mine) ==>
                  TryUnwrapForwarded(e.value, resolver, mine) == Ok(None))
            && FinishContent(e.value, s, resolver)
               == (if m.typ == PLAINTEXT_TYP then
                     Ok((TravelledMessage(m), ContentMetadata(s.metadata, m, signKid, text, resolver, secrets)))
                   else Err(Malformed))
  {
    hide ReadEnvelope, WellFormed, PackPlaintext, PackSigned, TrySign, TryPlaintext, TravelledMessage, UnpackFromPrior,
         Publishes, TryUnwrapForwarded, Utf8, FromUtf8, SignAlgFor, SpelledJws, WithPrior, NotForMe;
    Utf8RoundTrip(text);
    if signBy.Some? {
      SignedReads(m, signBy.value, resolver, secrets, s);
      PriorChecked(m, signBy.value, resolver, secrets);
      SpelledIsRead(text);
      var sign := TrySign(ReadEnvelope(text).value, s, resolver).value;
      assert sign.1 == s.(metadata := WithSignature(s.metadata, signKid, text, secrets));
      PlainFinishes(m, sign.1, resolver);
      ForwardOnlyInMessages(ReadEnvelope(text).value, resolver, mine);
    } else {
      PlainReads(m, resolver);
      if NotForMe(m, resolver, mine) {
        NotForMeStays(m, resolver, mine);
      }
      SignOnlyJws(ReadEnvelope(text).value, s, resolver);
      PlainFinishes(m, s, resolver);
    }
  }

  lemma PriorChecked(m: Message, signBy: string, resolver: Resolver, secrets: Secrets)
    requires PackSigned(m, signBy, resolver, secrets).Ok?
    ensures m.fromPrior.Some? ==> UnpackFromPrior(m.fromPrior.value, resolver).Ok?
  {
    hide UnpackFromPrior, SigningKid, Sign, Print, DidOrUrl;
  }

  lemma ForwardOnlyInMessages(e: ParsedEnvelope, resolver: Resolver, mine: Secrets)
    requires !e.ParsedMessage?
    ensures TryUnwrapForwarded(e, resolver, mine) == Ok(None)
  {
  }

  lemma SignOnlyJws(e: ParsedEnvelope, s: State, resolver: Resolver)
    requires !e.ParsedJwsEnvelope?
    ensures TrySign(e, s, resolver) == Ok((None, s))
  {
  }

  // ----- The layers together -----

  /** The budget that unpacking needs when it tries `held` keys on an authenticated layer. */
  predicate Affordable(o: Options, held: nat) {
    1 + (if o.allKeys then held else 1) < o.limit
  }

  /** The metadata of an anonymous, an authenticated and a protected message before its content. */
  function AnonMetadata(kids: seq<string>, alg: AnonCryptAlg): Metadata {
    NO_METADATA.(encrypted := true, anonymousSender := true, encryptedToKids := Some(kids), encAlgAnon := Some(alg))
  }

  function AuthMetadata(fromKid: string, kids: seq<string>): Metadata {
    NO_METADATA.(encrypted := true, authenticated := true, encryptedFromKid := Some(fromKid),
                 encryptedToKids := Some(kids), encAlgAuth := Some(A256CbcHs512Ecdh1Pu))
  }

  function ProtectedMetadata(fromKid: string, kids: seq<string>, alg: AnonCryptAlg): Metadata {
    AuthMetadata(fromKid, kids).(anonymousSender := true, encAlgAnon := Some(alg))
  }

  lemma OpenedAnon(e: ParsedEnvelope, text: string, kids: seq<string>, resolver: Resolver, mine: Secrets)
    requires ReadEnvelope(text) == Ok(e) && e.ParsedJweEnvelope? && e.jwe.apu.None? && e.jwe.toKids == kids
    requires OneDid(kids) && FindSecrets(mine, kids) != []
    ensures var r := Opened(text, resolver, mine);
            && r.Ok? && r.value.0 == e && r.value.1.fromKid.None?
            && r.value.1.metadata == NO_METADATA.(anonymousSender := true, encryptedToKids := Some(kids))
  {
    hide ReadEnvelope, OneDid, FindSecrets, DidOrUrl;
  }

  /** An anonymous message is opened and its layer peeled, and what is in it is not followed further. */
  lemma AnonPeels(curve: KeyAlg, alg: AnonCryptAlg, plaintext: bytes, recipients: seq<Named>, rnd: Fresh,
                  resolver: Resolver, mine: Secrets, text: string, o: Options, e: ParsedEnvelope)
    requires CanAgree(curve) && Receives(recipients, mine, curve) && o.limit >= 2
    requires Encrypted(curve, EcdhEs, EcdhEsA256Kw, AnonEnc(alg), plaintext, None, recipients, rnd) == Ok(text)
    requires ReadPayload(Some(plaintext)) == Ok(e)
    requires o.unwrapForward ==> TryUnwrapForwarded(e, resolver, mine) == Ok(None)
    ensures exists s :: && UnpackString(text, resolver, mine, o) == Finish(Peeled(e, s, 1), resolver, mine, o)
                        && s.metadata == AnonMetadata(Kids(recipients), alg) && s.fromKid.None?
  {
    hide Encrypted, ReadEnvelope, ReadPayload, OneDid, AllEntitled, FindSecrets, Kids, TryAnoncrypt, Opened,
         Finish, TryUnwrapForwarded, CanAgree;
    var kids := Kids(recipients);
    AnonLayer(curve, AnonEnc(alg), plaintext, recipients, rnd, mine, text, INITIAL, o);
    var outer := ReadEnvelope(text).value;
    OpenedAnon(outer, text, kids, resolver, mine);
    var s0 := Opened(text, resolver, mine).value.1;
    AnonLayer(curve, AnonEnc(alg), plaintext, recipients, rnd, mine, text, s0, o);
    var s1 := TryAnoncrypt(outer, s0, mine, o).value.1;
    assert PeelForwards(outer, s0, resolver, mine, o, 0) == Ok(Peeled(e, s1, 1));
    assert s1.metadata == AnonMetadata(kids, alg);
  }

  /** An anonymous message unpacks to its content. */
  lemma AnonUnpacks(curve: KeyAlg, alg: AnonCryptAlg, plaintext: bytes, recipients: seq<Named>, rnd: Fresh,
                    resolver: Resolver, mine: Secrets, text: string, o: Options, e: ParsedEnvelope)
    requires CanAgree(curve) && Receives(recipients, mine, curve) && o.limit >= 2
    requires Encrypted(curve, EcdhEs, EcdhEsA256Kw, AnonEnc(alg), plaintext, None, recipients, rnd) == Ok(text)
    requires ReadPayload(Some(plaintext)) == Ok(e) && !e.ParsedJweEnvelope?
    requires o.unwrapForward ==> TryUnwrapForwarded(e, resolver, mine) == Ok(None)
    ensures exists s :: && UnpackString(text, resolver, mine, o) == FinishContent(e, s, resolver)
                        && s.metadata == AnonMetadata(Kids(recipients), alg)
  {
    hide Encrypted, ReadPayload, Receives, UnpackString, FinishContent, TryUnwrapForwarded, CanAgree, AnonMetadata;
    AnonPeels(curve, alg, plaintext, recipients, rnd, resolver, mine, text, o, e);
    var s :| UnpackString(text, resolver, mine, o) == Finish(Peeled(e, s, 1), resolver, mine, o)
             && s.metadata == AnonMetadata(Kids(recipients), alg);
    assert UnpackString(text, resolver, mine, o) == FinishContent(e, s, resolver);
  }

  /** An authenticated message unpacks to its content. */
  lemma AuthUnpacks(curve: KeyAlg, plaintext: bytes, sender: Named, recipients: seq<Named>, rnd: Fresh,
                    resolver: Resolver, mine: Secrets, key: Key, text: string, o: Options, e: ParsedEnvelope)
    requires CanAgree(curve) && Receives(recipients, mine, curve) && sender.key.alg == curve
    requires AgreementKey(sender.kid, resolver) == Ok(key) && SameKey(sender.key, key)
    requires Affordable(o, |FindSecrets(mine, Kids(recipients))|)
    requires Encrypted(curve, Ecdh1Pu, Ecdh1PuA256Kw, A256CbcHs512, plaintext, Some(sender), recipients, rnd)
             == Ok(text)
    requires ReadPayload(Some(plaintext)) == Ok(e)
    ensures exists s :: && UnpackString(text, resolver, mine, o) == FinishContent(e, s, resolver)
                        && s.metadata == AuthMetadata(sender.kid, Kids(recipients))
  {
    hide Encrypted, ReadEnvelope, ReadPayload, AllEntitled, FindSecrets, Kids, TryAnoncrypt, TryAuthcrypt,
         FinishContent, CanAgree, Fill, AgreementKey, SameKey, DidOrUrl;
    var held := FindSecrets(mine, Kids(recipients));
    var s := FilledState(INITIAL, sender.kid, key, Kids(recipients), held);
    AuthLayer(curve, plaintext, sender, recipients, rnd, resolver, mine, key, text, s, o, 1);
    var outer := ReadEnvelope(text).value;
    assert Opened(text, resolver, mine) == Ok((outer, s));
    assert PeelForwards(outer, s, resolver, mine, o, 0) == Ok(Peeled(outer, s, 1));
    var t := s.(metadata := s.metadata.(encAlgAuth := Some(A256CbcHs512Ecdh1Pu)));
    assert t.metadata == AuthMetadata(sender.kid, Kids(recipients));
  }

  /** An authenticated message inside an anonymous one unpacks to its content. */
  lemma ProtectedUnpacks(curve: KeyAlg, alg: AnonCryptAlg, plaintext: bytes, sender: Named, recipients: seq<Named>,
                         rnd: Fresh, outer: Fresh, resolver: Resolver, mine: Secrets, key: Key, inner: string,
                         text: string, o: Options, e: ParsedEnvelope)
    requires CanAgree(curve) && Receives(recipients, mine, curve) && sender.key.alg == curve
    requires AgreementKey(sender.kid, resolver) == Ok(key) && SameKey(sender.key, key)
    requires Affordable(o, |FindSecrets(mine, Kids(recipients))|)
    requires Encrypted(curve, Ecdh1Pu, Ecdh1PuA256Kw, A256CbcHs512, plaintext, Some(sender), recipients, rnd)
             == Ok(inner)
    requires Encrypted(curve, EcdhEs, EcdhEsA256Kw, AnonEnc(alg), Utf8(inner), None, recipients, outer) == Ok(text)
    requires ReadPayload(Some(plaintext)) == Ok(e)
    ensures exists s :: && UnpackString(text, resolver, mine, o) == FinishContent(e, s, resolver)
                        && s.metadata == ProtectedMetadata(sender.kid, Kids(recipients), alg)
  {
    hide Encrypted, ReadEnvelope, Receives, FindSecrets, Kids, TryAnoncrypt, TryAuthcrypt, UnpackString,
         FinishContent, TryUnwrapForwarded, CanAgree, AgreementKey, SameKey, DidOrUrl, Utf8, FromUtf8, Fill;
    var kids := Kids(recipients);
    Utf8RoundTrip(inner);
    SealedReads(curve, Ecdh1Pu, Ecdh1PuA256Kw, A256CbcHs512, plaintext, Some(sender), recipients, rnd);
    var second := ReadEnvelope(inner).value;
    ForwardOnlyInMessages(second, resolver, mine);
    AnonPeels(curve, alg, Utf8(inner), recipients, outer, resolver, mine, text, o, second);
    var s :| UnpackString(text, resolver, mine, o) == Finish(Peeled(second, s, 1), resolver, mine, o)
             && s.metadata == AnonMetadata(kids, alg) && s.fromKid.None?;
    AuthLayer(curve, plaintext, sender, recipients, rnd, resolver, mine, key, inner, s, o, 1);
    var t := TryAuthcrypt(second, s, resolver, mine, o, 1).value.1;
    assert t.metadata == ProtectedMetadata(sender.kid, kids, alg);
    assert UnpackString(text, resolver, mine, o) == FinishContent(e, t, resolver);
  }

  // ----- From the packed message -----

  /** The chosen key ids are of the recipient's DID, and the wallet holds at least one of them, and
      only keys that the recipient's document publishes. */
  predicate Reachable(resolver: Resolver, mine: Secrets, did: string, kids: seq<string>) {
    && (forall k :: k in kids ==> DidOrUrl(k) == (did, Some(k)))
    && FindSecrets(mine, kids) != []
    && (forall k :: k in FindSecrets(mine, kids) ==> Owns(resolver, mine, k))
  }

  lemma ReachableReceives(to: string, resolver: Resolver, limit: nat, missing: ErrorKind, alg: KeyAlg, mine: Secrets)
    requires RecipientKeys(to, resolver, limit, missing).Ok?
    requires Reachable(resolver, mine, DidOrUrl(to).0,
                       Kids(WithAlg(RecipientKeys(to, resolver, limit, missing).value, alg)))
    ensures Receives(WithAlg(RecipientKeys(to, resolver, limit, missing).value, alg), mine, alg)
  {
    hide RecipientKeys, WithAlg, Kids, Owns, Entitled, DidOrUrl;
    var chosen := WithAlg(RecipientKeys(to, resolver, limit, missing).value, alg);
    var held := FindSecrets(mine, Kids(chosen));
    assert held[0] in held && held[0] in Kids(chosen);
    forall k | k in held ensures k in mine && mine[k].alg == alg && Entitled(chosen, Named(k, mine[k])) {
      assert Owns(resolver, mine, k) && DidOrUrl(k).0 == DidOrUrl(to).0;
      OwnerEntitled(to, resolver, limit, missing, alg, mine, k);
    }
  }

  /** The sender key id that `authcrypt` reports, and the layers it built with it. */
  lemma AuthcryptParts(to: string, from: string, resolver: Resolver, secrets: Secrets, msg: bytes, encAlg: AnonCryptAlg,
                       protectSender: bool, limit: nat, rnd: Fresh, outer: Fresh, r: Authcrypted)
    requires Authcrypt(to, from, resolver, secrets, msg, encAlg, protectSender, limit, rnd, outer) == Ok(r)
    ensures RecipientKeys(to, resolver, limit, Malformed).Ok?
    ensures r.fromKid in secrets && DidOrUrl(from).0 in resolver
    ensures var doc := resolver[DidOrUrl(from).0];
            && r.fromKid in doc.keyAgreement && AlgOf(doc, r.fromKid) == Some(secrets[r.fromKid].alg)
    ensures CanAgree(secrets[r.fromKid].alg)
    ensures var chosen := WithAlg(RecipientKeys(to, resolver, limit, Malformed).value, secrets[r.fromKid].alg);
            && r.toKids == Kids(chosen)
            && AuthLayers(Named(r.fromKid, secrets[r.fromKid]), chosen, msg, encAlg, protectSender, rnd, outer)
               == Ok(r.text)
  {
    hide AuthLayers, WithAlg, Materials, FirstFit, DidOrUrl, Compatible, Kids, CanAgree, RecipientKeys,
         FindSecrets;
    var fromDoc, froms := resolver[DidOrUrl(from).0], Held(resolver, secrets, from);
    var toDoc, tos := resolver[DidOrUrl(to).0], Agreements(resolver, to);
    RecipientKeysExact(to, resolver, limit, Malformed);
    SenderKeysExact(from, resolver, secrets);
    FirstFitExact(fromDoc, froms, Malformed, toDoc, tos, Malformed);
    var fromKeys, toKeys := Materials(fromDoc, froms, Malformed).value, Materials(toDoc, tos, Malformed).value;
    FirstFitFits(fromKeys, toKeys);
    assert r.fromKid in froms;
  }

  lemma SenderDocumented(kid: string, resolver: Resolver, secrets: Secrets)
    requires Owns(resolver, secrets, kid) && kid in resolver[DidOrUrl(kid).0].keyAgreement
    requires CanAgree(secrets[kid].alg)
    ensures var key := AgreementKey(kid, resolver); key.Ok? && SameKey(secrets[kid], key.value)
  {
    hide DidOrUrl, FindMethod;
  }

  /** The text that was signed or is plain. */
  function ContentText(m: Message, signBy: Option<string>, resolver: Resolver, secrets: Secrets): string {
    match Inner(m, signBy, resolver, secrets)
    case Ok(content) => content.0
    case Err(_) => []
  }

  /** What the metadata must say about a message packed in this way: each field is determined. */
  predicate Describes(d: Metadata, m: Message, from: Option<string>, signBy: Option<string>, resolver: Resolver,
                      secrets: Secrets, options: PackOptions, packed: PackMetadata) {
    && d.encrypted
    && (d.authenticated <==> from.Some? || signBy.Some?)
    && (d.nonRepudiation <==> signBy.Some?)
    && (d.anonymousSender <==> from.None? || options.protectSender)
    && !d.reWrapped
    && d.encryptedFromKid == packed.fromKid
    && d.encryptedToKids == Some(packed.toKids)
    && d.encAlgAuth == (if from.Some? then Some(A256CbcHs512Ecdh1Pu) else None)
    && d.encAlgAnon == (if from.None? || options.protectSender then Some(options.forwarding.encAlgAnon) else None)
    && d.signFrom == packed.signByKid
    && d.signAlg == (if packed.signByKid.Some? then KeySignAlg(secrets, packed.signByKid.value) else None)
    && d.signedMessage == (if signBy.Some? then SpelledJws(ContentText(m, signBy, resolver, secrets)) else None)
    && (match m.fromPrior
        case None => d.fromPrior.None? && d.fromPriorIssuerKid.None?
        case Some(jwt) =>
          var prior := UnpackFromPrior(jwt, resolver);
          prior.Ok? && d.fromPrior == Some(prior.value.0) && d.fromPriorIssuerKid == Some(prior.value.1))
  }

  /** The premises of the round trip: documents and wallets that agree on the keys in use, a budget for
      the decryptions, and, if nothing but an anonymous layer is around the message, a message that
      is not itself a Forward message for the recipient. */
  ghost predicate Deliverable(m: Message, to: string, from: Option<string>, signBy: Option<string>, resolver: Resolver,
                        secrets: Secrets, mine: Secrets, packed: PackMetadata, o: Options) {
    && WellFormed(m)
    && Reachable(resolver, mine, DidOrUrl(to).0, packed.toKids)
    && (if from.Some? then Affordable(o, |FindSecrets(mine, packed.toKids)|) else o.limit >= 2)
    && (from.Some? ==> packed.fromKid.Some? && DidOrUrl(packed.fromKid.value).0 == DidOrUrl(from.value).0
                       && Owns(resolver, secrets, packed.fromKid.value))
    && (signBy.Some? ==> packed.signByKid.Some? && packed.signByKid.value in secrets
                         && Publishes(resolver, packed.signByKid.value, secrets[packed.signByKid.value]))
    && (from.None? && signBy.None? && o.unwrapForward ==> NotForMe(m, resolver, mine))
  }

  /** Encrypting a content and unpacking the result leaves the content with the metadata of its layers. */
  lemma LayersUnpack(content: string, to: string, from: Option<string>, resolver: Resolver, secrets: Secrets,
                     mine: Secrets, options: PackOptions, random: PackRandom, x: Encryption, o: Options,
                     e: ParsedEnvelope)
    requires EncryptFor(content, to, from, resolver, secrets, options, random) == Ok(x)
    requires ReadPayload(Some(Utf8(content))) == Ok(e) && !e.ParsedJweEnvelope?
    requires from.None? && o.unwrapForward ==> TryUnwrapForwarded(e, resolver, mine) == Ok(None)
    requires Reachable(resolver, mine, DidOrUrl(to).0, x.toKids)
    requires if from.Some? then Affordable(o, |FindSecrets(mine, x.toKids)|) else o.limit >= 2
    requires from.Some? ==> x.fromKid.Some? && DidOrUrl(x.fromKid.value).0 == DidOrUrl(from.value).0
                            && Owns(resolver, secrets, x.fromKid.value)
    ensures exists s :: && UnpackString(x.text, resolver, mine, o) == FinishContent(e, s, resolver)
                        && s.metadata == if from.None? then AnonMetadata(x.toKids, options.forwarding.encAlgAnon)
                                         else if options.protectSender then
                                           ProtectedMetadata(x.fromKid.value, x.toKids, options.forwarding.encAlgAnon)
                                         else AuthMetadata(x.fromKid.value, x.toKids)
    ensures from.None? <==> x.fromKid.None?
  {
    hide UnpackString, FinishContent, ReadPayload, TryUnwrapForwarded, Utf8, Encrypted, Receives, Reachable, Owns,
         WithAlg, FirstAlg, FindSecrets, Kids, DidOrUrl, CanAgree, AgreementKey, SameKey, RecipientKeys, Authcrypt,
         AnonMetadata, AuthMetadata, ProtectedMetadata;
    var alg, limit := options.forwarding.encAlgAnon, options.forwarding.limit;
    match from
    case None =>
      var toKeys := RecipientKeys(to, resolver, limit, Unsupported).value;
      var curve := FirstAlg(toKeys).value;
      ReachableReceives(to, resolver, limit, Unsupported, curve, mine);
      AnonUnpacks(curve, alg, Utf8(content), WithAlg(toKeys, curve), random.rnd, resolver, mine, x.text, o, e);
    case Some(f) =>
      var r := Authcrypt(to, f, resolver, secrets, Utf8(content), alg, options.protectSender, limit, random.rnd,
                         random.outer).value;
      AuthcryptParts(to, f, resolver, secrets, Utf8(content), alg, options.protectSender, limit, random.rnd,
                     random.outer, r);
      var sender := Named(r.fromKid, secrets[r.fromKid]);
      var curve := sender.key.alg;
      var chosen := WithAlg(RecipientKeys(to, resolver, limit, Malformed).value, curve);
      ReachableReceives(to, resolver, limit, Malformed, curve, mine);
      SenderDocumented(r.fromKid, resolver, secrets);
      var key := AgreementKey(r.fromKid, resolver).value;
      if options.protectSender {
        var inner := Encrypted(curve, Ecdh1Pu, Ecdh1PuA256Kw, A256CbcHs512, Utf8(content), Some(sender), chosen,
                               random.rnd).value;
        ProtectedUnpacks(curve, alg, Utf8(content), sender, chosen, random.rnd, random.outer, resolver, mine, key,
                         inner, x.text, o, e);
      } else {
        AuthUnpacks(curve, Utf8(content), sender, chosen, random.rnd, resolver, mine, key, x.text, o, e);
      }
  }

  /** What the recipient must get: the message, where raw `Bytes` attachments come back as `Rkyv`, and
      metadata that says exactly how it was packed; except that a `typ` other than the plaintext one,
      which packing does not look at, is refused. */
  predicate Delivered(r: Result<(Message, Metadata)>, m: Message, from: Option<string>, signBy: Option<string>,
                      resolver: Resolver, secrets: Secrets, options: PackOptions, packed: PackMetadata) {
    if m.typ == PLAINTEXT_TYP then
      && r.Ok? && r.value.0 == TravelledMessage(m)
      && Describes(r.value.1, m, from, signBy, resolver, secrets, options, packed)
    else r == Err(Malformed)
  }

  lemma InnerParts(m: Message, signBy: Option<string>, resolver: Resolver, secrets: Secrets)
    requires Inner(m, signBy, resolver, secrets).Ok?
    ensures signBy.Some? <==> Inner(m, signBy, resolver, secrets).value.1.Some?
    ensures m.fromPrior.Some? ==> UnpackFromPrior(m.fromPrior.value, resolver).Ok?
  {
    hide UnpackFromPrior, PackSigned, Print, ValidatePlaintext;
    if signBy.Some? {
      PriorChecked(m, signBy.value, resolver, secrets);
    }
  }

  /** The metadata of the layers, with that of the content, describes how the message was packed. */
  lemma LayersDescribe(m: Message, from: Option<string>, signBy: Option<string>, resolver: Resolver, secrets: Secrets,
                       options: PackOptions, packed: PackMetadata, content: (string, Option<string>), before: Metadata)
    requires Inner(m, signBy, resolver, secrets) == Ok(content) && packed.signByKid == content.1
    requires from.Some? <==> packed.fromKid.Some?
    requires before == if from.None? then AnonMetadata(packed.toKids, options.forwarding.encAlgAnon)
                       else if options.protectSender then
                         ProtectedMetadata(packed.fromKid.value, packed.toKids, options.forwarding.encAlgAnon)
                       else AuthMetadata(packed.fromKid.value, packed.toKids)
    ensures Describes(ContentMetadata(before, m, content.1, content.0, resolver, secrets), m, from, signBy, resolver,
                      secrets, options, packed)
  {
    hide Inner, UnpackFromPrior, SpelledJws, KeySignAlg;
    InnerParts(m, signBy, resolver, secrets);
    assert ContentText(m, signBy, resolver, secrets) == content.0;
  }

  /** The encrypted text, before any wrapping, delivers the message. */
  lemma EncryptedDelivers(m: Message, to: string, from: Option<string>, signBy: Option<string>, resolver: Resolver,
                          secrets: Secrets, mine: Secrets, options: PackOptions, random: PackRandom,
                          content: (string, Option<string>), x: Encryption, packed: PackMetadata, o: Options)
    requires Inner(m, signBy, resolver, secrets) == Ok(content)
    requires EncryptFor(content.0, to, from, resolver, secrets, options, random) == Ok(x)
    requires packed.fromKid == x.fromKid && packed.signByKid == content.1 && packed.toKids == x.toKids
    requires Deliverable(m, to, from, signBy, resolver, secrets, mine, packed, o)
    ensures Delivered(UnpackString(x.text, resolver, mine, o), m, from, signBy, resolver, secrets, options, packed)
  {
    hide UnpackString, FinishContent, ReadPayload, TryUnwrapForwarded, Utf8, EncryptFor, Reachable, Owns, Inner,
         Describes, WellFormed, FindSecrets, DidOrUrl, Publishes, NotForMe, TravelledMessage, ContentMetadata,
         AnonMetadata, AuthMetadata, ProtectedMetadata;
    InnerParts(m, signBy, resolver, secrets);
    ContentFinishes(m, signBy, resolver, secrets, mine, content.0, content.1, INITIAL);
    var e := ReadPayload(Some(Utf8(content.0))).value;
    LayersUnpack(content.0, to, from, resolver, secrets, mine, options, random, x, o, e);
    var s :| UnpackString(x.text, resolver, mine, o) == FinishContent(e, s, resolver)
             && s.metadata == if from.None? then AnonMetadata(x.toKids, options.forwarding.encAlgAnon)
                              else if options.protectSender then
                                ProtectedMetadata(x.fromKid.value, x.toKids, options.forwarding.encAlgAnon)
                              else AuthMetadata(x.fromKid.value, x.toKids);
    ContentFinishes(m, signBy, resolver, secrets, mine, content.0, content.1, s);
    LayersDescribe(m, from, signBy, resolver, secrets, options, packed, content, s.metadata);
  }

  /** Whole-stack round trip, for every message and every choice of sender, signer, protection and
      algorithms: what packs, and is not forwarded, delivers the message. */
  lemma PackUnpack(m: Message, to: string, from: Option<string>, signBy: Option<string>, resolver: Resolver,
                   secrets: Secrets, mine: Secrets, options: PackOptions, random: PackRandom, text: string,
                   packed: PackMetadata, o: Options)
    requires Pack(m, to, from, signBy, resolver, secrets, options, random) == Ok((text, packed))
    requires packed.messagingService.None?
    requires Deliverable(m, to, from, signBy, resolver, secrets, mine, packed, o)
    ensures Delivered(UnpackString(text, resolver, mine, o), m, from, signBy, resolver, secrets, options, packed)
  {
    hide UnpackString, Inner, EncryptFor, WrapIfNeeded, ValidatePackEncrypted, Deliverable, Delivered;
    var content := Inner(m, signBy, resolver, secrets).value;
    var x := EncryptFor(content.0, to, from, resolver, secrets, options, random).value;
    EncryptedDelivers(m, to, from, signBy, resolver, secrets, mine, options, random, content, x, packed, o);
  }

  /** Plaintext and signed messages that are not encrypted: unpacking recovers the message, says whether
      it was signed and by which key, and says nothing else. */
  lemma ContentUnpacks(m: Message, signBy: Option<string>, resolver: Resolver, secrets: Secrets, mine: Secrets,
                       text: string, signKid: Option<string>, o: Options)
    requires WellFormed(m) && Inner(m, signBy, resolver, secrets) == Ok((text, signKid)) && o.limit >= 2
    requires signKid.Some? ==> signKid.value in secrets && Publishes(resolver, signKid.value, secrets[signKid.value])
    ensures var r := UnpackString(text, resolver, mine, o);
            if m.typ == PLAINTEXT_TYP then
              r == Ok((TravelledMessage(m), ContentMetadata(NO_METADATA, m, signKid, text, resolver, secrets)))
            else r == Err(Malformed)
  {
    hide WellFormed, Inner, FinishContent, TravelledMessage, Publishes, ReadEnvelope, TryUnwrapForwarded, Utf8,
         FromUtf8, ContentMetadata;
    ContentFinishes(m, signBy, resolver, secrets, mine, text, signKid, INITIAL);
    Utf8RoundTrip(text);
    var e := ReadEnvelope(text).value;
    assert PeelForwards(e, INITIAL, resolver, mine, o, 0) == Ok(Peeled(e, INITIAL, 1));
  }
}
