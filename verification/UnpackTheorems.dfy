/** What unpacking guarantees for every text that is received, however it was made. */
module UnpackTheorems {
  import opened Wrappers
  import opened Octets
  import opened Symbols
  import opened Documents
  import opened Jwe
  import opened JweCrypto
  import opened Jws
  import opened Messages
  import opened Envelopes
  import opened Rotation
  import opened Packing
  import opened Routing
  import opened Unpacking
  import Base64Url

  // ----- Every key opens the one ciphertext -----

  /** Whoever opens an envelope, with whatever keys, finds the same plaintext in it. */
  lemma SamePlaintext(p: ParsedJwe, enc: EncAlgorithm, c1: KeyAlg, k1: Kdf, s1: Option<Named>, r1: Named, c2: KeyAlg,
                      k2: Kdf, s2: Option<Named>, r2: Named)
    requires Decrypted(p, c1, k1, enc, s1, r1).Ok? && Decrypted(p, c2, k2, enc, s2, r2).Ok?
    ensures Decrypted(p, c1, k1, enc, s1, r1) == Decrypted(p, c2, k2, enc, s2, r2)
  {
    hide Open, SealText, SealTag, Base64Url.Decode, FromJwk, DeriveKey, Unwrap, Utf8;
    OneCiphertext(p, enc, c1, k1, s1, r1);
    OneCiphertext(p, enc, c2, k2, s2, r2);
    var x, y := Decrypted(p, c1, k1, enc, s1, r1).value, Decrypted(p, c2, k2, enc, s2, r2).value;
    var text, iv := Base64Url.Decode(p.jwe.ciphertext).value, Base64Url.Decode(p.jwe.iv).value;
    var cek1 :| text == SealText(EncName(enc), cek1, iv, Utf8(p.jwe.protected), x);
    var cek2 :| text == SealText(EncName(enc), cek2, iv, Utf8(p.jwe.protected), y);
    SealBinds(EncName(enc), cek1, iv, Utf8(p.jwe.protected), x, EncName(enc), cek2, iv, Utf8(p.jwe.protected), y);
  }

  lemma OneCiphertext(p: ParsedJwe, enc: EncAlgorithm, c: KeyAlg, k: Kdf, s: Option<Named>, r: Named)
    requires Decrypted(p, c, k, enc, s, r).Ok?
    ensures var text, iv := Base64Url.Decode(p.jwe.ciphertext), Base64Url.Decode(p.jwe.iv);
            && text.Some? && iv.Some?
            && exists cek :: text.value == SealText(EncName(enc), cek, iv.value, Utf8(p.jwe.protected),
                                                    Decrypted(p, c, k, enc, s, r).value)
  {
    hide Open, SealText, SealTag, Base64Url.Decode, FromJwk, DeriveKey, Unwrap, Utf8, FindRecipient;
    var encryptedKey := Base64Url.Decode(FindRecipient(p.jwe.recipients, r.kid).value.encryptedKey).value;
    var tag := Base64Url.Decode(p.jwe.tag).value;
    var kw := DeriveKey(k, FromJwk(c, p.header.epk).value, SenderKey(s), r.key, Utf8(AlgorithmName(p.header.alg)),
                        OrEmpty(p.apu), p.apv, tag, true).value;
    var cek := Unwrap(kw, encryptedKey).value;
    OpenExact(EncName(enc), cek, Base64Url.Decode(p.jwe.iv).value, Utf8(p.jwe.protected),
              Base64Url.Decode(p.jwe.ciphertext).value, tag, Decrypted(p, c, k, enc, s, r).value);
  }

  /** If all held keys open the envelope, the payload is the one that the first key alone gives. */
  lemma {:induction false} AnonKeysAgree(p: ParsedJwe, held: seq<string>, secrets: Secrets)
    requires AnonPayload(p, held, secrets, true).Ok?
    ensures AnonPayload(p, held, secrets, false) == AnonPayload(p, held, secrets, true)
    ensures held != [] ==> AnonOne(p, held[0], secrets).Ok?
  {
    hide Decrypted, CanAgree;
    if |held| > 1 {
      AnonKeysAgree(p, held[1..], secrets);
      var k1, k2 := held[0], held[1];
      SamePlaintext(p, p.header.enc, secrets[k1].alg, EcdhEs, None, Named(k1, secrets[k1]),
                    secrets[k2].alg, EcdhEs, None, Named(k2, secrets[k2]));
    }
  }

  lemma {:induction false} AuthKeysAgree(p: ParsedJwe, fromKid: Option<string>, fromKey: Option<Key>, held: seq<string>,
                                         secrets: Secrets, o: Options, count: nat)
    requires AuthPayload(p, fromKid, fromKey, held, secrets, o.(allKeys := true), count).Ok?
    ensures AuthPayload(p, fromKid, fromKey, held, secrets, o.(allKeys := false), count)
            == AuthPayload(p, fromKid, fromKey, held, secrets, o.(allKeys := true), count)
    ensures held != [] ==> AuthOne(p, fromKid, fromKey, held[0], secrets).Ok?
  {
    hide Decrypted, CanAgree;
    if |held| > 1 {
      AuthKeysAgree(p, fromKid, fromKey, held[1..], secrets, o, count + 1);
      AuthPayloadCount(p, fromKid, fromKey, held[1..], secrets, o, count + 1, count);
      var k1, k2 := held[0], held[1];
      SamePlaintext(p, A256CbcHs512, secrets[k1].alg, Ecdh1Pu, Some(Named(fromKid.value, fromKey.value)),
                    Named(k1, secrets[k1]), secrets[k2].alg, Ecdh1Pu, Some(Named(fromKid.value, fromKey.value)),
                    Named(k2, secrets[k2]));
    }
  }

  /** With the first key only, operations spent before matter only against the limit. */
  lemma AuthPayloadCount(p: ParsedJwe, fromKid: Option<string>, fromKey: Option<Key>, held: seq<string>,
                         secrets: Secrets, o: Options, count: nat, less: nat)
    requires held != [] && less <= count && count + 1 < o.limit
    ensures AuthPayload(p, fromKid, fromKey, held, secrets, o.(allKeys := false), less)
            == AuthPayload(p, fromKid, fromKey, held, secrets, o.(allKeys := false), count)
  {
  }

  lemma AnonStepAgrees(e: ParsedEnvelope, s: State, secrets: Secrets, o: Options)
    requires TryAnoncrypt(e, s, secrets, o.(allKeys := true)).Ok?
    ensures TryAnoncrypt(e, s, secrets, o.(allKeys := false)) == TryAnoncrypt(e, s, secrets, o.(allKeys := true))
  {
    hide AnonPayload, ReadPayload, OneDid, FindSecrets;
    if e.ParsedJweEnvelope? && e.jwe.header.alg == EcdhEsA256Kw {
      AnonKeysAgree(e.jwe, FindSecrets(secrets, e.jwe.toKids), secrets);
    }
  }

  lemma AuthStepAgrees(e: ParsedEnvelope, s: State, resolver: Resolver, secrets: Secrets, o: Options, count: nat)
    requires TryAuthcrypt(e, s, resolver, secrets, o.(allKeys := true), count).Ok?
    ensures TryAuthcrypt(e, s, resolver, secrets, o.(allKeys := false), count)
            == TryAuthcrypt(e, s, resolver, secrets, o.(allKeys := true), count)
  {
    hide AuthPayload, ReadPayload, SenderKnown;
    if e.ParsedJweEnvelope? && e.jwe.header.alg == Ecdh1PuA256Kw {
      var k := SenderKnown(e.jwe, s, resolver, secrets).value;
      AuthKeysAgree(e.jwe, k.fromKid, k.fromKey, k.toKidsFound, secrets, o, count);
    }
  }

  lemma {:induction false} LoopsAgree(e: ParsedEnvelope, s: State, resolver: Resolver, secrets: Secrets, o: Options,
                                      count: nat)
    requires PeelForwards(e, s, resolver, secrets, o.(allKeys := true), count).Ok?
    ensures PeelForwards(e, s, resolver, secrets, o.(allKeys := false), count)
            == PeelForwards(e, s, resolver, secrets, o.(allKeys := true), count)
    decreases o.limit - count
  {
    hide TryAnoncrypt, TryAuthcrypt, TryUnwrapForwarded, ReadEnvelope;
    AnonStepAgrees(e, s, secrets, o);
    var step := TryAnoncrypt(e, s, secrets, o.(allKeys := true)).value;
    if step.0.Some? && o.unwrapForward {
      var forwarded := TryUnwrapForwarded(step.0.value, resolver, secrets).value;
      if forwarded.Some? {
        LoopsAgree(ReadEnvelope(forwarded.value).value, step.1.(metadata := step.1.metadata.(reWrapped := true)),
                   resolver, secrets, o, count + 1);
      }
    }
  }

  /** Asking for decryption by all keys can only make unpacking fail: whenever it succeeds, it returns
      the message and the metadata that the first key alone gives, through all layers. */
  lemma AllKeysAgree(text: string, resolver: Resolver, secrets: Secrets, o: Options)
    requires UnpackString(text, resolver, secrets, o.(allKeys := true)).Ok?
    ensures UnpackString(text, resolver, secrets, o.(allKeys := false))
            == UnpackString(text, resolver, secrets, o.(allKeys := true))
  {
    hide Opened, PeelForwards, TryAnoncrypt, TryAuthcrypt, TrySign, TryPlaintext;
    var start := Opened(text, resolver, secrets).value;
    LoopsAgree(start.0, start.1, resolver, secrets, o, 0);
    var u := PeelForwards(start.0, start.1, resolver, secrets, o.(allKeys := true), 0).value;
    AuthStepAgrees(u.envelope, u.state, resolver, secrets, o, u.count);
  }

  // ----- The budget of cryptographic operations -----

  lemma AuthOneKind(p: ParsedJwe, fromKid: Option<string>, fromKey: Option<Key>, kid: string, secrets: Secrets)
    ensures AuthOne(p, fromKid, fromKey, kid, secrets) != Err(TooManyCryptoOperations)
  {
    hide FindRecipient, Base64Url.Decode, Agree, KdfEs, Kdf1Pu, Utf8, Unwrap, Open, CanAgree, ToJwk;
  }

  /** How many decryptions the budget allows after `count` operations. */
  function Allowed(o: Options, count: nat): nat {
    if count + 1 >= o.limit then 0 else o.limit - 1 - count
  }

  /** The authcrypt step runs out of budget exactly when there are more held keys than decryptions
      allowed, and the loop gets through all that are allowed: none is allowed, or all keys are to be
      tried and those before the limit open the envelope. */
  lemma {:induction false} BudgetExact(p: ParsedJwe, fromKid: Option<string>, fromKey: Option<Key>, held: seq<string>,
                                       secrets: Secrets, o: Options, count: nat)
    ensures AuthPayload(p, fromKid, fromKey, held, secrets, o, count) == Err(TooManyCryptoOperations)
            <==> && Allowed(o, count) < |held|
                 && (Allowed(o, count) == 0
                     || (o.allKeys && forall i :: 0 <= i < Allowed(o, count) ==>
                                        AuthOne(p, fromKid, fromKey, held[i], secrets).Ok?))
  {
    hide AuthOne;
    if held != [] && count + 1 < o.limit {
      AuthOneKind(p, fromKid, fromKey, held[0], secrets);
      if o.allKeys && AuthOne(p, fromKid, fromKey, held[0], secrets).Ok? {
        BudgetExact(p, fromKid, fromKey, held[1..], secrets, o, count + 1);
        assert Allowed(o, count + 1) == Allowed(o, count) - 1;
        if forall i :: 0 <= i < Allowed(o, count + 1) && i < |held[1..]| ==>
             AuthOne(p, fromKid, fromKey, held[1..][i], secrets).Ok? {
          forall i | 0 <= i < Allowed(o, count) && i < |held|
            ensures AuthOne(p, fromKid, fromKey, held[i], secrets).Ok?
          {
            if i > 0 {
              assert held[i] == held[1..][i - 1];
            }
          }
        } else {
          var i :| 0 <= i < Allowed(o, count + 1) && i < |held[1..]|
                   && AuthOne(p, fromKid, fromKey, held[1..][i], secrets).Err?;
          assert held[i + 1] == held[1..][i];
        }
      }
    }
  }

  // ----- What the metadata says -----

  /** The state while layers are being peeled: the flags of the anonymous layers peeled so far, and a
      sender only if the envelope at hand names one that is still to be confirmed. */
  predicate Peeling(e: ParsedEnvelope, s: State) {
    var m := s.metadata;
    var anon := m.encAlgAnon.Some?;
    var jwe := e.ParsedJweEnvelope?;
    && !m.nonRepudiation && m.signFrom.None? && m.signAlg.None? && m.signedMessage.None?
    && m.encAlgAuth.None? && m.fromPrior.None? && m.fromPriorIssuerKid.None?
    && (m.reWrapped ==> anon)
    && (s.fromKid.Some? ==> jwe && e.jwe.apu.Some? && s.fromKey.Some? && !anon && m.encryptedToKids.Some?)
    && (m.authenticated <==> s.fromKid.Some?)
    && m.encryptedFromKid == s.fromKid
    && (m.encrypted <==> anon || s.fromKid.Some?)
    && (m.anonymousSender <==> anon || (jwe && e.jwe.apu.None? && m.encryptedToKids.Some?))
    && (anon ==> s.fromKid.None? && m.encryptedToKids.Some?)
    && (m.encryptedToKids.Some? ==> anon || jwe)
  }

  lemma OpenedPeeling(text: string, resolver: Resolver, secrets: Secrets)
    requires Opened(text, resolver, secrets).Ok?
    ensures Peeling(Opened(text, resolver, secrets).value.0, Opened(text, resolver, secrets).value.1)
  {
    hide ReadEnvelope, AgreementKey, OneDid, FindSecrets, FromUtf8;
  }

  lemma AnonNeedsNoApu(p: ParsedJwe, held: seq<string>, secrets: Secrets, allKeys: bool)
    requires held != [] && AnonPayload(p, held, secrets, allKeys).Ok?
    ensures p.apu.None? && AnonAlg(p.header.enc).Some?
  {
    hide FindRecipient, FromJwk, DeriveKey, Unwrap, Open, Base64Url.Decode;
  }

  lemma AnonStepPeeling(e: ParsedEnvelope, s: State, secrets: Secrets, o: Options)
    requires Peeling(e, s) && TryAnoncrypt(e, s, secrets, o).Ok?
    ensures var r := TryAnoncrypt(e, s, secrets, o).value;
            match r.0
            case None => r.1 == s
            case Some(inner) => Peeling(inner, r.1) && r.1.metadata.encAlgAnon.Some?
                                && Peeling(inner, r.1.(metadata := r.1.metadata.(reWrapped := true)))
  {
    hide AnonPayload, ReadPayload, OneDid, FindSecrets;
    if TryAnoncrypt(e, s, secrets, o).value.0.Some? {
      AnonNeedsNoApu(e.jwe, FindSecrets(secrets, e.jwe.toKids), secrets, o.allKeys);
    }
  }

  /** A peeled state with an anonymous layer fits whatever envelope comes next. */
  lemma PeelingNext(e: ParsedEnvelope, s: State, next: ParsedEnvelope)
    requires Peeling(e, s) && s.metadata.encAlgAnon.Some?
    ensures Peeling(next, s)
  {
  }

  lemma {:induction false} LoopPeeling(e: ParsedEnvelope, s: State, resolver: Resolver, secrets: Secrets, o: Options,
                                       count: nat)
    requires Peeling(e, s) && PeelForwards(e, s, resolver, secrets, o, count).Ok?
    ensures var u := PeelForwards(e, s, resolver, secrets, o, count).value; Peeling(u.envelope, u.state)
    decreases o.limit - count
  {
    hide Peeling, TryAnoncrypt, TryUnwrapForwarded, ReadEnvelope;
    AnonStepPeeling(e, s, secrets, o);
    var step := TryAnoncrypt(e, s, secrets, o).value;
    if step.0.Some? && o.unwrapForward {
      var forwarded := TryUnwrapForwarded(step.0.value, resolver, secrets).value;
      if forwarded.Some? {
        var next := ReadEnvelope(forwarded.value).value;
        var again := step.1.(metadata := step.1.metadata.(reWrapped := true));
        PeelingNext(step.0.value, again, next);
        LoopPeeling(next, again, resolver, secrets, o, count + 1);
      }
    }
  }

  /** The state after the authcrypt step: a sender is recorded exactly if it was confirmed. */
  predicate Confirmed(e: ParsedEnvelope, s: State) {
    var m := s.metadata;
    && !m.nonRepudiation && m.signFrom.None? && m.signAlg.None? && m.signedMessage.None?
    && m.fromPrior.None? && m.fromPriorIssuerKid.None?
    && (m.reWrapped ==> m.encAlgAnon.Some?)
    && (!e.ParsedJweEnvelope? ==>
          && (m.authenticated <==> m.encAlgAuth.Some?)
          && (m.encryptedFromKid.Some? <==> m.encAlgAuth.Some?)
          && (m.encrypted <==> m.encAlgAnon.Some? || m.encAlgAuth.Some?)
          && (m.anonymousSender <==> m.encAlgAnon.Some?)
          && (m.encryptedToKids.Some? <==> m.encrypted))
  }

  lemma AuthNeedsSender(p: ParsedJwe, fromKid: Option<string>, fromKey: Option<Key>, held: seq<string>,
                        secrets: Secrets, o: Options, count: nat)
    requires AuthPayload(p, fromKid, fromKey, held, secrets, o, count).Ok?
    requires AuthPayload(p, fromKid, fromKey, held, secrets, o, count).value.Some?
    ensures fromKid.Some? && fromKey.Some? && p.apu == Some(Utf8(fromKid.value))
  {
    hide FindRecipient, FromJwk, DeriveKey, Unwrap, Open, Base64Url.Decode, Utf8, CanAgree;
  }

  lemma FillKnows(p: ParsedJwe, s: State, resolver: Resolver, secrets: Secrets)
    requires p.apu.Some? && Fill(p, s, resolver, secrets).Ok?
    ensures var t := Fill(p, s, resolver, secrets).value;
            && t.fromKid.Some?
            && t.metadata == s.metadata.(authenticated := true, encrypted := true, encryptedFromKid := t.fromKid,
                                         encryptedToKids := Some(p.toKids))
  {
    hide AgreementKey, OneDid, FindSecrets, FromUtf8;
  }

  lemma AuthStepConfirms(e: ParsedEnvelope, s: State, resolver: Resolver, secrets: Secrets, o: Options, count: nat)
    requires Peeling(e, s) && TryAuthcrypt(e, s, resolver, secrets, o, count).Ok?
    ensures var r := TryAuthcrypt(e, s, resolver, secrets, o, count).value; Confirmed(OrElse(r.0, e), r.1)
  {
    hide AuthPayload, ReadEnvelope, FromUtf8, Fill;
    if e.ParsedJweEnvelope? && e.jwe.header.alg == Ecdh1PuA256Kw {
      var known := SenderKnown(e.jwe, s, resolver, secrets).value;
      AuthNeedsSender(e.jwe, known.fromKid, known.fromKey, known.toKidsFound, secrets, o, count);
      if s.fromKid.None? {
        FillKnows(e.jwe, s, resolver, secrets);
      }
    }
  }

  /** The authentication method that a signature was checked against. */
  ghost predicate SignedBy(jws: Jws, kid: string, alg: SignAlgorithm, resolver: Resolver) {
    && |jws.signatures| >= 1 && jws.signatures[0].kid == kid
    && DidOrUrl(kid).1.Some? && DidOrUrl(kid).0 in resolver
    && var doc := resolver[DidOrUrl(kid).0];
       && kid in doc.authentication
       && exists key ::
            && FindMethod(doc.methods, kid) == Some(VerificationMethod(kid, Some(key)))
            && SignKeyAlg(alg) == Ok(key.alg)
            && Base64Url.Decode(jws.signatures[0].signature)
               == Some(Signature(key, SignInput(jws.signatures[0].protected, jws.payload)))
  }

  /** The text that was signed. */
  function SignedText(jws: Jws): Option<string> {
    match Base64Url.Decode(jws.payload)
    case None => None
    case Some(b) => FromUtf8(b)
  }

  lemma SignStep(e: ParsedEnvelope, s: State, resolver: Resolver)
    requires TrySign(e, s, resolver).Ok?
    ensures var r := TrySign(e, s, resolver).value;
            match r.0
            case None => r.1 == s && !e.ParsedJwsEnvelope?
            case Some(inner) =>
              exists kid, alg, jws ::
                && SignedBy(jws, kid, alg, resolver)
                && SignedText(jws).Some? && ReadEnvelope(SignedText(jws).value) == Ok(inner)
                && r.1 == s.(metadata := s.metadata.(signAlg := Some(alg), authenticated := true,
                                                     nonRepudiation := true, signFrom := Some(kid),
                                                         signedMessage := Some(jws)))
                && e.ParsedJwsEnvelope?
  {
    hide ReadEnvelope, FromUtf8, Base64Url.Decode, SignInput, Signature, DidOrUrl, Utf8;
    if e.ParsedJwsEnvelope? {
      var p := e.jws;
      var kid, alg := p.jws.signatures[0].kid, p.headers[0].alg;
      var doc := resolver[DidOrUrl(kid).0];
      var key := SignerKey(doc, kid, alg, NoCompatibleCrypto).value;
      FindMethodId(doc.methods, kid);
      assert FindMethod(doc.methods, kid) == Some(VerificationMethod(kid, Some(key)));
      IndexOfKidRange(p.jws.signatures, kid);
      assert VerifyJws(p, kid, key) == Ok(true);
      assert SignedBy(p.jws, kid, alg, resolver);
    }
  }

  /** The metadata of every message that is returned, whoever made the text: it says "encrypted" and
      "anonymous" exactly if layers of those kinds were opened, "authenticated" exactly if a sender key
      opened an authenticated layer or a signature was verified, and names the sender, the signer and
      the earlier DID exactly in those cases. */
  predicate Sound(m: Message, d: Metadata) {
    && m.typ == PLAINTEXT_TYP
    && (d.encrypted <==> d.encAlgAnon.Some? || d.encAlgAuth.Some?)
    && (d.anonymousSender <==> d.encAlgAnon.Some?)
    && (d.authenticated <==> d.encAlgAuth.Some? || d.nonRepudiation)
    && (d.encryptedFromKid.Some? <==> d.encAlgAuth.Some?)
    && (d.encryptedToKids.Some? <==> d.encrypted)
    && (d.nonRepudiation <==> d.signFrom.Some? && d.signAlg.Some? && d.signedMessage.Some?)
    && (d.signFrom.Some? || d.signAlg.Some? || d.signedMessage.Some? ==> d.nonRepudiation)
    && (d.fromPrior.Some? <==> m.fromPrior.Some?) && (d.fromPriorIssuerKid.Some? <==> m.fromPrior.Some?)
    && (d.reWrapped ==> d.encAlgAnon.Some?)
  }

  /** The part of `Sound` that holds before the plaintext step. */
  predicate SoundLayers(d: Metadata) {
    && (d.encrypted <==> d.encAlgAnon.Some? || d.encAlgAuth.Some?)
    && (d.anonymousSender <==> d.encAlgAnon.Some?)
    && (d.authenticated <==> d.encAlgAuth.Some? || d.nonRepudiation)
    && (d.encryptedFromKid.Some? <==> d.encAlgAuth.Some?)
    && (d.encryptedToKids.Some? <==> d.encrypted)
    && (d.nonRepudiation <==> d.signFrom.Some? && d.signAlg.Some? && d.signedMessage.Some?)
    && (d.signFrom.Some? || d.signAlg.Some? || d.signedMessage.Some? ==> d.nonRepudiation)
    && d.fromPrior.None? && d.fromPriorIssuerKid.None?
    && (d.reWrapped ==> d.encAlgAnon.Some?)
  }

  lemma SignStepSound(e: ParsedEnvelope, s: State, resolver: Resolver)
    requires Confirmed(e, s) && TrySign(e, s, resolver).Ok?
    ensures var sign := TrySign(e, s, resolver).value;
            OrElse(sign.0, e).ParsedMessage? ==> SoundLayers(sign.1.metadata)
  {
    hide TrySign, SignedBy, SignedText, ReadEnvelope;
    SignStep(e, s, resolver);
  }

  lemma PlainStepSound(e: ParsedEnvelope, s: State, resolver: Resolver)
    requires e.ParsedMessage? ==> SoundLayers(s.metadata)
    requires TryPlaintext(e, s, resolver).Ok? && TryPlaintext(e, s, resolver).value.0.Some?
    ensures var plain := TryPlaintext(e, s, resolver).value; Sound(plain.0.value, plain.1.metadata)
  {
    hide UnpackFromPrior;
  }

  lemma MetadataSound(text: string, resolver: Resolver, secrets: Secrets, o: Options)
    requires UnpackString(text, resolver, secrets, o).Ok?
    ensures var r := UnpackString(text, resolver, secrets, o).value; Sound(r.0, r.1)
  {
    hide Opened, PeelForwards, TryAuthcrypt, TrySign, TryPlaintext, Peeling, Confirmed, Sound, SoundLayers;
    OpenedPeeling(text, resolver, secrets);
    var start := Opened(text, resolver, secrets).value;
    LoopPeeling(start.0, start.1, resolver, secrets, o, 0);
    var u := PeelForwards(start.0, start.1, resolver, secrets, o, 0).value;
    AuthStepConfirms(u.envelope, u.state, resolver, secrets, o, u.count);
    var auth := TryAuthcrypt(u.envelope, u.state, resolver, secrets, o, u.count).value;
    var e := OrElse(auth.0, u.envelope);
    SignStepSound(e, auth.1, resolver);
    var sign := TrySign(e, auth.1, resolver).value;
    PlainStepSound(OrElse(sign.0, e), sign.1, resolver);
  }

  /** A message reported as signed is the one that was signed: the reported signed message carries, for
      the reported key id, the signature of a key that the signer's document lists for authentication,
      over a payload that reads as exactly the returned message. */
  lemma SignedSound(text: string, resolver: Resolver, secrets: Secrets, o: Options)
    requires UnpackString(text, resolver, secrets, o).Ok?
    requires UnpackString(text, resolver, secrets, o).value.1.nonRepudiation
    ensures var r := UnpackString(text, resolver, secrets, o).value;
            && r.1.signFrom.Some? && r.1.signAlg.Some? && r.1.signedMessage.Some?
            && SignedBy(r.1.signedMessage.value, r.1.signFrom.value, r.1.signAlg.value, resolver)
            && SignedText(r.1.signedMessage.value).Some?
            && ReadEnvelope(SignedText(r.1.signedMessage.value).value) == Ok(ParsedMessage(r.0))
  {
    hide Opened, PeelForwards, TryAuthcrypt, TrySign, Peeling, Confirmed, ReadEnvelope, SignedBy, SignedText,
         UnpackFromPrior;
    OpenedPeeling(text, resolver, secrets);
    var start := Opened(text, resolver, secrets).value;
    LoopPeeling(start.0, start.1, resolver, secrets, o, 0);
    var u := PeelForwards(start.0, start.1, resolver, secrets, o, 0).value;
    AuthStepConfirms(u.envelope, u.state, resolver, secrets, o, u.count);
    var auth := TryAuthcrypt(u.envelope, u.state, resolver, secrets, o, u.count).value;
    ConfirmedUnsigned(OrElse(auth.0, u.envelope), auth.1);
    SignStep(OrElse(auth.0, u.envelope), auth.1, resolver);
  }

  lemma ConfirmedUnsigned(e: ParsedEnvelope, s: State)
    requires Confirmed(e, s)
    ensures !s.metadata.nonRepudiation
  {
  }
}
