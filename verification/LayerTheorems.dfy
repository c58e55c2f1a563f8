/** The layers behind the metadata, for every text that unpacks, whoever made it: each anonymous layer was
    decrypted with a key of the wallet, an authenticated layer with such a key and the key that the
    reported sender's document gives, and what they held is what was returned. */
module LayerTheorems {
  import opened Wrappers
  import opened Octets
  import opened JsonText
  import opened Symbols
  import opened Documents
  import opened Jwe
  import opened JweCrypto
  import opened Messages
  import opened Envelopes
  import opened Rotation
  import opened Packing
  import opened Routing
  import opened Unpacking
  import opened Forwarding
  import opened Parties
  import opened UnpackTheorems

  // ----- Anonymous layers -----

  /** Some key of the wallet, for a key id that the envelope names, decrypts it to this payload. */
  predicate AnonOpened(p: ParsedJwe, payload: bytes, secrets: Secrets) {
    && p.header.alg == EcdhEsA256Kw
    && exists k :: && k in secrets && k in p.toKids
                   && Decrypted(p, secrets[k].alg, EcdhEs, p.header.enc, None, Named(k, secrets[k])) == Ok(payload)
  }

  /** The payload is the text of the next envelope, or of a Forward message for a key of the wallet that
      carries it. */
  ghost predicate HeldIn(payload: bytes, next: ParsedEnvelope, resolver: Resolver, secrets: Secrets) {
    || ReadPayload(Some(payload)) == Ok(next)
    || exists m, hop, j :: && ReadPayload(Some(payload)) == Ok(ParsedMessage(m)) && IsForward(m, hop, j)
                           && HoldsKeyFor(hop, resolver, secrets) && ReadEnvelope(Print(j)) == Ok(next)
  }

  lemma ForwardHeld(payload: bytes, e: ParsedEnvelope, text: string, next: ParsedEnvelope, resolver: Resolver,
                    secrets: Secrets)
    requires ReadPayload(Some(payload)) == Ok(e) && TryUnwrapForwarded(e, resolver, secrets) == Ok(Some(text))
    requires ReadEnvelope(text) == Ok(next)
    ensures HeldIn(payload, next, resolver, secrets)
  {
    hide ReadPayload, ReadEnvelope, TryParseForward, IsForward, HoldsKeyFor, Addressable, HasAgreementSecret, Print;
    var f := TryParseForward(e.message).value;
    TryParseForwardExact(e.message, f.next, f.forwarded);
    HasAgreementSecretExact(f.next, resolver, secrets);
    assert IsForward(e.message, f.next, f.forwarded) && HoldsKeyFor(f.next, resolver, secrets);
  }

  ghost predicate PeelsTo(e: ParsedEnvelope, next: ParsedEnvelope, alg: Option<AnonCryptAlg>, resolver: Resolver,
                          secrets: Secrets)
  {
    && e.ParsedJweEnvelope? && alg.Some? && alg == AnonAlg(e.jwe.header.enc)
    && exists payload :: AnonOpened(e.jwe, payload, secrets) && HeldIn(payload, next, resolver, secrets)
  }

  /** `last` is reached from `e` by opening `n` anonymous layers, the innermost with `alg`. */
  ghost predicate Reaches(e: ParsedEnvelope, last: ParsedEnvelope, alg: Option<AnonCryptAlg>, n: nat,
                          resolver: Resolver, secrets: Secrets)
    decreases n
  {
    if n == 0 then e == last && alg.None?
    else
      exists next, a :: && PeelsTo(e, next, a, resolver, secrets)
                        && (if n == 1 then next == last && a == alg
                            else Reaches(next, last, alg, n - 1, resolver, secrets))
  }

  lemma AnonPayloadOpened(p: ParsedJwe, secrets: Secrets, allKeys: bool)
    requires p.header.alg == EcdhEsA256Kw
    requires var held := FindSecrets(secrets, p.toKids);
             held != [] && AnonPayload(p, held, secrets, allKeys).Ok?
    ensures var held := FindSecrets(secrets, p.toKids);
            var r := AnonPayload(p, held, secrets, allKeys).value;
            r.Some? && AnonOpened(p, r.value, secrets) && AnonAlg(p.header.enc).Some?
  {
    hide Decrypted;
    var held := FindSecrets(secrets, p.toKids);
    var k := held[0];
    assert k in held;
    if allKeys {
      AnonKeysAgree(p, held, secrets);
    }
    assert AnonOne(p, k, secrets).Ok?;
    assert AnonPayload(p, held, secrets, false) == Ok(Some(AnonOne(p, k, secrets).value));
  }

  /** One step of the loop that peels a layer. */
  lemma StepOpens(e: ParsedEnvelope, s: State, secrets: Secrets, o: Options)
    requires TryAnoncrypt(e, s, secrets, o).Ok? && TryAnoncrypt(e, s, secrets, o).value.0.Some?
    ensures e.ParsedJweEnvelope?
    ensures var r := TryAnoncrypt(e, s, secrets, o).value;
            && r.1.metadata.encAlgAnon == AnonAlg(e.jwe.header.enc) && AnonAlg(e.jwe.header.enc).Some?
            && exists payload :: AnonOpened(e.jwe, payload, secrets) && ReadPayload(Some(payload)) == Ok(r.0.value)
  {
    hide AnonPayload, AnonOpened, ReadEnvelope, FromUtf8, OneDid, FindSecrets;
    AnonPayloadOpened(e.jwe, secrets, o.allKeys);
  }

  lemma ReachNext(e: ParsedEnvelope, next: ParsedEnvelope, a: Option<AnonCryptAlg>, last: ParsedEnvelope,
                  alg: Option<AnonCryptAlg>, n: nat, resolver: Resolver, secrets: Secrets)
    requires PeelsTo(e, next, a, resolver, secrets)
    requires if n == 0 then next == last && a == alg else Reaches(next, last, alg, n, resolver, secrets)
    ensures Reaches(e, last, alg, n + 1, resolver, secrets)
  {
    hide PeelsTo;
  }

  /** The loop ends at an envelope that it reached by opening anonymous layers; if it opened any, the
      metadata names the algorithm of the innermost. */
  lemma {:induction false} LoopReaches(e: ParsedEnvelope, s: State, resolver: Resolver, secrets: Secrets, o: Options,
                                       count: nat) returns (n: nat)
    requires PeelForwards(e, s, resolver, secrets, o, count).Ok?
    ensures var u := PeelForwards(e, s, resolver, secrets, o, count).value;
            if n == 0 then u.envelope == e && u.state.metadata == s.metadata
            else u.state.metadata.encAlgAnon.Some?
                 && Reaches(e, u.envelope, u.state.metadata.encAlgAnon, n, resolver, secrets)
    decreases o.limit - count
  {
    hide TryAnoncrypt, TryUnwrapForwarded, ReadEnvelope, ReadPayload, AnonOpened, Reaches;
    var step := TryAnoncrypt(e, s, secrets, o).value;
    AnonStepKeeps(e, s, secrets, o);
    if step.0.None? {
      n := 0;
    } else {
      StepOpens(e, s, secrets, o);
      var alg := step.1.metadata.encAlgAnon;
      var payload :| AnonOpened(e.jwe, payload, secrets) && ReadPayload(Some(payload)) == Ok(step.0.value);
      var u := PeelForwards(e, s, resolver, secrets, o, count).value;
      if o.unwrapForward && TryUnwrapForwarded(step.0.value, resolver, secrets).value.Some? {
        var next := ReadEnvelope(TryUnwrapForwarded(step.0.value, resolver, secrets).value.value).value;
        ForwardHeld(payload, step.0.value, TryUnwrapForwarded(step.0.value, resolver, secrets).value.value, next,
                    resolver, secrets);
        assert PeelsTo(e, next, alg, resolver, secrets);
        var again := step.1.(metadata := step.1.metadata.(reWrapped := true));
        var more := LoopReaches(next, again, resolver, secrets, o, count + 1);
        ReachNext(e, next, alg, u.envelope, u.state.metadata.encAlgAnon, more, resolver, secrets);
        n := more + 1;
      } else {
        assert HeldIn(payload, u.envelope, resolver, secrets);
        assert PeelsTo(e, u.envelope, alg, resolver, secrets);
        ReachNext(e, u.envelope, alg, u.envelope, alg, 0, resolver, secrets);
        n := 1;
      }
    }
  }

  lemma AnonStepKeeps(e: ParsedEnvelope, s: State, secrets: Secrets, o: Options)
    requires TryAnoncrypt(e, s, secrets, o).Ok?
    ensures TryAnoncrypt(e, s, secrets, o).value.0.None? ==> TryAnoncrypt(e, s, secrets, o).value.1 == s
  {
  }

  /** Only the loop sets the algorithm of anonymous encryption. */
  lemma FinishKeepsAnon(u: Peeled, resolver: Resolver, secrets: Secrets, o: Options)
    requires Finish(u, resolver, secrets, o).Ok?
    ensures Finish(u, resolver, secrets, o).value.1.encAlgAnon == u.state.metadata.encAlgAnon
  {
    hide AuthPayload, ReadPayload, TrySign, UnpackFromPrior, AgreementKey, OneDid, FindSecrets, FromUtf8;
    var auth := TryAuthcrypt(u.envelope, u.state, resolver, secrets, o, u.count).value;
    SignStepKeepsAnon(OrElse(auth.0, u.envelope), auth.1, resolver);
  }

  lemma SignStepKeepsAnon(e: ParsedEnvelope, s: State, resolver: Resolver)
    requires TrySign(e, s, resolver).Ok?
    ensures var t := TrySign(e, s, resolver).value.1.metadata;
            t.encAlgAnon == s.metadata.encAlgAnon && t.encAlgAuth == s.metadata.encAlgAuth
            && t.encryptedFromKid == s.metadata.encryptedFromKid
  {
    hide SignedBy, SignedText, ReadEnvelope;
    SignStep(e, s, resolver);
  }

  /** What the returned message and metadata come from: the envelope that the loop reached. */
  ghost predicate LoopEnds(text: string, resolver: Resolver, secrets: Secrets, o: Options, u: Peeled) {
    && Opened(text, resolver, secrets).Ok?
    && var start := Opened(text, resolver, secrets).value;
       PeelForwards(start.0, start.1, resolver, secrets, o, 0) == Ok(u)
  }

  /** Every text that unpacks consists of a number of anonymous layers, each decrypted with a key of the
      wallet, around the envelope that the remaining steps finish with; the metadata reports anonymous
      encryption exactly if there is such a layer, with the algorithm of the innermost. */
  lemma AnonSound(text: string, resolver: Resolver, secrets: Secrets, o: Options)
    requires UnpackString(text, resolver, secrets, o).Ok?
    ensures exists u, n: nat ::
              && LoopEnds(text, resolver, secrets, o, u)
              && UnpackString(text, resolver, secrets, o) == Finish(u, resolver, secrets, o)
              && Reaches(Opened(text, resolver, secrets).value.0, u.envelope,
                         UnpackString(text, resolver, secrets, o).value.1.encAlgAnon, n, resolver, secrets)
              && (n == 0 <==> !UnpackString(text, resolver, secrets, o).value.1.anonymousSender)
  {
    hide Opened, PeelForwards, Finish, Reaches, Sound, Peeling;
    var start := Opened(text, resolver, secrets).value;
    var n := LoopReaches(start.0, start.1, resolver, secrets, o, 0);
    var u := PeelForwards(start.0, start.1, resolver, secrets, o, 0).value;
    FinishKeepsAnon(u, resolver, secrets, o);
    MetadataSound(text, resolver, secrets, o);
    OpenedPeeling(text, resolver, secrets);
    NoAnonYet(text, resolver, secrets);
    SoundAnon(UnpackString(text, resolver, secrets, o).value.0, UnpackString(text, resolver, secrets, o).value.1);
    if n == 0 {
      ReachNone(u.envelope, resolver, secrets);
    }
    assert LoopEnds(text, resolver, secrets, o, u);
  }

  lemma NoAnonYet(text: string, resolver: Resolver, secrets: Secrets)
    requires Opened(text, resolver, secrets).Ok?
    ensures Opened(text, resolver, secrets).value.1.metadata.encAlgAnon.None?
  {
    hide ReadEnvelope, AgreementKey, OneDid, FindSecrets, FromUtf8;
  }

  lemma SoundAnon(m: Message, d: Metadata)
    requires Sound(m, d)
    ensures d.anonymousSender <==> d.encAlgAnon.Some?
  {
  }

  lemma ReachNone(e: ParsedEnvelope, resolver: Resolver, secrets: Secrets)
    ensures Reaches(e, e, None, 0, resolver, secrets)
  {
  }

  // ----- The authenticated layer -----

  /** Some key of the wallet, for a key id that the envelope names, decrypts it to this payload together
      with the key that the document of the named sender gives for it as a key agreement. */
  ghost predicate AuthOpened(p: ParsedJwe, kid: string, payload: bytes, resolver: Resolver, secrets: Secrets) {
    && p.header.alg == Ecdh1PuA256Kw && p.header.enc == A256CbcHs512 && p.apu == Some(Utf8(kid))
    && exists key, k :: && Agreed(resolver, kid, key) && k in secrets && k in p.toKids
                        && Decrypted(p, secrets[k].alg, Ecdh1Pu, A256CbcHs512, Some(Named(kid, key)),
                                     Named(k, secrets[k])) == Ok(payload)
  }

  /** The recorded sender is the one that the envelope at hand names, with its documented key, and the
      held keys are those that the envelope names. */
  predicate SenderFits(e: ParsedEnvelope, s: State, resolver: Resolver, secrets: Secrets) {
    s.fromKid.Some? ==>
      && e.ParsedJweEnvelope? && e.jwe.apu == Some(Utf8(s.fromKid.value))
      && s.fromKey.Some? && AgreementKey(s.fromKid.value, resolver) == Ok(s.fromKey.value)
      && s.toKidsFound == FindSecrets(secrets, e.jwe.toKids)
  }

  lemma FillFits(p: ParsedJwe, s: State, resolver: Resolver, secrets: Secrets)
    requires Fill(p, s, resolver, secrets).Ok? && (p.apu.Some? || s.fromKid.None?)
    ensures SenderFits(ParsedJweEnvelope(p), Fill(p, s, resolver, secrets).value, resolver, secrets)
    ensures p.apu.Some? ==> Fill(p, s, resolver, secrets).value.fromKid.Some?
  {
    hide AgreementKey, OneDid, FindSecrets, Utf8, FromUtf8;
    if p.apu.Some? {
      FromUtf8Exact(p.apu.value);
    }
  }

  lemma OpenedFits(text: string, resolver: Resolver, secrets: Secrets)
    requires Opened(text, resolver, secrets).Ok?
    ensures var start := Opened(text, resolver, secrets).value; SenderFits(start.0, start.1, resolver, secrets)
  {
    hide ReadEnvelope, Fill, SenderFits;
    var e := ReadEnvelope(text).value;
    if e.ParsedJweEnvelope? {
      FillFits(e.jwe, INITIAL, resolver, secrets);
    } else {
      InitialFits(e, resolver, secrets);
    }
  }

  lemma InitialFits(e: ParsedEnvelope, resolver: Resolver, secrets: Secrets)
    ensures SenderFits(e, INITIAL, resolver, secrets)
  {
  }

  /** Opening an anonymous layer leaves no sender; so whatever comes next, it fits. */
  lemma PeeledFits(e: ParsedEnvelope, s: State, next: ParsedEnvelope, resolver: Resolver, secrets: Secrets)
    requires Peeling(e, s) && s.metadata.encAlgAnon.Some?
    ensures SenderFits(next, s, resolver, secrets)
  {
  }

  lemma {:induction false} LoopFits(e: ParsedEnvelope, s: State, resolver: Resolver, secrets: Secrets, o: Options,
                                    count: nat)
    requires Peeling(e, s) && SenderFits(e, s, resolver, secrets)
    requires PeelForwards(e, s, resolver, secrets, o, count).Ok?
    ensures var u := PeelForwards(e, s, resolver, secrets, o, count).value;
            SenderFits(u.envelope, u.state, resolver, secrets) && Peeling(u.envelope, u.state)
    decreases o.limit - count
  {
    hide Peeling, SenderFits, TryAnoncrypt, TryUnwrapForwarded, ReadEnvelope;
    AnonStepPeeling(e, s, secrets, o);
    var step := TryAnoncrypt(e, s, secrets, o).value;
    if step.0.Some? {
      PeeledFits(step.0.value, step.1, step.0.value, resolver, secrets);
      var again := step.1.(metadata := step.1.metadata.(reWrapped := true));
      if o.unwrapForward && TryUnwrapForwarded(step.0.value, resolver, secrets).value.Some? {
        var next := ReadEnvelope(TryUnwrapForwarded(step.0.value, resolver, secrets).value.value).value;
        PeeledFits(step.0.value, again, next, resolver, secrets);
        PeelingNext(step.0.value, again, next);
        LoopFits(next, again, resolver, secrets, o, count + 1);
      }
    }
  }

  lemma AuthPayloadOpened(p: ParsedJwe, fromKid: Option<string>, fromKey: Option<Key>, resolver: Resolver,
                          secrets: Secrets, o: Options, count: nat)
    requires p.header.alg == Ecdh1PuA256Kw
    requires fromKid.Some? ==> fromKey.Some? && AgreementKey(fromKid.value, resolver) == Ok(fromKey.value)
    requires var r := AuthPayload(p, fromKid, fromKey, FindSecrets(secrets, p.toKids), secrets, o, count);
             r.Ok? && r.value.Some?
    ensures var r := AuthPayload(p, fromKid, fromKey, FindSecrets(secrets, p.toKids), secrets, o, count);
            fromKid.Some? && AuthOpened(p, fromKid.value, r.value.value, resolver, secrets)
  {
    hide Decrypted, AgreementKey, Agreed, Utf8;
    var held := FindSecrets(secrets, p.toKids);
    var k := held[0];
    assert k in held;
    if fromKid.Some? {
      AgreementKeyExact(fromKid.value, resolver);
      assert Agreed(resolver, fromKid.value, fromKey.value);
    }
    if o.allKeys {
      AuthKeysAgree(p, fromKid, fromKey, held, secrets, o, count);
      assert o == o.(allKeys := true);
    }
    assert AuthPayload(p, fromKid, fromKey, held, secrets, o.(allKeys := false), count)
           == Ok(Some(AuthOne(p, fromKid, fromKey, k, secrets).value));
    AuthNeedsSender(p, fromKid, fromKey, held, secrets, o, count);
  }

  /** What the authcrypt step opens. */
  lemma AuthStepOpens(e: ParsedEnvelope, s: State, resolver: Resolver, secrets: Secrets, o: Options, count: nat)
    requires Peeling(e, s) && SenderFits(e, s, resolver, secrets)
    requires TryAuthcrypt(e, s, resolver, secrets, o, count).Ok?
    ensures var r := TryAuthcrypt(e, s, resolver, secrets, o, count).value;
            match r.0
            case None => r.1 == s
            case Some(inner) =>
              && e.ParsedJweEnvelope? && r.1.metadata.encryptedFromKid.Some?
              && exists payload :: && AuthOpened(e.jwe, r.1.metadata.encryptedFromKid.value, payload, resolver, secrets)
                                   && ReadPayload(Some(payload)) == Ok(inner)
  {
    hide AuthPayload, AuthOpened, ReadEnvelope, FromUtf8, Utf8, Fill, AgreementKey, FindSecrets;
    if e.ParsedJweEnvelope? && e.jwe.header.alg == Ecdh1PuA256Kw {
      var known := SenderKnown(e.jwe, s, resolver, secrets).value;
      AuthNeedsSender(e.jwe, known.fromKid, known.fromKey, known.toKidsFound, secrets, o, count);
      if s.fromKid.None? {
        FillFits(e.jwe, s, resolver, secrets);
        FillKnows(e.jwe, s, resolver, secrets);
      }
      AuthPayloadOpened(e.jwe, known.fromKid, known.fromKey, resolver, secrets, o, count);
    }
  }

  lemma ContentKeepsAuth(e: ParsedEnvelope, s: State, resolver: Resolver)
    requires FinishContent(e, s, resolver).Ok?
    ensures var d := FinishContent(e, s, resolver).value.1;
            d.encAlgAuth == s.metadata.encAlgAuth && d.encryptedFromKid == s.metadata.encryptedFromKid
  {
    hide TrySign, UnpackFromPrior;
    SignStepKeepsAnon(e, s, resolver);
  }

  lemma PeelingNoAuth(e: ParsedEnvelope, s: State)
    requires Peeling(e, s)
    ensures s.metadata.encAlgAuth.None?
  {
  }

  /** Every text that unpacks as authenticated by encryption: the envelope that the loop reached was
      decrypted with a key of the wallet and the documented key of the reported sender, and the returned
      message and metadata are what its payload finishes to. */
  lemma AuthSound(text: string, resolver: Resolver, secrets: Secrets, o: Options)
    requires UnpackString(text, resolver, secrets, o).Ok?
    requires UnpackString(text, resolver, secrets, o).value.1.encAlgAuth.Some?
    ensures UnpackString(text, resolver, secrets, o).value.1.encryptedFromKid.Some?
    ensures var r := UnpackString(text, resolver, secrets, o);
            exists u, payload, s ::
              && LoopEnds(text, resolver, secrets, o, u) && u.envelope.ParsedJweEnvelope?
              && AuthOpened(u.envelope.jwe, r.value.1.encryptedFromKid.value, payload, resolver, secrets)
              && ReadPayload(Some(payload)).Ok?
              && r == FinishContent(ReadPayload(Some(payload)).value, s, resolver)
  {
    hide Opened, PeelForwards, TryAuthcrypt, FinishContent, Peeling, SenderFits, AuthOpened, ReadPayload;
    OpenedPeeling(text, resolver, secrets);
    OpenedFits(text, resolver, secrets);
    var start := Opened(text, resolver, secrets).value;
    LoopFits(start.0, start.1, resolver, secrets, o, 0);
    var u := PeelForwards(start.0, start.1, resolver, secrets, o, 0).value;
    AuthStepOpens(u.envelope, u.state, resolver, secrets, o, u.count);
    PeelingNoAuth(u.envelope, u.state);
    var auth := TryAuthcrypt(u.envelope, u.state, resolver, secrets, o, u.count).value;
    ContentKeepsAuth(OrElse(auth.0, u.envelope), auth.1, resolver);
    assert LoopEnds(text, resolver, secrets, o, u);
    var payload :| && AuthOpened(u.envelope.jwe, auth.1.metadata.encryptedFromKid.value, payload, resolver, secrets)
                   && ReadPayload(Some(payload)) == Ok(auth.0.value);
    assert UnpackString(text, resolver, secrets, o) == FinishContent(auth.0.value, auth.1, resolver);
  }
}
