/** The mutable envelope that unpacking fills in step by step. Each method does in place what the
    function of `Unpacking` that its contract names says. What a failed call leaves in the fields is
    not specified: the source returns at once. */
module MetaEnvelopes {
  import opened Wrappers
  import opened Octets
  import opened JsonText
  import opened Symbols
  import opened Documents
  import opened Jwe
  import opened JweCrypto
  import opened Jws
  import opened Messages
  import opened Envelopes
  import opened Rotation
  import opened Packing
  import opened Routing
  import opened U = Unpacking
  import Base64Url

  class MetaEnvelope {
    var parsed: Option<ParsedEnvelope>
    var metadata: Metadata
    var fromKid: Option<string>
    var fromDid: Option<string>
    var fromKey: Option<Key>
    var toKid: Option<string>
    var toDid: Option<string>
    var toKidsFound: seq<string>

    ghost function State(): State
      reads this
    {
      U.State.State(metadata, fromKid, fromDid, fromKey, toKid, toDid, toKidsFound)
    }

    /** `MetaEnvelope::default` */
    constructor ()
      ensures State() == INITIAL && parsed == None
    {
      parsed, metadata := None, NO_METADATA;
      fromKid, fromDid, fromKey, toKid, toDid, toKidsFound := None, None, None, None, None, [];
    }

    /** `MetaEnvelope::new` */
    static method Open(text: string, resolver: Resolver, secrets: Secrets) returns (r: Result<MetaEnvelope>)
      ensures match r
              case Err(kind) => Opened(text, resolver, secrets) == Err(kind)
              case Ok(m) =>
                fresh(m) && m.parsed.Some? && Opened(text, resolver, secrets) == Ok((m.parsed.value, m.State()))
    {
      hide ReadEnvelope, Fill;
      var m := new MetaEnvelope();
      var e :- ReadEnvelope(text);
      m.parsed := Some(e);
      if e.ParsedJweEnvelope? {
        var filled := m.FillFrom(e.jwe, resolver, secrets);
        if filled.Err? {
          return Err(filled.kind);
        }
      }
      return Ok(m);
    }

    /** `fill_envelope_from` */
    method FillFrom(p: ParsedJwe, resolver: Resolver, secrets: Secrets) returns (r: Result<()>)
      modifies this
      ensures parsed == old(parsed)
      ensures match r
              case Err(kind) => Fill(p, old(State()), resolver, secrets) == Err(kind)
              case Ok(_) => Fill(p, old(State()), resolver, secrets) == Ok(State())
    {
      hide AgreementKey, FromUtf8;
      if p.apu.Some? {
        var kid :- OkOr(FromUtf8(p.apu.value), Malformed);
        var key :- AgreementKey(kid, resolver);
        fromDid := Some(DidOrUrl(kid).0);
        fromKid := Some(kid);
        fromKey := Some(key);
        metadata := metadata.(authenticated := true);
        metadata := metadata.(encrypted := true);
        metadata := metadata.(encryptedFromKid := Some(kid));
      } else {
        metadata := metadata.(anonymousSender := true);
      }
      if p.toKids == [] {
        return Err(Malformed);
      }
      toKid := Some(p.toKids[0]);
      toDid := Some(DidOrUrl(p.toKids[0]).0);
      var _ :- Check(OneDid(p.toKids), Malformed);
      metadata := metadata.(encryptedToKids := Some(p.toKids));
      toKidsFound := FindSecrets(secrets, p.toKids);
      if toKidsFound == [] {
        return Err(SecretNotFound);
      }
      return Ok(());
    }

    /** `_try_unpack_anoncrypt` */
    method StepAnoncrypt(e: ParsedEnvelope, secrets: Secrets, o: Options) returns (r: Result<Option<ParsedEnvelope>>)
      modifies this
      ensures parsed == old(parsed)
      ensures match r
              case Err(kind) => TryAnoncrypt(e, old(State()), secrets, o) == Err(kind)
              case Ok(inner) => TryAnoncrypt(e, old(State()), secrets, o) == Ok((inner, State()))
    {
      hide ReadPayload, AnonPayload, DidOrUrl;
      if !e.ParsedJweEnvelope? || e.jwe.header.alg != EcdhEsA256Kw {
        return Ok(None);
      }
      var p := e.jwe;
      var _ :- Check(OneDid(p.toKids), Malformed);
      metadata := metadata.(encryptedToKids := Some(p.toKids));
      metadata := metadata.(encrypted := true);
      metadata := metadata.(anonymousSender := true);
      var held := FindSecrets(secrets, p.toKids);
      if held == [] {
        return Err(SecretNotFound);
      }
      var payload := AnonDecrypt(p, held, secrets, o.allKeys);
      if payload.Err? {
        return Err(payload.kind);
      }
      metadata := metadata.(encAlgAnon := AnonAlg(p.header.enc));
      var inner :- ReadPayload(payload.value);
      return Ok(Some(inner));
    }

    /** `_try_unpack_authcrypt` */
    method StepAuthcrypt(e: ParsedEnvelope, resolver: Resolver, secrets: Secrets, o: Options, present: nat)
      returns (r: Result<Option<ParsedEnvelope>>, tried: nat)
      modifies this
      ensures parsed == old(parsed)
      ensures match r
              case Err(kind) => TryAuthcrypt(e, old(State()), resolver, secrets, o, present) == Err(kind)
              case Ok(inner) => TryAuthcrypt(e, old(State()), resolver, secrets, o, present) == Ok((inner, State()))
      ensures tried > 0 ==> present + tried < o.limit
      ensures !o.allKeys ==> tried <= 1
    {
      hide ReadPayload, Fill, AuthPayload;
      tried := 0;
      if !e.ParsedJweEnvelope? || e.jwe.header.alg != Ecdh1PuA256Kw {
        return Ok(None), tried;
      }
      var p := e.jwe;
      if p.apu.Some? && fromKid.None? {
        var filled := FillFrom(p, resolver, secrets);
        if filled.Err? {
          return Err(filled.kind), tried;
        }
      }
      var payload;
      payload, tried := AuthDecrypt(p, fromKid, fromKey, toKidsFound, secrets, o, present);
      if payload.Err? {
        return Err(payload.kind), tried;
      }
      metadata := metadata.(encAlgAuth := Some(A256CbcHs512Ecdh1Pu));
      var inner := ReadPayload(payload.value);
      if inner.Err? {
        return Err(inner.kind), tried;
      }
      return Ok(Some(inner.value)), tried;
    }

    /** `_try_unpack_sign` */
    method StepSign(e: ParsedEnvelope, resolver: Resolver) returns (r: Result<Option<ParsedEnvelope>>)
      modifies this
      ensures parsed == old(parsed)
      ensures match r
              case Err(kind) => TrySign(e, old(State()), resolver) == Err(kind)
              case Ok(inner) => TrySign(e, old(State()), resolver) == Ok((inner, State()))
    {
      hide ReadEnvelope, SignerKey, VerifyJws, FromUtf8, DidOrUrl, Base64Url.Decode;
      if !e.ParsedJwsEnvelope? {
        return Ok(None);
      }
      var p := e.jws;
      var _ :- Check(|p.headers| == 1, Malformed);
      if p.jws.signatures == [] {
        return Err(InvalidState);
      }
      var alg, kid := p.headers[0].alg, p.jws.signatures[0].kid;
      var _ :- Check(DidOrUrl(kid).1.Some?, Malformed);
      var doc :- Resolve(resolver, DidOrUrl(kid).0);
      var key :- SignerKey(doc, kid, alg, NoCompatibleCrypto);
      metadata := metadata.(signAlg := Some(alg));
      var valid :- VerifyJws(p, kid, key);
      if !valid {
        return Err(Malformed);
      }
      var b :- OkOr(Base64Url.Decode(p.jws.payload), Malformed);
      var text :- OkOr(FromUtf8(b), Malformed);
      metadata := metadata.(authenticated := true);
      metadata := metadata.(nonRepudiation := true);
      metadata := metadata.(signFrom := Some(kid));
      metadata := metadata.(signedMessage := Some(p.jws));
      var inner :- ReadEnvelope(text);
      return Ok(Some(inner));
    }

    /** `_try_unpack_plaintext` */
    method StepPlaintext(e: ParsedEnvelope, resolver: Resolver) returns (r: Result<Option<Message>>)
      modifies this
      ensures parsed == old(parsed)
      ensures match r
              case Err(kind) => TryPlaintext(e, old(State()), resolver) == Err(kind)
              case Ok(m) => TryPlaintext(e, old(State()), resolver) == Ok((m, State()))
    {
      hide UnpackFromPrior;
      if !e.ParsedMessage? {
        return Ok(None);
      }
      var m :- Validate(e.message);
      if m.fromPrior.Some? {
        var prior :- UnpackFromPrior(m.fromPrior.value, resolver);
        metadata := metadata.(fromPrior := Some(prior.0));
        metadata := metadata.(fromPriorIssuerKid := Some(prior.1));
      }
      return Ok(Some(m));
    }

    /** The loop of `unpack`. */
    method UnwrapLayers(start: ParsedEnvelope, resolver: Resolver, secrets: Secrets, o: Options)
      returns (r: Result<(ParsedEnvelope, nat)>)
      modifies this
      ensures parsed == old(parsed)
      ensures match r
              case Err(kind) => PeelForwards(start, old(State()), resolver, secrets, o, 0) == Err(kind)
              case Ok((e, count)) =>
                PeelForwards(start, old(State()), resolver, secrets, o, 0) == Ok(Peeled(e, State(), count))
    {
      hide TryAnoncrypt, TryUnwrapForwarded, ReadEnvelope;
      var e, count := start, 0;
      while true
        invariant parsed == old(parsed)
        invariant PeelForwards(e, State(), resolver, secrets, o, count)
                  == PeelForwards(start, old(State()), resolver, secrets, o, 0)
        decreases o.limit - count
      {
        count := count + 1;
        if count >= o.limit {
          return Err(TooManyCryptoOperations);
        }
        var step := StepAnoncrypt(e, secrets, o);
        if step.Err? {
          return Err(step.kind);
        }
        if o.unwrapForward && step.value.Some? {
          var forwarded :- TryUnwrapForwarded(step.value.value, resolver, secrets);
          if forwarded.Some? {
            metadata := metadata.(reWrapped := true);
            e :- ReadEnvelope(forwarded.value);
            continue;
          }
        }
        e := OrElse(step.value, e);
        break;
      }
      return Ok((e, count));
    }

    /** `Message::unpack` */
    method UnpackMessage(resolver: Resolver, secrets: Secrets, o: Options) returns (r: Result<(Message, Metadata)>)
      modifies this
      ensures r == match old(parsed)
                   case None => Err(InvalidState)
                   case Some(e) => Unpack(e, old(State()), resolver, secrets, o)
    {
      hide PeelForwards, TryAuthcrypt, TrySign, TryPlaintext;
      if parsed.None? {
        return Err(InvalidState);
      }
      var loop := UnwrapLayers(parsed.value, resolver, secrets, o);
      if loop.Err? {
        return Err(loop.kind);
      }
      var e := loop.value.0;
      var auth, _ := StepAuthcrypt(e, resolver, secrets, o, loop.value.1);
      if auth.Err? {
        return Err(auth.kind);
      }
      e := OrElse(auth.value, e);
      var sign := StepSign(e, resolver);
      if sign.Err? {
        return Err(sign.kind);
      }
      e := OrElse(sign.value, e);
      var plain := StepPlaintext(e, resolver);
      if plain.Err? {
        return Err(plain.kind);
      }
      var m :- OkOr(plain.value, Malformed);
      return Ok((m, metadata));
    }

    /** `Message::unpack_string` */
    static method UnpackText(text: string, resolver: Resolver, secrets: Secrets, o: Options)
      returns (r: Result<(Message, Metadata)>)
      ensures r == UnpackString(text, resolver, secrets, o)
    {
      hide Opened, Unpack;
      var m := Open(text, resolver, secrets);
      if m.Err? {
        return Err(m.kind);
      }
      r := m.value.UnpackMessage(resolver, secrets, o);
    }
  }
}
