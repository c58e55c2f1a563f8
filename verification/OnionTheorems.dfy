/** The onion of Forward messages: each mediator peels its own layer, learns only the next hop, and
    passes on the onion for the rest of the route, until the message that was wrapped is left. */
module OnionTheorems {
  import opened Wrappers
  import opened Octets
  import opened JsonText
  import opened Serde
  import opened Symbols
  import opened Documents
  import opened Jwe
  import opened JweCrypto
  import opened Messages
  import opened Envelopes
  import opened Packing
  import opened Routing
  import opened PackEncrypted
  import opened Unpacking
  import opened Forwarding
  import opened RoundTrip

  /** The key ids that the layer for a hop is encrypted for. */
  function HopKids(hop: string, resolver: Resolver, limit: nat): seq<string> {
    match RecipientKeys(hop, resolver, limit, Unsupported)
    case Err(_) => []
    case Ok(keys) => match FirstAlg(keys) case None => [] case Some(alg) => Kids(WithAlg(keys, alg))
  }

  /** The wallet can open the layer for this hop. */
  predicate CanPeel(hop: string, resolver: Resolver, mine: Secrets, limit: nat) {
    Reachable(resolver, mine, DidOrUrl(hop).0, HopKids(hop, resolver, limit))
  }

  /** What a layer is made of, and that the holder of the hop's keys can decrypt it. */
  lemma LayerParts(msg: string, headers: seq<Member>, next: string, hop: string, encAlg: AnonCryptAlg,
                   resolver: Resolver, limit: nat, layer: Layer, text: string, mine: Secrets)
    returns (curve: KeyAlg, recipients: seq<Named>, forward: string)
    requires WrapLayer(msg, headers, next, hop, encAlg, resolver, limit, layer) == Ok(text)
    requires SoundHeaders(headers) && CanPeel(hop, resolver, mine, limit)
    ensures CanAgree(curve) && Receives(recipients, mine, curve)
    ensures Encrypted(curve, EcdhEs, EcdhEsA256Kw, AnonEnc(encAlg), Utf8(forward), None, recipients, layer.rnd)
            == Ok(text)
    ensures Parse(msg).Some?
    ensures ReadPayload(Some(Utf8(forward)))
            == Ok(ParsedMessage(ForwardMessage(layer.id, Parse(msg).value, next, headers)))
    ensures TryParseForward(ForwardMessage(layer.id, Parse(msg).value, next, headers))
            == Some(ParsedForward(next, Parse(msg).value))
  {
    hide BuildForward, Encrypted, RecipientKeys, WithAlg, FirstAlg, Kids, Reachable, Receives, SoundHeaders, Parse,
         ForwardMessage, TryParseForward, ReadEnvelope, Utf8, FromUtf8, CanAgree, DidOrUrl;
    ForwardRoundTrip(layer.id, msg, next, headers);
    forward := BuildForward(layer.id, msg, next, headers).value;
    Utf8RoundTrip(forward);
    var keys := RecipientKeys(hop, resolver, limit, Unsupported).value;
    curve := FirstAlg(keys).value;
    recipients := WithAlg(keys, curve);
    ReachableReceives(hop, resolver, limit, Unsupported, curve, mine);
  }

  // ----- One hop -----

  /** The next hop is another's: a key id that the wallet does not hold, or a DID that resolves and of whose
      key agreements it holds none; or unpacking is told to leave Forward messages alone. */
  predicate PassesOn(next: string, resolver: Resolver, mine: Secrets, o: Options) {
    !o.unwrapForward || (Addressable(next, resolver) && !HoldsKeyFor(next, resolver, mine))
  }

  lemma ForwardFinishes(m: Message, s: State, resolver: Resolver)
    requires m.typ == PLAINTEXT_TYP && m.fromPrior.None?
    ensures FinishContent(ParsedMessage(m), s, resolver) == Ok((m, s.metadata))
  {
  }

  /** The holder of a hop's keys unpacks its layer to the Forward message that was put there. */
  lemma HopUnpacks(msg: string, headers: seq<Member>, next: string, hop: string, encAlg: AnonCryptAlg,
                   resolver: Resolver, limit: nat, layer: Layer, text: string, mine: Secrets, o: Options)
    requires WrapLayer(msg, headers, next, hop, encAlg, resolver, limit, layer) == Ok(text)
    requires SoundHeaders(headers) && CanPeel(hop, resolver, mine, limit)
    requires o.limit >= 2 && PassesOn(next, resolver, mine, o)
    ensures Parse(msg).Some?
    ensures var m := ForwardMessage(layer.id, Parse(msg).value, next, headers);
            && TryParseForward(m) == Some(ParsedForward(next, Parse(msg).value))
            && exists d: Metadata :: && UnpackString(text, resolver, mine, o) == Ok((m, d))
                                     && d.encrypted && d.anonymousSender && !d.authenticated
  {
    hide WrapLayer, SoundHeaders, CanPeel, Encrypted, Receives, ReadPayload, TryParseForward, UnpackString,
         FinishContent, HasAgreementSecret, Utf8, Parse, Kids, HoldsKeyFor, Addressable;
    HasAgreementSecretExact(next, resolver, mine);
    var curve, recipients, forward := LayerParts(msg, headers, next, hop, encAlg, resolver, limit, layer, text, mine);
    var m := ForwardMessage(layer.id, Parse(msg).value, next, headers);
    AnonUnpacks(curve, encAlg, Utf8(forward), recipients, layer.rnd, resolver, mine, text, o, ParsedMessage(m));
    var s :| UnpackString(text, resolver, mine, o) == FinishContent(ParsedMessage(m), s, resolver)
             && s.metadata == AnonMetadata(Kids(recipients), encAlg);
    ForwardFinishes(m, s, resolver);
    assert UnpackString(text, resolver, mine, o) == Ok((m, s.metadata));
  }

  // ----- The whole route -----

  /** A mediator unpacks what it gets, and sends the text of the forwarded message to the next hop. */
  function Mediate(text: string, wallet: Secrets, resolver: Resolver, o: Options): Result<ParsedForward> {
    var r :- UnpackString(text, resolver, wallet, o);
    OkOr(TryParseForward(r.0), Malformed)
  }

  /** The addresses that mediators read, and the text that the last of them sends on. */
  datatype Relayed = Relayed(nexts: seq<string>, text: string)

  function Relay(text: string, wallets: seq<Secrets>, resolver: Resolver, o: Options): Result<Relayed>
    decreases |wallets|
  {
    if wallets == [] then Ok(Relayed([], text)) else
      match Mediate(text, wallets[0], resolver, o)
      case Err(kind) => Err(kind)
      case Ok(forward) =>
        match Relay(Print(forward.forwarded), wallets[1..], resolver, o)
        case Err(kind) => Err(kind)
        case Ok(rest) => Ok(Relayed([forward.next] + rest.nexts, rest.text))
  }

  /** Each mediator holds the keys of its hop, and passes on what is for the next. */
  predicate Ready(route: seq<string>, to: string, resolver: Resolver, wallets: seq<Secrets>, limit: nat, o: Options)
    requires |wallets| == |route|
  {
    route != [] ==>
      && CanPeel(route[0], resolver, wallets[0], limit)
      && PassesOn(NextHop(route, to), resolver, wallets[0], o)
      && Ready(route[1..], to, resolver, wallets[1..], limit, o)
  }

  lemma OnionIsJson(msg: string, headers: seq<Member>, to: string, route: seq<string>, encAlg: AnonCryptAlg,
                    resolver: Resolver, limit: nat, layers: seq<Layer>, text: string)
    requires |layers| == |route| && route != []
    requires Onion(msg, headers, to, route, encAlg, resolver, limit, layers) == Ok(text)
    ensures exists j :: text == Print(j)
  {
    hide Sealed, RecipientKeys, FirstAlg, WithAlg, Print, Utf8, Kids, JweToJson, BuildForward, DidOrUrl;
    var inner := Onion(msg, headers, to, route[1..], encAlg, resolver, limit, layers[1..]).value;
    var forward := BuildForward(layers[0].id, inner, NextHop(route, to), headers).value;
    AnoncryptIsJson(route[0], resolver, Utf8(forward), encAlg, limit, layers[0].rnd);
  }

  lemma AnoncryptIsJson(to: string, resolver: Resolver, msg: bytes, encAlg: AnonCryptAlg, limit: nat, rnd: Fresh)
    requires Anoncrypt(to, resolver, msg, encAlg, limit, rnd).Ok?
    ensures exists j :: Anoncrypt(to, resolver, msg, encAlg, limit, rnd).value.0 == Print(j)
  {
    hide Sealed, RecipientKeys, FirstAlg, WithAlg, Print, Kids, JweToJson;
    var keys := RecipientKeys(to, resolver, limit, Unsupported).value;
    var curve := FirstAlg(keys).value;
    var jwe := Sealed(curve, EcdhEs, EcdhEsA256Kw, AnonEnc(encAlg), msg, None, WithAlg(keys, curve), rnd).value;
    assert Anoncrypt(to, resolver, msg, encAlg, limit, rnd).value.0 == Print(JweToJson(jwe));
  }

  lemma Reprint(j: Json)
    ensures Parse(Print(j)) == Some(j)
  {
    ParsePrint(j);
  }

  /** Onion correctness, for routes of any length: the mediators are told exactly the route after the
      first hop and then the recipient, and what comes out at the end is the message that went in, as
      the same JSON value. */
  lemma {:induction false} OnionDelivers(msg: string, headers: seq<Member>, to: string, route: seq<string>,
                                         encAlg: AnonCryptAlg, resolver: Resolver, limit: nat, layers: seq<Layer>,
                                         text: string, wallets: seq<Secrets>, o: Options)
    requires |layers| == |route| == |wallets| && route != []
    requires Onion(msg, headers, to, route, encAlg, resolver, limit, layers) == Ok(text)
    requires SoundHeaders(headers) && o.limit >= 2 && Ready(route, to, resolver, wallets, limit, o)
    ensures Parse(msg).Some?
    ensures Relay(text, wallets, resolver, o) == Ok(Relayed(route[1..] + [to], Print(Parse(msg).value)))
    decreases |route|
  {
    hide WrapLayer, SoundHeaders, CanPeel, PassesOn, UnpackString, TryParseForward, Print, Parse, ForwardMessage;
    var inner := Onion(msg, headers, to, route[1..], encAlg, resolver, limit, layers[1..]).value;
    var next := NextHop(route, to);
    HopUnpacks(inner, headers, next, route[0], encAlg, resolver, limit, layers[0], text, wallets[0], o);
    var forwarded := Parse(inner).value;
    assert Mediate(text, wallets[0], resolver, o) == Ok(ParsedForward(next, forwarded));
    if |route| == 1 {
      assert route[1..] == [] && wallets[1..] == [] && [to] + [] == [] + [to];
    } else {
      OnionIsJson(msg, headers, to, route[1..], encAlg, resolver, limit, layers[1..], inner);
      var j :| inner == Print(j);
      Reprint(j);
      OnionDelivers(msg, headers, to, route[1..], encAlg, resolver, limit, layers[1..], inner, wallets[1..], o);
      assert [route[1]] + (route[1..][1..] + [to]) == route[1..] + [to];
    }
  }

  // ----- From the sender through the mediators to the recipient -----

  lemma EncryptionIsJson(text: string, to: string, from: Option<string>, resolver: Resolver, secrets: Secrets,
                         options: PackOptions, random: PackRandom)
    requires EncryptFor(text, to, from, resolver, secrets, options, random).Ok?
    ensures exists j :: EncryptFor(text, to, from, resolver, secrets, options, random).value.text == Print(j)
  {
    hide Sealed, RecipientKeys, SenderKeys, FirstFit, WithAlg, Print, Kids, JweToJson, Utf8, Anoncrypt, CanAgree,
         DidOrUrl;
    match from
    case None =>
      AnoncryptIsJson(to, resolver, Utf8(text), options.forwarding.encAlgAnon, options.forwarding.limit, random.rnd);
    case Some(f) =>
      var keys := RecipientKeys(to, resolver, options.forwarding.limit, Malformed).value;
      var fromKey := FirstFit(SenderKeys(f, resolver, secrets).value, keys).value;
      FirstFitFits(SenderKeys(f, resolver, secrets).value, keys);
      var curve := fromKey.key.value.alg;
      var sender := Named(fromKey.id, secrets[fromKey.id]);
      var chosen := WithAlg(keys, curve);
      var inner := Sealed(curve, Ecdh1Pu, Ecdh1PuA256Kw, A256CbcHs512, Utf8(text), Some(sender), chosen,
                          random.rnd).value;
      if options.protectSender {
        var outer := Sealed(curve, EcdhEs, EcdhEsA256Kw, AnonEnc(options.forwarding.encAlgAnon),
                            Utf8(Print(JweToJson(inner))), None, chosen, random.outer).value;
        assert EncryptFor(text, to, from, resolver, secrets, options, random).value.text == Print(JweToJson(outer));
      } else {
        assert EncryptFor(text, to, from, resolver, secrets, options, random).value.text == Print(JweToJson(inner));
      }
  }

  /** The route that packing takes to a recipient. */
  function RouteTo(to: string, options: ForwardOptions, resolver: Resolver): seq<string> {
    match Chain(to, options.messagingService, resolver)
    case Err(_) => []
    case Ok(chain) => if chain == [] then [] else Route(chain)
  }

  /** End to end: a packed and forwarded message, passed on by the mediators of the recipient's route,
      reaches the recipient, who is the last address read, and delivers what was packed. */
  lemma PackRelayUnpack(m: Message, to: string, from: Option<string>, signBy: Option<string>, resolver: Resolver,
                        secrets: Secrets, mine: Secrets, options: PackOptions, random: PackRandom, text: string,
                        packed: PackMetadata, o: Options, wallets: seq<Secrets>, mediators: Options)
    requires Pack(m, to, from, signBy, resolver, secrets, options, random) == Ok((text, packed))
    requires packed.messagingService.Some?
    requires SoundHeaders(HeadersOf(options.forwarding)) && mediators.limit >= 2
    requires |wallets| == |RouteTo(to, options.forwarding, resolver)|
    requires Ready(RouteTo(to, options.forwarding, resolver), to, resolver, wallets, options.forwarding.limit,
                   mediators)
    requires Deliverable(m, to, from, signBy, resolver, secrets, mine, packed, o)
    ensures var route := RouteTo(to, options.forwarding, resolver);
            && route != []
            && var r := Relay(text, wallets, resolver, mediators);
               && r.Ok? && r.value.nexts == route[1..] + [to]
               && Delivered(UnpackString(r.value.text, resolver, mine, o), m, from, signBy, resolver, secrets, options,
                            packed)
  {
    hide UnpackString, Inner, EncryptFor, ValidatePackEncrypted, Deliverable, Delivered, Chain, Route, Onion, Relay,
         Ready, SoundHeaders, Print, Parse;
    var content := Inner(m, signBy, resolver, secrets).value;
    var x := EncryptFor(content.0, to, from, resolver, secrets, options, random).value;
    EncryptedDelivers(m, to, from, signBy, resolver, secrets, mine, options, random, content, x, packed, o);
    EncryptionIsJson(content.0, to, from, resolver, secrets, options, random);
    var j :| x.text == Print(j);
    Reprint(j);
    var route, f := RouteTo(to, options.forwarding, resolver), options.forwarding;
    OnionDelivers(x.text, HeadersOf(f), to, route, f.encAlgAnon, resolver, f.limit, seq(|route|, random.layers), text,
                  wallets, mediators);
  }

  // ----- Layers that are all for one wallet -----

  /** All hops after the first, and the recipient, are keys of the wallet, which can peel every layer. */
  predicate AllMine(route: seq<string>, to: string, resolver: Resolver, mine: Secrets, limit: nat) {
    route != [] ==>
      && CanPeel(route[0], resolver, mine, limit)
      && HoldsKeyFor(NextHop(route, to), resolver, mine)
      && AllMine(route[1..], to, resolver, mine, limit)
  }

  /** How peeling Forward layers changes the state: the message was encrypted, anonymously, and wrapped. */
  predicate Rewrapped(before: State, after: State) {
    && after.metadata.encrypted && after.metadata.anonymousSender && after.metadata.reWrapped
    && after.metadata.authenticated == before.metadata.authenticated && after.fromKid == before.fromKid
    && after.metadata.nonRepudiation == before.metadata.nonRepudiation
  }

  /** One turn of the unpacking loop on an onion layer for the wallet that unpacks. */
  lemma LoopTurn(msg: string, headers: seq<Member>, next: string, hop: string, encAlg: AnonCryptAlg,
                 resolver: Resolver, limit: nat, layer: Layer, text: string, mine: Secrets, s: State, o: Options,
                 count: nat)
    requires WrapLayer(msg, headers, next, hop, encAlg, resolver, limit, layer) == Ok(text)
    requires SoundHeaders(headers) && CanPeel(hop, resolver, mine, limit)
    requires HoldsKeyFor(next, resolver, mine) && o.unwrapForward && count + 1 < o.limit
    ensures Parse(msg).Some? && ReadEnvelope(text).Ok?
    ensures exists s': State ::
              && Rewrapped(s, s')
              && PeelForwards(ReadEnvelope(text).value, s, resolver, mine, o, count)
                 == match ReadEnvelope(Print(Parse(msg).value))
                    case Err(kind) => Err(kind)
                    case Ok(e) => PeelForwards(e, s', resolver, mine, o, count + 1)
  {
    hide WrapLayer, SoundHeaders, CanPeel, Encrypted, Receives, ReadPayload, TryParseForward, TryAnoncrypt,
         ReadEnvelope, HasAgreementSecret, Utf8, Parse, Print, Kids, ForwardMessage;
    HasAgreementSecretExact(next, resolver, mine);
    var curve, recipients, forward := LayerParts(msg, headers, next, hop, encAlg, resolver, limit, layer, text, mine);
    var fm := ForwardMessage(layer.id, Parse(msg).value, next, headers);
    AnonLayerOf(curve, encAlg, Utf8(forward), recipients, layer.rnd, mine, text, s, o, ParsedMessage(fm));
    var s1 := TryAnoncrypt(ReadEnvelope(text).value, s, mine, o).value.1;
    var s2 := s1.(metadata := s1.metadata.(reWrapped := true));
    assert TryUnwrapForwarded(ParsedMessage(fm), resolver, mine) == Ok(Some(Print(Parse(msg).value)));
    assert Rewrapped(s, s2);
  }

  lemma AnonLayerOf(curve: KeyAlg, encAlg: AnonCryptAlg, plaintext: bytes, recipients: seq<Named>, rnd: Fresh,
                    mine: Secrets, text: string, s: State, o: Options, e: ParsedEnvelope)
    requires CanAgree(curve) && Receives(recipients, mine, curve) && ReadPayload(Some(plaintext)) == Ok(e)
    requires Encrypted(curve, EcdhEs, EcdhEsA256Kw, AnonEnc(encAlg), plaintext, None, recipients, rnd) == Ok(text)
    ensures ReadEnvelope(text).Ok?
    ensures TryAnoncrypt(ReadEnvelope(text).value, s, mine, o)
            == Ok((Some(e), s.(metadata := s.metadata.(encryptedToKids := Some(Kids(recipients)), encrypted := true,
                                                       anonymousSender := true, encAlgAnon := Some(encAlg)))))
  {
    hide Receives, Encrypted, ReadPayload, ReadEnvelope, TryAnoncrypt, Kids, CanAgree;
    AnonLayer(curve, AnonEnc(encAlg), plaintext, recipients, rnd, mine, text, s, o);
  }

  /** When one wallet holds the keys of the whole route and of the recipient, unpacking peels all
      Forward layers by itself, one operation each, and goes on with the wrapped message. */
  lemma {:induction false} LoopPeelsOnion(msg: string, headers: seq<Member>, to: string, route: seq<string>,
                                          encAlg: AnonCryptAlg, resolver: Resolver, limit: nat, layers: seq<Layer>,
                                          text: string, mine: Secrets, s: State, o: Options, count: nat)
    requires |layers| == |route| && route != []
    requires Onion(msg, headers, to, route, encAlg, resolver, limit, layers) == Ok(text)
    requires SoundHeaders(headers) && AllMine(route, to, resolver, mine, limit)
    requires o.unwrapForward && count + |route| < o.limit
    ensures Parse(msg).Some? && ReadEnvelope(text).Ok?
    ensures exists s': State ::
              && Rewrapped(s, s')
              && PeelForwards(ReadEnvelope(text).value, s, resolver, mine, o, count)
                 == match ReadEnvelope(Print(Parse(msg).value))
                    case Err(kind) => Err(kind)
                    case Ok(e) => PeelForwards(e, s', resolver, mine, o, count + |route|)
    decreases |route|
  {
    hide WrapLayer, SoundHeaders, CanPeel, Parse, Print, ReadEnvelope, PeelForwards, HoldsKeyFor;
    var inner := Onion(msg, headers, to, route[1..], encAlg, resolver, limit, layers[1..]).value;
    LoopTurn(inner, headers, NextHop(route, to), route[0], encAlg, resolver, limit, layers[0], text, mine, s, o, count);
    var s1: State :| && Rewrapped(s, s1)
                     && PeelForwards(ReadEnvelope(text).value, s, resolver, mine, o, count)
                        == match ReadEnvelope(Print(Parse(inner).value))
                           case Err(kind) => Err(kind)
                           case Ok(e) => PeelForwards(e, s1, resolver, mine, o, count + 1);
    if |route| > 1 {
      OnionIsJson(msg, headers, to, route[1..], encAlg, resolver, limit, layers[1..], inner);
      var j :| inner == Print(j);
      Reprint(j);
      LoopPeelsOnion(msg, headers, to, route[1..], encAlg, resolver, limit, layers[1..], inner, mine, s1, o, count + 1);
      var s2: State :| && Rewrapped(s1, s2)
                       && PeelForwards(ReadEnvelope(inner).value, s1, resolver, mine, o, count + 1)
                          == match ReadEnvelope(Print(Parse(msg).value))
                             case Err(kind) => Err(kind)
                             case Ok(e) => PeelForwards(e, s2, resolver, mine, o, count + 1 + |route[1..]|);
      assert Rewrapped(s, s2) && count + 1 + |route[1..]| == count + |route|;
    } else {
      assert route[1..] == [];
    }
  }
}
