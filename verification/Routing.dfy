/** Routing Protocol 2.0: finding the mediators of a recipient and wrapping a message into one Forward
    message, encrypted for the next mediator, for each hop of the route. */
module Routing {
  import opened Wrappers
  import Strings
  import opened Octets
  import opened JsonText
  import opened Serde
  import opened Documents
  import opened JweCrypto
  import opened Messages
  import opened Envelopes
  import opened Packing

  const FORWARD_MSG_TYPE := "https://didcomm.org/routing/2.0/forward"

  const DIDCOMM_V2_PROFILE := "didcomm/v2"

  // ----- Services -----

  /** A service id and its messaging service. */
  datatype Found = Found(id: string, service: MessagingService)

  /** `check_service_type`: whatever its first type is, it passes. */
  function CheckServiceType(s: Service): Result<()> {
    Check(s.types != [], InvalidState)
  }

  predicate AcceptsV2(e: Endpoint) {
    e.MapEndpoint? && (e.accept.NoAccept? || (e.accept.Accepts? && DIDCOMM_V2_PROFILE in e.accept.profiles))
  }

  function FirstV2(endpoints: seq<Endpoint>): (r: Option<Endpoint>)
    ensures r.Some? ==> r.value.MapEndpoint?
  {
    if endpoints == [] then None
    else if AcceptsV2(endpoints[0]) then Some(endpoints[0])
    else FirstV2(endpoints[1..])
  }

  function CheckService(s: Service): Result<Found> {
    var _ :- CheckServiceType(s);
    var endpoints :- OkOr(s.endpoints, InvalidState);
    var endpoint :- OkOr(FirstV2(endpoints), IllegalArgument);
    if !endpoint.MapEndpoint? then Err(InvalidState) else
      var service :- OkOr(endpoint.service, InvalidState);
      Ok(Found(s.id, service))
  }

  /** The check of the service type looks at nothing but whether there is one: with any other list of
      types, a service is accepted or refused in the same way. */
  lemma TypeIgnored(s: Service, types: seq<string>)
    ensures s.types != [] && types != [] ==> CheckService(s.(types := types)) == CheckService(s)
    ensures CheckService(s.(types := [])) == Err(InvalidState)
  {
  }

  function FirstChecked(services: seq<Service>): Option<Found> {
    if services == [] then None
    else
      match CheckService(services[0])
      case Ok(f) => Some(f)
      case Err(_) => FirstChecked(services[1..])
  }

  /** The service whose id has this fragment. */
  function ServiceNamed(services: seq<Service>, fragment: string): Option<Service> {
    if services == [] then None
    else
      match Strings.BeforeFirst(services[0].id, '#')
      case Some(did) =>
        if |did| < |services[0].id| && services[0].id[|did| + 1..] == fragment then Some(services[0])
        else ServiceNamed(services[1..], fragment)
      case None => ServiceNamed(services[1..], fragment)
  }

  function FindService(doc: Document, fragment: Option<string>): Result<Option<Found>> {
    match fragment
    case None => Ok(FirstChecked(doc.services))
    case Some(name) =>
      var s :- OkOr(ServiceNamed(doc.services, name), InvalidState);
      var f :- CheckService(s);
      Ok(Some(f))
  }

  // ----- The chain of services -----

  /** What the loop makes of the services found so far, the most recent one first. */
  function ChainFrom(services: seq<Found>, resolver: Resolver): (r: Result<seq<Found>>)
    requires services != []
    decreases 2 - |services|
  {
    if !IsDid(services[0].service.uri) then Ok(services)
    else if |services| > 1 then Err(InvalidState)
    else
      var doc :- Resolve(resolver, services[0].service.uri);
      var found :- FindService(doc, None);
      var next :- OkOr(found, InvalidState);
      ChainFrom([next] + services, resolver)
  }

  /** `resolve_did_comm_services_chain` */
  function Chain(to: string, fragment: Option<string>, resolver: Resolver): Result<seq<Found>> {
    var doc :- Resolve(resolver, to);
    var found :- FindService(doc, fragment);
    match found
    case None => Ok([])
    case Some(f) => ChainFrom([f], resolver)
  }

  /** Terminates for every resolver, however its documents refer to each other. */
  method ResolveServicesChain(to: string, fragment: Option<string>, resolver: Resolver)
    returns (r: Result<seq<Found>>)
    ensures r == Chain(to, fragment, resolver)
  {
    hide IsDid, FindService;
    var doc :- Resolve(resolver, to);
    var found :- FindService(doc, fragment);
    if found.None? {
      return Ok([]);
    }
    var service := found.value;
    var services := [service];
    while IsDid(service.service.uri)
      invariant services != [] && services[0] == service && |services| <= 2
      invariant ChainFrom(services, resolver) == ChainFrom([found.value], resolver)
      decreases 2 - |services|
    {
      if |services| > 1 {
        return Err(InvalidState);
      }
      var resolved :- Resolve(resolver, service.service.uri);
      var next :- FindService(resolved, None);
      if next.None? {
        return Err(InvalidState);
      }
      service := next.value;
      services := [service] + services;
    }
    return Ok(services);
  }

  /** A resolved chain has at most two services; the first is reached by an address that is not a DID,
      all later ones through DIDs. */
  lemma ChainShape(to: string, fragment: Option<string>, resolver: Resolver)
    requires Chain(to, fragment, resolver).Ok?
    ensures var chain := Chain(to, fragment, resolver).value;
            && |chain| <= 2
            && (chain != [] ==> !IsDid(chain[0].service.uri))
            && forall i :: 0 < i < |chain| ==> IsDid(chain[i].service.uri)
  {
    hide IsDid, FindService;
    var found := FindService(resolver[to], fragment).value;
    if found.Some? {
      ChainFromShape([found.value], resolver);
    }
  }

  lemma {:induction false} ChainFromShape(services: seq<Found>, resolver: Resolver)
    requires 1 <= |services| <= 2 && forall i :: 0 < i < |services| ==> IsDid(services[i].service.uri)
    requires ChainFrom(services, resolver).Ok?
    ensures var chain := ChainFrom(services, resolver).value;
            && 1 <= |chain| <= 2
            && !IsDid(chain[0].service.uri)
            && forall i :: 0 < i < |chain| ==> IsDid(chain[i].service.uri)
    decreases 2 - |services|
  {
    hide IsDid, FindService;
    if IsDid(services[0].service.uri) {
      var next := FindService(resolver[services[0].service.uri], None).value.value;
      ChainFromShape([next] + services, resolver);
    }
  }

  /** The route: the DIDs of the later services, then the recipient's own routing keys. */
  function Route(chain: seq<Found>): seq<string>
    requires chain != []
  {
    seq(|chain| - 1, i requires 0 <= i < |chain| - 1 => chain[i + 1].service.uri)
    + chain[|chain| - 1].service.routingKeys
  }

  // ----- Forward messages -----

  datatype ParsedForward = ParsedForward(next: string, forwarded: Json)

  function ForwardMessage(id: string, forwarded: Json, next: string, headers: seq<Member>): Message {
    Message(id, PLAINTEXT_TYP, FORWARD_MSG_TYPE, Obj(Field("next", Str(next))), None, Some([next]), None, None, headers,
            None, None, None, Some([Attachment(JsonData(forwarded, None), None, None, None, None, None, None, None)]))
  }

  /** `build_forward_message`; `id` is the generated message id. */
  function BuildForward(id: string, msg: string, next: string, headers: seq<Member>): Result<string> {
    var forwarded :- OkOr(Parse(msg), Malformed);
    Ok(Print(MessageToJson(ForwardMessage(id, forwarded, next, headers))))
  }

  /** `body.get(name)`: a map keeps the last value of a repeated name. */
  function LastValue(ms: seq<Member>, name: string): Option<Json> {
    var vs := Values(ms, name);
    if vs == [] then None else Some(vs[|vs| - 1])
  }

  /** `try_parse_forward` */
  function TryParseForward(m: Message): Option<ParsedForward> {
    if m.msgType != FORWARD_MSG_TYPE || !m.body.Obj? then None
    else
      match LastValue(m.body.members, "next")
      case Some(Str(next)) =>
        if m.attachments.None? || m.attachments.value == [] || !m.attachments.value[0].data.JsonData? then None
        else Some(ParsedForward(next, m.attachments.value[0].data.json))
      case _ => None
  }

  /** Headers that a `Forward` message can carry and still be read back as itself. */
  predicate SoundHeaders(headers: seq<Member>) {
    DistinctNames(headers) && NoClash(headers) && PlainHeaders(headers)
  }

  /** A built Forward message names the next hop and carries the message it was built for, as a JSON
      tree, in every spelling of that message. */
  lemma ForwardRoundTrip(id: string, msg: string, next: string, headers: seq<Member>)
    requires SoundHeaders(headers)
    ensures BuildForward(id, msg, next, headers).Ok? <==> Parse(msg).Some?
    ensures Parse(msg).None? ==> BuildForward(id, msg, next, headers) == Err(Malformed)
    ensures Parse(msg).Some? ==>
              var m := ForwardMessage(id, Parse(msg).value, next, headers);
              && ReadEnvelope(BuildForward(id, msg, next, headers).value) == Ok(ParsedMessage(m))
              && TryParseForward(m) == Some(ParsedForward(next, Parse(msg).value))
  {
    hide Print, Parse, MessageToJson, ReadEnvelope, NoClash, PlainHeaders, DistinctNames;
    if Parse(msg).Some? {
      MessageDecodesExact(ForwardMessage(id, Parse(msg).value, next, headers));
      ValuesOne("next", Str(next), "next");
    }
  }

  // ----- The onion -----

  /** What one hop's encryption and message id are made of. */
  datatype Layer = Layer(id: string, rnd: Fresh)

  /** One layer: a Forward message to `next`, encrypted for the mediator `hop`. */
  function WrapLayer(msg: string, headers: seq<Member>, next: string, hop: string, encAlg: AnonCryptAlg,
                     resolver: Resolver, limit: nat, layer: Layer): Result<string>
  {
    var forward :- BuildForward(layer.id, msg, next, headers);
    var encrypted :- Anoncrypt(hop, resolver, Utf8(forward), encAlg, limit, layer.rnd);
    Ok(encrypted.0)
  }

  /** Who comes after the first hop of a route to `to`. */
  function NextHop(route: seq<string>, to: string): string
    requires route != []
  {
    if |route| == 1 then to else route[1]
  }

  /** The onion for a route: outermost is the layer of the first hop. */
  function Onion(msg: string, headers: seq<Member>, to: string, route: seq<string>, encAlg: AnonCryptAlg,
                 resolver: Resolver, limit: nat, layers: seq<Layer>): Result<string>
    requires |layers| == |route|
  {
    if route == [] then Ok(msg) else
      var inner :- Onion(msg, headers, to, route[1..], encAlg, resolver, limit, layers[1..]);
      WrapLayer(inner, headers, NextHop(route, to), route[0], encAlg, resolver, limit, layers[0])
  }

  function Reversed<T>(v: seq<T>): seq<T> {
    seq(|v|, i requires 0 <= i < |v| => v[|v| - 1 - i])
  }

  /** If the onion for the end of a route fails, so does the whole, in the same way. */
  lemma {:induction false} OnionFails(msg: string, headers: seq<Member>, to: string, route: seq<string>,
                                      encAlg: AnonCryptAlg, resolver: Resolver, limit: nat, layers: seq<Layer>, k: nat)
    requires |layers| == |route| && k <= |route|
    requires Onion(msg, headers, to, route[k..], encAlg, resolver, limit, layers[k..]).Err?
    ensures Onion(msg, headers, to, route, encAlg, resolver, limit, layers)
            == Onion(msg, headers, to, route[k..], encAlg, resolver, limit, layers[k..])
  {
    hide WrapLayer;
    if k == 0 {
      assert route[0..] == route && layers[0..] == layers;
    } else {
      assert route[1..][k - 1..] == route[k..] && layers[1..][k - 1..] == layers[k..];
      OnionFails(msg, headers, to, route[1..], encAlg, resolver, limit, layers[1..], k - 1);
    }
  }

  /** `wrap_in_forward`. Called with an empty route, it panics when it removes the first element. */
  method WrapInForward(msg: string, headers: seq<Member>, to: string, route: seq<string>, encAlg: AnonCryptAlg,
                       resolver: Resolver, limit: nat, layers: seq<Layer>) returns (r: Result<string>)
    requires |layers| == |route|
    ensures r == if route == [] then Err(Panic) else Onion(msg, headers, to, route, encAlg, resolver, limit, layers)
  {
    hide WrapLayer;
    var n := |route|;
    if n == 0 {
      return Err(Panic);
    }
    var tos := route;
    var nexts := tos[1..] + [to];
    tos := Reversed(tos);
    nexts := Reversed(nexts);
    var text := msg;
    assert route[n..] == [] && layers[n..] == [];
    for i := 0 to n
      invariant Onion(msg, headers, to, route[n - i..], encAlg, resolver, limit, layers[n - i..]) == Ok(text)
    {
      var k := n - i - 1;
      assert tos[i] == route[k] && nexts[i] == NextHop(route[k..], to);
      assert route[k..][1..] == route[k + 1..] && layers[k..][1..] == layers[k + 1..];
      var wrapped := WrapLayer(text, headers, nexts[i], tos[i], encAlg, resolver, limit, layers[k]);
      assert Onion(msg, headers, to, route[k..], encAlg, resolver, limit, layers[k..]) == wrapped;
      if wrapped.Err? {
        OnionFails(msg, headers, to, route, encAlg, resolver, limit, layers, k);
        return wrapped;
      }
      text := wrapped.value;
    }
    assert route[0..] == route && layers[0..] == layers;
    return Ok(text);
  }

  // ----- Wrapping if needed -----

  /** The options that concern forwarding. No headers are no custom headers. */
  datatype ForwardOptions = ForwardOptions(
    forward: bool,
    headers: Option<seq<Member>>,
    messagingService: Option<string>,
    encAlgAnon: AnonCryptAlg,
    limit: nat)

  datatype ServiceUsed = ServiceUsed(id: string, endpoint: string)

  function HeadersOf(options: ForwardOptions): seq<Member> {
    match options.headers
    case None => []
    case Some(headers) => headers
  }

  /** `wrap_in_forward_if_needed`; `layers` gives the randomness of each hop. */
  function WrapIfNeeded(msg: string, to: string, resolver: Resolver, options: ForwardOptions, layers: nat -> Layer)
    : Result<Option<(string, ServiceUsed)>>
  {
    if !options.forward then Ok(None) else
      var chain :- Chain(to, options.messagingService, resolver);
      if chain == [] || Route(chain) == [] then Ok(None) else
        var route := Route(chain);
        var text :- Onion(msg, HeadersOf(options), to, route, options.encAlgAnon, resolver, options.limit,
                          seq(|route|, layers));
        Ok(Some((text, ServiceUsed(chain[|chain| - 1].id, chain[0].service.uri))))
  }

  /** It calls `wrap_in_forward` with a non-empty route only, so that never panics. */
  method WrapInForwardIfNeeded(msg: string, to: string, resolver: Resolver, options: ForwardOptions,
                               layers: nat -> Layer)
    returns (r: Result<Option<(string, ServiceUsed)>>)
    ensures r == WrapIfNeeded(msg, to, resolver, options, layers)
  {
    hide Onion, Chain;
    if !options.forward {
      return Ok(None);
    }
    var chain :- ResolveServicesChain(to, options.messagingService, resolver);
    if chain == [] {
      return Ok(None);
    }
    var route: seq<string> := [];
    for i := 1 to |chain|
      invariant route == seq(i - 1, j requires 0 <= j < i - 1 => chain[j + 1].service.uri)
    {
      route := route + [chain[i].service.uri];
    }
    route := route + chain[|chain| - 1].service.routingKeys;
    if route == [] {
      return Ok(None);
    }
    var text :- WrapInForward(msg, HeadersOf(options), to, route, options.encAlgAnon, resolver, options.limit,
                              seq(|route|, layers));
    return Ok(Some((text, ServiceUsed(chain[|chain| - 1].id, chain[0].service.uri))));
  }
}
