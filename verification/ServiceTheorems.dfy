/** Which service of a document messages are sent to, and the mediators on the way, on the documents. */
module ServiceTheorems {
  import opened Wrappers
  import opened Strings
  import opened JsonText
  import opened Documents
  import opened Packing
  import opened Routing
  import opened PackEncrypted
  import opened Messages

  // ----- One service -----

  /** An endpoint of DIDComm version 2: a map without "accept", or with a readable list that has the profile. */
  predicate SpeaksV2(e: Endpoint) {
    match e
    case UriEndpoint(_) => false
    case MapEndpoint(NoAccept, _) => true
    case MapEndpoint(BadAccept, _) => false
    case MapEndpoint(Accepts(profiles), _) => "didcomm/v2" in profiles
  }

  /** The first endpoint of version 2 is the i-th. */
  predicate FirstV2At(endpoints: seq<Endpoint>, i: int) {
    0 <= i < |endpoints| && SpeaksV2(endpoints[i]) && forall j :: 0 <= j < i ==> !SpeaksV2(endpoints[j])
  }

  /** The service has a type, and its first endpoint of version 2 is readable as this. */
  ghost predicate Offers(s: Service, m: MessagingService) {
    && s.types != []
    && s.endpoints.Some?
    && exists i :: FirstV2At(s.endpoints.value, i) && s.endpoints.value[i].service == Some(m)
  }

  lemma {:induction false} FirstV2Exact(endpoints: seq<Endpoint>)
    ensures match FirstV2(endpoints)
            case None => forall e :: e in endpoints ==> !SpeaksV2(e)
            case Some(e) => exists i :: FirstV2At(endpoints, i) && endpoints[i] == e
  {
    if endpoints != [] {
      FirstV2Exact(endpoints[1..]);
      if SpeaksV2(endpoints[0]) {
        assert FirstV2At(endpoints, 0);
      } else if FirstV2(endpoints[1..]).Some? {
        var i :| FirstV2At(endpoints[1..], i) && endpoints[1..][i] == FirstV2(endpoints[1..]).value;
        assert forall j :: 0 < j < i + 1 ==> endpoints[j] == endpoints[1..][j - 1];
        assert FirstV2At(endpoints, i + 1);
      }
    }
  }

  /** A service is taken exactly if it has a type and its first endpoint of version 2 is readable. It is
      refused as an illegal argument exactly if there are endpoints of which none is of version 2, and
      with an invalid state in all other cases. */
  lemma CheckServiceExact(s: Service)
    ensures forall f :: CheckService(s) == Ok(f) <==> f.id == s.id && Offers(s, f.service)
    ensures CheckService(s) == Err(IllegalArgument)
            <==> s.types != [] && s.endpoints.Some? && forall e :: e in s.endpoints.value ==> !SpeaksV2(e)
    ensures CheckService(s).Err? ==> CheckService(s).kind in [InvalidState, IllegalArgument]
  {
    hide FirstV2, SpeaksV2;
    if s.types != [] && s.endpoints.Some? {
      var endpoints := s.endpoints.value;
      FirstV2Exact(endpoints);
      if FirstV2(endpoints).Some? {
        var i :| FirstV2At(endpoints, i) && endpoints[i] == FirstV2(endpoints).value;
        assert SpeaksV2(endpoints[i]) && endpoints[i] in endpoints;
      }
    }
  }

  // ----- The services of a document -----

  /** The first service that is taken: it offers this, and no service before it offers anything. */
  ghost predicate OffersFirst(services: seq<Service>, f: Found) {
    exists i :: && 0 <= i < |services| && services[i].id == f.id && Offers(services[i], f.service)
                && forall j :: 0 <= j < i ==> Refused(services[j])
  }

  ghost predicate Refused(s: Service) {
    forall m :: !Offers(s, m)
  }

  lemma {:induction false} FirstCheckedExact(services: seq<Service>)
    ensures FirstChecked(services) == None <==> forall s :: s in services ==> Refused(s)
    ensures forall f :: FirstChecked(services) == Some(f) <==> OffersFirst(services, f)
  {
    hide Offers, CheckService;
    if services != [] {
      var s, rest := services[0], services[1..];
      CheckServiceExact(s);
      FirstCheckedExact(rest);
      assert forall t :: t in services <==> t == s || t in rest;
      if CheckService(s).Ok? {
        var g := CheckService(s).value;
        assert Offers(s, g.service) && !Refused(s);
        forall f | OffersFirst(services, f) ensures f == g {
          assert CheckService(s) == Ok(f);
        }
      } else {
        forall m ensures !Offers(s, m) {
          assert CheckService(s) != Ok(Found(s.id, m));
        }
        assert Refused(s);
        forall f ensures OffersFirst(services, f) <==> OffersFirst(rest, f) {
          FirstLater(services, f);
        }
      }
    }
  }

  lemma FirstLater(services: seq<Service>, f: Found)
    requires services != [] && Refused(services[0])
    ensures OffersFirst(services, f) <==> OffersFirst(services[1..], f)
  {
    hide Offers;
    if OffersFirst(services, f) {
      var i :| && 0 <= i < |services| && services[i].id == f.id && Offers(services[i], f.service)
               && forall j :: 0 <= j < i ==> Refused(services[j]);
      assert services[1..][i - 1] == services[i];
    }
    if OffersFirst(services[1..], f) {
      var i :| && 0 <= i < |services[1..]| && services[1..][i].id == f.id && Offers(services[1..][i], f.service)
               && forall j :: 0 <= j < i ==> Refused(services[1..][j]);
      assert services[i + 1] == services[1..][i];
      assert forall j :: 0 < j < i + 1 ==> services[j] == services[1..][j - 1];
    }
  }

  /** What stands behind the first '#' of the id is the fragment. */
  predicate HasFragment(id: string, fragment: string) {
    exists k :: 0 <= k < |id| && id[k] == '#' && '#' !in id[..k] && id[k + 1..] == fragment
  }

  /** The first service whose id has this fragment. */
  ghost predicate FirstNamed(services: seq<Service>, fragment: string, s: Service) {
    exists i :: && 0 <= i < |services| && services[i] == s && HasFragment(s.id, fragment)
                && forall j :: 0 <= j < i ==> !HasFragment(services[j].id, fragment)
  }

  lemma {:induction false} ServiceNamedExact(services: seq<Service>, fragment: string)
    ensures ServiceNamed(services, fragment) == None <==> forall s :: s in services ==> !HasFragment(s.id, fragment)
    ensures forall s :: ServiceNamed(services, fragment) == Some(s) <==> FirstNamed(services, fragment, s)
  {
    if services != [] {
      var rest := services[1..];
      BeforeFirstExact(services[0].id, '#');
      ServiceNamedExact(rest, fragment);
      assert forall t :: t in services <==> t == services[0] || t in rest;
      if HasFragment(services[0].id, fragment) {
        assert ServiceNamed(services, fragment) == Some(services[0]);
      } else {
        forall s ensures FirstNamed(services, fragment, s) <==> FirstNamed(rest, fragment, s) {
          NamedLater(services, fragment, s);
        }
      }
    }
  }

  lemma NamedLater(services: seq<Service>, fragment: string, s: Service)
    requires services != [] && !HasFragment(services[0].id, fragment)
    ensures FirstNamed(services, fragment, s) <==> FirstNamed(services[1..], fragment, s)
  {
    hide HasFragment;
    var rest := services[1..];
    if FirstNamed(services, fragment, s) {
      var i :| && 0 <= i < |services| && services[i] == s && HasFragment(s.id, fragment)
               && forall j :: 0 <= j < i ==> !HasFragment(services[j].id, fragment);
      assert rest[i - 1] == s;
    }
    if FirstNamed(rest, fragment, s) {
      var i :| && 0 <= i < |rest| && rest[i] == s && HasFragment(s.id, fragment)
               && forall j :: 0 <= j < i ==> !HasFragment(rest[j].id, fragment);
      assert services[i + 1] == s;
      assert forall j :: 0 < j < i + 1 ==> services[j] == rest[j - 1];
    }
  }

  /** The service that is used: without a name, the first that offers anything; with a name, the first whose id
      has it as its fragment, if that offers anything. */
  ghost predicate Selected(doc: Document, name: Option<string>, f: Found) {
    match name
    case None => OffersFirst(doc.services, f)
    case Some(n) => exists s :: FirstNamed(doc.services, n, s) && s.id == f.id && Offers(s, f.service)
  }

  /** Only a named service can be an error: it is missing, or refused. */
  lemma FindServiceExact(doc: Document, name: Option<string>)
    ensures forall f :: FindService(doc, name) == Ok(Some(f)) <==> Selected(doc, name, f)
    ensures FindService(doc, name) == Ok(None) <==> name == None && forall s :: s in doc.services ==> Refused(s)
    ensures FindService(doc, name) == Err(IllegalArgument)
            <==> name.Some? && exists s :: && FirstNamed(doc.services, name.value, s) && s.types != []
                                           && s.endpoints.Some?
                                           && forall e :: e in s.endpoints.value ==> !SpeaksV2(e)
    ensures FindService(doc, name).Err? ==> name.Some? && FindService(doc, name).kind in [InvalidState, IllegalArgument]
  {
    hide Offers, CheckService, SpeaksV2, HasFragment, ServiceNamed, FirstChecked, FirstNamed, OffersFirst;
    match name
    case None =>
      FirstCheckedExact(doc.services);
    case Some(n) =>
      ServiceNamedExact(doc.services, n);
      if ServiceNamed(doc.services, n).Some? {
        var s := ServiceNamed(doc.services, n).value;
        CheckServiceExact(s);
        assert FirstNamed(doc.services, n, s);
      }
  }

  // ----- The chain -----

  /** A recipient that does not resolve is an error, and so is a named service that is missing or refused. A
      recipient without a usable service has no chain. */
  lemma NoChain(to: string, name: Option<string>, resolver: Resolver)
    ensures to !in resolver ==> Chain(to, name, resolver) == Err(DIDNotResolved)
    ensures to in resolver && name.None? && (forall s :: s in resolver[to].services ==> Refused(s)) ==>
              Chain(to, name, resolver) == Ok([])
    ensures to in resolver && name.Some? && (forall f :: !Selected(resolver[to], name, f)) ==>
              Chain(to, name, resolver).Err?
  {
    hide IsDid, FindService, Selected, Refused;
    if to in resolver {
      FindServiceExact(resolver[to], name);
      if FindService(resolver[to], name).Ok? && FindService(resolver[to], name).value.Some? {
        assert Selected(resolver[to], name, FindService(resolver[to], name).value.value);
      }
    }
  }

  /** Where a message to a DID goes. If the selected service has an address that is not a DID, it goes there. If
      it has one, that mediator must resolve and have a usable service, the first of which is where it goes,
      unless that is again behind a DID. */
  lemma ChainExact(to: string, name: Option<string>, resolver: Resolver, f: Found)
    requires to in resolver && Selected(resolver[to], name, f)
    ensures var next := f.service.uri;
            && (!IsDid(next) ==> Chain(to, name, resolver) == Ok([f]))
            && (IsDid(next) && next !in resolver ==> Chain(to, name, resolver) == Err(DIDNotResolved))
            && (IsDid(next) && next in resolver && (forall s :: s in resolver[next].services ==> Refused(s)) ==>
                  Chain(to, name, resolver) == Err(InvalidState))
    ensures var next := f.service.uri;
            IsDid(next) && next in resolver ==>
              forall g :: OffersFirst(resolver[next].services, g) ==>
                Chain(to, name, resolver) == if IsDid(g.service.uri) then Err(InvalidState) else Ok([g, f])
  {
    hide IsDid, FindService, OffersFirst, Refused;
    FindServiceExact(resolver[to], name);
    assert FindService(resolver[to], name) == Ok(Some(f));
    var next := f.service.uri;
    if IsDid(next) && next in resolver {
      FindServiceExact(resolver[next], None);
      forall g | OffersFirst(resolver[next].services, g)
        ensures Chain(to, name, resolver) == if IsDid(g.service.uri) then Err(InvalidState) else Ok([g, f])
      {
        assert Selected(resolver[next], None, g);
        assert ChainFrom([f], resolver) == ChainFrom([g] + [f], resolver);
        assert [g] + [f] == [g, f];
      }
    }
  }

  /** Services that refer to each other as mediators are refused. */
  lemma CyclicChain(to: string, resolver: Resolver, a: Found, b: Found)
    requires to in resolver && OffersFirst(resolver[to].services, a)
    requires a.service.uri in resolver && OffersFirst(resolver[a.service.uri].services, b)
    requires IsDid(a.service.uri) && IsDid(b.service.uri)
    ensures Chain(to, None, resolver) == Err(InvalidState)
  {
    hide IsDid, OffersFirst, Chain;
    ChainExact(to, None, resolver, a);
  }

  // ----- Whether a message is wrapped, and for whom -----

  /** A packed message to a recipient whose selected service has an own address is wrapped for the routing keys
      of that service, if it has any, and sent to that address. */
  lemma DirectWrapped(msg: string, to: string, resolver: Resolver, options: ForwardOptions, layers: nat -> Layer,
                      f: Found, headers: seq<Member>)
    requires options.forward && (options.headers == Some(headers) || (options.headers.None? && headers == []))
    requires to in resolver && Selected(resolver[to], options.messagingService, f) && !IsDid(f.service.uri)
    ensures var keys := f.service.routingKeys;
            WrapIfNeeded(msg, to, resolver, options, layers)
            == if keys == [] then Ok(None) else
                 match Onion(msg, headers, to, keys, options.encAlgAnon, resolver, options.limit, seq(|keys|, layers))
                 case Err(kind) => Err(kind)
                 case Ok(text) => Ok(Some((text, ServiceUsed(f.id, f.service.uri))))
  {
    hide IsDid, Selected, Chain, Onion;
    ChainExact(to, options.messagingService, resolver, f);
    assert Route([f]) == f.service.routingKeys;
  }

  /** A packed message to a recipient behind a mediator is wrapped for the mediator and then for the routing keys
      of the recipient's service, and sent to the address of the mediator's service. */
  lemma MediatedWrapped(msg: string, to: string, resolver: Resolver, options: ForwardOptions, layers: nat -> Layer,
                        f: Found, g: Found, headers: seq<Member>)
    requires options.forward && (options.headers == Some(headers) || (options.headers.None? && headers == []))
    requires to in resolver && Selected(resolver[to], options.messagingService, f)
    requires IsDid(f.service.uri) && f.service.uri in resolver
    requires OffersFirst(resolver[f.service.uri].services, g) && !IsDid(g.service.uri)
    ensures var route := [f.service.uri] + f.service.routingKeys;
            WrapIfNeeded(msg, to, resolver, options, layers)
            == match Onion(msg, headers, to, route, options.encAlgAnon, resolver, options.limit, seq(|route|, layers))
               case Err(kind) => Err(kind)
               case Ok(text) => Ok(Some((text, ServiceUsed(f.id, g.service.uri))))
  {
    hide IsDid, Selected, Chain, Onion, OffersFirst;
    ChainExact(to, options.messagingService, resolver, f);
    assert [g, f][1] == f;
    assert Route([g, f]) == [f.service.uri] + f.service.routingKeys;
  }

  /** Nothing is wrapped when forwarding is off, or the recipient has no usable service. */
  lemma NotWrapped(msg: string, to: string, resolver: Resolver, options: ForwardOptions, layers: nat -> Layer)
    requires !options.forward || (&& to in resolver && options.messagingService.None?
                                  && forall s :: s in resolver[to].services ==> Refused(s))
    ensures WrapIfNeeded(msg, to, resolver, options, layers) == Ok(None)
  {
    hide Chain, Refused;
    NoChain(to, options.messagingService, resolver);
  }

  /** The service that packing reports is the one that the recipient selects, with the address that the message
      is to be sent to: its own, or that of the mediator's first usable service. */
  lemma PackedService(m: Message, to: string, from: Option<string>, signBy: Option<string>, resolver: Resolver,
                      secrets: Secrets, options: PackOptions, random: PackRandom, text: string, packed: PackMetadata,
                      f: Found)
    requires Pack(m, to, from, signBy, resolver, secrets, options, random) == Ok((text, packed))
    requires to in resolver && Selected(resolver[to], options.forwarding.messagingService, f)
    ensures !options.forwarding.forward ==> packed.messagingService == None
    ensures options.forwarding.forward && !IsDid(f.service.uri) ==>
              packed.messagingService
              == if f.service.routingKeys == [] then None else Some(ServiceUsed(f.id, f.service.uri))
    ensures options.forwarding.forward && IsDid(f.service.uri) ==>
              && f.service.uri in resolver
              && forall g :: OffersFirst(resolver[f.service.uri].services, g) ==>
                   !IsDid(g.service.uri) && packed.messagingService == Some(ServiceUsed(f.id, g.service.uri))
  {
    hide ValidatePackEncrypted, Inner, EncryptFor, IsDid, Selected, OffersFirst, Chain, Onion;
    ChainExact(to, options.forwarding.messagingService, resolver, f);
    if options.forwarding.forward && !IsDid(f.service.uri) {
      assert Route([f]) == f.service.routingKeys;
    } else if options.forwarding.forward {
      forall g | OffersFirst(resolver[f.service.uri].services, g)
        ensures !IsDid(g.service.uri) && packed.messagingService == Some(ServiceUsed(f.id, g.service.uri))
      {
        assert [g, f][1] == f;
        assert Route([g, f]) == [f.service.uri] + f.service.routingKeys;
      }
    }
  }
}
