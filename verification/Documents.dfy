/** DID documents, the resolver and the secrets of a wallet, as finite records and maps. */
module Documents {
  import opened Wrappers
  import opened Lists
  import opened Strings
  import opened Symbols

  /** `key` is what `get_jwk` makes of the method, if it can make anything of it. */
  datatype VerificationMethod = VerificationMethod(id: string, key: Option<Key>)

  datatype MessagingService = MessagingService(uri: string, routingKeys: seq<string>)

  /** The `accept` member of a service endpoint. */
  datatype Accept = NoAccept | BadAccept | Accepts(profiles: seq<string>)

  datatype Endpoint =
    | UriEndpoint(uri: string)
    | MapEndpoint(accept: Accept, service: Option<MessagingService>)

  datatype Service = Service(id: string, types: seq<string>, endpoints: Option<seq<Endpoint>>)

  datatype Document = Document(
    id: string,
    methods: seq<VerificationMethod>,
    keyAgreement: seq<string>,
    authentication: seq<string>,
    services: seq<Service>)

  type Resolver = map<string, Document>

  type Secrets = map<string, Key>

  /** `did_or_url`: the DID, and the whole text again if it has a fragment. */
  function DidOrUrl(s: string): (string, Option<string>) {
    match BeforeFirst(s, '#')
    case None => (s, None)
    case Some(did) => (did, Some(s))
  }

  predicate IsDid(s: string) {
    var parts := Split(s, ':');
    |parts| >= 3 && parts[0] == "did"
  }

  function Resolve(resolver: Resolver, did: string): Result<Document> {
    if did in resolver then Ok(resolver[did]) else Err(DIDNotResolved)
  }

  function FindMethod(methods: seq<VerificationMethod>, kid: string): Option<VerificationMethod> {
    if methods == [] then None
    else if methods[0].id == kid then Some(methods[0])
    else FindMethod(methods[1..], kid)
  }

  /** All of `kids` that equal `kid`, or all of them if no `kid` is given. */
  function FilterKid(kids: seq<string>, kid: Option<string>): seq<string> {
    match kid
    case None => kids
    case Some(k) => if k in kids then [k] else []
  }

  /** `find_secrets`: the ids that the wallet holds, in the order asked for. */
  function FindSecrets(secrets: Secrets, kids: seq<string>): (held: seq<string>)
    ensures forall k :: k in held <==> k in kids && k in secrets
  {
    if kids == [] then []
    else
      assert forall k :: k in kids <==> k == kids[0] || k in kids[1..];
      (if kids[0] in secrets then [kids[0]] else []) + FindSecrets(secrets, kids[1..])
  }

  lemma {:induction false} FindMethodId(methods: seq<VerificationMethod>, kid: string)
    ensures FindMethod(methods, kid).Some? ==>
              FindMethod(methods, kid).value.id == kid && FindMethod(methods, kid).value in methods
  {
    if methods != [] && methods[0].id != kid {
      FindMethodId(methods[1..], kid);
    }
  }

  lemma DidOfUrl(did: string, fragment: string)
    requires '#' !in did
    ensures DidOrUrl(did + "#" + fragment) == (did, Some(did + "#" + fragment))
    ensures DidOrUrl(did) == (did, None)
  {
    BeforeFirstConcat(did, fragment, '#');
    BeforeFirstExact(did, '#');
  }

  // ----- What these functions find -----

  /** A DID is "did:", something, a colon, and anything. */
  lemma IsDidExact(s: string)
    ensures IsDid(s) <==> "did:" <= s && ':' in s[4..]
  {
    if "did:" <= s {
      assert s == "did" + [':'] + s[4..];
      SplitAtSep("did", s[4..], ':');
      SplitMany(s[4..], ':');
    }
    if IsDid(s) {
      var parts := Split(s, ':');
      JoinSplit(s, ':');
      assert s == "did" + [':'] + Join(parts[1..], ':');
      assert s[..4] == "did:";
    }
  }

  /** A text is a DID URL exactly if it has a '#'; its DID is what stands before the first one. */
  lemma DidOrUrlExact(s: string)
    ensures var (did, url) := DidOrUrl(s);
            && '#' !in did
            && (if '#' in s then url == Some(s) && |did| < |s| && did == s[..|did|] && s[|did|] == '#'
                else url == None && did == s)
  {
    BeforeFirstExact(s, '#');
  }

  /** The first method with an id, if there is one. */
  lemma {:induction false} FindMethodExact(methods: seq<VerificationMethod>, kid: string)
    ensures match FindMethod(methods, kid)
            case None => forall m :: m in methods ==> m.id != kid
            case Some(vm) => exists i :: && 0 <= i < |methods| && methods[i] == vm && vm.id == kid
                                         && forall j :: 0 <= j < i ==> methods[j].id != kid
  {
    if methods != [] {
      if methods[0].id != kid {
        FindMethodExact(methods[1..], kid);
        assert forall m :: m in methods <==> m == methods[0] || m in methods[1..];
        if FindMethod(methods, kid).Some? {
          var vm := FindMethod(methods, kid).value;
          var i :| && 0 <= i < |methods[1..]| && methods[1..][i] == vm && vm.id == kid
                   && forall j :: 0 <= j < i ==> methods[1..][j].id != kid;
          assert methods[i + 1] == vm;
          assert forall j :: 0 < j < i + 1 ==> methods[j] == methods[1..][j - 1];
        }
      } else {
        assert methods[0] == FindMethod(methods, kid).value;
      }
    }
  }

  /** Without a key id all listed ids are kept, in their order; with one, that id alone, if it is listed. */
  lemma FilterKidExact(kids: seq<string>, kid: Option<string>)
    ensures kid.None? ==> FilterKid(kids, kid) == kids
    ensures kid.Some? && kid.value in kids ==> FilterKid(kids, kid) == [kid.value]
    ensures kid.Some? && kid.value !in kids ==> FilterKid(kids, kid) == []
  {
  }

  /** The held ids are the asked ones that the wallet has, in their order and as often as asked. */
  lemma {:induction false} FindSecretsExact(secrets: Secrets, kids: seq<string>)
    ensures SubList(FindSecrets(secrets, kids), kids)
    ensures forall k :: multiset(FindSecrets(secrets, kids))[k] == if k in secrets then multiset(kids)[k] else 0
  {
    if kids != [] {
      var rest := FindSecrets(secrets, kids[1..]);
      FindSecretsExact(secrets, kids[1..]);
      assert kids == [kids[0]] + kids[1..];
      if kids[0] in secrets {
        assert FindSecrets(secrets, kids)[1..] == rest;
      } else {
        assert FindSecrets(secrets, kids) == rest;
      }
    }
  }

  /** A DID URL of this DID: the DID, which has no '#', then a '#' and anything. */
  predicate UrlOf(url: string, did: string) {
    '#' !in did && |did| < |url| && url[..|did|] == did && url[|did|] == '#'
  }

  lemma UrlOfExact(url: string, did: string)
    ensures UrlOf(url, did) <==> DidOrUrl(url) == (did, Some(url))
  {
    hide DidOrUrl;
    DidOrUrlExact(url);
    if UrlOf(url, did) {
      assert url == did + "#" + url[|did| + 1..];
      DidOfUrl(did, url[|did| + 1..]);
    }
  }

  /** The document has no method with this id. */
  ghost predicate NoMethod(doc: Document, kid: string) {
    forall vm :: vm in doc.methods ==> vm.id != kid
  }

  /** The first method with this id gives this. */
  ghost predicate Gives(doc: Document, kid: string, key: Option<Key>) {
    exists i :: && 0 <= i < |doc.methods| && doc.methods[i].id == kid && doc.methods[i].key == key
                && forall j :: 0 <= j < i ==> doc.methods[j].id != kid
  }

  lemma GivesExact(doc: Document, kid: string, key: Option<Key>)
    ensures Gives(doc, kid, key)
            <==> FindMethod(doc.methods, kid).Some? && FindMethod(doc.methods, kid).value.key == key
    ensures NoMethod(doc, kid) <==> FindMethod(doc.methods, kid).None?
  {
    hide FindMethod;
    FindMethodExact(doc.methods, kid);
    match FindMethod(doc.methods, kid)
    case None =>
    case Some(vm) =>
      var i :| && 0 <= i < |doc.methods| && doc.methods[i] == vm && vm.id == kid
               && forall j :: 0 <= j < i ==> doc.methods[j].id != kid;
      assert doc.methods[i] in doc.methods;
  }

  lemma NoneHeld(secrets: Secrets, kids: seq<string>)
    ensures FindSecrets(secrets, kids) == [] <==> forall k :: k in kids ==> k !in secrets
  {
    hide FindSecrets;
    var held := FindSecrets(secrets, kids);
    if held != [] {
      assert held[0] in held;
    } else {
      forall k | k in kids ensures k !in secrets {
        assert k !in held;
      }
    }
  }
}
