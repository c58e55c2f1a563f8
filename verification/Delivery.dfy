/** The whole-stack round trip with its premises on the documents and the wallets only: packing succeeds,
    and what it yields is unpacked, for documents with any keys on any curves. */
module Delivery {
  import opened Wrappers
  import opened Octets
  import opened Lists
  import opened Symbols
  import opened Documents
  import opened JweCrypto
  import opened Messages
  import opened Rotation
  import opened Packing
  import opened Negotiation
  import opened Routing
  import opened PackEncrypted
  import opened Unpacking
  import opened RoundTrip

  /** The recipient resolves, and its key agreements are at least one, no more than the limit, and listed. */
  predicate CanReceive(to: string, resolver: Resolver, limit: nat) {
    && DidOrUrl(to).0 in resolver
    && var kids := Agreements(resolver, to);
       kids != [] && |kids| <= limit && AllListed(resolver[DidOrUrl(to).0], kids)
  }

  /** The sender resolves, and the wallet holds some of its key agreements, all of them listed. */
  predicate CanSend(from: string, resolver: Resolver, secrets: Secrets) {
    && DidOrUrl(from).0 in resolver
    && Agreements(resolver, from) != [] && Held(resolver, secrets, from) != []
    && AllListed(resolver[DidOrUrl(from).0], Held(resolver, secrets, from))
  }

  lemma ReceiveKeys(to: string, resolver: Resolver, limit: nat, missing: ErrorKind)
    ensures CanReceive(to, resolver, limit) ==> RecipientKeys(to, resolver, limit, missing).Ok?
  {
    hide RecipientKeys, DidOrUrl, AllListed;
    RecipientKeysExact(to, resolver, limit, missing);
  }

  lemma SendKeys(from: string, resolver: Resolver, secrets: Secrets)
    ensures CanSend(from, resolver, secrets) ==> SenderKeys(from, resolver, secrets).Ok?
  {
    hide SenderKeys, DidOrUrl, AllListed;
    SenderKeysExact(from, resolver, secrets);
    if CanSend(from, resolver, secrets) {
      var held := Held(resolver, secrets, from);
      assert held[0] in held;
    }
  }

  /** The first key agreement with a known algorithm. */
  ghost predicate FirstKnown(doc: Document, kids: seq<string>, i: int) {
    0 <= i < |kids| && KnownKid(doc, kids[i]) && forall j :: 0 <= j < i ==> !KnownKid(doc, kids[j])
  }

  /** The algorithm that the parties' documents and the sender's wallet lead to. */
  ghost predicate Negotiated(to: string, from: Option<string>, resolver: Resolver, secrets: Secrets, alg: KeyAlg)
    requires DidOrUrl(to).0 in resolver && (from.Some? ==> DidOrUrl(from.value).0 in resolver)
  {
    var toDoc, tos := resolver[DidOrUrl(to).0], Agreements(resolver, to);
    match from
    case None => exists i :: FirstKnown(toDoc, tos, i) && AlgOf(toDoc, tos[i]) == Some(alg) && CanAgree(alg)
    case Some(f) =>
      var fromDoc, froms := resolver[DidOrUrl(f).0], Held(resolver, secrets, f);
      exists i :: && 0 <= i < |froms| && FirstCompatible(fromDoc, froms, toDoc, tos, i)
                  && Usable(fromDoc, secrets, froms[i]) && AlgOf(fromDoc, froms[i]) == Some(alg)
  }

  /** Encryption succeeds, for exactly the recipient's key agreements with the negotiated algorithm. */
  lemma EncryptionSucceeds(text: string, to: string, from: Option<string>, resolver: Resolver, secrets: Secrets,
                           options: PackOptions, random: PackRandom, alg: KeyAlg)
    requires CanReceive(to, resolver, options.forwarding.limit)
    requires from.Some? ==> CanSend(from.value, resolver, secrets)
    requires Negotiated(to, from, resolver, secrets, alg)
    ensures var x := EncryptFor(text, to, from, resolver, secrets, options, random);
            && x.Ok?
            && AllWithAlg(x.value.toKids, resolver[DidOrUrl(to).0], Agreements(resolver, to), alg)
            && (x.value.fromKid.Some? <==> from.Some?)
            && (from.Some? ==> x.value.fromKid.value in Held(resolver, secrets, from.value))
  {
    hide DidOrUrl, Authcrypt, Anoncrypt, SenderKeys, RecipientKeys, AllWithAlg, Utf8, FirstCompatible, Usable, CanAgree,
         KnownKid, FindSecrets;
    var encAlg, limit := options.forwarding.encAlgAnon, options.forwarding.limit;
    var toDoc, tos := resolver[DidOrUrl(to).0], Agreements(resolver, to);
    ReceiveKeys(to, resolver, limit, Malformed);
    ReceiveKeys(to, resolver, limit, Unsupported);
    match from
    case None =>
      AnoncryptExact(to, resolver, Utf8(text), encAlg, limit, random.rnd);
      var i :| FirstKnown(toDoc, tos, i) && AlgOf(toDoc, tos[i]) == Some(alg) && CanAgree(alg);
      OnlyFirstKnown(toDoc, tos, i);
      assert KnownKid(toDoc, tos[i]) && CanAgree(AlgOf(toDoc, tos[i]).value);
    case Some(f) =>
      var fromDoc, froms := resolver[DidOrUrl(f).0], Held(resolver, secrets, f);
      SendKeys(f, resolver, secrets);
      AuthcryptExact(to, f, resolver, secrets, Utf8(text), encAlg, options.protectSender, limit, random.rnd,
                     random.outer);
      var i :| && 0 <= i < |froms| && FirstCompatible(fromDoc, froms, toDoc, tos, i)
               && Usable(fromDoc, secrets, froms[i]) && AlgOf(fromDoc, froms[i]) == Some(alg);
      OnlyFirst(fromDoc, froms, toDoc, tos, i);
      CompatibleParts(fromDoc, froms, toDoc, tos, i);
  }

  lemma OnlyFirstKnown(doc: Document, kids: seq<string>, i: int)
    requires FirstKnown(doc, kids, i)
    ensures forall g :: FirstKnown(doc, kids, g) ==> g == i
    ensures forall g :: (&& 0 <= g < |kids| && KnownKid(doc, kids[g])
                         && forall j :: 0 <= j < g ==> !KnownKid(doc, kids[j]))
                        ==> g == i
  {
    hide KnownKid;
  }

  /** The recipient's key ids are key ids of its DID, its wallet has the published private key of each that
      it holds, and it holds at least one with this algorithm. */
  predicate Holds(to: string, resolver: Resolver, mine: Secrets, alg: KeyAlg)
    requires DidOrUrl(to).0 in resolver
  {
    var kids := Agreements(resolver, to);
    && (forall k :: k in kids ==> DidOrUrl(k) == (DidOrUrl(to).0, Some(k)) && (k in mine ==> Owns(resolver, mine, k)))
    && exists k :: k in kids && k in mine && AlgOf(resolver[DidOrUrl(to).0], k) == Some(alg)
  }

  predicate SenderOwns(from: string, resolver: Resolver, secrets: Secrets)
    requires DidOrUrl(from).0 in resolver
  {
    forall k :: k in Held(resolver, secrets, from) ==> DidOrUrl(k).0 == DidOrUrl(from).0 && Owns(resolver, secrets, k)
  }

  lemma {:induction false} FewerHeld(secrets: Secrets, kids: seq<string>)
    ensures |FindSecrets(secrets, kids)| <= |kids|
  {
    if kids != [] {
      FewerHeld(secrets, kids[1..]);
    }
  }

  lemma ChosenReachable(to: string, resolver: Resolver, mine: Secrets, alg: KeyAlg, toKids: seq<string>)
    requires DidOrUrl(to).0 in resolver && Holds(to, resolver, mine, alg)
    requires AllWithAlg(toKids, resolver[DidOrUrl(to).0], Agreements(resolver, to), alg)
    ensures Reachable(resolver, mine, DidOrUrl(to).0, toKids)
    ensures |FindSecrets(mine, toKids)| <= |Agreements(resolver, to)|
  {
    hide DidOrUrl, Owns, AlgOf, SubList;
    var k :| k in Agreements(resolver, to) && k in mine && AlgOf(resolver[DidOrUrl(to).0], k) == Some(alg);
    AllWithAlgElements(toKids, resolver[DidOrUrl(to).0], Agreements(resolver, to), alg);
    assert k in FindSecrets(mine, toKids);
    FewerHeld(mine, toKids);
    SubListShorter(toKids, Agreements(resolver, to));
  }

  /** All that delivery needs of the documents and the two wallets. */
  ghost predicate PartiesReady(to: string, from: Option<string>, resolver: Resolver, secrets: Secrets, mine: Secrets,
                               limit: nat, alg: KeyAlg)
  {
    && CanReceive(to, resolver, limit)
    && (from.Some? ==> CanSend(from.value, resolver, secrets) && SenderOwns(from.value, resolver, secrets))
    && Negotiated(to, from, resolver, secrets, alg)
    && Holds(to, resolver, mine, alg)
  }

  /** The content can be produced, and if it is signed, with a key that is published for signing. */
  predicate ContentReady(m: Message, signBy: Option<string>, resolver: Resolver, secrets: Secrets) {
    var content := Inner(m, signBy, resolver, secrets);
    && WellFormed(m) && content.Ok?
    && (content.value.1.Some? ==>
          content.value.1.value in secrets
          && Publishes(resolver, content.value.1.value, secrets[content.value.1.value]))
  }

  lemma PackedDeliverable(m: Message, to: string, from: Option<string>, signBy: Option<string>, resolver: Resolver,
                          secrets: Secrets, mine: Secrets, limit: nat, alg: KeyAlg, packed: PackMetadata, o: Options)
    requires ContentReady(m, signBy, resolver, secrets) && PartiesReady(to, from, resolver, secrets, mine, limit, alg)
    requires AllWithAlg(packed.toKids, resolver[DidOrUrl(to).0], Agreements(resolver, to), alg)
    requires packed.signByKid == Inner(m, signBy, resolver, secrets).value.1
    requires from.Some? ==> packed.fromKid.Some? && packed.fromKid.value in Held(resolver, secrets, from.value)
    requires if from.Some? then Affordable(o, |Agreements(resolver, to)|) else o.limit >= 2
    requires from.None? && signBy.None? && o.unwrapForward ==> NotForMe(m, resolver, mine)
    ensures Deliverable(m, to, from, signBy, resolver, secrets, mine, packed, o)
  {
    hide DidOrUrl, Inner, Owns, Publishes, WellFormed, FindSecrets, Negotiated, AllWithAlg, Holds, NotForMe, Agreements,
         Reachable;
    InnerParts(m, signBy, resolver, secrets);
    ChosenReachable(to, resolver, mine, alg, packed.toKids);
  }

  /** Packing succeeds and delivers, without forwarding, whenever the call is valid, the content can be
      produced, and the documents and wallets lead to an algorithm that the recipient holds a key with:
      for documents with any number of keys on any curves. */
  lemma DocumentsDeliver(m: Message, to: string, from: Option<string>, signBy: Option<string>, resolver: Resolver,
                         secrets: Secrets, mine: Secrets, options: PackOptions, random: PackRandom, o: Options,
                             alg: KeyAlg)
    requires ValidatePackEncrypted(m, to, from, signBy).Ok? && !options.forwarding.forward
    requires ContentReady(m, signBy, resolver, secrets)
    requires PartiesReady(to, from, resolver, secrets, mine, options.forwarding.limit, alg)
    requires if from.Some? then Affordable(o, |Agreements(resolver, to)|) else o.limit >= 2
    requires from.None? && signBy.None? && o.unwrapForward ==> NotForMe(m, resolver, mine)
    ensures var r := Pack(m, to, from, signBy, resolver, secrets, options, random);
            && r.Ok?
            && AllWithAlg(r.value.1.toKids, resolver[DidOrUrl(to).0], Agreements(resolver, to), alg)
            && Delivered(UnpackString(r.value.0, resolver, mine, o), m, from, signBy, resolver, secrets, options,
                         r.value.1)
  {
    hide DidOrUrl, EncryptFor, Inner, UnpackString, Delivered, Deliverable, Publishes, WellFormed, FindSecrets,
         Negotiated, ValidatePackEncrypted, AllWithAlg, Holds, NotForMe, CanSend, SenderOwns;
    var content := Inner(m, signBy, resolver, secrets).value;
    EncryptionSucceeds(content.0, to, from, resolver, secrets, options, random, alg);
    var packed := Pack(m, to, from, signBy, resolver, secrets, options, random).value;
    PackedDeliverable(m, to, from, signBy, resolver, secrets, mine, options.forwarding.limit, alg, packed.1, o);
    PackUnpack(m, to, from, signBy, resolver, secrets, mine, options, random, packed.0, packed.1, o);
  }
}
