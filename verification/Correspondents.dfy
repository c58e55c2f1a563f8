/** Two parties with one key each: here packing always succeeds, and what it yields is unpacked, with no
    premise left on how the keys were chosen. */
module Correspondents {
  import opened Wrappers
  import opened Octets
  import opened Lists
  import opened Strings
  import opened Symbols
  import opened Documents
  import opened JweCrypto
  import opened JweTheorems
  import opened Jws
  import opened Messages
  import opened Rotation
  import opened Packing
  import opened Negotiation
  import opened Routing
  import opened PackEncrypted
  import opened Unpacking
  import opened RoundTrip
  import opened Delivery

  function AgreementKid(did: string): string {
    did + "#" + "agreement"
  }

  function SigningKidOf(did: string): string {
    did + "#" + "signing"
  }

  /** A party's key pairs: one to agree on keys with, on X25519, and one to sign with, on Ed25519. */
  datatype Party = Party(did: string, agreement: Key, signing: Key)

  predicate ValidParty(p: Party) {
    && IsDid(p.did) && '#' !in p.did
    && p.agreement.alg == X25519 && p.agreement.private && p.signing.alg == Ed25519 && p.signing.private
  }

  function DocumentOf(p: Party): Document {
    Document(p.did, [VerificationMethod(AgreementKid(p.did), Some(Public(p.agreement))),
                     VerificationMethod(SigningKidOf(p.did), Some(Public(p.signing)))],
             [AgreementKid(p.did)], [SigningKidOf(p.did)], [])
  }

  function WalletOf(p: Party): Secrets {
    map[AgreementKid(p.did) := p.agreement, SigningKidOf(p.did) := p.signing]
  }

  function ResolverOf(a: Party, b: Party): Resolver {
    map[a.did := DocumentOf(a), b.did := DocumentOf(b)]
  }

  lemma PartyKids(p: Party)
    requires ValidParty(p)
    ensures DidOrUrl(p.did) == (p.did, None)
    ensures DidOrUrl(AgreementKid(p.did)) == (p.did, Some(AgreementKid(p.did)))
    ensures DidOrUrl(SigningKidOf(p.did)) == (p.did, Some(SigningKidOf(p.did)))
    ensures AgreementKid(p.did) != SigningKidOf(p.did)
    ensures FindMethod(DocumentOf(p).methods, AgreementKid(p.did))
            == Some(VerificationMethod(AgreementKid(p.did), Some(Public(p.agreement))))
    ensures FindMethod(DocumentOf(p).methods, SigningKidOf(p.did))
            == Some(VerificationMethod(SigningKidOf(p.did), Some(Public(p.signing))))
  {
    hide DidOrUrl;
    DidOfUrl(p.did, "agreement");
    DidOfUrl(p.did, "signing");
    assert |AgreementKid(p.did)| != |SigningKidOf(p.did)|;
    var methods := DocumentOf(p).methods;
    assert methods[1..] == [VerificationMethod(SigningKidOf(p.did), Some(Public(p.signing)))];
  }

  lemma OneHeld(secrets: Secrets, kid: string)
    ensures FindSecrets(secrets, [kid]) == if kid in secrets then [kid] else []
  {
    assert [kid][1..] == [] && [kid] + [] == [kid];
  }

  /** The key agreements that a party publishes and holds. */
  lemma PartyKeys(p: Party, resolver: Resolver, limit: nat)
    requires ValidParty(p) && p.did in resolver && resolver[p.did] == DocumentOf(p) && limit >= 1
    ensures CanReceive(p.did, resolver, limit) && CanSend(p.did, resolver, WalletOf(p))
    ensures Agreements(resolver, p.did) == [AgreementKid(p.did)]
    ensures Held(resolver, WalletOf(p), p.did) == [AgreementKid(p.did)]
    ensures AlgOf(DocumentOf(p), AgreementKid(p.did)) == Some(X25519)
  {
    hide DidOrUrl, FindMethod, FindSecrets;
    PartyKids(p);
    OneHeld(WalletOf(p), AgreementKid(p.did));
  }

  lemma PartyOwns(p: Party, resolver: Resolver)
    requires ValidParty(p) && p.did in resolver && resolver[p.did] == DocumentOf(p)
    ensures Owns(resolver, WalletOf(p), AgreementKid(p.did)) && SigningKidOf(p.did) in WalletOf(p)
    ensures Publishes(resolver, SigningKidOf(p.did), WalletOf(p)[SigningKidOf(p.did)])
  {
    hide DidOrUrl, FindMethod;
    PartyKids(p);
  }

  lemma OnlyOne(chosen: seq<string>, doc: Document, kid: string, alg: KeyAlg)
    requires AllWithAlg(chosen, doc, [kid], alg) && AlgOf(doc, kid) == Some(alg)
    ensures chosen == [kid]
  {
    hide AlgOf, SubList;
    SubListShorter(chosen, [kid]);
    assert kid in [kid] && kid in chosen && chosen[0] in chosen;
  }

  lemma ContentSucceeds(m: Message, a: Party, sign: bool, resolver: Resolver)
    requires ValidParty(a) && a.did in resolver && resolver[a.did] == DocumentOf(a) && m.fromPrior.None?
    ensures var r := Inner(m, if sign then Some(a.did) else None, resolver, WalletOf(a));
            r.Ok? && r.value.1 == if sign then Some(SigningKidOf(a.did)) else None
  {
    hide DidOrUrl, FindMethod, FindSecrets, Utf8;
    PartyKids(a);
    OneHeld(WalletOf(a), SigningKidOf(a.did));
  }

  /** The documents and wallets of two parties are ready for messages between them. */
  lemma TwoReady(a: Party, b: Party, from: bool, limit: nat)
    requires ValidParty(a) && ValidParty(b) && a.did != b.did && limit >= 1
    ensures PartiesReady(b.did, if from then Some(a.did) else None, ResolverOf(a, b), WalletOf(a), WalletOf(b), limit,
                         X25519)
    ensures Agreements(ResolverOf(a, b), b.did) == [AgreementKid(b.did)]
  {
    hide DidOrUrl, FindMethod, FindSecrets, Owns, DocumentOf, WalletOf, Agreements, Held, AlgOf, CanReceive, CanSend;
    var resolver, kid, to := ResolverOf(a, b), AgreementKid(a.did), AgreementKid(b.did);
    PartyKids(a);
    PartyKids(b);
    PartyKeys(a, resolver, limit);
    PartyKeys(b, resolver, limit);
    PartyOwns(a, resolver);
    PartyOwns(b, resolver);
    HoldsPair(a);
    HoldsPair(b);
    assert [kid][0] == kid && [to][0] == to && to in [to];
    if from {
      assert Compatible(DocumentOf(a), kid, DocumentOf(b), to);
      assert FirstCompatible(DocumentOf(a), [kid], DocumentOf(b), [to], 0);
      assert Usable(DocumentOf(a), WalletOf(a), [kid][0]);
    } else {
      assert FirstKnown(DocumentOf(b), [to], 0);
    }
  }

  lemma HoldsPair(p: Party)
    requires ValidParty(p)
    ensures AgreementKid(p.did) in WalletOf(p) && WalletOf(p)[AgreementKid(p.did)] == p.agreement
  {
    assert |AgreementKid(p.did)| != |SigningKidOf(p.did)|;
  }

  /** For any two parties, any message between them, and every choice of sender, signer, protection and
      algorithm: packing succeeds, and the recipient unpacks what was packed. */
  lemma AlwaysDelivered(a: Party, b: Party, m: Message, from: bool, sign: bool, options: PackOptions,
                        random: PackRandom, o: Options)
    requires ValidParty(a) && ValidParty(b) && a.did != b.did
    requires WellFormed(m) && m.fromPrior.None? && m.msgType != FORWARD_MSG_TYPE
    requires m.from.None? || m.from.value == a.did
    requires m.to.None? || b.did in m.to.value
    requires !options.forwarding.forward && options.forwarding.limit >= 1 && o.limit >= 3
    ensures var sender, signer := if from then Some(a.did) else None, if sign then Some(a.did) else None;
            var r := Pack(m, b.did, sender, signer, ResolverOf(a, b), WalletOf(a), options, random);
            && r.Ok? && r.value.1.toKids == [AgreementKid(b.did)]
            && Delivered(UnpackString(r.value.0, ResolverOf(a, b), WalletOf(b), o), m, sender, signer, ResolverOf(a, b),
                         WalletOf(a), options, r.value.1)
  {
    hide DidOrUrl, EncryptFor, Inner, UnpackString, Delivered, WellFormed, IsDid, WalletOf, ResolverOf, DocumentOf,
         Publishes, PartiesReady, AllWithAlg, Agreements;
    var resolver := ResolverOf(a, b);
    var sender, signer := if from then Some(a.did) else None, if sign then Some(a.did) else None;
    PartyKids(a);
    PartyKids(b);
    Published(a, b);
    PartyOwns(a, resolver);
    ContentSucceeds(m, a, sign, resolver);
    TwoReady(a, b, from, options.forwarding.limit);
    PartyKeys(b, resolver, options.forwarding.limit);
    assert NotForMe(m, resolver, WalletOf(b));
    DocumentsDeliver(m, b.did, sender, signer, resolver, WalletOf(a), WalletOf(b), options, random, o, X25519);
    OnlyOne(Pack(m, b.did, sender, signer, resolver, WalletOf(a), options, random).value.1.toKids, DocumentOf(b),
            AgreementKid(b.did), X25519);
  }

  lemma Published(a: Party, b: Party)
    requires a.did != b.did
    ensures a.did in ResolverOf(a, b) && ResolverOf(a, b)[a.did] == DocumentOf(a)
    ensures b.did in ResolverOf(a, b) && ResolverOf(a, b)[b.did] == DocumentOf(b)
  {
  }
}
