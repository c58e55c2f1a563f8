/** Which keys `authcrypt` and `anoncrypt` choose, in terms of the two documents and the wallet. */
module Negotiation {
  import opened Wrappers
  import opened Octets
  import opened Symbols
  import opened Documents
  import opened Jwe
  import opened JweCrypto
  import opened Packing
  import opened Lists

  /** The algorithm of the key that a document gives for a key id. */
  function AlgOf(doc: Document, kid: string): Option<KeyAlg> {
    match FindMethod(doc.methods, kid)
    case None => None
    case Some(vm) => match vm.key case None => None case Some(key) => Some(key.alg)
  }

  predicate KnownKid(doc: Document, kid: string) {
    AlgOf(doc, kid).Some? && AlgOf(doc, kid) != Some(UnsupportedAlg)
  }

  /** A sender key and a recipient key with the same known algorithm. */
  predicate Compatible(fromDoc: Document, from: string, toDoc: Document, to: string) {
    KnownKid(fromDoc, from) && AlgOf(toDoc, to) == AlgOf(fromDoc, from)
  }

  /** All key ids of `kids` with this algorithm and no others, in their order. */
  ghost predicate AllWithAlg(chosen: seq<string>, doc: Document, kids: seq<string>, alg: KeyAlg) {
    && SubList(chosen, kids)
    && (forall k :: multiset(chosen)[k] == if AlgOf(doc, k) == Some(alg) then multiset(kids)[k] else 0)
  }

  lemma AllWithAlgElements(chosen: seq<string>, doc: Document, kids: seq<string>, alg: KeyAlg)
    requires AllWithAlg(chosen, doc, kids, alg)
    ensures forall k :: k in chosen <==> k in kids && AlgOf(doc, k) == Some(alg)
  {
    hide AlgOf, SubList;
    forall k ensures k in chosen <==> k in kids && AlgOf(doc, k) == Some(alg) {
      assert (k in chosen <==> k in multiset(chosen)) && (k in kids <==> k in multiset(kids));
    }
  }

  // ----- Resolved materials -----

  /** The resolved materials are the documented keys of the key ids, in order. */
  lemma {:induction false} MaterialsAt(doc: Document, kids: seq<string>, missing: ErrorKind)
    requires Materials(doc, kids, missing).Ok?
    ensures var keys := Materials(doc, kids, missing).value;
            && |keys| == |kids|
            && forall i :: 0 <= i < |kids| ==>
                 FindMethod(doc.methods, kids[i]) == Some(keys[i]) && keys[i].id == kids[i]
  {
    if kids != [] {
      MaterialsAt(doc, kids[1..], missing);
      FindMethodId(doc.methods, kids[0]);
    }
  }

  /** Keeping the keys of one algorithm keeps exactly the key ids of that algorithm. */
  lemma {:induction false} WithAlgKids(doc: Document, kids: seq<string>, missing: ErrorKind, alg: KeyAlg)
    requires Materials(doc, kids, missing).Ok?
    ensures AllWithAlg(Kids(WithAlg(Materials(doc, kids, missing).value, alg)), doc, kids, alg)
    ensures |WithAlg(Materials(doc, kids, missing).value, alg)| <= |kids|
  {
    hide AllWithAlg, HasAlg;
    if kids != [] {
      WithAlgKids(doc, kids[1..], missing, alg);
      var keys := Materials(doc, kids, missing).value;
      var rest := WithAlg(keys[1..], alg);
      FindMethodId(doc.methods, kids[0]);
      assert keys[1..] == Materials(doc, kids[1..], missing).value;
      HasAlgOf(doc, kids[0], keys[0], alg);
      if HasAlg(keys[0], alg) {
        var all := WithAlg(keys, alg);
        assert Kids(all) == [kids[0]] + Kids(rest);
      } else {
        assert WithAlg(keys, alg) == rest;
      }
      ExtendAllWithAlg(Kids(rest), doc, kids, alg);
    } else {
      EmptyAllWithAlg(doc, alg);
      assert Kids([]) == [];
    }
  }

  lemma HasAlgOf(doc: Document, kid: string, vm: VerificationMethod, alg: KeyAlg)
    requires FindMethod(doc.methods, kid) == Some(vm)
    ensures HasAlg(vm, alg) <==> AlgOf(doc, kid) == Some(alg)
  {
  }

  lemma EmptyAllWithAlg(doc: Document, alg: KeyAlg)
    ensures AllWithAlg([], doc, [], alg)
  {
  }

  lemma ExtendAllWithAlg(rest: seq<string>, doc: Document, kids: seq<string>, alg: KeyAlg)
    requires kids != [] && AllWithAlg(rest, doc, kids[1..], alg)
    ensures AllWithAlg(if AlgOf(doc, kids[0]) == Some(alg) then [kids[0]] + rest else rest, doc, kids, alg)
  {
    hide AlgOf;
    assert kids == [kids[0]] + kids[1..];
    var all := [kids[0]] + rest;
    assert all[1..] == rest;
  }

  lemma {:induction false} FirstAlgAt(doc: Document, kids: seq<string>, missing: ErrorKind)
    requires Materials(doc, kids, missing).Ok?
    ensures match FirstAlg(Materials(doc, kids, missing).value)
            case None => forall k :: k in kids ==> !KnownKid(doc, k)
            case Some(alg) =>
              exists i :: && 0 <= i < |kids| && KnownKid(doc, kids[i]) && AlgOf(doc, kids[i]) == Some(alg)
                          && forall j :: 0 <= j < i ==> !KnownKid(doc, kids[j])
  {
    if kids != [] {
      FirstAlgAt(doc, kids[1..], missing);
      var keys := Materials(doc, kids, missing).value;
      assert keys[1..] == Materials(doc, kids[1..], missing).value;
      assert forall k :: k in kids <==> k == kids[0] || k in kids[1..];
      if Known(keys[0]) {
        assert KnownKid(doc, kids[0]);
      } else if FirstAlg(keys[1..]).Some? {
        var alg := FirstAlg(keys[1..]).value;
        var i :| && 0 <= i < |kids[1..]| && KnownKid(doc, kids[1..][i]) && AlgOf(doc, kids[1..][i]) == Some(alg)
                 && forall j :: 0 <= j < i ==> !KnownKid(doc, kids[1..][j]);
        assert kids[i + 1] == kids[1..][i];
        forall j | 0 <= j < i + 1 ensures !KnownKid(doc, kids[j]) {
          if j > 0 { assert kids[j] == kids[1..][j - 1]; }
        }
      }
    }
  }

  // ----- When encryption for the chosen keys succeeds -----

  lemma {:induction false} WithAlgSame(keys: seq<VerificationMethod>, alg: KeyAlg)
    ensures forall n :: n in WithAlg(keys, alg) ==> n.key.alg == alg
  {
    if keys != [] {
      WithAlgSame(keys[1..], alg);
    }
  }

  lemma {:induction false} WrapsExactly(kdf: Kdf, epk: Key, send: Option<Key>, rs: seq<Named>, alg: bytes, apu: bytes,
                                        apv: bytes, tag: bytes, cek: bytes)
    requires epk.private && CanAgree(epk.alg) && rs != []
    requires forall n :: n in rs ==> n.key.alg == epk.alg
    ensures WrappedKeys(kdf, epk, send, rs, alg, apu, apv, tag, cek).Ok?
            <==> (kdf.Ecdh1Pu? ==> send.Some? && send.value.private && send.value.alg == epk.alg)
  {
    hide KdfEs, Kdf1Pu, Sym, Wrap;
    assert rs[0] in rs;
    if |rs| > 1 {
      WrapsExactly(kdf, epk, send, rs[1..], alg, apu, apv, tag, cek);
    } else {
      assert rs[1..] == [];
    }
  }

  /** Encryption for keys of one curve succeeds exactly when ECDH-1PU, if used, has a private sender
      key of that curve. */
  lemma EncryptedExactly(curve: KeyAlg, kdf: Kdf, alg: Algorithm, enc: EncAlgorithm, plaintext: bytes,
                         sender: Option<Named>, rs: seq<Named>, rnd: Fresh)
    requires CanAgree(curve) && rs != [] && forall n :: n in rs ==> n.key.alg == curve
    ensures Encrypted(curve, kdf, alg, enc, plaintext, sender, rs, rnd).Ok?
            <==> (kdf.Ecdh1Pu? ==> sender.Some? && sender.value.key.private && sender.value.key.alg == curve)
  {
    hide WrappedKeys, ProtectedFor, SealTag, SealText, Apv, Utf8;
    var epk := Key(curve, rnd.epk, true);
    var protected := ProtectedFor(HeaderFor(alg, enc, sender, Kids(rs), epk));
    WrapsExactly(kdf, epk, SenderKey(sender), rs, Utf8(AlgorithmName(alg)), OrEmpty(SkidOctets(sender)),
                 Apv(Kids(rs)), SealTag(EncName(enc), rnd.cek, rnd.iv, Utf8(protected), plaintext), rnd.cek);
  }

  // ----- anoncrypt -----

  /** The key agreements that a DID or a key id stands for: all that the document lists, in their order,
      or the key id alone if it is listed. */
  function Agreements(resolver: Resolver, did: string): seq<string>
    requires DidOrUrl(did).0 in resolver
  {
    var listed := resolver[DidOrUrl(did).0].keyAgreement;
    if '#' !in did then listed else if did in listed then [did] else []
  }

  lemma AgreementsFiltered(resolver: Resolver, did: string)
    requires DidOrUrl(did).0 in resolver
    ensures FilterKid(resolver[DidOrUrl(did).0].keyAgreement, DidOrUrl(did).1) == Agreements(resolver, did)
  {
    DidOrUrlExact(did);
    FilterKidExact(resolver[DidOrUrl(did).0].keyAgreement, DidOrUrl(did).1);
  }

  /** The document has a verification method with this id. */
  predicate Listed(doc: Document, kid: string) {
    exists vm :: vm in doc.methods && vm.id == kid
  }

  predicate AllListed(doc: Document, kids: seq<string>) {
    forall k :: k in kids ==> Listed(doc, k)
  }

  lemma {:induction false} MaterialsListed(doc: Document, kids: seq<string>, missing: ErrorKind)
    ensures Materials(doc, kids, missing).Ok? <==> AllListed(doc, kids)
    ensures Materials(doc, kids, missing).Err? ==> Materials(doc, kids, missing).kind == missing
  {
    hide Listed;
    if kids != [] {
      MaterialsListed(doc, kids[1..], missing);
      assert forall k :: k in kids <==> k == kids[0] || k in kids[1..];
      ListedExact(doc, kids[0]);
    }
  }

  lemma ListedExact(doc: Document, kid: string)
    ensures Listed(doc, kid) <==> FindMethod(doc.methods, kid).Some?
  {
    FindMethodExact(doc.methods, kid);
  }

  /** The outcome of looking up a recipient, case by case: a key id that the document does not list as a
      key agreement, or a document without any, is DIDUrlNotFound. */
  lemma RecipientKeysExact(to: string, resolver: Resolver, limit: nat, missing: ErrorKind)
    ensures var r := RecipientKeys(to, resolver, limit, missing);
            if DidOrUrl(to).0 !in resolver then r == Err(DIDNotResolved)
            else
              var doc, kids := resolver[DidOrUrl(to).0], Agreements(resolver, to);
              if kids == [] then r == Err(DIDUrlNotFound)
              else if |kids| > limit then r == Err(TooManyCryptoOperations)
              else if !AllListed(doc, kids) then r == Err(missing)
              else r.Ok? && r == Materials(doc, kids, missing)
  {
    hide DidOrUrl, FilterKid, Materials, AllListed;
    if DidOrUrl(to).0 in resolver {
      AgreementsFiltered(resolver, to);
      MaterialsListed(resolver[DidOrUrl(to).0], Agreements(resolver, to), missing);
    }
  }

  /** The outcome of looking up the sender, case by case. */
  lemma SenderKeysExact(from: string, resolver: Resolver, secrets: Secrets)
    ensures var r := SenderKeys(from, resolver, secrets);
            if DidOrUrl(from).0 !in resolver then r == Err(DIDNotResolved)
            else
              var doc, kids := resolver[DidOrUrl(from).0], Agreements(resolver, from);
              if kids == [] then r == Err(DIDUrlNotFound)
              else if forall k :: k in kids ==> k !in secrets then r == Err(SecretNotFound)
              else if !AllListed(doc, Held(resolver, secrets, from)) then r == Err(Malformed)
              else r.Ok? && r == Materials(doc, Held(resolver, secrets, from), Malformed)
  {
    hide DidOrUrl, FilterKid, Materials, AllListed;
    if DidOrUrl(from).0 in resolver {
      AgreementsFiltered(resolver, from);
      MaterialsListed(resolver[DidOrUrl(from).0], Held(resolver, secrets, from), Malformed);
      var held := Held(resolver, secrets, from);
      if held != [] {
        assert held[0] in held;
      }
    }
  }

  /** The sender's key agreements that the wallet holds, in their order. */
  function Held(resolver: Resolver, secrets: Secrets, from: string): seq<string>
    requires DidOrUrl(from).0 in resolver
  {
    FindSecrets(secrets, Agreements(resolver, from))
  }

  /** Past resolution and limit, `anoncrypt` succeeds exactly when the first key agreement with a
      known algorithm has one that can be used for key agreement, and then it encrypts for exactly
      the key agreements with that algorithm. */
  lemma AnoncryptExact(to: string, resolver: Resolver, msg: bytes, encAlg: AnonCryptAlg, limit: nat, rnd: Fresh)
    requires RecipientKeys(to, resolver, limit, Unsupported).Ok?
    ensures var doc, kids := resolver[DidOrUrl(to).0], Agreements(resolver, to);
            var r := Anoncrypt(to, resolver, msg, encAlg, limit, rnd);
            && (r.Ok? <==> exists i :: && 0 <= i < |kids| && KnownKid(doc, kids[i])
                                       && CanAgree(AlgOf(doc, kids[i]).value)
                                       && forall j :: 0 <= j < i ==> !KnownKid(doc, kids[j]))
            && (r.Err? ==> r.kind == InvalidState)
            && (r.Ok? ==>
                  exists i :: && 0 <= i < |kids| && KnownKid(doc, kids[i]) && CanAgree(AlgOf(doc, kids[i]).value)
                              && (forall j :: 0 <= j < i ==> !KnownKid(doc, kids[j]))
                              && kids[i] in r.value.1 && |r.value.1| <= limit
                              && AllWithAlg(r.value.1, doc, kids, AlgOf(doc, kids[i]).value))
  {
    hide Encrypted, AllWithAlg, Materials, WithAlg, FirstAlg, DidOrUrl;
    RecipientKeysExact(to, resolver, limit, Unsupported);
    var doc, kids := resolver[DidOrUrl(to).0], Agreements(resolver, to);
    AgreementsFiltered(resolver, to);
    FirstAlgAt(doc, kids, Unsupported);
    var keys := Materials(doc, kids, Unsupported).value;
    if FirstAlg(keys).Some? {
      var alg := FirstAlg(keys).value;
      var chosen := WithAlg(keys, alg);
      ChosenKids(doc, kids, Unsupported, alg);
      if CanAgree(alg) {
        EncryptedExactly(alg, EcdhEs, EcdhEsA256Kw, AnonEnc(encAlg), msg, None, chosen, rnd);
      }
    }
  }

  /** The keys chosen for an algorithm that some key agreement has. */
  lemma ChosenKids(doc: Document, kids: seq<string>, missing: ErrorKind, alg: KeyAlg)
    requires Materials(doc, kids, missing).Ok?
    ensures var chosen := WithAlg(Materials(doc, kids, missing).value, alg);
            && AllWithAlg(Kids(chosen), doc, kids, alg)
            && |Kids(chosen)| == |chosen| <= |kids|
            && (forall k :: k in kids && AlgOf(doc, k) == Some(alg) ==> k in Kids(chosen) && chosen != [])
            && (forall n :: n in chosen ==> n.key.alg == alg)
  {
    var keys := Materials(doc, kids, missing).value;
    WithAlgKids(doc, kids, missing, alg);
    WithAlgSame(keys, alg);
  }

  /** An Ed25519 key listed first blocks `anoncrypt`, although a usable key follows it. */
  lemma EdFirstBlocks(ed: Key, x: Key, msg: bytes, encAlg: AnonCryptAlg, limit: nat, rnd: Fresh)
    requires ed.alg == Ed25519 && x.alg == X25519 && limit >= 2
    ensures var methods := [VerificationMethod("did:x:a#1", Some(ed)), VerificationMethod("did:x:a#2", Some(x))];
            var doc := Document("did:x:a", methods,
                                ["did:x:a#1", "did:x:a#2"], [], []);
            && Anoncrypt("did:x:a", map["did:x:a" := doc], msg, encAlg, limit, rnd) == Err(InvalidState)
            && Anoncrypt("did:x:a", map["did:x:a" := doc.(keyAgreement := ["did:x:a#2", "did:x:a#1"])], msg, encAlg,
                         limit, rnd).Ok?
  {
    hide Encrypted, AllWithAlg, WithAlg, DidOrUrl;
    assert DidOrUrl("did:x:a") == ("did:x:a", None) by {
      DidOfUrl("did:x:a", "");
    }
    var one, two := "did:x:a#1", "did:x:a#2";
    assert one[8] != two[8];
    var a, b := VerificationMethod(one, Some(ed)), VerificationMethod(two, Some(x));
    var doc := Document("did:x:a", [a, b], [one, two], [], []);
    var swapped := doc.(keyAgreement := [two, one]);
    TwoMaterials(doc, a, b, Unsupported);
    TwoMaterials(swapped, a, b, Unsupported);
    AnoncryptExact("did:x:a", map["did:x:a" := doc], msg, encAlg, limit, rnd);
    AnoncryptExact("did:x:a", map["did:x:a" := swapped], msg, encAlg, limit, rnd);
    assert AlgOf(doc, one) == Some(Ed25519) && AlgOf(swapped, two) == Some(X25519);
    assert Agreements(map["did:x:a" := doc], "did:x:a")[0] == one;
    assert Agreements(map["did:x:a" := swapped], "did:x:a")[0] == two;
  }

  lemma TwoMaterials(doc: Document, a: VerificationMethod, b: VerificationMethod, missing: ErrorKind)
    requires doc.methods == [a, b] && a.id != b.id
    ensures FindMethod(doc.methods, a.id) == Some(a) && FindMethod(doc.methods, b.id) == Some(b)
    ensures Materials(doc, [a.id, b.id], missing) == Ok([a, b]) && Materials(doc, [b.id, a.id], missing) == Ok([b, a])
  {
    assert [a, b][1..] == [b] && FindMethod([b], b.id) == Some(b);
    assert [a.id, b.id][1..] == [b.id] && [b.id, a.id][1..] == [a.id] && [a.id][1..] == [] && [b.id][1..] == [];
    assert Materials(doc, [], missing) == Ok([]);
    assert [a] + [] == [a] && [b] + [] == [b] && [a] + [b] == [a, b] && [b] + [a] == [b, a];
    assert Materials(doc, [a.id], missing) == Ok([a]) && Materials(doc, [b.id], missing) == Ok([b]);
  }

  /** What was looked up in vain is reported as it is: `anoncrypt` fails as the recipient's lookup does,
      and `authcrypt` as the first that fails of resolving the recipient, looking up the sender, and
      looking up the recipient's keys. */
  lemma LookupErrors(to: string, from: string, resolver: Resolver, secrets: Secrets, msg: bytes, encAlg: AnonCryptAlg,
                     protectSender: bool, limit: nat, rnd: Fresh, outer: Fresh)
    ensures RecipientKeys(to, resolver, limit, Unsupported).Err? ==>
              Anoncrypt(to, resolver, msg, encAlg, limit, rnd)
              == Err(RecipientKeys(to, resolver, limit, Unsupported).kind)
    ensures var r := Authcrypt(to, from, resolver, secrets, msg, encAlg, protectSender, limit, rnd, outer);
            && (DidOrUrl(to).0 !in resolver ==> r == Err(DIDNotResolved))
            && (DidOrUrl(to).0 in resolver && SenderKeys(from, resolver, secrets).Err? ==>
                  r == Err(SenderKeys(from, resolver, secrets).kind))
            && (DidOrUrl(to).0 in resolver && SenderKeys(from, resolver, secrets).Ok?
                && RecipientKeys(to, resolver, limit, Malformed).Err? ==>
                  r == Err(RecipientKeys(to, resolver, limit, Malformed).kind))
  {
    hide RecipientKeys, SenderKeys, DidOrUrl, AuthLayers, WithAlg, FirstFit, Encrypted;
  }

  /** So a key id that the recipient's document does not list as a key agreement is refused. */
  lemma UnlistedKeyRefused(to: string, resolver: Resolver, msg: bytes, encAlg: AnonCryptAlg, limit: nat, rnd: Fresh)
    requires '#' in to && DidOrUrl(to).0 in resolver && to !in resolver[DidOrUrl(to).0].keyAgreement
    ensures Anoncrypt(to, resolver, msg, encAlg, limit, rnd) == Err(DIDUrlNotFound)
  {
    hide DidOrUrl, RecipientKeys, FirstAlg, WithAlg, Encrypted;
    RecipientKeysExact(to, resolver, limit, Unsupported);
  }

  // ----- authcrypt -----

  /** `f` is the position of the first held sender key that some recipient key is compatible with. */
  ghost predicate FirstCompatible(fromDoc: Document, froms: seq<string>, toDoc: Document, tos: seq<string>, f: int) {
    && 0 <= f < |froms|
    && (exists t :: t in tos && Compatible(fromDoc, froms[f], toDoc, t))
    && (forall g, t :: 0 <= g < f && t in tos ==> !Compatible(fromDoc, froms[g], toDoc, t))
  }

  lemma FitsExact(fromDoc: Document, froms: seq<string>, m1: ErrorKind, toDoc: Document, tos: seq<string>,
                  m2: ErrorKind, f: int)
    requires Materials(fromDoc, froms, m1).Ok? && Materials(toDoc, tos, m2).Ok? && 0 <= f < |froms|
    ensures |Materials(fromDoc, froms, m1).value| == |froms|
    ensures Fits(Materials(fromDoc, froms, m1).value[f], Materials(toDoc, tos, m2).value)
            <==> exists t :: t in tos && Compatible(fromDoc, froms[f], toDoc, t)
  {
    MaterialsAt(fromDoc, froms, m1);
    MaterialsAt(toDoc, tos, m2);
    var from, toKeys := Materials(fromDoc, froms, m1).value[f], Materials(toDoc, tos, m2).value;
    assert FindMethod(fromDoc.methods, froms[f]) == Some(from);
    if Fits(from, toKeys) {
      var i :| 0 <= i < |toKeys| && HasAlg(toKeys[i], from.key.value.alg);
      assert Compatible(fromDoc, froms[f], toDoc, tos[i]) && tos[i] in tos;
    }
    if t :| t in tos && Compatible(fromDoc, froms[f], toDoc, t) {
      var i :| 0 <= i < |tos| && tos[i] == t;
      assert toKeys[i] in toKeys && HasAlg(toKeys[i], from.key.value.alg);
    }
  }

  /** The key that negotiation finds is that of the first compatible held key id. */
  lemma FirstFitExact(fromDoc: Document, froms: seq<string>, m1: ErrorKind, toDoc: Document, tos: seq<string>,
                      m2: ErrorKind)
    requires Materials(fromDoc, froms, m1).Ok? && Materials(toDoc, tos, m2).Ok?
    ensures match FirstFit(Materials(fromDoc, froms, m1).value, Materials(toDoc, tos, m2).value)
            case None => forall f, t :: f in froms && t in tos ==> !Compatible(fromDoc, f, toDoc, t)
            case Some(vm) =>
              exists f :: && 0 <= f < |froms| && FirstCompatible(fromDoc, froms, toDoc, tos, f)
                          && vm.id == froms[f] && FindMethod(fromDoc.methods, froms[f]) == Some(vm)
  {
    hide Fits, Materials, Compatible;
    var keys, toKeys := Materials(fromDoc, froms, m1).value, Materials(toDoc, tos, m2).value;
    FirstFitFits(keys, toKeys);
    MaterialsAt(fromDoc, froms, m1);
    forall f | 0 <= f < |froms|
      ensures Fits(keys[f], toKeys) <==> exists t :: t in tos && Compatible(fromDoc, froms[f], toDoc, t)
    {
      FitsExact(fromDoc, froms, m1, toDoc, tos, m2, f);
    }
    match FirstFit(keys, toKeys)
    case None =>
      forall f, t | f in froms && t in tos ensures !Compatible(fromDoc, f, toDoc, t) {
        var i :| 0 <= i < |froms| && froms[i] == f;
        assert keys[i] in keys;
      }
    case Some(vm) =>
      var i :| && 0 <= i < |keys| && keys[i] == vm && Fits(keys[i], toKeys)
               && forall j :: 0 <= j < i ==> !Fits(keys[j], toKeys);
      assert FirstCompatible(fromDoc, froms, toDoc, tos, i);
  }

  /** Past resolution and limit: `authcrypt` reports NoCompatibleCrypto exactly when no held sender key
      is compatible with any recipient key. */
  lemma NoCompatibleExact(to: string, from: string, resolver: Resolver, secrets: Secrets, msg: bytes,
                          encAlg: AnonCryptAlg, protectSender: bool, limit: nat, rnd: Fresh, outer: Fresh)
    requires SenderKeys(from, resolver, secrets).Ok? && RecipientKeys(to, resolver, limit, Malformed).Ok?
    ensures var fromDoc, froms := resolver[DidOrUrl(from).0], Held(resolver, secrets, from);
            var toDoc, tos := resolver[DidOrUrl(to).0], Agreements(resolver, to);
            Authcrypt(to, from, resolver, secrets, msg, encAlg, protectSender, limit, rnd, outer)
            == Err(NoCompatibleCrypto)
            <==> forall f, t :: f in froms && t in tos ==> !Compatible(fromDoc, f, toDoc, t)
  {
    hide AuthLayers, WithAlg, Materials, FirstFit, DidOrUrl, Compatible;
    RecipientKeysExact(to, resolver, limit, Malformed);
    SenderKeysExact(from, resolver, secrets);
    FirstFitExact(resolver[DidOrUrl(from).0], Held(resolver, secrets, from), Malformed,
                  resolver[DidOrUrl(to).0], Agreements(resolver, to), Malformed);
    if FirstFit(SenderKeys(from, resolver, secrets).value, RecipientKeys(to, resolver, limit, Malformed).value).Some? {
      var f :| FirstCompatible(resolver[DidOrUrl(from).0], Held(resolver, secrets, from), resolver[DidOrUrl(to).0],
                               Agreements(resolver, to), f);
      AuthLayersErr(to, from, resolver, secrets, msg, encAlg, protectSender, limit, rnd, outer);
    }
  }

  lemma {:induction false} WrappedErr(kdf: Kdf, epk: Key, send: Option<Key>, rs: seq<Named>, alg: bytes, apu: bytes,
                                      apv: bytes, tag: bytes, cek: bytes)
    ensures WrappedKeys(kdf, epk, send, rs, alg, apu, apv, tag, cek).Err? ==>
              WrappedKeys(kdf, epk, send, rs, alg, apu, apv, tag, cek).kind == InvalidState
  {
    hide Agree, KdfEs, Kdf1Pu, Wrap;
    if rs != [] {
      WrappedErr(kdf, epk, send, rs[1..], alg, apu, apv, tag, cek);
    }
  }

  lemma EncryptedErr(curve: KeyAlg, kdf: Kdf, alg: Algorithm, enc: EncAlgorithm, plaintext: bytes,
                     sender: Option<Named>, rs: seq<Named>, rnd: Fresh)
    ensures Encrypted(curve, kdf, alg, enc, plaintext, sender, rs, rnd).Err? ==>
              Encrypted(curve, kdf, alg, enc, plaintext, sender, rs, rnd).kind == InvalidState
  {
    hide WrappedKeys, ProtectedFor, SealTag, SealText, Apv, Utf8;
    var epk := Key(curve, rnd.epk, true);
    var protected := ProtectedFor(HeaderFor(alg, enc, sender, Kids(rs), epk));
    WrappedErr(kdf, epk, SenderKey(sender), rs, Utf8(AlgorithmName(alg)), OrEmpty(SkidOctets(sender)),
               Apv(Kids(rs)), SealTag(EncName(enc), rnd.cek, rnd.iv, Utf8(protected), plaintext), rnd.cek);
  }

  /** Once a key is negotiated, no failure is reported as NoCompatibleCrypto. */
  lemma AuthLayersErr(to: string, from: string, resolver: Resolver, secrets: Secrets, msg: bytes,
                      encAlg: AnonCryptAlg, protectSender: bool, limit: nat, rnd: Fresh, outer: Fresh)
    requires SenderKeys(from, resolver, secrets).Ok? && RecipientKeys(to, resolver, limit, Malformed).Ok?
    requires FirstFit(SenderKeys(from, resolver, secrets).value,
                      RecipientKeys(to, resolver, limit, Malformed).value).Some?
    ensures Authcrypt(to, from, resolver, secrets, msg, encAlg, protectSender, limit, rnd, outer)
            != Err(NoCompatibleCrypto)
  {
    hide Encrypted, WithAlg, FirstFit, SenderKeys, RecipientKeys, DidOrUrl, Utf8, Kids;
    var fromKeys := SenderKeys(from, resolver, secrets).value;
    var toKeys := RecipientKeys(to, resolver, limit, Malformed).value;
    var fromKey := FirstFit(fromKeys, toKeys).value;
    if fromKey.id in secrets {
      FirstFitFits(fromKeys, toKeys);
      var sender := Named(fromKey.id, secrets[fromKey.id]);
      var chosen := WithAlg(toKeys, fromKey.key.value.alg);
      EncryptedErr(sender.key.alg, Ecdh1Pu, Ecdh1PuA256Kw, A256CbcHs512, msg, Some(sender), chosen, rnd);
      var inner := Encrypted(sender.key.alg, Ecdh1Pu, Ecdh1PuA256Kw, A256CbcHs512, msg, Some(sender), chosen, rnd);
      if inner.Ok? {
        EncryptedErr(sender.key.alg, EcdhEs, EcdhEsA256Kw, AnonEnc(encAlg), Utf8(inner.value), None, chosen, outer);
      }
    }
  }

  /** What `authcrypt` needs of the wallet for the negotiated key: the private key of the documented
      curve, on which keys can be agreed. */
  predicate Usable(doc: Document, secrets: Secrets, kid: string) {
    && KnownKid(doc, kid) && CanAgree(AlgOf(doc, kid).value)
    && kid in secrets && secrets[kid].private && secrets[kid].alg == AlgOf(doc, kid).value
  }

  /** Past resolution and limit: `authcrypt` succeeds exactly when the first compatible held sender key
      is usable. It then reports that key id, and encrypts for exactly the recipient's key agreements
      with its algorithm. */
  lemma AuthcryptExact(to: string, from: string, resolver: Resolver, secrets: Secrets, msg: bytes,
                       encAlg: AnonCryptAlg, protectSender: bool, limit: nat, rnd: Fresh, outer: Fresh)
    requires SenderKeys(from, resolver, secrets).Ok? && RecipientKeys(to, resolver, limit, Malformed).Ok?
    ensures var fromDoc, froms := resolver[DidOrUrl(from).0], Held(resolver, secrets, from);
            var toDoc, tos := resolver[DidOrUrl(to).0], Agreements(resolver, to);
            var r := Authcrypt(to, from, resolver, secrets, msg, encAlg, protectSender, limit, rnd, outer);
            && (r.Ok? <==>
                  exists f :: FirstCompatible(fromDoc, froms, toDoc, tos, f) && Usable(fromDoc, secrets, froms[f]))
            && (r.Ok? ==>
                  exists f :: && FirstCompatible(fromDoc, froms, toDoc, tos, f) && Usable(fromDoc, secrets, froms[f])
                              && r.value.fromKid == froms[f] && r.value.toKids != [] && |r.value.toKids| <= limit
                              && AllWithAlg(r.value.toKids, toDoc, tos, AlgOf(fromDoc, froms[f]).value))
  {
    hide Encrypted, AllWithAlg, WithAlg, Materials, FirstFit, DidOrUrl, Compatible, Utf8, FirstCompatible;
    var fromDoc, froms := resolver[DidOrUrl(from).0], Held(resolver, secrets, from);
    var toDoc, tos := resolver[DidOrUrl(to).0], Agreements(resolver, to);
    RecipientKeysExact(to, resolver, limit, Malformed);
    SenderKeysExact(from, resolver, secrets);
    FirstFitExact(fromDoc, froms, Malformed, toDoc, tos, Malformed);
    var fromKeys, toKeys := Materials(fromDoc, froms, Malformed).value, Materials(toDoc, tos, Malformed).value;
    if FirstFit(fromKeys, toKeys).Some? {
      var vm := FirstFit(fromKeys, toKeys).value;
      var f :| FirstCompatible(fromDoc, froms, toDoc, tos, f) && 0 <= f < |froms| && vm.id == froms[f]
               && FindMethod(fromDoc.methods, froms[f]) == Some(vm);
      OnlyFirst(fromDoc, froms, toDoc, tos, f);
      FirstFitFits(fromKeys, toKeys);
      CompatibleParts(fromDoc, froms, toDoc, tos, f);
      var alg := vm.key.value.alg;
      var chosen := WithAlg(toKeys, alg);
      ChosenKids(toDoc, tos, Malformed, alg);
      if CanAgree(alg) && froms[f] in secrets && secrets[froms[f]].alg == alg {
        var sender := Named(froms[f], secrets[froms[f]]);
        EncryptedExactly(alg, Ecdh1Pu, Ecdh1PuA256Kw, A256CbcHs512, msg, Some(sender), chosen, rnd);
        var inner := Encrypted(alg, Ecdh1Pu, Ecdh1PuA256Kw, A256CbcHs512, msg, Some(sender), chosen, rnd);
        if inner.Ok? {
          EncryptedExactly(alg, EcdhEs, EcdhEsA256Kw, AnonEnc(encAlg), Utf8(inner.value), None, chosen, outer);
        }
      }
    } else {
      NoneFirst(fromDoc, froms, toDoc, tos);
    }
  }

  lemma CompatibleParts(fromDoc: Document, froms: seq<string>, toDoc: Document, tos: seq<string>, f: int)
    requires FirstCompatible(fromDoc, froms, toDoc, tos, f)
    ensures 0 <= f < |froms| && KnownKid(fromDoc, froms[f])
    ensures exists t :: t in tos && AlgOf(toDoc, t) == AlgOf(fromDoc, froms[f])
  {
  }

  lemma OnlyFirst(fromDoc: Document, froms: seq<string>, toDoc: Document, tos: seq<string>, f: int)
    requires FirstCompatible(fromDoc, froms, toDoc, tos, f)
    ensures forall g :: FirstCompatible(fromDoc, froms, toDoc, tos, g) ==> g == f
  {
  }

  lemma NoneFirst(fromDoc: Document, froms: seq<string>, toDoc: Document, tos: seq<string>)
    requires forall f, t :: f in froms && t in tos ==> !Compatible(fromDoc, f, toDoc, t)
    ensures forall g :: !FirstCompatible(fromDoc, froms, toDoc, tos, g)
  {
  }
}
