/** Who cannot unpack: an encrypted message opens only for a wallet that holds the private part of a key
    it was encrypted for. */
module Addressees {
  import opened Wrappers
  import opened Octets
  import opened Serde
  import opened Symbols
  import opened Documents
  import opened Jwe
  import opened JweCrypto
  import opened JweTheorems
  import opened Envelopes
  import opened Packing
  import opened Unpacking
  import opened Parties
  import opened RoundTrip
  import Base64Url

  lemma OtherCurve(k: Key, other: KeyAlg)
    requires FromJwk(other, ToJwk(k)).Ok?
    ensures other == k.alg
  {
    hide ToJwk, Values, Base64Url.Encode, Base64Url.Decode, NumOctets, FromNumOctets;
    JwkValues(k, "crv");
    var names := ["X25519", "P-256", "secp256k1", "Ed25519", "unsupported"];
    assert |names[0]| == 6 && |names[1]| == 5 && |names[2]| == 9 && |names[3]| == 7 && |names[4]| == 11;
  }

  /** A decryption that succeeds is on the curve of the encryption, by an entitled key. */
  lemma OpenedByEntitled(curve: KeyAlg, kdf: Kdf, alg: Algorithm, enc: EncAlgorithm, plaintext: bytes,
                         sender: Option<Named>, recipients: seq<Named>, rnd: Fresh, p: ParsedJwe, other: KeyAlg,
                         assumed: Option<Named>, recipient: Named)
    requires Standard(alg, enc)
    requires Sealed(curve, kdf, alg, enc, plaintext, sender, recipients, rnd).Ok?
    requires ParseJwe(Sealed(curve, kdf, alg, enc, plaintext, sender, recipients, rnd).value) == Ok(p)
    requires Decrypted(p, other, kdf, enc, assumed, recipient).Ok?
    ensures Entitled(recipients, recipient) && SameSender(kdf, sender, assumed)
  {
    hide Sealed, ParseJwe, ToJwk, FromJwk, Entitled, SameSender, DeriveKey, FindRecipient, Unwrap, Open, Apv,
         ProtectedFor, Base64Url.Decode;
    ParsedSealed(curve, kdf, alg, enc, plaintext, sender, recipients, rnd);
    OtherCurve(Key(curve, rnd.epk, true), other);
    DecryptExact(curve, kdf, alg, enc, plaintext, sender, recipients, rnd, assumed, recipient);
  }

  ghost predicate HoldsOne(recipients: seq<Named>, mine: Secrets) {
    exists k :: k in mine && k in Kids(recipients) && Entitled(recipients, Named(k, mine[k]))
  }

  /** The loop of the anoncrypt step succeeds only with an entitled key. */
  lemma AnonNeedsKey(curve: KeyAlg, enc: EncAlgorithm, plaintext: bytes, recipients: seq<Named>, rnd: Fresh,
                     p: ParsedJwe, mine: Secrets, allKeys: bool)
    requires Standard(EcdhEsA256Kw, enc) && p.header.enc == enc
    requires Sealed(curve, EcdhEs, EcdhEsA256Kw, enc, plaintext, None, recipients, rnd).Ok?
    requires ParseJwe(Sealed(curve, EcdhEs, EcdhEsA256Kw, enc, plaintext, None, recipients, rnd).value) == Ok(p)
    requires var held := FindSecrets(mine, Kids(recipients)); held != [] && AnonPayload(p, held, mine, allKeys).Ok?
    ensures HoldsOne(recipients, mine)
  {
    hide Sealed, ParseJwe, Decrypted, Entitled;
    var held := FindSecrets(mine, Kids(recipients));
    var k := held[0];
    assert k in held;
    OpenedByEntitled(curve, EcdhEs, EcdhEsA256Kw, enc, plaintext, None, recipients, rnd, p, mine[k].alg, None,
                     Named(k, mine[k]));
  }

  lemma AuthNeedsKey(curve: KeyAlg, plaintext: bytes, sender: Named, recipients: seq<Named>, rnd: Fresh, p: ParsedJwe,
                     fromKid: Option<string>, fromKey: Option<Key>, mine: Secrets, o: Options, count: nat)
    requires p.header.enc == A256CbcHs512
    requires Sealed(curve, Ecdh1Pu, Ecdh1PuA256Kw, A256CbcHs512, plaintext, Some(sender), recipients, rnd).Ok?
    requires ParseJwe(Sealed(curve, Ecdh1Pu, Ecdh1PuA256Kw, A256CbcHs512, plaintext, Some(sender), recipients,
                             rnd).value) == Ok(p)
    requires var held := FindSecrets(mine, Kids(recipients));
             held != [] && AuthPayload(p, fromKid, fromKey, held, mine, o, count).Ok?
    ensures HoldsOne(recipients, mine)
    ensures fromKid == Some(sender.kid) && fromKey.Some? && SameKey(fromKey.value, sender.key)
  {
    hide Sealed, ParseJwe, Decrypted, Entitled;
    var held := FindSecrets(mine, Kids(recipients));
    var k := held[0];
    assert k in held;
    assert AuthOne(p, fromKid, fromKey, k, mine).Ok?;
    OpenedByEntitled(curve, Ecdh1Pu, Ecdh1PuA256Kw, A256CbcHs512, plaintext, Some(sender), recipients, rnd, p,
                     mine[k].alg, Some(Named(fromKid.value, fromKey.value)), Named(k, mine[k]));
  }

  /** An anonymously encrypted message: without any of its keys the wallet is told so, and no wallet
      without an entitled key unpacks it. */
  lemma AnonOnlyForRecipients(curve: KeyAlg, enc: EncAlgorithm, plaintext: bytes, recipients: seq<Named>, rnd: Fresh,
                              text: string, resolver: Resolver, mine: Secrets, o: Options)
    requires Standard(EcdhEsA256Kw, enc)
    requires Encrypted(curve, EcdhEs, EcdhEsA256Kw, enc, plaintext, None, recipients, rnd) == Ok(text)
    ensures UnpackString(text, resolver, mine, o).Ok? ==> HoldsOne(recipients, mine)
    ensures OneDid(Kids(recipients)) && FindSecrets(mine, Kids(recipients)) == [] ==>
              UnpackString(text, resolver, mine, o) == Err(SecretNotFound)
  {
    hide Encrypted, Sealed, ParseJwe, ReadEnvelope, AnonPayload, ReadPayload, HoldsOne, Finish, OneDid, FindSecrets,
         Kids, TryUnwrapForwarded;
    SealedReads(curve, EcdhEs, EcdhEsA256Kw, enc, plaintext, None, recipients, rnd);
    var p := ReadEnvelope(text).value.jwe;
    var held := FindSecrets(mine, Kids(recipients));
    if held != [] && AnonPayload(p, held, mine, o.allKeys).Ok? {
      AnonNeedsKey(curve, enc, plaintext, recipients, rnd, p, mine, o.allKeys);
    }
  }

  /** An authenticated message: no wallet without an entitled key unpacks it, and none that takes the
      sender's key to be another one than the sender used. */
  lemma AuthOnlyForRecipients(curve: KeyAlg, plaintext: bytes, sender: Named, recipients: seq<Named>, rnd: Fresh,
                              text: string, resolver: Resolver, mine: Secrets, o: Options)
    requires Encrypted(curve, Ecdh1Pu, Ecdh1PuA256Kw, A256CbcHs512, plaintext, Some(sender), recipients, rnd)
             == Ok(text)
    requires UnpackString(text, resolver, mine, o).Ok?
    ensures HoldsOne(recipients, mine)
    ensures exists key :: Agreed(resolver, sender.kid, key) && SameKey(key, sender.key)
  {
    hide Encrypted, Sealed, ParseJwe, ReadEnvelope, AuthPayload, ReadPayload, HoldsOne, FinishContent, OneDid,
         FindSecrets, Kids, TryUnwrapForwarded, AgreementKey, Agreed, SameKey, Utf8, FromUtf8, DidOrUrl;
    SealedReads(curve, Ecdh1Pu, Ecdh1PuA256Kw, A256CbcHs512, plaintext, Some(sender), recipients, rnd);
    var p := ReadEnvelope(text).value.jwe;
    Utf8RoundTrip(sender.kid);
    var held := FindSecrets(mine, Kids(recipients));
    var s := Opened(text, resolver, mine).value.1;
    assert s.toKidsFound == held && s.fromKid == Some(sender.kid) && s.fromKey.Some?
           && AgreementKey(sender.kid, resolver) == Ok(s.fromKey.value);
    var e := ReadEnvelope(text).value;
    assert PeelForwards(e, s, resolver, mine, o, 0) == Ok(Peeled(e, s, 1));
    AuthNeedsKey(curve, plaintext, sender, recipients, rnd, p, s.fromKid, s.fromKey, mine, o, 1);
    AgreementKeyExact(sender.kid, resolver);
    assert Agreed(resolver, sender.kid, s.fromKey.value);
  }
}
