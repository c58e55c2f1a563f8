/** The JSON that goes over the wire, spelled out: the headers and envelopes of section 7.2.1 of RFC 7516 and
    section 7.2.1 of RFC 7515, with the media types of DIDComm, and the Forward message. */
module WireFormat {
  import opened Wrappers
  import opened Octets
  import opened Strings
  import opened JsonText
  import opened Serde
  import opened Symbols
  import opened Jwe
  import opened JweCrypto
  import opened Jws
  import opened Messages
  import opened Packing
  import opened Routing
  import Base64Url

  /** The content encryption algorithms by their registered names. */
  lemma EncNames(a: AnonCryptAlg)
    ensures EncName(AnonEnc(a)) == match a
                                   case A256CbcHs512EcdhEs => "A256CBC-HS512"
                                   case Xc20PEcdhEs => "XC20P"
                                   case A256GcmEcdhEs => "A256GCM"
  {
  }

  /** The protected header of an anonymous message names no sender; "apv" is the digest of the sorted ids. */
  lemma AnonHeader(enc: EncAlgorithm, kids: seq<string>, epk: Key)
    ensures HeaderToJson(HeaderFor(EcdhEsA256Kw, enc, None, kids, epk))
            == Obj([Member("typ", Str("application/didcomm-encrypted+json")), Member("alg", Str("ECDH-ES+A256KW")),
                    Member("enc", Str(EncName(enc))),
                    Member("apv", Str(Base64Url.Encode(Sha256(Utf8(Join(Sort(kids), '.')))))),
                    Member("epk", ToJwk(epk))])
  {
    hide ToJwk, Base64Url.Encode, Sha256, Utf8, Join, Sort;
  }

  /** The protected header of an authenticated message gives the sender's key id as "skid" and, as octets, "apu". */
  lemma AuthHeader(sender: Named, kids: seq<string>, epk: Key)
    ensures HeaderToJson(HeaderFor(Ecdh1PuA256Kw, A256CbcHs512, Some(sender), kids, epk))
            == Obj([Member("typ", Str("application/didcomm-encrypted+json")), Member("alg", Str("ECDH-1PU+A256KW")),
                    Member("enc", Str("A256CBC-HS512")), Member("skid", Str(sender.kid)),
                    Member("apu", Str(Base64Url.Encode(Utf8(sender.kid)))),
                    Member("apv", Str(Base64Url.Encode(Sha256(Utf8(Join(Sort(kids), '.')))))),
                    Member("epk", ToJwk(epk))])
  {
    hide ToJwk, Base64Url.Encode, Sha256, Utf8, Join, Sort;
  }

  /** A public key; what would be its coordinates is one symbol. */
  lemma PublicKey(k: Key)
    requires k.alg in {X25519, P256, K256, Ed25519}
    ensures ToJwk(k) == Obj([Member("crv", Str(match k.alg
                                               case X25519 => "X25519"
                                               case P256 => "P-256"
                                               case K256 => "secp256k1"
                                               case _ => "Ed25519")),
                             Member("kty", Str(if k.alg in {X25519, Ed25519} then "OKP" else "EC")),
                             Member("x", Str(Base64Url.Encode(NumOctets(k.scalar))))])
  {
    hide Base64Url.Encode, NumOctets;
  }

  function WireRecipient(r: Recipient): Json {
    Obj([Member("header", Obj([Member("kid", Str(r.kid))])), Member("encrypted_key", Str(r.encryptedKey))])
  }

  function WireRecipients(rs: seq<Recipient>): seq<Json> {
    seq(|rs|, i requires 0 <= i < |rs| => WireRecipient(rs[i]))
  }

  lemma {:induction false} RecipientsWire(rs: seq<Recipient>)
    ensures RecipientsToJson(rs) == WireRecipients(rs)
  {
    if rs != [] {
      RecipientsWire(rs[1..]);
      assert RecipientToJson(rs[0]) == WireRecipient(rs[0]);
    }
  }

  /** The general JSON form of an encrypted message. */
  lemma JweWire(jwe: Jwe)
    ensures JweToJson(jwe)
            == Obj([Member("protected", Str(jwe.protected)),
                    Member("recipients", Arr(WireRecipients(jwe.recipients))),
                    Member("iv", Str(jwe.iv)), Member("ciphertext", Str(jwe.ciphertext)), Member("tag", Str(jwe.tag))])
  {
    hide RecipientsToJson, WireRecipients;
    RecipientsWire(jwe.recipients);
    assert JweMembers(jwe) == [Member("protected", Str(jwe.protected)),
                               Member("recipients", Arr(WireRecipients(jwe.recipients))), Member("iv", Str(jwe.iv)),
                               Member("ciphertext", Str(jwe.ciphertext)), Member("tag", Str(jwe.tag))];
  }

  /** The general JSON form of a signed message, which has one signature over its header and its payload. */
  lemma SignedWire(payload: bytes, kid: string, key: Key, alg: SignAlgorithm)
    requires key.private && SignKeyAlg(alg) == Ok(key.alg)
    ensures var name := if alg == EdDSA then "EdDSA" else if alg == Es256 then "ES256" else "ES256K";
            var header := Obj([Member("typ", Str("application/didcomm-signed+json")), Member("alg", Str(name))]);
            var protected, body := Base64Url.Encode(Utf8(Print(header))), Base64Url.Encode(payload);
            var signature := Signature(key, Utf8(protected + "." + body));
            Sign(payload, kid, key, alg)
            == Ok(Print(Obj([Member("signatures",
                                    Arr([Obj([Member("header", Obj([Member("kid", Str(kid))])),
                                              Member("protected", Str(protected)),
                                              Member("signature", Str(Base64Url.Encode(signature)))])])),
                             Member("payload", Str(body))])))
  {
    hide Base64Url.Encode, Utf8, Print, Signature;
    var name := if alg == EdDSA then "EdDSA" else if alg == Es256 then "ES256" else "ES256K";
    assert SignHeaderToJson(SignHeader("application/didcomm-signed+json", alg)).members
           == [Member("typ", Str("application/didcomm-signed+json")), Member("alg", Str(name))];
    var jws := SignJws(payload, kid, key, alg).value;
    var signed := jws.signatures[0];
    assert jws.signatures[1..] == [];
    assert SignaturesToJson(jws.signatures) == [SignedToJson(signed)];
    assert Field("kid", Str(kid)) == [Member("kid", Str(kid))];
    assert SignedToJson(signed).members
           == [Member("header", Obj([Member("kid", Str(kid))])), Member("protected", Str(signed.protected)),
               Member("signature", Str(signed.signature))];
    assert JwsMembers(jws) == [Member("signatures", Arr([SignedToJson(signed)])), Member("payload", Str(jws.payload))];
  }

  /** The compact form of a rotation: three segments with dots between them. */
  lemma CompactWire(payload: bytes, kid: string, key: Key, alg: SignAlgorithm)
    requires key.private && SignKeyAlg(alg) == Ok(key.alg)
    ensures var name := if alg == EdDSA then "EdDSA" else if alg == Es256 then "ES256" else "ES256K";
            var header := Obj([Member("typ", Str("JWT")), Member("alg", Str(name)), Member("kid", Str(kid))]);
            var first, second := Base64Url.Encode(Utf8(Print(header))), Base64Url.Encode(payload);
            SignCompact(payload, kid, key, "JWT", alg)
            == Ok(first + "." + second + "." + Base64Url.Encode(Signature(key, Utf8(first + "." + second))))
  {
    hide Base64Url.Encode, Utf8, Print, Signature;
    var name := if alg == EdDSA then "EdDSA" else if alg == Es256 then "ES256" else "ES256K";
    assert CompactHeaderToJson(CompactHeader("JWT", alg, kid)).members
           == [Member("typ", Str("JWT")), Member("alg", Str(name)), Member("kid", Str(kid))];
  }

  /** The Forward message of Routing Protocol 2.0, for a message text that is JSON. */
  lemma ForwardWire(id: string, msg: string, forwarded: Json, next: string, headers: seq<Member>)
    requires Parse(msg) == Some(forwarded)
    ensures BuildForward(id, msg, next, headers)
            == Ok(Print(Obj([Member("id", Str(id)), Member("typ", Str("application/didcomm-plain+json")),
                             Member("type", Str("https://didcomm.org/routing/2.0/forward")),
                             Member("body", Obj([Member("next", Str(next))])), Member("to", Arr([Str(next)]))]
                            + headers
                            + [Member("attachments", Arr([Obj([Member("data", Obj([Member("json", forwarded)]))])]))])))
  {
    hide Print, Parse;
    var m := ForwardMessage(id, forwarded, next, headers);
    assert Strs([next]) == [Str(next)];
    assert LeadMembers(m) == [Member("id", Str(id)), Member("typ", Str("application/didcomm-plain+json")),
                              Member("type", Str("https://didcomm.org/routing/2.0/forward")),
                              Member("body", Obj([Member("next", Str(next))])), Member("to", Arr([Str(next)]))];
    var v := m.attachments.value;
    assert DataMembers(v[0].data) == [Member("json", forwarded)];
    assert AttachmentMembers(v[0]) == [Member("data", Obj([Member("json", forwarded)]))];
    assert v[1..] == [];
    assert AttachmentsToJson(v) == [Obj(AttachmentMembers(v[0]))];
    assert TimeMembers(m) == [Member("attachments", Arr([Obj([Member("data", Obj([Member("json", forwarded)]))])]))];
    assert MessageMembers(m) == LeadMembers(m) + headers + TimeMembers(m);
  }
}
