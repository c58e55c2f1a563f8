/** Encrypting for many recipients, parsing, the check of `apv` and `apu`, and decrypting for one
    recipient. The `...ed` functions say what the imperative methods below them compute. */
module JweCrypto {
  import opened Wrappers
  import opened Octets
  import opened Strings
  import opened JsonText
  import opened Symbols
  import opened Jwe
  import Base64Url

  /** The type parameter `KDF` of the source. */
  datatype Kdf = Ecdh1Pu | EcdhEs

  /** What the random generator yields during one encryption. */
  datatype Fresh = Fresh(cek: bytes, epk: nat, iv: bytes)

  /** A key with its id: (skid, key) or (kid, key). */
  datatype Named = Named(kid: string, key: Key)

  // ----- Key derivation -----

  function DeriveKey(kdf: Kdf, ephem: Key, send: Option<Key>, recip: Key, alg: bytes, apu: bytes, apv: bytes,
                     tag: bytes, receive: bool): Result<bytes>
  {
    match kdf
    case EcdhEs =>
      var ze :- OkOr(if receive then Agree(recip, ephem) else Agree(ephem, recip), InvalidState);
      Ok(KdfEs(ze, alg, apu, apv))
    case Ecdh1Pu =>
      var send :- OkOr(send, InvalidState);
      var ze :- OkOr(if receive then Agree(recip, ephem) else Agree(ephem, recip), InvalidState);
      var zs :- OkOr(if receive then Agree(recip, send) else Agree(send, recip), InvalidState);
      Ok(Kdf1Pu(ze, zs, alg, apu, apv, tag))
  }

  // ----- Encryption -----

  function Kids(rs: seq<Named>): seq<string> {
    seq(|rs|, i requires 0 <= i < |rs| => rs[i].kid)
  }

  /** BASE64URL is applied by the caller: SHA256(CONCAT('.', SORT(kids))). */
  function Apv(kids: seq<string>): bytes {
    Sha256(Utf8(Join(Sort(kids), '.')))
  }

  function Skid(sender: Option<Named>): Option<string> {
    match sender
    case None => None
    case Some(s) => Some(s.kid)
  }

  function SenderKey(sender: Option<Named>): Option<Key> {
    match sender
    case None => None
    case Some(s) => Some(s.key)
  }

  /** `skid.map(as_bytes)` */
  function SkidOctets(sender: Option<Named>): Option<bytes> {
    match sender
    case None => None
    case Some(s) => Some(Utf8(s.kid))
  }

  /** `apu.unwrap_or(&[])` */
  function OrEmpty(b: Option<bytes>): bytes {
    match b
    case None => []
    case Some(v) => v
  }

  function EncodeOpt(b: Option<bytes>): Option<string> {
    match b
    case None => None
    case Some(v) => Some(Base64Url.Encode(v))
  }

  function HeaderFor(alg: Algorithm, enc: EncAlgorithm, sender: Option<Named>, kids: seq<string>, epk: Key): Header {
    Header(Some("application/didcomm-encrypted+json"), alg, enc, Skid(sender), EncodeOpt(SkidOctets(sender)),
           Base64Url.Encode(Apv(kids)), ToJwk(epk))
  }

  function ProtectedFor(h: Header): string {
    Base64Url.Encode(Utf8(Print(HeaderToJson(h))))
  }

  /** The key-wrap loop: one encrypted key for each recipient, in order. */
  function WrappedKeys(kdf: Kdf, epk: Key, send: Option<Key>, recipients: seq<Named>, alg: bytes, apu: bytes,
                       apv: bytes, tag: bytes, cek: bytes): Result<seq<Recipient>>
  {
    if recipients == [] then Ok([]) else
      var kw :- DeriveKey(kdf, epk, send, recipients[0].key, alg, apu, apv, tag, false);
      var rest :- WrappedKeys(kdf, epk, send, recipients[1..], alg, apu, apv, tag, cek);
      Ok([Recipient(recipients[0].kid, Base64Url.Encode(Wrap(kw, cek)))] + rest)
  }

  function Sealed(curve: KeyAlg, kdf: Kdf, alg: Algorithm, enc: EncAlgorithm, plaintext: bytes,
                  sender: Option<Named>, recipients: seq<Named>, rnd: Fresh): Result<Jwe>
  {
    var epk := Key(curve, rnd.epk, true);
    var protected := ProtectedFor(HeaderFor(alg, enc, sender, Kids(recipients), epk));
    var tag := SealTag(EncName(enc), rnd.cek, rnd.iv, Utf8(protected), plaintext);
    var wrapped :- WrappedKeys(kdf, epk, SenderKey(sender), recipients, Utf8(AlgorithmName(alg)),
                               OrEmpty(SkidOctets(sender)), Apv(Kids(recipients)), tag, rnd.cek);
    Ok(Jwe(protected, wrapped, Base64Url.Encode(rnd.iv),
           Base64Url.Encode(SealText(EncName(enc), rnd.cek, rnd.iv, Utf8(protected), plaintext)),
           Base64Url.Encode(tag)))
  }

  function Encrypted(curve: KeyAlg, kdf: Kdf, alg: Algorithm, enc: EncAlgorithm, plaintext: bytes,
                     sender: Option<Named>, recipients: seq<Named>, rnd: Fresh): Result<string>
  {
    var jwe :- Sealed(curve, kdf, alg, enc, plaintext, sender, recipients, rnd);
    Ok(Print(JweToJson(jwe)))
  }

  method WrapKeys(kdf: Kdf, epk: Key, send: Option<Key>, recipients: seq<Named>, alg: bytes, apu: bytes,
                  apv: bytes, tag: bytes, cek: bytes) returns (r: Result<seq<Recipient>>)
    ensures r == WrappedKeys(kdf, epk, send, recipients, alg, apu, apv, tag, cek)
  {
    hide DeriveKey, Wrap, Base64Url.Encode;
    var encryptedKeys: seq<Recipient> := [];
    ghost var all := WrappedKeys(kdf, epk, send, recipients, alg, apu, apv, tag, cek);
    assert recipients[0..] == recipients && (all.Ok? ==> encryptedKeys + all.value == all.value);
    for i := 0 to |recipients|
      invariant var rest := WrappedKeys(kdf, epk, send, recipients[i..], alg, apu, apv, tag, cek);
                all == if rest.Ok? then Ok(encryptedKeys + rest.value) else rest
    {
      var kw := DeriveKey(kdf, epk, send, recipients[i].key, alg, apu, apv, tag, false);
      if kw.Err? {
        return Err(kw.kind);
      }
      var key := [Recipient(recipients[i].kid, Base64Url.Encode(Wrap(kw.value, cek)))];
      assert recipients[i..][1..] == recipients[i + 1..];
      ghost var rest := WrappedKeys(kdf, epk, send, recipients[i + 1..], alg, apu, apv, tag, cek);
      if rest.Ok? {
        assert encryptedKeys + (key + rest.value) == (encryptedKeys + key) + rest.value;
      }
      encryptedKeys := encryptedKeys + key;
    }
    assert encryptedKeys + [] == encryptedKeys;
    return Ok(encryptedKeys);
  }

  method Encrypt(curve: KeyAlg, kdf: Kdf, alg: Algorithm, enc: EncAlgorithm, plaintext: bytes,
                 sender: Option<Named>, recipients: seq<Named>, rnd: Fresh) returns (r: Result<string>)
    ensures r == Encrypted(curve, kdf, alg, enc, plaintext, sender, recipients, rnd)
  {
    hide DeriveKey, WrappedKeys, Base64Url.Encode, Sort, Join, Utf8, SealText, SealTag, Print, ToJwk, Sha256;
    var kids := Sort(Kids(recipients));
    var apv := Sha256(Utf8(Join(kids, '.')));
    var epk := Key(curve, rnd.epk, true);
    var protected := ProtectedFor(Header(Some("application/didcomm-encrypted+json"), alg, enc, Skid(sender),
                                         EncodeOpt(SkidOctets(sender)), Base64Url.Encode(apv), ToJwk(epk)));
    var ciphertext := SealText(EncName(enc), rnd.cek, rnd.iv, Utf8(protected), plaintext);
    var tag := SealTag(EncName(enc), rnd.cek, rnd.iv, Utf8(protected), plaintext);
    var encryptedKeys :- WrapKeys(kdf, epk, SenderKey(sender), recipients, Utf8(AlgorithmName(alg)),
                                  OrEmpty(SkidOctets(sender)), apv, tag, rnd.cek);
    return Ok(Print(JweToJson(Jwe(protected, encryptedKeys, Base64Url.Encode(rnd.iv), Base64Url.Encode(ciphertext),
                                  Base64Url.Encode(tag)))));
  }

  // ----- Parsing and the checks of DIDComm -----

  function JweKids(rs: seq<Recipient>): seq<string> {
    seq(|rs|, i requires 0 <= i < |rs| => rs[i].kid)
  }

  /** `Jwe::parse` */
  function ParseJwe(jwe: Jwe): Result<ParsedJwe> {
    var decoded :- OkOr(Base64Url.Decode(Base64Url.StripPadding(jwe.protected)), Malformed);
    var text :- OkOr(FromUtf8(decoded), Malformed);
    var json :- OkOr(Parse(text), Malformed);
    var header :- HeaderFromJson(json);
    var apv :- OkOr(Base64Url.Decode(header.apv), Malformed);
    match header.apu
    case None => Ok(ParsedJwe(jwe, header, None, apv, JweKids(jwe.recipients)))
    case Some(a) =>
      var apu :- OkOr(Base64Url.Decode(a), Malformed);
      Ok(ParsedJwe(jwe, header, Some(apu), apv, JweKids(jwe.recipients)))
  }

  /** `verify_didcomm` */
  function VerifyDidcomm(p: ParsedJwe): Result<ParsedJwe> {
    if p.apv != Apv(JweKids(p.jwe.recipients)) then Err(Malformed)
    else
      match p.apu
      case None => if p.header.skid.Some? then Err(Malformed) else Ok(p)
      case Some(b) =>
        var apu :- OkOr(FromUtf8(b), Malformed);
        if p.header.skid.Some? && apu != p.header.skid.value then Err(Malformed) else Ok(p)
  }

  // ----- Decryption -----

  function FindRecipient(rs: seq<Recipient>, kid: string): Option<Recipient> {
    if rs == [] then None
    else if rs[0].kid == kid then Some(rs[0])
    else FindRecipient(rs[1..], kid)
  }

  /** `ParsedJWE::decrypt` */
  function Decrypted(p: ParsedJwe, curve: KeyAlg, kdf: Kdf, enc: EncAlgorithm, sender: Option<Named>,
                     recipient: Named): Result<bytes>
  {
    var _ :- Check(SkidOctets(sender) == p.apu, InvalidState);
    var r :- OkOr(FindRecipient(p.jwe.recipients, recipient.kid), InvalidState);
    var encryptedKey :- OkOr(Base64Url.Decode(r.encryptedKey), Malformed);
    var epk :- FromJwk(curve, p.header.epk);
    var tag :- OkOr(Base64Url.Decode(p.jwe.tag), Malformed);
    var kw :- DeriveKey(kdf, epk, SenderKey(sender), recipient.key, Utf8(AlgorithmName(p.header.alg)),
                        OrEmpty(p.apu), p.apv, tag, true);
    var cek :- OkOr(Unwrap(kw, encryptedKey), Malformed);
    var ciphertext :- OkOr(Base64Url.Decode(p.jwe.ciphertext), Malformed);
    var iv :- OkOr(Base64Url.Decode(p.jwe.iv), Malformed);
    OkOr(Open(EncName(enc), cek, iv, Utf8(p.jwe.protected), ciphertext, tag), Malformed)
  }
}
