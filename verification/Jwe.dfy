/** The encrypted envelope: its JSON form, multi-recipient encryption, parsing and decryption.
    Section 7.2.1 of RFC 7516, section 4.6 of RFC 7518, and ECDH-1PU. */
module Jwe {
  import opened Wrappers
  import opened Octets
  import opened Strings
  import opened JsonText
  import opened Serde
  import opened Symbols
  import Base64Url

  // ----- Envelope types -----

  datatype Algorithm = Ecdh1PuA256Kw | EcdhEsA256Kw | OtherAlgorithm(name: string)

  function AlgorithmName(a: Algorithm): string {
    match a
    case Ecdh1PuA256Kw => "ECDH-1PU+A256KW"
    case EcdhEsA256Kw => "ECDH-ES+A256KW"
    case OtherAlgorithm(name) => name
  }

  function AlgorithmOf(name: string): Algorithm {
    if name == "ECDH-1PU+A256KW" then Ecdh1PuA256Kw
    else if name == "ECDH-ES+A256KW" then EcdhEsA256Kw
    else OtherAlgorithm(name)
  }

  datatype EncAlgorithm = A256CbcHs512 | Xc20P | A256Gcm | OtherEnc(name: string)

  function EncName(e: EncAlgorithm): string {
    match e
    case A256CbcHs512 => "A256CBC-HS512"
    case Xc20P => "XC20P"
    case A256Gcm => "A256GCM"
    case OtherEnc(name) => name
  }

  function EncOf(name: string): EncAlgorithm {
    if name == "A256CBC-HS512" then A256CbcHs512
    else if name == "XC20P" then Xc20P
    else if name == "A256GCM" then A256Gcm
    else OtherEnc(name)
  }

  datatype Header = Header(
    typ: Option<string>,
    alg: Algorithm,
    enc: EncAlgorithm,
    skid: Option<string>,
    apu: Option<string>,
    apv: string,
    epk: Json)

  datatype Recipient = Recipient(kid: string, encryptedKey: string)

  datatype Jwe = Jwe(protected: string, recipients: seq<Recipient>, iv: string, ciphertext: string, tag: string)

  datatype ParsedJwe = ParsedJwe(jwe: Jwe, header: Header, apu: Option<bytes>, apv: bytes, toKids: seq<string>)

  // ----- JSON form -----

  function HeaderMembers(h: Header): seq<Member> {
    Field("typ", match h.typ case None => Null case Some(t) => Str(t))
    + (Field("alg", Str(AlgorithmName(h.alg)))
    + (Field("enc", Str(EncName(h.enc)))
    + (OptField("skid", OptStr(h.skid))
    + (OptField("apu", OptStr(h.apu))
    + (Field("apv", Str(h.apv))
    + Field("epk", h.epk))))))
  }

  function HeaderToJson(h: Header): Json {
    Obj(HeaderMembers(h))
  }

  function HeaderFromJson(j: Json): Result<Header> {
    if !j.Obj? then Err(Malformed) else
      var typ :- GetOptStr(j.members, "typ");
      var alg :- GetStr(j.members, "alg");
      var enc :- GetStr(j.members, "enc");
      var skid :- GetOptStr(j.members, "skid");
      var apu :- GetOptStr(j.members, "apu");
      var apv :- GetStr(j.members, "apv");
      var epk :- GetValue(j.members, "epk");
      Ok(Header(typ, AlgorithmOf(alg), EncOf(enc), skid, apu, apv, epk))
  }

  function RecipientToJson(r: Recipient): Json {
    Obj(Field("header", Obj(Field("kid", Str(r.kid)))) + Field("encrypted_key", Str(r.encryptedKey)))
  }

  function RecipientFromJson(j: Json): Result<Recipient> {
    if !j.Obj? then Err(Malformed) else
      var header :- GetValue(j.members, "header");
      if !header.Obj? then Err(Malformed) else
        var kid :- GetStr(header.members, "kid");
        var key :- GetStr(j.members, "encrypted_key");
        Ok(Recipient(kid, key))
  }

  function RecipientsToJson(rs: seq<Recipient>): seq<Json> {
    if rs == [] then [] else [RecipientToJson(rs[0])] + RecipientsToJson(rs[1..])
  }

  function RecipientsFromJson(items: seq<Json>): Result<seq<Recipient>> {
    if items == [] then Ok([]) else
      var r :- RecipientFromJson(items[0]);
      var rest :- RecipientsFromJson(items[1..]);
      Ok([r] + rest)
  }

  function JweMembers(jwe: Jwe): seq<Member> {
    Field("protected", Str(jwe.protected))
    + (Field("recipients", Arr(RecipientsToJson(jwe.recipients)))
    + (Field("iv", Str(jwe.iv))
    + (Field("ciphertext", Str(jwe.ciphertext))
    + Field("tag", Str(jwe.tag)))))
  }

  function JweToJson(jwe: Jwe): Json {
    Obj(JweMembers(jwe))
  }

  function JweFromMembers(ms: seq<Member>): Result<Jwe> {
    var protected :- GetStr(ms, "protected");
    var items :- GetArr(ms, "recipients");
    var recipients :- RecipientsFromJson(items);
    var iv :- GetStr(ms, "iv");
    var ciphertext :- GetStr(ms, "ciphertext");
    var tag :- GetStr(ms, "tag");
    Ok(Jwe(protected, recipients, iv, ciphertext, tag))
  }

  function JweFromJson(j: Json): Result<Jwe> {
    if j.Obj? then JweFromMembers(j.members) else Err(Malformed)
  }

  lemma HeaderValues(h: Header, n: string)
    ensures Values(HeaderMembers(h), n)
            == if n == "typ" then [match h.typ case None => Null case Some(t) => Str(t)]
               else if n == "alg" then [Str(AlgorithmName(h.alg))]
               else if n == "enc" then [Str(EncName(h.enc))]
               else if n == "skid" && h.skid.Some? then [Str(h.skid.value)]
               else if n == "apu" && h.apu.Some? then [Str(h.apu.value)]
               else if n == "apv" then [Str(h.apv)]
               else if n == "epk" then [h.epk]
               else []
  {
    hide Values, Field, OptField;
    var typ := match h.typ case None => Null case Some(t) => Str(t);
    var t6 := Field("epk", h.epk);
    var t5 := Field("apv", Str(h.apv)) + t6;
    var t4 := OptField("apu", OptStr(h.apu)) + t5;
    var t3 := OptField("skid", OptStr(h.skid)) + t4;
    var t2 := Field("enc", Str(EncName(h.enc))) + t3;
    var t1 := Field("alg", Str(AlgorithmName(h.alg))) + t2;
    ValuesField("typ", typ, t1, n);
    ValuesField("alg", Str(AlgorithmName(h.alg)), t2, n);
    ValuesField("enc", Str(EncName(h.enc)), t3, n);
    ValuesOptField("skid", OptStr(h.skid), t4, n);
    ValuesOptField("apu", OptStr(h.apu), t5, n);
    ValuesField("apv", Str(h.apv), t6, n);
    ValuesOne("epk", h.epk, n);
  }

  lemma HeaderRoundTrip(h: Header)
    requires AlgorithmOf(AlgorithmName(h.alg)) == h.alg && EncOf(EncName(h.enc)) == h.enc
    ensures HeaderFromJson(HeaderToJson(h)) == Ok(h)
  {
    hide Values, HeaderMembers, AlgorithmOf, AlgorithmName, EncOf, EncName, GetStr, GetOptStr, GetValue;
    var ms := HeaderMembers(h);
    HeaderValues(h, "typ");
    GetOptStrOf(ms, "typ", h.typ);
    HeaderValues(h, "alg");
    GetStrOf(ms, "alg", AlgorithmName(h.alg));
    HeaderValues(h, "enc");
    GetStrOf(ms, "enc", EncName(h.enc));
    HeaderValues(h, "skid");
    GetOptStrOf(ms, "skid", h.skid);
    HeaderValues(h, "apu");
    GetOptStrOf(ms, "apu", h.apu);
    HeaderValues(h, "apv");
    GetStrOf(ms, "apv", h.apv);
    HeaderValues(h, "epk");
    GetValueOf(ms, "epk", h.epk);
  }

  lemma RecipientRoundTrip(r: Recipient)
    ensures RecipientFromJson(RecipientToJson(r)) == Ok(r)
  {
    hide Values, Field;
    var header, key := Obj(Field("kid", Str(r.kid))), Str(r.encryptedKey);
    ValuesConcat(Field("header", header), Field("encrypted_key", key), "header");
    ValuesConcat(Field("header", header), Field("encrypted_key", key), "encrypted_key");
    ValuesOne("header", header, "header");
    ValuesOne("header", header, "encrypted_key");
    ValuesOne("encrypted_key", key, "header");
    ValuesOne("encrypted_key", key, "encrypted_key");
    ValuesOne("kid", Str(r.kid), "kid");
  }

  lemma {:induction false} RecipientsRoundTrip(rs: seq<Recipient>)
    ensures RecipientsFromJson(RecipientsToJson(rs)) == Ok(rs)
  {
    hide RecipientToJson, RecipientFromJson;
    if rs != [] {
      RecipientRoundTrip(rs[0]);
      RecipientsRoundTrip(rs[1..]);
      assert rs == [rs[0]] + rs[1..];
    }
  }

  lemma JweValues(jwe: Jwe, n: string)
    ensures Values(JweMembers(jwe), n)
            == if n == "protected" then [Str(jwe.protected)]
               else if n == "recipients" then [Arr(RecipientsToJson(jwe.recipients))]
               else if n == "iv" then [Str(jwe.iv)]
               else if n == "ciphertext" then [Str(jwe.ciphertext)]
               else if n == "tag" then [Str(jwe.tag)]
               else []
  {
    hide Values, Field, RecipientsToJson;
    var rs := Arr(RecipientsToJson(jwe.recipients));
    var t4 := Field("tag", Str(jwe.tag));
    var t3 := Field("ciphertext", Str(jwe.ciphertext)) + t4;
    var t2 := Field("iv", Str(jwe.iv)) + t3;
    var t1 := Field("recipients", rs) + t2;
    ValuesField("protected", Str(jwe.protected), t1, n);
    ValuesField("recipients", rs, t2, n);
    ValuesField("iv", Str(jwe.iv), t3, n);
    ValuesField("ciphertext", Str(jwe.ciphertext), t4, n);
    ValuesOne("tag", Str(jwe.tag), n);
  }

  lemma JweRoundTrip(jwe: Jwe)
    ensures JweFromJson(JweToJson(jwe)) == Ok(jwe)
  {
    hide Values, JweMembers, RecipientsFromJson, RecipientsToJson;
    JweValues(jwe, "protected");
    JweValues(jwe, "recipients");
    JweValues(jwe, "iv");
    JweValues(jwe, "ciphertext");
    JweValues(jwe, "tag");
    RecipientsRoundTrip(jwe.recipients);
  }

  // ----- Which objects are envelopes and headers -----

  /** An object is read as an encrypted envelope exactly if these fields stand in it once, as texts, with a list of
      readable recipients. */
  lemma JweReadExact(ms: seq<Member>, jwe: Jwe)
    ensures JweFromMembers(ms) == Ok(jwe) <==>
              && Sole(ms, "protected", Str(jwe.protected)) && Sole(ms, "iv", Str(jwe.iv))
              && Sole(ms, "ciphertext", Str(jwe.ciphertext)) && Sole(ms, "tag", Str(jwe.tag))
              && exists items :: Sole(ms, "recipients", Arr(items)) && RecipientsFromJson(items) == Ok(jwe.recipients)
  {
    hide Values, GetStr, RecipientsFromJson, Sole;
    RequiredExact(ms, "protected");
    RequiredExact(ms, "iv");
    RequiredExact(ms, "ciphertext");
    RequiredExact(ms, "tag");
    RequiredExact(ms, "recipients");
  }

  lemma AlgorithmRead(name: string, a: Algorithm)
    requires !a.OtherAlgorithm?
    ensures AlgorithmOf(name) == a <==> name == if a == Ecdh1PuA256Kw then "ECDH-1PU+A256KW" else "ECDH-ES+A256KW"
  {
    assert "ECDH-1PU+A256KW"[5] != "ECDH-ES+A256KW"[5];
  }

  lemma EncRead(name: string, e: EncAlgorithm)
    requires !e.OtherEnc?
    ensures EncOf(name) == e <==> name == if e == A256CbcHs512 then "A256CBC-HS512"
                                          else if e == Xc20P then "XC20P" else "A256GCM"
  {
    assert |"A256CBC-HS512"| == 13 && |"XC20P"| == 5 && |"A256GCM"| == 7;
  }

  /** Algorithms are read by their registered names, and "typ", "skid" and "apu" may be missing. */
  lemma HeaderReadExact(ms: seq<Member>, h: Header)
    requires !h.alg.OtherAlgorithm? && !h.enc.OtherEnc?
    ensures HeaderFromJson(Obj(ms)) == Ok(h) <==>
              && Sole(ms, "alg", Str(if h.alg == Ecdh1PuA256Kw then "ECDH-1PU+A256KW" else "ECDH-ES+A256KW"))
              && Sole(ms, "enc", Str(if h.enc == A256CbcHs512 then "A256CBC-HS512"
                                     else if h.enc == Xc20P then "XC20P" else "A256GCM"))
              && OptText(ms, "typ", h.typ) && OptText(ms, "skid", h.skid) && OptText(ms, "apu", h.apu)
              && Sole(ms, "apv", Str(h.apv)) && Sole(ms, "epk", h.epk)
  {
    hide Values, GetStr, GetOptStr, GetValue, Sole, OptText, AlgorithmOf, EncOf;
    var alg := if h.alg == Ecdh1PuA256Kw then "ECDH-1PU+A256KW" else "ECDH-ES+A256KW";
    var enc := if h.enc == A256CbcHs512 then "A256CBC-HS512" else if h.enc == Xc20P then "XC20P" else "A256GCM";
    ReadsText(ms, "alg", alg);
    ReadsText(ms, "enc", enc);
    ReadsText(ms, "apv", h.apv);
    ReadsValue(ms, "epk", h.epk);
    ReadsOptText(ms, "typ", h.typ);
    ReadsOptText(ms, "skid", h.skid);
    ReadsOptText(ms, "apu", h.apu);
    if GetStr(ms, "alg").Ok? {
      AlgorithmRead(GetStr(ms, "alg").value, h.alg);
    }
    if GetStr(ms, "enc").Ok? {
      EncRead(GetStr(ms, "enc").value, h.enc);
    }
  }
}
