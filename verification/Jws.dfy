/** The signed envelope (section 7.2.1 of RFC 7515) and the compact form that `from_prior` uses
    (section 7.1): signing, parsing and verifying. */
module Jws {
  import opened Wrappers
  import opened Octets
  import opened Strings
  import opened JsonText
  import opened Serde
  import opened Symbols
  import Base64Url

  datatype SignAlgorithm = EdDSA | Es256 | Es256K | OtherSign(name: string)

  function SignName(a: SignAlgorithm): string {
    match a
    case EdDSA => "EdDSA"
    case Es256 => "ES256"
    case Es256K => "ES256K"
    case OtherSign(name) => name
  }

  function SignOf(name: string): SignAlgorithm {
    if name == "EdDSA" then EdDSA
    else if name == "ES256" then Es256
    else if name == "ES256K" then Es256K
    else OtherSign(name)
  }

  /** The key type that `sig_type` of an algorithm belongs to. */
  function SignKeyAlg(a: SignAlgorithm): Result<KeyAlg> {
    match a
    case EdDSA => Ok(Ed25519)
    case Es256 => Ok(P256)
    case Es256K => Ok(K256)
    case OtherSign(_) => Err(Unsupported)
  }

  datatype SignHeader = SignHeader(typ: string, alg: SignAlgorithm)

  datatype Signed = Signed(kid: string, protected: string, signature: string)

  datatype Jws = Jws(signatures: seq<Signed>, payload: string)

  datatype ParsedJws = ParsedJws(jws: Jws, headers: seq<SignHeader>)

  datatype CompactHeader = CompactHeader(typ: string, alg: SignAlgorithm, kid: string)

  datatype ParsedCompact = ParsedCompact(header: string, parsed: CompactHeader, payload: string, signature: string)

  // ----- JSON form -----

  function SignHeaderToJson(h: SignHeader): Json {
    Obj(Field("typ", Str(h.typ)) + Field("alg", Str(SignName(h.alg))))
  }

  function SignHeaderFromJson(j: Json): Result<SignHeader> {
    if !j.Obj? then Err(Malformed) else
      var typ :- GetStr(j.members, "typ");
      var alg :- GetStr(j.members, "alg");
      Ok(SignHeader(typ, SignOf(alg)))
  }

  function CompactHeaderToJson(h: CompactHeader): Json {
    Obj(Field("typ", Str(h.typ)) + (Field("alg", Str(SignName(h.alg))) + Field("kid", Str(h.kid))))
  }

  function CompactHeaderFromJson(j: Json): Result<CompactHeader> {
    if !j.Obj? then Err(Malformed) else
      var typ :- GetStr(j.members, "typ");
      var alg :- GetStr(j.members, "alg");
      var kid :- GetStr(j.members, "kid");
      Ok(CompactHeader(typ, SignOf(alg), kid))
  }

  function SignedToJson(s: Signed): Json {
    Obj(Field("header", Obj(Field("kid", Str(s.kid))))
        + (Field("protected", Str(s.protected)) + Field("signature", Str(s.signature))))
  }

  function SignedFromJson(j: Json): Result<Signed> {
    if !j.Obj? then Err(Malformed) else
      var header :- GetValue(j.members, "header");
      if !header.Obj? then Err(Malformed) else
        var kid :- GetStr(header.members, "kid");
        var protected :- GetStr(j.members, "protected");
        var signature :- GetStr(j.members, "signature");
        Ok(Signed(kid, protected, signature))
  }

  function SignaturesToJson(ss: seq<Signed>): seq<Json> {
    if ss == [] then [] else [SignedToJson(ss[0])] + SignaturesToJson(ss[1..])
  }

  function SignaturesFromJson(items: seq<Json>): Result<seq<Signed>> {
    if items == [] then Ok([]) else
      var s :- SignedFromJson(items[0]);
      var rest :- SignaturesFromJson(items[1..]);
      Ok([s] + rest)
  }

  function JwsMembers(jws: Jws): seq<Member> {
    Field("signatures", Arr(SignaturesToJson(jws.signatures))) + Field("payload", Str(jws.payload))
  }

  function JwsToJson(jws: Jws): Json {
    Obj(JwsMembers(jws))
  }

  function JwsFromMembers(ms: seq<Member>): Result<Jws> {
    var items :- GetArr(ms, "signatures");
    var signatures :- SignaturesFromJson(items);
    var payload :- GetStr(ms, "payload");
    Ok(Jws(signatures, payload))
  }

  function JwsFromJson(j: Json): Result<Jws> {
    if j.Obj? then JwsFromMembers(j.members) else Err(Malformed)
  }

  lemma SignHeaderRoundTrip(h: SignHeader)
    requires SignOf(SignName(h.alg)) == h.alg
    ensures SignHeaderFromJson(SignHeaderToJson(h)) == Ok(h)
  {
    hide Values, Field, SignOf, SignName;
    var a, b := Field("typ", Str(h.typ)), Field("alg", Str(SignName(h.alg)));
    ValuesConcat(a, b, "typ");
    ValuesConcat(a, b, "alg");
    ValuesOne("typ", Str(h.typ), "typ");
    ValuesOne("typ", Str(h.typ), "alg");
    ValuesOne("alg", Str(SignName(h.alg)), "typ");
    ValuesOne("alg", Str(SignName(h.alg)), "alg");
  }

  lemma CompactHeaderValues(h: CompactHeader, n: string)
    ensures Values(CompactHeaderToJson(h).members, n)
            == if n == "typ" then [Str(h.typ)]
               else if n == "alg" then [Str(SignName(h.alg))]
               else if n == "kid" then [Str(h.kid)]
               else []
  {
    hide Values, Field;
    var a, b, c := Field("typ", Str(h.typ)), Field("alg", Str(SignName(h.alg))), Field("kid", Str(h.kid));
    ValuesConcat(a, b + c, n);
    ValuesConcat(b, c, n);
    ValuesOne("typ", Str(h.typ), n);
    ValuesOne("alg", Str(SignName(h.alg)), n);
    ValuesOne("kid", Str(h.kid), n);
  }

  lemma CompactHeaderRoundTrip(h: CompactHeader)
    requires SignOf(SignName(h.alg)) == h.alg
    ensures CompactHeaderFromJson(CompactHeaderToJson(h)) == Ok(h)
  {
    hide Values, SignOf, SignName;
    CompactHeaderValues(h, "typ");
    CompactHeaderValues(h, "alg");
    CompactHeaderValues(h, "kid");
  }

  lemma SignedValues(s: Signed, n: string)
    ensures Values(SignedToJson(s).members, n)
            == if n == "header" then [Obj(Field("kid", Str(s.kid)))]
               else if n == "protected" then [Str(s.protected)]
               else if n == "signature" then [Str(s.signature)]
               else []
  {
    hide Values, Field;
    var header := Obj(Field("kid", Str(s.kid)));
    var a, b, c := Field("header", header), Field("protected", Str(s.protected)), Field("signature", Str(s.signature));
    ValuesConcat(a, b + c, n);
    ValuesConcat(b, c, n);
    ValuesOne("header", header, n);
    ValuesOne("protected", Str(s.protected), n);
    ValuesOne("signature", Str(s.signature), n);
  }

  lemma {:induction false} SignaturesRoundTrip(ss: seq<Signed>)
    ensures SignaturesFromJson(SignaturesToJson(ss)) == Ok(ss)
  {
    hide Values;
    if ss != [] {
      var s := ss[0];
      SignedValues(s, "header");
      SignedValues(s, "protected");
      SignedValues(s, "signature");
      ValuesOne("kid", Str(s.kid), "kid");
      assert SignedFromJson(SignedToJson(s)) == Ok(s);
      SignaturesRoundTrip(ss[1..]);
      assert ss == [s] + ss[1..];
    }
  }

  lemma JwsValues(jws: Jws, n: string)
    ensures Values(JwsMembers(jws), n)
            == if n == "signatures" then [Arr(SignaturesToJson(jws.signatures))]
               else if n == "payload" then [Str(jws.payload)]
               else []
  {
    hide Values, Field, SignaturesToJson;
    var ss := Arr(SignaturesToJson(jws.signatures));
    ValuesConcat(Field("signatures", ss), Field("payload", Str(jws.payload)), n);
    ValuesOne("signatures", ss, n);
    ValuesOne("payload", Str(jws.payload), n);
  }

  lemma JwsRoundTrip(jws: Jws)
    ensures JwsFromJson(JwsToJson(jws)) == Ok(jws)
  {
    hide Values, JwsMembers, SignaturesFromJson, SignaturesToJson;
    JwsValues(jws, "signatures");
    JwsValues(jws, "payload");
    SignaturesRoundTrip(jws.signatures);
  }

  // ----- Signing -----

  /** ASCII(BASE64URL(UTF8(JWS Protected Header)) || '.' || BASE64URL(JWS Payload)) */
  function SignInput(header: string, payload: string): bytes {
    Utf8(header + "." + payload)
  }

  function CreateTyped(alg: SignAlgorithm, key: Key, input: bytes): Result<bytes> {
    var typ :- SignKeyAlg(alg);
    if key.alg != typ then Err(InvalidState) else OkOr(CreateSignature(key, input), InvalidState)
  }

  function SignJws(payload: bytes, kid: string, key: Key, alg: SignAlgorithm): Result<Jws> {
    var header := SignHeader("application/didcomm-signed+json", alg);
    var protected := Base64Url.Encode(Utf8(Print(SignHeaderToJson(header))));
    var body := Base64Url.Encode(payload);
    var signature :- CreateTyped(alg, key, SignInput(protected, body));
    Ok(Jws([Signed(kid, protected, Base64Url.Encode(signature))], body))
  }

  function Sign(payload: bytes, kid: string, key: Key, alg: SignAlgorithm): Result<string> {
    var jws :- SignJws(payload, kid, key, alg);
    Ok(Print(JwsToJson(jws)))
  }

  function SignCompact(payload: bytes, kid: string, key: Key, typ: string, alg: SignAlgorithm): Result<string> {
    var header := Base64Url.Encode(Utf8(Print(CompactHeaderToJson(CompactHeader(typ, alg, kid)))));
    var body := Base64Url.Encode(payload);
    var signature :- CreateTyped(alg, key, SignInput(header, body));
    Ok(header + "." + body + "." + Base64Url.Encode(signature))
  }

  // ----- Parsing -----

  function ParseSignHeader(s: Signed): Result<SignHeader> {
    var b :- OkOr(Base64Url.Decode(s.protected), Malformed);
    var text :- OkOr(FromUtf8(b), Malformed);
    var json :- OkOr(Parse(text), Malformed);
    SignHeaderFromJson(json)
  }

  function ParseSignHeaders(ss: seq<Signed>): Result<seq<SignHeader>> {
    if ss == [] then Ok([]) else
      var h :- ParseSignHeader(ss[0]);
      var rest :- ParseSignHeaders(ss[1..]);
      Ok([h] + rest)
  }

  /** `Jws::parse` */
  function ParseJws(jws: Jws): Result<ParsedJws> {
    var headers :- ParseSignHeaders(jws.signatures);
    Ok(ParsedJws(jws, headers))
  }

  /** The loop of `Jws::parse`, which pushes one protected header for each signature. */
  method ParseSignatures(jws: Jws) returns (r: Result<ParsedJws>)
    ensures r == ParseJws(jws)
  {
    hide ParseSignHeader;
    var headers: seq<SignHeader> := [];
    ghost var all := ParseSignHeaders(jws.signatures);
    assert jws.signatures[0..] == jws.signatures && (all.Ok? ==> headers + all.value == all.value);
    for i := 0 to |jws.signatures|
      invariant var rest := ParseSignHeaders(jws.signatures[i..]);
                all == if rest.Ok? then Ok(headers + rest.value) else rest
    {
      assert jws.signatures[i..][1..] == jws.signatures[i + 1..];
      var h := ParseSignHeader(jws.signatures[i]);
      if h.Err? {
        return Err(h.kind);
      }
      ghost var rest := ParseSignHeaders(jws.signatures[i + 1..]);
      if rest.Ok? {
        assert headers + ([h.value] + rest.value) == (headers + [h.value]) + rest.value;
      }
      headers := headers + [h.value];
    }
    assert headers + [] == headers;
    return Ok(ParsedJws(jws, headers));
  }

  /** `parse_compact` */
  function ParseCompact(text: string): Result<ParsedCompact> {
    var segments := Split(text, '.');
    if |segments| != 3 then Err(Malformed) else
      var b :- OkOr(Base64Url.Decode(segments[0]), Malformed);
      var t :- OkOr(FromUtf8(b), Malformed);
      var json :- OkOr(Parse(t), Malformed);
      var header :- CompactHeaderFromJson(json);
      Ok(ParsedCompact(segments[0], header, segments[1], segments[2]))
  }

  // ----- Verifying -----

  function IndexOfKid(ss: seq<Signed>, kid: string): Option<nat> {
    if ss == [] then None
    else if ss[0].kid == kid then Some(0)
    else
      match IndexOfKid(ss[1..], kid)
      case None => None
      case Some(i) => Some(i + 1)
  }

  lemma {:induction false} IndexOfKidRange(ss: seq<Signed>, kid: string)
    ensures IndexOfKid(ss, kid).Some? ==> IndexOfKid(ss, kid).value < |ss|
  {
    if ss != [] && ss[0].kid != kid {
      IndexOfKidRange(ss[1..], kid);
    }
  }

  /** `ParsedJWS::verify` for a key of the type that the caller chose. */
  function VerifyJws(p: ParsedJws, kid: string, key: Key): Result<bool> {
    IndexOfKidRange(p.jws.signatures, kid);
    var i :- OkOr(IndexOfKid(p.jws.signatures, kid), InvalidState);
    if i >= |p.headers| then Err(InvalidState) else
      var _ :- SignKeyAlg(p.headers[i].alg);
      var signature :- OkOr(Base64Url.Decode(p.jws.signatures[i].signature), Malformed);
      Ok(VerifySignature(key, SignInput(p.jws.signatures[i].protected, p.jws.payload), signature))
  }

  /** `ParsedCompactJWS::verify` */
  function VerifyCompact(p: ParsedCompact, key: Key): Result<bool> {
    var _ :- SignKeyAlg(p.parsed.alg);
    var signature :- OkOr(Base64Url.Decode(p.signature), Malformed);
    Ok(VerifySignature(key, SignInput(p.header, p.payload), signature))
  }

  // ----- Printing and parsing are inverse; signatures bind what was signed -----

  lemma SignInputInjective(h1: string, p1: string, h2: string, p2: string)
    requires '.' !in h1 && '.' !in h2 && SignInput(h1, p1) == SignInput(h2, p2)
    ensures h1 == h2 && p1 == p2
  {
    var s1, s2 := h1 + "." + p1, h2 + "." + p2;
    Utf8Injective(s1, s2);
    BeforeFirstConcat(h1, p1, '.');
    BeforeFirstConcat(h2, p2, '.');
    assert s1[|h1| + 1..] == p1 && s2[|h2| + 1..] == p2;
  }

  lemma SignatureBinds(k: Key, m: bytes, k': Key, m': bytes)
    ensures Signature(k, m) == Signature(k', m') <==> k.alg == k'.alg && k.scalar == k'.scalar && m == m'
  {
    if Signature(k, m) == Signature(k', m') {
      var a, b := [Utf8(CurveName(k.alg)), NumOctets(k.scalar), m], [Utf8(CurveName(k'.alg)), NumOctets(k'.scalar), m'];
      SymInjective("signature", a, b);
      assert a[0] == b[0] && a[1] == b[1] && a[2] == b[2];
      NumOctetsInjective(k.scalar, k'.scalar);
      Utf8Injective(CurveName(k.alg), CurveName(k'.alg));
    }
  }

  lemma ThreeSegments(a: string, b: string, c: string)
    requires '.' !in a && '.' !in b && '.' !in c
    ensures Split(a + "." + b + "." + c, '.') == [a, b, c]
  {
    assert a + "." + b + "." + c == a + ['.'] + (b + ['.'] + c);
    SplitAtSep(a, b + ['.'] + c, '.');
    SplitAtSep(b, c, '.');
    SplitNoSep(c, '.');
  }

  /** Parsing a compact JWS that was just printed recovers header, payload and signature. */
  lemma CompactRoundTrip(payload: bytes, kid: string, key: Key, typ: string, alg: SignAlgorithm)
    requires SignOf(SignName(alg)) == alg
    requires SignCompact(payload, kid, key, typ, alg).Ok?
    ensures var r := ParseCompact(SignCompact(payload, kid, key, typ, alg).value);
            && r.Ok?
            && r.value.parsed == CompactHeader(typ, alg, kid)
            && Base64Url.Decode(r.value.payload) == Some(payload)
            && '.' !in r.value.header
            && Base64Url.Decode(r.value.signature) == Some(Signature(key, SignInput(r.value.header, r.value.payload)))
  {
    hide Base64Url.Encode, Base64Url.Decode, Split, Utf8, FromUtf8, Print, Parse, Signature, CompactHeaderToJson,
         CompactHeaderFromJson, SignInput;
    var json := CompactHeaderToJson(CompactHeader(typ, alg, kid));
    var header := Base64Url.Encode(Utf8(Print(json)));
    var body := Base64Url.Encode(payload);
    var signature := CreateTyped(alg, key, SignInput(header, body)).value;
    ThreeSegments(header, body, Base64Url.Encode(signature));
    Base64Url.DecodeEncode(Utf8(Print(json)));
    Utf8RoundTrip(Print(json));
    ParsePrint(json);
    CompactHeaderRoundTrip(CompactHeader(typ, alg, kid));
    Base64Url.DecodeEncode(payload);
    Base64Url.DecodeEncode(signature);
  }

  /** A parsed compact JWS that carries the signature of a signing call verifies exactly when it was
      made with the key at hand and its header and payload are the ones that were signed. */
  lemma CompactVerifyExact(payload: bytes, kid: string, key: Key, typ: string, alg: SignAlgorithm, text: string,
                           signed: ParsedCompact, p: ParsedCompact, other: Key)
    requires SignOf(SignName(alg)) == alg
    requires SignCompact(payload, kid, key, typ, alg) == Ok(text) && ParseCompact(text) == Ok(signed)
    requires '.' !in p.header && SignKeyAlg(p.parsed.alg).Ok? && p.signature == signed.signature
    ensures VerifyCompact(p, other) == Ok(other.alg == key.alg && other.scalar == key.scalar
                                          && p.header == signed.header && p.payload == signed.payload)
  {
    hide SignCompact, ParseCompact, Base64Url.Decode, SignInput, Signature;
    CompactRoundTrip(payload, kid, key, typ, alg);
    SignatureBinds(key, SignInput(signed.header, signed.payload), other, SignInput(p.header, p.payload));
    if SignInput(signed.header, signed.payload) == SignInput(p.header, p.payload) {
      SignInputInjective(signed.header, signed.payload, p.header, p.payload);
    }
  }

  /** The general form: a signed message parses to one header and one signature, and it verifies for
      the signer's key id exactly with the signer's key. */
  lemma SignedVerifies(payload: bytes, kid: string, key: Key, alg: SignAlgorithm, other: Key)
    requires SignOf(SignName(alg)) == alg
    requires SignJws(payload, kid, key, alg).Ok?
    ensures var jws := SignJws(payload, kid, key, alg).value;
            && ParseJws(jws) == Ok(ParsedJws(jws, [SignHeader("application/didcomm-signed+json", alg)]))
            && |jws.signatures| == 1 && jws.signatures[0].kid == kid
            && Base64Url.Decode(jws.payload) == Some(payload)
            && VerifyJws(ParseJws(jws).value, kid, other) == Ok(other.alg == key.alg && other.scalar == key.scalar)
  {
    hide Base64Url.Encode, Base64Url.Decode, Utf8, FromUtf8, Print, Parse, Signature, SignHeaderToJson,
         SignHeaderFromJson, SignInput;
    var h := SignHeader("application/didcomm-signed+json", alg);
    var json := SignHeaderToJson(h);
    var jws := SignJws(payload, kid, key, alg).value;
    Base64Url.DecodeEncode(Utf8(Print(json)));
    Utf8RoundTrip(Print(json));
    ParsePrint(json);
    SignHeaderRoundTrip(h);
    Base64Url.DecodeEncode(payload);
    var input := SignInput(jws.signatures[0].protected, jws.payload);
    Base64Url.DecodeEncode(Signature(key, input));
    SignatureBinds(key, input, other, input);
    assert ParseSignHeader(jws.signatures[0]) == Ok(h);
    assert jws.signatures[1..] == [] && ParseSignHeaders([]) == Ok([]);
    assert [h] + [] == [h];
  }

  // ----- Foreign signatures -----

  /** A protected header is read exactly from the base64url spelling of the text of such a header. */
  lemma ParseSignHeaderExact(s: Signed)
    ensures forall h :: ParseSignHeader(s) == Ok(h) <==>
              exists text, j :: && s.protected == Base64Url.Encode(Utf8(text)) && Parse(text) == Some(j)
                                && SignHeaderFromJson(j) == Ok(h)
    ensures ParseSignHeader(s).Err? ==> ParseSignHeader(s) == Err(Malformed)
  {
    hide Base64Url.Decode, Base64Url.Encode, Utf8, FromUtf8, Parse, Values;
    forall b ensures Base64Url.Decode(s.protected) == Some(b) <==> s.protected == Base64Url.Encode(b) {
      Base64Url.DecodeExact(s.protected, b);
    }
    forall b, t ensures FromUtf8(b) == Some(t) <==> b == Utf8(t) {
      FromUtf8Exact(b);
      Utf8RoundTrip(t);
    }
  }

  /** A compact JWS is read exactly from three segments between dots, the first of which spells a header. */
  lemma ParseCompactExact(text: string)
    ensures forall p :: ParseCompact(text) == Ok(p) <==>
              && '.' !in p.header && '.' !in p.payload && '.' !in p.signature
              && text == p.header + "." + p.payload + "." + p.signature
              && exists t, j :: && p.header == Base64Url.Encode(Utf8(t)) && Parse(t) == Some(j)
                                && CompactHeaderFromJson(j) == Ok(p.parsed)
    ensures ParseCompact(text).Err? ==> ParseCompact(text) == Err(Malformed)
  {
    hide Base64Url.Decode, Base64Url.Encode, Utf8, FromUtf8, Parse, Values, Split;
    forall a, b, c ensures Split(text, '.') == [a, b, c] <==>
                             '.' !in a && '.' !in b && '.' !in c && text == a + "." + b + "." + c
    {
      SegmentsExact(text, a, b, c);
    }
    var segments := Split(text, '.');
    if |segments| == 3 {
      assert segments == [segments[0], segments[1], segments[2]];
    }
    forall s, b ensures Base64Url.Decode(s) == Some(b) <==> s == Base64Url.Encode(b) {
      Base64Url.DecodeExact(s, b);
    }
    forall b, t ensures FromUtf8(b) == Some(t) <==> b == Utf8(t) {
      FromUtf8Exact(b);
      Utf8RoundTrip(t);
    }
  }

  lemma SegmentsExact(text: string, a: string, b: string, c: string)
    ensures Split(text, '.') == [a, b, c] <==>
              '.' !in a && '.' !in b && '.' !in c && text == a + "." + b + "." + c
  {
    hide Split;
    if Split(text, '.') == [a, b, c] {
      JoinSplit(text, '.');
      assert a in Split(text, '.') && b in Split(text, '.') && c in Split(text, '.');
      assert [a, b, c][1..] == [b, c] && [b, c][1..] == [c];
      assert Join([c], '.') == c && Join([b, c], '.') == b + ['.'] + c;
      assert Join([a, b, c], '.') == a + ['.'] + (b + ['.'] + c);
      assert a + ['.'] + (b + ['.'] + c) == a + "." + b + "." + c;
    }
    if '.' !in a && '.' !in b && '.' !in c && text == a + "." + b + "." + c {
      ThreeSegments(a, b, c);
    }
  }
}
