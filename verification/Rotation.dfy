/** DID rotation: packing a `from_prior` value into a signed JWT and unpacking it. */
module Rotation {
  import opened Wrappers
  import opened Octets
  import opened JsonText
  import opened Serde
  import opened Symbols
  import opened Documents
  import opened Jws
  import opened Messages
  import Base64Url

  datatype FromPrior = FromPrior(
    iss: string,
    sub: string,
    aud: Option<string>,
    exp: Option<u64>,
    nbf: Option<u64>,
    iat: Option<u64>,
    jti: Option<string>)

  function FromPriorMembers(f: FromPrior): seq<Member> {
    Field("iss", Str(f.iss))
    + (Field("sub", Str(f.sub))
    + (OptField("aud", OptStr(f.aud))
    + (OptField("exp", OptNum(f.exp))
    + (OptField("nbf", OptNum(f.nbf))
    + (OptField("iat", OptNum(f.iat))
    + OptField("jti", OptStr(f.jti)))))))
  }

  function FromPriorToJson(f: FromPrior): Json {
    Obj(FromPriorMembers(f))
  }

  function FromPriorFromJson(j: Json): Result<FromPrior> {
    if !j.Obj? then Err(Malformed) else
      var iss :- GetStr(j.members, "iss");
      var sub :- GetStr(j.members, "sub");
      var aud :- GetOptStr(j.members, "aud");
      var exp :- GetOptU64(j.members, "exp");
      var nbf :- GetOptU64(j.members, "nbf");
      var iat :- GetOptU64(j.members, "iat");
      var jti :- GetOptStr(j.members, "jti");
      Ok(FromPrior(iss, sub, aud, exp, nbf, iat, jti))
  }

  lemma FromPriorValues(f: FromPrior, n: string)
    ensures Values(FromPriorMembers(f), n)
            == if n == "iss" then [Str(f.iss)]
               else if n == "sub" then [Str(f.sub)]
               else if n == "aud" && f.aud.Some? then [Str(f.aud.value)]
               else if n == "exp" && f.exp.Some? then [Num(f.exp.value)]
               else if n == "nbf" && f.nbf.Some? then [Num(f.nbf.value)]
               else if n == "iat" && f.iat.Some? then [Num(f.iat.value)]
               else if n == "jti" && f.jti.Some? then [Str(f.jti.value)]
               else []
  {
    hide Values, Field, OptField;
    var t6 := OptField("jti", OptStr(f.jti));
    var t5 := OptField("iat", OptNum(f.iat)) + t6;
    var t4 := OptField("nbf", OptNum(f.nbf)) + t5;
    var t3 := OptField("exp", OptNum(f.exp)) + t4;
    var t2 := OptField("aud", OptStr(f.aud)) + t3;
    var t1 := Field("sub", Str(f.sub)) + t2;
    ValuesField("iss", Str(f.iss), t1, n);
    ValuesField("sub", Str(f.sub), t2, n);
    ValuesOptField("aud", OptStr(f.aud), t3, n);
    ValuesOptField("exp", OptNum(f.exp), t4, n);
    ValuesOptField("nbf", OptNum(f.nbf), t5, n);
    ValuesOptField("iat", OptNum(f.iat), t6, n);
    ValuesOpt("jti", OptStr(f.jti), n);
  }

  lemma FromPriorRoundTrip(f: FromPrior)
    ensures FromPriorFromJson(FromPriorToJson(f)) == Ok(f)
  {
    hide Values, FromPriorMembers, GetStr, GetOptStr, GetOptU64;
    var ms := FromPriorMembers(f);
    FromPriorValues(f, "iss");
    GetStrOf(ms, "iss", f.iss);
    FromPriorValues(f, "sub");
    GetStrOf(ms, "sub", f.sub);
    FromPriorValues(f, "aud");
    GetOptStrOf(ms, "aud", f.aud);
    FromPriorValues(f, "exp");
    GetOptU64Of(ms, "exp", f.exp);
    FromPriorValues(f, "nbf");
    GetOptU64Of(ms, "nbf", f.nbf);
    FromPriorValues(f, "iat");
    GetOptU64Of(ms, "iat", f.iat);
    FromPriorValues(f, "jti");
    GetOptStrOf(ms, "jti", f.jti);
  }

  // ----- Packing -----

  predicate PlainDid(s: string) {
    IsDid(s) && DidOrUrl(s).1.None?
  }

  /** `validate_pack` */
  function ValidatePack(f: FromPrior, issuerKid: Option<string>): Result<()> {
    var _ :- Check(PlainDid(f.iss), Malformed);
    var _ :- Check(PlainDid(f.sub), Malformed);
    var _ :- Check(f.iss != f.sub, Malformed);
    match issuerKid
    case None => Ok(())
    case Some(kid) =>
      var _ :- Check(DidOrUrl(kid).1.Some?, IllegalArgument);
      Check(DidOrUrl(kid).0 == f.iss, IllegalArgument)
  }

  /** The signature algorithm for a secret, as `pack` and `pack_signed` choose it. */
  function SignAlgFor(alg: KeyAlg): Result<SignAlgorithm> {
    match alg
    case Ed25519 => Ok(EdDSA)
    case P256 => Ok(Es256)
    case K256 => Ok(Es256K)
    case _ => Err(Unsupported)
  }

  /** The key ids that may sign, and the first of them whose secret the wallet holds. */
  function SigningKid(doc: Document, issuerKid: Option<string>, secrets: Secrets): Result<string> {
    var _ :- Check(issuerKid.Some? ==> issuerKid.value in doc.authentication, DIDUrlNotFound);
    var kids := FindSecrets(secrets, FilterKid(doc.authentication, issuerKid));
    if kids == [] then Err(SecretNotFound) else Ok(kids[0])
  }

  /** `FromPrior::pack` */
  function PackFromPrior(f: FromPrior, issuerKid: Option<string>, resolver: Resolver, secrets: Secrets)
    : Result<(string, string)>
  {
    var _ :- ValidatePack(f, issuerKid);
    var doc :- Resolve(resolver, f.iss);
    var kid :- SigningKid(doc, issuerKid, secrets);
    if kid !in secrets then Err(SecretNotFound) else
      var alg :- SignAlgFor(secrets[kid].alg);
      var jwt :- SignCompact(Utf8(Print(FromPriorToJson(f))), kid, secrets[kid], "JWT", alg);
      Ok((jwt, kid))
  }

  // ----- Unpacking -----

  /** The public key of an authentication method, if the document lists it and it has the type that
      the signature algorithm needs. */
  function SignerKey(doc: Document, kid: string, alg: SignAlgorithm, noJwk: ErrorKind): Result<Key> {
    var _ :- Check(kid in doc.authentication, DIDUrlNotFound);
    var method_ :- OkOr(FindMethod(doc.methods, kid), DIDUrlNotFound);
    var key :- OkOr(method_.key, noJwk);
    var typ :- SignKeyAlg(alg);
    if key.alg != typ then Err(InvalidState) else Ok(key)
  }

  /** `FromPrior::unpack` */
  function UnpackFromPrior(jwt: string, resolver: Resolver): Result<(FromPrior, string)> {
    var p :- ParseCompact(jwt);
    var _ :- Check(p.parsed.typ == "JWT", Malformed);
    var _ :- Check(DidOrUrl(p.parsed.kid).1.Some?, Malformed);
    var doc :- Resolve(resolver, DidOrUrl(p.parsed.kid).0);
    var key :- SignerKey(doc, p.parsed.kid, p.parsed.alg, Unsupported);
    var valid :- VerifyCompact(p, key);
    if !valid then Err(Malformed) else
      var b :- OkOr(Base64Url.Decode(p.payload), Malformed);
      var text :- OkOr(FromUtf8(b), Malformed);
      var json :- OkOr(Parse(text), Malformed);
      var f :- FromPriorFromJson(json);
      Ok((f, p.parsed.kid))
  }

  // ----- Round trip -----

  /** The resolver publishes, for this key id, the public part of the key. */
  predicate Publishes(resolver: Resolver, kid: string, key: Key) {
    && DidOrUrl(kid).1.Some?
    && DidOrUrl(kid).0 in resolver
    && var doc := resolver[DidOrUrl(kid).0];
       var vm := FindMethod(doc.methods, kid);
       && kid in doc.authentication
       && vm.Some? && vm.value.key.Some? && vm.value.key.value.alg == key.alg && vm.value.key.value.scalar == key.scalar
  }

  /** A JWT signed with a key under a key id unpacks, to what was signed, exactly when the resolver
      publishes that key as an authentication key under that id. */
  lemma UnpackExact(f: FromPrior, kid: string, key: Key, alg: SignAlgorithm, jwt: string, resolver: Resolver)
    requires SignAlgFor(key.alg) == Ok(alg)
    requires SignCompact(Utf8(Print(FromPriorToJson(f))), kid, key, "JWT", alg) == Ok(jwt)
    ensures UnpackFromPrior(jwt, resolver).Ok? <==> Publishes(resolver, kid, key)
    ensures UnpackFromPrior(jwt, resolver).Ok? ==> UnpackFromPrior(jwt, resolver).value == (f, kid)
  {
    hide SignCompact, ParseCompact, Base64Url.Decode, Utf8, FromUtf8, Print, Parse, FromPriorFromJson, FromPriorToJson,
         SignInput, Signature, VerifyCompact, FindMethod, DidOrUrl;
    CompactRoundTrip(Utf8(Print(FromPriorToJson(f))), kid, key, "JWT", alg);
    Utf8RoundTrip(Print(FromPriorToJson(f)));
    ParsePrint(FromPriorToJson(f));
    FromPriorRoundTrip(f);
    var p := ParseCompact(jwt).value;
    if DidOrUrl(kid).1.Some? && DidOrUrl(kid).0 in resolver {
      var k := SignerKey(resolver[DidOrUrl(kid).0], kid, alg, Unsupported);
      if k.Ok? {
        CompactVerifyExact(Utf8(Print(FromPriorToJson(f))), kid, key, "JWT", alg, jwt, p, p, k.value);
      }
    }
  }

  /** Rotation round trip: what was packed is what the peer unpacks, under the key id that packing
      reported, and that key id is an authentication key of the issuer. */
  lemma RotationRoundTrip(f: FromPrior, issuerKid: Option<string>, resolver: Resolver, secrets: Secrets,
                          jwt: string, kid: string)
    requires PackFromPrior(f, issuerKid, resolver, secrets) == Ok((jwt, kid))
    ensures kid in secrets && kid in resolver[f.iss].authentication
    ensures issuerKid.Some? ==> kid == issuerKid.value
    ensures UnpackFromPrior(jwt, resolver).Ok? <==> Publishes(resolver, kid, secrets[kid])
    ensures UnpackFromPrior(jwt, resolver).Ok? ==> UnpackFromPrior(jwt, resolver).value == (f, kid)
  {
    hide SignCompact, UnpackFromPrior, Utf8, Print, FromPriorToJson;
    var doc := resolver[f.iss];
    var kids := FilterKid(doc.authentication, issuerKid);
    var held := FindSecrets(secrets, kids);
    assert held[0] in held;
    UnpackExact(f, kid, secrets[kid], SignAlgFor(secrets[kid].alg).value, jwt, resolver);
  }
}
