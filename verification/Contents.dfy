/** When a message can be signed or carry a rotation, and with which key, on the documents and the wallet. */
module Contents {
  import opened Wrappers
  import opened Octets
  import opened JsonText
  import opened Strings
  import opened Serde
  import opened Symbols
  import opened Documents
  import opened Jws
  import opened Messages
  import opened Rotation
  import opened Packing
  import opened Routing
  import opened PackEncrypted
  import Base64Url

  /** "did:", something, a colon and anything, without a fragment. */
  predicate BareDid(s: string) {
    "did:" <= s && ':' in s[4..] && '#' !in s
  }

  // ----- The signing key -----

  /** The first of the ids that the wallet holds. */
  ghost predicate FirstHeld(kids: seq<string>, secrets: Secrets, kid: string) {
    exists i :: && 0 <= i < |kids| && kids[i] == kid && kid in secrets
                && forall j :: 0 <= j < i ==> kids[j] !in secrets
  }

  lemma {:induction false} FirstHeldExact(secrets: Secrets, kids: seq<string>)
    ensures FindSecrets(secrets, kids) == [] <==> forall k :: k in kids ==> k !in secrets
    ensures forall k :: FirstHeld(kids, secrets, k)
                        <==> FindSecrets(secrets, kids) != [] && FindSecrets(secrets, kids)[0] == k
  {
    if kids != [] {
      var rest := kids[1..];
      FirstHeldExact(secrets, rest);
      assert forall k :: k in kids <==> k == kids[0] || k in rest;
      if kids[0] in secrets {
        assert FirstHeld(kids, secrets, kids[0]);
      } else {
        assert FindSecrets(secrets, kids) == FindSecrets(secrets, rest);
        forall k ensures FirstHeld(kids, secrets, k) <==> FirstHeld(rest, secrets, k) {
          HeldLater(kids, secrets, k);
        }
      }
    }
  }

  lemma HeldLater(kids: seq<string>, secrets: Secrets, kid: string)
    requires kids != [] && kids[0] !in secrets
    ensures FirstHeld(kids, secrets, kid) <==> FirstHeld(kids[1..], secrets, kid)
  {
    if FirstHeld(kids, secrets, kid) {
      var i :| 0 <= i < |kids| && kids[i] == kid && kid in secrets && forall j :: 0 <= j < i ==> kids[j] !in secrets;
      assert kids[1..][i - 1] == kid;
    }
    if FirstHeld(kids[1..], secrets, kid) {
      var i :| && 0 <= i < |kids[1..]| && kids[1..][i] == kid && kid in secrets
               && forall j :: 0 <= j < i ==> kids[1..][j] !in secrets;
      assert kids[i + 1] == kid;
      assert forall j :: 0 < j < i + 1 ==> kids[j] == kids[1..][j - 1];
    }
  }

  /** A key id that is asked for signs if the document lists it for authentication and the wallet holds it;
      otherwise the first listed one that the wallet holds does. */
  lemma SigningKidExact(doc: Document, asked: Option<string>, secrets: Secrets)
    ensures asked.Some? ==>
              SigningKid(doc, asked, secrets)
              == if asked.value !in doc.authentication then Err(DIDUrlNotFound)
                 else if asked.value !in secrets then Err(SecretNotFound)
                 else Ok(asked.value)
    ensures asked.None? ==>
              && (forall k :: SigningKid(doc, asked, secrets) == Ok(k) <==> FirstHeld(doc.authentication, secrets, k))
              && ((forall k :: k in doc.authentication ==> k !in secrets) ==>
                    SigningKid(doc, asked, secrets) == Err(SecretNotFound))
  {
    hide FindSecrets, FirstHeld;
    FilterKidExact(doc.authentication, asked);
    FirstHeldExact(secrets, FilterKid(doc.authentication, asked));
    if asked.Some? {
      var held := FindSecrets(secrets, [asked.value]);
      assert asked.value in held <==> asked.value in [asked.value] && asked.value in secrets;
      if held != [] {
        assert held[0] in held;
      }
    }
  }

  /** Only these keys sign, each with its own algorithm, and only with their private part. */
  lemma SignAlgExact(k: Key, input: bytes)
    ensures SignAlgFor(k.alg) == if k.alg == Ed25519 then Ok(EdDSA)
                                 else if k.alg == P256 then Ok(Es256)
                                 else if k.alg == K256 then Ok(Es256K)
                                 else Err(Unsupported)
    ensures SignAlgFor(k.alg).Ok? ==>
              CreateTyped(SignAlgFor(k.alg).value, k, input)
              == if k.private then Ok(Signature(k, input)) else Err(InvalidState)
  {
    hide Signature;
  }

  /** A key id signs for a document if the document lists it for authentication and gives for it a key of
      the type that goes with the algorithm. */
  lemma SignerKeyExact(doc: Document, kid: string, alg: SignAlgorithm, noJwk: ErrorKind)
    ensures forall key :: SignerKey(doc, kid, alg, noJwk) == Ok(key)
                          <==> && kid in doc.authentication && Gives(doc, kid, Some(key))
                               && SignAlgFor(key.alg) == Ok(alg)
    ensures kid !in doc.authentication || NoMethod(doc, kid) ==> SignerKey(doc, kid, alg, noJwk) == Err(DIDUrlNotFound)
    ensures kid in doc.authentication && Gives(doc, kid, None) ==> SignerKey(doc, kid, alg, noJwk) == Err(noJwk)
    ensures forall key :: kid in doc.authentication && Gives(doc, kid, Some(key)) && SignAlgFor(key.alg) != Ok(alg) ==>
                            SignerKey(doc, kid, alg, noJwk) == Err(if alg.OtherSign? then Unsupported else InvalidState)
  {
    hide FindMethod, Gives, NoMethod;
    GivesExact(doc, kid, None);
    forall key ensures Gives(doc, kid, Some(key))
                       <==> FindMethod(doc.methods, kid).Some?
                            && FindMethod(doc.methods, kid).value.key == Some(key)
    {
      GivesExact(doc, kid, Some(key));
    }
  }

  // ----- Rotation -----

  lemma PlainDidExact(s: string)
    ensures PlainDid(s) <==> BareDid(s)
  {
    hide DidOrUrl, IsDid;
    IsDidExact(s);
    DidOrUrlExact(s);
  }

  /** A rotation is from one DID to another, signed by a key id of the former. */
  lemma ValidatePackExact(f: FromPrior, issuerKid: Option<string>)
    ensures ValidatePack(f, issuerKid)
            == if !(BareDid(f.iss) && BareDid(f.sub) && f.iss != f.sub) then Err(Malformed)
               else if issuerKid.Some? && !UrlOf(issuerKid.value, f.iss) then Err(IllegalArgument)
               else Ok(())
  {
    hide DidOrUrl, PlainDid, UrlOf;
    PlainDidExact(f.iss);
    PlainDidExact(f.sub);
    if issuerKid.Some? {
      UrlOfExact(issuerKid.value, f.iss);
      DidOrUrlExact(issuerKid.value);
    }
  }

  /** Packing a rotation fails for the first of these reasons that applies, and otherwise signs it. */
  lemma PackFromPriorExact(f: FromPrior, issuerKid: Option<string>, resolver: Resolver, secrets: Secrets)
    ensures var r := PackFromPrior(f, issuerKid, resolver, secrets);
            if ValidatePack(f, issuerKid).Err? then r == Err(ValidatePack(f, issuerKid).kind)
            else if f.iss !in resolver then r == Err(DIDNotResolved)
            else
              match SigningKid(resolver[f.iss], issuerKid, secrets)
              case Err(kind) => r == Err(kind)
              case Ok(kid) =>
                && kid in secrets
                && if secrets[kid].alg !in {Ed25519, P256, K256} then r == Err(Unsupported)
                   else if !secrets[kid].private then r == Err(InvalidState)
                   else r.Ok? && r.value.1 == kid
  {
    hide ValidatePack, FindSecrets, Utf8, Print, FromPriorToJson, Signature;
    if f.iss in resolver && SigningKid(resolver[f.iss], issuerKid, secrets).Ok? {
      var kids := FilterKid(resolver[f.iss].authentication, issuerKid);
      var held := FindSecrets(secrets, kids);
      assert held[0] in held;
    }
  }

  /** The rotation that a payload spells, if it does. */
  function SpelledPrior(payload: string): Option<FromPrior> {
    match Base64Url.Decode(payload)
    case None => None
    case Some(b) =>
      match FromUtf8(b)
      case None => None
      case Some(text) =>
        match Parse(text)
        case None => None
        case Some(j) => match FromPriorFromJson(j) case Ok(f) => Some(f) case Err(_) => None
  }

  /** Unpacking a rotation: it must be a compact JWT, with a key id that is a DID URL of a DID that resolves; the key
      comes from that document; the signature must be that key's over header and payload as they are; and the payload
      must spell a rotation. */
  lemma UnpackFromPriorExact(jwt: string, resolver: Resolver, did: string)
    requires ParseCompact(jwt).Ok? && '#' in ParseCompact(jwt).value.parsed.kid ==>
               UrlOf(ParseCompact(jwt).value.parsed.kid, did)
    ensures var r := UnpackFromPrior(jwt, resolver);
            match ParseCompact(jwt)
            case Err(_) => r == Err(Malformed)
            case Ok(p) =>
              var kid := p.parsed.kid;
              if p.parsed.typ != "JWT" || '#' !in kid then r == Err(Malformed)
              else if did !in resolver then r == Err(DIDNotResolved)
              else
                match SignerKey(resolver[did], kid, p.parsed.alg, Unsupported)
                case Err(kind) => r == Err(kind)
                case Ok(key) =>
                  if Base64Url.Decode(p.signature) != Some(Signature(key, Utf8(p.header + "." + p.payload))) then
                    r == Err(Malformed)
                  else
                    match SpelledPrior(p.payload)
                    case None => r == Err(Malformed)
                    case Some(f) => r == Ok((f, kid))
  {
    hide DidOrUrl, FromUtf8, Base64Url.Decode, Signature, Utf8, UrlOf, FindMethod, Parse, Values, Split;
    if ParseCompact(jwt).Ok? {
      var kid := ParseCompact(jwt).value.parsed.kid;
      DidOrUrlExact(kid);
      UrlOfExact(kid, did);
    }
  }

  // ----- Plain and signed messages -----

  /** A message without a rotation is always written. One with a rotation is refused exactly if that does not
      unpack, is not a rotation signed by its issuer, or is not to the DID that the message is from. */
  lemma PackPlaintextExact(m: Message, resolver: Resolver)
    ensures PackPlaintext(m, resolver)
            == match m.fromPrior
               case None => Ok(Print(MessageToJson(m)))
               case Some(jwt) =>
                 match UnpackFromPrior(jwt, resolver)
                 case Err(kind) => Err(kind)
                 case Ok((f, kid)) =>
                   if !(BareDid(f.iss) && BareDid(f.sub) && f.iss != f.sub) then Err(Malformed)
                   else if !UrlOf(kid, f.iss) then Err(IllegalArgument)
                   else if m.from.Some? && m.from.value != f.sub then Err(Malformed)
                   else Ok(Print(MessageToJson(m)))
  {
    hide UnpackFromPrior, MessageToJson, Print, ValidatePack, BareDid, UrlOf;
    if m.fromPrior.Some? && UnpackFromPrior(m.fromPrior.value, resolver).Ok? {
      var prior := UnpackFromPrior(m.fromPrior.value, resolver).value;
      ValidatePackExact(prior.0, Some(prior.1));
    }
  }

  /** Signing fails for the first of these reasons that applies; otherwise it reports the signing key id. */
  lemma PackSignedExact(m: Message, signBy: string, did: string, resolver: Resolver, secrets: Secrets)
    requires UrlOf(signBy, did) || (signBy == did && '#' !in did)
    ensures var r := PackSigned(m, signBy, resolver, secrets);
            if !("did:" <= signBy && ':' in signBy[4..]) then r == Err(IllegalArgument)
            else if did !in resolver then r == Err(DIDNotResolved)
            else
              match SigningKid(resolver[did], if '#' in signBy then Some(signBy) else None, secrets)
              case Err(kind) => r == Err(kind)
              case Ok(kid) =>
                && kid in secrets
                && if secrets[kid].alg == UnsupportedAlg then r == Err(Unsupported)
                   else if PackPlaintext(m, resolver).Err? then r == Err(PackPlaintext(m, resolver).kind)
                   else if secrets[kid].alg !in {Ed25519, P256, K256} then r == Err(Unsupported)
                   else if !secrets[kid].private then r == Err(InvalidState)
                   else r.Ok? && r.value.1 == kid
  {
    hide DidOrUrl, IsDid, FindSecrets, Utf8, Print, PackPlaintext, Signature;
    IsDidExact(signBy);
    DidOrUrlExact(signBy);
    if UrlOf(signBy, did) {
      UrlOfExact(signBy, did);
      assert signBy[|did|] in signBy;
    }
    var asked := DidOrUrl(signBy).1;
    if did in resolver && SigningKid(resolver[did], asked, secrets).Ok? {
      var held := FindSecrets(secrets, FilterKid(resolver[did].authentication, asked));
      assert held[0] in held;
    }
  }

  // ----- Encrypted messages -----

  /** "did:", something, a colon and anything. */
  predicate DidText(s: string) {
    "did:" <= s && ':' in s[4..]
  }

  /** The DID of a DID or DID URL: what is before the first '#', if there is one. */
  predicate DidIn(s: string, did: string) {
    UrlOf(s, did) || (s == did && '#' !in did)
  }

  lemma DidInExact(s: string, did: string)
    ensures DidIn(s, did) <==> DidOrUrl(s).0 == did
  {
    hide DidOrUrl;
    DidOrUrlExact(s);
    UrlOfExact(s, did);
    UrlOfExact(s, DidOrUrl(s).0);
  }

  /** Packing refuses, before all else and as an illegal argument, exactly the calls in which the recipient, the
      sender or the signer is not a DID or DID URL, the recipient is not among those the message is to, or the
      sender is not the one the message is from. */
  lemma PackRefuses(m: Message, to: string, toDid: string, from: Option<string>, fromDid: string,
                    signBy: Option<string>, resolver: Resolver, secrets: Secrets, options: PackOptions,
                    random: PackRandom)
    requires DidIn(to, toDid) && (from.Some? ==> DidIn(from.value, fromDid))
    ensures ValidatePackEncrypted(m, to, from, signBy)
            == if && DidText(to) && (from.Some? ==> DidText(from.value)) && (signBy.Some? ==> DidText(signBy.value))
                  && (m.to.Some? ==> toDid in m.to.value)
                  && (from.Some? && m.from.Some? ==> m.from.value == fromDid)
               then Ok(()) else Err(IllegalArgument)
    ensures ValidatePackEncrypted(m, to, from, signBy).Err? ==>
              Pack(m, to, from, signBy, resolver, secrets, options, random) == Err(IllegalArgument)
  {
    hide DidOrUrl, IsDid, DidIn, Inner, EncryptFor, WrapIfNeeded;
    IsDidExact(to);
    DidInExact(to, toDid);
    if from.Some? {
      IsDidExact(from.value);
      DidInExact(from.value, fromDid);
    }
    if signBy.Some? {
      IsDidExact(signBy.value);
    }
  }
}
