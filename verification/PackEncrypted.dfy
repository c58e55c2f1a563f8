/** Packing an encrypted message: validation, signing, encryption and forwarding, in that order. */
module PackEncrypted {
  import opened Wrappers
  import opened Octets
  import opened Documents
  import opened JweCrypto
  import opened Messages
  import opened Packing
  import opened Routing

  datatype PackOptions = PackOptions(protectSender: bool, forwarding: ForwardOptions)

  /** What the random generators yield during one call. */
  datatype PackRandom = PackRandom(rnd: Fresh, outer: Fresh, layers: nat -> Layer)

  datatype PackMetadata = PackMetadata(
    messagingService: Option<ServiceUsed>,
    fromKid: Option<string>,
    signByKid: Option<string>,
    toKids: seq<string>)

  /** `_validate_pack_encrypted` */
  function ValidatePackEncrypted(m: Message, to: string, from: Option<string>, signBy: Option<string>): Result<()> {
    var _ :- Check(IsDid(to), IllegalArgument);
    var _ :- Check(from.Some? ==> IsDid(from.value), IllegalArgument);
    var _ :- Check(signBy.Some? ==> IsDid(signBy.value), IllegalArgument);
    var _ :- Check(m.to.Some? ==> DidOrUrl(to).0 in m.to.value, IllegalArgument);
    Check(from.Some? && m.from.Some? ==> DidOrUrl(from.value).0 == m.from.value, IllegalArgument)
  }

  /** The text to encrypt, and the key id that signed it if it is signed. */
  function Inner(m: Message, signBy: Option<string>, resolver: Resolver, secrets: Secrets)
    : Result<(string, Option<string>)>
  {
    match signBy
    case Some(signer) =>
      var signed :- PackSigned(m, signer, resolver, secrets);
      Ok((signed.0, Some(signed.1)))
    case None =>
      var plain :- PackPlaintext(m, resolver);
      Ok((plain, None))
  }

  datatype Encryption = Encryption(text: string, fromKid: Option<string>, toKids: seq<string>)

  function EncryptFor(text: string, to: string, from: Option<string>, resolver: Resolver, secrets: Secrets,
                      options: PackOptions, random: PackRandom): Result<Encryption>
  {
    var alg, limit := options.forwarding.encAlgAnon, options.forwarding.limit;
    match from
    case Some(f) =>
      var r :- Authcrypt(to, f, resolver, secrets, Utf8(text), alg, options.protectSender, limit, random.rnd,
                         random.outer);
      Ok(Encryption(r.text, Some(r.fromKid), r.toKids))
    case None =>
      var r :- Anoncrypt(to, resolver, Utf8(text), alg, limit, random.rnd);
      Ok(Encryption(r.0, None, r.1))
  }

  /** `pack_encrypted` */
  function Pack(m: Message, to: string, from: Option<string>, signBy: Option<string>, resolver: Resolver,
                secrets: Secrets, options: PackOptions, random: PackRandom): Result<(string, PackMetadata)>
  {
    var _ :- ValidatePackEncrypted(m, to, from, signBy);
    var inner :- Inner(m, signBy, resolver, secrets);
    var e :- EncryptFor(inner.0, to, from, resolver, secrets, options, random);
    var wrapped :- WrapIfNeeded(e.text, to, resolver, options.forwarding, random.layers);
    match wrapped
    case None => Ok((e.text, PackMetadata(None, e.fromKid, inner.1, e.toKids)))
    case Some(w) => Ok((w.0, PackMetadata(Some(w.1), e.fromKid, inner.1, e.toKids)))
  }
}
