/** Producing plaintext, signed and encrypted messages: key choice, negotiation and layering. */
module Packing {
  import opened Wrappers
  import opened Octets
  import opened JsonText
  import opened Symbols
  import opened Documents
  import opened Jwe
  import opened JweCrypto
  import opened Jws
  import opened Messages
  import opened Rotation

  datatype AnonCryptAlg = A256CbcHs512EcdhEs | Xc20PEcdhEs | A256GcmEcdhEs

  function AnonEnc(a: AnonCryptAlg): EncAlgorithm {
    match a
    case A256CbcHs512EcdhEs => A256CbcHs512
    case Xc20PEcdhEs => Xc20P
    case A256GcmEcdhEs => A256Gcm
  }

  // ----- Plaintext and signed messages -----

  /** `_validate_pack_plaintext` */
  function ValidatePlaintext(m: Message, prior: FromPrior, kid: string): Result<()> {
    var _ :- ValidatePack(prior, Some(kid));
    Check(m.from.Some? ==> prior.sub == m.from.value, Malformed)
  }

  function PackPlaintext(m: Message, resolver: Resolver): Result<string> {
    match m.fromPrior
    case None => Ok(Print(MessageToJson(m)))
    case Some(jwt) =>
      var prior :- UnpackFromPrior(jwt, resolver);
      var _ :- ValidatePlaintext(m, prior.0, prior.1);
      Ok(Print(MessageToJson(m)))
  }

  /** Returns the signed message and the key id that signed it. */
  function PackSigned(m: Message, signBy: string, resolver: Resolver, secrets: Secrets): Result<(string, string)> {
    var _ :- Check(IsDid(signBy), IllegalArgument);
    var doc :- Resolve(resolver, DidOrUrl(signBy).0);
    var kid :- SigningKid(doc, DidOrUrl(signBy).1, secrets);
    if kid !in secrets then Err(SecretNotFound) else
      var _ :- Check(secrets[kid].alg != UnsupportedAlg, Unsupported);
      var payload :- PackPlaintext(m, resolver);
      var alg :- SignAlgFor(secrets[kid].alg);
      var text :- Sign(Utf8(payload), kid, secrets[kid], alg);
      Ok((text, kid))
  }

  // ----- Key choice -----

  /** The verification methods of these key ids. */
  function Materials(doc: Document, kids: seq<string>, missing: ErrorKind): Result<seq<VerificationMethod>> {
    if kids == [] then Ok([]) else
      var vm :- OkOr(FindMethod(doc.methods, kids[0]), missing);
      var rest :- Materials(doc, kids[1..], missing);
      Ok([vm] + rest)
  }

  predicate Known(vm: VerificationMethod) {
    vm.key.Some? && vm.key.value.alg != UnsupportedAlg
  }

  predicate HasAlg(vm: VerificationMethod, alg: KeyAlg) {
    vm.key.Some? && vm.key.value.alg == alg
  }

  /** The algorithm of the first key whose algorithm is known. Ed25519 counts as known here. */
  function FirstAlg(keys: seq<VerificationMethod>): Option<KeyAlg> {
    if keys == [] then None
    else if Known(keys[0]) then Some(keys[0].key.value.alg)
    else FirstAlg(keys[1..])
  }

  function WithAlg(keys: seq<VerificationMethod>, alg: KeyAlg): seq<Named> {
    if keys == [] then []
    else (if HasAlg(keys[0], alg) then [Named(keys[0].id, keys[0].key.value)] else []) + WithAlg(keys[1..], alg)
  }

  /** A sender key that some recipient key can be used with. */
  predicate Fits(from: VerificationMethod, toKeys: seq<VerificationMethod>) {
    Known(from) && exists to :: to in toKeys && HasAlg(to, from.key.value.alg)
  }

  function FirstFit(fromKeys: seq<VerificationMethod>, toKeys: seq<VerificationMethod>): Option<VerificationMethod> {
    if fromKeys == [] then None
    else if Fits(fromKeys[0], toKeys) then Some(fromKeys[0])
    else FirstFit(fromKeys[1..], toKeys)
  }

  /** The recipient's key agreements, resolved, after the limit on their number. */
  function RecipientKeys(to: string, resolver: Resolver, limit: nat, missing: ErrorKind)
    : Result<seq<VerificationMethod>>
  {
    var doc :- Resolve(resolver, DidOrUrl(to).0);
    var kids := FilterKid(doc.keyAgreement, DidOrUrl(to).1);
    var _ :- Check(kids != [], DIDUrlNotFound);
    var _ :- Check(|kids| <= limit, TooManyCryptoOperations);
    Materials(doc, kids, missing)
  }

  /** The sender's key agreements that the wallet holds, resolved. */
  function SenderKeys(from: string, resolver: Resolver, secrets: Secrets): Result<seq<VerificationMethod>> {
    var doc :- Resolve(resolver, DidOrUrl(from).0);
    var kids := FilterKid(doc.keyAgreement, DidOrUrl(from).1);
    var _ :- Check(kids != [], DIDUrlNotFound);
    var held := FindSecrets(secrets, kids);
    var _ :- Check(held != [], SecretNotFound);
    Materials(doc, held, Malformed)
  }

  // ----- Encryption for a DID or a key id -----

  /** `anoncrypt`: the message and the key ids it was encrypted for. */
  function Anoncrypt(to: string, resolver: Resolver, msg: bytes, encAlg: AnonCryptAlg, limit: nat, rnd: Fresh)
    : Result<(string, seq<string>)>
  {
    var toKeys :- RecipientKeys(to, resolver, limit, Unsupported);
    var alg :- OkOr(FirstAlg(toKeys), InvalidState);
    var chosen := WithAlg(toKeys, alg);
    var _ :- Check(CanAgree(alg), InvalidState);
    var text :- Encrypted(alg, EcdhEs, EcdhEsA256Kw, AnonEnc(encAlg), msg, None, chosen, rnd);
    Ok((text, Kids(chosen)))
  }

  /** The layers of `authcrypt` once sender and recipient keys are chosen. */
  function AuthLayers(sender: Named, chosen: seq<Named>, msg: bytes, encAlg: AnonCryptAlg, protectSender: bool,
                      rnd: Fresh, outer: Fresh): Result<string>
  {
    var inner :- Encrypted(sender.key.alg, Ecdh1Pu, Ecdh1PuA256Kw, A256CbcHs512, msg, Some(sender), chosen, rnd);
    if protectSender then
      Encrypted(sender.key.alg, EcdhEs, EcdhEsA256Kw, AnonEnc(encAlg), Utf8(inner), None, chosen, outer)
    else Ok(inner)
  }

  datatype Authcrypted = Authcrypted(text: string, fromKid: string, toKids: seq<string>)

  /** `authcrypt`. The sender is resolved before the recipient's keys are looked at. */
  function Authcrypt(to: string, from: string, resolver: Resolver, secrets: Secrets, msg: bytes,
                     encAlg: AnonCryptAlg, protectSender: bool, limit: nat, rnd: Fresh, outer: Fresh)
    : Result<Authcrypted>
  {
    var _ :- Resolve(resolver, DidOrUrl(to).0);
    var fromKeys :- SenderKeys(from, resolver, secrets);
    var toKeys :- RecipientKeys(to, resolver, limit, Malformed);
    var fromKey :- OkOr(FirstFit(fromKeys, toKeys), NoCompatibleCrypto);
    if fromKey.id !in secrets then Err(InvalidState) else
      var secret := secrets[fromKey.id];
      FirstFitFits(fromKeys, toKeys);
      var alg := fromKey.key.value.alg;
      var chosen := WithAlg(toKeys, alg);
      var _ :- Check(CanAgree(alg), Unsupported);
      var _ :- Check(secret.alg == alg, InvalidState);
      var text :- AuthLayers(Named(fromKey.id, secret), chosen, msg, encAlg, protectSender, rnd, outer);
      Ok(Authcrypted(text, fromKey.id, Kids(chosen)))
  }

  /** The negotiated sender key is the first that fits, and there is none only if none fits. */
  lemma {:induction false} FirstFitFits(fromKeys: seq<VerificationMethod>, toKeys: seq<VerificationMethod>)
    ensures FirstFit(fromKeys, toKeys).None? <==> forall vm :: vm in fromKeys ==> !Fits(vm, toKeys)
    ensures FirstFit(fromKeys, toKeys).Some? ==>
              exists i :: && 0 <= i < |fromKeys| && fromKeys[i] == FirstFit(fromKeys, toKeys).value
                          && Fits(fromKeys[i], toKeys) && forall j :: 0 <= j < i ==> !Fits(fromKeys[j], toKeys)
  {
    hide Fits;
    if fromKeys != [] {
      if Fits(fromKeys[0], toKeys) {
        assert fromKeys[0] in fromKeys;
      } else {
        FirstFitFits(fromKeys[1..], toKeys);
        assert forall vm :: vm in fromKeys <==> vm == fromKeys[0] || vm in fromKeys[1..];
        if FirstFit(fromKeys, toKeys).Some? {
          var k :| && 0 <= k < |fromKeys[1..]| && fromKeys[1..][k] == FirstFit(fromKeys, toKeys).value
                   && Fits(fromKeys[1..][k], toKeys) && forall j :: 0 <= j < k ==> !Fits(fromKeys[1..][j], toKeys);
          forall j | 0 <= j < k + 1 ensures !Fits(fromKeys[j], toKeys) {
            if j > 0 { assert fromKeys[j] == fromKeys[1..][j - 1]; }
          }
          assert fromKeys[k + 1] == fromKeys[1..][k];
        }
      }
    }
  }
}
