/** What multi-recipient encryption promises: whoever the sender addressed can decrypt, nobody else
    can, and the `apv` header binds the set of recipients. */
module JweTheorems {
  import opened Wrappers
  import opened Octets
  import opened Strings
  import opened JsonText
  import opened Symbols
  import opened Documents
  import opened Jwe
  import opened JweCrypto
  import Base64Url

  predicate Standard(alg: Algorithm, enc: EncAlgorithm) {
    AlgorithmOf(AlgorithmName(alg)) == alg && EncOf(EncName(enc)) == enc
  }

  function FindNamed(rs: seq<Named>, kid: string): Option<Key> {
    if rs == [] then None
    else if rs[0].kid == kid then Some(rs[0].key)
    else FindNamed(rs[1..], kid)
  }

  predicate SameKey(a: Key, b: Key) {
    a.alg == b.alg && a.scalar == b.scalar
  }

  /** The sender that the recipient assumes is the one that encrypted: the same key id, and for
      ECDH-1PU also the same key. */
  predicate SameSender(kdf: Kdf, actual: Option<Named>, assumed: Option<Named>) {
    && Skid(actual) == Skid(assumed)
    && (kdf.Ecdh1Pu? ==> actual.Some? && assumed.Some? && SameKey(actual.value.key, assumed.value.key))
  }

  /** Who can open a message: a holder of the private part of the key the sender used for `kid`. */
  predicate Entitled(recipients: seq<Named>, recipient: Named) {
    && recipient.key.private
    && FindNamed(recipients, recipient.kid).Some?
    && SameKey(recipient.key, FindNamed(recipients, recipient.kid).value)
  }

  // ----- The key-wrap loop -----

  lemma {:induction false} WrappedKids(kdf: Kdf, epk: Key, send: Option<Key>, recipients: seq<Named>, alg: bytes,
                                       apu: bytes, apv: bytes, tag: bytes, cek: bytes)
    requires WrappedKeys(kdf, epk, send, recipients, alg, apu, apv, tag, cek).Ok?
    ensures JweKids(WrappedKeys(kdf, epk, send, recipients, alg, apu, apv, tag, cek).value) == Kids(recipients)
  {
    hide DeriveKey, Wrap, Base64Url.Encode;
    if recipients != [] {
      WrappedKids(kdf, epk, send, recipients[1..], alg, apu, apv, tag, cek);
      var rs := WrappedKeys(kdf, epk, send, recipients, alg, apu, apv, tag, cek).value;
      var rest := WrappedKeys(kdf, epk, send, recipients[1..], alg, apu, apv, tag, cek).value;
      assert rs[1..] == rest;
      assert JweKids(rs) == [recipients[0].kid] + JweKids(rest);
      assert Kids(recipients) == [recipients[0].kid] + Kids(recipients[1..]);
    }
  }

  /** What the entry for `kid` holds: the content key wrapped for the first recipient of that name. */
  lemma {:induction false} WrappedFor(kdf: Kdf, epk: Key, send: Option<Key>, recipients: seq<Named>, alg: bytes,
                                      apu: bytes, apv: bytes, tag: bytes, cek: bytes, kid: string)
    requires WrappedKeys(kdf, epk, send, recipients, alg, apu, apv, tag, cek).Ok?
    ensures var found := FindRecipient(WrappedKeys(kdf, epk, send, recipients, alg, apu, apv, tag, cek).value, kid);
            match FindNamed(recipients, kid)
            case None => found.None?
            case Some(key) =>
              var kw := DeriveKey(kdf, epk, send, key, alg, apu, apv, tag, false);
              kw.Ok? && found == Some(Recipient(kid, Base64Url.Encode(Wrap(kw.value, cek))))
  {
    hide DeriveKey, Wrap, Base64Url.Encode;
    if recipients != [] {
      WrappedFor(kdf, epk, send, recipients[1..], alg, apu, apv, tag, cek, kid);
      var rs := WrappedKeys(kdf, epk, send, recipients, alg, apu, apv, tag, cek).value;
      assert rs[1..] == WrappedKeys(kdf, epk, send, recipients[1..], alg, apu, apv, tag, cek).value;
    }
  }

  // ----- Parsing what was encrypted -----

  lemma ParsedProtected(h: Header)
    requires Standard(h.alg, h.enc)
    ensures Base64Url.Decode(Base64Url.StripPadding(ProtectedFor(h))) == Some(Utf8(Print(HeaderToJson(h))))
    ensures FromUtf8(Utf8(Print(HeaderToJson(h)))) == Some(Print(HeaderToJson(h)))
    ensures Parse(Print(HeaderToJson(h))) == Some(HeaderToJson(h))
    ensures HeaderFromJson(HeaderToJson(h)) == Ok(h)
  {
    Base64Url.StripNothing(ProtectedFor(h));
    Base64Url.DecodeEncode(Utf8(Print(HeaderToJson(h))));
    Utf8RoundTrip(Print(HeaderToJson(h)));
    ParsePrint(HeaderToJson(h));
    HeaderRoundTrip(h);
  }

  /** The parsed form of every encryption: its header, its sender and its recipients are those of the
      call, and `verify_didcomm` accepts it. */
  lemma ParsedSealed(curve: KeyAlg, kdf: Kdf, alg: Algorithm, enc: EncAlgorithm, plaintext: bytes,
                     sender: Option<Named>, recipients: seq<Named>, rnd: Fresh)
    requires Standard(alg, enc)
    requires Sealed(curve, kdf, alg, enc, plaintext, sender, recipients, rnd).Ok?
    ensures var jwe := Sealed(curve, kdf, alg, enc, plaintext, sender, recipients, rnd).value;
            var h := HeaderFor(alg, enc, sender, Kids(recipients), Key(curve, rnd.epk, true));
            var p := ParsedJwe(jwe, h, SkidOctets(sender), Apv(Kids(recipients)), Kids(recipients));
            ParseJwe(jwe) == Ok(p) && VerifyDidcomm(p) == Ok(p) && jwe.protected == ProtectedFor(h)
  {
    hide ProtectedFor, WrappedKeys, SealText, SealTag, HeaderToJson, HeaderFromJson, Base64Url.Encode,
         Base64Url.Decode, Utf8, FromUtf8, Print, Parse, Apv, ToJwk;
    var h := HeaderFor(alg, enc, sender, Kids(recipients), Key(curve, rnd.epk, true));
    var tag := SealTag(EncName(enc), rnd.cek, rnd.iv, Utf8(ProtectedFor(h)), plaintext);
    WrappedKids(kdf, Key(curve, rnd.epk, true), SenderKey(sender), recipients, Utf8(AlgorithmName(alg)),
                OrEmpty(SkidOctets(sender)), Apv(Kids(recipients)), tag, rnd.cek);
    ParsedProtected(h);
    Base64Url.DecodeEncode(Apv(Kids(recipients)));
    if sender.Some? {
      Base64Url.DecodeEncode(Utf8(sender.value.kid));
      Utf8RoundTrip(sender.value.kid);
    }
  }

  // ----- Deriving the same key-encryption key -----

  /** Both sides derive the same key exactly when they agree on the keys involved. */
  lemma DeriveExact(kdf: Kdf, epk: Key, send: Option<Key>, key: Key, send': Option<Key>, key': Key, alg: bytes,
                    apu: bytes, apv: bytes, tag: bytes)
    requires epk.private
    requires DeriveKey(kdf, epk, send, key, alg, apu, apv, tag, false).Ok?
    ensures DeriveKey(kdf, Public(epk), send', key', alg, apu, apv, tag, true)
            == DeriveKey(kdf, epk, send, key, alg, apu, apv, tag, false)
            <==> key'.private && SameKey(key', key)
                 && (kdf.Ecdh1Pu? ==> send'.Some? && SameKey(send'.value, send.value))
  {
    hide Sym;
    var mine := DeriveKey(kdf, epk, send, key, alg, apu, apv, tag, false);
    var theirs := DeriveKey(kdf, Public(epk), send', key', alg, apu, apv, tag, true);
    var whole := key.(private := true);
    AgreePublic(key', epk);
    AgreeSymmetric(epk, whole);
    AgreePublic(epk, key);
    AgreePublic(epk, whole);
    assert Agree(epk, key) == Agree(whole, epk);
    if key'.private && SameKey(key', key) && (kdf.Ecdh1Pu? ==> send'.Some? && SameKey(send'.value, send.value)) {
      assert key' == whole;
      if kdf.Ecdh1Pu? {
        var sender := send'.value.(private := true);
        AgreeSymmetric(sender, whole);
        AgreePublic(whole, send'.value);
        AgreePublic(whole, sender);
        AgreePublic(send.value, key);
        AgreePublic(send.value, whole);
        assert send.value.private;
      }
    }
    if theirs == mine {
      var ze, ze' := Agree(epk, key).value, Agree(key', Public(epk)).value;
      if kdf.EcdhEs? {
        SymInjective("ecdh-es", [ze, alg, apu, apv], [ze', alg, apu, apv]);
        assert [ze, alg, apu, apv][0] == [ze', alg, apu, apv][0];
        AgreeInjective(key', whole, epk);
      } else {
        var zs, zs' := Agree(send.value, key).value, Agree(key', send'.value).value;
        var t, t' := [ze, zs, alg, apu, apv, tag], [ze', zs', alg, apu, apv, tag];
        SymInjective("ecdh-1pu", t, t');
        assert t[0] == t'[0] && t[1] == t'[1];
        AgreeInjective(key', whole, epk);
        var sender := send'.value.(private := true);
        AgreePublic(key', send'.value);
        AgreePublic(key', sender);
        AgreeSymmetric(sender, key');
        assert Agree(sender, key') == Some(zs');
        AgreePublic(send.value, key);
        AgreePublic(send.value, key');
        assert Agree(send.value, key') == Some(zs);
        AgreeInjective(sender, send.value, key');
      }
    }
  }

  // ----- What a derived key binds -----

  /** The inputs of a derivation, in the order of the Concat KDF: ECDH-ES takes the secret agreed with the
      ephemeral key; ECDH-1PU that, then the secret agreed with the sender's key, and the tag. The side
      that receives agrees with its own key. */
  lemma DeriveInputs(kdf: Kdf, ephem: Key, send: Option<Key>, recip: Key, alg: bytes, apu: bytes, apv: bytes,
                     tag: bytes, receive: bool)
    requires DeriveKey(kdf, ephem, send, recip, alg, apu, apv, tag, receive).Ok?
    ensures var r := DeriveKey(kdf, ephem, send, recip, alg, apu, apv, tag, receive).value;
            var ze := if receive then Agree(recip, ephem) else Agree(ephem, recip);
            && ze.Some?
            && (kdf.EcdhEs? ==> r == Sym("ecdh-es", [ze.value, alg, apu, apv]))
            && (kdf.Ecdh1Pu? ==>
                  && send.Some?
                  && var zs := if receive then Agree(recip, send.value) else Agree(send.value, recip);
                     zs.Some? && r == Sym("ecdh-1pu", [ze.value, zs.value, alg, apu, apv, tag]))
  {
    hide Sym;
  }

  /** With the same keys, the derived key determines algorithm, `apu`, `apv` and, for ECDH-1PU, the tag. */
  lemma DeriveBinds(kdf: Kdf, ephem: Key, send: Option<Key>, recip: Key, receive: bool, alg: bytes, apu: bytes,
                    apv: bytes, tag: bytes, alg': bytes, apu': bytes, apv': bytes, tag': bytes)
    requires DeriveKey(kdf, ephem, send, recip, alg, apu, apv, tag, receive).Ok?
    ensures DeriveKey(kdf, ephem, send, recip, alg', apu', apv', tag', receive).Ok?
    ensures DeriveKey(kdf, ephem, send, recip, alg', apu', apv', tag', receive)
            == DeriveKey(kdf, ephem, send, recip, alg, apu, apv, tag, receive)
            <==> alg' == alg && apu' == apu && apv' == apv && (kdf.Ecdh1Pu? ==> tag' == tag)
  {
    hide Sym, Agree;
    var ze := (if receive then Agree(recip, ephem) else Agree(ephem, recip)).value;
    if DeriveKey(kdf, ephem, send, recip, alg', apu', apv', tag', receive)
       == DeriveKey(kdf, ephem, send, recip, alg, apu, apv, tag, receive) {
      if kdf.EcdhEs? {
        var a, b := [ze, alg, apu, apv], [ze, alg', apu', apv'];
        SymInjective("ecdh-es", a, b);
        assert a[1] == b[1] && a[2] == b[2] && a[3] == b[3];
      } else {
        var zs := (if receive then Agree(recip, send.value) else Agree(send.value, recip)).value;
        var a, b := [ze, zs, alg, apu, apv, tag], [ze, zs, alg', apu', apv', tag'];
        SymInjective("ecdh-1pu", a, b);
        assert a[2] == b[2] && a[3] == b[3] && a[4] == b[4] && a[5] == b[5];
      }
    }
  }

  /** Decryption opens an encrypted message exactly for the holder of a key it was encrypted to, who
      assumes the actual sender; and then it yields the plaintext. */
  lemma DecryptExact(curve: KeyAlg, kdf: Kdf, alg: Algorithm, enc: EncAlgorithm, plaintext: bytes,
                     sender: Option<Named>, recipients: seq<Named>, rnd: Fresh,
                     assumed: Option<Named>, recipient: Named)
    requires Standard(alg, enc)
    requires Sealed(curve, kdf, alg, enc, plaintext, sender, recipients, rnd).Ok?
    ensures var p := ParseJwe(Sealed(curve, kdf, alg, enc, plaintext, sender, recipients, rnd).value);
            p.Ok? &&
            var r := Decrypted(p.value, curve, kdf, enc, assumed, recipient);
            && (r.Ok? <==> SameSender(kdf, sender, assumed) && Entitled(recipients, recipient))
            && (r.Ok? ==> r.value == plaintext)
  {
    hide ProtectedFor, WrappedKeys, SealText, SealTag, Base64Url.Encode, Base64Url.Decode, Utf8, ParseJwe,
         Apv, ToJwk, FromJwk, Wrap, Unwrap, Open, DeriveKey, Sealed;
    ParsedSealed(curve, kdf, alg, enc, plaintext, sender, recipients, rnd);
    var jwe := Sealed(curve, kdf, alg, enc, plaintext, sender, recipients, rnd).value;
    var p := ParseJwe(jwe).value;
    SealedParts(curve, kdf, alg, enc, plaintext, sender, recipients, rnd, recipient.kid);
    SkidOctetsExact(sender, assumed);
    var epk := Key(curve, rnd.epk, true);
    JwkRoundTrip(epk);
    if FindNamed(recipients, recipient.kid).Some? {
      var key := FindNamed(recipients, recipient.kid).value;
      var tag := SealTag(EncName(enc), rnd.cek, rnd.iv, Utf8(jwe.protected), plaintext);
      var text := SealText(EncName(enc), rnd.cek, rnd.iv, Utf8(jwe.protected), plaintext);
      var algName, apu, apv := Utf8(AlgorithmName(alg)), OrEmpty(SkidOctets(sender)), Apv(Kids(recipients));
      DeriveExact(kdf, epk, SenderKey(sender), key, SenderKey(assumed), recipient.key, algName, apu, apv, tag);
      var mine := DeriveKey(kdf, epk, SenderKey(sender), key, algName, apu, apv, tag, false).value;
      var theirs := DeriveKey(kdf, Public(epk), SenderKey(assumed), recipient.key, algName, apu, apv, tag, true);
      if theirs.Ok? {
        UnwrapOfWrap(theirs.value, mine, rnd.cek);
      }
      OpenExact(EncName(enc), rnd.cek, rnd.iv, Utf8(jwe.protected), text, tag, plaintext);
    }
  }

  /** What an entitled recipient gets by unwrapping its entry of an encrypted message, with this `apv` and
      tag in place of those of the message. */
  function Unwrapped(p: ParsedJwe, curve: KeyAlg, kdf: Kdf, assumed: Option<Named>, recipient: Named, apv: bytes,
                     tag: bytes): Option<bytes>
  {
    match (FindRecipient(p.jwe.recipients, recipient.kid), FromJwk(curve, p.header.epk))
    case (Some(r), Ok(epk)) =>
      (match (Base64Url.Decode(r.encryptedKey),
              DeriveKey(kdf, epk, SenderKey(assumed), recipient.key, Utf8(AlgorithmName(p.header.alg)),
                        OrEmpty(p.apu), apv, tag, true))
       case (Some(entry), Ok(kw)) => Unwrap(kw, entry)
       case _ => None)
    case _ => None
  }

  /** The entry for a recipient yields the content key only under the `apv` that it was wrapped with and,
      for ECDH-1PU, the tag of the content that it was wrapped for; otherwise it yields nothing. */
  lemma EntryBound(curve: KeyAlg, kdf: Kdf, alg: Algorithm, enc: EncAlgorithm, plaintext: bytes,
                   sender: Option<Named>, recipients: seq<Named>, rnd: Fresh, assumed: Option<Named>,
                   recipient: Named, apv: bytes, tag: bytes)
    requires Standard(alg, enc)
    requires Sealed(curve, kdf, alg, enc, plaintext, sender, recipients, rnd).Ok?
    requires SameSender(kdf, sender, assumed) && Entitled(recipients, recipient)
    ensures var jwe := Sealed(curve, kdf, alg, enc, plaintext, sender, recipients, rnd).value;
            var own := SealTag(EncName(enc), rnd.cek, rnd.iv, Utf8(jwe.protected), plaintext);
            && ParseJwe(jwe).Ok?
            && Unwrapped(ParseJwe(jwe).value, curve, kdf, assumed, recipient, apv, tag)
               == if apv == Apv(Kids(recipients)) && (kdf.Ecdh1Pu? ==> tag == own) then Some(rnd.cek) else None
  {
    hide ProtectedFor, WrappedKeys, SealText, SealTag, Base64Url.Encode, Base64Url.Decode, Utf8, ParseJwe,
         Apv, ToJwk, FromJwk, Wrap, Unwrap, DeriveKey, Sealed;
    ParsedSealed(curve, kdf, alg, enc, plaintext, sender, recipients, rnd);
    var jwe := Sealed(curve, kdf, alg, enc, plaintext, sender, recipients, rnd).value;
    SealedParts(curve, kdf, alg, enc, plaintext, sender, recipients, rnd, recipient.kid);
    var epk := Key(curve, rnd.epk, true);
    JwkRoundTrip(epk);
    var key := FindNamed(recipients, recipient.kid).value;
    var own := SealTag(EncName(enc), rnd.cek, rnd.iv, Utf8(jwe.protected), plaintext);
    var algName, apu, ownApv := Utf8(AlgorithmName(alg)), OrEmpty(SkidOctets(sender)), Apv(Kids(recipients));
    DeriveExact(kdf, epk, SenderKey(sender), key, SenderKey(assumed), recipient.key, algName, apu, ownApv, own);
    DeriveBinds(kdf, Public(epk), SenderKey(assumed), recipient.key, true, algName, apu, ownApv, own, algName, apu, apv,
                tag);
    var mine := DeriveKey(kdf, epk, SenderKey(sender), key, algName, apu, ownApv, own, false).value;
    var theirs := DeriveKey(kdf, Public(epk), SenderKey(assumed), recipient.key, algName, apu, apv, tag, true).value;
    UnwrapOfWrap(theirs, mine, rnd.cek);
  }

  /** Every decryption unwraps the entry under the `apv` and the tag of the envelope at hand, and opens the
      content with the key that this yields. */
  lemma DecryptedUnwraps(p: ParsedJwe, curve: KeyAlg, kdf: Kdf, enc: EncAlgorithm, assumed: Option<Named>,
                         recipient: Named)
    requires Decrypted(p, curve, kdf, enc, assumed, recipient).Ok?
    ensures Base64Url.Decode(p.jwe.tag).Some?
    ensures var tag := Base64Url.Decode(p.jwe.tag).value;
            var cek := Unwrapped(p, curve, kdf, assumed, recipient, p.apv, tag);
            && cek.Some?
            && exists iv, text :: Open(EncName(enc), cek.value, iv, Utf8(p.jwe.protected), text, tag)
                                  == Some(Decrypted(p, curve, kdf, enc, assumed, recipient).value)
  {
    hide Base64Url.Decode, Utf8, FromJwk, Unwrap, Open, DeriveKey, FindRecipient;
  }

  /** An encrypted message whose `apv` or tag is exchanged for another does not decrypt. */
  lemma ExchangedFieldsFail(curve: KeyAlg, kdf: Kdf, alg: Algorithm, enc: EncAlgorithm, plaintext: bytes,
                            sender: Option<Named>, recipients: seq<Named>, rnd: Fresh, assumed: Option<Named>,
                            recipient: Named, apv: bytes, tag: bytes)
    requires Standard(alg, enc)
    requires Sealed(curve, kdf, alg, enc, plaintext, sender, recipients, rnd).Ok?
    requires SameSender(kdf, sender, assumed) && Entitled(recipients, recipient)
    ensures var jwe := Sealed(curve, kdf, alg, enc, plaintext, sender, recipients, rnd).value;
            var own := SealTag(EncName(enc), rnd.cek, rnd.iv, Utf8(jwe.protected), plaintext);
            && ParseJwe(jwe).Ok?
            && var p := ParseJwe(jwe).value.(apv := apv, jwe := jwe.(tag := Base64Url.Encode(tag)));
               Decrypted(p, curve, kdf, enc, assumed, recipient).Ok? <==> apv == Apv(Kids(recipients)) && tag == own
  {
    hide Sealed, ParseJwe, SealText, SealTag, Base64Url.Encode, Base64Url.Decode, Utf8, Apv, Unwrap, Open, DeriveKey,
         FromJwk, Entitled, SameSender, ProtectedFor, Unwrapped, ToJwk;
    var jwe := Sealed(curve, kdf, alg, enc, plaintext, sender, recipients, rnd).value;
    ParsedSealed(curve, kdf, alg, enc, plaintext, sender, recipients, rnd);
    var whole := ParseJwe(jwe).value;
    var own := SealTag(EncName(enc), rnd.cek, rnd.iv, Utf8(jwe.protected), plaintext);
    var p := whole.(apv := apv, jwe := jwe.(tag := Base64Url.Encode(tag)));
    EntryBound(curve, kdf, alg, enc, plaintext, sender, recipients, rnd, assumed, recipient, apv, tag);
    SameEntry(whole, p, curve, kdf, assumed, recipient, apv, tag);
    Base64Url.DecodeEncode(tag);
    SealedParts(curve, kdf, alg, enc, plaintext, sender, recipients, rnd, recipient.kid);
    if Decrypted(p, curve, kdf, enc, assumed, recipient).Ok? {
      DecryptedUnwraps(p, curve, kdf, enc, assumed, recipient);
      OpenedTag(p, curve, kdf, enc, assumed, recipient, rnd.cek, rnd.iv, plaintext);
    }
    if apv == Apv(Kids(recipients)) && tag == own {
      Base64Url.DecodeExact(jwe.tag, own);
      assert p == whole;
      DecryptExact(curve, kdf, alg, enc, plaintext, sender, recipients, rnd, assumed, recipient);
    }
  }

  lemma SameEntry(p: ParsedJwe, q: ParsedJwe, curve: KeyAlg, kdf: Kdf, assumed: Option<Named>, recipient: Named,
                  apv: bytes, tag: bytes)
    requires p.jwe.recipients == q.jwe.recipients && p.header == q.header && p.apu == q.apu
    ensures Unwrapped(p, curve, kdf, assumed, recipient, apv, tag)
            == Unwrapped(q, curve, kdf, assumed, recipient, apv, tag)
  {
    hide DeriveKey, FromJwk, Unwrap, Base64Url.Decode, FindRecipient, Utf8;
  }

  /** If the content of an encrypted message decrypts with its own key, the tag is its own. */
  lemma OpenedTag(p: ParsedJwe, curve: KeyAlg, kdf: Kdf, enc: EncAlgorithm, assumed: Option<Named>, recipient: Named,
                  cek: bytes, iv: bytes, plaintext: bytes)
    requires Decrypted(p, curve, kdf, enc, assumed, recipient).Ok? && Base64Url.Decode(p.jwe.tag).Some?
    requires Unwrapped(p, curve, kdf, assumed, recipient, p.apv, Base64Url.Decode(p.jwe.tag).value) == Some(cek)
    requires Base64Url.Decode(p.jwe.iv) == Some(iv)
    requires Base64Url.Decode(p.jwe.ciphertext)
             == Some(SealText(EncName(enc), cek, iv, Utf8(p.jwe.protected), plaintext))
    ensures Base64Url.Decode(p.jwe.tag) == Some(SealTag(EncName(enc), cek, iv, Utf8(p.jwe.protected), plaintext))
  {
    hide Base64Url.Decode, Utf8, FromJwk, Unwrap, Open, DeriveKey, FindRecipient, SealText, SealTag;
    var text, tag := Base64Url.Decode(p.jwe.ciphertext).value, Base64Url.Decode(p.jwe.tag).value;
    var x := Decrypted(p, curve, kdf, enc, assumed, recipient).value;
    OpenExact(EncName(enc), cek, iv, Utf8(p.jwe.protected), text, tag, x);
    SealBinds(EncName(enc), cek, iv, Utf8(p.jwe.protected), x, EncName(enc), cek, iv, Utf8(p.jwe.protected), plaintext);
  }

  /** If a content decrypts with a key, it was sealed under that key with the header at hand. */
  lemma OpenedUnder(p: ParsedJwe, curve: KeyAlg, kdf: Kdf, enc: EncAlgorithm, assumed: Option<Named>, recipient: Named,
                    cek: bytes, iv: bytes)
    requires Decrypted(p, curve, kdf, enc, assumed, recipient).Ok? && Base64Url.Decode(p.jwe.tag).Some?
    requires Unwrapped(p, curve, kdf, assumed, recipient, p.apv, Base64Url.Decode(p.jwe.tag).value) == Some(cek)
    requires Base64Url.Decode(p.jwe.iv) == Some(iv)
    ensures var x := Decrypted(p, curve, kdf, enc, assumed, recipient).value;
            && Base64Url.Decode(p.jwe.ciphertext) == Some(SealText(EncName(enc), cek, iv, Utf8(p.jwe.protected), x))
            && Base64Url.Decode(p.jwe.tag) == Some(SealTag(EncName(enc), cek, iv, Utf8(p.jwe.protected), x))
  {
    hide Base64Url.Decode, Utf8, FromJwk, Unwrap, Open, DeriveKey, FindRecipient, SealText, SealTag;
    var text, tag := Base64Url.Decode(p.jwe.ciphertext).value, Base64Url.Decode(p.jwe.tag).value;
    OpenExact(EncName(enc), cek, iv, Utf8(p.jwe.protected), text, tag,
              Decrypted(p, curve, kdf, enc, assumed, recipient).value);
  }

  /** An encrypted message whose protected header is spelled in any other way does not decrypt, even if what was
      read from the header is kept: the header is authenticated as it is written. */
  lemma ExchangedHeaderFails(curve: KeyAlg, kdf: Kdf, alg: Algorithm, enc: EncAlgorithm, plaintext: bytes,
                             sender: Option<Named>, recipients: seq<Named>, rnd: Fresh, assumed: Option<Named>,
                             recipient: Named, protected: string)
    requires Standard(alg, enc)
    requires Sealed(curve, kdf, alg, enc, plaintext, sender, recipients, rnd).Ok?
    requires SameSender(kdf, sender, assumed) && Entitled(recipients, recipient)
    ensures var jwe := Sealed(curve, kdf, alg, enc, plaintext, sender, recipients, rnd).value;
            && ParseJwe(jwe).Ok?
            && var p := ParseJwe(jwe).value.(jwe := jwe.(protected := protected));
               Decrypted(p, curve, kdf, enc, assumed, recipient).Ok? <==> protected == jwe.protected
  {
    hide Sealed, ParseJwe, SealText, SealTag, Base64Url.Encode, Base64Url.Decode, Utf8, Apv, Unwrap, Open, DeriveKey,
         FromJwk, Entitled, SameSender, ProtectedFor, Unwrapped, ToJwk, Decrypted;
    var jwe := Sealed(curve, kdf, alg, enc, plaintext, sender, recipients, rnd).value;
    ParsedSealed(curve, kdf, alg, enc, plaintext, sender, recipients, rnd);
    var whole := ParseJwe(jwe).value;
    var own := SealTag(EncName(enc), rnd.cek, rnd.iv, Utf8(jwe.protected), plaintext);
    var p := whole.(jwe := jwe.(protected := protected));
    EntryBound(curve, kdf, alg, enc, plaintext, sender, recipients, rnd, assumed, recipient, whole.apv, own);
    SameEntry(whole, p, curve, kdf, assumed, recipient, whole.apv, own);
    SealedParts(curve, kdf, alg, enc, plaintext, sender, recipients, rnd, recipient.kid);
    DecryptExact(curve, kdf, alg, enc, plaintext, sender, recipients, rnd, assumed, recipient);
    if Decrypted(p, curve, kdf, enc, assumed, recipient).Ok? {
      OpenedUnder(p, curve, kdf, enc, assumed, recipient, rnd.cek, rnd.iv);
      var x := Decrypted(p, curve, kdf, enc, assumed, recipient).value;
      SealBinds(EncName(enc), rnd.cek, rnd.iv, Utf8(protected), x, EncName(enc), rnd.cek, rnd.iv,
                Utf8(jwe.protected), plaintext);
      Utf8Injective(protected, jwe.protected);
    }
    if protected == jwe.protected {
      assert p == whole;
    }
  }

  lemma UnwrapOfWrap(theirs: bytes, mine: bytes, cek: bytes)
    ensures Unwrap(theirs, Wrap(mine, cek)) == if theirs == mine then Some(cek) else None
  {
    hide Wrap, Unwrap;
    UnwrapExact(mine, Wrap(mine, cek), cek);
    if Unwrap(theirs, Wrap(mine, cek)).Some? {
      var c := Unwrap(theirs, Wrap(mine, cek)).value;
      UnwrapExact(theirs, Wrap(mine, cek), c);
      WrapInjective(theirs, c, mine, cek);
    }
  }

  lemma SkidOctetsExact(a: Option<Named>, b: Option<Named>)
    ensures SkidOctets(a) == SkidOctets(b) <==> Skid(a) == Skid(b)
  {
    if a.Some? && b.Some? && SkidOctets(a) == SkidOctets(b) {
      Utf8Injective(a.value.kid, b.value.kid);
    }
  }

  /** The fields that decryption decodes, and the entry it finds for a key id. */
  lemma SealedParts(curve: KeyAlg, kdf: Kdf, alg: Algorithm, enc: EncAlgorithm, plaintext: bytes,
                    sender: Option<Named>, recipients: seq<Named>, rnd: Fresh, kid: string)
    requires Sealed(curve, kdf, alg, enc, plaintext, sender, recipients, rnd).Ok?
    ensures var jwe := Sealed(curve, kdf, alg, enc, plaintext, sender, recipients, rnd).value;
            var tag := SealTag(EncName(enc), rnd.cek, rnd.iv, Utf8(jwe.protected), plaintext);
            var text := SealText(EncName(enc), rnd.cek, rnd.iv, Utf8(jwe.protected), plaintext);
            && Base64Url.Decode(jwe.tag) == Some(tag)
            && Base64Url.Decode(jwe.ciphertext) == Some(text)
            && Base64Url.Decode(jwe.iv) == Some(rnd.iv)
            && match FindNamed(recipients, kid)
               case None => FindRecipient(jwe.recipients, kid).None?
               case Some(key) =>
                 var kw := DeriveKey(kdf, Key(curve, rnd.epk, true), SenderKey(sender), key, Utf8(AlgorithmName(alg)),
                                     OrEmpty(SkidOctets(sender)), Apv(Kids(recipients)), tag, false);
                 && kw.Ok?
                 && FindRecipient(jwe.recipients, kid).Some?
                 && Base64Url.Decode(FindRecipient(jwe.recipients, kid).value.encryptedKey)
                    == Some(Wrap(kw.value, rnd.cek))
  {
    hide ProtectedFor, WrappedKeys, SealText, SealTag, Base64Url.Encode, Base64Url.Decode, Utf8, Apv, DeriveKey, Wrap;
    var jwe := Sealed(curve, kdf, alg, enc, plaintext, sender, recipients, rnd).value;
    var tag := SealTag(EncName(enc), rnd.cek, rnd.iv, Utf8(jwe.protected), plaintext);
    Base64Url.DecodeEncode(tag);
    Base64Url.DecodeEncode(SealText(EncName(enc), rnd.cek, rnd.iv, Utf8(jwe.protected), plaintext));
    Base64Url.DecodeEncode(rnd.iv);
    var epk := Key(curve, rnd.epk, true);
    WrappedFor(kdf, epk, SenderKey(sender), recipients, Utf8(AlgorithmName(alg)), OrEmpty(SkidOctets(sender)),
               Apv(Kids(recipients)), tag, rnd.cek, kid);
    match FindNamed(recipients, kid)
    case None =>
    case Some(key) =>
      var kw := DeriveKey(kdf, epk, SenderKey(sender), key, Utf8(AlgorithmName(alg)), OrEmpty(SkidOctets(sender)),
                          Apv(Kids(recipients)), tag, false);
      Base64Url.DecodeEncode(Wrap(kw.value, rnd.cek));
  }

  /** ECDH-1PU cannot be used without a sender key, unless there is nobody to encrypt for. */
  lemma OnePuNeedsSender(curve: KeyAlg, alg: Algorithm, enc: EncAlgorithm, plaintext: bytes, recipients: seq<Named>,
                         rnd: Fresh)
    ensures Encrypted(curve, Ecdh1Pu, alg, enc, plaintext, None, recipients, rnd).Ok? <==> recipients == []
  {
  }

  // ----- Binding of the recipient set -----

  predicate DotFree(kids: seq<string>) {
    forall k :: k in kids ==> '.' !in k
  }

  /** The digest determines the joined text and nothing more. */
  lemma ApvExact(a: seq<string>, b: seq<string>)
    ensures Apv(a) == Apv(b) <==> Join(Sort(a), '.') == Join(Sort(b), '.')
  {
    hide Sha256, Sort, Join;
    if Apv(a) == Apv(b) {
      Sha256Injective(Utf8(Join(Sort(a), '.')), Utf8(Join(Sort(b), '.')));
      Utf8Injective(Join(Sort(a), '.'), Join(Sort(b), '.'));
    }
  }

  lemma SortDotFree(kids: seq<string>)
    requires DotFree(kids)
    ensures DotFree(Sort(kids)) && |Sort(kids)| == |kids|
  {
    forall k | k in Sort(kids) ensures '.' !in k {
      assert k in multiset(Sort(kids));
    }
    assert |multiset(Sort(kids))| == |multiset(kids)|;
  }

  /** For key ids without dots the digest identifies the multiset of key ids; the one exception is
      that no key id at all looks like one empty key id. */
  lemma ApvBinds(a: seq<string>, b: seq<string>)
    requires DotFree(a) && DotFree(b)
    ensures Apv(a) == Apv(b) <==> multiset(a) == multiset(b) || (a == [] && b == [""]) || (a == [""] && b == [])
  {
    hide Apv;
    ApvExact(a, b);
    SortCanonical(a, b);
    SortDotFree(a);
    SortDotFree(b);
    if a != [] && b != [] && Join(Sort(a), '.') == Join(Sort(b), '.') {
      SplitJoin(Sort(a), '.');
      SplitJoin(Sort(b), '.');
    } else if a == [] && b != [] {
      EmptyJoin(Sort(b));
      SingleSort(b);
    } else if b == [] && a != [] {
      EmptyJoin(Sort(a));
      SingleSort(a);
    }
  }

  lemma EmptyJoin(v: seq<string>)
    requires v != []
    ensures Join(v, '.') == [] <==> v == [""]
  {
    if |v| > 1 {
      assert '.' in v[0] + ['.'] + Join(v[1..], '.');
    }
  }

  lemma SingleSort(v: seq<string>)
    ensures Sort(v) == [""] <==> v == [""]
  {
    if Sort(v) == [""] {
      assert multiset(v) == multiset{""};
      assert |v| == |multiset(v)| == 1;
      assert v[0] in multiset(v);
    }
  }

  // ----- Key ids with dots, as in did:peer -----

  /** The text that is hashed. */
  function OneText(kids: seq<string>): string {
    Join(Sort(kids), '.')
  }

  /** No restriction, or a key id with a fragment of one DID. */
  predicate Within(did: Option<string>, kid: string) {
    did.Some? ==> DidOrUrl(kid) == (did.value, Some(kid))
  }

  predicate AllWithin(did: Option<string>, kids: seq<string>) {
    forall k :: k in kids ==> Within(did, k)
  }

  lemma WithinConcat(did: Option<string>, head: string, tail: string)
    requires Within(did, head)
    ensures Within(did, head + tail)
  {
    if did.Some? {
      BeforeFirstExact(head, '#');
      var n := |did.value|;
      assert head + tail == did.value + ['#'] + (head[n + 1..] + tail);
      BeforeFirstConcat(did.value, head[n + 1..] + tail, '#');
    }
  }

  lemma WithinJoin(did: Option<string>, v: seq<string>)
    requires v != [] && Within(did, v[0])
    ensures Within(did, Join(v, '.'))
  {
    hide Within;
    if |v| > 1 {
      WithinConcat(did, v[0], ['.'] + Join(v[1..], '.'));
      assert v[0] + (['.'] + Join(v[1..], '.')) == Join(v, '.');
    }
  }

  lemma SameLength(a: seq<string>, b: seq<string>)
    requires multiset(a) == multiset(b)
    ensures |a| == |b|
  {
    assert |multiset(a)| == |a| && |multiset(b)| == |b|;
  }

  lemma SortedFirst(kids: seq<string>)
    requires kids != []
    ensures |Sort(kids)| == |kids| && Sort(kids)[0] in kids
  {
    SameLength(Sort(kids), kids);
    assert Sort(kids)[0] in multiset(Sort(kids));
  }

  /** Every list of two or more key ids has the digest of one key id: all of them joined, which is a key
      id of the same DID. */
  lemma ManyCollideWithOne(did: Option<string>, kids: seq<string>)
    requires |kids| >= 2 && AllWithin(did, kids)
    ensures Apv(kids) == Apv([OneText(kids)]) && multiset(kids) != multiset([OneText(kids)])
    ensures Within(did, OneText(kids))
  {
    hide Apv, Within;
    var joined := OneText(kids);
    ApvExact(kids, [joined]);
    SortTwo(joined, "");
    if multiset(kids) == multiset([joined]) {
      SameLength(kids, [joined]);
    }
    SortedFirst(kids);
    WithinJoin(did, Sort(kids));
  }

  /** Some dot of the key id has before it a text that is not greater than the text after it, and both
      are key ids of the DID. */
  predicate Splits(did: Option<string>, kid: string) {
    exists i :: && 0 <= i < |kid| && kid[i] == '.' && Le(kid[..i], kid[i + 1..])
                && Within(did, kid[..i]) && Within(did, kid[i + 1..])
  }

  lemma SplitCollides(did: Option<string>, kid: string)
    requires Splits(did, kid)
    ensures exists b :: b != [] && AllWithin(did, b) && Apv(b) == Apv([kid]) && multiset(b) != multiset([kid])
  {
    hide Apv, Within, Le, AllWithin, Join, Sort;
    var i :| && 0 <= i < |kid| && kid[i] == '.' && Le(kid[..i], kid[i + 1..])
             && Within(did, kid[..i]) && Within(did, kid[i + 1..]);
    var x, y := kid[..i], kid[i + 1..];
    var b := [x, y];
    ApvExact(b, [kid]);
    SortTwo(x, y);
    SortTwo(kid, "");
    TwoJoined(did, x, y);
    OneJoined(kid);
    assert x + ['.'] + y == kid;
    if multiset(b) == multiset([kid]) {
      SameLength(b, [kid]);
    }
  }

  lemma TwoJoined(did: Option<string>, x: string, y: string)
    ensures Join([x, y], '.') == x + ['.'] + y
    ensures Within(did, x) && Within(did, y) ==> AllWithin(did, [x, y])
  {
    hide Within;
    assert [x, y][1..] == [y];
  }

  lemma OneJoined(x: string)
    ensures Join([x], '.') == x
  {
  }

  lemma LeJoin(v: seq<string>)
    requires v != []
    ensures Le(v[0], Join(v, '.'))
  {
    hide Le;
    if |v| == 1 {
      LeTotal(v[0], v[0]);
    } else {
      LePrefix(v[0], ['.'] + Join(v[1..], '.'));
      assert v[0] + (['.'] + Join(v[1..], '.')) == Join(v, '.');
    }
  }

  lemma SortedJoinSplits(did: Option<string>, v: seq<string>)
    requires |v| >= 2 && Sorted(v) && AllWithin(did, v)
    ensures Splits(did, Join(v, '.'))
  {
    hide Within, Le;
    var kid, before, after := Join(v, '.'), v[0], Join(v[1..], '.');
    assert kid == before + ['.'] + after;
    LeJoin(v[1..]);
    LeTransitive(v[0], v[1], after);
    WithinJoin(did, v[1..]);
    assert kid[..|before|] == before && kid[|before| + 1..] == after && kid[|before|] == '.';
  }

  lemma CollisionSplits(did: Option<string>, kid: string, b: seq<string>)
    requires b != [] && AllWithin(did, b) && Apv(b) == Apv([kid]) && multiset(b) != multiset([kid])
    ensures Splits(did, kid)
  {
    hide Apv, Within, Le, Splits, Sorted, Join;
    ApvExact(b, [kid]);
    SortTwo(kid, "");
    JoinOne(kid);
    var v := Sort(b);
    SortSorted(b);
    SameLength(v, b);
    forall k | k in v ensures Within(did, k) {
      assert k in multiset(v);
    }
    SingleSorted(b, kid);
    SortedJoinSplits(did, v);
  }

  lemma SingleSorted(b: seq<string>, kid: string)
    requires b != [] && Join(Sort(b), '.') == kid
    ensures |Sort(b)| == 1 ==> multiset(b) == multiset([kid])
  {
    hide Join;
    var v := Sort(b);
    if |v| == 1 {
      JoinOne(v[0]);
      assert v == [v[0]];
    }
  }

  lemma JoinOne(s: string)
    ensures Join([s], '.') == s
  {
  }

  /** The digest binds a list of key ids, against all other lists, exactly if there is one key id only
      and it cannot be read as several. With `did` given, all key ids considered are of that DID. */
  lemma BindingExact(did: Option<string>, kids: seq<string>)
    requires kids != [] && AllWithin(did, kids)
    ensures (forall b :: b != [] && AllWithin(did, b) && Apv(b) == Apv(kids) ==> multiset(b) == multiset(kids))
            <==> |kids| == 1 && !Splits(did, kids[0])
  {
    hide Apv, Within, Splits;
    if |kids| >= 2 {
      ManyCollideWithOne(did, kids);
      assert AllWithin(did, [OneText(kids)]);
    } else {
      assert kids == [kids[0]];
      if Splits(did, kids[0]) {
        SplitCollides(did, kids[0]);
      } else {
        forall b | b != [] && AllWithin(did, b) && Apv(b) == Apv(kids) ensures multiset(b) == multiset(kids) {
          if multiset(b) != multiset(kids) {
            CollisionSplits(did, kids[0], b);
          }
        }
      }
    }
  }

  /** Against key ids without dots: a list has the digest of `kids` exactly if the hashed text, split at
      its dots, is sorted and has the same contents. */
  lemma DotFreeDigest(kids: seq<string>, b: seq<string>)
    requires b != [] && DotFree(b)
    ensures var parts := Split(OneText(kids), '.');
            Apv(b) == Apv(kids) <==> Sorted(parts) && multiset(b) == multiset(parts)
  {
    hide Apv;
    var parts := Split(OneText(kids), '.');
    ApvExact(b, kids);
    SortDotFree(b);
    SortSorted(b);
    JoinSplit(OneText(kids), '.');
    if Apv(b) == Apv(kids) {
      SplitJoin(Sort(b), '.');
    }
    if Sorted(parts) && multiset(b) == multiset(parts) {
      SortedUnique(Sort(b), parts);
    }
  }

  /** So against lists of dot-free key ids the digest binds exactly those lists that are dot-free
      themselves, and those whose text does not split into a sorted list. */
  lemma DotFreeBindingExact(kids: seq<string>)
    requires kids != []
    ensures (forall b :: b != [] && DotFree(b) && Apv(b) == Apv(kids) ==> multiset(b) == multiset(kids))
            <==> DotFree(kids) || !Sorted(Split(OneText(kids), '.'))
  {
    hide Apv, Sorted;
    var parts := Split(OneText(kids), '.');
    forall b | b != [] && DotFree(b) ensures Apv(b) == Apv(kids) <==> Sorted(parts) && multiset(b) == multiset(parts) {
      DotFreeDigest(kids, b);
    }
    assert DotFree(parts);
    if DotFree(kids) {
      DotFreeDigest(kids, kids);
    } else {
      var k :| k in kids && '.' in k;
      assert k in multiset(kids) && k !in multiset(parts);
    }
  }

  function WithKids(kids: seq<string>): seq<Recipient> {
    seq(|kids|, i requires 0 <= i < |kids| => Recipient(kids[i], ""))
  }

  /** What `verify_didcomm` says of an encrypted message after its recipient list is exchanged. */
  predicate Accepted(jwe: Jwe, changed: seq<Recipient>) {
    var p := ParseJwe(jwe.(recipients := changed));
    p.Ok? && VerifyDidcomm(p.value).Ok?
  }

  lemma AcceptedExact(curve: KeyAlg, kdf: Kdf, alg: Algorithm, enc: EncAlgorithm, plaintext: bytes,
                      sender: Option<Named>, recipients: seq<Named>, rnd: Fresh, changed: seq<Recipient>)
    requires Standard(alg, enc)
    requires Sealed(curve, kdf, alg, enc, plaintext, sender, recipients, rnd).Ok?
    ensures Accepted(Sealed(curve, kdf, alg, enc, plaintext, sender, recipients, rnd).value, changed)
            <==> Apv(JweKids(changed)) == Apv(Kids(recipients))
  {
    hide Sealed, Apv, ProtectedFor, HeaderFor, Base64Url.Decode, FromUtf8, Parse, HeaderFromJson;
    ParsedSealed(curve, kdf, alg, enc, plaintext, sender, recipients, rnd);
  }

  /** Recipient-set binding, for key ids with or without dots, of one DID or of any: no other recipient
      list is accepted for an encrypted message exactly if it has one recipient, whose key id cannot be
      read as several. */
  lemma RecipientSetExact(curve: KeyAlg, kdf: Kdf, alg: Algorithm, enc: EncAlgorithm, plaintext: bytes,
                          sender: Option<Named>, recipients: seq<Named>, rnd: Fresh, did: Option<string>)
    requires Standard(alg, enc)
    requires Sealed(curve, kdf, alg, enc, plaintext, sender, recipients, rnd).Ok?
    requires recipients != [] && AllWithin(did, Kids(recipients))
    ensures var jwe := Sealed(curve, kdf, alg, enc, plaintext, sender, recipients, rnd).value;
            (forall changed :: changed != [] && AllWithin(did, JweKids(changed)) && Accepted(jwe, changed) ==>
                                 multiset(JweKids(changed)) == multiset(Kids(recipients)))
            <==> |recipients| == 1 && !Splits(did, recipients[0].kid)
  {
    hide Sealed, Apv, Accepted, Within, Splits;
    var jwe := Sealed(curve, kdf, alg, enc, plaintext, sender, recipients, rnd).value;
    var kids := Kids(recipients);
    forall changed ensures Accepted(jwe, changed) <==> Apv(JweKids(changed)) == Apv(kids) {
      AcceptedExact(curve, kdf, alg, enc, plaintext, sender, recipients, rnd, changed);
    }
    BindingExact(did, kids);
    if !(|recipients| == 1 && !Splits(did, recipients[0].kid)) {
      var b :| b != [] && AllWithin(did, b) && Apv(b) == Apv(kids) && multiset(b) != multiset(kids);
      assert JweKids(WithKids(b)) == b;
    }
  }

  /** The failing case: a message for two or more keys of a DID is also accepted with a single recipient
      of that DID, whatever its encrypted key. */
  lemma MergedRecipientAccepted(curve: KeyAlg, kdf: Kdf, alg: Algorithm, enc: EncAlgorithm, plaintext: bytes,
                                sender: Option<Named>, recipients: seq<Named>, rnd: Fresh, did: Option<string>,
                                encryptedKey: string)
    requires Standard(alg, enc)
    requires Sealed(curve, kdf, alg, enc, plaintext, sender, recipients, rnd).Ok?
    requires |recipients| >= 2 && AllWithin(did, Kids(recipients))
    ensures var jwe := Sealed(curve, kdf, alg, enc, plaintext, sender, recipients, rnd).value;
            var merged := Recipient(OneText(Kids(recipients)), encryptedKey);
            Accepted(jwe, [merged]) && Within(did, merged.kid)
  {
    hide Sealed, Apv, Accepted, Within, OneText;
    var merged := Recipient(OneText(Kids(recipients)), encryptedKey);
    AcceptedExact(curve, kdf, alg, enc, plaintext, sender, recipients, rnd, [merged]);
    assert JweKids([merged]) == [merged.kid];
    ManyCollideWithOne(did, Kids(recipients));
  }

  /** Against recipient lists with dot-free key ids: which of them are accepted, for any recipients. If
      the recipients' key ids are dot-free too, these are the permutations of the recipients. */
  lemma RecipientSetBound(curve: KeyAlg, kdf: Kdf, alg: Algorithm, enc: EncAlgorithm, plaintext: bytes,
                          sender: Option<Named>, recipients: seq<Named>, rnd: Fresh, changed: seq<Recipient>)
    requires Standard(alg, enc)
    requires Sealed(curve, kdf, alg, enc, plaintext, sender, recipients, rnd).Ok?
    requires changed != [] && DotFree(JweKids(changed))
    ensures var jwe := Sealed(curve, kdf, alg, enc, plaintext, sender, recipients, rnd).value;
            var parts := Split(OneText(Kids(recipients)), '.');
            && (Accepted(jwe, changed) <==> Sorted(parts) && multiset(JweKids(changed)) == multiset(parts))
            && (recipients != [] && DotFree(Kids(recipients)) ==>
                  (Accepted(jwe, changed) <==> multiset(JweKids(changed)) == multiset(Kids(recipients))))
  {
    hide Sealed, Apv, Accepted, Sorted;
    AcceptedExact(curve, kdf, alg, enc, plaintext, sender, recipients, rnd, changed);
    DotFreeDigest(Kids(recipients), JweKids(changed));
    if recipients != [] && DotFree(Kids(recipients)) {
      DotFreeDigest(Kids(recipients), Kids(recipients));
    }
  }

  lemma SortTwo(x: string, y: string)
    ensures Sort([x]) == [x] && (Le(x, y) ==> Sort([x, y]) == [x, y])
  {
    hide Le;
    assert [x][1..] == [] && [x, y][1..] == [y] && [y][1..] == [];
    assert Sort([y]) == [y];
  }

  /** `verify_didcomm` accepts exactly if `apv` is the digest of the recipients' key ids, `apu` is text, and
      a `skid` comes with an `apu` that spells it. It changes nothing, and refuses as Malformed. */
  lemma VerifyExact(p: ParsedJwe)
    ensures VerifyDidcomm(p) == Ok(p)
            <==> && p.apv == Apv(JweKids(p.jwe.recipients))
                 && (p.apu.Some? ==> FromUtf8(p.apu.value).Some?)
                 && (p.header.skid.Some? ==> p.apu == Some(Utf8(p.header.skid.value)))
    ensures VerifyDidcomm(p) == Ok(p) || VerifyDidcomm(p) == Err(Malformed)
  {
    hide Apv, Utf8, FromUtf8;
    if p.apu.Some? {
      FromUtf8Exact(p.apu.value);
      if p.header.skid.Some? {
        Utf8RoundTrip(p.header.skid.value);
      }
    }
  }

  /** Permuting the recipients never changes the verdict, whatever the key ids are. */
  lemma VerifyPermuted(p: ParsedJwe, permuted: seq<Recipient>)
    requires multiset(JweKids(p.jwe.recipients)) == multiset(JweKids(permuted))
    ensures VerifyDidcomm(p).Ok? <==> VerifyDidcomm(p.(jwe := p.jwe.(recipients := permuted))).Ok?
  {
    hide Sort, Join, Sha256, Utf8, FromUtf8;
    SortCanonical(JweKids(p.jwe.recipients), JweKids(permuted));
  }

  // ----- Foreign envelopes -----

  /** An encrypted envelope parses exactly if its protected header, without padding, spells a header in base64url,
      and "apv" and a given "apu" are base64url; all else is malformed. */
  lemma ParseJweExact(jwe: Jwe)
    ensures forall p :: ParseJwe(jwe) == Ok(p) <==>
              && p.jwe == jwe && p.toKids == JweKids(jwe.recipients)
              && (exists text, j :: && Base64Url.StripPadding(jwe.protected) == Base64Url.Encode(Utf8(text))
                                    && Parse(text) == Some(j) && HeaderFromJson(j) == Ok(p.header))
              && p.header.apv == Base64Url.Encode(p.apv)
              && (p.header.apu.Some? <==> p.apu.Some?)
              && (p.apu.Some? ==> p.header.apu.value == Base64Url.Encode(p.apu.value))
    ensures ParseJwe(jwe).Err? ==> ParseJwe(jwe) == Err(Malformed)
  {
    hide Base64Url.Decode, Base64Url.Encode, Base64Url.StripPadding, Utf8, FromUtf8, Parse, HeaderFromJson;
    HeaderOrMalformed();
    forall s, b ensures Base64Url.Decode(s) == Some(b) <==> s == Base64Url.Encode(b) {
      Base64Url.DecodeExact(s, b);
    }
    forall b, t ensures FromUtf8(b) == Some(t) <==> b == Utf8(t) {
      TextOf(b, t);
    }
  }

  lemma TextOf(b: bytes, t: string)
    ensures FromUtf8(b) == Some(t) <==> b == Utf8(t)
  {
    hide FromUtf8, Utf8;
    FromUtf8Exact(b);
    Utf8RoundTrip(t);
  }

  lemma HeaderOrMalformed()
    ensures forall j :: HeaderFromJson(j).Err? ==> HeaderFromJson(j) == Err(Malformed)
  {
  }

  /** The keys can be used together: the recipient's is a private key on the curve, on which keys can be agreed,
      and for ECDH-1PU there is a sender with a key on it. */
  predicate Agreeable(curve: KeyAlg, kdf: Kdf, sender: Option<Named>, recipient: Named) {
    && CanAgree(curve) && recipient.key.private && recipient.key.alg == curve
    && (kdf.Ecdh1Pu? ==> sender.Some? && sender.value.key.alg == curve)
  }

  /** The entry for a key id, the ephemeral key and the tag can be read. */
  predicate EntryReadable(p: ParsedJwe, curve: KeyAlg, kid: string) {
    var entry := FindRecipient(p.jwe.recipients, kid);
    && entry.Some? && Base64Url.Decode(entry.value.encryptedKey).Some?
    && FromJwk(curve, p.header.epk).Ok? && Base64Url.Decode(p.jwe.tag).Some?
  }

  /** How decryption refuses: an assumed sender that the envelope does not name, or a key id that it has no entry
      for, is an invalid state; so are keys that cannot be used together, behind an entry and an ephemeral key
      that can be read; everything else is malformed. */
  lemma DecryptRefused(p: ParsedJwe, curve: KeyAlg, kdf: Kdf, enc: EncAlgorithm, sender: Option<Named>,
                       recipient: Named)
    ensures var r := Decrypted(p, curve, kdf, enc, sender, recipient);
            if SkidOctets(sender) != p.apu || forall e :: e in p.jwe.recipients ==> e.kid != recipient.kid then
              r == Err(InvalidState)
            else if Agreeable(curve, kdf, sender, recipient) then r.Ok? || r == Err(Malformed)
            else r == Err(if EntryReadable(p, curve, recipient.kid) then InvalidState else Malformed)
  {
    hide Base64Url.Decode, Base64Url.Encode, Utf8, Apv, Unwrap, Open, SkidOctets, FindRecipient, FromJwk, Sym,
         NumOctets;
    FindRecipientExact(p.jwe.recipients, recipient.kid);
    JwkOrMalformed(curve, p.header.epk);
  }

  lemma JwkOrMalformed(curve: KeyAlg, j: Json)
    ensures FromJwk(curve, j).Err? ==> FromJwk(curve, j) == Err(Malformed)
    ensures FromJwk(curve, j).Ok? ==> FromJwk(curve, j).value.alg == curve && !FromJwk(curve, j).value.private
  {
    hide Base64Url.Decode, FromNumOctets;
  }

  lemma {:induction false} FindRecipientExact(rs: seq<Recipient>, kid: string)
    ensures FindRecipient(rs, kid).None? <==> forall e :: e in rs ==> e.kid != kid
  {
    if rs != [] {
      FindRecipientExact(rs[1..], kid);
      assert forall e :: e in rs <==> e == rs[0] || e in rs[1..];
    }
  }
}
