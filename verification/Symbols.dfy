/** The cryptographic primitives as free symbols. `Sym(op, args)` codes a symbolic term as octets in
    a way that can be undone, so each primitive obeys exactly the laws proved here: opening undoes
    sealing under the same inputs and under no others, Diffie-Hellman depends on the unordered pair of
    scalars, and distinct inputs give distinct outputs. Nothing is claimed about secrecy. */
module Symbols {
  import opened Wrappers
  import opened Octets
  import opened JsonText
  import opened Serde
  import Base64Url

  // ----- Terms as octets -----

  function Args(args: seq<bytes>): seq<Json> {
    if args == [] then [] else [Str(Base64Url.Encode(args[0]))] + Args(args[1..])
  }

  function ToArgs(items: seq<Json>): Option<seq<bytes>> {
    if items == [] then Some([])
    else if !items[0].Str? then None
    else
      match (Base64Url.Decode(items[0].s), ToArgs(items[1..]))
      case (Some(b), Some(rest)) => Some([b] + rest)
      case _ => None
  }

  lemma {:induction false} ToArgsArgs(args: seq<bytes>)
    ensures ToArgs(Args(args)) == Some(args)
  {
    if args != [] {
      Base64Url.DecodeEncode(args[0]);
      ToArgsArgs(args[1..]);
      assert Args(args)[1..] == Args(args[1..]);
      assert args == [args[0]] + args[1..];
    }
  }

  function Sym(op: string, args: seq<bytes>): bytes {
    Utf8(Print(Obj([Member(op, Arr(Args(args)))])))
  }

  /** The arguments, if the octets are a term with this op. */
  function Unsym(op: string, b: bytes): Option<seq<bytes>> {
    match FromUtf8(b)
    case None => None
    case Some(text) =>
      match Parse(text)
      case Some(Obj(ms)) =>
        if |ms| == 1 && ms[0].name == op && ms[0].value.Arr? then ToArgs(ms[0].value.items) else None
      case _ => None
  }

  lemma UnsymSym(op: string, args: seq<bytes>, other: string)
    ensures Unsym(other, Sym(op, args)) == if op == other then Some(args) else None
  {
    var j := Obj([Member(op, Arr(Args(args)))]);
    ParsePrint(j);
    Utf8RoundTrip(Print(j));
    ToArgsArgs(args);
  }

  lemma SymInjective(op: string, a: seq<bytes>, b: seq<bytes>)
    requires Sym(op, a) == Sym(op, b)
    ensures a == b
  {
    UnsymSym(op, a, op);
    UnsymSym(op, b, op);
  }

  /** A number as octets. */
  function NumOctets(n: nat): bytes {
    Utf8(Decimal(n))
  }

  function FromNumOctets(b: bytes): Option<nat> {
    match FromUtf8(b)
    case None => None
    case Some(text) =>
      match ParseNat(text)
      case Fail => None
      case Got(n, rest) => if rest == [] then Some(n) else None
  }

  lemma NumOctetsRoundTrip(n: nat)
    ensures FromNumOctets(NumOctets(n)) == Some(n)
  {
    Utf8RoundTrip(Decimal(n));
    ParseDecimal(n, []);
    assert Decimal(n) + [] == Decimal(n);
  }

  lemma NumOctetsInjective(m: nat, n: nat)
    requires NumOctets(m) == NumOctets(n)
    ensures m == n
  {
    NumOctetsRoundTrip(m);
    NumOctetsRoundTrip(n);
  }

  // ----- Keys -----

  /** The crate's `KnownKeyAlg`. */
  datatype KeyAlg = X25519 | P256 | K256 | Ed25519 | UnsupportedAlg

  /** A key pair or, without its private part, a public key. */
  datatype Key = Key(alg: KeyAlg, scalar: nat, private: bool)

  function Public(k: Key): Key {
    k.(private := false)
  }

  function CurveName(alg: KeyAlg): string {
    match alg
    case X25519 => "X25519"
    case P256 => "P-256"
    case K256 => "secp256k1"
    case Ed25519 => "Ed25519"
    case UnsupportedAlg => "unsupported"
  }

  function KeyType(alg: KeyAlg): string {
    match alg
    case P256 => "EC"
    case K256 => "EC"
    case _ => "OKP"
  }

  /** `to_jwk_public_value`; both coordinates of a point are one symbol here. */
  function ToJwk(k: Key): (j: Json)
    ensures j.Obj?
  {
    Obj(Field("crv", Str(CurveName(k.alg))) + Field("kty", Str(KeyType(k.alg)))
        + Field("x", Str(Base64Url.Encode(NumOctets(k.scalar)))))
  }

  /** `from_jwk_value` for keys of one curve. */
  function FromJwk(alg: KeyAlg, j: Json): Result<Key> {
    if !j.Obj? then Err(Malformed) else
      var crv :- GetStr(j.members, "crv");
      var kty :- GetStr(j.members, "kty");
      var x :- GetStr(j.members, "x");
      if crv != CurveName(alg) || kty != KeyType(alg) then Err(Malformed) else
        match Base64Url.Decode(x)
        case None => Err(Malformed)
        case Some(b) =>
          match FromNumOctets(b)
          case None => Err(Malformed)
          case Some(n) => Ok(Key(alg, n, false))
  }

  lemma JwkValues(k: Key, name: string)
    ensures Values(ToJwk(k).members, name)
            == (if name == "crv" then [Str(CurveName(k.alg))] else [])
             + (if name == "kty" then [Str(KeyType(k.alg))] else [])
             + (if name == "x" then [Str(Base64Url.Encode(NumOctets(k.scalar)))] else [])
  {
    var crv, kty := Field("crv", Str(CurveName(k.alg))), Field("kty", Str(KeyType(k.alg)));
    var x := Field("x", Str(Base64Url.Encode(NumOctets(k.scalar))));
    ValuesConcat(crv + kty, x, name);
    ValuesConcat(crv, kty, name);
    ValuesOne("crv", Str(CurveName(k.alg)), name);
    ValuesOne("kty", Str(KeyType(k.alg)), name);
    ValuesOne("x", Str(Base64Url.Encode(NumOctets(k.scalar))), name);
  }

  lemma JwkRoundTrip(k: Key)
    ensures FromJwk(k.alg, ToJwk(k)) == Ok(Public(k))
  {
    hide ToJwk, Values, Base64Url.Encode, Base64Url.Decode, NumOctets, FromNumOctets;
    JwkValues(k, "crv");
    JwkValues(k, "kty");
    JwkValues(k, "x");
    Base64Url.DecodeEncode(NumOctets(k.scalar));
    NumOctetsRoundTrip(k.scalar);
  }

  // ----- Diffie-Hellman -----

  predicate CanAgree(alg: KeyAlg) {
    alg == X25519 || alg == P256 || alg == K256
  }

  /** Key agreement between the private part of `mine` and the public part of `theirs`. */
  function Agree(mine: Key, theirs: Key): Option<bytes> {
    if !mine.private || mine.alg != theirs.alg || !CanAgree(mine.alg) then None
    else
      var lo, hi := if mine.scalar <= theirs.scalar then mine.scalar else theirs.scalar,
                    if mine.scalar <= theirs.scalar then theirs.scalar else mine.scalar;
      Some(Sym("shared secret", [Utf8(CurveName(mine.alg)), NumOctets(lo), NumOctets(hi)]))
  }

  lemma AgreeSymmetric(a: Key, b: Key)
    requires a.private && b.private
    ensures Agree(a, b) == Agree(b, a)
  {
  }

  lemma AgreePublic(a: Key, b: Key)
    ensures Agree(a, b) == Agree(a, Public(b))
  {
  }

  /** With one side fixed, the shared secret determines the other side's scalar. */
  lemma AgreeInjective(a: Key, b: Key, e: Key)
    requires Agree(a, e).Some? && Agree(a, e) == Agree(b, e)
    ensures a.scalar == b.scalar && a.alg == b.alg
  {
    var name := Utf8(CurveName(e.alg));
    var x := if a.scalar <= e.scalar then [a.scalar, e.scalar] else [e.scalar, a.scalar];
    var y := if b.scalar <= e.scalar then [b.scalar, e.scalar] else [e.scalar, b.scalar];
    SymInjective("shared secret", [name, NumOctets(x[0]), NumOctets(x[1])], [name, NumOctets(y[0]), NumOctets(y[1])]);
    var p, q := [name, NumOctets(x[0]), NumOctets(x[1])], [name, NumOctets(y[0]), NumOctets(y[1])];
    assert p[1] == q[1] && p[2] == q[2];
    NumOctetsInjective(x[0], y[0]);
    NumOctetsInjective(x[1], y[1]);
  }

  // ----- Key derivation (RFC 7518, section 4.6.2, and its ECDH-1PU extension) -----

  function KdfEs(ze: bytes, alg: bytes, apu: bytes, apv: bytes): bytes {
    Sym("ecdh-es", [ze, alg, apu, apv])
  }

  function Kdf1Pu(ze: bytes, zs: bytes, alg: bytes, apu: bytes, apv: bytes, tag: bytes): bytes {
    Sym("ecdh-1pu", [ze, zs, alg, apu, apv, tag])
  }

  // ----- Key wrapping -----

  function Wrap(kek: bytes, cek: bytes): bytes {
    Sym("wrapped key", [kek, cek])
  }

  function Unwrap(kek: bytes, b: bytes): Option<bytes> {
    match Unsym("wrapped key", b)
    case Some(args) => if |args| == 2 && b == Wrap(kek, args[1]) then Some(args[1]) else None
    case None => None
  }

  lemma UnwrapExact(kek: bytes, b: bytes, cek: bytes)
    ensures Unwrap(kek, b) == Some(cek) <==> b == Wrap(kek, cek)
  {
    UnsymSym("wrapped key", [kek, cek], "wrapped key");
  }

  lemma WrapInjective(k1: bytes, c1: bytes, k2: bytes, c2: bytes)
    requires Wrap(k1, c1) == Wrap(k2, c2)
    ensures k1 == k2 && c1 == c2
  {
    SymInjective("wrapped key", [k1, c1], [k2, c2]);
    assert [k1, c1][0] == [k2, c2][0] && [k1, c1][1] == [k2, c2][1];
  }

  // ----- Content encryption -----

  function SealText(enc: string, key: bytes, iv: bytes, aad: bytes, plaintext: bytes): bytes {
    Sym("ciphertext", [Utf8(enc), key, iv, aad, plaintext])
  }

  function SealTag(enc: string, key: bytes, iv: bytes, aad: bytes, plaintext: bytes): bytes {
    Sym("tag", [Utf8(enc), key, iv, aad, plaintext])
  }

  function Open(enc: string, key: bytes, iv: bytes, aad: bytes, text: bytes, tag: bytes): Option<bytes> {
    match Unsym("ciphertext", text)
    case None => None
    case Some(args) =>
      if |args| == 5 && text == SealText(enc, key, iv, aad, args[4]) && tag == SealTag(enc, key, iv, aad, args[4])
      then Some(args[4]) else None
  }

  /** Ciphertext and tag each determine all that went into them. */
  lemma SealBinds(enc: string, key: bytes, iv: bytes, aad: bytes, x: bytes, enc': string, key': bytes, iv': bytes,
                  aad': bytes, x': bytes)
    ensures SealText(enc, key, iv, aad, x) == SealText(enc', key', iv', aad', x')
            <==> enc == enc' && key == key' && iv == iv' && aad == aad' && x == x'
    ensures SealTag(enc, key, iv, aad, x) == SealTag(enc', key', iv', aad', x')
            <==> enc == enc' && key == key' && iv == iv' && aad == aad' && x == x'
  {
    hide Sym;
    var a, b := [Utf8(enc), key, iv, aad, x], [Utf8(enc'), key', iv', aad', x'];
    if SealText(enc, key, iv, aad, x) == SealText(enc', key', iv', aad', x') {
      SymInjective("ciphertext", a, b);
    }
    if SealTag(enc, key, iv, aad, x) == SealTag(enc', key', iv', aad', x') {
      SymInjective("tag", a, b);
    }
    if a == b {
      assert a[0] == b[0] && a[1] == b[1] && a[2] == b[2] && a[3] == b[3] && a[4] == b[4];
      Utf8Injective(enc, enc');
    }
  }

  lemma OpenExact(enc: string, key: bytes, iv: bytes, aad: bytes, text: bytes, tag: bytes, plaintext: bytes)
    ensures Open(enc, key, iv, aad, text, tag) == Some(plaintext)
            <==> text == SealText(enc, key, iv, aad, plaintext) && tag == SealTag(enc, key, iv, aad, plaintext)
  {
    UnsymSym("ciphertext", [Utf8(enc), key, iv, aad, plaintext], "ciphertext");
  }

  // ----- Digest and signatures -----

  function Sha256(b: bytes): bytes {
    Sym("sha256", [b])
  }

  lemma Sha256Injective(a: bytes, b: bytes)
    requires Sha256(a) == Sha256(b)
    ensures a == b
  {
    SymInjective("sha256", [a], [b]);
    assert [a][0] == [b][0];
  }

  /** `create_signature`: needs the private part. */
  function CreateSignature(k: Key, message: bytes): Option<bytes> {
    if k.private then Some(Signature(k, message)) else None
  }

  function Signature(k: Key, message: bytes): bytes {
    Sym("signature", [Utf8(CurveName(k.alg)), NumOctets(k.scalar), message])
  }

  /** `verify_signature`: needs only the public part. */
  predicate VerifySignature(k: Key, message: bytes, signature: bytes) {
    signature == Signature(k, message)
  }
}
