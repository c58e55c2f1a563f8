/** Octets, and the UTF-8 step between a Rust `str` and its bytes (RFC 3629, section 3). */
module Octets {
  import opened Wrappers

  type byte = n: nat | n < 256

  type bytes = seq<byte>

  function EncodeChar(c: char): (b: bytes)
    ensures 1 <= |b| <= 4
  {
    var n := c as int;
    if n < 0x80 then [n]
    else if n < 0x800 then [0xC0 + n / 64, 0x80 + n % 64]
    else if n < 0x10000 then [0xE0 + n / 64 / 64, 0x80 + n / 64 % 64, 0x80 + n % 64]
    else [0xF0 + n / 64 / 64 / 64, 0x80 + n / 64 / 64 % 64, 0x80 + n / 64 % 64, 0x80 + n % 64]
  }

  /** `str::as_bytes` */
  function Utf8(s: string): bytes {
    if s == [] then [] else EncodeChar(s[0]) + Utf8(s[1..])
  }

  predicate IsScalar(n: int) {
    0 <= n < 0xD800 || 0xE000 <= n < 0x110000
  }

  /** How many octets the character that starts with `b` takes. */
  function Width(b: byte): (w: nat)
    ensures 1 <= w <= 4
  {
    if b < 0xC0 then 1 else if b < 0xE0 then 2 else if b < 0xF0 then 3 else 4
  }

  function Assemble(b: bytes): int
    requires 1 <= |b| <= 4
  {
    if |b| == 1 then b[0] as int
    else if |b| == 2 then Group(b, 0, 0xC0) * 64 + Group(b, 1, 0x80)
    else if |b| == 3 then (Group(b, 0, 0xE0) * 64 + Group(b, 1, 0x80)) * 64 + Group(b, 2, 0x80)
    else ((Group(b, 0, 0xF0) * 64 + Group(b, 1, 0x80)) * 64 + Group(b, 2, 0x80)) * 64 + Group(b, 3, 0x80)
  }

  function Group(b: bytes, i: nat, marker: int): int
    requires i < |b|
  {
    b[i] as int - marker
  }

  /** The character that exactly these octets encode, if there is one. */
  function DecodeChar(b: bytes): (r: Option<char>)
    requires 1 <= |b| <= 4
    ensures r.Some? ==> EncodeChar(r.value) == b
  {
    var n := Assemble(b);
    if IsScalar(n) && EncodeChar(n as char) == b then Some(n as char) else None
  }

  /** `String::from_utf8`: accepts exactly the octets that some string encodes to. */
  function FromUtf8(b: bytes): Option<string>
    decreases |b|
  {
    if b == [] then Some([]) else
      var w := Width(b[0]);
      if |b| < w then None else
        match DecodeChar(b[..w])
        case None => None
        case Some(c) =>
          match FromUtf8(b[w..])
          case None => None
          case Some(rest) => Some([c] + rest)
  }

  lemma AssembleEncode(c: char)
    ensures Width(EncodeChar(c)[0]) == |EncodeChar(c)|
    ensures Assemble(EncodeChar(c)) == c as int
  {
  }

  lemma DecodeEncodeChar(c: char)
    ensures DecodeChar(EncodeChar(c)) == Some(c)
    ensures Width(EncodeChar(c)[0]) == |EncodeChar(c)|
  {
    AssembleEncode(c);
  }

  lemma FromUtf8Step(c: char, rest: bytes)
    ensures FromUtf8(EncodeChar(c) + rest) == match FromUtf8(rest) case None => None case Some(t) => Some([c] + t)
  {
    var e := EncodeChar(c);
    DecodeEncodeChar(c);
    assert (e + rest)[0] == e[0];
    assert (e + rest)[..|e|] == e;
    assert (e + rest)[|e|..] == rest;
  }

  lemma {:induction false} Utf8RoundTrip(s: string)
    ensures FromUtf8(Utf8(s)) == Some(s)
  {
    if s == [] {
    } else {
      FromUtf8Step(s[0], Utf8(s[1..]));
      Utf8RoundTrip(s[1..]);
      assert [s[0]] + s[1..] == s;
    }
  }

  /** `from_utf8` never accepts octets that are not the encoding of its result. */
  lemma {:induction false} FromUtf8Exact(b: bytes)
    ensures FromUtf8(b).Some? ==> Utf8(FromUtf8(b).value) == b
    decreases |b|
  {
    hide EncodeChar, Assemble;
    if b != [] && FromUtf8(b).Some? {
      var w := Width(b[0]);
      FromUtf8Exact(b[w..]);
      var c := DecodeChar(b[..w]).value;
      var t := FromUtf8(b[w..]).value;
      assert ([c] + t)[1..] == t;
      assert b == b[..w] + b[w..];
    }
  }

  lemma Utf8Injective(s: string, t: string)
    requires Utf8(s) == Utf8(t)
    ensures s == t
  {
    Utf8RoundTrip(s);
    Utf8RoundTrip(t);
  }
}
