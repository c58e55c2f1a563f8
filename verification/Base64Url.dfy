/** `BASE64_URL_SAFE_NO_PAD`: section 5 of RFC 4648 without padding, decoding strictly. */
module Base64Url {
  import opened Wrappers
  import opened Octets

  type sextet = n: nat | n < 64

  // ----- The alphabet -----

  function Digit(n: sextet): (c: char)
    ensures c != '.' && c != '='
  {
    if n < 26 then 'A' + n as char
    else if n < 52 then 'a' + (n - 26) as char
    else if n < 62 then '0' + (n - 52) as char
    else if n == 62 then '-'
    else '_'
  }

  function Value(c: char): Option<sextet> {
    if 'A' <= c <= 'Z' then Some(c as int - 'A' as int)
    else if 'a' <= c <= 'z' then Some(c as int - 'a' as int + 26)
    else if '0' <= c <= '9' then Some(c as int - '0' as int + 52)
    else if c == '-' then Some(62)
    else if c == '_' then Some(63)
    else None
  }

  function Digits(v: seq<sextet>): (s: string)
    ensures |s| == |v| && '.' !in s && '=' !in s
  {
    if v == [] then [] else [Digit(v[0])] + Digits(v[1..])
  }

  function Values(s: string): Option<seq<sextet>> {
    if s == [] then Some([]) else
      match (Value(s[0]), Values(s[1..]))
      case (Some(v), Some(rest)) => Some([v] + rest)
      case _ => None
  }

  lemma {:induction false} ValuesDigits(v: seq<sextet>)
    ensures Values(Digits(v)) == Some(v)
  {
    if v != [] {
      assert Digits(v)[1..] == Digits(v[1..]);
      ValuesDigits(v[1..]);
      assert [v[0]] + v[1..] == v;
    }
  }

  lemma {:induction false} DigitsValues(s: string)
    ensures Values(s).Some? ==> Digits(Values(s).value) == s
  {
    if s != [] && Values(s).Some? {
      DigitsValues(s[1..]);
      assert [s[0]] + s[1..] == s;
      assert Values(s).value[1..] == Values(s[1..]).value;
    }
  }

  // ----- Regrouping eight bits into six and back -----

  function ToSextets(b: bytes): seq<sextet> {
    if |b| == 0 then []
    else if |b| == 1 then [b[0] / 4, b[0] % 4 * 16]
    else if |b| == 2 then [b[0] / 4, b[0] % 4 * 16 + b[1] / 16, b[1] % 16 * 4]
    else [b[0] / 4, b[0] % 4 * 16 + b[1] / 16, b[1] % 16 * 4 + b[2] / 64, b[2] % 64] + ToSextets(b[3..])
  }

  function First(v0: nat, v1: nat): nat { v0 * 4 + v1 / 16 }

  function Second(v1: nat, v2: nat): nat { v1 % 16 * 16 + v2 / 4 }

  function Third(v2: nat, v3: nat): nat { v2 % 4 * 64 + v3 }

  /** Rejects a dangling sextet and non-zero trailing bits. */
  function ToOctets(v: seq<sextet>): Option<bytes> {
    if |v| == 0 then Some([])
    else if |v| == 1 then None
    else if |v| == 2 then
      if v[1] % 16 == 0 then Some([First(v[0], v[1])]) else None
    else if |v| == 3 then
      if v[2] % 4 == 0 then Some([First(v[0], v[1]), Second(v[1], v[2])]) else None
    else
      match ToOctets(v[4..])
      case None => None
      case Some(rest) => Some([First(v[0], v[1]), Second(v[1], v[2]), Third(v[2], v[3])] + rest)
  }

  lemma RegroupWhole(x: byte, y: byte, z: byte)
    ensures First(x / 4, x % 4 * 16 + y / 16) == x
    ensures Second(x % 4 * 16 + y / 16, y % 16 * 4 + z / 64) == y
    ensures Third(y % 16 * 4 + z / 64, z % 64) == z
  {
    var lx, hy, ly, hz := x % 4, y / 16, y % 16, z / 64;
    assert (lx * 16 + hy) / 16 == lx && (lx * 16 + hy) % 16 == hy;
    assert (ly * 4 + hz) / 4 == ly && (ly * 4 + hz) % 4 == hz;
  }

  lemma RegroupSextets(v0: sextet, v1: sextet, v2: sextet, v3: sextet)
    ensures First(v0, v1) / 4 == v0 && First(v0, v1) % 4 * 16 + Second(v1, v2) / 16 == v1
    ensures Second(v1, v2) % 16 * 4 + Third(v2, v3) / 64 == v2 && Third(v2, v3) % 64 == v3
    ensures v1 % 16 == 0 ==> First(v0, v1) % 4 * 16 == v1
    ensures v2 % 4 == 0 ==> Second(v1, v2) % 16 * 4 == v2
  {
    var h1, l1, h2, l2 := v1 / 16, v1 % 16, v2 / 4, v2 % 4;
    assert (v0 * 4 + h1) / 4 == v0 && (v0 * 4 + h1) % 4 == h1;
    assert (l1 * 16 + h2) / 16 == l1 && (l1 * 16 + h2) % 16 == h2;
    assert (l2 * 64 + v3) / 64 == l2 && (l2 * 64 + v3) % 64 == v3;
  }

  lemma RegroupShort(x: byte, y: byte)
    ensures x % 4 * 16 % 16 == 0 && First(x / 4, x % 4 * 16) == x
    ensures First(x / 4, x % 4 * 16 + y / 16) == x
    ensures y % 16 * 4 % 4 == 0 && Second(x % 4 * 16 + y / 16, y % 16 * 4) == y
  {
    var lx, hy, ly := x % 4, y / 16, y % 16;
    assert lx * 16 % 16 == 0 && lx * 16 / 16 == lx;
    assert ly * 4 % 4 == 0 && ly * 4 / 4 == ly;
    assert (lx * 16 + hy) / 16 == lx && (lx * 16 + hy) % 16 == hy;
  }

  lemma {:induction false} OctetsOfSextets(b: bytes)
    ensures ToOctets(ToSextets(b)) == Some(b)
  {
    hide First, Second, Third;
    var v := ToSextets(b);
    if |b| == 1 {
      RegroupShort(b[0], 0);
      assert b == [b[0]];
    } else if |b| == 2 {
      RegroupShort(b[0], b[1]);
      assert b == [b[0], b[1]];
    } else if |b| >= 3 {
      RegroupWhole(b[0], b[1], b[2]);
      OctetsOfSextets(b[3..]);
      assert v[4..] == ToSextets(b[3..]);
      assert b == [b[0], b[1], b[2]] + b[3..];
    }
  }

  lemma {:induction false} SextetsOfOctets(v: seq<sextet>)
    ensures ToOctets(v).Some? ==> ToSextets(ToOctets(v).value) == v
  {
    hide First, Second, Third;
    if |v| == 2 {
      RegroupSextets(v[0], v[1], 0, 0);
      assert v == [v[0], v[1]];
    } else if |v| == 3 {
      RegroupSextets(v[0], v[1], v[2], 0);
      assert v == [v[0], v[1], v[2]];
    } else if |v| >= 4 && ToOctets(v).Some? {
      RegroupSextets(v[0], v[1], v[2], v[3]);
      SextetsOfOctets(v[4..]);
      assert ToOctets(v).value[3..] == ToOctets(v[4..]).value;
      assert v == [v[0], v[1], v[2], v[3]] + v[4..];
    }
  }

  // ----- The codec -----

  function Encode(b: bytes): (s: string)
    ensures '.' !in s && '=' !in s
  {
    Digits(ToSextets(b))
  }

  function Decode(s: string): Option<bytes> {
    match Values(s)
    case None => None
    case Some(v) => ToOctets(v)
  }

  /** The strict decoder is the exact inverse of the encoder: it undoes it, and it accepts one
      spelling of each octet string. */
  lemma DecodeExact(s: string, b: bytes)
    ensures Decode(s) == Some(b) <==> s == Encode(b)
  {
    if s == Encode(b) {
      ValuesDigits(ToSextets(b));
      OctetsOfSextets(b);
    }
    if Decode(s) == Some(b) {
      DigitsValues(s);
      SextetsOfOctets(Values(s).value);
    }
  }

  lemma DecodeEncode(b: bytes)
    ensures Decode(Encode(b)) == Some(b)
  {
    DecodeExact(Encode(b), b);
  }

  /** `s.replace('=', "")` */
  function StripPadding(s: string): string {
    if s == [] then [] else (if s[0] == '=' then [] else [s[0]]) + StripPadding(s[1..])
  }

  lemma {:induction false} StripNothing(s: string)
    requires '=' !in s
    ensures StripPadding(s) == s
  {
    if s != [] {
      StripNothing(s[1..]);
    }
  }
}
