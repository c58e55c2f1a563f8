/** The multicodec prefix in front of a multibase secret key: an unsigned varint, low group first,
    seven bits to an octet, the top bit set on all octets but the last. */
module Multicodec {
  import opened Wrappers
  import opened Octets

  const U32: nat := 0x1_0000_0000

  function WriteVarint(n: nat): (b: bytes)
    ensures b != []
  {
    if n < 128 then [n] else [128 + n % 128] + WriteVarint(n / 128)
  }

  datatype Varint = Varint(value: nat, used: nat)

  /** The number at the start of `b` and how many octets it takes. */
  function ReadVarint(b: bytes): (r: Option<Varint>)
    ensures r.Some? ==> 1 <= r.value.used <= |b|
  {
    if b == [] then None
    else if b[0] < 128 then Some(Varint(b[0], 1))
    else
      match ReadVarint(b[1..])
      case None => None
      case Some(rest) => Some(Varint(b[0] - 128 + 128 * rest.value, rest.used + 1))
  }

  /** The loop of a varint reader: a value, and the weight of the next group. */
  method ReadLoop(b: bytes) returns (r: Option<Varint>)
    ensures r == ReadVarint(b)
  {
    var value: nat, weight: nat, i: nat := 0, 1, 0;
    assert b[0..] == b;
    while i < |b|
      invariant 0 <= i <= |b|
      invariant ReadVarint(b) == match ReadVarint(b[i..])
                                 case None => None
                                 case Some(rest) => Some(Varint(value + weight * rest.value, rest.used + i))
    {
      assert b[i..][1..] == b[i + 1..];
      if b[i] < 128 {
        return Some(Varint(value + weight * b[i], i + 1));
      }
      var group := b[i] - 128;
      ghost var rest := ReadVarint(b[i + 1..]);
      if rest.Some? {
        NextGroup(value, weight, group, rest.value.value);
      }
      value, weight, i := value + weight * group, weight * 128, i + 1;
    }
    return None;
  }

  lemma NextGroup(value: nat, weight: nat, group: nat, rest: nat)
    ensures value + weight * (group + 128 * rest) == (value + weight * group) + (weight * 128) * rest
  {
  }

  method WriteLoop(n: nat) returns (b: bytes)
    ensures b == WriteVarint(n)
  {
    b := [];
    var left := n;
    while left >= 128
      invariant b + WriteVarint(left) == WriteVarint(n)
    {
      assert b + ([128 + left % 128] + WriteVarint(left / 128)) == (b + [128 + left % 128]) + WriteVarint(left / 128);
      b, left := b + [128 + left % 128], left / 128;
    }
    b := b + [left];
  }

  /** Reading undoes writing, and leaves what follows alone. */
  lemma {:induction false} ReadWrite(n: nat, rest: bytes)
    ensures ReadVarint(WriteVarint(n) + rest) == Some(Varint(n, |WriteVarint(n)|))
  {
    if n >= 128 {
      ReadWrite(n / 128, rest);
      var b := WriteVarint(n) + rest;
      assert b[1..] == WriteVarint(n / 128) + rest;
    }
  }

  /** The written form is the shortest of all forms of a number, and the only one of its length. */
  lemma {:induction false} WriteShortest(b: bytes)
    requires ReadVarint(b).Some?
    ensures var v := ReadVarint(b).value;
            && |WriteVarint(v.value)| <= v.used
            && (|WriteVarint(v.value)| == v.used <==> b[..v.used] == WriteVarint(v.value))
  {
    var v := ReadVarint(b).value;
    if b[0] >= 128 {
      WriteShortest(b[1..]);
      var rest := ReadVarint(b[1..]).value;
      assert v.value % 128 == b[0] - 128 && v.value / 128 == rest.value;
      assert b[..v.used] == [b[0]] + b[1..][..rest.used];
      if v.value >= 128 {
        assert WriteVarint(v.value) == [b[0]] + WriteVarint(rest.value);
        if b[..v.used] == WriteVarint(v.value) {
          assert b[..v.used][1..] == WriteVarint(v.value)[1..];
        }
      }
    } else {
      assert b[..1] == [b[0]];
    }
  }

  // ----- Codecs -----

  datatype Codec = X25519Pub | Ed25519Pub | X25519Priv | Ed25519Priv

  function CodecByPrefix(value: nat): Result<Codec> {
    if value == 0xEC then Ok(X25519Pub)
    else if value == 0xED then Ok(Ed25519Pub)
    else if value == 0x1302 then Ok(X25519Priv)
    else if value == 0x1300 then Ok(Ed25519Priv)
    else Err(IllegalArgument)
  }

  function Prefix(c: Codec): nat {
    match c
    case X25519Pub => 0xEC
    case Ed25519Pub => 0xED
    case X25519Priv => 0x1302
    case Ed25519Priv => 0x1300
  }

  /** `_from_multicodec`: reads the prefix, writes it again, and drops as many octets as were written. */
  method FromMulticodec(b: bytes) returns (r: Result<(Codec, bytes)>)
    ensures r == Split(b)
  {
    var read := ReadLoop(b);
    if read.None? || read.value.value >= U32 {
      return Err(InvalidState);
    }
    var codec :- CodecByPrefix(read.value.value);
    var prefix := WriteLoop(read.value.value);
    if |prefix| > |b| {
      return Err(Panic);
    }
    return Ok((codec, b[|prefix|..]));
  }

  function Split(b: bytes): Result<(Codec, bytes)> {
    match ReadVarint(b)
    case None => Err(InvalidState)
    case Some(v) =>
      if v.value >= U32 then Err(InvalidState) else
        var codec :- CodecByPrefix(v.value);
        var n := |WriteVarint(v.value)|;
        if n > |b| then Err(Panic) else Ok((codec, b[n..]))
  }

  /** For each codec and every payload, the prefix and the payload are told apart. */
  lemma SplitPrefixed(c: Codec, payload: bytes)
    ensures Split(WriteVarint(Prefix(c)) + payload) == Ok((c, payload))
  {
    hide WriteVarint, ReadVarint;
    var b := WriteVarint(Prefix(c)) + payload;
    ReadWrite(Prefix(c), payload);
    assert b[|WriteVarint(Prefix(c))|..] == payload;
  }

  /** Splitting never reaches past the end, and fails exactly for a prefix that cannot be read as a number of 32
      bits, or is not that of a known codec. What it returns is what follows the prefix as it was read
      exactly when the prefix is in its shortest form: of a longer form some octets stay behind. */
  lemma SplitExact(b: bytes)
    ensures match ReadVarint(b)
            case None => Split(b) == Err(InvalidState)
            case Some(v) =>
              if v.value >= 0x1_0000_0000 then Split(b) == Err(InvalidState)
              else if v.value !in {0xEC, 0xED, 0x1302, 0x1300} then Split(b) == Err(IllegalArgument)
              else && Split(b).Ok?
                   && Split(b).value.0 == if v.value == 0xEC then X25519Pub
                                          else if v.value == 0xED then Ed25519Pub
                                          else if v.value == 0x1302 then X25519Priv
                                          else Ed25519Priv
    ensures Split(b).Ok? ==>
              var v := ReadVarint(b).value;
              && (Split(b).value.1 == b[v.used..] <==> b[..v.used] == WriteVarint(v.value))
  {
    hide WriteVarint, ReadVarint;
    if ReadVarint(b).Some? {
      WriteShortest(b);
    }
  }

  /** The written form with its last octet marked as continued, and a group of zeros after it. */
  function Overlong(n: nat): bytes {
    var b := WriteVarint(n);
    WrittenLast(n);
    b[..|b| - 1] + [b[|b| - 1] + 128, 0]
  }

  lemma {:induction false} WrittenLast(n: nat)
    ensures WriteVarint(n)[|WriteVarint(n)| - 1] < 128
  {
    if n >= 128 {
      WrittenLast(n / 128);
    }
  }

  lemma {:induction false} ReadOverlong(n: nat, rest: bytes)
    ensures ReadVarint(Overlong(n) + rest) == Some(Varint(n, |WriteVarint(n)| + 1))
  {
    var b := Overlong(n) + rest;
    if n < 128 {
      assert b == [n + 128, 0] + rest;
      assert b[1..] == [0] + rest;
    } else {
      ReadOverlong(n / 128, rest);
      assert WriteVarint(n)[1..] == WriteVarint(n / 128);
      assert b[0] == 128 + n % 128;
      assert b[1..] == Overlong(n / 128) + rest;
    }
  }

  /** For every codec and payload: behind a prefix one octet longer than needed, the payload comes out
      with a zero octet in front. */
  lemma OverlongLeavesOctet(c: Codec, payload: bytes)
    ensures Split(Overlong(Prefix(c)) + payload) == Ok((c, [0] + payload))
  {
    hide WriteVarint, ReadVarint;
    ReadOverlong(Prefix(c), payload);
    var b := Overlong(Prefix(c)) + payload;
    assert b[|WriteVarint(Prefix(c))|..] == [0] + payload;
  }
}
