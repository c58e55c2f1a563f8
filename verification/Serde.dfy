/** How derived `Serialize` and `Deserialize` code treats the members of an object: a required field
    must occur once, an optional field may be absent or null, an unknown member is skipped (or kept by
    a flattened map), and a repeated field is an error. */
module Serde {
  import opened Wrappers
  import opened JsonText

  function Field(name: string, value: Json): seq<Member> {
    [Member(name, value)]
  }

  /** A field with `skip_serializing_if = "Option::is_none"`. */
  function OptField(name: string, value: Option<Json>): seq<Member> {
    match value
    case None => []
    case Some(v) => [Member(name, v)]
  }

  function OptStr(value: Option<string>): Option<Json> {
    match value
    case None => None
    case Some(s) => Some(Str(s))
  }

  function OptNum(value: Option<nat>): Option<Json> {
    match value
    case None => None
    case Some(n) => Some(Num(n))
  }

  /** All values given under a name, in document order. */
  function Values(members: seq<Member>, name: string): seq<Json> {
    if members == [] then []
    else (if members[0].name == name then [members[0].value] else []) + Values(members[1..], name)
  }

  /** What a derived visitor sees of an optional field. */
  function Find(members: seq<Member>, name: string): Result<Option<Json>> {
    var vs := Values(members, name);
    if vs == [] then Ok(None)
    else if |vs| > 1 then Err(Malformed)
    else if vs[0] == Null then Ok(None)
    else Ok(Some(vs[0]))
  }

  function GetValue(members: seq<Member>, name: string): Result<Json> {
    var vs := Values(members, name);
    if |vs| == 1 then Ok(vs[0]) else Err(Malformed)
  }

  function GetStr(members: seq<Member>, name: string): Result<string> {
    var vs := Values(members, name);
    if |vs| == 1 && vs[0].Str? then Ok(vs[0].s) else Err(Malformed)
  }

  function GetOptStr(members: seq<Member>, name: string): Result<Option<string>> {
    var o :- Find(members, name);
    match o
    case None => Ok(None)
    case Some(Str(s)) => Ok(Some(s))
    case _ => Err(Malformed)
  }

  const U64: nat := 0x1_0000_0000_0000_0000

  function GetOptU64(members: seq<Member>, name: string): Result<Option<nat>> {
    var o :- Find(members, name);
    match o
    case None => Ok(None)
    case Some(Num(n)) => if 0 <= n < U64 then Ok(Some(n)) else Err(Malformed)
    case _ => Err(Malformed)
  }

  function GetArr(members: seq<Member>, name: string): Result<seq<Json>> {
    var vs := Values(members, name);
    if |vs| == 1 && vs[0].Arr? then Ok(vs[0].items) else Err(Malformed)
  }

  function Strs(v: seq<string>): seq<Json> {
    seq(|v|, i requires 0 <= i < |v| => Str(v[i]))
  }

  function ToStrs(items: seq<Json>): Result<seq<string>> {
    if forall j :: j in items ==> j.Str? then
      Ok(seq(|items|, i requires 0 <= i < |items| => assert items[i] in items; items[i].s))
    else Err(Malformed)
  }

  lemma ToStrsStrs(v: seq<string>)
    ensures ToStrs(Strs(v)) == Ok(v)
  {
    assert ToStrs(Strs(v)).value == v;
  }

  lemma {:induction false} ValuesConcat(a: seq<Member>, b: seq<Member>, name: string)
    ensures Values(a + b, name) == Values(a, name) + Values(b, name)
  {
    if a == [] {
      assert a + b == b;
    } else {
      var head := if a[0].name == name then [a[0].value] else [];
      ValuesConcat(a[1..], b, name);
      assert (a + b)[0] == a[0] && (a + b)[1..] == a[1..] + b;
      assert Values(a + b, name) == head + Values(a[1..] + b, name);
      assert Values(a, name) == head + Values(a[1..], name);
      assert head + (Values(a[1..], name) + Values(b, name)) == (head + Values(a[1..], name)) + Values(b, name);
    }
  }

  lemma {:induction false} ValuesAbsent(members: seq<Member>, name: string)
    ensures Values(members, name) == [] <==> forall m :: m in members ==> m.name != name
  {
    if members != [] {
      ValuesAbsent(members[1..], name);
      assert forall m :: m in members <==> m == members[0] || m in members[1..];
    }
  }

  lemma ValuesOne(name: string, value: Json, other: string)
    ensures Values(Field(name, value), other) == if name == other then [value] else []
  {
    assert Field(name, value)[1..] == [];
  }

  lemma ValuesOpt(name: string, value: Option<Json>, other: string)
    ensures Values(OptField(name, value), other) == if name == other && value.Some? then [value.value] else []
  {
    if value.Some? {
      ValuesOne(name, value.value, other);
    }
  }

  /** The values in an object that starts with this field. */
  lemma ValuesField(name: string, value: Json, rest: seq<Member>, other: string)
    ensures Values(Field(name, value) + rest, other)
            == if name == other then [value] + Values(rest, other) else Values(rest, other)
    ensures name == other && Values(rest, other) == [] ==> Values(Field(name, value) + rest, other) == [value]
  {
    ValuesConcat(Field(name, value), rest, other);
    ValuesOne(name, value, other);
    assert [] + Values(rest, other) == Values(rest, other);
  }

  lemma ValuesOptField(name: string, value: Option<Json>, rest: seq<Member>, other: string)
    ensures Values(OptField(name, value) + rest, other)
            == if name == other && value.Some? then [value.value] + Values(rest, other) else Values(rest, other)
    ensures name == other && value.Some? && Values(rest, other) == [] ==>
              Values(OptField(name, value) + rest, other) == [value.value]
  {
    ValuesConcat(OptField(name, value), rest, other);
    ValuesOpt(name, value, other);
    assert [] + Values(rest, other) == Values(rest, other);
  }

  // What the accessors return, given the values under a name.

  lemma GetStrOf(members: seq<Member>, name: string, s: string)
    requires Values(members, name) == [Str(s)]
    ensures GetStr(members, name) == Ok(s)
  {
  }

  lemma GetValueOf(members: seq<Member>, name: string, j: Json)
    requires Values(members, name) == [j]
    ensures GetValue(members, name) == Ok(j)
  {
  }

  lemma GetOptStrOf(members: seq<Member>, name: string, o: Option<string>)
    requires match o
             case None => Values(members, name) == [] || Values(members, name) == [Null]
             case Some(s) => Values(members, name) == [Str(s)]
    ensures GetOptStr(members, name) == Ok(o)
  {
  }

  lemma GetOptU64Of(members: seq<Member>, name: string, o: Option<nat>)
    requires match o
             case None => Values(members, name) == []
             case Some(n) => n < U64 && Values(members, name) == [Num(n)]
    ensures GetOptU64(members, name) == Ok(o)
  {
  }

  // ----- What the accessors accept -----

  /** The only value under a name. */
  predicate Sole(members: seq<Member>, name: string, j: Json) {
    Values(members, name) == [j]
  }

  /** An optional field that is not given: the name is absent, or stands once, for null. */
  predicate Missing(members: seq<Member>, name: string) {
    Values(members, name) == [] || Sole(members, name, Null)
  }

  /** A required field must stand exactly once, with a value of its type; all else is malformed. */
  lemma RequiredExact(members: seq<Member>, name: string)
    ensures forall j :: GetValue(members, name) == Ok(j) <==> Sole(members, name, j)
    ensures forall s :: GetStr(members, name) == Ok(s) <==> Sole(members, name, Str(s))
    ensures forall v :: GetArr(members, name) == Ok(v) <==> Sole(members, name, Arr(v))
    ensures GetValue(members, name).Err? ==> GetValue(members, name) == Err(Malformed)
    ensures GetStr(members, name).Err? ==> GetStr(members, name) == Err(Malformed)
    ensures GetArr(members, name).Err? ==> GetArr(members, name) == Err(Malformed)
  {
    hide Values;
  }

  /** An optional field may be missing; otherwise it is like a required one. Numbers are of 64 bits. */
  lemma OptionalExact(members: seq<Member>, name: string)
    ensures forall s :: GetOptStr(members, name) == Ok(Some(s)) <==> Sole(members, name, Str(s))
    ensures forall n: nat :: GetOptU64(members, name) == Ok(Some(n))
                             <==> n < 0x1_0000_0000_0000_0000 && Sole(members, name, Num(n))
    ensures GetOptStr(members, name) == Ok(None) <==> Missing(members, name)
    ensures GetOptU64(members, name) == Ok(None) <==> Missing(members, name)
    ensures GetOptStr(members, name).Err? ==> GetOptStr(members, name) == Err(Malformed)
    ensures GetOptU64(members, name).Err? ==> GetOptU64(members, name) == Err(Malformed)
  {
    hide Values;
  }

  /** An optional text that is not given, or given once. */
  predicate OptText(ms: seq<Member>, name: string, o: Option<string>) {
    match o
    case None => Missing(ms, name)
    case Some(s) => Sole(ms, name, Str(s))
  }

  lemma ReadsText(ms: seq<Member>, name: string, s: string)
    ensures GetStr(ms, name) == Ok(s) <==> Sole(ms, name, Str(s))
  {
    hide Values;
  }

  lemma ReadsValue(ms: seq<Member>, name: string, j: Json)
    ensures GetValue(ms, name) == Ok(j) <==> Sole(ms, name, j)
  {
    hide Values;
  }

  lemma ReadsOptText(ms: seq<Member>, name: string, o: Option<string>)
    ensures GetOptStr(ms, name) == Ok(o) <==> OptText(ms, name, o)
  {
    hide Values;
  }
}
