/** JSON values and their compact text as `serde_json` writes it (RFC 8259). An object keeps its
    members in document order and may repeat a name, because the decoders of the crate tell a
    repeated field from a single one. */
module JsonText {
  import opened Wrappers

  datatype Member = Member(name: string, value: Json)

  datatype Json =
    | Null
    | Bool(b: bool)
    | Num(n: int)
    | Str(s: string)
    | Arr(items: seq<Json>)
    | Obj(members: seq<Member>)

  // ----- Writing -----

  function DigitChar(d: nat): char
    requires d < 10
  {
    '0' + d as char
  }

  function Decimal(n: nat): (s: string)
    ensures s != [] && forall c :: c in s ==> IsDigit(c)
  {
    if n < 10 then [DigitChar(n)] else Decimal(n / 10) + [DigitChar(n % 10)]
  }

  function HexChar(d: nat): char
    requires d < 16
  {
    if d < 10 then '0' + d as char else 'a' + (d - 10) as char
  }

  /** The letter of a two-character escape. */
  function ShortEscape(c: char): Option<char> {
    if c == '"' || c == '\\' then Some(c)
    else if c == '\U{08}' then Some('b')
    else if c == '\U{0C}' then Some('f')
    else if c == '\n' then Some('n')
    else if c == '\r' then Some('r')
    else if c == '\t' then Some('t')
    else None
  }

  /** The short escapes, and `\u00xx` for the other control characters. */
  function EscapeChar(c: char): string {
    match ShortEscape(c)
    case Some(letter) => ['\\', letter]
    case None =>
      if c < ' ' then ['\\', 'u', '0', '0', HexChar(c as int / 16), HexChar(c as int % 16)] else [c]
  }

  // Each of these writes its argument in front of the text `k` that follows it.

  function PrintStrBody(s: string, k: string): string {
    if s == [] then ['"'] + k else EscapeChar(s[0]) + PrintStrBody(s[1..], k)
  }

  function PrintStr(s: string, k: string): string {
    ['"'] + PrintStrBody(s, k)
  }

  function PrintNum(n: int, k: string): string {
    if n < 0 then ['-'] + (Decimal(-n) + k) else Decimal(n) + k
  }

  function PrintValue(j: Json, k: string): string
    decreases j, 1
  {
    match j
    case Null => "null" + k
    case Bool(b) => if b then "true" + k else "false" + k
    case Num(n) => PrintNum(n, k)
    case Str(s) => PrintStr(s, k)
    case Arr(items) => ['['] + (if items == [] then [']'] + k else PrintItems(items, k))
    case Obj(members) => ['{'] + (if members == [] then ['}'] + k else PrintMembers(members, k))
  }

  function PrintItems(items: seq<Json>, k: string): string
    requires items != []
    decreases items, 0
  {
    PrintValue(items[0], if |items| == 1 then [']'] + k else [','] + PrintItems(items[1..], k))
  }

  function PrintMember(m: Member, k: string): string
    decreases m, 2
  {
    PrintStr(m.name, [':'] + PrintValue(m.value, k))
  }

  function PrintMembers(members: seq<Member>, k: string): string
    requires members != []
    decreases members, 0
  {
    PrintMember(members[0], if |members| == 1 then ['}'] + k else [','] + PrintMembers(members[1..], k))
  }

  /** `serde_json::to_string` */
  function Print(j: Json): string {
    PrintValue(j, [])
  }

  // ----- Reading -----

  datatype Parsed<+T> = Fail | Got(value: T, rest: string)

  predicate IsDigit(c: char) {
    '0' <= c <= '9'
  }

  predicate Starts(s: string, c: char) {
    s != [] && s[0] == c
  }

  /** The length of the run of digits that `s` starts with. */
  function Run(s: string): (k: nat)
    ensures k <= |s| && forall i :: 0 <= i < k ==> IsDigit(s[i])
    ensures k < |s| ==> !IsDigit(s[k])
  {
    if s == [] || !IsDigit(s[0]) then 0 else 1 + Run(s[1..])
  }

  function DigitValue(c: char): nat
    requires IsDigit(c)
  {
    c as int - '0' as int
  }

  function Undecimal(s: string): nat
    requires forall c :: c in s ==> IsDigit(c)
  {
    if s == [] then 0
    else
      assert s[|s| - 1] in s;
      Undecimal(s[..|s| - 1]) * 10 + DigitValue(s[|s| - 1])
  }

  /** Digits without superfluous leading zeros. */
  function ParseNat(s: string): (r: Parsed<nat>)
    ensures r.Got? ==> |r.rest| < |s|
  {
    var k := Run(s);
    if k == 0 || Decimal(Undecimal(s[..k])) != s[..k] then Fail else Got(Undecimal(s[..k]), s[k..])
  }

  function HexValue(c: char): Option<nat> {
    if IsDigit(c) then Some(c as int - '0' as int)
    else if 'a' <= c <= 'f' then Some(c as int - 'a' as int + 10)
    else if 'A' <= c <= 'F' then Some(c as int - 'A' as int + 10)
    else None
  }

  function ParseHex4(s: string): (r: Parsed<char>)
    ensures r.Got? ==> |r.rest| < |s|
  {
    if |s| < 4 then Fail else
      match (HexValue(s[0]), HexValue(s[1]), HexValue(s[2]), HexValue(s[3]))
      case (Some(a), Some(b), Some(c), Some(d)) =>
        var n := a * 4096 + b * 256 + c * 16 + d;
        if n < 0xD800 then Got(n as char, s[4..]) else Fail
      case _ => Fail
  }

  function Unescape(letter: char): Option<char> {
    match letter
    case '"' => Some('"')
    case '\\' => Some('\\')
    case '/' => Some('/')
    case 'b' => Some('\U{08}')
    case 'f' => Some('\U{0C}')
    case 'n' => Some('\n')
    case 'r' => Some('\r')
    case 't' => Some('\t')
    case _ => None
  }

  /** One character of a string body, after a possible escape. */
  function ParseChar(s: string): (r: Parsed<char>)
    requires s != []
    ensures r.Got? ==> |r.rest| < |s|
  {
    if s[0] != '\\' then
      if s[0] < ' ' then Fail else Got(s[0], s[1..])
    else if |s| == 1 then Fail
    else
      if s[1] == 'u' then ParseHex4(s[2..]) else
        match Unescape(s[1])
        case None => Fail
        case Some(c) => Got(c, s[2..])
  }

  /** A string body and its closing quote. */
  function ParseStr(s: string): (r: Parsed<string>)
    ensures r.Got? ==> |r.rest| < |s|
    decreases |s|
  {
    if s == [] then Fail
    else if s[0] == '"' then Got([], s[1..])
    else
      match ParseChar(s)
      case Fail => Fail
      case Got(c, rest) =>
        match ParseStr(rest)
        case Fail => Fail
        case Got(t, rest') => Got([c] + t, rest')
  }

  function ParseWord(s: string, word: string, j: Json): (r: Parsed<Json>)
    requires word != []
    ensures r.Got? ==> |r.rest| < |s|
  {
    if word <= s then Got(j, s[|word|..]) else Fail
  }

  function ParseValue(s: string): (r: Parsed<Json>)
    ensures r.Got? ==> |r.rest| < |s|
    decreases |s|, 1
  {
    if s == [] then Fail
    else if s[0] == '"' then
      match ParseStr(s[1..])
      case Fail => Fail
      case Got(t, rest) => Got(Str(t), rest)
    else if s[0] == '[' then
      if Starts(s[1..], ']') then Got(Arr([]), s[2..]) else
        match ParseItems(s[1..])
        case Fail => Fail
        case Got(items, rest) => Got(Arr(items), rest)
    else if s[0] == '{' then
      if Starts(s[1..], '}') then Got(Obj([]), s[2..]) else
        match ParseMembers(s[1..])
        case Fail => Fail
        case Got(members, rest) => Got(Obj(members), rest)
    else if s[0] == '-' then
      match ParseNat(s[1..])
      case Fail => Fail
      case Got(n, rest) => if n == 0 then Fail else Got(Num(0 - n), rest)
    else if IsDigit(s[0]) then
      match ParseNat(s)
      case Fail => Fail
      case Got(n, rest) => Got(Num(n), rest)
    else if s[0] == 'n' then ParseWord(s, "null", Null)
    else if s[0] == 't' then ParseWord(s, "true", Bool(true))
    else ParseWord(s, "false", Bool(false))
  }

  function ParseItems(s: string): (r: Parsed<seq<Json>>)
    ensures r.Got? ==> |r.rest| < |s|
    decreases |s|, 2
  {
    match ParseValue(s)
    case Fail => Fail
    case Got(v, rest) =>
      if Starts(rest, ']') then Got([v], rest[1..])
      else if !Starts(rest, ',') then Fail
      else
        match ParseItems(rest[1..])
        case Fail => Fail
        case Got(vs, rest') => Got([v] + vs, rest')
  }

  function ParseMember(s: string): (r: Parsed<Member>)
    ensures r.Got? ==> |r.rest| < |s|
    decreases |s|, 2
  {
    if !Starts(s, '"') then Fail else
      match ParseStr(s[1..])
      case Fail => Fail
      case Got(name, rest) =>
        if !Starts(rest, ':') then Fail else
          match ParseValue(rest[1..])
          case Fail => Fail
          case Got(v, rest') => Got(Member(name, v), rest')
  }

  function ParseMembers(s: string): (r: Parsed<seq<Member>>)
    ensures r.Got? ==> |r.rest| < |s|
    decreases |s|, 3
  {
    match ParseMember(s)
    case Fail => Fail
    case Got(m, rest) =>
      if Starts(rest, '}') then Got([m], rest[1..])
      else if !Starts(rest, ',') then Fail
      else
        match ParseMembers(rest[1..])
        case Fail => Fail
        case Got(ms, rest') => Got([m] + ms, rest')
  }

  /** `serde_json::from_str::<Value>`, on the compact texts described above. */
  function Parse(s: string): Option<Json> {
    match ParseValue(s)
    case Fail => None
    case Got(j, rest) => if rest == [] then Some(j) else None
  }

  // ----- Reading undoes writing -----

  lemma {:induction false} UndecimalDecimal(n: nat)
    ensures Undecimal(Decimal(n)) == n
  {
    if n >= 10 {
      UndecimalDecimal(n / 10);
      var s := Decimal(n);
      assert s[..|s| - 1] == Decimal(n / 10);
    } else {
      assert Decimal(n)[..0] == [];
    }
  }

  lemma {:induction false} RunOfDigits(d: string, rest: string)
    requires forall c :: c in d ==> IsDigit(c)
    requires rest == [] || !IsDigit(rest[0])
    ensures Run(d + rest) == |d|
  {
    if d == [] {
      assert d + rest == rest;
    } else {
      assert d[0] in d;
      assert (d + rest)[1..] == d[1..] + rest;
      RunOfDigits(d[1..], rest);
    }
  }

  lemma ParseDecimal(n: nat, rest: string)
    requires rest == [] || !IsDigit(rest[0])
    ensures ParseNat(Decimal(n) + rest) == Got(n, rest)
  {
    var d := Decimal(n);
    RunOfDigits(d, rest);
    assert (d + rest)[..|d|] == d && (d + rest)[|d|..] == rest;
    UndecimalDecimal(n);
  }

  lemma ParseControl(c: char, rest: string)
    requires c < ' '
    ensures ParseHex4(['0', '0', HexChar(c as int / 16), HexChar(c as int % 16)] + rest) == Got(c, rest)
  {
    var h := ['0', '0', HexChar(c as int / 16), HexChar(c as int % 16)];
    assert (h + rest)[4..] == rest;
  }

  lemma ParseShort(c: char, rest: string)
    requires ShortEscape(c).Some?
    ensures ParseChar(['\\', ShortEscape(c).value] + rest) == Got(c, rest)
  {
    assert (['\\', ShortEscape(c).value] + rest)[2..] == rest;
  }

  lemma ParseEscapedChar(c: char, rest: string)
    ensures EscapeChar(c) != [] && EscapeChar(c)[0] != '"'
    ensures ParseChar(EscapeChar(c) + rest) == Got(c, rest)
  {
    if ShortEscape(c).Some? {
      ParseShort(c, rest);
    } else if c < ' ' {
      ParseControl(c, rest);
      var h := ['0', '0', HexChar(c as int / 16), HexChar(c as int % 16)];
      assert (EscapeChar(c) + rest)[2..] == h + rest;
    }
  }

  lemma {:induction false} ParseStrBody(s: string, k: string)
    ensures ParseStr(PrintStrBody(s, k)) == Got(s, k)
  {
    hide EscapeChar, ParseChar;
    if s != [] {
      ParseEscapedChar(s[0], PrintStrBody(s[1..], k));
      ParseStrBody(s[1..], k);
      assert [s[0]] + s[1..] == s;
    }
  }

  lemma ParsePrintedNum(n: int, k: string)
    requires k == [] || !IsDigit(k[0])
    ensures ParseValue(PrintNum(n, k)) == Got(Num(n), k)
  {
    hide ParseNat, Decimal;
    if n < 0 {
      ParseDecimal(-n, k);
      assert PrintNum(n, k)[1..] == Decimal(-n) + k;
    } else {
      ParseDecimal(n, k);
      assert Decimal(n)[0] in Decimal(n);
    }
  }

  lemma ParsePrintedWord(word: string, j: Json, k: string)
    requires word != []
    ensures ParseWord(word + k, word, j) == Got(j, k)
  {
    assert (word + k)[|word|..] == k;
  }

  lemma PrintedStart(j: Json, k: string)
    ensures PrintValue(j, k) != [] && PrintValue(j, k)[0] != ']' && PrintValue(j, k)[0] != '}'
  {
    if j.Num? && j.n >= 0 {
      assert Decimal(j.n)[0] in Decimal(j.n);
    }
  }

  lemma {:induction false} ParsePrinted(j: Json, k: string)
    requires k == [] || !IsDigit(k[0])
    ensures ParseValue(PrintValue(j, k)) == Got(j, k)
    decreases j, 1
  {
    hide PrintNum, PrintStrBody, ParseNat, ParseWord;
    match j
    case Null => ParsePrintedWord("null", Null, k);
    case Bool(b) => ParsePrintedWord(if b then "true" else "false", Bool(b), k);
    case Num(n) => ParsePrintedNum(n, k);
    case Str(s) => ParseStrBody(s, k);
    case Arr(items) =>
      if items == [] {
        assert PrintValue(j, k) == ['[', ']'] + k;
      } else {
        ParsePrintedItems(items, k);
      }
    case Obj(members) =>
      if members == [] {
        assert PrintValue(j, k) == ['{', '}'] + k;
      } else {
        ParsePrintedMembers(members, k);
      }
  }

  lemma {:induction false} ParsePrintedItems(items: seq<Json>, k: string)
    requires items != []
    ensures ParseItems(PrintItems(items, k)) == Got(items, k)
    ensures !Starts(PrintItems(items, k), ']')
    decreases items, 0
  {
    if |items| == 1 {
      ParsePrinted(items[0], [']'] + k);
      PrintedStart(items[0], [']'] + k);
      assert items == [items[0]] && ([']'] + k)[1..] == k;
    } else {
      var tail := [','] + PrintItems(items[1..], k);
      ParsePrinted(items[0], tail);
      PrintedStart(items[0], tail);
      ParsePrintedItems(items[1..], k);
      assert items == [items[0]] + items[1..];
    }
  }

  lemma {:induction false} ParsePrintedMember(m: Member, k: string)
    requires k == [] || !IsDigit(k[0])
    ensures ParseMember(PrintMember(m, k)) == Got(m, k)
    ensures !Starts(PrintMember(m, k), '}')
    decreases m, 2
  {
    ParseStrBody(m.name, [':'] + PrintValue(m.value, k));
    ParsePrinted(m.value, k);
  }

  lemma {:induction false} ParsePrintedMembers(members: seq<Member>, k: string)
    requires members != []
    ensures ParseMembers(PrintMembers(members, k)) == Got(members, k)
    ensures !Starts(PrintMembers(members, k), '}')
    decreases members, 0
  {
    hide ParseMember, PrintMember;
    if |members| == 1 {
      ParsePrintedMember(members[0], ['}'] + k);
      assert members == [members[0]] && (['}'] + k)[1..] == k;
    } else {
      ParsePrintedMember(members[0], [','] + PrintMembers(members[1..], k));
      ParsePrintedMembers(members[1..], k);
      assert members == [members[0]] + members[1..];
    }
  }

  /** The text of a value determines it: parsing what was printed gives the value back. */
  lemma ParsePrint(j: Json)
    ensures Parse(Print(j)) == Some(j)
  {
    ParsePrinted(j, []);
  }
}
