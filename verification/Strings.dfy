/** The string operations the envelopes rely on: `split`, `join`, `split_once`, and `Vec::sort`. */
module Strings {
  import opened Wrappers
  import opened Octets

  // ----- split and join on one character -----

  /** `s.split(sep).collect()` */
  function Split(s: string, sep: char): (parts: seq<string>)
    ensures |parts| >= 1
    ensures forall p :: p in parts ==> sep !in p
  {
    if s == [] then [[]]
    else
      var rest := Split(s[1..], sep);
      if s[0] == sep then [[]] + rest else [[s[0]] + rest[0]] + rest[1..]
  }

  /** `parts.join(sep)` */
  function Join(parts: seq<string>, sep: char): string {
    if |parts| == 0 then []
    else if |parts| == 1 then parts[0]
    else parts[0] + [sep] + Join(parts[1..], sep)
  }

  lemma {:induction false} SplitNoSep(s: string, sep: char)
    requires sep !in s
    ensures Split(s, sep) == [s]
  {
    if s != [] {
      SplitNoSep(s[1..], sep);
      assert [s[0]] + s[1..] == s;
    }
  }

  lemma {:induction false} SplitAtSep(head: string, tail: string, sep: char)
    requires sep !in head
    ensures Split(head + [sep] + tail, sep) == [head] + Split(tail, sep)
  {
    var s := head + [sep] + tail;
    if head == [] {
      assert s[1..] == tail;
    } else {
      assert s[1..] == head[1..] + [sep] + tail;
      SplitAtSep(head[1..], tail, sep);
      assert [head[0]] + head[1..] == head;
    }
  }

  lemma {:induction false} SplitMany(s: string, sep: char)
    ensures |Split(s, sep)| >= 2 <==> sep in s
  {
    if s != [] {
      SplitMany(s[1..], sep);
    }
  }

  /** Splitting undoes joining, for any non-empty list of parts without the separator. */
  lemma {:induction false} SplitJoin(parts: seq<string>, sep: char)
    requires |parts| >= 1
    requires forall p :: p in parts ==> sep !in p
    ensures Split(Join(parts, sep), sep) == parts
  {
    if |parts| == 1 {
      SplitNoSep(parts[0], sep);
    } else {
      SplitAtSep(parts[0], Join(parts[1..], sep), sep);
      SplitJoin(parts[1..], sep);
    }
  }

  /** Joining undoes splitting, for any text. */
  lemma {:induction false} JoinSplit(s: string, sep: char)
    ensures Join(Split(s, sep), sep) == s
  {
    if s != [] {
      JoinSplit(s[1..], sep);
      var rest := Split(s[1..], sep);
      if s[0] == sep {
        assert Split(s, sep)[1..] == rest;
      } else {
        assert Split(s, sep)[1..] == rest[1..];
      }
    }
  }

  /** `s.split_once(sep)`: the part before the first separator. */
  function BeforeFirst(s: string, sep: char): Option<string> {
    if s == [] then None
    else if s[0] == sep then Some([])
    else
      match BeforeFirst(s[1..], sep)
      case None => None
      case Some(p) => Some([s[0]] + p)
  }

  lemma {:induction false} BeforeFirstExact(s: string, sep: char)
    ensures BeforeFirst(s, sep).Some? <==> sep in s
    ensures BeforeFirst(s, sep).Some? ==>
              var p := BeforeFirst(s, sep).value;
              |p| < |s| && p == s[..|p|] && s[|p|] == sep && sep !in p
  {
    if s != [] && s[0] != sep {
      BeforeFirstExact(s[1..], sep);
    }
  }

  lemma {:induction false} BeforeFirstConcat(head: string, tail: string, sep: char)
    requires sep !in head
    ensures BeforeFirst(head + [sep] + tail, sep) == Some(head)
  {
    var s := head + [sep] + tail;
    if head != [] {
      assert s[1..] == head[1..] + [sep] + tail;
      BeforeFirstConcat(head[1..], tail, sep);
      assert [head[0]] + head[1..] == head;
    }
  }

  // ----- The order of `str`, and `sort` -----

  /** The order of strings by their characters. Rust compares strings by their octets, which is the
      same order (`OrderOfOctets`). */
  predicate Le(a: string, b: string) {
    a == [] || (b != [] && (a[0] < b[0] || (a[0] == b[0] && Le(a[1..], b[1..]))))
  }

  predicate LeOctets(a: bytes, b: bytes) {
    a == [] || (b != [] && (a[0] < b[0] || (a[0] == b[0] && LeOctets(a[1..], b[1..]))))
  }

  /** Where the octets of two characters first differ. */
  function FirstDifference(c: char, d: char): (i: nat)
    requires c < d
    ensures i < |EncodeChar(c)| && i < |EncodeChar(d)|
    ensures EncodeChar(c)[..i] == EncodeChar(d)[..i] && EncodeChar(c)[i] < EncodeChar(d)[i]
  {
    CharOrder(c, d);
    var x, y := EncodeChar(c), EncodeChar(d);
    if x[0] < y[0] then 0
    else if x[1] < y[1] then
      assert x[..1] == y[..1];
      1
    else if x[2] < y[2] then
      assert x[..2] == y[..2];
      2
    else
      assert x[..3] == y[..3];
      3
  }

  /** The octets of a smaller character are smaller at the first place where they differ. */
  lemma CharOrder(c: char, d: char)
    requires c < d
    ensures var x, y := EncodeChar(c), EncodeChar(d);
            || x[0] < y[0]
            || (|x| > 1 && |y| > 1 && x[0] == y[0] && x[1] < y[1])
            || (|x| > 2 && |y| > 2 && x[0] == y[0] && x[1] == y[1] && x[2] < y[2])
            || (|x| > 3 && |y| > 3 && x[0] == y[0] && x[1] == y[1] && x[2] == y[2] && x[3] < y[3])
  {
    AssembleEncode(c);
    AssembleEncode(d);
  }

  lemma {:induction false} LeOctetsSame(p: bytes, x: bytes, y: bytes)
    ensures LeOctets(p + x, p + y) <==> LeOctets(x, y)
  {
    if p == [] {
      assert p + x == x && p + y == y;
    } else {
      assert (p + x)[1..] == p[1..] + x && (p + y)[1..] == p[1..] + y;
      LeOctetsSame(p[1..], x, y);
    }
  }

  lemma LeOctetsChar(c: char, d: char, x: bytes, y: bytes)
    requires c < d
    ensures LeOctets(EncodeChar(c) + x, EncodeChar(d) + y) && !LeOctets(EncodeChar(d) + y, EncodeChar(c) + x)
  {
    hide EncodeChar;
    var i := FirstDifference(c, d);
    var u, v := EncodeChar(c), EncodeChar(d);
    assert u + x == u[..i] + (u[i..] + x) && v + y == u[..i] + (v[i..] + y);
    LeOctetsSame(u[..i], u[i..] + x, v[i..] + y);
    LeOctetsSame(u[..i], v[i..] + y, u[i..] + x);
  }

  /** Comparing characters is comparing octets. */
  lemma {:induction false} OrderOfOctets(a: string, b: string)
    ensures Le(a, b) <==> LeOctets(Utf8(a), Utf8(b))
  {
    hide EncodeChar;
    if a != [] && b != [] {
      if a[0] < b[0] {
        LeOctetsChar(a[0], b[0], Utf8(a[1..]), Utf8(b[1..]));
      } else if b[0] < a[0] {
        LeOctetsChar(b[0], a[0], Utf8(b[1..]), Utf8(a[1..]));
      } else {
        LeOctetsSame(EncodeChar(a[0]), Utf8(a[1..]), Utf8(b[1..]));
        OrderOfOctets(a[1..], b[1..]);
      }
    }
  }

  lemma {:induction false} LeTotal(a: string, b: string)
    ensures Le(a, b) || Le(b, a)
  {
    if a != [] && b != [] && a[0] == b[0] {
      LeTotal(a[1..], b[1..]);
    }
  }

  lemma {:induction false} LeAntisymmetric(a: string, b: string)
    requires Le(a, b) && Le(b, a)
    ensures a == b
  {
    if a != [] && b != [] {
      LeAntisymmetric(a[1..], b[1..]);
      assert a == [a[0]] + a[1..] && b == [b[0]] + b[1..];
    }
  }

  lemma {:induction false} LeTransitive(a: string, b: string, c: string)
    requires Le(a, b) && Le(b, c)
    ensures Le(a, c)
  {
    if a != [] && a[0] == b[0] && b[0] == c[0] {
      LeTransitive(a[1..], b[1..], c[1..]);
    }
  }

  lemma {:induction false} LePrefix(a: string, b: string)
    ensures Le(a, a + b)
  {
    if a != [] {
      assert (a + b)[1..] == a[1..] + b;
      LePrefix(a[1..], b);
    }
  }

  ghost predicate Sorted(v: seq<string>) {
    forall i, j :: 0 <= i < j < |v| ==> Le(v[i], v[j])
  }

  function Insert(x: string, v: seq<string>): (r: seq<string>)
    ensures multiset(r) == multiset([x]) + multiset(v)
  {
    if v == [] || Le(x, v[0]) then [x] + v
    else
      assert v == [v[0]] + v[1..];
      [v[0]] + Insert(x, v[1..])
  }

  /** `v.sort()` on a `Vec` of strings. */
  function Sort(v: seq<string>): (r: seq<string>)
    ensures multiset(r) == multiset(v)
  {
    if v == [] then []
    else
      assert v == [v[0]] + v[1..];
      Insert(v[0], Sort(v[1..]))
  }

  lemma {:induction false} InsertSorted(x: string, v: seq<string>)
    requires Sorted(v)
    ensures Sorted(Insert(x, v))
  {
    if v == [] {
    } else if Le(x, v[0]) {
      forall j | 0 <= j < |v| ensures Le(x, v[j]) {
        if j > 0 { LeTransitive(x, v[0], v[j]); }
      }
    } else {
      LeTotal(x, v[0]);
      var rest := Insert(x, v[1..]);
      InsertSorted(x, v[1..]);
      forall j | 0 <= j < |rest| ensures Le(v[0], rest[j]) {
        assert rest[j] in multiset(rest);
        assert rest[j] == x || rest[j] in v[1..];
      }
    }
  }

  lemma {:induction false} SortSorted(v: seq<string>)
    ensures Sorted(Sort(v))
  {
    if v != [] {
      SortSorted(v[1..]);
      InsertSorted(v[0], Sort(v[1..]));
    }
  }

  lemma SortedHead(a: seq<string>, x: string)
    requires Sorted(a) && x in a
    ensures Le(a[0], x)
  {
    var i :| 0 <= i < |a| && a[i] == x;
    if i == 0 {
      LeTotal(x, x);
    }
  }

  lemma TailContents(a: seq<string>)
    requires a != []
    ensures multiset(a[1..]) == multiset(a) - multiset{a[0]}
  {
    assert a == [a[0]] + a[1..];
  }

  lemma SortedTail(a: seq<string>)
    requires Sorted(a) && a != []
    ensures Sorted(a[1..])
  {
    hide Le;
  }

  /** There is one sorted list with given contents, so the result of sorting does not depend on
      the order of its input. */
  lemma {:induction false} SortedUnique(a: seq<string>, b: seq<string>)
    requires Sorted(a) && Sorted(b) && multiset(a) == multiset(b)
    ensures a == b
  {
    hide Le, Sorted;
    assert |a| == |multiset(a)| == |multiset(b)| == |b|;
    if a != [] {
      assert a[0] in multiset(b) && b[0] in multiset(a);
      SortedHead(a, b[0]);
      SortedHead(b, a[0]);
      LeAntisymmetric(a[0], b[0]);
      TailContents(a);
      TailContents(b);
      SortedTail(a);
      SortedTail(b);
      SortedUnique(a[1..], b[1..]);
      assert a == [a[0]] + a[1..] && b == [b[0]] + b[1..];
    }
  }

  lemma SortCanonical(a: seq<string>, b: seq<string>)
    ensures Sort(a) == Sort(b) <==> multiset(a) == multiset(b)
  {
    SortSorted(a);
    SortSorted(b);
    if multiset(a) == multiset(b) {
      SortedUnique(Sort(a), Sort(b));
    }
  }
}
