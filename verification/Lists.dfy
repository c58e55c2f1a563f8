/** Lists with some elements left out. */
module Lists {

  /** `v` is `w` with some elements left out. */
  predicate SubList<T(==)>(v: seq<T>, w: seq<T>) {
    v == [] || (w != [] && ((v[0] == w[0] && SubList(v[1..], w[1..])) || SubList(v, w[1..])))
  }

  lemma {:induction false} SubListRefl<T>(v: seq<T>)
    ensures SubList(v, v)
  {
    if v != [] {
      SubListRefl(v[1..]);
    }
  }

  lemma {:induction false} AppendBoth<T>(v: seq<T>, w: seq<T>, x: T)
    requires SubList(v, w)
    ensures SubList(v + [x], w + [x])
    decreases |w|
  {
    if w == [] {
      SubListRefl([x]);
      assert v + [x] == [x] && w + [x] == [x];
    } else {
      assert (w + [x])[1..] == w[1..] + [x];
      if v != [] && v[0] == w[0] && SubList(v[1..], w[1..]) {
        assert (v + [x])[1..] == v[1..] + [x];
        AppendBoth(v[1..], w[1..], x);
      } else {
        AppendBoth(v, w[1..], x);
      }
    }
  }

  lemma {:induction false} AppendRight<T>(v: seq<T>, w: seq<T>, x: T)
    requires SubList(v, w)
    ensures SubList(v, w + [x])
    decreases |w|
  {
    if w != [] && v != [] {
      assert (w + [x])[1..] == w[1..] + [x];
      if v[0] == w[0] && SubList(v[1..], w[1..]) {
        AppendRight(v[1..], w[1..], x);
      } else {
        AppendRight(v, w[1..], x);
      }
    }
  }

  lemma {:induction false} SubListTrans<T>(u: seq<T>, v: seq<T>, w: seq<T>)
    requires SubList(u, v) && SubList(v, w)
    ensures SubList(u, w)
    decreases |v| + |w|
  {
    if u != [] {
      if v[0] == w[0] && SubList(v[1..], w[1..]) {
        if u[0] == v[0] && SubList(u[1..], v[1..]) {
          SubListTrans(u[1..], v[1..], w[1..]);
        } else {
          SubListTrans(u, v[1..], w[1..]);
        }
      } else {
        SubListTrans(u, v, w[1..]);
      }
    }
  }

  /** Leaving out a suffix. */
  lemma {:induction false} SubListPrefix<T>(u: seq<T>, v: seq<T>)
    ensures SubList(u, u + v)
  {
    if u != [] {
      assert (u + v)[1..] == u[1..] + v;
      SubListPrefix(u[1..], v);
    }
  }

  lemma {:induction false} SubListShorter<T>(v: seq<T>, w: seq<T>)
    requires SubList(v, w)
    ensures |v| <= |w|
    decreases |w|
  {
    if v != [] {
      if v[0] == w[0] && SubList(v[1..], w[1..]) {
        SubListShorter(v[1..], w[1..]);
      } else {
        SubListShorter(v, w[1..]);
      }
    }
  }
}
