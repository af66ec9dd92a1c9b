/** Lists as bags: what depends on how often each element occurs, and not on the order. */
module Bags {

  lemma TakeOutBag<T>(s: seq<T>, i: nat)
    requires i < |s|
    ensures multiset(s) == multiset{s[i]} + multiset(s[..i] + s[i + 1..])
  {
    assert s == s[..i] + [s[i]] + s[i + 1..];
  }

  lemma IndexOf<T>(s: seq<T>, x: T) returns (i: nat)
    requires x in multiset(s)
    ensures i < |s| && s[i] == x
  {
    i :| i < |s| && s[i] == x;
  }

  lemma SameRest<T>(a: seq<T>, b: seq<T>, i: nat)
    requires a != [] && multiset(a) == multiset(b) && i < |b| && b[i] == a[0]
    ensures multiset(a[1..]) == multiset(b[..i] + b[i + 1..])
  {
    TakeOutBag(a, 0);
    TakeOutBag(b, i);
    assert a[..0] + a[1..] == a[1..];
    Minus(multiset{a[0]}, multiset(a[1..]), multiset(b[..i] + b[i + 1..]));
  }

  lemma Minus<T>(x: multiset<T>, y: multiset<T>, z: multiset<T>)
    requires x + y == x + z
    ensures y == z
  {
    assert y == (x + y) - x && z == (x + z) - x;
  }

  // ------------------------------------------------------------------ mapping each element to a list

  function Flat<T, U>(f: T -> seq<U>, s: seq<T>): (out: seq<U>) {
    if s == [] then [] else f(s[0]) + Flat(f, s[1..])
  }

  lemma {:induction false} FlatCat<T, U>(f: T -> seq<U>, a: seq<T>, b: seq<T>)
    ensures Flat(f, a + b) == Flat(f, a) + Flat(f, b)
  {
    if a == [] {
      assert a + b == b;
    } else {
      FlatCat(f, a[1..], b);
      assert (a + b)[0] == a[0] && (a + b)[1..] == a[1..] + b;
    }
  }

  lemma FlatNone<T, U>(f: T -> seq<U>)
    ensures Flat(f, []) == []
  {
  }

  lemma FlatOne<T, U>(f: T -> seq<U>, x: T)
    ensures Flat(f, [x]) == f(x)
  {
    assert [x][1..] == [];
  }

  lemma FlatTakeOut<T, U>(f: T -> seq<U>, s: seq<T>, i: nat)
    requires i < |s|
    ensures multiset(Flat(f, s)) == multiset(f(s[i])) + multiset(Flat(f, s[..i] + s[i + 1..]))
  {
    assert s == s[..i] + ([s[i]] + s[i + 1..]);
    FlatCat(f, s[..i], [s[i]] + s[i + 1..]);
    FlatCat(f, [s[i]], s[i + 1..]);
    FlatOne(f, s[i]);
    FlatCat(f, s[..i], s[i + 1..]);
  }

  /** The order of the elements decides only the order of the results. */
  lemma {:induction false} FlatPermuted<T, U>(f: T -> seq<U>, a: seq<T>, b: seq<T>)
    requires multiset(a) == multiset(b)
    ensures multiset(Flat(f, a)) == multiset(Flat(f, b))
    decreases |a|
  {
    if a == [] {
      assert |multiset(b)| == |b|;
    } else {
      var i := IndexOf(b, a[0]);
      SameRest(a, b, i);
      FlatPermuted(f, a[1..], b[..i] + b[i + 1..]);
      FlatTakeOut(f, b, i);
    }
  }

  ghost predicate Alike<T, U>(f: T -> seq<U>, g: T -> seq<U>, s: seq<T>) {
    forall i | 0 <= i < |s| :: multiset(f(s[i])) == multiset(g(s[i]))
  }

  lemma {:induction false} FlatAlike<T, U>(f: T -> seq<U>, g: T -> seq<U>, s: seq<T>)
    requires Alike(f, g, s)
    ensures multiset(Flat(f, s)) == multiset(Flat(g, s))
  {
    if s == [] {
    } else {
      FlatAlike(f, g, s[1..]);
    }
  }

  /** Results alike on elements alike. */
  lemma FlatSame<T, U>(f: T -> seq<U>, g: T -> seq<U>, a: seq<T>, b: seq<T>)
    requires multiset(a) == multiset(b) && Alike(f, g, b)
    ensures multiset(Flat(f, a)) == multiset(Flat(g, b))
  {
    FlatPermuted(f, a, b);
    FlatAlike(f, g, b);
  }

  // ------------------------------------------------------------------ pairs

  function Fixed<T, U, V>(h: (T, U) -> seq<V>, x: T): (f: U -> seq<V>) {
    y => h(x, y)
  }

  function Flipped<T, U, V>(h: (T, U) -> seq<V>): (h': (U, T) -> seq<V>) {
    (y, x) => h(x, y)
  }

  function Over<T, U, V>(h: (T, U) -> seq<V>, b: seq<U>): (f: T -> seq<V>) {
    x => Flat(Fixed(h, x), b)
  }

  function NestedFlat<T, U, V>(h: (T, U) -> seq<V>, a: seq<T>, b: seq<U>): (out: seq<V>) {
    Flat(Over(h, b), a)
  }

  lemma {:induction false} NoPairs<T, U, V>(h: (T, U) -> seq<V>, a: seq<T>)
    ensures NestedFlat(h, a, []) == []
  {
    if a == [] {
    } else {
      NoPairs(h, a[1..]);
    }
  }

  lemma {:induction false} OneMore<T, U, V>(h: (T, U) -> seq<V>, a: seq<T>, b: seq<U>)
    requires b != []
    ensures multiset(NestedFlat(h, a, b)) == multiset(Flat(Fixed(Flipped(h), b[0]), a)) + multiset(NestedFlat(h, a, b[1..]))
  {
    if a == [] {
    } else {
      OneMore(h, a[1..], b);
    }
  }

  /** Which of two lists is outermost does not matter. */
  lemma {:induction false} FlatSwap<T, U, V>(h: (T, U) -> seq<V>, a: seq<T>, b: seq<U>)
    ensures multiset(NestedFlat(h, a, b)) == multiset(NestedFlat(Flipped(h), b, a))
  {
    if b == [] {
      NoPairs(h, a);
    } else {
      FlatSwap(h, a, b[1..]);
      OneMore(h, a, b);
    }
  }

  /** Pairs of elements of two lists depend on the lists as bags only. */
  lemma PairsPermuted<T, U, V>(h: (T, U) -> seq<V>, a: seq<T>, b: seq<U>, a': seq<T>, b': seq<U>)
    requires multiset(a) == multiset(a') && multiset(b) == multiset(b')
    ensures multiset(NestedFlat(h, a, b)) == multiset(NestedFlat(h, a', b'))
  {
    forall i | 0 <= i < |a'| ensures multiset(Over(h, b)(a'[i])) == multiset(Over(h, b')(a'[i])) {
      FlatPermuted(Fixed(h, a'[i]), b, b');
    }
    FlatSame(Over(h, b), Over(h, b'), a, a');
  }

  /** A list without elements is the only list of its bag. */
  lemma EmptyBag<T>(a: seq<T>, b: seq<T>)
    requires multiset(a) == multiset(b)
    ensures a == [] <==> b == []
  {
    assert |multiset(a)| == |a| && |multiset(b)| == |b|;
  }
}
