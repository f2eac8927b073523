/** Sorting by a string key, as slices.Sort and slices.SortStableFunc order Go strings: byte by byte. */
module Sorting {
  predicate Leq(a: string, b: string) {
    a == "" || (b != "" && (a[0] < b[0] || (a[0] == b[0] && Leq(a[1..], b[1..]))))
  }

  /** At some place a's character is the smaller, and before it the two are the same. */
  ghost predicate SmallerAt(a: string, b: string, i: nat) {
    i < |a| && i < |b| && a[..i] == b[..i] && a[i] < b[i]
  }

  /** The order is the dictionary's: a leads b, or is smaller where the two first differ. */
  lemma {:induction false} LeqIsLexicographic(a: string, b: string)
    ensures Leq(a, b) <==> a <= b || exists i: nat :: SmallerAt(a, b, i)
  {
    if a != "" && b != "" && a[0] == b[0] {
      LeqIsLexicographic(a[1..], b[1..]);
      assert a == [a[0]] + a[1..] && b == [b[0]] + b[1..];
      if i: nat :| SmallerAt(a[1..], b[1..], i) {
        assert a[..i + 1] == [a[0]] + a[1..][..i] && b[..i + 1] == [b[0]] + b[1..][..i];
        assert SmallerAt(a, b, i + 1);
      }
      if i: nat :| SmallerAt(a, b, i) {
        assert a[..i][1..] == a[1..][..i - 1] && b[..i][1..] == b[1..][..i - 1];
        assert SmallerAt(a[1..], b[1..], i - 1);
      }
    } else if a != "" && b != "" {
      assert a[0] < b[0] ==> SmallerAt(a, b, 0);
      assert forall i: nat | SmallerAt(a, b, i) && i > 0 :: a[..i][0] == b[..i][0];
    }
  }

  lemma {:induction false} LeqTotal(a: string, b: string)
    ensures Leq(a, b) || Leq(b, a)
  {
    if a != "" && b != "" && a[0] == b[0] {
      LeqTotal(a[1..], b[1..]);
    }
  }

  lemma {:induction false} LeqAntisymmetric(a: string, b: string)
    requires Leq(a, b) && Leq(b, a)
    ensures a == b
  {
    if a != "" {
      LeqAntisymmetric(a[1..], b[1..]);
      assert a == [a[0]] + a[1..] && b == [b[0]] + b[1..];
    }
  }

  lemma {:induction false} LeqTransitive(a: string, b: string, c: string)
    requires Leq(a, b) && Leq(b, c)
    ensures Leq(a, c)
  {
    if a != "" && a[0] == b[0] && b[0] == c[0] {
      LeqTransitive(a[1..], b[1..], c[1..]);
    }
  }

  ghost predicate SortedBy<T>(key: T -> string, s: seq<T>) {
    forall i, j | 0 <= i < j < |s| :: Leq(key(s[i]), key(s[j]))
  }

  /** Puts x after every element whose key is not above its own. */
  function InsertBy<T>(key: T -> string, s: seq<T>, x: T): seq<T> {
    if s == [] || Leq(key(s[|s| - 1]), key(x)) then s + [x]
    else InsertBy(key, s[..|s| - 1], x) + [s[|s| - 1]]
  }

  /** The stable sort of s. */
  function SortBy<T>(key: T -> string, s: seq<T>): seq<T> {
    if s == [] then [] else InsertBy(key, SortBy(key, s[..|s| - 1]), s[|s| - 1])
  }

  lemma {:induction false} InsertKeeps<T>(key: T -> string, s: seq<T>, x: T)
    ensures multiset(InsertBy(key, s, x)) == multiset(s) + multiset{x}
  {
    if s != [] && !Leq(key(s[|s| - 1]), key(x)) {
      InsertKeeps(key, s[..|s| - 1], x);
      assert s == s[..|s| - 1] + [s[|s| - 1]];
    }
  }

  lemma {:induction false} InsertSorts<T>(key: T -> string, s: seq<T>, x: T)
    requires SortedBy(key, s)
    ensures SortedBy(key, InsertBy(key, s, x))
    ensures forall i | 0 <= i < |InsertBy(key, s, x)| :: InsertBy(key, s, x)[i] == x || InsertBy(key, s, x)[i] in s
  {
    if s == [] || Leq(key(s[|s| - 1]), key(x)) {
      forall i | 0 <= i < |s|
        ensures Leq(key(s[i]), key(x))
      {
        if i < |s| - 1 {
          LeqTransitive(key(s[i]), key(s[|s| - 1]), key(x));
        }
      }
    } else {
      var init, last := s[..|s| - 1], s[|s| - 1];
      InsertSorts(key, init, x);
      LeqTotal(key(last), key(x));
      var r := InsertBy(key, init, x);
      forall i | 0 <= i < |r|
        ensures Leq(key(r[i]), key(last))
      {
        if r[i] != x {
          var k :| 0 <= k < |init| && init[k] == r[i];
          assert s[k] == r[i];
        }
      }
    }
  }

  lemma {:induction false} SortBySorts<T>(key: T -> string, s: seq<T>)
    ensures SortedBy(key, SortBy(key, s)) && multiset(SortBy(key, s)) == multiset(s)
  {
    if s != [] {
      var init, last := s[..|s| - 1], s[|s| - 1];
      SortBySorts(key, init);
      InsertSorts(key, SortBy(key, init), last);
      InsertKeeps(key, SortBy(key, init), last);
      assert s == init + [last];
    }
  }

  /** The elements of s with one key, in their order. */
  ghost function WithKey<T>(key: T -> string, s: seq<T>, v: string): seq<T> {
    if s == [] then [] else
      WithKey(key, s[..|s| - 1], v) + if key(s[|s| - 1]) == v then [s[|s| - 1]] else []
  }

  lemma WithKeyAppends<T>(key: T -> string, s: seq<T>, x: T, v: string)
    ensures WithKey(key, s + [x], v) == WithKey(key, s, v) + if key(x) == v then [x] else []
  {
    assert (s + [x])[..|s|] == s;
  }

  lemma {:induction false} InsertIsStable<T>(key: T -> string, s: seq<T>, x: T, v: string)
    ensures WithKey(key, InsertBy(key, s, x), v) == WithKey(key, s + [x], v)
  {
    if s != [] && !Leq(key(s[|s| - 1]), key(x)) {
      var init, last := s[..|s| - 1], s[|s| - 1];
      InsertIsStable(key, init, x, v);
      WithKeyAppends(key, InsertBy(key, init, x), last, v);
      WithKeyAppends(key, init, x, v);
      WithKeyAppends(key, s, x, v);
      LeqTotal(key(x), key(x));
    }
  }

  /** Elements with equal keys keep their order. */
  lemma {:induction false} SortIsStable<T>(key: T -> string, s: seq<T>, v: string)
    ensures WithKey(key, SortBy(key, s), v) == WithKey(key, s, v)
  {
    if s != [] {
      var init, last := s[..|s| - 1], s[|s| - 1];
      SortIsStable(key, init, v);
      InsertIsStable(key, SortBy(key, init), last, v);
      WithKeyAppends(key, SortBy(key, init), last, v);
    }
  }

  lemma {:induction false} WithKeyHolds<T>(key: T -> string, s: seq<T>, v: string)
    ensures WithKey(key, s, v) != [] <==> exists i :: 0 <= i < |s| && key(s[i]) == v
  {
    if s != [] {
      WithKeyHolds(key, s[..|s| - 1], v);
    }
  }

  /** The greatest key of a sorted list is its last element's. */
  lemma LastKey<T>(key: T -> string, s: seq<T>, v: string)
    requires SortedBy(key, s) && WithKey(key, s, v) != []
    ensures s != [] && Leq(v, key(s[|s| - 1]))
  {
    WithKeyHolds(key, s, v);
    var i :| 0 <= i < |s| && key(s[i]) == v;
    LeqTotal(v, v);
    assert i < |s| - 1 ==> Leq(key(s[i]), key(s[|s| - 1]));
  }

  lemma LastEndsKey<T>(key: T -> string, s: seq<T>)
    requires s != []
    ensures var own := WithKey(key, s, key(s[|s| - 1])); own != [] && own[|own| - 1] == s[|s| - 1]
  {
  }

  ghost predicate SameByKey<T>(key: T -> string, a: seq<T>, b: seq<T>) {
    forall v: string :: WithKey(key, a, v) == WithKey(key, b, v)
  }

  lemma ShortenedByKey<T>(key: T -> string, a: seq<T>, b: seq<T>)
    requires a != [] && b != [] && a[|a| - 1] == b[|b| - 1] && SameByKey(key, a, b)
    ensures SameByKey(key, a[..|a| - 1], b[..|b| - 1])
  {
    var last, p, q := a[|a| - 1], a[..|a| - 1], b[..|b| - 1];
    forall v: string
      ensures WithKey(key, p, v) == WithKey(key, q, v)
    {
      assert WithKey(key, a, v) == WithKey(key, b, v);
      var x, y := WithKey(key, p, v), WithKey(key, q, v);
      assert key(last) == v ==> x == (x + [last])[..|x + [last]| - 1] && y == (y + [last])[..|y + [last]| - 1];
      assert x + [] == x && y + [] == y;
    }
  }

  /** Two sorted lists that hold the same elements, in the same order among equal keys, are one list. */
  lemma {:induction false} StableIsUnique<T>(key: T -> string, a: seq<T>, b: seq<T>)
    requires SortedBy(key, a) && SortedBy(key, b) && SameByKey(key, a, b)
    ensures a == b
    decreases |a|
  {
    hide WithKey, Leq;
    if a == [] || b == [] {
      EmptyByKey(key, a, b);
    } else {
      var v, w := key(a[|a| - 1]), key(b[|b| - 1]);
      LastEndsKey(key, a);
      LastEndsKey(key, b);
      LastKey(key, b, v);
      LastKey(key, a, w);
      LeqAntisymmetric(v, w);
      ShortenedByKey(key, a, b);
      StableIsUnique(key, a[..|a| - 1], b[..|b| - 1]);
      assert a == a[..|a| - 1] + [a[|a| - 1]] && b == b[..|b| - 1] + [b[|b| - 1]];
    }
  }

  lemma EmptyByKey<T>(key: T -> string, a: seq<T>, b: seq<T>)
    requires SameByKey(key, a, b) && (a == [] || b == [])
    ensures a == b
  {
    if a != [] {
      LastEndsKey(key, a);
    }
    if b != [] {
      LastEndsKey(key, b);
    }
  }

  /** SortBy is the stable sort: the one sorted list that keeps equal keys in their order. */
  lemma SortByIsTheStableSort<T>(key: T -> string, s: seq<T>, sorted: seq<T>)
    ensures SortedBy(key, sorted) && SameByKey(key, sorted, s) <==> sorted == SortBy(key, s)
  {
    hide WithKey, SortBy, SortedBy;
    SortBySorts(key, s);
    forall v: string
      ensures WithKey(key, SortBy(key, s), v) == WithKey(key, s, v)
    {
      SortIsStable(key, s, v);
    }
    if SortedBy(key, sorted) && SameByKey(key, sorted, s) {
      StableIsUnique(key, sorted, SortBy(key, s));
    }
  }

  // ---- Sorting strings ----------------------------------------------------

  function Itself(x: string): string {
    x
  }

  function Sorted(s: seq<string>): seq<string> {
    SortBy(Itself, s)
  }

  lemma LastIsGreatest(s: seq<string>, x: string)
    requires SortedBy(Itself, s) && x in s
    ensures Leq(x, s[|s| - 1])
  {
    var i :| 0 <= i < |s| && s[i] == x;
    LeqTotal(x, x);
    assert i < |s| - 1 ==> Leq(Itself(s[i]), Itself(s[|s| - 1]));
  }

  lemma WithoutLast(s: seq<string>)
    requires s != []
    ensures multiset(s[..|s| - 1]) == multiset(s) - multiset{s[|s| - 1]}
    ensures SortedBy(Itself, s) ==> SortedBy(Itself, s[..|s| - 1])
  {
    assert s == s[..|s| - 1] + [s[|s| - 1]];
  }

  lemma SameLast(a: seq<string>, b: seq<string>)
    requires SortedBy(Itself, a) && SortedBy(Itself, b) && multiset(a) == multiset(b) && a != []
    ensures b != [] && a[|a| - 1] == b[|b| - 1]
  {
    hide SortedBy, Leq;
    assert a[|a| - 1] in multiset(b);
    assert b != [] && b[|b| - 1] in multiset(a);
    LastIsGreatest(b, a[|a| - 1]);
    LastIsGreatest(a, b[|b| - 1]);
    LeqAntisymmetric(a[|a| - 1], b[|b| - 1]);
  }

  lemma Rejoins(a: seq<string>, b: seq<string>)
    requires a != [] && b != [] && a[|a| - 1] == b[|b| - 1] && a[..|a| - 1] == b[..|b| - 1]
    ensures a == b
  {
    assert a == a[..|a| - 1] + [a[|a| - 1]] && b == b[..|b| - 1] + [b[|b| - 1]];
  }

  /** Two sorted lists of the same strings are one list. */
  lemma {:induction false} SortedIsUnique(a: seq<string>, b: seq<string>)
    requires SortedBy(Itself, a) && SortedBy(Itself, b) && multiset(a) == multiset(b)
    ensures a == b
  {
    hide SortedBy;
    if a == [] {
      assert |multiset(b)| == 0;
    } else {
      SameLast(a, b);
      WithoutLast(a);
      WithoutLast(b);
      SortedIsUnique(a[..|a| - 1], b[..|b| - 1]);
      Rejoins(a, b);
    }
  }

  /** Sorting forgets the order its strings came in. */
  lemma SortForgetsOrder(a: seq<string>, b: seq<string>)
    requires multiset(a) == multiset(b)
    ensures Sorted(a) == Sorted(b)
  {
    SortBySorts(Itself, a);
    SortBySorts(Itself, b);
    SortedIsUnique(Sorted(a), Sorted(b));
  }
}
