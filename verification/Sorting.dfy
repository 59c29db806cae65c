/**
  Orders and sorting. JavaScript's `<` on strings is lexicographic by code unit; every comparator in the modelled code is
  a lexicographic comparison of integers and strings, some of them descending. Array.prototype.sort is stable.
 */
module Sorting {

  ghost predicate StrictTotal<T(!new)>(less: (T, T) -> bool) {
    && (forall x :: !less(x, x))
    && (forall x, y, z :: less(x, y) && less(y, z) ==> less(x, z))
    && (forall x, y :: x != y ==> less(x, y) || less(y, x))
  }

  /** What a comparator must satisfy for sorting to be meaningful; incomparable items count as equal. */
  ghost predicate WeakOrder<T(!new)>(less: (T, T) -> bool) {
    && (forall x :: !less(x, x))
    && (forall x, y, z :: less(x, y) && less(y, z) ==> less(x, z))
    && (forall x, y, z :: !less(x, y) && !less(y, z) ==> !less(x, z))
  }

  predicate LexLess<T(==)>(less: (T, T) -> bool, a: seq<T>, b: seq<T>) {
    if a == [] then b != []
    else if b == [] then false
    else if a[0] == b[0] then LexLess(less, a[1..], b[1..])
    else less(a[0], b[0])
  }

  lemma {:induction false} LexIrreflexive<T(!new)>(less: (T, T) -> bool, a: seq<T>)
    ensures !LexLess(less, a, a)
  {
    if a != [] {
      LexIrreflexive(less, a[1..]);
    }
  }

  lemma {:induction false} LexTransitive<T(!new)>(less: (T, T) -> bool, a: seq<T>, b: seq<T>, c: seq<T>)
    requires StrictTotal(less) && LexLess(less, a, b) && LexLess(less, b, c)
    ensures LexLess(less, a, c)
  {
    if a != [] && a[0] == b[0] && b[0] == c[0] {
      LexTransitive(less, a[1..], b[1..], c[1..]);
    }
  }

  lemma {:induction false} LexConnected<T(!new)>(less: (T, T) -> bool, a: seq<T>, b: seq<T>)
    requires StrictTotal(less) && a != b
    ensures LexLess(less, a, b) || LexLess(less, b, a)
  {
    if a != [] && b != [] && a[0] == b[0] {
      assert a == [a[0]] + a[1..] && b == [b[0]] + b[1..];
      LexConnected(less, a[1..], b[1..]);
    }
  }

  /** The lexicographic order over a strict total order is one too. */
  lemma LexStrictTotal<T(!new)>(less: (T, T) -> bool)
    requires StrictTotal(less)
    ensures StrictTotal((a: seq<T>, b: seq<T>) => LexLess(less, a, b))
  {
    forall a: seq<T>
      ensures !LexLess(less, a, a)
    {
      LexIrreflexive(less, a);
    }
    forall a: seq<T>, b, c | LexLess(less, a, b) && LexLess(less, b, c)
      ensures LexLess(less, a, c)
    {
      LexTransitive(less, a, b, c);
    }
    forall a: seq<T>, b | a != b
      ensures LexLess(less, a, b) || LexLess(less, b, a)
    {
      LexConnected(less, a, b);
    }
  }

  /** The first difference is at n, in favour of a, or a ends there. */
  ghost predicate LexAt<T>(less: (T, T) -> bool, a: seq<T>, b: seq<T>, n: nat) {
    n <= |a| && n < |b| && a[..n] == b[..n] && (n == |a| || (a[n] != b[n] && less(a[n], b[n])))
  }

  /** The lexicographic order is decided at the first difference; a proper prefix comes first. */
  lemma {:induction false} LexDecided<T>(less: (T, T) -> bool, a: seq<T>, b: seq<T>)
    ensures LexLess(less, a, b) <==> exists n: nat :: LexAt(less, a, b, n)
  {
    if a == [] || b == [] {
      assert b != [] ==> LexAt(less, a, b, 0);
    } else if a[0] == b[0] {
      LexDecided(less, a[1..], b[1..]);
      if n: nat :| LexAt(less, a[1..], b[1..], n) {
        assert a[..n + 1] == [a[0]] + a[1..][..n] && b[..n + 1] == [b[0]] + b[1..][..n];
        assert LexAt(less, a, b, n + 1);
      }
      if n: nat :| LexAt(less, a, b, n) {
        assert n > 0;
        assert a[1..][..n - 1] == a[..n][1..] && b[1..][..n - 1] == b[..n][1..];
        assert LexAt(less, a[1..], b[1..], n - 1);
      }
    } else {
      assert less(a[0], b[0]) ==> LexAt(less, a, b, 0);
      if n: nat :| LexAt(less, a, b, n) {
        assert n > 0 ==> a[..n][0] == b[..n][0];
      }
    }
  }

  predicate CharLess(a: char, b: char) {
    a < b
  }

  predicate StringLess(a: string, b: string) {
    LexLess(CharLess, a, b)
  }

  lemma StringStrictTotal()
    ensures StrictTotal(StringLess)
  {
    LexStrictTotal(CharLess);
    var lex := (a: string, b: string) => LexLess(CharLess, a, b);
    assert forall a, b :: StringLess(a, b) == lex(a, b);
  }

  /** a comes before b: by code unit at their first difference, or as a proper prefix. */
  ghost predicate Ascends(a: string, b: string) {
    exists n: nat :: n <= |a| && n < |b| && a[..n] == b[..n] && (n == |a| || a[n] < b[n])
  }

  lemma StringsAscend(a: string, b: string)
    ensures StringLess(a, b) <==> Ascends(a, b)
  {
    LexDecided(CharLess, a, b);
    if n: nat :| n <= |a| && n < |b| && a[..n] == b[..n] && (n == |a| || a[n] < b[n]) {
      assert LexAt(CharLess, a, b, n);
    }
  }

  /** A shared front does not matter. */
  lemma {:induction false} SharedFront(front: string, a: string, b: string)
    ensures StringLess(front + a, front + b) <==> StringLess(a, b)
  {
    if front == "" {
      assert front + a == a && front + b == b;
    } else {
      assert (front + a)[1..] == front[1..] + a && (front + b)[1..] == front[1..] + b;
      SharedFront(front[1..], a, b);
    }
  }

  /** Fronts of one length that differ decide. */
  lemma {:induction false} DecidedInFront(a: string, x: string, b: string, y: string)
    requires |a| == |b| && a != b
    ensures StringLess(a + x, b + y) <==> StringLess(a, b)
  {
    assert a[0] == (a + x)[0] && b[0] == (b + y)[0];
    if a[0] == b[0] {
      assert (a + x)[1..] == a[1..] + x && (b + y)[1..] == b[1..] + y;
      assert a == [a[0]] + a[1..] && b == [b[0]] + b[1..];
      DecidedInFront(a[1..], x, b[1..], y);
    }
  }

  /** The first component in which a and b differ ascends. */
  ghost predicate TupleAscends(a: seq<string>, b: seq<string>) {
    exists k: nat :: k < |a| && k < |b| && a[..k] == b[..k] && Ascends(a[k], b[k])
  }

  /** One component of a comparator: integers, or strings compared by code unit, ascending or descending. */
  datatype Atom = Num(n: int) | Text(t: string) | Falling(t: string)

  predicate AtomLess(a: Atom, b: Atom) {
    match (a, b)
    case (Num(m), Num(n)) => m < n
    case (Text(s), Text(t)) => StringLess(s, t)
    case (Falling(s), Falling(t)) => StringLess(t, s)
    case (Num(_), _) => true
    case (_, Num(_)) => false
    case (Text(_), _) => true
    case (Falling(_), Text(_)) => false
  }

  lemma AtomStrictTotal()
    ensures StrictTotal(AtomLess)
  {
    StringStrictTotal();
  }

  predicate KeyLess(a: seq<Atom>, b: seq<Atom>) {
    LexLess(AtomLess, a, b)
  }

  lemma KeyStrictTotal()
    ensures StrictTotal(KeyLess)
  {
    AtomStrictTotal();
    LexStrictTotal(AtomLess);
    var lex := (a: seq<Atom>, b: seq<Atom>) => LexLess(AtomLess, a, b);
    assert forall a, b :: KeyLess(a, b) == lex(a, b);
  }

  /** A comparator that compares keys in a strict total order. */
  ghost predicate ComparesKeys<T(!new), K(!new)>(less: (T, T) -> bool, keyLess: (K, K) -> bool, key: T -> K) {
    StrictTotal(keyLess) && forall x, y :: less(x, y) <==> keyLess(key(x), key(y))
  }

  lemma KeysGiveWeakOrder<T(!new), K(!new)>(less: (T, T) -> bool, keyLess: (K, K) -> bool, key: T -> K)
    requires ComparesKeys(less, keyLess, key)
    ensures WeakOrder(less)
  {
    forall x, y, z | !less(x, y) && !less(y, z)
      ensures !less(x, z)
    {
      assert key(x) == key(y) || keyLess(key(y), key(x));
      assert key(y) == key(z) || keyLess(key(z), key(y));
    }
  }

  function Insert<T>(less: (T, T) -> bool, s: seq<T>, x: T): seq<T> {
    if s == [] || !less(x, s[|s| - 1]) then s + [x]
    else Insert(less, s[..|s| - 1], x) + [s[|s| - 1]]
  }

  /** Stable sort. */
  function SortBy<T>(less: (T, T) -> bool, s: seq<T>): seq<T> {
    if s == [] then [] else Insert(less, SortBy(less, s[..|s| - 1]), s[|s| - 1])
  }

  ghost predicate Sorted<T(!new)>(less: (T, T) -> bool, s: seq<T>) {
    forall i, j :: 0 <= i < j < |s| ==> !less(s[j], s[i])
  }

  ghost predicate StrictlySorted<T(!new)>(less: (T, T) -> bool, s: seq<T>) {
    forall i, j :: 0 <= i < j < |s| ==> less(s[i], s[j])
  }

  lemma AppendSorted<T(!new)>(less: (T, T) -> bool, s: seq<T>, last: T)
    requires Sorted(less, s) && forall x :: x in s ==> !less(last, x)
    ensures Sorted(less, s + [last])
  {
  }

  lemma {:induction false} InsertAdds<T(!new)>(less: (T, T) -> bool, s: seq<T>, x: T)
    ensures multiset(Insert(less, s, x)) == multiset(s) + multiset{x}
    ensures forall y :: y in Insert(less, s, x) <==> y in s || y == x
  {
    if s != [] && less(x, s[|s| - 1]) {
      assert s == s[..|s| - 1] + [s[|s| - 1]];
      InsertAdds(less, s[..|s| - 1], x);
    }
  }

  lemma {:induction false} InsertSorts<T(!new)>(less: (T, T) -> bool, s: seq<T>, x: T)
    requires WeakOrder(less) && Sorted(less, s)
    ensures Sorted(less, Insert(less, s, x))
  {
    if s == [] {
    } else if less(x, s[|s| - 1]) {
      var front, last := s[..|s| - 1], s[|s| - 1];
      InsertSorts(less, front, x);
      InsertAdds(less, front, x);
      assert !less(last, x);
      AppendSorted(less, Insert(less, front, x), last);
    } else {
      forall y | y in s
        ensures !less(x, y)
      {
        assert y == s[|s| - 1] || !less(s[|s| - 1], y);
      }
      AppendSorted(less, s, x);
    }
  }

  lemma {:induction false} SortSorts<T(!new)>(less: (T, T) -> bool, s: seq<T>)
    requires WeakOrder(less)
    ensures Sorted(less, SortBy(less, s)) && multiset(SortBy(less, s)) == multiset(s)
  {
    if s != [] {
      var front, last := s[..|s| - 1], s[|s| - 1];
      assert s == front + [last];
      SortSorts(less, front);
      InsertSorts(less, SortBy(less, front), last);
      InsertAdds(less, SortBy(less, front), last);
    }
  }

  /** The keys of distinct positions differ. */
  ghost predicate DistinctKeys<T, K>(key: T -> K, s: seq<T>) {
    forall i, j :: 0 <= i < j < |s| ==> key(s[i]) != key(s[j])
  }

  lemma AppendDistinctKey<T, K>(key: T -> K, s: seq<T>, x: T)
    requires DistinctKeys(key, s) && forall y :: y in s ==> key(y) != key(x)
    ensures DistinctKeys(key, s + [x])
  {
    assert forall i :: 0 <= i < |s| ==> s[i] in s;
  }

  lemma SplitDistinctKeys<T, K>(key: T -> K, s: seq<T>)
    requires s != [] && DistinctKeys(key, s)
    ensures DistinctKeys(key, s[..|s| - 1]) && forall y :: y in s[..|s| - 1] ==> key(y) != key(s[|s| - 1])
  {
  }

  lemma {:induction false} InsertDistinct<T(!new), K>(less: (T, T) -> bool, key: T -> K, s: seq<T>, x: T)
    requires DistinctKeys(key, s) && forall y :: y in s ==> key(y) != key(x)
    ensures DistinctKeys(key, Insert(less, s, x))
  {
    hide DistinctKeys;
    if s != [] && less(x, s[|s| - 1]) {
      var front, last := s[..|s| - 1], s[|s| - 1];
      assert s == front + [last] && last in s;
      SplitDistinctKeys(key, s);
      InsertDistinct(less, key, front, x);
      InsertAdds(less, front, x);
      AppendDistinctKey(key, Insert(less, front, x), last);
    } else {
      AppendDistinctKey(key, s, x);
    }
  }

  lemma {:induction false} SortDistinct<T(!new), K>(less: (T, T) -> bool, key: T -> K, s: seq<T>)
    requires DistinctKeys(key, s)
    ensures DistinctKeys(key, SortBy(less, s)) && |SortBy(less, s)| == |s|
    ensures forall x :: x in SortBy(less, s) <==> x in s
  {
    if s != [] {
      var front, last := s[..|s| - 1], s[|s| - 1];
      assert s == front + [last];
      SortDistinct(less, key, front);
      InsertDistinct(less, key, SortBy(less, front), last);
      InsertAdds(less, SortBy(less, front), last);
      assert |multiset(Insert(less, SortBy(less, front), last))| == |front| + 1;
    }
  }

  /** Sorting items with distinct keys leaves a strictly sorted sequence of the same items. */
  lemma SortStrictly<T(!new), K(!new)>(less: (T, T) -> bool, keyLess: (K, K) -> bool, key: T -> K, s: seq<T>)
    requires ComparesKeys(less, keyLess, key) && DistinctKeys(key, s)
    ensures StrictlySorted(less, SortBy(less, s)) && multiset(SortBy(less, s)) == multiset(s)
    ensures |SortBy(less, s)| == |s| && forall x :: x in SortBy(less, s) <==> x in s
  {
    KeysGiveWeakOrder(less, keyLess, key);
    SortSorts(less, s);
    SortDistinct(less, key, s);
    var r := SortBy(less, s);
    forall i, j | 0 <= i < j < |r|
      ensures less(r[i], r[j])
    {
      assert key(r[i]) != key(r[j]) && !less(r[j], r[i]);
    }
  }

  /** A strictly sorted sequence is determined by its elements. */
  lemma {:induction false} SortedUnique<T(!new)>(less: (T, T) -> bool, a: seq<T>, b: seq<T>)
    requires WeakOrder(less) && StrictlySorted(less, a) && StrictlySorted(less, b)
    requires forall x :: x in a <==> x in b
    ensures a == b
    decreases |a|
  {
    if a == [] {
      assert forall k :: 0 <= k < |b| ==> b[k] in a;
    } else {
      assert a[0] in b && b != [];
      assert b[0] in a;
      var i :| 0 <= i < |b| && b[i] == a[0];
      var j :| 0 <= j < |a| && a[j] == b[0];
      var u, v := a[0], b[0];
      assert i == 0 || less(v, u);
      assert j == 0 || less(u, v);
      assert !(less(u, v) && less(v, u));
      forall x
        ensures x in a[1..] <==> x in b[1..]
      {
        assert x in a <==> x == a[0] || x in a[1..];
        assert x in b <==> x == b[0] || x in b[1..];
        assert a[0] !in a[1..] && b[0] !in b[1..];
      }
      SortedUnique(less, a[1..], b[1..]);
      assert a == [a[0]] + a[1..] && b == [b[0]] + b[1..];
    }
  }

  /** Two listings of the same items, with distinct keys, sort to the same sequence. */
  lemma SortIgnoresOrder<T(!new), K(!new)>(less: (T, T) -> bool, keyLess: (K, K) -> bool, key: T -> K, s: seq<T>,
      t: seq<T>)
    requires ComparesKeys(less, keyLess, key) && DistinctKeys(key, s) && DistinctKeys(key, t)
    requires forall x :: x in s <==> x in t
    ensures SortBy(less, s) == SortBy(less, t)
  {
    SortStrictly(less, keyLess, key, s);
    SortStrictly(less, keyLess, key, t);
    KeysGiveWeakOrder(less, keyLess, key);
    SortedUnique(less, SortBy(less, s), SortBy(less, t));
  }

  /** Nothing in a sorted sequence precedes its head. */
  lemma HeadLeast<T(!new)>(less: (T, T) -> bool, s: seq<T>, x: T)
    requires StrictTotal(less) && Sorted(less, s) && x in s
    ensures !less(x, s[0]) && Sorted(less, s[1..])
  {
    var i :| 0 <= i < |s| && s[i] == x;
    assert i == 0 || !less(s[i], s[0]);
  }

  lemma NeitherPrecedes<T(!new)>(less: (T, T) -> bool, x: T, y: T)
    requires StrictTotal(less) && !less(x, y) && !less(y, x)
    ensures x == y
  {
  }

  lemma SplitHead<T>(s: seq<T>)
    requires s != []
    ensures s[0] in multiset(s) && multiset(s[1..]) == multiset(s) - multiset{s[0]}
  {
    assert s == [s[0]] + s[1..];
  }

  /** A sorted sequence is determined by its multiset when incomparable items are equal. */
  lemma {:induction false} SortedPermutationUnique<T(!new)>(less: (T, T) -> bool, a: seq<T>, b: seq<T>)
    requires StrictTotal(less) && Sorted(less, a) && Sorted(less, b) && multiset(a) == multiset(b)
    ensures a == b
    decreases |a|
  {
    hide StrictTotal, Sorted;
    assert |multiset(a)| == |a| && |multiset(b)| == |b|;
    if a != [] {
      SplitHead(a);
      SplitHead(b);
      HeadLeast(less, a, b[0]);
      HeadLeast(less, b, a[0]);
      NeitherPrecedes(less, a[0], b[0]);
      SortedPermutationUnique(less, a[1..], b[1..]);
      assert a == [a[0]] + a[1..] && b == [b[0]] + b[1..];
    }
  }

  /** Sorting forgets the order of its input. */
  lemma SortPermutation<T(!new)>(less: (T, T) -> bool, s: seq<T>, t: seq<T>)
    requires StrictTotal(less) && multiset(s) == multiset(t)
    ensures SortBy(less, s) == SortBy(less, t)
  {
    SortSorts(less, s);
    SortSorts(less, t);
    SortedPermutationUnique(less, SortBy(less, s), SortBy(less, t));
  }
}
