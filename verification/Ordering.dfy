/** Lexicographic order, and the stable sort by a key that the governance validator relies on throughout. */
module Ordering {
  import opened Wrappers

  ghost predicate IsTotalOrder<K(!new)>(leq: (K, K) -> bool) {
    && (forall a: K :: leq(a, a))
    && (forall a: K, b: K :: leq(a, b) || leq(b, a))
    && (forall a: K, b: K :: leq(a, b) && leq(b, a) ==> a == b)
    && (forall a: K, b: K, c: K :: leq(a, b) && leq(b, c) ==> leq(a, c))
  }

  /** Comparison of sequences from the front, a proper prefix being smaller. */
  predicate LexLeq<K(==)>(leq: (K, K) -> bool, a: seq<K>, b: seq<K>) {
    if a == [] then true
    else if b == [] then false
    else if a[0] == b[0] then LexLeq(leq, a[1..], b[1..])
    else leq(a[0], b[0])
  }

  lemma {:induction false} LexIsTotal<K(!new)>(leq: (K, K) -> bool, a: seq<K>, b: seq<K>)
    requires IsTotalOrder(leq)
    ensures LexLeq(leq, a, b) || LexLeq(leq, b, a)
    ensures LexLeq(leq, a, b) && LexLeq(leq, b, a) ==> a == b
  {
    if a != [] && b != [] {
      if a[0] == b[0] {
        LexIsTotal(leq, a[1..], b[1..]);
        assert a == [a[0]] + a[1..] && b == [b[0]] + b[1..];
      } else {
        assert leq(a[0], b[0]) || leq(b[0], a[0]);
      }
    }
  }

  lemma {:induction false} LexIsTransitive<K(!new)>(leq: (K, K) -> bool, a: seq<K>, b: seq<K>, c: seq<K>)
    requires IsTotalOrder(leq) && LexLeq(leq, a, b) && LexLeq(leq, b, c)
    ensures LexLeq(leq, a, c)
  {
    if a != [] && a[0] == b[0] == c[0] {
      LexIsTransitive(leq, a[1..], b[1..], c[1..]);
    }
  }

  lemma {:induction false} LexIsReflexive<K>(leq: (K, K) -> bool, a: seq<K>)
    ensures LexLeq(leq, a, a)
  {
    if a != [] {
      LexIsReflexive(leq, a[1..]);
    }
  }

  /** One is a prefix of the other, or the elements at the first place where they differ are in order. */
  ghost predicate InDictionaryOrder<K>(leq: (K, K) -> bool, a: seq<K>, b: seq<K>) {
    a <= b || exists i :: DiffersFirstAt(a, b, i) && leq(a[i], b[i])
  }

  ghost predicate DiffersFirstAt<K>(a: seq<K>, b: seq<K>, i: int) {
    0 <= i < |a| && i < |b| && a[..i] == b[..i] && a[i] != b[i]
  }

  lemma FirstDifferenceInTails<K>(a: seq<K>, b: seq<K>, i: int)
    requires a != [] && b != [] && a[0] == b[0]
    ensures DiffersFirstAt(a[1..], b[1..], i) <==> 0 <= i && DiffersFirstAt(a, b, i + 1)
  {
    if 0 <= i < |a| - 1 && i < |b| - 1 {
      assert a[..i + 1] == [a[0]] + a[1..][..i] && b[..i + 1] == [b[0]] + b[1..][..i];
    }
  }

  /** The recursive comparison is dictionary order, whatever the order of the elements. */
  lemma {:induction false} LexByFirstDifference<K>(leq: (K, K) -> bool, a: seq<K>, b: seq<K>)
    ensures LexLeq(leq, a, b) <==> InDictionaryOrder(leq, a, b)
  {
    if a != [] && b != [] {
      if a[0] == b[0] {
        LexByFirstDifference(leq, a[1..], b[1..]);
        assert a <= b <==> a[1..] <= b[1..] by {
          assert a == [a[0]] + a[1..] && b == [b[0]] + b[1..];
        }
        if i :| DiffersFirstAt(a[1..], b[1..], i) && leq(a[1..][i], b[1..][i]) {
          FirstDifferenceInTails(a, b, i);
        }
        if i :| DiffersFirstAt(a, b, i) && leq(a[i], b[i]) {
          FirstDifferenceInTails(a, b, i - 1);
        }
      } else {
        assert a[..0] == b[..0] && DiffersFirstAt(a, b, 0);
        if i :| DiffersFirstAt(a, b, i) && leq(a[i], b[i]) {
          assert i > 0 ==> a[..i][0] == b[..i][0];
        }
      }
    }
  }

  predicate ByteLeq(a: Byte, b: Byte) {
    a <= b
  }

  /** The order of byte strings. */
  predicate BytesLeq(a: seq<Byte>, b: seq<Byte>) {
    LexLeq(ByteLeq, a, b)
  }

  function Mapped<T, U>(f: T -> U, s: seq<T>): seq<U> {
    seq(|s|, i requires 0 <= i < |s| => f(s[i]))
  }

  lemma MappedCons<T, U>(f: T -> U, head: T, tail: seq<T>)
    ensures Mapped(f, [head] + tail) == [f(head)] + Mapped(f, tail)
  {
  }

  function Insert<T, K>(key: T -> K, leq: (K, K) -> bool, x: T, s: seq<T>): seq<T> {
    if s == [] || leq(key(x), key(s[0])) then [x] + s else [s[0]] + Insert(key, leq, x, s[1..])
  }

  /** The stable sort of `s`: `x` goes in front of everything later that is not strictly smaller. */
  function SortBy<T, K>(key: T -> K, leq: (K, K) -> bool, s: seq<T>): seq<T> {
    if s == [] then [] else Insert(key, leq, s[0], SortBy(key, leq, s[1..]))
  }

  ghost predicate IsSorted<T, K>(key: T -> K, leq: (K, K) -> bool, s: seq<T>) {
    forall i, j :: 0 <= i < j < |s| ==> leq(key(s[i]), key(s[j]))
  }

  ghost predicate HasDistinctKeys<T, K>(key: T -> K, s: seq<T>) {
    forall i, j :: 0 <= i < j < |s| ==> key(s[i]) != key(s[j])
  }

  lemma {:induction false} InsertAdds<T, K>(key: T -> K, leq: (K, K) -> bool, x: T, s: seq<T>)
    ensures multiset(Insert(key, leq, x, s)) == multiset(s)[x := multiset(s)[x] + 1]
  {
    if s != [] && !leq(key(x), key(s[0])) {
      InsertAdds(key, leq, x, s[1..]);
      assert s == [s[0]] + s[1..];
    }
  }

  lemma {:induction false} SortPermutes<T, K>(key: T -> K, leq: (K, K) -> bool, s: seq<T>)
    ensures multiset(SortBy(key, leq, s)) == multiset(s)
    ensures |SortBy(key, leq, s)| == |s|
  {
    if s != [] {
      SortPermutes(key, leq, s[1..]);
      InsertAdds(key, leq, s[0], SortBy(key, leq, s[1..]));
      assert s == [s[0]] + s[1..];
    }
    assert |multiset(SortBy(key, leq, s))| == |multiset(s)|;
  }

  lemma {:induction false} InsertSorts<T, K(!new)>(key: T -> K, leq: (K, K) -> bool, x: T, s: seq<T>)
    requires IsTotalOrder(leq) && IsSorted(key, leq, s)
    ensures IsSorted(key, leq, Insert(key, leq, x, s))
  {
    if s != [] && !leq(key(x), key(s[0])) {
      var tail := Insert(key, leq, x, s[1..]);
      InsertSorts(key, leq, x, s[1..]);
      InsertAdds(key, leq, x, s[1..]);
      forall j | 0 <= j < |tail|
        ensures leq(key(s[0]), key(tail[j]))
      {
        assert tail[j] in multiset(tail);
      }
    }
  }

  lemma {:induction false} SortSorts<T, K(!new)>(key: T -> K, leq: (K, K) -> bool, s: seq<T>)
    requires IsTotalOrder(leq)
    ensures IsSorted(key, leq, SortBy(key, leq, s))
  {
    if s != [] {
      SortSorts(key, leq, s[1..]);
      InsertSorts(key, leq, s[0], SortBy(key, leq, s[1..]));
    }
  }

  lemma {:induction false} InsertMaps<T, U, K>(
      key: T -> K, uKey: U -> K, f: T -> U, leq: (K, K) -> bool, x: T, s: seq<T>)
    requires forall t: T :: uKey(f(t)) == key(t)
    ensures Mapped(f, Insert(key, leq, x, s)) == Insert(uKey, leq, f(x), Mapped(f, s))
  {
    if s != [] && !leq(key(x), key(s[0])) {
      InsertMaps(key, uKey, f, leq, x, s[1..]);
      assert Mapped(f, s)[1..] == Mapped(f, s[1..]);
    }
  }

  /** Sorting commutes with a map that leaves the keys alone. */
  lemma {:induction false} SortMaps<T(!new), U, K>(
      key: T -> K, uKey: U -> K, f: T -> U, leq: (K, K) -> bool, s: seq<T>)
    requires forall t: T :: uKey(f(t)) == key(t)
    ensures Mapped(f, SortBy(key, leq, s)) == SortBy(uKey, leq, Mapped(f, s))
  {
    if s != [] {
      SortMaps(key, uKey, f, leq, s[1..]);
      InsertMaps(key, uKey, f, leq, s[0], SortBy(key, leq, s[1..]));
      assert Mapped(f, s)[1..] == Mapped(f, s[1..]);
    }
  }

  lemma {:induction false} SortedIsFixed<T, K>(key: T -> K, leq: (K, K) -> bool, s: seq<T>)
    requires IsSorted(key, leq, s)
    ensures SortBy(key, leq, s) == s
  {
    if s != [] {
      SortedIsFixed(key, leq, s[1..]);
      assert |s| > 1 ==> leq(key(s[0]), key(s[1]));
    }
  }

  function Without<T>(s: seq<T>, p: nat): seq<T>
    requires p < |s|
  {
    s[..p] + s[p + 1..]
  }

  lemma WithoutRemoves<T>(s: seq<T>, p: nat)
    requires p < |s|
    ensures multiset(Without(s, p)) == multiset(s) - multiset{s[p]}
  {
    assert s == s[..p] + [s[p]] + s[p + 1..];
  }

  lemma SortedTails<K(!new)>(leq: (K, K) -> bool, a: seq<K>, b: seq<K>)
    requires IsTotalOrder(leq) && IsSorted(k => k, leq, a) && IsSorted(k => k, leq, b)
    requires multiset(a) == multiset(b) && a != []
    ensures b != [] && a[0] == b[0] && multiset(a[1..]) == multiset(b[1..])
  {
    assert a[0] in multiset(b);
    var p :| 0 <= p < |b| && b[p] == a[0];
    assert b[0] in multiset(a);
    var q :| 0 <= q < |a| && a[q] == b[0];
    assert leq(b[0], b[p]) && leq(a[0], a[q]);
    WithoutRemoves(a, 0);
    WithoutRemoves(b, 0);
    assert Without(a, 0) == a[1..] && Without(b, 0) == b[1..];
  }

  /** Two sorted arrangements of the same keys are the same. */
  lemma {:induction false} SortedIsUnique<K(!new)>(leq: (K, K) -> bool, a: seq<K>, b: seq<K>)
    requires IsTotalOrder(leq) && IsSorted(k => k, leq, a) && IsSorted(k => k, leq, b)
    requires multiset(a) == multiset(b)
    ensures a == b
  {
    if a == [] {
      assert |multiset(b)| == |multiset(a)|;
    } else {
      SortedTails(leq, a, b);
      SortedIsUnique(leq, a[1..], b[1..]);
      assert a == [a[0]] + a[1..] && b == [b[0]] + b[1..];
    }
  }

  lemma MappedWithout<T, U>(f: T -> U, s: seq<T>, p: nat)
    requires p < |s|
    ensures multiset(Mapped(f, s)) == multiset(Mapped(f, Without(s, p))) + multiset{f(s[p])}
  {
    WithoutRemoves(Mapped(f, s), p);
    assert Mapped(f, Without(s, p)) == Without(Mapped(f, s), p);
    assert Mapped(f, s)[p] in multiset(Mapped(f, s));
  }

  lemma {:induction false} MappedPermutation<T, U>(f: T -> U, a: seq<T>, b: seq<T>)
    requires multiset(a) == multiset(b)
    ensures multiset(Mapped(f, a)) == multiset(Mapped(f, b))
  {
    if a == [] {
      assert |multiset(b)| == |multiset(a)|;
    } else {
      assert a[0] in multiset(b);
      var p :| 0 <= p < |b| && b[p] == a[0];
      WithoutRemoves(a, 0);
      WithoutRemoves(b, p);
      MappedPermutation(f, Without(a, 0), Without(b, p));
      MappedWithout(f, a, 0);
      MappedWithout(f, b, p);
    }
  }

  lemma {:induction false} DistinctCounts<T>(s: seq<T>, x: T)
    requires forall i, j :: 0 <= i < j < |s| ==> s[i] != s[j]
    ensures multiset(s)[x] <= 1
  {
    if s != [] {
      DistinctCounts(s[1..], x);
      assert s == [s[0]] + s[1..];
      assert s[0] !in s[1..];
    }
  }

  /** Sequences of one length are permutations if one has no repetition and only elements of the other. */
  lemma DistinctInclusion<T>(a: seq<T>, b: seq<T>)
    requires |a| == |b| && (forall i, j :: 0 <= i < j < |a| ==> a[i] != a[j])
    requires forall x :: x in a ==> x in b
    ensures multiset(a) == multiset(b)
  {
    var extra := multiset(b) - multiset(a);
    forall x: T
      ensures multiset(a)[x] <= multiset(b)[x]
    {
      DistinctCounts(a, x);
      assert x in multiset(a) ==> x in a;
    }
    assert multiset(b) == multiset(a) + extra;
    assert |extra| == 0;
  }

  lemma SortedMapped<T, K>(key: T -> K, leq: (K, K) -> bool, s: seq<T>)
    requires IsSorted(key, leq, s)
    ensures IsSorted(k => k, leq, Mapped(key, s))
  {
  }

  /** Sorting forgets the order of elements whose keys are distinct, and for any elements the order of keys. */
  lemma SortOfPermutation<T, K(!new)>(key: T -> K, leq: (K, K) -> bool, a: seq<T>, b: seq<T>)
    requires IsTotalOrder(leq) && multiset(a) == multiset(b)
    ensures Mapped(key, SortBy(key, leq, a)) == Mapped(key, SortBy(key, leq, b))
    ensures HasDistinctKeys(key, a) ==> SortBy(key, leq, a) == SortBy(key, leq, b)
  {
    var sa, sb := SortBy(key, leq, a), SortBy(key, leq, b);
    SortPermutes(key, leq, a);
    SortPermutes(key, leq, b);
    SortSorts(key, leq, a);
    SortSorts(key, leq, b);
    SortedMapped(key, leq, sa);
    SortedMapped(key, leq, sb);
    MappedPermutation(key, sa, sb);
    SortedIsUnique(leq, Mapped(key, sa), Mapped(key, sb));
    assert |sa| == |Mapped(key, sa)| == |sb|;
    if HasDistinctKeys(key, a) {
      forall i | 0 <= i < |sa|
        ensures sa[i] == sb[i]
      {
        assert key(sa[i]) == Mapped(key, sa)[i] == Mapped(key, sb)[i] == key(sb[i]);
        assert sa[i] in multiset(a) && sb[i] in multiset(sb);
        assert sa[i] in a && sb[i] in a;
      }
    }
  }
}
