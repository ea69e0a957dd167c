/**
 * Ordering of taxon names and pixel ids. Go's `slices.Sort` (golang.org/x/exp)
 * is an external library; it is modelled by an insertion sort whose contract
 * is the library's: the result is ordered and a permutation of the input.
 */
module Sorting {

  /** An irreflexive, transitive and total relation. */
  ghost predicate StrictTotalOrder<T(!new)>(lt: (T, T) -> bool) {
    && (forall a :: !lt(a, a))
    && (forall a, b, c :: lt(a, b) && lt(b, c) ==> lt(a, c))
    && (forall a, b :: a != b ==> lt(a, b) || lt(b, a))
  }

  /** Non-decreasing: no later element comes before an earlier one. */
  ghost predicate Sorted<T>(s: seq<T>, lt: (T, T) -> bool) {
    forall i, j :: 0 <= i < j < |s| ==> !lt(s[j], s[i])
  }

  /** Strictly increasing, hence also free of duplicates. */
  ghost predicate Increasing<T>(s: seq<T>, lt: (T, T) -> bool) {
    forall i, j :: 0 <= i < j < |s| ==> lt(s[i], s[j])
  }

  /** Go's `<` on strings: lexicographic order (byte order of UTF-8 is code-point order). */
  predicate Before(a: string, b: string) {
    if a == "" then b != ""
    else b != "" && (a[0] < b[0] || (a[0] == b[0] && Before(a[1..], b[1..])))
  }

  lemma {:induction false} BeforeIrreflexive(a: string)
    ensures !Before(a, a)
  {
    if a != "" { BeforeIrreflexive(a[1..]); }
  }

  lemma {:induction false} BeforeTransitive(a: string, b: string, c: string)
    requires Before(a, b) && Before(b, c)
    ensures Before(a, c)
  {
    if a != "" && a[0] == b[0] && b[0] == c[0] {
      BeforeTransitive(a[1..], b[1..], c[1..]);
    }
  }

  lemma {:induction false} BeforeTotal(a: string, b: string)
    requires a != b
    ensures Before(a, b) || Before(b, a)
  {
    if a != "" && b != "" && a[0] == b[0] {
      assert a[1..] != b[1..];
      BeforeTotal(a[1..], b[1..]);
    }
  }

  /** Lexicographic order on names is a strict total order. */
  lemma BeforeOrder()
    ensures StrictTotalOrder(Before)
  {
    forall a ensures !Before(a, a) { BeforeIrreflexive(a); }
    forall a, b, c | Before(a, b) && Before(b, c) ensures Before(a, c) {
      BeforeTransitive(a, b, c);
    }
    forall a, b | a != b ensures Before(a, b) || Before(b, a) { BeforeTotal(a, b); }
  }

  /** Every non-empty finite set has a least element. */
  lemma LeastExists<T(!new)>(xs: set<T>, lt: (T, T) -> bool)
    requires StrictTotalOrder(lt) && xs != {}
    ensures exists m :: m in xs && forall x :: x in xs && x != m ==> lt(m, x)
  {
    var m := Least(xs, lt);
  }

  /** The least element of a non-empty finite set, by induction on the set. */
  lemma {:induction false} Least<T(!new)>(xs: set<T>, lt: (T, T) -> bool) returns (m: T)
    requires StrictTotalOrder(lt) && xs != {}
    ensures m in xs && forall x :: x in xs && x != m ==> lt(m, x)
    decreases xs
  {
    var y :| y in xs;
    if xs == {y} {
      m := y;
    } else {
      var ys := xs - {y};
      var k := Least(ys, lt);
      assert ys + {y} == xs;
      m := LeastOfAdded(ys, k, y, lt);
    }
  }

  /** Adding `y` to a set whose least element is `k` leaves `k` or `y` least. */
  lemma LeastOfAdded<T(!new)>(ys: set<T>, k: T, y: T, lt: (T, T) -> bool) returns (m: T)
    requires StrictTotalOrder(lt) && k in ys && y !in ys
    requires forall x :: x in ys && x != k ==> lt(k, x)
    ensures m in ys + {y} && forall x :: x in ys + {y} && x != m ==> lt(m, x)
  {
    if lt(k, y) {
      m := k;
    } else {
      m := y;
      forall x | x in ys + {y} && x != y ensures lt(y, x) {
        if x != k { assert lt(k, x); }
      }
    }
  }

  /** The elements of a finite set in increasing order. */
  ghost function Ordered<T(!new)>(xs: set<T>, lt: (T, T) -> bool): (r: seq<T>)
    requires StrictTotalOrder(lt)
    ensures Increasing(r, lt)
    ensures forall x :: x in r <==> x in xs
    decreases xs
  {
    if xs == {} then []
    else
      LeastExists(xs, lt);
      var m :| m in xs && forall x :: x in xs && x != m ==> lt(m, x);
      [m] + Ordered(xs - {m}, lt)
  }

  /** Two increasing sequences with the same elements are equal. */
  lemma {:induction false} IncreasingUnique<T(!new)>(a: seq<T>, b: seq<T>, lt: (T, T) -> bool)
    requires StrictTotalOrder(lt)
    requires Increasing(a, lt) && Increasing(b, lt)
    requires forall x :: x in a <==> x in b
    ensures a == b
    decreases |a|
  {
    if a != [] {
      assert b != [] by { assert a[0] in b; }
      assert a[0] == b[0] by {
        if a[0] != b[0] {
          FirstIsLeast(a, b[0], lt);
          FirstIsLeast(b, a[0], lt);
        }
      }
      forall x ensures x in a[1..] <==> x in b[1..] {
        TailMembers(a, x, lt);
        TailMembers(b, x, lt);
      }
      IncreasingUnique(a[1..], b[1..], lt);
      assert a == [a[0]] + a[1..] && b == [b[0]] + b[1..];
    } else {
      HeadIn(b);
    }
  }

  lemma HeadIn<T>(b: seq<T>)
    ensures b != [] ==> b[0] in b
  {
  }

  lemma FirstIsLeast<T(!new)>(a: seq<T>, x: T, lt: (T, T) -> bool)
    requires Increasing(a, lt) && x in a && x != a[0]
    ensures lt(a[0], x)
  {
  }

  /** In an increasing sequence, the tail holds exactly the elements other than the head. */
  lemma TailMembers<T(!new)>(a: seq<T>, x: T, lt: (T, T) -> bool)
    requires StrictTotalOrder(lt) && Increasing(a, lt) && a != []
    ensures x in a[1..] <==> x in a && x != a[0]
  {
    if x in a[1..] {
      var i :| 1 <= i < |a| && a[i] == x;
      assert lt(a[0], a[i]);
    }
    if x in a && x != a[0] {
      assert a == [a[0]] + a[1..];
    }
  }

  /** An ordered sequence without duplicates is increasing. */
  lemma SortedDistinctIncreasing<T(!new)>(s: seq<T>, lt: (T, T) -> bool)
    requires StrictTotalOrder(lt) && Sorted(s, lt)
    requires forall i, j :: 0 <= i < j < |s| ==> s[i] != s[j]
    ensures Increasing(s, lt)
  {
  }

  /** A sorted sequence holding each member of `xs` once is `Ordered(xs, lt)`. */
  lemma SortedOnceIsOrdered<T(!new)>(s: seq<T>, xs: set<T>, lt: (T, T) -> bool)
    requires StrictTotalOrder(lt) && Sorted(s, lt)
    requires forall x :: multiset(s)[x] <= 1
    requires forall x :: x in s <==> x in xs
    ensures s == Ordered(xs, lt)
  {
    forall i, j | 0 <= i < j < |s| ensures s[i] != s[j] {
      if s[i] == s[j] {
        RepeatCounts(s, i, j);
      }
    }
    SortedDistinctIncreasing(s, lt);
    IncreasingUnique(s, Ordered(xs, lt), lt);
  }

  /** An element at two positions occurs at least twice. */
  lemma RepeatCounts<T>(s: seq<T>, i: nat, j: nat)
    requires i < j < |s| && s[i] == s[j]
    ensures multiset(s)[s[i]] >= 2
  {
    assert s == s[..j] + [s[j]] + s[j + 1..];
    assert s[i] in s[..j];
  }

  /** Inserting `x` after the elements it does not come before keeps a sequence sorted. */
  lemma InsertSorted<T(!new)>(s: seq<T>, j: nat, x: T, lt: (T, T) -> bool)
    requires StrictTotalOrder(lt) && Sorted(s, lt) && j <= |s|
    requires forall k :: 0 <= k < j ==> !lt(x, s[k])
    requires j < |s| ==> !lt(s[j], x)
    ensures Sorted(s[..j] + [x] + s[j..], lt)
  {
    var r := s[..j] + [x] + s[j..];
    forall k | j <= k < |s| ensures !lt(s[k], x) {
      if k > j { assert !lt(s[k], s[j]); }
    }
    forall p, q | 0 <= p < q < |r| ensures !lt(r[q], r[p]) {
      if q < j || p > j {
      } else if p == j {
        assert r[q] == s[q - 1];
      } else if q == j {
        assert r[p] == s[p];
      } else {
        assert r[p] == s[p] && r[q] == s[q - 1];
      }
    }
  }

  /** `slices.Sort`, as an insertion sort into a fresh sequence. */
  method Sort<T(==,!new)>(a: seq<T>, lt: (T, T) -> bool) returns (s: seq<T>)
    requires StrictTotalOrder(lt)
    ensures Sorted(s, lt)
    ensures multiset(s) == multiset(a)
  {
    s := [];
    for i := 0 to |a|
      invariant Sorted(s, lt)
      invariant multiset(s) == multiset(a[..i])
    {
      var x := a[i];
      var j := 0;
      while j < |s| && !lt(x, s[j])
        invariant 0 <= j <= |s|
        invariant forall k :: 0 <= k < j ==> !lt(x, s[k])
      {
        j := j + 1;
      }
      InsertSorted(s, j, x, lt);
      assert a[..i + 1] == a[..i] + [x];
      assert s == s[..j] + s[j..];
      s := s[..j] + [x] + s[j..];
    }
    assert a[..|a|] == a;
  }
}
