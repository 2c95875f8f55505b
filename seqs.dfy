/** Sequence facts the SQL aggregates rest on: distinct values (`DISTINCT`, `GROUP BY` keys),
    ordering by a measure (`ORDER BY ... DESC`), sums over a permutation, and the fact that
    counting each distinct key once accounts for every element once. */
module Seqs {

  predicate NoDup<T(==)>(s: seq<T>) {
    forall i, j :: 0 <= i < j < |s| ==> s[i] != s[j]
  }

  /** The distinct elements of `xs`, each at its first occurrence. */
  function Dedup<T(==)>(xs: seq<T>): (r: seq<T>)
    ensures NoDup(r)
    ensures forall i :: 0 <= i < |r| ==> r[i] in xs
    ensures forall i :: 0 <= i < |xs| ==> xs[i] in r
  {
    if xs == [] then []
    else
      var init := Dedup(xs[..|xs| - 1]);
      var x := xs[|xs| - 1];
      if x in init then init else init + [x]
  }

  lemma {:induction false} NoDupSize<T>(s: seq<T>)
    requires NoDup(s)
    ensures |set x | x in s| == |s|
  {
    if s != [] {
      var init := s[..|s| - 1];
      NoDupSize(init);
      assert (set x | x in s) == (set x | x in init) + {s[|s| - 1]};
      assert s[|s| - 1] !in init;
    }
  }

  /** A sequence has no duplicates exactly when no element occurs in it twice. */
  lemma {:induction false} NoDupMultiplicity<T>(s: seq<T>)
    ensures NoDup(s) <==> forall x :: multiset(s)[x] <= 1
  {
    if s != [] {
      var init, last := s[..|s| - 1], s[|s| - 1];
      assert s == init + [last];
      NoDupMultiplicity(init);
      if NoDup(s) {
        assert last !in init;
        assert NoDup(init);
      } else {
        var i, j :| 0 <= i < j < |s| && s[i] == s[j];
        if j == |s| - 1 {
          assert init[i] == last;
          assert multiset(init)[last] >= 1;
          assert multiset(s)[last] >= 2;
        } else {
          assert init[i] == init[j];
          var x :| multiset(init)[x] > 1;
          assert multiset(s)[x] > 1;
        }
      }
    }
  }

  lemma PermutationNoDup<T>(a: seq<T>, b: seq<T>)
    requires multiset(a) == multiset(b) && NoDup(a)
    ensures NoDup(b)
  {
    NoDupMultiplicity(a);
    NoDupMultiplicity(b);
  }

  /** The parts with `sep` between each two (`sep.join(parts)`, `parts.join(sep)`). */
  function Join<T>(parts: seq<seq<T>>, sep: seq<T>): seq<T> {
    if |parts| == 0 then []
    else if |parts| == 1 then parts[0]
    else parts[0] + sep + Join(parts[1..], sep)
  }

  // ---------------------------------------------------------------------------------------
  // Counting keys

  /** The total multiplicity in `m` of the keys listed in `ks`. */
  function SumMult<T(==)>(ks: seq<T>, m: multiset<T>): nat {
    if ks == [] then 0 else m[ks[0]] + SumMult(ks[1..], m)
  }

  lemma {:induction false} SumMultAdd<T>(ks: seq<T>, m: multiset<T>, x: T)
    requires NoDup(ks)
    ensures SumMult(ks, m + multiset{x}) == SumMult(ks, m) + (if x in ks then 1 else 0)
  {
    if ks != [] {
      assert x in ks[1..] <==> x in ks && x != ks[0];
      SumMultAdd(ks[1..], m, x);
    }
  }

  /** Listing every key once, and only keys, counts every element exactly once. */
  lemma {:induction false} SumMultAll<T>(ks: seq<T>, xs: seq<T>)
    requires NoDup(ks)
    requires forall x :: x in xs ==> x in ks
    ensures SumMult(ks, multiset(xs)) == |xs|
  {
    if xs == [] {
      SumMultEmpty(ks);
    } else {
      var init, last := xs[..|xs| - 1], xs[|xs| - 1];
      assert xs == init + [last];
      SumMultAll(ks, init);
      SumMultAdd(ks, multiset(init), last);
    }
  }

  lemma {:induction false} SumMultEmpty<T>(ks: seq<T>)
    ensures SumMult(ks, multiset{}) == 0
  {
    if ks != [] {
      SumMultEmpty(ks[1..]);
    }
  }

  // ---------------------------------------------------------------------------------------
  // Ordering by a measure, descending

  predicate NonIncreasing<T>(xs: seq<T>, w: T -> real) {
    forall i, j :: 0 <= i < j < |xs| ==> w(xs[i]) >= w(xs[j])
  }

  function InsertDesc<T>(x: T, xs: seq<T>, w: T -> real): seq<T> {
    if xs == [] then [x]
    else if w(x) >= w(xs[0]) then [x] + xs
    else [xs[0]] + InsertDesc(x, xs[1..], w)
  }

  /** Inserting keeps every measure under a common bound. */
  lemma {:induction false} InsertDescBelow<T>(x: T, xs: seq<T>, w: T -> real, b: real)
    requires w(x) <= b
    requires forall k :: 0 <= k < |xs| ==> w(xs[k]) <= b
    ensures forall k :: 0 <= k < |InsertDesc(x, xs, w)| ==> w(InsertDesc(x, xs, w)[k]) <= b
  {
    if xs != [] && w(x) < w(xs[0]) {
      InsertDescBelow(x, xs[1..], w, b);
    }
  }

  lemma {:induction false} InsertDescSorted<T>(x: T, xs: seq<T>, w: T -> real)
    requires NonIncreasing(xs, w)
    ensures NonIncreasing(InsertDesc(x, xs, w), w)
  {
    if xs != [] && w(x) < w(xs[0]) {
      InsertDescSorted(x, xs[1..], w);
      InsertDescBelow(x, xs[1..], w, w(xs[0]));
    }
  }

  lemma {:induction false} InsertDescPermutes<T>(x: T, xs: seq<T>, w: T -> real)
    ensures multiset(InsertDesc(x, xs, w)) == multiset(xs) + multiset{x}
  {
    if xs != [] {
      assert xs == [xs[0]] + xs[1..];
      if w(x) < w(xs[0]) {
        InsertDescPermutes(x, xs[1..], w);
      }
    }
  }

  /** `ORDER BY w DESC`: a permutation of `xs` with `w` non-increasing. Ties are left in an
      order of the implementation's choosing, as SQL leaves them. */
  function SortDesc<T>(xs: seq<T>, w: T -> real): (r: seq<T>)
    ensures NonIncreasing(r, w)
    ensures multiset(r) == multiset(xs)
  {
    if xs == [] then []
    else
      var rest := SortDesc(xs[1..], w);
      SortStep(xs, rest, w);
      InsertDesc(xs[0], rest, w)
  }

  /** Inserting the head into the sorted tail sorts the whole sequence. */
  lemma SortStep<T>(xs: seq<T>, rest: seq<T>, w: T -> real)
    requires xs != [] && NonIncreasing(rest, w) && multiset(rest) == multiset(xs[1..])
    ensures NonIncreasing(InsertDesc(xs[0], rest, w), w)
    ensures multiset(InsertDesc(xs[0], rest, w)) == multiset(xs)
  {
    InsertDescSorted(xs[0], rest, w);
    InsertDescPermutes(xs[0], rest, w);
    assert xs == [xs[0]] + xs[1..];
  }

  // ---------------------------------------------------------------------------------------
  // Sums

  function SumBy<T>(xs: seq<T>, w: T -> real): real {
    if xs == [] then 0.0 else w(xs[0]) + SumBy(xs[1..], w)
  }

  lemma {:induction false} SumByConcat<T>(a: seq<T>, b: seq<T>, w: T -> real)
    ensures SumBy(a + b, w) == SumBy(a, w) + SumBy(b, w)
  {
    if a != [] {
      assert (a + b)[0] == a[0] && (a + b)[1..] == a[1..] + b;
      SumByConcat(a[1..], b, w);
    } else {
      assert a + b == b;
    }
  }

  lemma {:induction false} SumByInsert<T>(x: T, xs: seq<T>, w: T -> real, v: T -> real)
    ensures SumBy(InsertDesc(x, xs, w), v) == v(x) + SumBy(xs, v)
  {
    var r := InsertDesc(x, xs, w);
    if xs == [] {
      assert r[1..] == [];
    } else if w(x) >= w(xs[0]) {
      assert r[1..] == xs;
    } else {
      SumByInsert(x, xs[1..], w, v);
      assert r[1..] == InsertDesc(x, xs[1..], w);
    }
  }

  /** Sorting does not change a sum. */
  lemma {:induction false} SumBySorted<T>(xs: seq<T>, w: T -> real, v: T -> real)
    ensures SumBy(SortDesc(xs, w), v) == SumBy(xs, v)
  {
    if xs != [] {
      SumBySorted(xs[1..], w, v);
      SumByInsert(xs[0], SortDesc(xs[1..], w), w, v);
    }
  }

  /** After a permutation, a key that told the elements of `a` apart still tells those of `b` apart. */
  lemma PermutationKeysDistinct<T, K>(a: seq<T>, b: seq<T>, key: T -> K)
    requires multiset(a) == multiset(b)
    requires forall i, j :: 0 <= i < j < |a| ==> key(a[i]) != key(a[j])
    ensures forall i, j :: 0 <= i < j < |b| ==> key(b[i]) != key(b[j])
  {
    assert NoDup(a);
    PermutationNoDup(a, b);
    forall i, j | 0 <= i < j < |b|
      ensures key(b[i]) != key(b[j])
    {
      assert b[i] in multiset(a) && b[j] in multiset(a);
      var i' :| 0 <= i' < |a| && a[i'] == b[i];
      var j' :| 0 <= j' < |a| && a[j'] == b[j];
      assert i' != j';
    }
  }
}
