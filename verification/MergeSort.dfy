/**
 Bottom-up merge sort as a function on sequences: what the sort macros of utlist and uthash
 compute on their linked lists. The result is a sorted, stable permutation.
 */
module MergeSort {

  type Cmp<!T> = (T, T) -> int

  function Min(a: int, b: int): int {
    if a < b then a else b
  }

  /** The left run wins ties. */
  function Merge<T>(xs: seq<T>, ys: seq<T>, cmp: Cmp<T>): seq<T>
    ensures |Merge(xs, ys, cmp)| == |xs| + |ys|
  {
    if xs == [] then ys
    else if ys == [] then xs
    else if cmp(xs[0], ys[0]) <= 0 then [xs[0]] + Merge(xs[1..], ys, cmp)
    else [ys[0]] + Merge(xs, ys[1..], cmp)
  }

  /** One pass: merges neighbouring runs of length `k`. */
  function Pass<T>(s: seq<T>, k: nat, cmp: Cmp<T>): seq<T>
    requires k > 0
    ensures |Pass(s, k, cmp)| == |s|
  {
    if s == [] then []
    else
      var m, n := Min(k, |s|), Min(2 * k, |s|);
      Merge(s[..m], s[m..n], cmp) + Pass(s[n..], k, cmp)
  }

  /** The number of merges of one pass. */
  function Merges(n: nat, k: nat): nat
    requires k > 0
  {
    if n == 0 then 0 else 1 + Merges(n - Min(2 * k, n), k)
  }

  /** Passes with doubling run length until one pass needs a single merge. */
  function Sort<T>(s: seq<T>, k: nat, cmp: Cmp<T>): seq<T>
    requires k > 0
    ensures |Sort(s, k, cmp)| == |s|
    decreases if |s| > 2 * k then |s| - 2 * k else 0
  {
    if |s| <= 2 * k then Pass(s, k, cmp) else Sort(Pass(s, k, cmp), 2 * k, cmp)
  }

  lemma {:induction false} OneMerge(n: nat, k: nat)
    requires k > 0
    ensures Merges(n, k) <= 1 <==> n <= 2 * k
  {
  }

  // ----- permutation, for every comparison function -----

  lemma {:induction false} Cons<T>(s: seq<T>)
    requires s != []
    ensures multiset(s) == multiset{s[0]} + multiset(s[1..])
  {
    assert s == [s[0]] + s[1..];
  }

  lemma {:induction false} MergePermutes<T>(xs: seq<T>, ys: seq<T>, cmp: Cmp<T>)
    ensures multiset(Merge(xs, ys, cmp)) == multiset(xs) + multiset(ys)
  {
    if xs != [] && ys != [] {
      var m := Merge(xs, ys, cmp);
      Cons(m);
      if cmp(xs[0], ys[0]) <= 0 {
        MergePermutes(xs[1..], ys, cmp);
        Cons(xs);
        assert m[1..] == Merge(xs[1..], ys, cmp);
      } else {
        MergePermutes(xs, ys[1..], cmp);
        Cons(ys);
        assert m[1..] == Merge(xs, ys[1..], cmp);
      }
    }
  }

  lemma {:induction false} Split<T>(s: seq<T>, m: nat, n: nat)
    requires m <= n <= |s|
    ensures s == s[..m] + s[m..n] + s[n..]
    ensures multiset(s) == multiset(s[..m]) + multiset(s[m..n]) + multiset(s[n..])
  {
  }

  lemma {:induction false} PassPermutes<T>(s: seq<T>, k: nat, cmp: Cmp<T>)
    requires k > 0
    ensures multiset(Pass(s, k, cmp)) == multiset(s)
  {
    if s != [] {
      var m, n := Min(k, |s|), Min(2 * k, |s|);
      MergePermutes(s[..m], s[m..n], cmp);
      PassPermutes(s[n..], k, cmp);
      Split(s, m, n);
    }
  }

  lemma {:induction false} SortPermutes<T>(s: seq<T>, k: nat, cmp: Cmp<T>)
    requires k > 0
    ensures multiset(Sort(s, k, cmp)) == multiset(s)
    decreases if |s| > 2 * k then |s| - 2 * k else 0
  {
    PassPermutes(s, k, cmp);
    if |s| > 2 * k {
      SortPermutes(Pass(s, k, cmp), 2 * k, cmp);
    }
  }

  // ----- order and stability, for comparison functions that are total preorders -----

  /** Names a triple of elements for which transitivity is used. */
  ghost predicate Triple<T>(a: T, b: T, c: T) {
    true
  }

  /** The contract of a comparison function on the elements `u` to be sorted: a total preorder. */
  ghost predicate Preorder<T>(u: set<T>, cmp: Cmp<T>) {
    && (forall a, b :: a in u && b in u ==> cmp(a, b) <= 0 || cmp(b, a) <= 0)
    && (forall a, b, c {:trigger Triple(a, b, c)} ::
          a in u && b in u && c in u && cmp(a, b) <= 0 && cmp(b, c) <= 0 ==> cmp(a, c) <= 0)
  }

  ghost function Elements<T>(s: seq<T>): set<T> {
    set x | x in s
  }

  ghost predicate Sorted<T>(s: seq<T>, cmp: Cmp<T>) {
    forall i, j :: 0 <= i < j < |s| ==> cmp(s[i], s[j]) <= 0
  }

  ghost predicate Below<T>(x: T, s: seq<T>, cmp: Cmp<T>) {
    forall i :: 0 <= i < |s| ==> cmp(x, s[i]) <= 0
  }

  lemma {:induction false} BelowMerge<T>(x: T, xs: seq<T>, ys: seq<T>, cmp: Cmp<T>)
    requires Below(x, xs, cmp) && Below(x, ys, cmp)
    ensures Below(x, Merge(xs, ys, cmp), cmp)
  {
    if xs != [] && ys != [] {
      if cmp(xs[0], ys[0]) <= 0 {
        BelowMerge(x, xs[1..], ys, cmp);
      } else {
        BelowMerge(x, xs, ys[1..], cmp);
      }
    }
  }

  /** An element not above the head of a sorted run is below the whole run. */
  lemma {:induction false} BelowRun<T>(u: set<T>, x: T, s: seq<T>, cmp: Cmp<T>)
    requires Preorder(u, cmp) && x in u && Elements(s) <= u && Sorted(s, cmp)
    requires s == [] || cmp(x, s[0]) <= 0
    ensures Below(x, s, cmp)
  {
    forall i | 0 <= i < |s| ensures cmp(x, s[i]) <= 0 {
      assert s[0] in Elements(s) && s[i] in Elements(s);
      assert i == 0 || cmp(s[0], s[i]) <= 0;
      assert Triple(x, s[0], s[i]);
    }
  }

  lemma {:induction false} MergeSorted<T>(u: set<T>, xs: seq<T>, ys: seq<T>, cmp: Cmp<T>)
    requires Preorder(u, cmp) && Elements(xs) + Elements(ys) <= u && Sorted(xs, cmp) && Sorted(ys, cmp)
    ensures Sorted(Merge(xs, ys, cmp), cmp)
  {
    if xs != [] && ys != [] {
      var x, y := xs[0], ys[0];
      if cmp(x, y) <= 0 {
        MergeSorted(u, xs[1..], ys, cmp);
        BelowRun(u, x, ys, cmp);
        BelowMerge(x, xs[1..], ys, cmp);
      } else {
        MergeSorted(u, xs, ys[1..], cmp);
        BelowRun(u, y, xs, cmp);
        BelowMerge(y, xs, ys[1..], cmp);
      }
    }
  }

  /** `[x]` or nothing, as `x` is equivalent to `e` or not. */
  ghost function Pick<T>(x: T, e: T, cmp: Cmp<T>): seq<T> {
    if cmp(x, e) <= 0 && cmp(e, x) <= 0 then [x] else []
  }

  /** The elements equivalent to `e`, in their order. */
  ghost function Equivalents<T>(s: seq<T>, e: T, cmp: Cmp<T>): seq<T> {
    if s == [] then [] else Pick(s[0], e, cmp) + Equivalents(s[1..], e, cmp)
  }

  /** Equivalent elements keep their order. */
  ghost predicate Stable<T>(s: seq<T>, t: seq<T>, cmp: Cmp<T>) {
    forall e :: e in s ==> Equivalents(s, e, cmp) == Equivalents(t, e, cmp)
  }

  lemma {:induction false} EquivalentsAppend<T>(s: seq<T>, t: seq<T>, e: T, cmp: Cmp<T>)
    ensures Equivalents(s + t, e, cmp) == Equivalents(s, e, cmp) + Equivalents(t, e, cmp)
  {
    if s == [] {
      assert s + t == t;
    } else {
      var r := s[1..] + t;
      assert (s + t)[1..] == r && (s + t)[0] == s[0];
      EquivalentsAppend(s[1..], t, e, cmp);
    }
  }

  /** A run strictly above `y` holds nothing equivalent to what `y` is equivalent to. */
  lemma {:induction false} NoneAbove<T>(u: set<T>, xs: seq<T>, y: T, e: T, cmp: Cmp<T>)
    requires Preorder(u, cmp) && Elements(xs) <= u && y in u && e in u
    requires cmp(y, e) <= 0 && cmp(e, y) <= 0
    requires forall i :: 0 <= i < |xs| ==> cmp(xs[i], y) > 0
    ensures Equivalents(xs, e, cmp) == []
  {
    if xs != [] {
      NoneAbove(u, xs[1..], y, e, cmp);
      assert xs[0] in Elements(xs);
      assert Triple(xs[0], e, y);
    }
  }

  lemma {:induction false} MergeStable<T>(u: set<T>, xs: seq<T>, ys: seq<T>, e: T, cmp: Cmp<T>)
    requires Preorder(u, cmp) && Elements(xs) + Elements(ys) <= u && e in u && Sorted(xs, cmp)
    ensures Equivalents(Merge(xs, ys, cmp), e, cmp) == Equivalents(xs, e, cmp) + Equivalents(ys, e, cmp)
  {
    if xs != [] && ys != [] {
      var m := Merge(xs, ys, cmp);
      if cmp(xs[0], ys[0]) <= 0 {
        MergeStable(u, xs[1..], ys, e, cmp);
        assert m[0] == xs[0] && m[1..] == Merge(xs[1..], ys, cmp);
      } else {
        var y := ys[0];
        MergeStable(u, xs, ys[1..], e, cmp);
        assert m[0] == y && m[1..] == Merge(xs, ys[1..], cmp);
        PickFirst(u, xs, y, Equivalents(ys[1..], e, cmp), e, cmp);
      }
    }
  }

  /** Moving an element in front of a run strictly above it changes no order among equivalents. */
  lemma {:induction false} PickFirst<T>(u: set<T>, xs: seq<T>, y: T, t: seq<T>, e: T, cmp: Cmp<T>)
    requires Preorder(u, cmp) && Elements(xs) <= u && y in u && e in u
    requires xs != [] && Sorted(xs, cmp) && cmp(xs[0], y) > 0
    ensures Pick(y, e, cmp) + (Equivalents(xs, e, cmp) + t) == Equivalents(xs, e, cmp) + (Pick(y, e, cmp) + t)
  {
    if cmp(y, e) <= 0 && cmp(e, y) <= 0 {
      forall i | 0 <= i < |xs| ensures cmp(xs[i], y) > 0 {
        assert xs[0] in Elements(xs) && xs[i] in Elements(xs);
        assert i == 0 || cmp(xs[0], xs[i]) <= 0;
        assert Triple(xs[0], xs[i], y);
      }
      NoneAbove(u, xs, y, e, cmp);
    }
  }

  /** Every full block of `k` elements, and the last partial one, is sorted. */
  ghost predicate RunsSorted<T>(s: seq<T>, k: nat, cmp: Cmp<T>)
    requires k > 0
  {
    if |s| <= k then Sorted(s, cmp) else Sorted(s[..k], cmp) && RunsSorted(s[k..], k, cmp)
  }

  lemma {:induction false} RunsSplit<T>(s: seq<T>, k: nat, cmp: Cmp<T>)
    requires k > 0 && RunsSorted(s, k, cmp) && s != []
    ensures var m, n := Min(k, |s|), Min(2 * k, |s|);
      Sorted(s[..m], cmp) && Sorted(s[m..n], cmp) && RunsSorted(s[n..], k, cmp)
  {
    if |s| <= k {
      assert s[..|s|] == s;
    } else if |s| <= 2 * k {
      assert s[k..|s|] == s[k..];
    } else {
      assert s[k..][..k] == s[k..2*k] && s[k..][k..] == s[2*k..];
    }
  }

  lemma {:induction false} PassSorted<T>(u: set<T>, s: seq<T>, k: nat, cmp: Cmp<T>)
    requires k > 0 && Preorder(u, cmp) && Elements(s) <= u && RunsSorted(s, k, cmp)
    ensures RunsSorted(Pass(s, k, cmp), 2 * k, cmp)
  {
    if s != [] {
      var m, n := Min(k, |s|), Min(2 * k, |s|);
      Split(s, m, n);
      RunsSplit(s, k, cmp);
      MergeSorted(u, s[..m], s[m..n], cmp);
      PassSorted(u, s[n..], k, cmp);
      var c, d := Merge(s[..m], s[m..n], cmp), Pass(s[n..], k, cmp);
      assert |s| > 2 * k ==> (c + d)[..2*k] == c && (c + d)[2*k..] == d;
      assert |s| <= 2 * k ==> c + d == c;
    }
  }

  lemma {:induction false} PassStable<T>(u: set<T>, s: seq<T>, k: nat, e: T, cmp: Cmp<T>)
    requires k > 0 && Preorder(u, cmp) && Elements(s) <= u && e in u && RunsSorted(s, k, cmp)
    ensures Equivalents(Pass(s, k, cmp), e, cmp) == Equivalents(s, e, cmp)
  {
    if s != [] {
      var m, n := Min(k, |s|), Min(2 * k, |s|);
      var a, b, r := s[..m], s[m..n], s[n..];
      Split(s, m, n);
      RunsSplit(s, k, cmp);
      PassStable(u, r, k, e, cmp);
      MergeStable(u, a, b, e, cmp);
      EquivalentsAppend(Merge(a, b, cmp), Pass(r, k, cmp), e, cmp);
      EquivalentsAppend(a, b, e, cmp);
      EquivalentsAppend(a + b, r, e, cmp);
    }
  }

  lemma {:induction false} SameElements<T>(s: seq<T>, t: seq<T>)
    requires multiset(s) == multiset(t)
    ensures Elements(s) == Elements(t)
  {
    assert forall x :: x in s <==> x in multiset(s);
    assert forall x :: x in t <==> x in multiset(t);
  }

  lemma {:induction false} SortOrders<T>(u: set<T>, s: seq<T>, k: nat, cmp: Cmp<T>)
    requires k > 0 && Preorder(u, cmp) && Elements(s) == u && RunsSorted(s, k, cmp)
    ensures Sorted(Sort(s, k, cmp), cmp)
    ensures forall e :: e in u ==> Equivalents(Sort(s, k, cmp), e, cmp) == Equivalents(s, e, cmp)
    decreases if |s| > 2 * k then |s| - 2 * k else 0
  {
    PassSorted(u, s, k, cmp);
    forall e | e in u ensures Equivalents(Pass(s, k, cmp), e, cmp) == Equivalents(s, e, cmp) {
      PassStable(u, s, k, e, cmp);
    }
    if |s| > 2 * k {
      PassPermutes(s, k, cmp);
      SameElements(s, Pass(s, k, cmp));
      SortOrders(u, Pass(s, k, cmp), 2 * k, cmp);
    }
  }

  lemma {:induction false} SingletonRuns<T>(s: seq<T>, cmp: Cmp<T>)
    ensures RunsSorted(s, 1, cmp)
  {
    if |s| > 1 {
      SingletonRuns(s[1..], cmp);
    }
  }

  /** The sort of the macros, which starts with runs of one element: a permutation for every
      comparison function, sorted and stable when the function is a total preorder. */
  lemma {:induction false} SortCorrect<T>(s: seq<T>, cmp: Cmp<T>)
    ensures multiset(Sort(s, 1, cmp)) == multiset(s)
    ensures Preorder(Elements(s), cmp) ==> Sorted(Sort(s, 1, cmp), cmp) && Stable(s, Sort(s, 1, cmp), cmp)
  {
    SortPermutes(s, 1, cmp);
    if Preorder(Elements(s), cmp) {
      SingletonRuns(s, cmp);
      SortOrders(Elements(s), s, 1, cmp);
    }
  }
}
