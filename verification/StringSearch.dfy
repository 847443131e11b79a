/**
 Substring search of UT_string: Knuth-Morris-Pratt with the strong failure table, from left to
 right and from right to left. The right-to-left routines are the left-to-right ones on the
 reversed strings, and their invariants are stated that way.
 */
module StringSearch {

  // ----- what the routines compute -----

  /** The `n` characters of `a` from `x` on are those of `b` from `y` on. */
  ghost predicate Same(a: string, x: int, b: string, y: int, n: int)
    decreases n
  {
    && 0 <= n && 0 <= x <= |a| - n && 0 <= y <= |b| - n
    && (n == 0 || (Same(a, x, b, y, n - 1) && a[x + n - 1] == b[y + n - 1]))
  }

  lemma {:induction false} SameSlices(a: string, x: int, b: string, y: int, n: int)
    requires 0 <= n && 0 <= x <= |a| - n && 0 <= y <= |b| - n
    ensures Same(a, x, b, y, n) <==> a[x..x+n] == b[y..y+n]
  {
    if n > 0 {
      SameSlices(a, x, b, y, n - 1);
      var c, d := a[x..x+n], b[y..y+n];
      assert c == a[x..x+n-1] + [a[x+n-1]] && d == b[y..y+n-1] + [b[y+n-1]];
      if c == d {
        assert c[..n-1] == a[x..x+n-1] && d[..n-1] == b[y..y+n-1];
        assert c[n-1] == a[x+n-1] && d[n-1] == b[y+n-1];
      }
    }
  }

  ghost predicate Occurs(h: string, p: string, q: int) {
    Same(h, q, p, 0, |p|)
  }

  lemma {:induction false} OccursMeans(h: string, p: string, q: int)
    ensures Occurs(h, p, q) <==> 0 <= q && q + |p| <= |h| && h[q..q+|p|] == p
  {
    if 0 <= q && q + |p| <= |h| {
      SameSlices(h, q, p, 0, |p|);
      assert p[0..0+|p|] == p;
    }
  }

  /** `r` is the first occurrence, or -1 when there is none. */
  ghost predicate IsFirst(h: string, p: string, r: int) {
    && (r == -1 || Occurs(h, p, r))
    && forall q :: Occurs(h, p, q) ==> 0 <= r <= q
  }

  /** `r` is the last occurrence, or -1 when there is none. */
  ghost predicate IsLast(h: string, p: string, r: int) {
    && (r == -1 || Occurs(h, p, r))
    && forall q :: Occurs(h, p, q) ==> q <= r
  }

  /** The first `k` characters of `p[..i]` are also its last `k`. */
  ghost predicate Border(p: string, i: int, k: int) {
    k < i && Same(p, 0, p, i - k, k)
  }

  /** Which borders of `p[..i]` are asked for: all; those worth falling back to when `p[i]` does
      not match; those that the character `c` extends. */
  datatype Kind = Any | Unlike | Like(c: char)

  ghost predicate Fits(p: string, i: int, k: int, kind: Kind) {
    && Border(p, i, k)
    && match kind
       case Any => true
       case Unlike => i < |p| ==> p[k] != p[i]
       case Like(c) => p[k] == c
  }

  ghost function LongestUpTo(p: string, i: int, k: int, kind: Kind): int
    decreases k
  {
    if k < 0 then -1 else if Fits(p, i, k, kind) then k else LongestUpTo(p, i, k - 1, kind)
  }

  /** The longest fitting border, or -1. */
  ghost function Longest(p: string, i: int, kind: Kind): int {
    LongestUpTo(p, i, i - 1, kind)
  }

  /** Entry `i` of the failure table: the longest border whose next character differs, or -1. The entry
      past the last character has nothing to mismatch with and is the longest border. */
  ghost function Fail(p: string, i: int): int {
    Longest(p, i, Unlike)
  }

  lemma {:induction false} LongestUpToSpec(p: string, i: int, k: int, kind: Kind)
    ensures var l := LongestUpTo(p, i, k, kind); l == -1 || (0 <= l <= k && Fits(p, i, l, kind))
    ensures forall x :: x <= k && Fits(p, i, x, kind) ==> x <= LongestUpTo(p, i, k, kind)
    decreases k
  {
    if 0 <= k && !Fits(p, i, k, kind) {
      LongestUpToSpec(p, i, k - 1, kind);
    }
  }

  lemma {:induction false} LongestSpec(p: string, i: int, kind: Kind)
    ensures var l := Longest(p, i, kind); l == -1 || (0 <= l < i && Fits(p, i, l, kind))
    ensures forall k :: Fits(p, i, k, kind) ==> k <= Longest(p, i, kind)
  {
    LongestUpToSpec(p, i, i - 1, kind);
  }

  ghost predicate TableOk(p: string, t: seq<int>) {
    |t| == |p| + 1 && forall i :: 0 <= i <= |p| ==> t[i] == Fail(p, i)
  }

  function Reverse(s: string): (r: string)
    ensures |r| == |s| && forall i :: 0 <= i < |s| ==> r[i] == s[|s| - 1 - i]
  {
    seq(|s|, (i: nat) requires i < |s| => s[|s| - 1 - i])
  }

  /** The right-to-left table counts entries and positions from the other end. */
  ghost function FailR(p: string, i: int): int {
    |p| - 1 - Fail(Reverse(p), |p| - i)
  }

  ghost predicate TableROk(p: string, t: seq<int>) {
    |t| == |p| + 1 && forall i :: 0 <= i <= |p| ==> t[i] == FailR(p, i)
  }

  // ----- borders -----

  lemma {:induction false} SamePart(a: string, x: int, b: string, y: int, n: int, d: int, m: int)
    requires Same(a, x, b, y, n) && 0 <= d && 0 <= m && d + m <= n
    ensures Same(a, x + d, b, y + d, m)
    ensures m > 0 ==> a[x + d + m - 1] == b[y + d + m - 1]
    decreases n
  {
    if d + m < n {
      SamePart(a, x, b, y, n - 1, d, m);
    } else if m > 0 {
      SamePart(a, x, b, y, n - 1, d, m - 1);
    }
  }

  lemma {:induction false} SameSym(a: string, x: int, b: string, y: int, n: int)
    requires Same(a, x, b, y, n)
    ensures Same(b, y, a, x, n)
    decreases n
  {
    if n > 0 {
      SameSym(a, x, b, y, n - 1);
    }
  }

  lemma {:induction false} SameTrans(a: string, x: int, b: string, y: int, c: string, z: int, n: int)
    requires Same(a, x, b, y, n) && Same(b, y, c, z, n)
    ensures Same(a, x, c, z, n)
    decreases n
  {
    if n > 0 {
      SameTrans(a, x, b, y, c, z, n - 1);
    }
  }

  lemma {:induction false} BorderIn(p: string, i: int, j: int, k: int)
    requires Border(p, i, j) && 0 <= k < j
    ensures Border(p, i, k) <==> Border(p, j, k)
  {
    SamePart(p, 0, p, i - j, j, j - k, k);
    if Border(p, j, k) {
      SameTrans(p, 0, p, j - k, p, i - k, k);
    }
    if Border(p, i, k) {
      SameSym(p, j - k, p, i - k, k);
      SameTrans(p, 0, p, i - k, p, j - k, k);
    }
  }

  /** Falling back through the strong table skips only borders that `c` cannot extend. */
  lemma {:induction false} FallBack(p: string, i: int, j: int, c: char)
    requires Border(p, i, j) && Longest(p, i, Like(c)) <= j && p[j] != c
    ensures var v := Fail(p, j); -1 <= v < j && (v == -1 || Border(p, i, v)) && Longest(p, i, Like(c)) <= v
  {
    LongestSpec(p, j, Unlike);
    LongestSpec(p, i, Like(c));
    var v, e := Fail(p, j), Longest(p, i, Like(c));
    if v >= 0 {
      BorderIn(p, i, j, v);
    }
    if e >= 0 {
      BorderIn(p, i, j, e);
      assert Fits(p, j, e, Unlike);
    }
  }

  /** Once the candidate extends, it gives the longest border of the next prefix. */
  lemma {:induction false} NextBorder(p: string, i: int, j: int)
    requires 0 <= i < |p| && Longest(p, i, Like(p[i])) <= j
    requires j == -1 || (Border(p, i, j) && p[j] == p[i])
    ensures Longest(p, i + 1, Any) == j + 1
  {
    LongestSpec(p, i + 1, Any);
    LongestSpec(p, i, Like(p[i]));
    var b := Longest(p, i + 1, Any);
    assert Fits(p, i + 1, j + 1, Any);
    if b > 0 {
      assert Fits(p, i, b - 1, Like(p[i]));
    }
  }

  /** The entry to write for a position whose longest border is `j`. */
  lemma {:induction false} NextEntry(p: string, i: int, j: int)
    requires 0 < i <= |p| && Longest(p, i, Any) == j
    ensures 0 <= j < i
    ensures Fail(p, i) == if i < |p| && p[i] == p[j] then Fail(p, j) else j
  {
    LongestSpec(p, i, Any);
    LongestSpec(p, i, Unlike);
    LongestSpec(p, j, Unlike);
    assert Fits(p, i, 0, Any);
    var v, w := Fail(p, i), Fail(p, j);
    assert v >= 0 ==> Fits(p, i, v, Any);
    if i < |p| && p[i] == p[j] {
      if v >= 0 {
        BorderIn(p, i, j, v);
        assert Fits(p, j, v, Unlike);
      }
      if w >= 0 {
        BorderIn(p, i, j, w);
        assert Fits(p, i, w, Unlike);
      }
    } else {
      assert Fits(p, i, j, Unlike);
    }
  }

  lemma {:induction false} StartCandidate(p: string, i: int, c: char)
    ensures -1 <= Longest(p, i, Like(c)) <= Longest(p, i, Any)
    ensures Longest(p, i, Any) == -1 || Border(p, i, Longest(p, i, Any))
  {
    LongestSpec(p, i, Any);
    LongestSpec(p, i, Like(c));
    var e := Longest(p, i, Like(c));
    assert e >= 0 ==> Fits(p, i, e, Any);
  }

  method BuildTable(p: string, table: array<int>)
    requires table.Length == |p| + 1
    modifies table
    ensures TableOk(p, table[..])
  {
    var i, j := 0, -1;
    table[i] := j;
    while i < |p|
      invariant 0 <= i <= |p|
      invariant j == Longest(p, i, Any)
      invariant forall x :: 0 <= x <= i ==> table[x] == Fail(p, x)
    {
      StartCandidate(p, i, p[i]);
      while j > -1 && p[i] != p[j]
        invariant -1 <= j < i || j == -1
        invariant j == -1 || Border(p, i, j)
        invariant Longest(p, i, Like(p[i])) <= j
        decreases j
        modifies {}
      {
        FallBack(p, i, j, p[i]);
        j := table[j];
      }
      NextBorder(p, i, j);
      i, j := i + 1, j + 1;
      NextEntry(p, i, j);
      if i < |p| {
        if p[i] == p[j] {
          table[i] := table[j];
        } else {
          table[i] := j;
        }
      } else {
        table[i] := j;
      }
    }
  }

  method BuildTableR(p: string, table: array<int>)
    requires table.Length == |p| + 1
    modifies table
    ensures TableROk(p, table[..])
  {
    var n := |p|;
    ghost var rp := Reverse(p);
    var i := n - 1;
    var j := i + 1;
    table[i + 1] := j;
    while i >= 0
      invariant -1 <= i < n
      invariant n - 1 - j == Longest(rp, n - 1 - i, Any)
      invariant forall x :: i + 1 <= x <= n ==> table[x] == FailR(p, x)
    {
      StartCandidate(rp, n - 1 - i, p[i]);
      while j < n && p[i] != p[j]
        invariant i < j <= n
        invariant j == n || Border(rp, n - 1 - i, n - 1 - j)
        invariant Longest(rp, n - 1 - i, Like(p[i])) <= n - 1 - j
        decreases n - j
        modifies {}
      {
        FallBack(rp, n - 1 - i, n - 1 - j, p[i]);
        j := table[j + 1];
      }
      NextBorder(rp, n - 1 - i, n - 1 - j);
      i, j := i - 1, j - 1;
      NextEntry(rp, n - 1 - i, n - 1 - j);
      if i >= 0 {
        if p[i] == p[j] {
          table[i + 1] := table[j + 1];
        } else {
          table[i + 1] := j;
        }
      } else {
        table[i + 1] := j;
      }
    }
  }

  // ----- searching -----

  /** The first occurrence at `q` or later, or a position past the end. */
  ghost function FirstFrom(h: string, p: string, q: nat): int
    decreases |h| + 1 - q
  {
    if q > |h| || Occurs(h, p, q) then q else FirstFrom(h, p, q + 1)
  }

  lemma {:induction false} FirstFromSpec(h: string, p: string, q: nat)
    ensures q <= FirstFrom(h, p, q)
    ensures FirstFrom(h, p, q) <= |h| ==> Occurs(h, p, FirstFrom(h, p, q))
    ensures forall x :: q <= x && Occurs(h, p, x) ==> FirstFrom(h, p, q) <= x
    decreases |h| + 1 - q
  {
    if !(q > |h| || Occurs(h, p, q)) {
      FirstFromSpec(h, p, q + 1);
    }
  }

  /** `p[..i]` ends at `h[..j]` and no occurrence starts earlier; `i` is -1 when nothing ends there. */
  ghost predicate Aligned(h: string, p: string, i: int, j: int) {
    && -1 <= i <= j <= |h| && i <= |p|
    && (i >= 0 ==> Same(p, 0, h, j - i, i))
    && j - i <= FirstFrom(h, p, 0)
  }

  /** A mismatch at `h[j]`: the strong table skips no occurrence. */
  lemma {:induction false} Shift(h: string, p: string, i: int, j: int)
    requires Aligned(h, p, i, j) && 0 <= i < |p| && j < |h| && p[i] != h[j]
    ensures -1 <= Fail(p, i) < i && Aligned(h, p, Fail(p, i), j)
  {
    var v := Fail(p, i);
    LongestSpec(p, i, Unlike);
    if v >= 0 {
      SamePart(p, 0, h, j - i, i, i - v, v);
      SameTrans(p, 0, p, i - v, h, j - v, v);
    }
    FirstFromSpec(h, p, 0);
    var q := FirstFrom(h, p, 0);
    if q <= j {
      OccurrenceIsBorder(h, p, j - i, q - (j - i), i);
    }
  }

  /** After a mismatch at `h[y + i]`, an occurrence at a later alignment `y + x` that still covers it
      starts at a strong border. */
  lemma {:induction false} OccurrenceIsBorder(h: string, p: string, y: int, x: int, i: int)
    requires 0 <= x <= i < |p| && Same(p, 0, h, y, i) && y + i < |h| && p[i] != h[y + i]
    requires Occurs(h, p, y + x)
    ensures Fits(p, i, i - x, Unlike)
  {
    var k, z := i - x, y + x;
    assert Same(h, z, p, 0, k + 1) && h[z + k] == p[k] by {
      SamePart(h, z, p, 0, |p|, 0, k + 1);
    }
    assert Same(p, x, h, z, k) by {
      SamePart(p, 0, h, y, i, x, k);
    }
    SameTrans(p, x, h, z, p, 0, k);
    SameSym(p, x, p, 0, k);
  }

  lemma {:induction false} Exhausted(h: string, p: string, i: int, j: int)
    requires Aligned(h, p, i, j) && |h| - j + i < |p|
    ensures IsFirst(h, p, -1)
  {
    FirstFromSpec(h, p, 0);
  }

  lemma {:induction false} Found(h: string, p: string, j: int)
    requires Aligned(h, p, |p|, j)
    ensures IsFirst(h, p, j - |p|)
  {
    FirstFromSpec(h, p, 0);
    SameSym(p, 0, h, j - |p|, |p|);
    assert Occurs(h, p, j - |p|);
  }

  const INT_MAX := 0x7fff_ffff

  /** The value of a C `(int)` cast of a length. */
  function IntCast(n: nat): (r: int)
    ensures r <= n && (n <= INT_MAX ==> r == n)
  {
    var m := n % 0x1_0000_0000;
    if m <= INT_MAX then m else m - 0x1_0000_0000
  }

  /** The part of the haystack the left-to-right loop can see: its bound is `(int)P_HaystackLen`. */
  function Visible(h: string): (v: string)
    ensures |h| <= INT_MAX ==> v == h
  {
    if IntCast(|h|) <= 0 then [] else h[..IntCast(|h|)]
  }

  method Find(h: string, p: string, table: array<int>) returns (r: int)
    requires 0 < |p| <= INT_MAX && TableOk(p, table[..])
    ensures IsFirst(Visible(h), p, r)
  {
    var i, j := 0, 0;
    ghost var t, hv := table[..], Visible(h);
    FirstFromSpec(hv, p, 0);
    while j < IntCast(|h|) && |h| - j + i >= |p|
      invariant 0 <= i < |p| && Aligned(hv, p, i, j)
    {
      while i > -1 && p[i] != h[j]
        invariant -1 <= i < |p| && Aligned(hv, p, i, j)
        decreases i
      {
        Shift(hv, p, i, j);
        assert table[i] == t[i];
        i := table[i];
      }
      i, j := i + 1, j + 1;
      if i >= IntCast(|p|) {
        Found(hv, p, j);
        return j - i;
      }
    }
    Exhausted(hv, p, i, j);
    return -1;
  }

  lemma {:induction false} OccursReversed(h: string, p: string, q: int)
    ensures Occurs(h, p, q) <==> Occurs(Reverse(h), Reverse(p), |h| - |p| - q)
  {
    OccursMeans(h, p, q);
    OccursMeans(Reverse(h), Reverse(p), |h| - |p| - q);
    if 0 <= q && q + |p| <= |h| {
      var q' := |h| - |p| - q;
      var a, b := h[q..q+|p|], Reverse(h)[q'..q'+|p|];
      assert forall k :: 0 <= k < |p| ==> b[k] == a[|p| - 1 - k];
      assert forall k :: 0 <= k < |p| ==> a[k] == b[|p| - 1 - k];
      assert forall k :: 0 <= k < |p| ==> p[k] == Reverse(p)[|p| - 1 - k];
    }
  }

  lemma {:induction false} FirstIsLast(h: string, p: string, r: int)
    requires |p| > 0 && IsFirst(Reverse(h), Reverse(p), r)
    ensures IsLast(h, p, if r == -1 then -1 else |h| - |p| - r)
  {
    OccursReversed(h, p, |h| - |p| - r);
    forall q | Occurs(h, p, q) ensures 0 <= r && q <= |h| - |p| - r {
      OccursReversed(h, p, q);
    }
  }

  /** Alignment in the coordinates of the right-to-left search. */
  ghost predicate AlignedR(h: string, p: string, i: int, j: int) {
    Aligned(Reverse(h), Reverse(p), |p| - 1 - i, |h| - 1 - j)
  }

  lemma {:induction false} StartR(h: string, p: string)
    ensures AlignedR(h, p, |p| - 1, |h| - 1)
  {
    FirstFromSpec(Reverse(h), Reverse(p), 0);
  }

  lemma {:induction false} ShiftR(h: string, p: string, i: int, j: int)
    requires 0 <= i < |p| && 0 <= j < |h| && p[i] != h[j] && AlignedR(h, p, i, j)
    ensures i < FailR(p, i + 1) <= |p| && AlignedR(h, p, FailR(p, i + 1), j)
  {
    Shift(Reverse(h), Reverse(p), |p| - 1 - i, |h| - 1 - j);
  }

  lemma {:induction false} FoundR(h: string, p: string, j: int)
    requires |p| > 0 && AlignedR(h, p, -1, j)
    ensures IsLast(h, p, j + 1)
  {
    Found(Reverse(h), Reverse(p), |h| - 1 - j);
    FirstIsLast(h, p, |h| - 1 - j - |p|);
  }

  lemma {:induction false} ExhaustedR(h: string, p: string, i: int, j: int)
    requires |p| > 0 && AlignedR(h, p, i, j) && j < i
    ensures IsLast(h, p, -1)
  {
    Exhausted(Reverse(h), Reverse(p), |p| - 1 - i, |h| - 1 - j);
    FirstIsLast(h, p, -1);
  }

  method FindR(h: string, p: string, table: array<int>) returns (r: int)
    requires 0 < |p| <= INT_MAX && TableROk(p, table[..])
    ensures IsLast(h, p, r)
  {
    ghost var t := table[..];
    var i, j := |p| - 1, |h| - 1;
    StartR(h, p);
    while j >= 0 && j >= i
      invariant 0 <= i < |p| && -1 <= j < |h| && AlignedR(h, p, i, j)
      decreases j
    {
      while i < IntCast(|p|) && p[i] != h[j]
        invariant 0 <= i <= |p| && AlignedR(h, p, i, j)
        decreases |p| - i
      {
        ShiftR(h, p, i, j);
        assert table[i + 1] == t[i + 1];
        i := table[i + 1];
      }
      i, j := i - 1, j - 1;
      if i < 0 {
        FoundR(h, p, j);
        return j + 1;
      }
    }
    ExhaustedR(h, p, i, j);
    return -1;
  }

  // ----- one-time searches in a string -----

  /** A `long` compared with a `size_t`. */
  function AsSize(n: int): nat {
    if n < 0 then n % 0x1_0000_0000_0000_0000 else n
  }

  /** A start position below zero counts from the end of the string. */
  function Start(len: nat, start: int): int {
    if start < 0 then len + start else start
  }

  /** utstring_find: the first occurrence at or after the start, unless the needle is empty, the start
      lies behind the string, or the table cannot be allocated. */
  method FindFrom(s: string, start: int, p: string, tableOk: bool) returns (r: int)
    requires 0 <= Start(|s|, start) <= |s| + INT_MAX + 1 && |p| <= INT_MAX
    ensures p == [] || !tableOk || Start(|s|, start) > |s| ==> r == -1
    ensures p != [] && tableOk && Start(|s|, start) <= |s| ==>
      var b := Start(|s|, start); IsFirst(Visible(s[b..]), p, if r == -1 then -1 else r - b)
  {
    var b := if start < 0 then |s| + start else start;
    var len := |s| - b;
    r := -1;
    if AsSize(len) >= |p| && |p| > 0 {
      if tableOk {
        var table := new int[|p| + 1];
        BuildTable(p, table);
        // a negative length, compared as a size, gets here, but the search stops at its first test
        assert len < 0 ==> IntCast(AsSize(len)) < 0;
        if len >= 0 {
          r := Find(s[b..], p, table);
        }
        if r >= 0 {
          r := r + b;
        }
      }
    }
  }

  /** utstring_findR: the last occurrence that ends at or before the start, if that is not before the string. */
  method FindBackFrom(s: string, start: int, p: string, tableOk: bool) returns (r: int)
    requires Start(|s|, start) < |s| && |p| <= INT_MAX
    ensures p == [] || !tableOk || Start(|s|, start) < 0 ==> r == -1
    ensures p != [] && tableOk && Start(|s|, start) >= 0 ==> IsLast(s[..Start(|s|, start) + 1], p, r)
  {
    var b := if start < 0 then |s| + start else start;
    var len := b + 1;
    r := -1;
    if AsSize(len) >= |p| && |p| > 0 {
      if tableOk {
        var table := new int[|p| + 1];
        BuildTableR(p, table);
        // a negative length, compared as a size, gets here, but leaves no position to start from
        if len >= 0 {
          r := FindR(s[..len], p, table);
        }
      }
    }
  }
}
