/**
 The hash table of uthash: bucket chains threaded through the items, doubling of the bucket array, and
 a second list that keeps the items in application order.
 */
module UtHash {
  import opened LinkedLists
  import opened MergeSort
  import opened UtList

  // ----- masks and shifts -----

  function ShiftLeft(n: nat, k: nat): nat {
    if k == 0 then n else 2 * ShiftLeft(n, k - 1)
  }

  function ShiftRight(n: nat, k: nat): nat
    decreases k
  {
    if k == 0 then n else ShiftRight(n / 2, k - 1)
  }

  function Pow2(k: nat): (r: nat)
    ensures r > 0
  {
    if k == 0 then 1 else 2 * Pow2(k - 1)
  }

  /** Bitwise and of two unsigned numbers. */
  function BitAnd(a: nat, b: nat): nat
    decreases b
  {
    if b == 0 then 0 else (if a % 2 == 1 && b % 2 == 1 then 1 else 0) + 2 * BitAnd(a / 2, b / 2)
  }

  /** Masking with a power of two less one gives the remainder of the division that shifting performs. */
  lemma {:induction false} MaskIsRemainder(n: nat, k: nat)
    ensures BitAnd(n, Pow2(k) - 1) < Pow2(k)
    ensures n == ShiftLeft(ShiftRight(n, k), k) + BitAnd(n, Pow2(k) - 1)
    decreases k
  {
    if k > 0 {
      var m := 2 * Pow2(k - 1) - 1;
      assert m / 2 == Pow2(k - 1) - 1 && m % 2 == 1;
      MaskIsRemainder(n / 2, k - 1);
    }
  }

  /** The ceiling of `n / 2^k` as HASH_EXPAND_BUCKETS computes it. */
  function CeilShift(n: nat, k: nat): nat {
    ShiftRight(n, k) + (if BitAnd(n, Pow2(k) - 1) != 0 then 1 else 0)
  }

  lemma {:induction false} ShiftLeftNext(n: nat, k: nat)
    ensures ShiftLeft(n + 1, k) == ShiftLeft(n, k) + Pow2(k)
    ensures ShiftLeft(0, k) == 0
  {
    if k > 0 {
      ShiftLeftNext(n, k - 1);
    }
  }

  lemma {:induction false} CeilShiftSpec(n: nat, k: nat)
    ensures n <= ShiftLeft(CeilShift(n, k), k) < n + Pow2(k)
    ensures n > 0 ==> CeilShift(n, k) > 0
  {
    MaskIsRemainder(n, k);
    ShiftLeftNext(ShiftRight(n, k), k);
  }

  // ----- one bucket chain -----

  /** The links of a bucket chain. */
  ghost predicate Chain(c: seq<Node>, head: Node?)
    reads c
  {
    && head == At(c, 0)
    && (forall i {:trigger c[i].hhPrev} :: 0 <= i < |c| ==> c[i].hhPrev == PrevOf(c, i))
    && (forall i {:trigger c[i].hhNext} :: 0 <= i < |c| ==> c[i].hhNext == At(c, i + 1))
  }

  method ChainPush(head: Node?, add: Node, ghost c: seq<Node>)
    requires Distinct(c) && Chain(c, head) && add !in c
    modifies add`hhNext, add`hhPrev, Nodes(c)`hhPrev
    ensures Chain([add] + c, add)
  {
    add.hhNext := head;
    add.hhPrev := null;
    if head != null {
      assert c[0] in Nodes(c);
      head.hhPrev := add;
    }
  }

  method ChainDelete(head: Node?, del: Node, ghost c: seq<Node>, ghost k: nat) returns (newHead: Node?)
    requires Distinct(c) && Chain(c, head) && k < |c| && c[k] == del
    modifies Nodes(c)`hhNext, Nodes(c)`hhPrev
    ensures Chain(c[..k] + c[k+1..], newHead)
  {
    newHead := head;
    if head == del {
      newHead := del.hhNext;
    }
    if del.hhPrev != null {
      assert c[k-1] in Nodes(c);
      del.hhPrev.hhNext := del.hhNext;
    }
    if del.hhNext != null {
      assert c[k+1] in Nodes(c);
      del.hhNext.hhPrev := del.hhPrev;
    }
  }

  // ----- all bucket chains -----

  datatype Bucket = Bucket(head: Node?, count: nat, expandMult: nat)

  const EMPTY_BUCKET := Bucket(null, 0, 0)

  /** Each item stands once, in the chain `home` says, with `rank` items behind it. */
  ghost predicate Placed(chains: seq<seq<Node>>, home: Index, rank: Index) {
    forall b, i {:trigger chains[b][i]} :: 0 <= b < |chains| && 0 <= i < |chains[b]| ==>
      var n := chains[b][i]; n in home && home[n] == b && n in rank && rank[n] == |chains[b]| - 1 - i
  }

  ghost predicate BucketsOk(bs: seq<Bucket>, chains: seq<seq<Node>>, u: set<Node>)
    reads u
  {
    |bs| == |chains| && forall b :: 0 <= b < |bs| ==> BucketOk(bs[b], chains[b], u)
  }

  ghost predicate BucketOk(bkt: Bucket, c: seq<Node>, u: set<Node>)
    reads u
  {
    Within(c, u) && Chain(c, bkt.head) && bkt.count == |c|
  }

  lemma {:induction false} PlacedDistinct(chains: seq<seq<Node>>, home: Index, rank: Index, b: nat)
    requires Placed(chains, home, rank) && b < |chains|
    ensures Distinct(chains[b])
  {
  }

  /** HASH_ADD_TO_BKT without the expansion: the item goes to the front of chain `b`. */
  method PushBucket(buckets: array<Bucket>, b: nat, add: Node,
                    ghost chains: seq<seq<Node>>, ghost home: Index, ghost rank: Index, ghost u: set<Node>)
    requires Placed(chains, home, rank) && BucketsOk(buckets[..], chains, u)
    requires b < buckets.Length && add in u && add !in home
    modifies buckets, u`hhNext, u`hhPrev
    ensures Placed(chains[b := [add] + chains[b]], home[add := b], rank[add := |chains[b]|])
    ensures BucketsOk(buckets[..], chains[b := [add] + chains[b]], u)
    ensures buckets[..] == old(buckets[..])[b := Bucket(add, old(buckets[b].count) + 1, old(buckets[b].expandMult))]
    ensures forall n :: n in u && n != add ==> n.hhNext == old(n.hhNext)
  {
    ghost var bs, c := buckets[..], chains[b];
    assert BucketOk(bs[b], c, u);
    PlacedDistinct(chains, home, rank, b);
    LinkFront(buckets[b].head, add, chains, home, b, bs, u);
    buckets[b] := buckets[b].(count := buckets[b].count + 1, head := add);
    PlacedPush(chains, home, rank, b, add);
  }

  lemma {:induction false} PlacedPush(chains: seq<seq<Node>>, home: Index, rank: Index, b: nat, add: Node)
    requires Placed(chains, home, rank) && b < |chains| && add !in home
    ensures Placed(chains[b := [add] + chains[b]], home[add := b], rank[add := |chains[b]|])
  {
  }

  /** The pointer updates of HASH_ADD_TO_BKT leave all other chains alone. */
  method LinkFront(head: Node?, add: Node, ghost chains: seq<seq<Node>>, ghost home: Index, ghost b: nat,
                   ghost bs: seq<Bucket>, ghost u: set<Node>)
    requires BucketsOk(bs, chains, u) && b < |bs| && head == bs[b].head && add in u && add !in home
    requires forall x, i {:trigger chains[x][i]} :: 0 <= x < |chains| && 0 <= i < |chains[x]| ==>
      chains[x][i] in home && home[chains[x][i]] == x
    requires Distinct(chains[b])
    modifies u`hhNext, u`hhPrev
    ensures forall x :: 0 <= x < |bs| && x != b ==> BucketOk(bs[x], chains[x], u)
    ensures Within([add] + chains[b], u) && Chain([add] + chains[b], add)
    ensures forall n :: n in u && n != add ==> n.hhNext == old(n.hhNext)
  {
    ghost var c := chains[b];
    assert BucketOk(bs[b], c, u);
    assert add !in c;
    ChainPush(head, add, c);
    forall x | 0 <= x < |bs| && x != b ensures BucketOk(bs[x], chains[x], u) {
      assert old(BucketOk(bs[x], chains[x], u));
      forall i | 0 <= i < |chains[x]| ensures chains[x][i] != add && chains[x][i] !in Nodes(c) {
        assert home[chains[x][i]] == x;
      }
    }
  }

  /** Where the items of chain `b` stand once `del` is gone. */
  ghost function RankWithout(rank: Index, home: Index, b: nat, del: Node): Index
    requires del in rank
  {
    map n | n in rank && n != del :: if n in home && home[n] == b && rank[n] > rank[del] then rank[n] - 1 else rank[n]
  }

  lemma {:induction false} PlacedDelete(chains: seq<seq<Node>>, home: Index, rank: Index, b: nat, k: nat)
    requires Placed(chains, home, rank) && b < |chains| && k < |chains[b]|
    ensures chains[b][k] in rank
    ensures var c := chains[b];
      Placed(chains[b := c[..k] + c[k+1..]], home - {c[k]}, RankWithout(rank, home, b, c[k]))
  {
  }

  /** The pointer updates of HASH_DEL_IN_BKT leave all other chains alone. */
  method Unlink(head: Node?, del: Node, ghost chains: seq<seq<Node>>, ghost home: Index, ghost b: nat, ghost k: nat,
                ghost bs: seq<Bucket>, ghost u: set<Node>) returns (newHead: Node?)
    requires BucketsOk(bs, chains, u) && b < |bs| && head == bs[b].head && k < |chains[b]| && chains[b][k] == del
    requires forall x, i {:trigger chains[x][i]} :: 0 <= x < |chains| && 0 <= i < |chains[x]| ==>
      chains[x][i] in home && home[chains[x][i]] == x
    requires Distinct(chains[b])
    modifies u`hhNext, u`hhPrev
    ensures forall x :: 0 <= x < |bs| && x != b ==> BucketOk(bs[x], chains[x], u)
    ensures var c := chains[b][..k] + chains[b][k+1..]; Within(c, u) && Chain(c, newHead)
  {
    ghost var c := chains[b];
    assert BucketOk(bs[b], c, u);
    newHead := ChainDelete(head, del, c, k);
    forall x | 0 <= x < |bs| && x != b ensures BucketOk(bs[x], chains[x], u) {
      assert old(BucketOk(bs[x], chains[x], u));
      forall i | 0 <= i < |chains[x]| ensures chains[x][i] !in Nodes(c) {
        assert home[chains[x][i]] == x;
      }
    }
  }

  /** HASH_DEL_IN_BKT on the item at index `k` of chain `b`. */
  method DeleteInBucket(buckets: array<Bucket>, b: nat, del: Node, ghost chains: seq<seq<Node>>,
                        ghost home: Index, ghost rank: Index, ghost k: nat, ghost u: set<Node>)
    requires Placed(chains, home, rank) && BucketsOk(buckets[..], chains, u)
    requires b < buckets.Length && k < |chains[b]| && chains[b][k] == del
    modifies buckets, u`hhNext, u`hhPrev
    ensures BucketsOk(buckets[..], chains[b := chains[b][..k] + chains[b][k+1..]], u)
  {
    ghost var bs := buckets[..];
    assert BucketOk(bs[b], chains[b], u);
    PlacedDistinct(chains, home, rank, b);
    var newHead := Unlink(buckets[b].head, del, chains, home, b, k, bs, u);
    buckets[b] := buckets[b].(count := buckets[b].count - 1, head := newHead);
  }

  // ----- the items of all chains -----

  ghost function Items(chains: seq<seq<Node>>): multiset<Node> {
    if chains == [] then multiset{} else Items(chains[..|chains|-1]) + multiset(chains[|chains|-1])
  }

  /** The total of HASH_FSCK's bucket counts. */
  ghost function TotalCount(bs: seq<Bucket>): nat {
    if bs == [] then 0 else TotalCount(bs[..|bs|-1]) + bs[|bs|-1].count
  }

  /** One chain gains the item `n`. */
  lemma {:induction false} ItemsGain(chains: seq<seq<Node>>, b: nat, c: seq<Node>, n: Node)
    requires b < |chains| && multiset(c) == multiset(chains[b]) + multiset{n}
    ensures Items(chains[b := c]) == Items(chains) + multiset{n}
  {
    var m := |chains| - 1;
    if b == m {
      assert chains[b := c][..m] == chains[..m];
    } else {
      ItemsGain(chains[..m], b, c, n);
      assert chains[b := c][..m] == chains[..m][b := c];
    }
  }

  lemma {:induction false} ItemsMember(chains: seq<seq<Node>>, n: Node) returns (b: nat, i: nat)
    requires n in Items(chains)
    ensures b < |chains| && i < |chains[b]| && chains[b][i] == n
  {
    var m := |chains| - 1;
    if n in chains[m] {
      b := m;
      i :| 0 <= i < |chains[m]| && chains[m][i] == n;
    } else {
      b, i := ItemsMember(chains[..m], n);
    }
  }

  lemma {:induction false} MemberInItems(chains: seq<seq<Node>>, b: nat, i: nat)
    requires b < |chains| && i < |chains[b]|
    ensures chains[b][i] in Items(chains)
  {
    var m := |chains| - 1;
    if b < m {
      MemberInItems(chains[..m], b, i);
    }
  }

  lemma {:induction false} CountIsItems(bs: seq<Bucket>, chains: seq<seq<Node>>)
    requires |bs| == |chains| && forall b :: 0 <= b < |bs| ==> bs[b].count == |chains[b]|
    ensures TotalCount(bs) == |Items(chains)|
  {
    if bs != [] {
      CountIsItems(bs[..|bs|-1], chains[..|chains|-1]);
    }
  }

  ghost function EmptyChains(n: nat): seq<seq<Node>> {
    seq(n, _ => [])
  }

  lemma {:induction false} NoItems(n: nat)
    ensures Items(EmptyChains(n)) == multiset{}
  {
    if n > 0 {
      NoItems(n - 1);
      assert EmptyChains(n)[..n-1] == EmptyChains(n - 1);
    }
  }

  // ----- doubling the bucket array -----

  /** Items in `home` stand in the bucket their hash value selects among `size`. */
  ghost predicate Hashed(home: Index, size: nat, u: set<Node>)
    requires size > 0
    reads u
  {
    forall n :: n in home ==> n in u && home[n] == BitAnd(n.hashv, size - 1)
  }

  function Quotient(count: nat, ideal: nat): nat
    requires ideal > 0
  {
    count / ideal
  }

  /** What HASH_EXPAND_BUCKETS leaves in a bucket's `expand_mult`. */
  ghost predicate Multiplied(bs: seq<Bucket>, ideal: nat)
    requires ideal > 0
  {
    forall b :: 0 <= b < |bs| ==> bs[b].expandMult == if bs[b].count > ideal then Quotient(bs[b].count, ideal) else 0
  }

  /** The items beyond the ideal chain length. */
  function Over(length: nat, ideal: nat): nat {
    if length > ideal then length - ideal else 0
  }

  ghost function Excess(chains: seq<seq<Node>>, ideal: nat): nat {
    if chains == [] then 0 else Excess(chains[..|chains|-1], ideal) + Over(|chains[|chains|-1]|, ideal)
  }

  lemma {:induction false} ExcessGain(chains: seq<seq<Node>>, b: nat, c: seq<Node>, ideal: nat)
    requires b < |chains| && |c| == |chains[b]| + 1
    ensures Excess(chains[b := c], ideal) == Excess(chains, ideal) + if |c| > ideal then 1 else 0
  {
    var m := |chains| - 1;
    if b == m {
      assert chains[b := c][..m] == chains[..m];
    } else {
      ExcessGain(chains[..m], b, c, ideal);
      assert chains[b := c][..m] == chains[..m][b := c];
    }
  }

  lemma {:induction false} NoExcess(n: nat, ideal: nat)
    ensures Excess(EmptyChains(n), ideal) == 0
  {
    if n > 0 {
      NoExcess(n - 1, ideal);
      assert EmptyChains(n)[..n-1] == EmptyChains(n - 1);
    }
  }

  /** The state of the new bucket array while the items move over one by one. */
  ghost predicate NewOk(nbs: seq<Bucket>, nchains: seq<seq<Node>>, home: Index, rank: Index, k: nat, ideal: nat, u: set<Node>)
    requires ideal > 0
    reads u
  {
    && |nbs| == Pow2(k) && Placed(nchains, home, rank) && BucketsOk(nbs, nchains, u)
    && Hashed(home, Pow2(k), u) && Multiplied(nbs, ideal)
  }

  /** The body of the inner loop of HASH_EXPAND_BUCKETS: one item moves to its new bucket. */
  method MoveItem(newBuckets: array<Bucket>, n: Node, ideal: nat, nonideal0: nat, ghost k: nat,
                  ghost nchains: seq<seq<Node>>, ghost home: Index, ghost rank: Index, ghost u: set<Node>)
    returns (nonideal: nat, ghost b: nat)
    requires ideal > 0 && NewOk(newBuckets[..], nchains, home, rank, k, ideal, u) && n in u && n !in home
    modifies newBuckets, u`hhNext, u`hhPrev
    ensures b < |nchains| && nonideal == nonideal0 + if |nchains[b]| + 1 > ideal then 1 else 0
    ensures NewOk(newBuckets[..], nchains[b := [n] + nchains[b]], home[n := b], rank[n := |nchains[b]|], k, ideal, u)
    ensures forall x :: x in u && x != n ==> x.hhNext == old(x.hhNext)
  {
    MaskIsRemainder(n.hashv, k);
    var bkt := BitAnd(n.hashv, newBuckets.Length - 1);
    b := bkt;
    nonideal := nonideal0;
    ghost var bs := newBuckets[..];
    PushBucket(newBuckets, bkt, n, nchains, home, rank, u);
    if newBuckets[bkt].count > ideal {
      nonideal := nonideal + 1;
      newBuckets[bkt] := newBuckets[bkt].(expandMult := Quotient(newBuckets[bkt].count, ideal));
    }
  }

  /** The items of `s` from `j` on have not moved and are still linked. */
  ghost predicate Waiting(c: seq<Node>, j: nat, home: Index)
    reads c
  {
    && (forall i {:trigger c[i].hhNext} :: j <= i < |c| ==> c[i].hhNext == At(c, i + 1))
    && (forall i :: j <= i < |c| ==> c[i] !in home)
  }

  /** The state of HASH_EXPAND_BUCKETS with `j` items of the old chain `c` moved. */
  ghost predicate Moving(nbs: seq<Bucket>, nchains: seq<seq<Node>>, home: Index, rank: Index, k: nat, ideal: nat, u: set<Node>,
                         c: seq<Node>, j: nat, base: multiset<Node>, keys: set<Node>)
    requires ideal > 0
    reads u, c
  {
    && j <= |c| && Distinct(c) && Within(c, u)
    && NewOk(nbs, nchains, home, rank, k, ideal, u) && Waiting(c, j, home)
    && Items(nchains) == base + multiset(c[..j]) && home.Keys == keys + Nodes(c[..j])
  }

  method MoveNext(newBuckets: array<Bucket>, n: Node, ideal: nat, nonideal0: nat, ghost k: nat, ghost c: seq<Node>, ghost j: nat,
                  ghost nchains0: seq<seq<Node>>, ghost home0: Index, ghost rank0: Index, ghost u: set<Node>,
                  ghost base: multiset<Node>, ghost keys: set<Node>)
    returns (nonideal: nat, ghost nchains: seq<seq<Node>>, ghost home: Index, ghost rank: Index)
    requires ideal > 0 && Moving(newBuckets[..], nchains0, home0, rank0, k, ideal, u, c, j, base, keys)
    requires j < |c| && n == c[j] && nonideal0 == Excess(nchains0, ideal)
    modifies newBuckets, u`hhNext, u`hhPrev
    ensures nonideal == Excess(nchains, ideal)
    ensures Moving(newBuckets[..], nchains, home, rank, k, ideal, u, c, j + 1, base, keys)
    ensures forall x :: x in u && x != n ==> x.hhNext == old(x.hhNext)
  {
    ghost var b;
    nonideal, b := MoveItem(newBuckets, n, ideal, nonideal0, k, nchains0, home0, rank0, u);
    nchains, home, rank := nchains0[b := [n] + nchains0[b]], home0[n := b], rank0[n := |nchains0[b]|];
    ItemMoved(nchains0, home0, b, c, j, base, keys);
    ExcessGain(nchains0, b, [n] + nchains0[b], ideal);
  }

  lemma {:induction false} ItemMoved(nchains: seq<seq<Node>>, home: Index, b: nat, c: seq<Node>, j: nat, base: multiset<Node>, keys: set<Node>)
    requires b < |nchains| && j < |c|
    requires Items(nchains) == base + multiset(c[..j]) && home.Keys == keys + Nodes(c[..j])
    ensures Items(nchains[b := [c[j]] + nchains[b]]) == base + multiset(c[..j+1])
    ensures home[c[j] := b].Keys == keys + Nodes(c[..j+1])
  {
    ItemsGain(nchains, b, [c[j]] + nchains[b], c[j]);
    assert c[..j+1] == c[..j] + [c[j]];
  }

  /** The inner loop of HASH_EXPAND_BUCKETS: the items of one old chain move to the new buckets. */
  method MoveChain(newBuckets: array<Bucket>, head: Node?, ideal: nat, nonideal0: nat, ghost k: nat, ghost c: seq<Node>,
                   ghost nchains0: seq<seq<Node>>, ghost home0: Index, ghost rank0: Index, ghost u: set<Node>)
    returns (nonideal: nat, ghost nchains: seq<seq<Node>>, ghost home: Index, ghost rank: Index)
    requires ideal > 0 && NewOk(newBuckets[..], nchains0, home0, rank0, k, ideal, u)
    requires Distinct(c) && Within(c, u) && head == At(c, 0) && Waiting(c, 0, home0)
    requires nonideal0 == Excess(nchains0, ideal)
    modifies newBuckets, u`hhNext, u`hhPrev
    ensures NewOk(newBuckets[..], nchains, home, rank, k, ideal, u) && nonideal == Excess(nchains, ideal)
    ensures Items(nchains) == Items(nchains0) + multiset(c) && home.Keys == home0.Keys + Nodes(c)
    ensures forall x :: x in u && x !in c ==> x.hhNext == old(x.hhNext)
  {
    var thh := head;
    nonideal, nchains, home, rank := nonideal0, nchains0, home0, rank0;
    ghost var j: nat, base, keys := 0, Items(nchains0), home0.Keys;
    while thh != null
      invariant Moving(newBuckets[..], nchains, home, rank, k, ideal, u, c, j, base, keys)
      invariant thh == At(c, j) && nonideal == Excess(nchains, ideal)
      invariant forall x :: x in u && x !in c ==> x.hhNext == old(x.hhNext)
      decreases |c| - j
    {
      var next := thh.hhNext;
      nonideal, nchains, home, rank := MoveNext(newBuckets, thh, ideal, nonideal, k, c, j, nchains, home, rank, u, base, keys);
      thh, j := next, j + 1;
    }
    assert c[..j] == c;
  }

  /** Chains from `i` on are untouched by the move; the moved items come from earlier chains. */
  ghost predicate Ahead(chains: seq<seq<Node>>, i: nat, home0: Index, home: Index, u: set<Node>)
    reads u
  {
    && (forall n :: n in home ==> n in home0 && home0[n] < i)
    && (forall b :: i <= b < |chains| ==> Within(chains[b], u) && Waiting(chains[b], 0, home))
  }

  lemma {:induction false} ItemsNext(chains: seq<seq<Node>>, i: nat)
    requires i < |chains|
    ensures Items(chains[..i+1]) == Items(chains[..i]) + multiset(chains[i])
  {
    assert chains[..i+1][..i] == chains[..i];
  }

  /** One turn of the outer loop of HASH_EXPAND_BUCKETS. */
  method MoveBucket(head: Node?, newBuckets: array<Bucket>, ideal: nat, nonideal0: nat, ghost k: nat, ghost i: nat,
                    ghost chains: seq<seq<Node>>, ghost home0: Index, ghost rank0: Index,
                    ghost nchains0: seq<seq<Node>>, ghost nhome0: Index, ghost nrank0: Index, ghost u: set<Node>)
    returns (nonideal: nat, ghost nchains: seq<seq<Node>>, ghost home: Index, ghost rank: Index)
    requires ideal > 0 && Placed(chains, home0, rank0) && i < |chains| && head == At(chains[i], 0)
    requires NewOk(newBuckets[..], nchains0, nhome0, nrank0, k, ideal, u)
    requires Ahead(chains, i, home0, nhome0, u) && Items(nchains0) == Items(chains[..i])
    requires nonideal0 == Excess(nchains0, ideal)
    modifies newBuckets, u`hhNext, u`hhPrev
    ensures NewOk(newBuckets[..], nchains, home, rank, k, ideal, u) && nonideal == Excess(nchains, ideal)
    ensures Ahead(chains, i + 1, home0, home, u) && Items(nchains) == Items(chains[..i+1])
  {
    ghost var c := chains[i];
    PlacedDistinct(chains, home0, rank0, i);
    assert Waiting(c, 0, nhome0);
    nonideal, nchains, home, rank := MoveChain(newBuckets, head, ideal, nonideal0, k, c, nchains0, nhome0, nrank0, u);
    ItemsNext(chains, i);
    forall n | n in home ensures n in home0 && home0[n] < i + 1 {
      if n !in nhome0 {
        var j :| 0 <= j < |c| && c[j] == n;
        assert chains[i][j] == n;
      }
    }
    forall b | i + 1 <= b < |chains| ensures Waiting(chains[b], 0, home) {
      assert old(Waiting(chains[b], 0, nhome0));
      forall j | 0 <= j < |chains[b]| ensures chains[b][j] !in home && chains[b][j] !in c {
        assert home0[chains[b][j]] == b;
      }
    }
  }

  lemma {:induction false} FreshOk(bs: seq<Bucket>, k: nat, ideal: nat, u: set<Node>)
    requires ideal > 0 && |bs| == Pow2(k) && forall b :: 0 <= b < |bs| ==> bs[b] == EMPTY_BUCKET
    ensures NewOk(bs, EmptyChains(|bs|), map[], map[], k, ideal, u)
    ensures Items(EmptyChains(|bs|)) == multiset{}
  {
    NoItems(|bs|);
  }

  /** The loops of HASH_EXPAND_BUCKETS. */
  method MoveAll(buckets: array<Bucket>, newBuckets: array<Bucket>, ideal: nat, ghost k: nat,
                 ghost chains: seq<seq<Node>>, ghost home0: Index, ghost rank0: Index, ghost u: set<Node>)
    returns (nonideal: nat, ghost nchains: seq<seq<Node>>, ghost home: Index, ghost rank: Index)
    requires ideal > 0 && buckets != newBuckets && newBuckets.Length == Pow2(k)
    requires forall b :: 0 <= b < newBuckets.Length ==> newBuckets[b] == EMPTY_BUCKET
    requires Placed(chains, home0, rank0) && BucketsOk(buckets[..], chains, u)
    modifies newBuckets, u`hhNext, u`hhPrev
    ensures NewOk(newBuckets[..], nchains, home, rank, k, ideal, u) && nonideal == Excess(nchains, ideal)
    ensures Items(nchains) == Items(chains)
  {
    ghost var bs := buckets[..];
    FreshOk(newBuckets[..], k, ideal, u);
    NoExcess(newBuckets.Length, ideal);
    nonideal, nchains, home, rank := 0, EmptyChains(newBuckets.Length), map[], map[];
    forall b | 0 <= b < |chains| ensures Within(chains[b], u) && Waiting(chains[b], 0, home) {
      assert BucketOk(bs[b], chains[b], u);
    }
    ghost var heads := forall b :: 0 <= b < |bs| ==> bs[b].head == At(chains[b], 0);
    assert heads by {
      forall b | 0 <= b < |bs| ensures bs[b].head == At(chains[b], 0) {
        assert BucketOk(bs[b], chains[b], u);
      }
    }
    for i := 0 to buckets.Length
      invariant buckets[..] == bs
      invariant NewOk(newBuckets[..], nchains, home, rank, k, ideal, u) && nonideal == Excess(nchains, ideal)
      invariant Ahead(chains, i, home0, home, u) && Items(nchains) == Items(chains[..i])
    {
      nonideal, nchains, home, rank := MoveBucket(buckets[i].head, newBuckets, ideal, nonideal, k, i,
                                                  chains, home0, rank0, nchains, home, rank, u);
    }
    assert chains[..buckets.Length] == chains;
  }

  // ----- the table -----

  const INITIAL_NUM_BUCKETS := 32
  const INITIAL_NUM_BUCKETS_LOG2 := 5
  const BKT_CAPACITY_THRESH := 10

  /** The list of all items in application order. */
  ghost predicate AppList(app: seq<Node>, head: Node?, tail: Node?)
    reads app
  {
    && head == At(app, 0)
    && tail == PrevOf(app, |app|)
    && (forall i {:trigger app[i].prev} :: 0 <= i < |app| ==> app[i].prev == PrevOf(app, i))
    && (forall i {:trigger app[i].next} :: 0 <= i < |app| ==> app[i].next == At(app, i + 1))
  }

  /** Every item is in exactly one chain, the one its key hashes to. */
  ghost predicate ChainsOk(app: seq<Node>, bs: seq<Bucket>, chains: seq<seq<Node>>, home: Index, rank: Index,
                           k: nat, hash: string -> nat)
    reads app
  {
    && |bs| == Pow2(k)
    && Placed(chains, home, rank)
    && BucketsOk(bs, chains, Nodes(app))
    && Hashed(home, |bs|, Nodes(app))
    && Items(chains) == multiset(app)
    && (forall n :: n in app ==> n.hashv == hash(n.key))
  }

  method IdealLength(numItems: nat, numBuckets: nat, k: nat) returns (ideal: nat)
    requires numItems > 0 && numBuckets == Pow2(k)
    ensures ideal == CeilShift(numItems, k) && ideal > 0
  {
    ideal := ShiftRight(numItems, k) + (if BitAnd(numItems, numBuckets - 1) != 0 then 1 else 0);
    CeilShiftSpec(numItems, k);
  }

  /** The new bucket array of HASH_EXPAND_BUCKETS, with the ideal chain length for it. */
  method Rehash(buckets: array<Bucket>, numItems: nat, log2: nat, ghost app: seq<Node>, ghost chains: seq<seq<Node>>,
                ghost home: Index, ghost rank: Index, ghost hash: string -> nat)
    returns (newBuckets: array<Bucket>, ideal: nat, nonideal: nat,
             ghost nchains: seq<seq<Node>>, ghost nhome: Index, ghost nrank: Index)
    requires numItems == |app| > 0 && ChainsOk(app, buckets[..], chains, home, rank, log2, hash)
    modifies Nodes(app)`hhNext, Nodes(app)`hhPrev
    ensures fresh(newBuckets) && ideal == CeilShift(numItems, log2 + 1) && nonideal == Excess(nchains, ideal)
    ensures ChainsOk(app, newBuckets[..], nchains, nhome, nrank, log2 + 1, hash)
  {
    newBuckets := new Bucket[2 * buckets.Length](_ => EMPTY_BUCKET);
    ideal := IdealLength(numItems, newBuckets.Length, log2 + 1);
    nonideal, nchains, nhome, nrank := MoveAll(buckets, newBuckets, ideal, log2 + 1, chains, home, rank, Nodes(app));
  }

  /** UT_hash_table. */
  datatype Table = Table(buckets: array<Bucket>, numBuckets: nat, log2NumBuckets: nat, numItems: nat, tail: Node?,
                         idealChainMaxlen: nat, nonidealItems: nat, ineffExpands: nat, noexpand: bool)

  /** HASH_EXPAND_BUCKETS. */
  method ExpandBuckets(tbl: Table, ghost app: seq<Node>, ghost chains: seq<seq<Node>>, ghost home: Index, ghost rank: Index,
                       ghost hash: string -> nat)
    returns (r: Table, ghost nchains: seq<seq<Node>>, ghost nhome: Index, ghost nrank: Index)
    requires app != [] && TableOk(tbl, app, chains, home, rank, hash)
    modifies Nodes(app)`hhNext, Nodes(app)`hhPrev
    ensures TableOk(r, app, nchains, nhome, nrank, hash) && r.tail == tbl.tail && fresh(r.buckets)
    ensures r.numBuckets == 2 * tbl.numBuckets && r.idealChainMaxlen == CeilShift(r.numItems, r.log2NumBuckets)
    ensures r.nonidealItems == Excess(nchains, r.idealChainMaxlen)
    ensures r.ineffExpands == if r.nonidealItems > ShiftRight(r.numItems, 1) then tbl.ineffExpands + 1 else 0
    ensures r.noexpand <==> r.ineffExpands > 1 || tbl.noexpand
  {
    var newBuckets, ideal, nonideal;
    newBuckets, ideal, nonideal, nchains, nhome, nrank :=
      Rehash(tbl.buckets, tbl.numItems, tbl.log2NumBuckets, app, chains, home, rank, hash);
    var ineff := if nonideal > ShiftRight(tbl.numItems, 1) then tbl.ineffExpands + 1 else 0;
    r := Table(newBuckets, 2 * tbl.numBuckets, tbl.log2NumBuckets + 1, tbl.numItems, tbl.tail,
               ideal, nonideal, ineff, ineff > 1 || tbl.noexpand);
  }

  ghost predicate TableOk(tbl: Table, app: seq<Node>, chains: seq<seq<Node>>, home: Index, rank: Index, hash: string -> nat)
    reads tbl.buckets, app
  {
    && tbl.numItems == |app| && tbl.numBuckets == tbl.buckets.Length
    && ChainsOk(app, tbl.buckets[..], chains, home, rank, tbl.log2NumBuckets, hash)
  }

  lemma {:induction false} Widen(bs: seq<Bucket>, chains: seq<seq<Node>>, u: set<Node>, v: set<Node>)
    requires BucketsOk(bs, chains, u) && u <= v
    ensures BucketsOk(bs, chains, v)
  {
  }

  function BucketOf(numBuckets: nat, hashv: nat): nat {
    if numBuckets == 0 then 0 else BitAnd(hashv, numBuckets - 1)
  }

  /** The bucket of a hash has one more item. */
  predicate PushedAt(before: seq<Bucket>, after: seq<Bucket>, b: nat, numBuckets: nat, hashv: nat) {
    && b < |before| == |after| && b == BucketOf(numBuckets, hashv)
    && after[b].count == before[b].count + 1 && after[b].expandMult == before[b].expandMult
  }

  /** Whether a bucket makes the table expand. */
  predicate Overfull(b: Bucket, noexpand: bool) {
    b.count >= (b.expandMult + 1) * BKT_CAPACITY_THRESH && !noexpand
  }

  /** The item joins the bucket its key hashes to. */
  method AddToBucket(tbl: Table, add: Node, ghost app: seq<Node>, ghost chains: seq<seq<Node>>,
                     ghost home: Index, ghost rank: Index, ghost hash: string -> nat)
    returns (ghost nchains: seq<seq<Node>>, ghost nhome: Index, ghost nrank: Index, bkt: nat)
    requires ChainsOk(app, tbl.buckets[..], chains, home, rank, tbl.log2NumBuckets, hash)
    requires tbl.numBuckets == tbl.buckets.Length && add !in app && add.hashv == hash(add.key)
    modifies tbl.buckets, Nodes(app + [add])`hhNext, Nodes(app + [add])`hhPrev
    ensures ChainsOk(app + [add], tbl.buckets[..], nchains, nhome, nrank, tbl.log2NumBuckets, hash)
    ensures PushedAt(old(tbl.buckets[..]), tbl.buckets[..], bkt, tbl.numBuckets, add.hashv)
  {
    ghost var v, app' := Nodes(app + [add]), app + [add];
    Widen(tbl.buckets[..], chains, Nodes(app), v);
    MaskIsRemainder(add.hashv, tbl.log2NumBuckets);
    bkt := BitAnd(add.hashv, tbl.numBuckets - 1);
    assert add in v && add !in home;
    PushBucket(tbl.buckets, bkt, add, chains, home, rank, v);
    nchains, nhome, nrank := chains[bkt := [add] + chains[bkt]], home[add := bkt], rank[add := |chains[bkt]|];
    ItemsGain(chains, bkt, [add] + chains[bkt], add);
    assert multiset(app') == multiset(app) + multiset{add};
    assert Hashed(nhome, tbl.buckets.Length, v) by {
      assert old(Hashed(home, tbl.buckets.Length, Nodes(app)));
    }
  }

  method MaybeExpand(tbl: Table, bkt: nat, ghost app: seq<Node>, ghost chains: seq<seq<Node>>,
                     ghost home: Index, ghost rank: Index, ghost hash: string -> nat)
    returns (r: Table, ghost nchains: seq<seq<Node>>, ghost nhome: Index, ghost nrank: Index)
    requires app != [] && TableOk(tbl, app, chains, home, rank, hash) && bkt < tbl.buckets.Length
    modifies Nodes(app)`hhNext, Nodes(app)`hhPrev
    ensures TableOk(r, app, nchains, nhome, nrank, hash) && r.tail == tbl.tail && (r.buckets == tbl.buckets || fresh(r.buckets))
    ensures if Overfull(old(tbl.buckets[..])[bkt], tbl.noexpand) then r.numBuckets == 2 * tbl.numBuckets else r == tbl
  {
    r, nchains, nhome, nrank := tbl, chains, home, rank;
    if tbl.buckets[bkt].count >= (tbl.buckets[bkt].expandMult + 1) * BKT_CAPACITY_THRESH && !tbl.noexpand {
      r, nchains, nhome, nrank := ExpandBuckets(tbl, app, chains, home, rank, hash);
    }
  }

  /** The hash is stored in the item, and the item joins its bucket. */
  method AddHashed(tbl: Table, add: Node, ghost app: seq<Node>, ghost chains: seq<seq<Node>>,
                   ghost home: Index, ghost rank: Index, hash: string -> nat)
    returns (r: Table, ghost nchains: seq<seq<Node>>, ghost nhome: Index, ghost nrank: Index, bkt: nat)
    requires TableOk(tbl, app, chains, home, rank, hash) && add !in app
    modifies tbl.buckets, add`hashv, Nodes(app + [add])`hhNext, Nodes(app + [add])`hhPrev
    ensures r == tbl.(numItems := tbl.numItems + 1) && TableOk(r, app + [add], nchains, nhome, nrank, hash)
    ensures PushedAt(old(tbl.buckets[..]), tbl.buckets[..], bkt, tbl.numBuckets, hash(add.key))
  {
    add.hashv := hash(add.key);
    nchains, nhome, nrank, bkt := AddToBucket(tbl, add, app, chains, home, rank, hash);
    r := tbl.(numItems := tbl.numItems + 1);
  }

  /** HASH_ADD_TO_BKT as HASH_ADD_KEYPTR uses it, with the expansion of an overfull bucket. */
  method AddItem(tbl: Table, add: Node, ghost app: seq<Node>, ghost chains: seq<seq<Node>>,
                 ghost home: Index, ghost rank: Index, hash: string -> nat)
    returns (r: Table, ghost nchains: seq<seq<Node>>, ghost nhome: Index, ghost nrank: Index)
    requires TableOk(tbl, app, chains, home, rank, hash) && add !in app
    modifies tbl.buckets, add`hashv, Nodes(app + [add])`hhNext, Nodes(app + [add])`hhPrev
    ensures TableOk(r, app + [add], nchains, nhome, nrank, hash) && r.tail == tbl.tail
    ensures r.buckets == tbl.buckets || fresh(r.buckets)
    ensures Doubles(old(tbl.buckets[..]), tbl, hash(add.key), r)
  {
    var bkt;
    r, nchains, nhome, nrank, bkt := AddHashed(tbl, add, app, chains, home, rank, hash);
    r, nchains, nhome, nrank := MaybeExpand(r, bkt, app + [add], nchains, nhome, nrank, hash);
  }

  /** The number of buckets doubles exactly when the bucket of the hash becomes overfull. */
  predicate Doubles(before: seq<Bucket>, tbl: Table, hashv: nat, r: Table) {
    var b := BucketOf(tbl.numBuckets, hashv);
    && b < |before|
    && if Overfull(before[b].(count := before[b].count + 1), tbl.noexpand) then r.numBuckets == 2 * tbl.numBuckets
       else r == tbl.(numItems := tbl.numItems + 1)
  }

  /** HASH_MAKE_TABLE. */
  method MakeTable(tail: Node, ghost hash: string -> nat) returns (tbl: Table, ghost chains: seq<seq<Node>>)
    ensures TableOk(tbl, [], chains, map[], map[], hash) && tbl.tail == tail && fresh(tbl.buckets)
    ensures tbl.numBuckets == INITIAL_NUM_BUCKETS
  {
    var buckets := new Bucket[INITIAL_NUM_BUCKETS](_ => EMPTY_BUCKET);
    tbl := Table(buckets, INITIAL_NUM_BUCKETS, INITIAL_NUM_BUCKETS_LOG2, 0, tail, 0, 0, 0, false);
    chains := EmptyChains(INITIAL_NUM_BUCKETS);
    NoItems(INITIAL_NUM_BUCKETS);
    assert Pow2(5) == 2 * Pow2(4) == 4 * Pow2(3) == 8 * Pow2(2) == 16 * Pow2(1);
  }

  // ----- finding -----

  /** HASH_FIND_IN_BKT: walks the chain to the first item with the key. */
  method FindInBucket(head: Node?, key: string, ghost c: seq<Node>) returns (out: Node?)
    requires Chain(c, head)
    ensures out != null ==> out in c && out.key == key
    ensures out == null ==> forall i :: 0 <= i < |c| ==> c[i].key != key
  {
    out := head;
    ghost var i: nat := 0;
    while out != null
      invariant i <= |c| && out == At(c, i)
      invariant forall j :: 0 <= j < i ==> c[j].key != key
      decreases |c| - i
    {
      if out.key == key {
        break;
      }
      out := out.hhNext;
      i := i + 1;
    }
  }

  lemma {:induction false} InOwnBucket(app: seq<Node>, bs: seq<Bucket>, chains: seq<seq<Node>>, home: Index, rank: Index, k: nat,
                    hash: string -> nat, n: Node)
    requires ChainsOk(app, bs, chains, home, rank, k, hash) && n in app
    ensures var b := BitAnd(hash(n.key), |bs| - 1); b < |chains| && n in chains[b]
  {
    assert n in multiset(app);
    var b, i := ItemsMember(chains, n);
  }

  lemma {:induction false} ChainInApp(app: seq<Node>, chains: seq<seq<Node>>, b: nat, n: Node)
    requires Items(chains) == multiset(app) && b < |chains| && n in chains[b]
    ensures n in app
  {
    var i :| 0 <= i < |chains[b]| && chains[b][i] == n;
    MemberInItems(chains, b, i);
    assert n in multiset(app);
  }

  /** HASH_FIND on a table with items. */
  method FindItem(tbl: Table, key: string, ghost app: seq<Node>, ghost chains: seq<seq<Node>>,
                  ghost home: Index, ghost rank: Index, hash: string -> nat) returns (out: Node?)
    requires TableOk(tbl, app, chains, home, rank, hash)
    ensures out != null ==> out in app && out.key == key
    ensures out == null ==> forall n :: n in app ==> n.key != key
  {
    MaskIsRemainder(hash(key), tbl.log2NumBuckets);
    var bkt := BitAnd(hash(key), tbl.numBuckets - 1);
    ghost var bs := tbl.buckets[..];
    assert BucketOk(bs[bkt], chains[bkt], Nodes(app));
    out := FindInBucket(tbl.buckets[bkt].head, key, chains[bkt]);
    if out != null {
      ChainInApp(app, chains, bkt, out);
    } else {
      forall n | n in app ensures n.key != key {
        if n.key == key {
          InOwnBucket(app, bs, chains, home, rank, tbl.log2NumBuckets, hash, n);
          assert false;
        }
      }
    }
  }

  // ----- the application-order list -----

  method AppendApp(tail: Node, add: Node, ghost app: seq<Node>, ghost head: Node?)
    requires app != [] && Distinct(app) && AppList(app, head, tail) && add !in app
    modifies Nodes(app)`next, add`prev, add`next
    ensures AppList(app + [add], head, add) && Distinct(app + [add])
  {
    add.next := null;
    assert app[|app|-1] in Nodes(app);
    tail.next := add;
    add.prev := tail;
  }

  /** The items without the one at index `k`. */
  ghost function Without(app: seq<Node>, k: nat): seq<Node>
    requires k < |app|
  {
    app[..k] + app[k+1..]
  }

  /** The pointers after the list patch-up of HASH_DELETE: only the neighbours of the deleted item changed. */
  ghost predicate Bridged(app: seq<Node>, k: nat)
    requires k < |app|
    reads app
  {
    && (forall i {:trigger app[i].next} :: 0 <= i < |app| && i != k ==>
          app[i].next == if i == k - 1 then At(app, k + 1) else At(app, i + 1))
    && (forall i {:trigger app[i].prev} :: 0 <= i < |app| && i != k ==>
          app[i].prev == if i == k + 1 then PrevOf(app, k) else PrevOf(app, i))
  }

  lemma {:induction false} BridgedList(app: seq<Node>, k: nat, head: Node?, tail: Node?)
    requires k < |app| && Bridged(app, k)
    requires head == (if k == 0 then At(app, 1) else app[0])
    requires tail == (if k == |app| - 1 then PrevOf(app, k) else app[|app|-1])
    ensures AppList(Without(app, k), head, tail)
  {
  }

  /** The list patch-up of HASH_DELETE, for an item that is not alone in the table. */
  method DeleteApp(head: Node?, tail: Node?, del: Node, ghost app: seq<Node>, ghost idx: Index, ghost k: nat)
    returns (newHead: Node?, newTail: Node?)
    requires Indexed(app, idx) && AppList(app, head, tail) && k < |app| && app[k] == del
    modifies Nodes(app)`next, Nodes(app)`prev
    ensures AppList(Without(app, k), newHead, newTail)
  {
    newHead, newTail := head, tail;
    if del == tail {
      newTail := del.prev;
    }
    if del.prev != null {
      assert app[k-1] in Nodes(app);
      del.prev.next := del.next;
    } else {
      newHead := del.next;
    }
    if del.next != null {
      assert app[k+1] in Nodes(app);
      del.next.prev := del.prev;
    }
    assert Bridged(app, k);
    BridgedList(app, k, newHead, newTail);
  }

  lemma {:induction false} WithoutMembers(app: seq<Node>, k: nat)
    requires Distinct(app) && k < |app|
    ensures Nodes(Without(app, k)) == Nodes(app) - {app[k]}
    ensures multiset(app) == multiset(Without(app, k)) + multiset{app[k]}
  {
    var w := Without(app, k);
    assert app == app[..k] + [app[k]] + app[k+1..];
    forall n | n in app && n != app[k] ensures n in w {
      var i :| 0 <= i < |app| && app[i] == n;
      assert if i < k then w[i] == n else w[i-1] == n;
    }
  }

  lemma {:induction false} Narrow(app: seq<Node>, bs: seq<Bucket>, chains: seq<seq<Node>>, u: set<Node>)
    requires BucketsOk(bs, chains, u) && Items(chains) == multiset(app)
    ensures BucketsOk(bs, chains, Nodes(app))
  {
    forall b | 0 <= b < |bs| ensures BucketOk(bs[b], chains[b], Nodes(app)) {
      assert BucketOk(bs[b], chains[b], u);
      forall i | 0 <= i < |chains[b]| ensures chains[b][i] in Nodes(app) {
        ChainInApp(app, chains, b, chains[b][i]);
      }
    }
  }

  lemma {:induction false} DeletedItems(app: seq<Node>, k: nat, chains: seq<seq<Node>>, b: nat, j: nat)
    requires Distinct(app) && k < |app| && Items(chains) == multiset(app)
    requires b < |chains| && j < |chains[b]| && chains[b][j] == app[k]
    ensures Items(chains[b := chains[b][..j] + chains[b][j+1..]]) == multiset(Without(app, k))
  {
    var c, del := chains[b], app[k];
    var cs := chains[b := c[..j] + c[j+1..]];
    assert c == c[..j] + [del] + c[j+1..];
    assert cs[b := c] == chains;
    ItemsGain(cs, b, c, del);
    WithoutMembers(app, k);
    assert Items(cs) == (Items(cs) + multiset{del}) - multiset{del};
  }

  /** The bucket part of HASH_DELETE. */
  method DeleteItem(tbl: Table, del: Node, ghost app: seq<Node>, ghost k: nat, ghost chains: seq<seq<Node>>,
                    ghost home: Index, ghost rank: Index, ghost hash: string -> nat)
    returns (ghost nchains: seq<seq<Node>>, ghost nhome: Index, ghost nrank: Index)
    requires TableOk(tbl, app, chains, home, rank, hash) && Distinct(app) && k < |app| && app[k] == del
    modifies tbl.buckets, Nodes(app)`hhNext, Nodes(app)`hhPrev
    ensures ChainsOk(Without(app, k), tbl.buckets[..], nchains, nhome, nrank, tbl.log2NumBuckets, hash)
  {
    var bkt := BitAnd(del.hashv, tbl.numBuckets - 1);
    InOwnBucket(app, tbl.buckets[..], chains, home, rank, tbl.log2NumBuckets, hash, del);
    ghost var j :| 0 <= j < |chains[bkt]| && chains[bkt][j] == del;
    DeleteInBucket(tbl.buckets, bkt, del, chains, home, rank, j, Nodes(app));
    PlacedDelete(chains, home, rank, bkt, j);
    nchains, nhome, nrank := chains[bkt := chains[bkt][..j] + chains[bkt][j+1..]], home - {del}, RankWithout(rank, home, bkt, del);
    AfterDelete(app, k, tbl.buckets[..], chains, home, nchains, nhome, nrank, tbl.log2NumBuckets, hash, bkt, j);
  }

  lemma {:induction false} AfterDelete(app: seq<Node>, k: nat, bs: seq<Bucket>, chains: seq<seq<Node>>, home: Index,
                    nchains: seq<seq<Node>>, nhome: Index, nrank: Index, log2: nat, hash: string -> nat, b: nat, j: nat)
    requires Distinct(app) && k < |app| && Items(chains) == multiset(app) && |bs| == Pow2(log2)
    requires b < |chains| && j < |chains[b]| && chains[b][j] == app[k]
    requires nchains == chains[b := chains[b][..j] + chains[b][j+1..]] && nhome == home - {app[k]}
    requires Placed(nchains, nhome, nrank) && BucketsOk(bs, nchains, Nodes(app)) && Hashed(home, |bs|, Nodes(app))
    requires forall n :: n in app ==> n.hashv == hash(n.key)
    ensures ChainsOk(Without(app, k), bs, nchains, nhome, nrank, log2, hash)
  {
    DeletedItems(app, k, chains, b, j);
    Narrow(Without(app, k), bs, nchains, Nodes(app));
    WithoutMembers(app, k);
    forall n | n in Without(app, k) ensures n in app {
      assert n in Nodes(Without(app, k));
    }
  }

  // ----- sorting -----

  method CloseApp(tail: Node, ghost t: seq<Node>, ghost pos: Index, ghost list: Node?)
    requires t != [] && Output(t, pos, list, tail, true)
    modifies tail`next
    ensures AppList(t, list, tail)
  {
    tail.next := null;
  }

  /** One round of HASH_SRT. */
  method SortRoundApp(list0: Node, insize: nat, cmp: Cmp<Node>, ghost u: set<Node>, ghost s: seq<Node>, ghost idx: Index,
                      ghost tail0: Node?)
    returns (list: Node, tail: Node, merges: nat, ghost t: seq<Node>, ghost pos: Index)
    requires s != [] && insize > 0 && Indexed(s, idx) && AppList(s, list0, tail0) && Within(s, u)
    modifies u`next, u`prev
    ensures t == Pass(s, insize, cmp) && |t| == |s| && Within(t, u)
    ensures AppList(t, list, tail) && Indexed(t, pos)
    ensures merges <= 1 <==> |s| <= 2 * insize
  {
    t := Pass(s, insize, cmp);
    PassPermutes(s, insize, cmp);
    SameWithin(s, t, u);
    OneMerge(|s|, insize);
    var l, e;
    l, e, merges, pos := MergePass(list0, Style(null, true), insize, cmp, u, s, idx);
    list, tail := l, e;
    CloseApp(tail, t, pos, list);
  }

  /** The loop of HASH_SRT. */
  method SortApp(list: Node, cmp: Cmp<Node>, ghost u: set<Node>, ghost s: seq<Node>, ghost idx: Index, tail0: Node)
    returns (head: Node, tail: Node, ghost t: seq<Node>, ghost pos: Index)
    requires s != [] && Indexed(s, idx) && AppList(s, list, tail0) && Within(s, u)
    modifies u`next, u`prev
    ensures t == Sort(s, 1, cmp)
    ensures AppList(t, head, tail) && Indexed(t, pos)
  {
    head, tail, t, pos := list, tail0, s, idx;
    ghost var goal := Sort(s, 1, cmp);
    var insize, looping := 1, true;
    while looping
      invariant insize > 0 && t != [] && Within(t, u) && |t| == |s|
      invariant Indexed(t, pos) && AppList(t, head, tail)
      invariant if looping then Sort(t, insize, cmp) == goal else t == goal
      decreases looping, |s| - 2 * insize
    {
      var merges;
      ghost var r;
      head, tail, merges, r, pos := SortRoundApp(head, insize, cmp, u, t, pos, tail);
      SortUnfold(t, insize, r, goal, cmp);
      t := r;
      if merges <= 1 {
        looping := false;
      }
      insize := 2 * insize;
    }
  }

  /** The chains do not depend on the order of the items. */
  lemma {:induction false} ChainsPermute(app: seq<Node>, app': seq<Node>, bs: seq<Bucket>, chains: seq<seq<Node>>, home: Index, rank: Index,
                      k: nat, hash: string -> nat)
    requires ChainsOk(app, bs, chains, home, rank, k, hash) && multiset(app) == multiset(app')
    ensures ChainsOk(app', bs, chains, home, rank, k, hash)
  {
    assert Nodes(app) == Nodes(app') by {
      assert forall n :: n in app <==> n in multiset(app);
      assert forall n :: n in app' <==> n in multiset(app');
    }
    forall n | n in app' ensures n in app {
      assert n in Nodes(app');
    }
  }

  // ----- the table as a map -----

  ghost predicate UniqueKeys(app: seq<Node>) {
    forall i, j :: 0 <= i < j < |app| ==> app[i].key != app[j].key
  }

  /** The map the table represents when keys are unique. */
  ghost function Contents(app: seq<Node>): map<string, Node> {
    if app == [] then map[] else Contents(app[..|app|-1])[app[|app|-1].key := app[|app|-1]]
  }

  lemma {:induction false} ContentsHas(app: seq<Node>, n: Node)
    requires UniqueKeys(app) && n in app
    ensures n.key in Contents(app) && Contents(app)[n.key] == n
  {
    var m := |app| - 1;
    if n != app[m] {
      var i :| 0 <= i < |app| && app[i] == n;
      ContentsHas(app[..m], n);
      assert app[i].key != app[m].key;
    }
  }

  lemma {:induction false} ContentsFrom(app: seq<Node>, key: string)
    requires key in Contents(app)
    ensures Contents(app)[key] in app && Contents(app)[key].key == key
  {
    var m := |app| - 1;
    if key != app[m].key {
      ContentsFrom(app[..m], key);
    }
  }

  /** Adding a fresh key extends the map, deleting an item removes its key. */
  lemma {:induction false} ContentsAdd(app: seq<Node>, add: Node)
    ensures Contents(app + [add]) == Contents(app)[add.key := add]
  {
  }

  /** The map does not depend on the order of the items. */
  lemma {:induction false} ContentsPermute(a: seq<Node>, b: seq<Node>)
    requires UniqueKeys(a) && multiset(a) == multiset(b)
    ensures UniqueKeys(b) && Contents(b) == Contents(a)
  {
    PermutedUnique(a, b);
    SameMembers(a, b);
    forall key | key in Contents(a) ensures key in Contents(b) && Contents(b)[key] == Contents(a)[key] {
      ContentsFrom(a, key);
      ContentsHas(b, Contents(a)[key]);
    }
    forall key | key in Contents(b) ensures key in Contents(a) {
      ContentsFrom(b, key);
      ContentsHas(a, Contents(b)[key]);
    }
  }

  lemma {:induction false} SameMembers(a: seq<Node>, b: seq<Node>)
    requires multiset(a) == multiset(b)
    ensures forall n :: n in a <==> n in b
  {
    forall n ensures n in a <==> n in b {
      assert n in multiset(a) <==> n in multiset(b);
    }
  }

  lemma {:induction false} PermutedUnique(a: seq<Node>, b: seq<Node>)
    requires UniqueKeys(a) && multiset(a) == multiset(b)
    ensures UniqueKeys(b)
  {
    SameMembers(a, b);
    forall i, j | 0 <= i < j < |b| ensures b[i].key != b[j].key {
      if b[i].key == b[j].key {
        assert b[i] in a && b[j] in a;
        assert b[i] == b[j];
        Twice(b, i, j);
        Once(a, b[i]);
        assert false;
      }
    }
  }

  lemma {:induction false} Twice(b: seq<Node>, i: nat, j: nat)
    requires i < j < |b| && b[i] == b[j]
    ensures multiset(b)[b[i]] >= 2
  {
    assert b == b[..j] + b[j..];
    assert b[i] in b[..j] && b[j] in b[j..];
  }

  lemma {:induction false} Once(a: seq<Node>, n: Node)
    requires UniqueKeys(a)
    ensures multiset(a)[n] <= 1
  {
    if a != [] {
      var m := |a| - 1;
      assert a == a[..m] + [a[m]];
      Once(a[..m], n);
      if n == a[m] {
        assert n !in a[..m];
      }
    }
  }

  lemma {:induction false} AddUnique(app: seq<Node>, add: Node)
    requires UniqueKeys(app) && add.key !in Contents(app)
    ensures UniqueKeys(app + [add]) && Contents(app + [add]) == Contents(app)[add.key := add]
  {
    ContentsAdd(app, add);
    forall n | n in app ensures n.key != add.key {
      ContentsHas(app, n);
    }
  }

  lemma {:induction false} FoundIsContents(app: seq<Node>, key: string, out: Node?)
    requires out != null ==> out in app && out.key == key
    requires out == null ==> forall n :: n in app ==> n.key != key
    ensures UniqueKeys(app) ==> out == if key in Contents(app) then Contents(app)[key] else null
  {
    if UniqueKeys(app) {
      if out != null {
        ContentsHas(app, out);
      } else if key in Contents(app) {
        ContentsFrom(app, key);
      }
    }
  }

  lemma {:induction false} WithoutUnique(app: seq<Node>, k: nat)
    requires UniqueKeys(app) && k < |app|
    ensures UniqueKeys(Without(app, k))
    ensures forall n :: n in Without(app, k) <==> n in app && n.key != app[k].key
  {
  }

  lemma {:induction false} ContentsDeleteAt(app: seq<Node>, k: nat, key: string)
    requires UniqueKeys(app) && k < |app|
    ensures var a, b := Contents(app), Contents(Without(app, k));
      (key in b <==> key in a && key != app[k].key) && (key in b ==> a[key] == b[key])
  {
    WithoutUnique(app, k);
    var w := Without(app, k);
    if key in Contents(w) {
      ContentsFrom(w, key);
      ContentsHas(app, Contents(w)[key]);
    } else if key in Contents(app) && key != app[k].key {
      ContentsFrom(app, key);
      ContentsHas(w, Contents(app)[key]);
    }
  }

  lemma {:induction false} ContentsDelete(app: seq<Node>, k: nat)
    requires UniqueKeys(app) && k < |app|
    ensures Contents(Without(app, k)) == Contents(app) - {app[k].key}
  {
    var a, b := Contents(app), Contents(Without(app, k));
    forall key ensures (key in b <==> key in a && key != app[k].key) && (key in b ==> a[key] == b[key]) {
      ContentsDeleteAt(app, k, key);
    }
  }

  /** What HASH_FSCK adds up: the bucket counts and the item count agree. */
  lemma {:induction false} FsckCounts(tbl: Table, app: seq<Node>, chains: seq<seq<Node>>, home: Index, rank: Index, hash: string -> nat)
    requires TableOk(tbl, app, chains, home, rank, hash)
    ensures TotalCount(tbl.buckets[..]) == tbl.numItems
    ensures tbl.numBuckets == Pow2(tbl.log2NumBuckets)
  {
    var bs := tbl.buckets[..];
    forall b | 0 <= b < |bs| ensures bs[b].count == |chains[b]| {
      assert BucketOk(bs[b], chains[b], Nodes(app));
    }
    CountIsItems(bs, chains);
  }

  /** What the pointers of a table represent: the items in application order and the chains. */
  datatype Shape = Shape(app: seq<Node>, chains: seq<seq<Node>>, home: Index, rank: Index)

  ghost predicate Good(head: Node?, tbl: Table, s: Shape, hash: string -> nat)
    reads tbl.buckets, s.app
  {
    if head == null then s.app == []
    else Distinct(s.app) && AppList(s.app, head, tbl.tail) && TableOk(tbl, s.app, s.chains, s.home, s.rank, hash)
  }

  // ----- snapshots: what a state depends on, as values -----

  /** The chain links and hash values of the items. */
  type ChainFields = map<Node, (Node?, Node?, nat)>

  ghost function ChainSnapshot(app: seq<Node>): ChainFields
    reads app
  {
    map n | n in app :: (n.hhPrev, n.hhNext, n.hashv)
  }

  /** TableOk on values. */
  ghost predicate TableValue(tbl: Table, bs: seq<Bucket>, app: seq<Node>, chains: seq<seq<Node>>, home: Index, rank: Index,
                             hash: string -> nat, f: ChainFields)
  {
    && tbl.numItems == |app| && tbl.numBuckets == |bs| == Pow2(tbl.log2NumBuckets) == |chains|
    && Placed(chains, home, rank) && Items(chains) == multiset(app)
    && (forall b :: 0 <= b < |bs| ==> ChainValue(bs[b], chains[b], f))
    && (forall n :: n in home ==> n in f && home[n] == BitAnd(f[n].2, |bs| - 1))
    && (forall n :: n in app ==> n in f && f[n].2 == hash(n.key))
  }

  ghost predicate ChainValue(bkt: Bucket, c: seq<Node>, f: ChainFields) {
    && bkt.head == At(c, 0) && bkt.count == |c|
    && (forall i :: 0 <= i < |c| ==> c[i] in f && f[c[i]].0 == PrevOf(c, i) && f[c[i]].1 == At(c, i + 1))
  }

  lemma {:induction false} TableToValue(tbl: Table, app: seq<Node>, chains: seq<seq<Node>>, home: Index, rank: Index, hash: string -> nat)
    requires TableOk(tbl, app, chains, home, rank, hash)
    ensures TableValue(tbl, tbl.buckets[..], app, chains, home, rank, hash, ChainSnapshot(app))
  {
  }

  lemma {:induction false} TableFromValue(tbl: Table, app: seq<Node>, chains: seq<seq<Node>>, home: Index, rank: Index, hash: string -> nat)
    requires TableValue(tbl, tbl.buckets[..], app, chains, home, rank, hash, ChainSnapshot(app))
    ensures TableOk(tbl, app, chains, home, rank, hash)
  {
  }

  type AppFields = map<Node, (Node?, Node?)>

  ghost function AppSnapshot(app: seq<Node>): AppFields
    reads app
  {
    map n | n in app :: (n.prev, n.next)
  }

  ghost predicate AppValue(app: seq<Node>, head: Node?, tail: Node?, f: AppFields) {
    && head == At(app, 0) && tail == PrevOf(app, |app|)
    && (forall i :: 0 <= i < |app| ==> app[i] in f && f[app[i]] == (PrevOf(app, i), At(app, i + 1)))
  }

  lemma {:induction false} AppToValue(app: seq<Node>, head: Node?, tail: Node?)
    ensures AppList(app, head, tail) <==> AppValue(app, head, tail, AppSnapshot(app))
  {
  }

  ghost predicate GoodValue(head: Node?, tbl: Table, bs: seq<Bucket>, s: Shape, hash: string -> nat, f: ChainFields, g: AppFields) {
    if head == null then s.app == []
    else Distinct(s.app) && AppValue(s.app, head, tbl.tail, g) && TableValue(tbl, bs, s.app, s.chains, s.home, s.rank, hash, f)
  }

  lemma {:induction false} GoodToValue(head: Node?, tbl: Table, s: Shape, hash: string -> nat)
    requires Good(head, tbl, s, hash)
    ensures GoodValue(head, tbl, tbl.buckets[..], s, hash, ChainSnapshot(s.app), AppSnapshot(s.app))
  {
    if head != null {
      TableToValue(tbl, s.app, s.chains, s.home, s.rank, hash);
      AppToValue(s.app, head, tbl.tail);
    }
  }

  lemma {:induction false} GoodFromValue(head: Node?, tbl: Table, s: Shape, hash: string -> nat)
    requires GoodValue(head, tbl, tbl.buckets[..], s, hash, ChainSnapshot(s.app), AppSnapshot(s.app))
    ensures Good(head, tbl, s, hash)
  {
    if head != null {
      TableFromValue(tbl, s.app, s.chains, s.home, s.rank, hash);
      AppToValue(s.app, head, tbl.tail);
    }
  }

  /** The first half of HASH_ADD_KEYPTR on a table with items: the new item becomes the last in application order. */
  method ListItem(head: Node?, tbl: Table, add: Node, ghost hash: string -> nat, ghost s: Shape)
    requires head != null && Good(head, tbl, s, hash) && add !in s.app
    modifies add`prev, add`next, Nodes(s.app)`next
    ensures AppList(s.app + [add], head, add) && Distinct(s.app + [add])
    ensures TableOk(tbl.(tail := add), s.app, s.chains, s.home, s.rank, hash)
  {
    TableToValue(tbl, s.app, s.chains, s.home, s.rank, hash);
    ghost var f := ChainSnapshot(s.app);
    AppendApp(tbl.tail, add, s.app, head);
    assert ChainSnapshot(s.app) == f;
    TableFromValue(tbl.(tail := add), s.app, s.chains, s.home, s.rank, hash);
  }

  /** The first half of HASH_ADD_KEYPTR without a table: the new item is the whole list. */
  method ListFirst(add: Node, ghost hash: string -> nat) returns (newTbl: Table, ghost t: Shape)
    modifies add`prev, add`next
    ensures AppList([add], add, newTbl.tail) && fresh(newTbl.buckets)
    ensures TableOk(newTbl, [], t.chains, t.home, t.rank, hash)
  {
    add.next := null;
    add.prev := null;
    ghost var ch;
    newTbl, ch := MakeTable(add, hash);
    t := Shape([], ch, map[], map[]);
  }

  /** The second half: the item joins its bucket, which leaves the list alone. */
  method HashItem(head: Node?, tbl: Table, add: Node, hash: string -> nat, ghost app: seq<Node>, ghost s: Shape)
    returns (newTbl: Table, ghost t: Shape)
    requires TableOk(tbl, app, s.chains, s.home, s.rank, hash) && add !in app
    requires AppList(app + [add], head, tbl.tail)
    modifies tbl.buckets, add`hashv, Nodes(app + [add])`hhNext, Nodes(app + [add])`hhPrev
    ensures TableOk(newTbl, app + [add], t.chains, t.home, t.rank, hash) && t.app == app + [add]
    ensures AppList(app + [add], head, newTbl.tail)
    ensures newTbl.buckets == tbl.buckets || fresh(newTbl.buckets)
    ensures Doubles(old(tbl.buckets[..]), tbl, hash(add.key), newTbl)
  {
    ghost var ch, h, r;
    newTbl, ch, h, r := AddItem(tbl, add, app, s.chains, s.home, s.rank, hash);
    t := Shape(app + [add], ch, h, r);
  }

  /** HASH_ADD_KEYPTR: the new item comes last. */
  method HashAdd(head: Node?, tbl: Table, add: Node, hash: string -> nat, ghost s: Shape)
    returns (newHead: Node?, newTbl: Table, ghost t: Shape)
    requires Good(head, tbl, s, hash) && add !in s.app
    modifies tbl.buckets, add, Nodes(s.app)
    ensures Good(newHead, newTbl, t, hash) && t.app == s.app + [add]
    ensures newTbl.buckets == tbl.buckets || fresh(newTbl.buckets)
    ensures head != null ==> Doubles(old(tbl.buckets[..]), tbl.(tail := add), hash(add.key), newTbl)
  {
    newHead, newTbl, t := head, tbl, s;
    if newHead == null {
      newHead := add;
      newTbl, t := ListFirst(add, hash);
      assert s.app + [add] == [add];
    } else {
      ListItem(head, tbl, add, hash, s);
      newTbl := tbl.(tail := add);
    }
    assert Nodes(s.app + [add]) == Nodes(s.app) + {add};
    newTbl, t := HashItem(newHead, newTbl, add, hash, s.app, t);
  }

  /** HASH_DELETE of the item at index `k`, when it is not alone: first the list, then the bucket. */
  method UnlistItem(head: Node?, tbl: Table, del: Node, ghost s: Shape, ghost k: nat, ghost hash: string -> nat)
    returns (newHead: Node?, newTail: Node?)
    requires head != null && Good(head, tbl, s, hash) && k < |s.app| && s.app[k] == del
    modifies Nodes(s.app)`next, Nodes(s.app)`prev
    ensures AppList(Without(s.app, k), newHead, newTail) && Distinct(Without(s.app, k))
    ensures TableOk(tbl, s.app, s.chains, s.home, s.rank, hash)
  {
    TableToValue(tbl, s.app, s.chains, s.home, s.rank, hash);
    ghost var f := ChainSnapshot(s.app);
    assert s.app[..|s.app|] == s.app;
    newHead, newTail := DeleteApp(head, tbl.tail, del, s.app, IndexOf(s.app, |s.app|), k);
    assert ChainSnapshot(s.app) == f;
    TableFromValue(tbl, s.app, s.chains, s.home, s.rank, hash);
  }

  method UnhashItem(head: Node?, tail: Node?, tbl: Table, del: Node, ghost s: Shape, ghost k: nat, ghost hash: string -> nat)
    returns (ghost t: Shape)
    requires Distinct(s.app) && k < |s.app| && s.app[k] == del
    requires AppList(Without(s.app, k), head, tail) && TableOk(tbl, s.app, s.chains, s.home, s.rank, hash)
    modifies tbl.buckets, Nodes(s.app)`hhNext, Nodes(s.app)`hhPrev
    ensures AppList(Without(s.app, k), head, tail) && t.app == Without(s.app, k)
    ensures ChainsOk(t.app, tbl.buckets[..], t.chains, t.home, t.rank, tbl.log2NumBuckets, hash)
  {
    ghost var ch, h, r := DeleteItem(tbl, del, s.app, k, s.chains, s.home, s.rank, hash);
    t := Shape(Without(s.app, k), ch, h, r);
  }

  /** HASH_DELETE; deleting the last item frees the table. */
  method HashDelete(head: Node?, tbl: Table, del: Node, hash: string -> nat, ghost s: Shape, ghost k: nat)
    returns (newHead: Node?, newTbl: Table, ghost t: Shape)
    requires Good(head, tbl, s, hash) && k < |s.app| && s.app[k] == del
    modifies tbl.buckets, Nodes(s.app)
    ensures Good(newHead, newTbl, t, hash) && t.app == Without(s.app, k) && newTbl.buckets == tbl.buckets
  {
    if del.prev == null && del.next == null {
      assert |s.app| == 1;
      newHead, newTbl, t := null, tbl, s.(app := []);
    } else {
      assert |s.app| > 1;
      var newTail;
      newHead, newTail := UnlistItem(head, tbl, del, s, k, hash);
      t := UnhashItem(newHead, newTail, tbl, del, s, k, hash);
      newTbl := tbl.(tail := newTail, numItems := tbl.numItems - 1);
    }
  }

  /** Sorting touches only the links of the application order. */
  method SortLinks(head: Node, tail: Node, cmp: Cmp<Node>, ghost s: seq<Node>, ghost idx0: Index)
    returns (newHead: Node, newTail: Node, ghost app: seq<Node>, ghost idx: Index)
    requires s != [] && Indexed(s, idx0) && AppList(s, head, tail)
    modifies Nodes(s)`next, Nodes(s)`prev
    ensures AppList(app, newHead, newTail) && Indexed(app, idx) && app == Sort(s, 1, cmp)
    ensures ChainSnapshot(s) == old(ChainSnapshot(s))
  {
    newHead, newTail, app, idx := SortApp(head, cmp, Nodes(s), s, idx0, tail);
  }

  method SortItems(head: Node, tail: Node, tbl: Table, cmp: Cmp<Node>, ghost hash: string -> nat, ghost s: Shape)
    returns (newHead: Node, newTail: Node, ghost app: seq<Node>)
    requires s.app != [] && Distinct(s.app) && AppList(s.app, head, tail) && TableOk(tbl, s.app, s.chains, s.home, s.rank, hash)
    modifies Nodes(s.app)`next, Nodes(s.app)`prev
    ensures AppList(app, newHead, newTail) && Distinct(app) && app == Sort(s.app, 1, cmp)
    ensures TableOk(tbl, app, s.chains, s.home, s.rank, hash)
  {
    ghost var idx := IndexOf(s.app, |s.app|);
    assert s.app[..|s.app|] == s.app;
    TableToValue(tbl, s.app, s.chains, s.home, s.rank, hash);
    newHead, newTail, app, idx := SortLinks(head, tail, cmp, s.app, idx);
    SortedTable(tbl, s, app, idx, cmp, hash);
  }

  /** HASH_SRT: the application order changes, the bucket chains do not. */
  method HashSort(head: Node?, tbl: Table, cmp: Cmp<Node>, ghost hash: string -> nat, ghost s: Shape)
    returns (newHead: Node?, newTbl: Table, ghost t: Shape)
    requires Good(head, tbl, s, hash)
    modifies Nodes(s.app)`next, Nodes(s.app)`prev
    ensures Good(newHead, newTbl, t, hash) && t.app == Sort(s.app, 1, cmp)
    ensures t.chains == s.chains && newTbl == tbl.(tail := newTbl.tail)
  {
    newHead, newTbl, t := head, tbl, s;
    if head != null {
      var h, tail;
      ghost var app;
      h, tail, app := SortItems(head, tbl.tail, tbl, cmp, hash, s);
      newHead, newTbl, t := h, tbl.(tail := tail), s.(app := app);
    }
  }

  lemma {:induction false} SortedTable(tbl: Table, s: Shape, app: seq<Node>, idx: Index, cmp: Cmp<Node>, hash: string -> nat)
    requires TableValue(tbl, tbl.buckets[..], s.app, s.chains, s.home, s.rank, hash, ChainSnapshot(s.app))
    requires app == Sort(s.app, 1, cmp) && Indexed(app, idx)
    ensures Distinct(app) && TableOk(tbl, app, s.chains, s.home, s.rank, hash)
  {
    TableFromValue(tbl, s.app, s.chains, s.home, s.rank, hash);
    IndexedDistinct(app, idx);
    SortPermutes(s.app, 1, cmp);
    ChainsPermute(s.app, app, tbl.buckets[..], s.chains, s.home, s.rank, tbl.log2NumBuckets, hash);
  }

  class HashTable {
    const hash: string -> nat
    var head: Node?
    var tbl: Table
    ghost var s: Shape

    ghost predicate Valid()
      reads this, tbl.buckets, s.app
    {
      Good(head, tbl, s, hash)
    }

    constructor (hash: string -> nat)
      ensures Valid() && s.app == [] && this.hash == hash && fresh(tbl.buckets)
    {
      this.hash := hash;
      head, s := null, Shape([], [], map[], map[]);
      var none := new Bucket[0];
      tbl := Table(none, 0, 0, 0, null, 0, 0, 0, false);
    }

    /** Stores the result of an operation in the fields. */
    method Set(h: Node?, t: Table, ghost sh: Shape)
      requires Good(h, t, sh, hash)
      modifies this
      ensures Valid() && head == h && tbl == t && s == sh
    {
      GoodToValue(h, t, sh, hash);
      Assign(h, t, sh);
      GoodFromValue(h, t, sh, hash);
    }

    method Assign(h: Node?, t: Table, ghost sh: Shape)
      modifies this
      ensures head == h && tbl == t && s == sh && t.buckets[..] == old(t.buckets[..])
      ensures ChainSnapshot(sh.app) == old(ChainSnapshot(sh.app)) && AppSnapshot(sh.app) == old(AppSnapshot(sh.app))
    {
      head, tbl, s := h, t, sh;
    }

    method Add(add: Node)
      requires Valid() && add !in s.app
      modifies this, tbl.buckets, add, Nodes(s.app)
      ensures Valid() && s.app == old(s.app) + [add]
      ensures tbl.buckets == old(tbl.buckets) || fresh(tbl.buckets)
      ensures old(head) != null ==> Doubles(old(tbl.buckets[..]), old(tbl).(tail := add), hash(add.key), tbl)
      // the bucket has ten items, or as many times ten as it was allowed to have more, and expanding still pays
      ensures old(head) != null && old(tbl).numBuckets > 0 ==>
                var n := old(tbl).numBuckets;
                var b := BitAnd(hash(add.key), n - 1);
                && b < |old(tbl.buckets[..])|
                && tbl.numBuckets == if !old(tbl).noexpand && old(tbl.buckets[..])[b].count + 1 >= 10 * (old(tbl.buckets[..])[b].expandMult + 1)
                                     then 2 * n else n
      ensures UniqueKeys(old(s.app)) && add.key !in Contents(old(s.app)) ==>
                UniqueKeys(s.app) && Contents(s.app) == Contents(old(s.app))[add.key := add]
    {
      if UniqueKeys(s.app) && add.key !in Contents(s.app) {
        AddUnique(s.app, add);
      }
      var h, t;
      ghost var sh;
      h, t, sh := HashAdd(head, tbl, add, hash, s);
      Set(h, t, sh);
    }

    method Find(key: string) returns (out: Node?)
      requires Valid()
      ensures out != null ==> out in s.app && out.key == key
      ensures out == null ==> forall n :: n in s.app ==> n.key != key
      ensures UniqueKeys(s.app) ==> out == if key in Contents(s.app) then Contents(s.app)[key] else null
    {
      out := null;
      if head != null {
        out := FindItem(tbl, key, s.app, s.chains, s.home, s.rank, hash);
      }
      FoundIsContents(s.app, key, out);
    }

    /** HASH_ITER and HASH_COUNT: the items in the order of the application. */
    method Iterate() returns (visited: seq<Node>, count: nat)
      requires Valid()
      ensures visited == s.app && count == |s.app|
    {
      visited := [];
      var el := head;
      while el != null
        invariant visited <= s.app && el == At(s.app, |visited|)
        decreases |s.app| - |visited|
      {
        visited := visited + [el];
        el := el.next;
      }
      count := if head == null then 0 else tbl.numItems;
    }

    method Delete(del: Node, ghost k: nat)
      requires Valid() && k < |s.app| && s.app[k] == del
      modifies this, tbl.buckets, Nodes(s.app)
      ensures Valid() && s.app == Without(old(s.app), k) && tbl.buckets == old(tbl.buckets)
      ensures UniqueKeys(old(s.app)) ==> UniqueKeys(s.app) && Contents(s.app) == Contents(old(s.app)) - {del.key}
    {
      if UniqueKeys(s.app) {
        WithoutUnique(s.app, k);
        ContentsDelete(s.app, k);
      }
      var h, t;
      ghost var sh;
      h, t, sh := HashDelete(head, tbl, del, hash, s, k);
      Set(h, t, sh);
    }

    method Sort(cmp: Cmp<Node>)
      requires Valid()
      modifies this, Nodes(s.app)`next, Nodes(s.app)`prev
      ensures Valid() && s.app == MergeSort.Sort(old(s.app), 1, cmp)
      ensures s.chains == old(s.chains) && tbl == old(tbl).(tail := tbl.tail)
      ensures UniqueKeys(old(s.app)) ==> UniqueKeys(s.app) && Contents(s.app) == Contents(old(s.app))
    {
      MergeSort.SortPermutes(s.app, 1, cmp);
      if UniqueKeys(s.app) {
        ContentsPermute(s.app, MergeSort.Sort(s.app, 1, cmp));
      }
      var h, t;
      ghost var sh;
      h, t, sh := HashSort(head, tbl, cmp, hash, s);
      Set(h, t, sh);
    }
  }
}
