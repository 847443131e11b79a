/**
 The heap variant of the checkpoint pass: doubleCheckStore scans the dominating blocks for an
 earlier store with the same pointer operand before the store becomes a candidate at all.
 The scan is exactly instruction dominance, and it is sound exactly when the stores that it finds run again after
 every checkpoint (`ScanSoundIff`); the two eliminations compose soundly.
 */
module HeapStoreCheck {
  import opened ControlFlow
  import opened Execution
  import opened StoreElimination

  /** Every walk to the start of block `b` has been at the start of block `a`; reflexive. */
  ghost predicate BlockDominates(f: Function, a: nat, b: nat) {
    forall p :: IsPath(f, p) && p[|p|-1] == Pos(b, 0) ==> Pos(a, 0) in p
  }

  /** What the scan looks for when it examines the store `q`. */
  ghost predicate ScanHit(f: Function, p: Pos, q: Pos)
    requires IsStore(f, q)
  {
    && IsStore(f, p) && At(f, p).ptr == At(f, q).ptr
    && BlockDominates(f, p.block, q.block)
    && (p.block == q.block ==> p.index < q.index)
  }

  ghost predicate Doubled(f: Function, q: Pos)
    requires IsStore(f, q)
  {
    exists p :: ScanHit(f, p, q)
  }

  /** doubleCheckStore: false when an earlier store in the dominating blocks has the same pointer. */
  method DoubleCheckStore(f: Function, blockDom: set<(nat, nat)>, q: Pos) returns (instrument: bool)
    requires IsStore(f, q)
    requires forall a, b :: 0 <= a < |f.blocks| && 0 <= b < |f.blocks| ==> ((a, b) in blockDom <==> BlockDominates(f, a, b))
    ensures instrument <==> !Doubled(f, q)
  {
    for b := 0 to |f.blocks|
      invariant forall p :: ScanHit(f, p, q) ==> b <= p.block
    {
      if (b, q.block) in blockDom {
        var i := 0;
        while i < |f.blocks[b].insts|
          invariant 0 <= i <= |f.blocks[b].insts|
          invariant b == q.block ==> i <= q.index
          invariant forall p :: ScanHit(f, p, q) ==> b < p.block || (b == p.block && i <= p.index)
        {
          if q == Pos(b, i) {
            break;
          }
          if f.blocks[b].insts[i].Store? && f.blocks[b].insts[i].ptr == At(f, q).ptr {
            assert ScanHit(f, Pos(b, i), q);
            return false;
          }
          i := i + 1;
        }
      }
    }
    return true;
  }

  // ----- the scan is dominance -----

  /** A walk enters a block at its first instruction. */
  lemma {:induction false} BlockEntered(f: Function, p: seq<Pos>, t: nat)
    requires IsPath(f, p) && t < |p|
    ensures p[t].index <= t
    ensures forall i :: 0 <= i <= p[t].index ==> p[t - p[t].index + i] == Pos(p[t].block, i)
  {
    if p[t].index > 0 {
      assert t > 0 && Follows(f, p[t-1], p[t]);
      assert p[t-1] == Pos(p[t].block, p[t].index - 1);
      BlockEntered(f, p, t - 1);
      assert (t - 1) - p[t-1].index == t - p[t].index;
    }
  }

  /** A walk that starts a block and is later elsewhere has run the block to its end. */
  lemma {:induction false} BlockFinished(f: Function, p: seq<Pos>, k: nat, t: nat, i: nat)
    requires IsPath(f, p) && k < t < |p| && p[k].index == 0 && p[t].index == 0
    requires p[t].block != p[k].block && i < |f.blocks[p[k].block].insts|
    ensures k + i < t && p[k + i] == Pos(p[k].block, i)
  {
    if i > 0 {
      BlockFinished(f, p, k, t, i - 1);
      assert Follows(f, p[k + i - 1], p[k + i]);
    }
  }

  lemma {:induction false} HitDominates(f: Function, d: Pos, q: Pos)
    requires IsStore(f, q) && ScanHit(f, d, q)
    ensures Dominates(f, d, q)
  {
    forall p | IsPath(f, p) && p[|p|-1] == q
      ensures Before(p, d, |p| - 1)
    {
      var t := |p| - 1;
      BlockEntered(f, p, t);
      var e := t - q.index;
      if d.block == q.block {
        assert p[e + d.index] == d;
      } else {
        PathPrefix(f, p, e + 1);
        assert Pos(d.block, 0) in p[..e+1];
        var k :| 0 <= k < e + 1 && p[k] == Pos(d.block, 0);
        BlockFinished(f, p, k, e, d.index);
      }
    }
  }

  /** Extends a walk at the start of a block to a later instruction of that block. */
  lemma {:induction false} WalkInto(f: Function, p: seq<Pos>, q: Pos) returns (w: seq<Pos>)
    requires IsPath(f, p) && p[|p|-1] == Pos(q.block, 0) && IsPos(f, q)
    ensures IsPath(f, w) && p <= w && w[|w|-1] == q
    ensures forall i :: |p| <= i < |w| ==> w[i].block == q.block
    ensures forall i :: |p| - 1 <= i < |w| - 1 ==> w[i].index < q.index
    decreases q.index
  {
    if q.index == 0 {
      w := p;
    } else {
      var w' := WalkInto(f, p, Pos(q.block, q.index - 1));
      w := w' + [q];
      assert forall a, b :: 0 <= a < b < |w| && b == a + 1 && b < |w'| ==> Follows(f, w'[a], w'[b]);
    }
  }

  lemma {:induction false} DominatorBlock(f: Function, d: Pos, q: Pos, p: seq<Pos>)
    requires IsPos(f, q) && IsPos(f, d) && Dominates(f, d, q)
    requires IsPath(f, p) && p[|p|-1] == Pos(q.block, 0)
    ensures Pos(d.block, 0) in p
  {
    var w := WalkInto(f, p, q);
    var i := DominatorSeen(f, d, w, |w| - 1);
    if i < |p| {
      assert p[i] == d;
      BlockEntered(f, p, i);
      assert p[i - d.index + 0] == Pos(d.block, 0);
    }
  }

  /** Within a block: on the first visit to it, the dominator can only come from the walk into it. */
  lemma {:induction false} DominatorEarlier(f: Function, d: Pos, q: Pos, r: seq<Pos>)
    requires IsPos(f, q) && IsPos(f, d) && Dominates(f, d, q) && d.block == q.block
    requires IsPath(f, r) && r[|r|-1] == q
    ensures d.index < q.index
  {
    BlockEntered(f, r, |r| - 1);
    var e := |r| - 1 - q.index;
    var k := FirstVisit(r, Pos(q.block, 0), e);
    PathPrefix(f, r, k + 1);
    var p := r[..k+1];
    var w := WalkInto(f, p, q);
    var i := DominatorSeen(f, d, w, |w| - 1);
    if i < k {
      assert r[i] == p[i] == w[i] == d;
      BlockEntered(f, r, i);
      assert false;
    }
  }

  lemma {:induction false} DominatorHit(f: Function, d: Pos, q: Pos, r: seq<Pos>)
    requires IsStore(f, q) && IsStore(f, d) && At(f, d).ptr == At(f, q).ptr
    requires IsPath(f, r) && r[|r|-1] == q
    requires Dominates(f, d, q)
    ensures ScanHit(f, d, q)
  {
    forall p | IsPath(f, p) && p[|p|-1] == Pos(q.block, 0) ensures Pos(d.block, 0) in p {
      DominatorBlock(f, d, q, p);
    }
    if d.block == q.block {
      DominatorEarlier(f, d, q, r);
    }
  }

  /** For a store that some walk reaches, the block scan finds a double exactly when a store with
      the same pointer operand dominates it. */
  lemma {:induction false} ScanIsDominance(f: Function, q: Pos, r: seq<Pos>)
    requires IsStore(f, q) && IsPath(f, r) && r[|r|-1] == q
    ensures Doubled(f, q) <==> exists d :: IsStore(f, d) && At(f, d).ptr == At(f, q).ptr && Dominates(f, d, q)
  {
    if Doubled(f, q) {
      var d :| ScanHit(f, d, q);
      HitDominates(f, d, q);
    }
    forall d | IsStore(f, d) && At(f, d).ptr == At(f, q).ptr && Dominates(f, d, q)
      ensures ScanHit(f, d, q)
    {
      DominatorHit(f, d, q, r);
    }
  }

  // ----- composition with eliminateDoubleStores -----

  /** The stores storeToBeInstrumented selects. Whether a store is worth hooking depends on its pointer
      operand only, so it is given as the set of escaping pointers. */
  ghost function Escaping(f: Function, escapes: set<Value>): set<Pos> {
    set b, i | 0 <= b < |f.blocks| && 0 <= i < |f.blocks[b].insts|
               && IsStore(f, Pos(b, i)) && At(f, Pos(b, i)).ptr in escapes :: Pos(b, i)
  }

  ghost function HeapCandidates(f: Function, escapes: set<Value>): set<Pos> {
    set q | q in Escaping(f, escapes) && !Doubled(f, q)
  }

  /** The stores that the scan finds run again after checkpoints. */
  ghost predicate ScansSafe(f: Function) {
    forall d, q :: IsStore(f, q) && ScanHit(f, d, q) ==> RunsAgain(f, d, q)
  }

  /** A candidate with the same pointer operand wrote to the same address before, and since the last checkpoint. */
  lemma {:induction false} ScannedAt(f: Function, escapes: set<Value>, conv: (Value, Bits) -> Bits, p: seq<Pos>, m: seq<Env>, t: nat)
    returns (i: nat)
    requires Ssa(f) && ScansSafe(f) && Executes(f, conv, p, m) && t < |p| && p[t] in Escaping(f, escapes)
    ensures i <= t && p[i] in HeapCandidates(f, escapes) && NoCheckpoint(f, p, i, t)
    ensures Address(f, m[i], p[i]) == Address(f, m[t], p[t])
    decreases t
  {
    if p[t] in HeapCandidates(f, escapes) {
      i := t;
    } else {
      var d :| ScanHit(f, d, p[t]);
      HitDominates(f, d, p[t]);
      var j := MarkedSameAddress(f, conv, p, m, d, t);
      assert Pos(d.block, d.index) in Escaping(f, escapes);
      i := ScannedAt(f, escapes, conv, p, m, j);
    }
  }

  lemma {:induction false} ScanSound(f: Function, escapes: set<Value>)
    requires Ssa(f) && ScansSafe(f)
    ensures Sound(f, Escaping(f, escapes), HeapCandidates(f, escapes))
  {
    var hooked := HeapCandidates(f, escapes);
    forall conv, p, m, t | Executes(f, conv, p, m) && 0 <= t < |p| && p[t] in Escaping(f, escapes) && IsStore(f, p[t])
      ensures SoundAt(f, hooked, p, m, t)
    {
      var i := ScannedAt(f, escapes, conv, p, m, t);
      SoundLater(f, hooked, p, m, i, t);
    }
  }

  /** A walk to a place that another walk visits can go on as the other walk does. */
  lemma {:induction false} Rejoin(f: Function, u: seq<Pos>, p: seq<Pos>, i: nat) returns (w: seq<Pos>)
    requires IsPath(f, u) && IsPath(f, p) && i < |p| && u[|u|-1] == p[i]
    ensures IsPath(f, w) && w == u + p[i+1..]
  {
    w := u + p[i+1..];
    forall a, b | 0 <= a < b < |w| && b == a + 1 ensures Follows(f, w[a], w[b]) {
      if b < |u| {
        assert Follows(f, u[a], u[b]);
      } else {
        var k := i + 1 + (b - |u|);
        assert w[b] == p[k] && w[a] == p[k-1];
        assert Follows(f, p[k-1], p[k]);
      }
    }
  }

  /** What runs between the last visit of a dominator and the place it dominates is dominated as well. */
  lemma {:induction false} DominatedBetween(f: Function, d: Pos, p: seq<Pos>, i: nat)
    requires IsPath(f, p) && i < |p| - 1 && Dominates(f, d, p[|p|-1]) && d !in p[i..|p|-1]
    ensures Dominates(f, d, p[i])
  {
    forall u | IsPath(f, u) && u[|u|-1] == p[i] ensures Before(u, d, |u| - 1) {
      var w := Rejoin(f, u, p, i);
      assert w[|w|-1] == p[|p|-1];
      var k := DominatorSeen(f, d, w, |w| - 1);
      assert forall j :: i <= j < |p| - 1 ==> p[j] == p[i..|p|-1][j-i] && p[j] != d;
      assert forall b :: |u| - 1 <= b < |w| - 1 ==> w[b] == p[i + (b - (|u| - 1))];
      assert u[k] == d;
    }
  }

  /** Where the found store does not run again after a checkpoint, everything that could log the pointer in between has
      been skipped by the scan for the same reason. */
  lemma {:induction false} SkippedBetween(f: Function, d: Pos, p: seq<Pos>, c: nat, i: nat)
    requires Ssa(f) && IsPath(f, p) && IsStore(f, p[|p|-1]) && ScanHit(f, d, p[|p|-1])
    requires c < i < |p| - 1 && !RunsBetween(p, d, c, |p| - 1)
    requires IsStore(f, p[i]) && At(f, p[i]).ptr == At(f, d).ptr
    ensures Doubled(f, p[i])
  {
    HitDominates(f, d, p[|p|-1]);
    assert forall j :: c < j < |p| - 1 ==> p[j] != d;
    DominatedBetween(f, d, p, i);
    PathPrefix(f, p, i + 1);
    DominatorHit(f, d, p[i], p[..i+1]);
  }

  lemma {:induction false} ScanUnsound(f: Function, d: Pos, p: seq<Pos>, c: nat)
    requires Ssa(f) && IsPath(f, p) && IsStore(f, p[|p|-1]) && ScanHit(f, d, p[|p|-1])
    requires c < |p| - 1 && IsCheckpoint(f, p[c]) && !RunsBetween(p, d, c, |p| - 1)
    ensures var v := At(f, d).ptr; !Sound(f, Escaping(f, {v}), HeapCandidates(f, {v}))
  {
    var t, v := |p| - 1, At(f, d).ptr;
    var hooked := HeapCandidates(f, {v});
    var conv, m := RunsWithOneBit(f, p, Bit(0, 0));
    forall i | 0 <= i < t ensures !LoggedBy(f, hooked, p, m, i, t, Address(f, m[t], p[t])) {
      if p[i] in hooked && NoCheckpoint(f, p, i, t) {
        assert i > c;
        SkippedBetween(f, d, p, c, i);
      }
    }
    assert Pos(p[t].block, p[t].index) in Escaping(f, {v});
    assert !SoundAt(f, hooked, p, m, t);
  }

  /** The scan by itself loses no address, whichever pointers escape, if and only if every store it finds runs again after
      every checkpoint on the way to the store it skips. */
  lemma {:induction false} ScanSoundIff(f: Function)
    requires Ssa(f)
    ensures (forall escapes :: Sound(f, Escaping(f, escapes), HeapCandidates(f, escapes))) <==> ScansSafe(f)
  {
    if ScansSafe(f) {
      forall escapes ensures Sound(f, Escaping(f, escapes), HeapCandidates(f, escapes)) {
        ScanSound(f, escapes);
      }
    } else {
      var v := UnsafeScan(f);
    }
  }

  lemma {:induction false} UnsafeScan(f: Function) returns (v: Value)
    requires Ssa(f) && !ScansSafe(f)
    ensures !Sound(f, Escaping(f, {v}), HeapCandidates(f, {v}))
  {
    var d, q :| IsStore(f, q) && ScanHit(f, d, q) && !RunsAgain(f, d, q);
    var p, c :| IsPath(f, p) && p[|p|-1] == q && 0 <= c < |p| - 1 && IsCheckpoint(f, p[c]) && !RunsBetween(p, d, c, |p| - 1);
    ScanUnsound(f, d, p, c);
    v := At(f, d).ptr;
  }

  lemma {:induction false} HeapPassSoundAt(f: Function, escapes: set<Value>, conv: (Value, Bits) -> Bits, p: seq<Pos>, m: seq<Env>, t: nat)
    requires Ssa(f) && DropsSafe(f) && ScansSafe(f)
    requires Executes(f, conv, p, m) && t < |p| && p[t] in Escaping(f, escapes) && IsStore(f, p[t])
    ensures SoundAt(f, Retained(f, HeapCandidates(f, escapes)), p, m, t)
  {
    var candidates := HeapCandidates(f, escapes);
    var i := ScannedAt(f, escapes, conv, p, m, t);
    DroppingSoundAt(f, candidates, conv, p, m, i);
    SoundLater(f, Retained(f, candidates), p, m, i, t);
  }

  /** Both eliminations together: every escaping store that runs is hooked or its address is in the log. */
  lemma {:induction false} HeapPassSound(f: Function, escapes: set<Value>)
    requires Ssa(f) && DropsSafe(f) && ScansSafe(f)
    ensures Sound(f, Escaping(f, escapes), Retained(f, HeapCandidates(f, escapes)))
  {
    forall conv, p, m, t | Executes(f, conv, p, m) && 0 <= t < |p| && p[t] in Escaping(f, escapes) && IsStore(f, p[t])
      ensures SoundAt(f, Retained(f, HeapCandidates(f, escapes)), p, m, t)
    {
      HeapPassSoundAt(f, escapes, conv, p, m, t);
    }
  }

  /** The heap pass loses no address, whichever pointers escape. */
  ghost predicate HeapAlwaysSound(f: Function)
    requires Ssa(f)
  {
    forall escapes :: Sound(f, Escaping(f, escapes), Retained(f, HeapCandidates(f, escapes)))
  }

  /** Fewer hooks log less. */
  lemma {:induction false} FewerHooks(f: Function, candidates: set<Pos>, fewer: set<Pos>, more: set<Pos>)
    requires Ssa(f) && fewer <= more && Sound(f, candidates, fewer)
    ensures Sound(f, candidates, more)
  {
    forall conv, p, m, t | Executes(f, conv, p, m) && 0 <= t < |p| && p[t] in candidates && IsStore(f, p[t])
      ensures SoundAt(f, more, p, m, t)
    {
      assert SoundAt(f, fewer, p, m, t);
      if p[t] !in fewer {
        var i :| 0 <= i < t && LoggedBy(f, fewer, p, m, i, t, Address(f, m[t], p[t]));
        assert LoggedBy(f, more, p, m, i, t, Address(f, m[t], p[t]));
      }
    }
  }

  /** What the scan needs, the heap pass needs. */
  lemma {:induction false} HeapPassNeedsScans(f: Function)
    requires Ssa(f) && HeapAlwaysSound(f)
    ensures ScansSafe(f)
  {
    forall escapes ensures Sound(f, Escaping(f, escapes), HeapCandidates(f, escapes)) {
      FewerHooks(f, Escaping(f, escapes), Retained(f, HeapCandidates(f, escapes)), HeapCandidates(f, escapes));
    }
    ScanSoundIff(f);
  }

  /** The heap pass is sound for every function over these values in which checkpoints do no harm. */
  ghost predicate HeapCastsSound(values: seq<ValueDef>, pointerBits: nat)
    requires ValuesOk(values)
  {
    forall f :: Ssa(f) && f.values == values && f.pointerBits == pointerBits && Reruns(f) && ScansSafe(f) ==> HeapAlwaysSound(f)
  }

  /** The scan does not help: the two stores of the failing function have different pointer operands. */
  lemma {:induction false} StraightLineCandidates(values: seq<ValueDef>, pointerBits: nat, r: Value, w: Value)
    requires r < |values| && w < |values| && r != w
    ensures var f := StraightLine(values, pointerBits, r, w, false);
            var pair := {Pos(0, |values|), Pos(0, |values| + 2)};
            Escaping(f, {r, w}) == pair && HeapCandidates(f, {r, w}) == pair && ScansSafe(f)
  {
    var f := StraightLine(values, pointerBits, r, w, false);
    var n := |values|;
    assert At(f, Pos(0, n)) == Store(r, r) && At(f, Pos(0, n + 2)) == Store(w, r);
    forall q | IsStore(f, q) ensures q in {Pos(0, n), Pos(0, n + 2)} && !Doubled(f, q) {
      assert q == Pos(0, q.index);
    }
    forall q | IsStore(f, q) ensures q in Escaping(f, {r, w}) {
      assert Pos(q.block, q.index) == q;
    }
  }

  lemma {:induction false} HeapPassSoundIff(values: seq<ValueDef>, pointerBits: nat)
    requires ValuesOk(values)
    ensures HeapCastsSound(values, pointerBits) <==> CastsKeepAddresses(values, pointerBits)
  {
    if CastsKeepAddresses(values, pointerBits) {
      forall f | Ssa(f) && f.values == values && f.pointerBits == pointerBits && Reruns(f) && ScansSafe(f)
        ensures HeapAlwaysSound(f)
      {
        KeptDropsSafe(f);
        forall escapes ensures Sound(f, Escaping(f, escapes), Retained(f, HeapCandidates(f, escapes))) {
          HeapPassSound(f, escapes);
        }
      }
    } else {
      var r: nat, w: nat :| Walked(values, r, w) && SymBits(values, pointerBits, w) != SymBits(values, pointerBits, r);
      LossyCastHeapUnsound(values, pointerBits, r, w);
    }
  }

  lemma {:induction false} LossyCastHeapUnsound(values: seq<ValueDef>, pointerBits: nat, r: Value, w: Value)
    requires ValuesOk(values) && Walked(values, r, w)
    requires SymBits(values, pointerBits, w) != SymBits(values, pointerBits, r)
    ensures !HeapCastsSound(values, pointerBits)
  {
    var f, s, q := LossyCastUnsound(values, pointerBits, r, w);
    StraightLineCandidates(values, pointerBits, r, w);
    assert !Sound(f, Escaping(f, {r, w}), Retained(f, HeapCandidates(f, {r, w})));
  }
}
