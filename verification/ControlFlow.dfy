/**
 Functions of the compiled program as the checkpoint passes see them: basic blocks of
 instructions over numbered SSA values, execution paths, and dominance between
 instructions defined by those paths.
 */
module ControlFlow {

  type Value = nat

  /** Pointers, and every other type by its width in bits. */
  datatype Type = Pointer | Scalar(bits: nat)

  /** What a cast instruction does to the bits of its operand. Bit casts, trunc, zext, ptrtoint and
      inttoptr cut them off or pad them with zeros, sext pads them with the top bit, and conversions to
      and from floating point make new ones. */
  datatype CastOp = Resize | SignExtend | Convert

  /** How an SSA value is made. `Cast` covers every cast instruction; an all-zero GEP keeps its
      operand as a bit cast does, but it is not a cast instruction. */
  datatype ValueDef =
    | Root(ty: Type)
    | Cast(ty: Type, operand: Value, op: CastOp)
    | ZeroGep(ty: Type, operand: Value)

  /** `Checkpoint` is a call after which the log may no longer hold what was logged before: it may reach the top of the
      loop, where the log is emptied, or the hooks may have recorded nothing up to it. */
  datatype Instruction =
    | Define(value: Value)
    | Store(ptr: Value, val: Value)
    | Checkpoint
    | Other

  datatype Block = Block(insts: seq<Instruction>, succs: seq<nat>)

  /** Block 0 is the entry block; `pointerBits` is the width of a pointer on the target. */
  datatype Function = Function(values: seq<ValueDef>, pointerBits: nat, blocks: seq<Block>)

  /** The place of one instruction: a block and an index into it. */
  datatype Pos = Pos(block: nat, index: nat)

  /** Operands come before the values made from them, and have the types the instruction takes. */
  ghost predicate ValuesOk(values: seq<ValueDef>) {
    forall v :: 0 <= v < |values| ==> values[v].Root? || (values[v].operand < v && TypeOk(values, v))
  }

  predicate TypeOk(values: seq<ValueDef>, v: Value)
    requires v < |values| && !values[v].Root? && values[v].operand < v
  {
    match values[v]
    case Cast(ty, o, op) => op.Resize? || (ty.Scalar? && values[o].ty.Scalar?)
    case ZeroGep(ty, o) => ty.Pointer? && values[o].ty.Pointer?
  }

  predicate IsPointer(values: seq<ValueDef>, v: Value) {
    v < |values| && values[v].ty.Pointer?
  }

  /** Value::stripPointerCasts: through the casts between pointers and the all-zero GEPs. */
  function Strip(values: seq<ValueDef>, v: Value): Value
    requires ValuesOk(values) && v < |values|
    ensures Strip(values, v) <= v
    ensures IsPointer(values, Strip(values, v)) <==> IsPointer(values, v)
  {
    match values[v]
    case Root(_) => v
    case Cast(ty, o, _) => if ty.Pointer? && values[o].ty.Pointer? then Strip(values, o) else v
    case ZeroGep(_, o) => Strip(values, o)
  }

  predicate IsPos(f: Function, p: Pos) {
    p.block < |f.blocks| && p.index < |f.blocks[p.block].insts|
  }

  function At(f: Function, p: Pos): Instruction
    requires IsPos(f, p)
  {
    f.blocks[p.block].insts[p.index]
  }

  predicate IsStore(f: Function, p: Pos) {
    IsPos(f, p) && At(f, p).Store?
  }

  predicate IsCheckpoint(f: Function, p: Pos) {
    IsPos(f, p) && At(f, p).Checkpoint?
  }

  predicate Defines(f: Function, p: Pos, v: Value) {
    IsPos(f, p) && At(f, p) == Define(v)
  }

  /** Control passes from the instruction at `a` to the one at `b`: to the next one of the same
      block, or from the last one to the first of a successor block. */
  predicate Follows(f: Function, a: Pos, b: Pos) {
    && IsPos(f, a)
    && if a.index + 1 < |f.blocks[a.block].insts| then b == Pos(a.block, a.index + 1)
       else b.index == 0 && b.block in f.blocks[a.block].succs
  }

  /** One activation of the function: any walk through it from its first instruction. */
  ghost predicate IsPath(f: Function, p: seq<Pos>) {
    && |p| > 0
    && p[0] == Pos(0, 0)
    && (forall i :: 0 <= i < |p| ==> IsPos(f, p[i]))
    && (forall i, j :: 0 <= i < j < |p| && j == i + 1 ==> Follows(f, p[i], p[j]))
  }

  /** Every walk to `b` goes through `a` before its last step. This is strict for reachable
      positions and, as in LLVM, holds of every `a` when `b` is unreachable. */
  ghost predicate Dominates(f: Function, a: Pos, b: Pos) {
    forall p :: IsPath(f, p) && p[|p|-1] == b ==> Before(p, a, |p| - 1)
  }

  ghost predicate Before(p: seq<Pos>, a: Pos, t: nat)
    requires t <= |p|
  {
    exists i :: 0 <= i < t && p[i] == a
  }

  /** `v` is defined on every walk to `q`; arguments, globals and constants have no defining instruction. */
  ghost predicate Available(f: Function, v: Value, q: Pos) {
    forall d :: Defines(f, d, v) ==> Dominates(f, d, q)
  }

  /** The dominator tree answers for stores as dominance does. */
  ghost predicate DominatorTreeOk(f: Function, dt: set<(Pos, Pos)>) {
    forall a, b :: IsStore(f, a) && IsStore(f, b) ==> ((a, b) in dt <==> Dominates(f, a, b))
  }

  /** SSA form: one definition per value, operands defined where they are used. */
  ghost predicate Ssa(f: Function) {
    && ValuesOk(f.values)
    && (forall a, b, v: nat :: Defines(f, a, v) && Defines(f, b, v) ==> a == b)
    && (forall a, v: nat :: Defines(f, a, v) ==> v < |f.values|)
    // stores go through pointers
    && (forall p :: IsStore(f, p) ==> IsPointer(f.values, At(f, p).ptr) && At(f, p).val < |f.values|)
    // the definitions of both operands dominate a store
    && (forall p :: IsStore(f, p) ==> Available(f, At(f, p).ptr, p) && Available(f, At(f, p).val, p))
    // the definition of an operand dominates the definition made from it
    && (forall d, v: nat :: v < |f.values| && !f.values[v].Root? && Defines(f, d, f.values[v].operand) ==>
          exists e :: Defines(f, e, v) && Dominates(f, d, e))
  }

  lemma {:induction false} PathPrefix(f: Function, p: seq<Pos>, n: nat)
    requires IsPath(f, p) && 0 < n <= |p|
    ensures IsPath(f, p[..n])
  {
  }

  lemma {:induction false} DominatorSeen(f: Function, a: Pos, p: seq<Pos>, t: nat) returns (i: nat)
    requires IsPath(f, p) && t < |p| && Dominates(f, a, p[t])
    ensures i < t && p[i] == a
  {
    var q := p[..t+1];
    PathPrefix(f, p, t + 1);
    assert q[|q|-1] == p[t];
    assert Before(q, a, |q| - 1);
    i :| 0 <= i < t && q[i] == a;
  }

  lemma {:induction false} DominatesTransitive(f: Function, a: Pos, b: Pos, c: Pos)
    requires Dominates(f, a, b) && Dominates(f, b, c)
    ensures Dominates(f, a, c)
  {
    forall p | IsPath(f, p) && p[|p|-1] == c
      ensures Before(p, a, |p| - 1)
    {
      var j := DominatorSeen(f, b, p, |p| - 1);
      var i := DominatorSeen(f, a, p, j);
      assert p[i] == a;
    }
  }

  lemma {:induction false} FirstVisit(p: seq<Pos>, d: Pos, k: nat) returns (i: nat)
    requires k < |p| && p[k] == d
    ensures i <= k && p[i] == d
    ensures d !in p[..i]
  {
    i := 0;
    while p[i] != d
      decreases k - i
      invariant i <= k
      invariant d !in p[..i]
    {
      i := i + 1;
    }
  }

  lemma {:induction false} Splice(f: Function, p: seq<Pos>, i: nat, k: nat, t: nat) returns (q: seq<Pos>)
    requires IsPath(f, p) && i <= k < t < |p| && p[i] == p[k]
    ensures IsPath(f, q) && |q| == i + 1 + (t - k)
    ensures q[..i+1] == p[..i+1]
    ensures forall j {:trigger q[j]} :: i < j < |q| ==> q[j] == p[j + (k - i)]
  {
    q := p[..i+1] + p[k+1..t+1];
    forall a, b | 0 <= a < b < |q| && b == a + 1
      ensures Follows(f, q[a], q[b])
    {
      if b <= i {
        assert Follows(f, p[a], p[b]);
      } else {
        assert q[b] == p[b + (k - i)] && q[a] == p[a + (k - i)];
        assert Follows(f, p[a + (k - i)], p[b + (k - i)]);
      }
    }
  }

  /** The loop argument. When `d` dominates `a` and `a` dominates what runs at time `t`, then `a` runs
      again after every visit of `d` before `t`: cutting the walk from the first visit of `d` to
      this one out of the path would otherwise leave a path that avoids `a`. */
  lemma {:induction false} RunsAfter(f: Function, d: Pos, a: Pos, p: seq<Pos>, k: nat, t: nat) returns (j: nat)
    requires IsPath(f, p) && k < t < |p| && p[k] == d
    requires Dominates(f, d, a) && Dominates(f, a, p[t])
    ensures k < j < t && p[j] == a
  {
    var i := FirstVisit(p, d, k);
    var q := Splice(f, p, i, k, t);
    assert q[|q|-1] == p[t];
    var j' := DominatorSeen(f, a, q, |q| - 1);
    if j' <= i {
      assert p[j'] == q[..i+1][j'] == a;
      var e := DominatorSeen(f, d, p, j');
      assert false;
    }
    j := j' + (k - i);
  }

  lemma {:induction false} LastVisit(f: Function, p: seq<Pos>, v: Value, k: nat, t: nat) returns (i: nat)
    requires k < t <= |p| && Defines(f, p[k], v)
    ensures k <= i < t && Defines(f, p[i], v)
    ensures forall j :: i < j < t ==> !Defines(f, p[j], v)
  {
    i := t - 1;
    while !Defines(f, p[i], v)
      invariant k <= i < t
      invariant forall j :: i < j < t ==> !Defines(f, p[j], v)
      decreases i
    {
      i := i - 1;
    }
  }

  /** Where a value is available, so is what it is made from. */
  lemma {:induction false} OperandAvailable(f: Function, v: Value, q: Pos)
    requires Ssa(f) && v < |f.values| && !f.values[v].Root? && Available(f, v, q)
    ensures Available(f, f.values[v].operand, q)
  {
    forall d | Defines(f, d, f.values[v].operand) ensures Dominates(f, d, q) {
      var e :| Defines(f, e, v) && Dominates(f, d, e);
      DominatesTransitive(f, d, e, q);
    }
  }

  lemma {:induction false} StripIdempotent(values: seq<ValueDef>, v: Value)
    requires ValuesOk(values) && v < |values|
    ensures Strip(values, Strip(values, v)) == Strip(values, v)
  {
    if Strip(values, v) != v {
      StripIdempotent(values, values[v].operand);
    }
  }

  /** A dominating instruction ran since a value that it can use was last defined. */
  lemma {:induction false} RanSinceDefined(f: Function, s: Pos, v: Value, p: seq<Pos>, t: nat) returns (i: nat)
    requires IsPath(f, p) && t < |p| && Dominates(f, s, p[t]) && Available(f, v, s)
    ensures i < t && p[i] == s
    ensures forall k :: i < k < t ==> !Defines(f, p[k], v)
  {
    if k :| 0 <= k < t && Defines(f, p[k], v) {
      var d := LastVisit(f, p, v, k, t);
      i := RunsAfter(f, p[d], s, p, d, t);
    } else {
      i := DominatorSeen(f, s, p, t);
    }
  }

  // ----- checkpoints -----

  ghost predicate Reachable(f: Function, q: Pos) {
    exists p :: IsPath(f, p) && p[|p|-1] == q
  }

  /** On every walk to `q`, `s` runs between each checkpoint and the end. */
  ghost predicate RunsAgain(f: Function, s: Pos, q: Pos) {
    forall p, c :: IsPath(f, p) && p[|p|-1] == q && 0 <= c < |p| - 1 && IsCheckpoint(f, p[c]) ==> RunsBetween(p, s, c, |p| - 1)
  }

  ghost predicate RunsBetween(p: seq<Pos>, s: Pos, c: nat, t: nat)
    requires t <= |p|
  {
    exists j :: c < j < t && p[j] == s
  }

  ghost predicate NoCheckpoint(f: Function, p: seq<Pos>, i: nat, t: nat)
    requires t <= |p|
  {
    forall k :: i < k < t ==> !IsCheckpoint(f, p[k])
  }

  lemma {:induction false} LastCheckpoint(f: Function, p: seq<Pos>, k: nat, t: nat) returns (c: nat)
    requires k < t <= |p| && IsCheckpoint(f, p[k])
    ensures c < t && IsCheckpoint(f, p[c]) && NoCheckpoint(f, p, c, t)
  {
    c := t - 1;
    while !IsCheckpoint(f, p[c])
      invariant k <= c < t && NoCheckpoint(f, p, c, t)
      decreases c
    {
      c := c - 1;
    }
  }

  /** A dominating instruction that runs again after checkpoints ran since the last one, and since a value that it can
      use was last defined. */
  lemma {:induction false} RanSinceCheckpoint(f: Function, s: Pos, v: Value, p: seq<Pos>, t: nat) returns (i: nat)
    requires IsPath(f, p) && t < |p| && Dominates(f, s, p[t]) && Available(f, v, s) && RunsAgain(f, s, p[t])
    ensures i < t && p[i] == s && NoCheckpoint(f, p, i, t)
    ensures forall k :: i < k < t ==> !Defines(f, p[k], v)
  {
    i := RanSinceDefined(f, s, v, p, t);
    if k :| 0 <= k < t && IsCheckpoint(f, p[k]) {
      var c := LastCheckpoint(f, p, k, t);
      var j := RunAfterCheckpoint(f, s, p, c, t);
      if i < j {
        i := j;
      }
    }
  }

  lemma {:induction false} RunAfterCheckpoint(f: Function, s: Pos, p: seq<Pos>, c: nat, t: nat) returns (j: nat)
    requires IsPath(f, p) && c < t < |p| && IsCheckpoint(f, p[c]) && RunsAgain(f, s, p[t])
    ensures c < j < t && p[j] == s
  {
    var q := p[..t+1];
    PathPrefix(f, p, t + 1);
    assert q[|q|-1] == p[t] && q[c] == p[c];
    assert RunsBetween(q, s, c, |q| - 1);
    j :| c < j < t && q[j] == s;
  }
}
