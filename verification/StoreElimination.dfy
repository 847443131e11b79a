/**
 The checkpoint pass drops the undo-log hook of a store when a dominating candidate store
 writes through the same stripped pointer (eliminateDoubleStores, recusercheck).

 The main theorem is `EliminationSoundIff`: for every function, dropping those hooks loses no address on any
 execution, whichever stores are candidates, if and only if every justifying store has the bits of the
 pointer of the store it justifies dropping, and runs again after every checkpoint on the way to it.
 */
module StoreElimination {
  import opened ControlFlow
  import opened Execution

  /** `w` is `v` or is made from it by cast instructions only, the values recusercheck walks over. */
  ghost predicate CastReach(values: seq<ValueDef>, v: Value, w: Value)
    requires ValuesOk(values) && w < |values|
    decreases w
  {
    v == w || (values[w].Cast? && CastReach(values, v, values[w].operand))
  }

  /** The stripped pointer of a store. */
  function Target(f: Function, p: Pos): Value
    requires Ssa(f) && IsStore(f, p)
    ensures Target(f, p) < |f.values|
  {
    Strip(f.values, At(f, p).ptr)
  }

  predicate UsesValue(f: Function, p: Pos, v: Value) {
    IsStore(f, p) && (At(f, p).ptr == v || At(f, p).val == v)
  }

  /** The walk from `v` on behalf of store `s` marks the store `q`. */
  ghost predicate MarkedFrom(f: Function, s: Pos, v: Value, q: Pos)
    requires Ssa(f)
  {
    && IsStore(f, q)
    && Dominates(f, s, q)
    && exists w: nat :: w < |f.values| && MarkedAt(f, v, w, q)
  }

  ghost predicate MarkedAt(f: Function, v: Value, w: Value, q: Pos)
    requires Ssa(f) && IsStore(f, q) && w < |f.values|
  {
    CastReach(f.values, v, w) && UsesValue(f, q, w) && Strip(f.values, w) == Target(f, q)
  }

  /** Some candidate store justifies dropping the hook of `q`. */
  ghost predicate Dropped(f: Function, candidates: set<Pos>, q: Pos)
    requires Ssa(f)
  {
    exists s :: s in candidates && IsStore(f, s) && MarkedFrom(f, s, Target(f, s), q)
  }

  ghost function Retained(f: Function, candidates: set<Pos>): set<Pos>
    requires Ssa(f)
  {
    set q | q in candidates && !Dropped(f, candidates, q)
  }

  // ----- soundness over executions -----

  /** The address the store at `q` writes to. */
  ghost function Address(f: Function, env: Env, q: Pos): Bits
    requires Ssa(f) && IsStore(f, q) && EnvOk(f, env)
  {
    assert IsPointer(f.values, At(f, q).ptr);
    env[At(f, q).ptr]
  }

  ghost predicate EnvsOk(f: Function, p: seq<Pos>, m: seq<Env>) {
    |m| == |p| && forall k :: 0 <= k < |m| ==> EnvOk(f, m[k])
  }

  /** A hooked store ran before time `t`, with no checkpoint since, and logged the address `address`. */
  ghost predicate Logged(f: Function, hooked: set<Pos>, p: seq<Pos>, m: seq<Env>, t: nat, address: Bits)
    requires Ssa(f) && EnvsOk(f, p, m) && t <= |p|
  {
    exists i :: 0 <= i < t && LoggedBy(f, hooked, p, m, i, t, address)
  }

  ghost predicate LoggedBy(f: Function, hooked: set<Pos>, p: seq<Pos>, m: seq<Env>, i: nat, t: nat, address: Bits)
    requires Ssa(f) && EnvsOk(f, p, m) && i < t <= |p|
  {
    p[i] in hooked && IsStore(f, p[i]) && Address(f, m[i], p[i]) == address && NoCheckpoint(f, p, i, t)
  }

  /** The store at time `t` is hooked, or the address it writes to has been logged since the last checkpoint. */
  ghost predicate SoundAt(f: Function, hooked: set<Pos>, p: seq<Pos>, m: seq<Env>, t: nat)
    requires Ssa(f) && EnvsOk(f, p, m) && t < |p| && IsStore(f, p[t])
  {
    p[t] in hooked || Logged(f, hooked, p, m, t, Address(f, m[t], p[t]))
  }

  /** Every candidate store of every execution is hooked, or the address it writes to is in the log. */
  ghost predicate Sound(f: Function, candidates: set<Pos>, hooked: set<Pos>)
    requires Ssa(f)
  {
    forall conv, p, m, t :: Executes(f, conv, p, m) && 0 <= t < |p| && p[t] in candidates && IsStore(f, p[t]) ==>
      SoundAt(f, hooked, p, m, t)
  }

  /** Dropping the hook of `q` because of `s` loses nothing: when `q` can run at all, the pointers have the same bits and
      `s` runs again after checkpoints. */
  ghost predicate DropSafe(f: Function, s: Pos, q: Pos)
    requires Ssa(f) && IsStore(f, s) && IsStore(f, q)
  {
    Reachable(f, q) ==> SamePointerBits(f, s, q) && RunsAgain(f, s, q)
  }

  ghost predicate SamePointerBits(f: Function, s: Pos, q: Pos)
    requires Ssa(f) && IsStore(f, s) && IsStore(f, q)
  {
    SymBits(f.values, f.pointerBits, At(f, s).ptr) == SymBits(f.values, f.pointerBits, At(f, q).ptr)
  }

  /** The pass may drop the hook of `q` because of `s`. */
  ghost predicate Justifies(f: Function, s: Pos, q: Pos)
    requires Ssa(f)
  {
    IsStore(f, s) && MarkedFrom(f, s, Target(f, s), q)
  }

  ghost predicate DropsSafe(f: Function)
    requires Ssa(f)
  {
    forall s, q :: Justifies(f, s, q) ==> DropSafe(f, s, q)
  }

  /** The store `s` that justifies dropping the hook of what runs at `t` ran before, with the same address, and since
      the last checkpoint. */
  lemma {:induction false} MarkedSameAddress(f: Function, conv: (Value, Bits) -> Bits, p: seq<Pos>, m: seq<Env>, s: Pos, t: nat)
    returns (i: nat)
    requires Ssa(f) && Executes(f, conv, p, m) && t < |p| && IsStore(f, s) && IsStore(f, p[t])
    requires Dominates(f, s, p[t]) && SamePointerBits(f, s, p[t]) && RunsAgain(f, s, p[t])
    ensures i < t && p[i] == s && NoCheckpoint(f, p, i, t) && Address(f, m[i], s) == Address(f, m[t], p[t])
  {
    var a, b := At(f, s).ptr, At(f, p[t]).ptr;
    i := RanSinceCheckpoint(f, s, a, p, t);
    Unchanged(f, conv, p, m, a, i, t);
    forall d | Defines(f, d, a) ensures Dominates(f, d, p[t]) {
      DominatesTransitive(f, d, s, p[t]);
    }
    SameBits(f, conv, p, m, a, b, t);
  }

  /** Values with the same symbolic bits hold the same bits where both can be used. */
  lemma {:induction false} SameBits(f: Function, conv: (Value, Bits) -> Bits, p: seq<Pos>, m: seq<Env>, v: Value, w: Value, t: nat)
    requires Ssa(f) && Executes(f, conv, p, m) && t < |p| && v < |f.values| && w < |f.values|
    requires Available(f, v, p[t]) && Available(f, w, p[t])
    requires SymBits(f.values, f.pointerBits, v) == SymBits(f.values, f.pointerBits, w)
    ensures m[t][v] == m[t][w]
  {
    HeldBits(f, conv, p, m, v, t);
    HeldBits(f, conv, p, m, w, t);
  }

  /** What was logged at an earlier store is still logged for a later one to the same address, up to the next checkpoint. */
  lemma {:induction false} SoundLater(f: Function, hooked: set<Pos>, p: seq<Pos>, m: seq<Env>, i: nat, t: nat)
    requires Ssa(f) && EnvsOk(f, p, m) && i <= t < |p| && IsStore(f, p[i]) && IsStore(f, p[t])
    requires SoundAt(f, hooked, p, m, i) && Address(f, m[i], p[i]) == Address(f, m[t], p[t]) && NoCheckpoint(f, p, i, t)
    ensures SoundAt(f, hooked, p, m, t)
  {
    if i < t {
      var address := Address(f, m[t], p[t]);
      if p[i] in hooked {
        assert LoggedBy(f, hooked, p, m, i, t, address);
      } else {
        var j :| 0 <= j < i && LoggedBy(f, hooked, p, m, j, i, address);
        assert LoggedBy(f, hooked, p, m, j, t, address);
      }
    }
  }

  /** Chains of dropped hooks: follow the justifying stores back in time. */
  lemma {:induction false} DroppingSoundAt(f: Function, candidates: set<Pos>, conv: (Value, Bits) -> Bits, p: seq<Pos>, m: seq<Env>, t: nat)
    requires Ssa(f) && DropsSafe(f)
    requires Executes(f, conv, p, m) && t < |p| && p[t] in candidates && IsStore(f, p[t])
    ensures SoundAt(f, Retained(f, candidates), p, m, t)
    decreases t
  {
    var hooked := Retained(f, candidates);
    if p[t] !in hooked {
      var s :| s in candidates && IsStore(f, s) && MarkedFrom(f, s, Target(f, s), p[t]);
      assert Justifies(f, s, p[t]);
      VisitedReachable(f, p, t);
      var i := MarkedSameAddress(f, conv, p, m, s, t);
      DroppingSoundAt(f, candidates, conv, p, m, i);
      SoundLater(f, hooked, p, m, i, t);
    }
  }

  lemma {:induction false} VisitedReachable(f: Function, p: seq<Pos>, t: nat)
    requires IsPath(f, p) && t < |p|
    ensures Reachable(f, p[t])
  {
    PathPrefix(f, p, t + 1);
    assert p[..t+1][t] == p[t];
  }

  /** Sufficiency, for every function, candidate set, execution and time. */
  lemma {:induction false} DroppingSound(f: Function, candidates: set<Pos>)
    requires Ssa(f) && DropsSafe(f)
    ensures Sound(f, candidates, Retained(f, candidates))
  {
    forall conv, p, m, t | Executes(f, conv, p, m) && 0 <= t < |p| && p[t] in candidates && IsStore(f, p[t])
      ensures SoundAt(f, Retained(f, candidates), p, m, t)
    {
      DroppingSoundAt(f, candidates, conv, p, m, t);
    }
  }

  // ----- necessity -----

  /** What the values hold when, of all bits the casts do not fix, only `one` is set. */
  function OneBit(values: seq<ValueDef>, pointerBits: nat, one: Sym): Env
    requires ValuesOk(values)
  {
    seq(|values|, (v: nat) requires v < |values| => MapBits(SymBits(values, pointerBits, v), (s: Sym) => s == one))
  }

  lemma {:induction false} OneBitHolds(f: Function, one: Sym, env: Env, v: Value)
    requires ValuesOk(f.values) && v < |f.values| && one.Bit?
    requires env == OneBit(f.values, f.pointerBits, one)
    ensures Holds(f, (u: Value, x: Bits) => if u < |env| then env[u] else [], v, env)
  {
    var g := (s: Sym) => s == one;
    match f.values[v]
    case Root(_) =>
    case Cast(_, o, op) =>
      if !op.Convert? {
        MapRecast(SymBits(f.values, f.pointerBits, o), Width(f.values, f.pointerBits, v), op, g);
      }
    case ZeroGep(_, o) =>
  }

  /** Every walk can be taken with that one bit set all the time. */
  lemma {:induction false} RunsWithOneBit(f: Function, p: seq<Pos>, one: Sym)
    returns (conv: (Value, Bits) -> Bits, m: seq<Env>)
    requires ValuesOk(f.values) && IsPath(f, p) && one.Bit?
    ensures Executes(f, conv, p, m)
    ensures forall i :: 0 <= i < |p| ==> m[i] == OneBit(f.values, f.pointerBits, one)
  {
    var env := OneBit(f.values, f.pointerBits, one);
    conv := (u: Value, x: Bits) => if u < |env| then env[u] else [];
    m := seq(|p|, (i: nat) => env);
    assert EnvOk(f, env);
    forall v: nat | v < |f.values| ensures Holds(f, conv, v, env) {
      OneBitHolds(f, one, env, v);
    }
    forall k, l | 0 <= k < l < |m| && l == k + 1 ensures Step(f, conv, p[k], m[k], m[l]) {
      assert forall v: nat :: v < |f.values| ==> Holds(f, conv, v, env);
    }
  }

  /** One bit that tells the two addresses apart. */
  lemma {:induction false} DistinguishingBit(values: seq<ValueDef>, pointerBits: nat, r: Value, w: Value) returns (one: Sym)
    requires ValuesOk(values) && IsPointer(values, r) && IsPointer(values, w)
    requires SymBits(values, pointerBits, w) != SymBits(values, pointerBits, r)
    ensures one.Bit? && OneBit(values, pointerBits, one)[r] != OneBit(values, pointerBits, one)[w]
  {
    var sr, sw := SymBits(values, pointerBits, r), SymBits(values, pointerBits, w);
    var k :| 0 <= k < |sr| && sr[k] != sw[k];
    one := if sr[k].Bit? then sr[k] else sw[k];
    var env := OneBit(values, pointerBits, one);
    assert env[r][k] != env[w][k];
  }

  /** With only the two stores as candidates, the second is not hooked. */
  lemma {:induction false} PairRetained(f: Function, s: Pos, q: Pos)
    requires Ssa(f) && Justifies(f, s, q)
    ensures forall e :: e in Retained(f, {s, q}) ==> e == s && e != q
  {
    assert Dropped(f, {s, q}, q);
  }

  lemma {:induction false} OtherBitsUnsound(f: Function, s: Pos, q: Pos, p: seq<Pos>)
    requires Ssa(f) && Justifies(f, s, q) && !SamePointerBits(f, s, q)
    requires IsPath(f, p) && p[|p|-1] == q
    ensures !Sound(f, {s, q}, Retained(f, {s, q}))
  {
    var t, hooked := |p| - 1, Retained(f, {s, q});
    var one := DistinguishingBit(f.values, f.pointerBits, At(f, s).ptr, At(f, q).ptr);
    var conv, m := RunsWithOneBit(f, p, one);
    PairRetained(f, s, q);
    forall i | 0 <= i < t ensures !LoggedBy(f, hooked, p, m, i, t, Address(f, m[t], q)) {
    }
    assert !SoundAt(f, hooked, p, m, t);
  }

  lemma {:induction false} NotAgainUnsound(f: Function, s: Pos, q: Pos, p: seq<Pos>, c: nat)
    requires Ssa(f) && Justifies(f, s, q) && IsPath(f, p) && p[|p|-1] == q
    requires c < |p| - 1 && IsCheckpoint(f, p[c]) && !RunsBetween(p, s, c, |p| - 1)
    ensures !Sound(f, {s, q}, Retained(f, {s, q}))
  {
    var t, hooked := |p| - 1, Retained(f, {s, q});
    var conv, m := RunsWithOneBit(f, p, Bit(0, 0));
    PairRetained(f, s, q);
    forall i | 0 <= i < t ensures !LoggedBy(f, hooked, p, m, i, t, Address(f, m[t], q)) {
      if i <= c {
        assert i == c || !NoCheckpoint(f, p, i, t);
      }
    }
    assert !SoundAt(f, hooked, p, m, t);
  }

  lemma {:induction false} UnsafePairUnsound(f: Function, s: Pos, q: Pos)
    requires Ssa(f) && Justifies(f, s, q) && !DropSafe(f, s, q)
    ensures !Sound(f, {s, q}, Retained(f, {s, q}))
  {
    if !SamePointerBits(f, s, q) {
      var p :| IsPath(f, p) && p[|p|-1] == q;
      OtherBitsUnsound(f, s, q, p);
    } else {
      var p, c :| IsPath(f, p) && p[|p|-1] == q && 0 <= c < |p| - 1 && IsCheckpoint(f, p[c]) && !RunsBetween(p, s, c, |p| - 1);
      NotAgainUnsound(f, s, q, p, c);
    }
  }

  /** Dropping loses no address, whichever stores are candidates. */
  ghost predicate AlwaysSound(f: Function)
    requires Ssa(f)
  {
    forall candidates :: Sound(f, candidates, Retained(f, candidates))
  }

  lemma {:induction false} DropsSafeSound(f: Function)
    requires Ssa(f) && DropsSafe(f)
    ensures AlwaysSound(f)
  {
    forall candidates ensures Sound(f, candidates, Retained(f, candidates)) {
      DroppingSound(f, candidates);
    }
  }

  lemma {:induction false} UnsafeUnsound(f: Function)
    requires Ssa(f) && !DropsSafe(f)
    ensures !AlwaysSound(f)
  {
    var s, q :| Justifies(f, s, q) && !DropSafe(f, s, q);
    UnsafePairUnsound(f, s, q);
    NotAlwaysSound(f, {s, q});
  }

  lemma {:induction false} NotAlwaysSound(f: Function, candidates: set<Pos>)
    requires Ssa(f) && !Sound(f, candidates, Retained(f, candidates))
    ensures !AlwaysSound(f)
  {
  }

  lemma {:induction false} EliminationSoundIff(f: Function)
    requires Ssa(f)
    ensures AlwaysSound(f) <==> DropsSafe(f)
  {
    if DropsSafe(f) {
      DropsSafeSound(f);
    } else {
      UnsafeUnsound(f);
    }
  }

  // ----- all functions over the same values -----

  /** Every pointer that walked casts make from a stripped pointer is that pointer, bit for bit. */
  ghost predicate CastsKeepAddresses(values: seq<ValueDef>, pointerBits: nat)
    requires ValuesOk(values)
  {
    forall r: nat, w: nat :: Walked(values, r, w) ==> SymBits(values, pointerBits, w) == SymBits(values, pointerBits, r)
  }

  /** The walk of a store to the stripped pointer `r` arrives at the pointer `w`. */
  ghost predicate Walked(values: seq<ValueDef>, r: Value, w: Value)
    requires ValuesOk(values)
  {
    IsPointer(values, r) && IsPointer(values, w) && Strip(values, r) == r && CastReach(values, r, w)
  }

  /** Justifying stores run again after every checkpoint; so it is without checkpoints. */
  ghost predicate Reruns(f: Function)
    requires Ssa(f)
  {
    forall s, q :: Justifies(f, s, q) ==> RunsAgain(f, s, q)
  }

  /** Dropping is sound for every function over these values in which checkpoints do no harm. */
  ghost predicate CastsSound(values: seq<ValueDef>, pointerBits: nat)
    requires ValuesOk(values)
  {
    forall f :: Ssa(f) && f.values == values && f.pointerBits == pointerBits && Reruns(f) ==> AlwaysSound(f)
  }

  lemma {:induction false} JustifiedKeepsBits(f: Function, s: Pos, q: Pos)
    requires Ssa(f) && CastsKeepAddresses(f.values, f.pointerBits) && Justifies(f, s, q)
    ensures SamePointerBits(f, s, q)
  {
    var r := Target(f, s);
    var w: nat :| w < |f.values| && MarkedAt(f, r, w, q);
    StripIdempotent(f.values, At(f, s).ptr);
    assert Walked(f.values, r, w);
    StripKeepsBits(f.values, f.pointerBits, At(f, s).ptr);
    StripKeepsBits(f.values, f.pointerBits, w);
    StripKeepsBits(f.values, f.pointerBits, At(f, q).ptr);
  }

  lemma {:induction false} KeptDropsSafe(f: Function)
    requires Ssa(f) && CastsKeepAddresses(f.values, f.pointerBits) && Reruns(f)
    ensures DropsSafe(f)
  {
    forall s, q | Justifies(f, s, q) ensures DropSafe(f, s, q) {
      JustifiedKeepsBits(f, s, q);
    }
  }

  /** All values in order, then a store through `r` and a store through `w`, in one block, with or without a checkpoint
      between them. */
  function StraightLine(values: seq<ValueDef>, pointerBits: nat, r: Value, w: Value, checkpoint: bool): Function {
    var n := |values|;
    var between := if checkpoint then Checkpoint else Other;
    Function(values, pointerBits, [Block(seq(n, (i: nat) => Define(i)) + [Store(r, r), between, Store(w, r)], [])])
  }

  lemma {:induction false} StraightLinePath(f: Function, p: seq<Pos>, i: nat)
    requires |f.blocks| == 1 && f.blocks[0].succs == []
    requires IsPath(f, p) && i < |p|
    ensures p[i] == Pos(0, i)
  {
    if i > 0 {
      StraightLinePath(f, p, i - 1);
      assert Follows(f, p[i-1], p[i]);
    }
  }

  lemma {:induction false} StraightLineDominates(f: Function, i: nat, j: nat)
    requires |f.blocks| == 1 && f.blocks[0].succs == [] && i < j < |f.blocks[0].insts|
    ensures Dominates(f, Pos(0, i), Pos(0, j))
  {
    forall p | IsPath(f, p) && p[|p|-1] == Pos(0, j)
      ensures Before(p, Pos(0, i), |p| - 1)
    {
      StraightLinePath(f, p, |p| - 1);
      StraightLinePath(f, p, i);
    }
  }

  lemma {:induction false} StraightLineSsa(values: seq<ValueDef>, pointerBits: nat, r: Value, w: Value, checkpoint: bool)
    requires ValuesOk(values) && IsPointer(values, r) && IsPointer(values, w)
    ensures Ssa(StraightLine(values, pointerBits, r, w, checkpoint))
  {
    var f := StraightLine(values, pointerBits, r, w, checkpoint);
    var n := |values|;
    forall d, v: nat | Defines(f, d, v) ensures d == Pos(0, v) && v < n {}
    forall p, v: nat, d | IsStore(f, p) && Defines(f, d, v) ensures Dominates(f, d, p) {
      StraightLineDominates(f, d.index, p.index);
    }
    forall d, v: nat | v < n && !values[v].Root? && Defines(f, d, values[v].operand)
      ensures exists e :: Defines(f, e, v) && Dominates(f, d, e)
    {
      StraightLineDominates(f, d.index, v);
      assert Defines(f, Pos(0, v), v);
    }
  }

  /** The first store justifies dropping the hook of the second, and one walk runs both once. */
  lemma {:induction false} StraightLineDrops(values: seq<ValueDef>, pointerBits: nat, r: Value, w: Value, checkpoint: bool)
    returns (p: seq<Pos>)
    requires ValuesOk(values) && Walked(values, r, w)
    ensures var f := StraightLine(values, pointerBits, r, w, checkpoint);
            var n := |values|;
            && Ssa(f) && Justifies(f, Pos(0, n), Pos(0, n + 2)) && At(f, Pos(0, n)).ptr == r && At(f, Pos(0, n + 2)).ptr == w
            && IsPath(f, p) && |p| == n + 3 && p[n+2] == Pos(0, n + 2)
            && forall i :: 0 <= i < |p| ==> p[i] == Pos(0, i)
  {
    var n := |values|;
    var f := StraightLine(values, pointerBits, r, w, checkpoint);
    var s, q := Pos(0, n), Pos(0, n + 2);
    StraightLineSsa(values, pointerBits, r, w, checkpoint);
    assert At(f, s) == Store(r, r) && At(f, q) == Store(w, r);
    StraightLineDominates(f, n, n + 2);
    assert MarkedAt(f, r, w, q);
    assert MarkedFrom(f, s, Target(f, s), q);
    p := seq(n + 3, (i: nat) => Pos(0, i));
  }

  /** Where a walked cast loses a bit of the address, the hook of a store is dropped that writes to an
      address no other hook logs. */
  lemma {:induction false} LossyCastUnsound(values: seq<ValueDef>, pointerBits: nat, r: Value, w: Value)
    returns (f: Function, s: Pos, q: Pos)
    requires ValuesOk(values) && Walked(values, r, w)
    requires SymBits(values, pointerBits, w) != SymBits(values, pointerBits, r)
    ensures f == StraightLine(values, pointerBits, r, w, false) && s == Pos(0, |values|) && q == Pos(0, |values| + 2)
    ensures Ssa(f) && Reruns(f) && !Sound(f, {s, q}, Retained(f, {s, q}))
  {
    f, s, q := StraightLine(values, pointerBits, r, w, false), Pos(0, |values|), Pos(0, |values| + 2);
    var p := StraightLineDrops(values, pointerBits, r, w, false);
    assert p[|p|-1] == q;
    OtherBitsUnsound(f, s, q, p);
    NoCheckpointsRerun(f);
  }

  lemma {:induction false} NoCheckpointsRerun(f: Function)
    requires Ssa(f) && forall x :: !IsCheckpoint(f, x)
    ensures Reruns(f)
  {
  }

  /** Dropping is sound for every function over the values in which justifying stores run again after checkpoints, if and
      only if walked casts keep addresses. */
  lemma {:induction false} CastsSoundIff(values: seq<ValueDef>, pointerBits: nat)
    requires ValuesOk(values)
    ensures CastsSound(values, pointerBits) <==> CastsKeepAddresses(values, pointerBits)
  {
    if CastsKeepAddresses(values, pointerBits) {
      forall f | Ssa(f) && f.values == values && f.pointerBits == pointerBits && Reruns(f) ensures AlwaysSound(f) {
        KeptDropsSafe(f);
        DropsSafeSound(f);
      }
    } else {
      var r: nat, w: nat :| Walked(values, r, w) && SymBits(values, pointerBits, w) != SymBits(values, pointerBits, r);
      var f, s, q := LossyCastUnsound(values, pointerBits, r, w);
      NotAlwaysSound(f, {s, q});
    }
  }

  /** A checkpoint between two stores through one pointer loses its address: the server that stores to a global before
      its main loop and again inside it. */
  lemma {:induction false} CheckpointLoses(values: seq<ValueDef>, pointerBits: nat, r: Value)
    requires ValuesOk(values) && IsPointer(values, r) && Strip(values, r) == r
    ensures var f := StraightLine(values, pointerBits, r, r, true); Ssa(f) && !AlwaysSound(f)
  {
    var n := |values|;
    var f := StraightLine(values, pointerBits, r, r, true);
    assert Walked(values, r, r);
    var p := StraightLineDrops(values, pointerBits, r, r, true);
    assert p[n+1] == Pos(0, n + 1) && At(f, p[n+1]) == Checkpoint;
    NotAgainUnsound(f, Pos(0, n), Pos(0, n + 2), p, n + 1);
    NotAlwaysSound(f, {Pos(0, n), Pos(0, n + 2)});
  }

  /** The values of that server: one global. All casts keep addresses, and the second address is lost. */
  lemma {:induction false} GlobalLost(pointerBits: nat)
    ensures var values := [Root(Pointer)];
            var f := StraightLine(values, pointerBits, 0, 0, true);
            ValuesOk(values) && CastsKeepAddresses(values, pointerBits) && Ssa(f) && !AlwaysSound(f)
  {
    CheckpointLoses([Root(Pointer)], pointerBits, 0);
  }

  // ----- which casts lose bits -----

  /** No cast from `r` to `w` narrows below the width of a pointer or converts to or from floating point. */
  ghost predicate Wide(values: seq<ValueDef>, pointerBits: nat, r: Value, w: Value)
    requires ValuesOk(values) && w < |values| && CastReach(values, r, w)
    decreases w
  {
    r == w || (Width(values, pointerBits, w) >= pointerBits && !values[w].op.Convert?
               && Wide(values, pointerBits, r, values[w].operand))
  }

  lemma {:induction false} WideKeeps(values: seq<ValueDef>, pointerBits: nat, r: Value, w: Value)
    requires ValuesOk(values) && IsPointer(values, r) && w < |values| && CastReach(values, r, w)
    requires Wide(values, pointerBits, r, w)
    ensures Width(values, pointerBits, w) >= pointerBits
    ensures SymBits(values, pointerBits, w)[..pointerBits] == SymBits(values, pointerBits, r)
    decreases w
  {
    if r != w {
      WideKeeps(values, pointerBits, r, values[w].operand);
    }
  }

  /** Past a narrowing cast or a conversion the top bit of the root is gone for good. */
  lemma {:induction false} NarrowLoses(values: seq<ValueDef>, pointerBits: nat, r: Value, w: Value)
    requires ValuesOk(values) && IsPointer(values, r) && values[r].Root? && pointerBits > 0
    requires w < |values| && CastReach(values, r, w) && !Wide(values, pointerBits, r, w)
    ensures Bit(r, pointerBits - 1) !in SymBits(values, pointerBits, w)
    decreases w
  {
    var o := values[w].operand;
    if Wide(values, pointerBits, r, o) {
      WideKeeps(values, pointerBits, r, o);
    } else {
      NarrowLoses(values, pointerBits, r, o);
    }
  }

  /** For a pointer that is not itself made by casts, the bits survive exactly when no cast on the way
      narrows below the width of a pointer or converts to or from floating point. */
  lemma {:induction false} RootKeptIff(values: seq<ValueDef>, pointerBits: nat, r: Value, w: Value)
    requires ValuesOk(values) && Walked(values, r, w) && values[r].Root? && pointerBits > 0
    ensures SymBits(values, pointerBits, w) == SymBits(values, pointerBits, r) <==> Wide(values, pointerBits, r, w)
  {
    if Wide(values, pointerBits, r, w) {
      WideKeeps(values, pointerBits, r, w);
    } else {
      NarrowLoses(values, pointerBits, r, w);
      assert SymBits(values, pointerBits, r)[pointerBits - 1] == Bit(r, pointerBits - 1);
    }
  }

  /** Hence the pass is sound whenever no walk crosses such a cast, full-width round trips through
      integers included. */
  lemma {:induction false} WideCastsSound(values: seq<ValueDef>, pointerBits: nat)
    requires ValuesOk(values)
    requires forall r: nat, w: nat :: Walked(values, r, w) ==> Wide(values, pointerBits, r, w)
    ensures CastsSound(values, pointerBits)
  {
    forall r: nat, w: nat | Walked(values, r, w)
      ensures SymBits(values, pointerBits, w) == SymBits(values, pointerBits, r)
    {
      WideKeeps(values, pointerBits, r, w);
    }
    CastsSoundIff(values, pointerBits);
  }

  /** A pointer narrowed to a byte and made a pointer again. */
  lemma {:induction false} ByteTableUnsound()
    ensures var values := [Root(Pointer), Cast(Scalar(8), 0, Resize), Cast(Pointer, 1, Resize)];
            ValuesOk(values) && !CastsSound(values, 32)
  {
    var values := [Root(Pointer), Cast(Scalar(8), 0, Resize), Cast(Pointer, 1, Resize)];
    assert CastReach(values, 0, 1) && CastReach(values, 0, 2);
    assert Walked(values, 0, 2) && !Wide(values, 32, 0, 2);
    RootKeptIff(values, 32, 0, 2);
    CastsSoundIff(values, 32);
  }

  // ----- what is dropped, by chains of instructions -----

  /** Values, each the operand of the next. */
  ghost predicate IsChain(values: seq<ValueDef>, c: seq<Value>) {
    && |c| > 0 && (forall i :: 0 <= i < |c| ==> c[i] < |values|)
    && forall i, j :: 0 <= i < j < |c| && j == i + 1 ==> !values[c[j]].Root? && values[c[j]].operand == c[i]
  }

  /** Casts between pointers, those and all-zero GEPs, and all casts. */
  datatype Kind = PointerCasts | Steps | Casts

  predicate PointerCast(values: seq<ValueDef>, v: Value) {
    v < |values| && values[v].Cast? && values[v].ty.Pointer? && IsPointer(values, values[v].operand)
  }

  predicate OfKind(values: seq<ValueDef>, kind: Kind, v: Value) {
    v < |values| &&
    match kind
    case PointerCasts => PointerCast(values, v)
    case Steps => values[v].ZeroGep? || PointerCast(values, v)
    case Casts => values[v].Cast?
  }

  /** Instructions of one kind lead from `r` to `v`. */
  ghost predicate Leads(values: seq<ValueDef>, kind: Kind, c: seq<Value>, r: Value, v: Value) {
    IsChain(values, c) && c[0] == r && c[|c|-1] == v && forall i :: 0 < i < |c| ==> OfKind(values, kind, c[i])
  }

  ghost predicate Made(values: seq<ValueDef>, kind: Kind, r: Value, v: Value) {
    exists c :: Leads(values, kind, c, r, v)
  }

  /** Casts between pointers and all-zero GEPs lead from `r` to `v`, and to `r` itself there is no further step back. */
  ghost predicate StripsTo(values: seq<ValueDef>, r: Value, v: Value) {
    Made(values, Steps, r, v) && !OfKind(values, Steps, r)
  }

  lemma {:induction false} Extended(values: seq<ValueDef>, kind: Kind, r: Value, v: Value)
    requires v < |values| && !values[v].Root? && OfKind(values, kind, v) && Made(values, kind, r, values[v].operand)
    ensures Made(values, kind, r, v)
  {
    var c :| Leads(values, kind, c, r, values[v].operand);
    assert Leads(values, kind, c + [v], r, v);
  }

  lemma {:induction false} Alone(values: seq<ValueDef>, kind: Kind, v: Value)
    requires v < |values|
    ensures Made(values, kind, v, v)
  {
    assert Leads(values, kind, [v], v, v);
  }

  lemma {:induction false} Shortened(values: seq<ValueDef>, kind: Kind, c: seq<Value>, r: Value, v: Value)
    requires Leads(values, kind, c, r, v) && |c| > 1
    ensures v < |values| && OfKind(values, kind, v) && !values[v].Root? && Leads(values, kind, c[..|c|-1], r, values[v].operand)
  {
    var n := |c| - 1;
    var i, j := n - 1, n;
    assert j == i + 1 && !values[c[j]].Root? && values[c[j]].operand == c[i];
    assert IsChain(values, c[..n]);
  }

  lemma {:induction false} StripLeads(values: seq<ValueDef>, v: Value)
    requires ValuesOk(values) && v < |values|
    ensures StripsTo(values, Strip(values, v), v)
  {
    if OfKind(values, Steps, v) {
      StripLeads(values, values[v].operand);
      Extended(values, Steps, Strip(values, v), v);
    } else {
      Alone(values, Steps, v);
    }
  }

  lemma {:induction false} LeadsStrip(values: seq<ValueDef>, c: seq<Value>, r: Value, v: Value)
    requires ValuesOk(values) && Leads(values, Steps, c, r, v) && !OfKind(values, Steps, r)
    ensures v < |values| && Strip(values, v) == r
    decreases |c|
  {
    if |c| > 1 {
      Shortened(values, Steps, c, r, v);
      LeadsStrip(values, c[..|c|-1], r, values[v].operand);
    }
  }

  lemma {:induction false} StripIff(values: seq<ValueDef>, r: Value, v: Value)
    requires ValuesOk(values) && v < |values|
    ensures StripsTo(values, r, v) <==> Strip(values, v) == r
  {
    StripLeads(values, v);
    if StripsTo(values, r, v) {
      var c :| Leads(values, Steps, c, r, v);
      LeadsStrip(values, c, r, v);
    }
  }

  lemma {:induction false} LeadsReach(values: seq<ValueDef>, c: seq<Value>, r: Value, w: Value)
    requires ValuesOk(values) && Leads(values, Casts, c, r, w)
    ensures w < |values| && CastReach(values, r, w)
    decreases |c|
  {
    if |c| > 1 {
      Shortened(values, Casts, c, r, w);
      LeadsReach(values, c[..|c|-1], r, values[w].operand);
    }
  }

  lemma {:induction false} ReachLeads(values: seq<ValueDef>, r: Value, w: Value)
    requires ValuesOk(values) && w < |values| && CastReach(values, r, w)
    ensures Made(values, Casts, r, w)
    decreases w
  {
    if r == w {
      Alone(values, Casts, w);
    } else {
      ReachLeads(values, r, values[w].operand);
      Extended(values, Casts, r, w);
    }
  }

  /** `q` is a double of `s`: `s` dominates it, casts lead from the value that the pointer of `s` strips to, to an operand
      `w` of `q`, and `w` and the pointer of `q` strip to the same value. */
  ghost predicate DoubleThrough(f: Function, s: Pos, q: Pos, r: Value, w: Value, b: Value) {
    && IsStore(f, s) && IsStore(f, q) && Dominates(f, s, q)
    && StripsTo(f.values, r, At(f, s).ptr) && Made(f.values, Casts, r, w)
    && (w == At(f, q).ptr || w == At(f, q).val)
    && StripsTo(f.values, b, w) && StripsTo(f.values, b, At(f, q).ptr)
  }

  ghost predicate DoubleOf(f: Function, s: Pos, q: Pos) {
    exists r, w, b :: DoubleThrough(f, s, q, r, w, b)
  }

  lemma {:induction false} DoubleJustified(f: Function, s: Pos, q: Pos, r: Value, w: Value, b: Value)
    requires Ssa(f) && DoubleThrough(f, s, q, r, w, b)
    ensures Justifies(f, s, q)
  {
    var c :| Leads(f.values, Casts, c, r, w);
    LeadsReach(f.values, c, r, w);
    StripIff(f.values, r, At(f, s).ptr);
    StripIff(f.values, b, w);
    StripIff(f.values, b, At(f, q).ptr);
    assert MarkedAt(f, r, w, q);
  }

  /** What the pass may drop, and because of what, is exactly what the instructions say. */
  lemma {:induction false} JustifiesIff(f: Function, s: Pos, q: Pos)
    requires Ssa(f)
    ensures Justifies(f, s, q) <==> DoubleOf(f, s, q)
  {
    if Justifies(f, s, q) {
      var r := Target(f, s);
      var w: nat :| w < |f.values| && MarkedAt(f, r, w, q);
      StripLeads(f.values, At(f, s).ptr);
      ReachLeads(f.values, r, w);
      StripLeads(f.values, w);
      StripLeads(f.values, At(f, q).ptr);
      assert DoubleThrough(f, s, q, r, w, Strip(f.values, w));
    }
    if r, w, b :| DoubleThrough(f, s, q, r, w, b) {
      DoubleJustified(f, s, q, r, w, b);
    }
  }

  /** Both stores go through a root pointer, or through what casts between pointers make from it. */
  ghost predicate SameRoot(f: Function, p: Value, s: Pos, q: Pos) {
    && IsStore(f, s) && IsStore(f, q) && IsPointer(f.values, p) && f.values[p].Root?
    && Made(f.values, PointerCasts, p, At(f, s).ptr) && Made(f.values, PointerCasts, p, At(f, q).ptr)
  }

  lemma {:induction false} Weakened(values: seq<ValueDef>, kind: Kind, wider: Kind, r: Value, v: Value)
    requires Made(values, kind, r, v) && forall x :: OfKind(values, kind, x) ==> OfKind(values, wider, x)
    ensures Made(values, wider, r, v)
  {
    var c :| Leads(values, kind, c, r, v);
    assert Leads(values, wider, c, r, v);
  }

  /** Every store through bit casts of a root is a double of every dominating store through bit casts of it. */
  lemma {:induction false} SameRootDoubles(f: Function, p: Value, s: Pos, q: Pos)
    requires Ssa(f) && SameRoot(f, p, s, q) && Dominates(f, s, q)
    ensures DoubleOf(f, s, q)
  {
    var values, a, w := f.values, At(f, s).ptr, At(f, q).ptr;
    Weakened(values, PointerCasts, Steps, p, a);
    Weakened(values, PointerCasts, Steps, p, w);
    Weakened(values, PointerCasts, Casts, p, w);
    assert DoubleThrough(f, s, q, p, w, p);
  }

  lemma {:induction false} RetainedIff(f: Function, candidates: set<Pos>, q: Pos)
    requires Ssa(f)
    ensures q in Retained(f, candidates) <==> q in candidates && forall s :: s in candidates ==> !DoubleOf(f, s, q)
  {
    forall s ensures Justifies(f, s, q) <==> DoubleOf(f, s, q) {
      JustifiesIff(f, s, q);
    }
    assert Dropped(f, candidates, q) <==> exists s :: s in candidates && Justifies(f, s, q);
  }

  // ----- the pass itself -----

  /** An entry of a value's use list. */
  datatype User = StoreUser(pos: Pos) | CastUser(value: Value) | OtherUser

  ghost predicate UseListsOk(f: Function, uses: map<Value, seq<User>>) {
    && (forall v: nat :: v < |f.values| ==> v in uses)
    && (forall v: nat, u :: v in uses && v < |f.values| && u in uses[v] && u.StoreUser? ==> UsesValue(f, u.pos, v))
    && (forall v: nat, u :: v in uses && v < |f.values| && u in uses[v] && u.CastUser? ==> IsCastOf(f, u.value, v))
    && (forall v: nat, p :: v < |f.values| && UsesValue(f, p, v) ==> v in uses && StoreUser(p) in uses[v])
    && (forall v: nat, c :: v < |f.values| && IsCastOf(f, c, v) ==> v in uses && CastUser(c) in uses[v])
  }

  predicate IsCastOf(f: Function, c: Value, v: Value) {
    c < |f.values| && f.values[c].Cast? && f.values[c].operand == v
  }

  lemma {:induction false} ReachThroughUser(values: seq<ValueDef>, v: Value, w: Value) returns (c: Value)
    requires ValuesOk(values) && w < |values| && CastReach(values, v, w) && v != w
    ensures c < |values| && values[c].Cast? && values[c].operand == v && CastReach(values, c, w)
    decreases w
  {
    if values[w].operand == v {
      c := w;
    } else {
      c := ReachThroughUser(values, v, values[w].operand);
    }
  }

  lemma {:induction false} ReachExtends(values: seq<ValueDef>, v: Value, c: Value, w: Value)
    requires ValuesOk(values) && w < |values| && c < |values|
    requires values[c].Cast? && values[c].operand == v && CastReach(values, c, w)
    ensures CastReach(values, v, w)
    decreases w
  {
    if c != w {
      ReachExtends(values, v, c, values[w].operand);
    }
  }

  class DoubleStorePass {
    const f: Function
    const uses: map<Value, seq<User>>
    const dt: set<(Pos, Pos)>
    var il: set<Pos>
    var ds: set<Pos>

    ghost predicate Valid() {
      Ssa(f) && UseListsOk(f, uses) && DominatorTreeOk(f, dt)
    }

    constructor (f: Function, uses: map<Value, seq<User>>, dt: set<(Pos, Pos)>, candidates: set<Pos>)
      requires Ssa(f) && UseListsOk(f, uses) && DominatorTreeOk(f, dt)
      ensures Valid() && this.f == f && il == candidates && ds == {}
    {
      this.f, this.uses, this.dt := f, uses, dt;
      il, ds := candidates, {};
    }

    /** What the users from index `k` on contribute to the walk from `v`. */
    ghost predicate MarkedByUsers(s: Pos, v: Value, k: nat, q: Pos)
      requires Valid() && v < |f.values| && k <= |uses[v]|
    {
      exists i :: 0 <= i < k && MarkedByUser(s, v, uses[v][i], q)
    }

    ghost predicate MarkedByUser(s: Pos, v: Value, u: User, q: Pos)
      requires Valid() && v < |f.values| && u in uses[v]
    {
      match u
      case StoreUser(p) => q == p && Dominates(f, s, p) && Strip(f.values, v) == Target(f, p)
      case CastUser(c) => MarkedFrom(f, s, c, q)
      case OtherUser => false
    }

    lemma {:induction false} WalkByUsers(s: Pos, v: Value, q: Pos)
      requires Valid() && v < |f.values|
      ensures MarkedFrom(f, s, v, q) <==> MarkedByUsers(s, v, |uses[v]|, q)
    {
      if MarkedFrom(f, s, v, q) {
        var w: nat :| w < |f.values| && MarkedAt(f, v, w, q);
        var u: User;
        if w == v {
          u := StoreUser(q);
        } else {
          var c := ReachThroughUser(f.values, v, w);
          u := CastUser(c);
          assert IsCastOf(f, c, v);
          assert MarkedAt(f, c, w, q);
        }
        var i :| 0 <= i < |uses[v]| && uses[v][i] == u;
        assert MarkedByUser(s, v, uses[v][i], q);
      }
      if MarkedByUsers(s, v, |uses[v]|, q) {
        var i :| 0 <= i < |uses[v]| && MarkedByUser(s, v, uses[v][i], q);
        match uses[v][i] {
          case StoreUser(p) => assert MarkedAt(f, v, v, q);
          case CastUser(c) =>
            assert IsCastOf(f, c, v);
            var w: nat :| w < |f.values| && MarkedAt(f, c, w, q);
            ReachExtends(f.values, v, c, w);
            assert MarkedAt(f, v, w, q);
        }
      }
    }

    method RecUserCheck(s: Pos, v: Value)
      requires Valid() && IsStore(f, s) && v < |f.values|
      modifies this`ds
      ensures forall q :: q in ds <==> q in old(ds) || MarkedFrom(f, s, v, q)
      decreases |f.values| - v
    {
      var us := uses[v];
      for i := 0 to |us|
        invariant forall q :: q in ds <==> q in old(ds) || MarkedByUsers(s, v, i, q)
      {
        ghost var before := ds;
        var u := us[i];
        match u {
          case StoreUser(p) =>
            assert UsesValue(f, p, v);
            if (s, p) in dt && Strip(f.values, v) == Strip(f.values, At(f, p).ptr) {
              ds := ds + {p};
            }
          case CastUser(c) =>
            assert IsCastOf(f, c, v);
            RecUserCheck(s, c);
          case OtherUser =>
        }
        assert forall q :: q in ds <==> q in before || MarkedByUser(s, v, us[i], q);
        assert forall q :: MarkedByUsers(s, v, i + 1, q) <==> MarkedByUsers(s, v, i, q) || MarkedByUser(s, v, us[i], q);
      }
      forall q ensures MarkedFrom(f, s, v, q) <==> MarkedByUsers(s, v, |us|, q) {
        WalkByUsers(s, v, q);
      }
    }

    lemma {:induction false} DroppedStep(done: set<Pos>, s: Pos, q: Pos)
      requires Valid()
      ensures Dropped(f, done + {s}, q) <==>
        Dropped(f, done, q) || (IsStore(f, s) && MarkedFrom(f, s, Target(f, s), q))
    {
    }

    /** The first loop of eliminateDoubleStores collects every store some candidate justifies. */
    method MarkDoubles()
      requires Valid() && ds == {}
      modifies this`ds
      ensures forall q :: q in ds <==> Dropped(f, il, q)
    {
      var todo := il;
      while todo != {}
        invariant todo <= il
        invariant forall q :: q in ds <==> Dropped(f, il - todo, q)
        decreases todo
      {
        var s :| s in todo;
        ghost var done := il - todo;
        forall q ensures Dropped(f, done + {s}, q) <==>
          Dropped(f, done, q) || (IsStore(f, s) && MarkedFrom(f, s, Target(f, s), q))
        {
          DroppedStep(done, s, q);
        }
        if IsStore(f, s) {
          RecUserCheck(s, Strip(f.values, At(f, s).ptr));
        }
        todo := todo - {s};
        assert il - todo == done + {s};
      }
      assert il - todo == il;
    }

    /** The second loop erases what the first one collected. */
    static method Erase(il: set<Pos>, ds: set<Pos>) returns (r: set<Pos>)
      ensures r == il - ds
    {
      r := il;
      var marked := ds;
      while marked != {}
        invariant marked <= ds && r == il - (ds - marked)
        decreases marked
      {
        var q :| q in marked;
        if q in r {
          r := r - {q};
        }
        marked := marked - {q};
      }
    }

    /** eliminateDoubleStores: what is left in `il` is exactly what the specification retains. */
    method EliminateDoubleStores()
      requires Valid() && ds == {}
      modifies this
      ensures il == Retained(f, old(il))
      ensures forall q :: q in il <==> q in old(il) && forall s :: s in old(il) ==> !DoubleOf(f, s, q)
      ensures forall p, s, q :: s in old(il) && SameRoot(f, p, s, q) && Dominates(f, s, q) ==> q !in il
    {
      MarkDoubles();
      il := Erase(il, ds);
      forall q ensures q in il <==> q in old(il) && forall s :: s in old(il) ==> !DoubleOf(f, s, q) {
        RetainedIff(f, old(il), q);
      }
      forall p, s, q | s in old(il) && SameRoot(f, p, s, q) && Dominates(f, s, q)
        ensures q !in il
      {
        SameRootDoubles(f, p, s, q);
      }
    }
  }
}
