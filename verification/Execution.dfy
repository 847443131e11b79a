/**
 What the values of a function hold while it runs, bit by bit, and which bits of which other
 value they are. `HeldBits` ties the two: on every execution, at every point where a value can
 be used, it holds exactly the bits its casts say it holds.
 */
module Execution {
  import opened ControlFlow

  /** The bits of a value, lowest first. */
  type Bits = seq<bool>

  /** A bit as the casts show it: always zero, or a bit of the value it comes from unchanged. */
  datatype Sym = Zero | Bit(origin: Value, index: nat)

  function Width(values: seq<ValueDef>, pointerBits: nat, v: Value): nat
    requires v < |values|
  {
    match values[v].ty
    case Pointer => pointerBits
    case Scalar(bits) => bits
  }

  function Resized<T>(s: seq<T>, n: nat, fill: T): (r: seq<T>)
    ensures |r| == n
  {
    if n <= |s| then s[..n] else s + seq(n - |s|, (_: nat) => fill)
  }

  /** A cast other than a conversion, on bits of either kind. */
  function Recast<T>(s: seq<T>, n: nat, zero: T, op: CastOp): (r: seq<T>)
    requires !op.Convert?
    ensures |r| == n
  {
    Resized(s, n, if op.SignExtend? && s != [] then s[|s|-1] else zero)
  }

  function Fresh(v: Value, n: nat): (r: seq<Sym>)
    ensures |r| == n
  {
    seq(n, (i: nat) => Bit(v, i))
  }

  /** The bits of `v` in terms of the values that are not made by casts. */
  function SymBits(values: seq<ValueDef>, pointerBits: nat, v: Value): (r: seq<Sym>)
    requires ValuesOk(values) && v < |values|
    ensures |r| == Width(values, pointerBits, v)
    decreases v
  {
    var n := Width(values, pointerBits, v);
    match values[v]
    case Root(_) => Fresh(v, n)
    case Cast(_, o, op) => if op.Convert? then Fresh(v, n) else Recast(SymBits(values, pointerBits, o), n, Zero, op)
    case ZeroGep(_, o) => SymBits(values, pointerBits, o)
  }

  function MapBits(s: seq<Sym>, g: Sym -> bool): (r: Bits)
    ensures |r| == |s|
  {
    seq(|s|, (i: nat) requires i < |s| => g(s[i]))
  }

  lemma {:induction false} MapRecast(s: seq<Sym>, n: nat, op: CastOp, g: Sym -> bool)
    requires !op.Convert? && !g(Zero)
    ensures MapBits(Recast(s, n, Zero, op), g) == Recast(MapBits(s, g), n, false, op)
  {
  }

  lemma {:induction false} StripKeepsBits(values: seq<ValueDef>, pointerBits: nat, v: Value)
    requires ValuesOk(values) && v < |values|
    ensures SymBits(values, pointerBits, Strip(values, v)) == SymBits(values, pointerBits, v)
  {
    if Strip(values, v) != v {
      StripKeepsBits(values, pointerBits, values[v].operand);
    }
  }

  // ----- executions -----

  /** What each value holds at some point. */
  type Env = seq<Bits>

  ghost predicate EnvOk(f: Function, env: Env) {
    |env| == |f.values| && forall v :: 0 <= v < |env| ==> |env[v]| == Width(f.values, f.pointerBits, v)
  }

  /** What the instruction that makes `v` computes; `conv` stands for the floating point conversions. */
  function Result(f: Function, conv: (Value, Bits) -> Bits, v: Value, env: Env): Bits
    requires v < |f.values| == |env| && !f.values[v].Root? && f.values[v].operand < v
  {
    var n := Width(f.values, f.pointerBits, v);
    match f.values[v]
    case Cast(_, o, op) => if op.Convert? then Resized(conv(v, env[o]), n, false) else Recast(env[o], n, false, op)
    case ZeroGep(_, o) => env[o]
  }

  ghost predicate Holds(f: Function, conv: (Value, Bits) -> Bits, v: Value, env: Env)
    requires ValuesOk(f.values) && v < |f.values| == |env|
  {
    f.values[v].Root? || env[v] == Result(f, conv, v, env)
  }

  /** The instruction at `a` changes the value it defines and no other. A root takes any new bits. */
  ghost predicate Step(f: Function, conv: (Value, Bits) -> Bits, a: Pos, env: Env, next: Env)
    requires ValuesOk(f.values) && EnvOk(f, env) && EnvOk(f, next)
  {
    forall v: nat :: v < |f.values| ==>
      if Defines(f, a, v) then f.values[v].Root? || next[v] == Result(f, conv, v, env) else next[v] == env[v]
  }

  /** An execution: a path, and what every value holds before each instruction on it. Casts of
      constants have no instruction and hold from the start. */
  ghost predicate Executes(f: Function, conv: (Value, Bits) -> Bits, p: seq<Pos>, m: seq<Env>)
    requires ValuesOk(f.values)
  {
    && IsPath(f, p) && |m| == |p|
    && (forall k :: 0 <= k < |m| ==> EnvOk(f, m[k]))
    && (forall v: nat :: v < |f.values| && (forall d :: !Defines(f, d, v)) ==> Holds(f, conv, v, m[0]))
    && (forall k, l :: 0 <= k < l < |m| && l == k + 1 ==> Step(f, conv, p[k], m[k], m[l]))
  }

  lemma {:induction false} Unchanged(f: Function, conv: (Value, Bits) -> Bits, p: seq<Pos>, m: seq<Env>, v: Value, i: nat, t: nat)
    requires ValuesOk(f.values) && Executes(f, conv, p, m) && i <= t < |p| && v < |f.values|
    requires forall k :: i <= k < t ==> !Defines(f, p[k], v)
    ensures m[t][v] == m[i][v]
    decreases t
  {
    if i < t {
      Unchanged(f, conv, p, m, v, i, t - 1);
      assert Step(f, conv, p[t-1], m[t-1], m[t]);
    }
  }

  /** Loops do not separate a value from its operand: where the value can be used, the operand
      still holds what the value was made from. */
  lemma {:induction false} StillHolds(f: Function, conv: (Value, Bits) -> Bits, p: seq<Pos>, m: seq<Env>, v: Value, t: nat)
    requires Ssa(f) && Executes(f, conv, p, m) && t < |p| && v < |f.values| && Available(f, v, p[t])
    ensures Holds(f, conv, v, m[t])
  {
    if !f.values[v].Root? {
      var o := f.values[v].operand;
      if d :| Defines(f, d, v) {
        var k := DominatorSeen(f, d, p, t);
        var e := LastVisit(f, p, v, k, t);
        forall j | e <= j < t ensures !Defines(f, p[j], o) {
          if e < j && Defines(f, p[j], o) {
            var j' := RunsAfter(f, p[j], d, p, j, t);
            assert false;
          }
        }
        assert Step(f, conv, p[e], m[e], m[e+1]);
        Unchanged(f, conv, p, m, v, e + 1, t);
        Unchanged(f, conv, p, m, o, e, t);
      } else {
        assert forall d :: Defines(f, d, o) ==> exists e :: Defines(f, e, v) && Dominates(f, d, e);
        assert Holds(f, conv, v, m[0]);
        Unchanged(f, conv, p, m, v, 0, t);
        Unchanged(f, conv, p, m, o, 0, t);
      }
    }
  }

  function Shown(env: Env): Sym -> bool {
    (s: Sym) => s.Bit? && s.origin < |env| && s.index < |env[s.origin]| && env[s.origin][s.index]
  }

  /** At every point where `v` can be used, it holds the bits its casts say it holds. */
  lemma {:induction false} HeldBits(f: Function, conv: (Value, Bits) -> Bits, p: seq<Pos>, m: seq<Env>, v: Value, t: nat)
    requires Ssa(f) && Executes(f, conv, p, m) && t < |p| && v < |f.values| && Available(f, v, p[t])
    ensures m[t][v] == MapBits(SymBits(f.values, f.pointerBits, v), Shown(m[t]))
    decreases v
  {
    StillHolds(f, conv, p, m, v, t);
    if !f.values[v].Root? && !(f.values[v].Cast? && f.values[v].op.Convert?) {
      var o := f.values[v].operand;
      OperandAvailable(f, v, p[t]);
      HeldBits(f, conv, p, m, o, t);
      if f.values[v].Cast? {
        MapRecast(SymBits(f.values, f.pointerBits, o), Width(f.values, f.pointerBits, v), f.values[v].op, Shown(m[t]));
      }
    }
  }
}
