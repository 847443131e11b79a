/**
 The passes and the log together: an execution in which only the retained hooks run, started with an empty log, is
 put back by a restart, byte for byte.
 */
module HookedExecutions {
  import opened ControlFlow
  import opened Execution
  import opened StoreElimination
  import WriteLog

  type Op = WriteLog.Op

  /** The address that a pointer's bits stand for. */
  function Number(bits: Bits): nat {
    if bits == [] then 0 else (if bits[0] then 1 else 0) + 2 * Number(bits[1..])
  }

  /** One activation with its memory traffic: which stores are hooked, and what the store at each time writes. */
  datatype Activation = Activation(f: Function, hooked: set<Pos>, p: seq<Pos>, m: seq<Env>, data: nat -> seq<WriteLog.Byte>)

  ghost predicate Runs(x: Activation) {
    Ssa(x.f) && exists conv :: Executes(x.f, conv, x.p, x.m)
  }

  ghost function StoreAddress(x: Activation, k: nat): nat
    requires Runs(x) && k < |x.p| && IsStore(x.f, x.p[k])
  {
    Number(Address(x.f, x.m[k], x.p[k]))
  }

  /** What the instruction at time `k` does to the log and to memory. */
  ghost function OpsAt(x: Activation, k: nat): seq<Op>
    requires Runs(x) && k < |x.p|
  {
    if !IsStore(x.f, x.p[k]) then []
    else
      var a := StoreAddress(x, k);
      (if x.p[k] in x.hooked then [WriteLog.StoreHook(a)] else []) + [WriteLog.Write(a, x.data(k))]
  }

  /** What the instructions from time `c` up to time `t` do. */
  ghost function Ops(x: Activation, c: nat, t: nat): seq<Op>
    requires Runs(x) && c <= t <= |x.p|
  {
    if c == t then [] else Ops(x, c, t - 1) + OpsAt(x, t - 1)
  }

  /** The stores stay in memory and cross no region boundary. */
  ghost predicate Fits(x: Activation, size: nat, c: nat, t: nat)
    requires Runs(x) && c <= t <= |x.p|
  {
    forall k :: c <= k < t && IsStore(x.f, x.p[k]) ==> FitsAt(x, size, k)
  }

  ghost predicate FitsAt(x: Activation, size: nat, k: nat)
    requires Runs(x) && k < |x.p| && IsStore(x.f, x.p[k])
  {
    var a, n := StoreAddress(x, k), |x.data(k)|;
    a < size && a + n <= size && a % WriteLog.GRANULARITY + n <= WriteLog.GRANULARITY
  }

  /** Nothing between the two times empties the log, and the first of them follows a checkpoint or is the start. */
  ghost predicate Stretch(x: Activation, c: nat, t: nat)
    requires Runs(x) && c <= t <= |x.p|
  {
    && (c == 0 || IsCheckpoint(x.f, x.p[c-1]))
    && forall k :: c <= k < t ==> !IsCheckpoint(x.f, x.p[k])
  }

  /** Every store of the stretch is hooked, or its address is in the log. */
  ghost predicate AllLogged(x: Activation, c: nat, t: nat)
    requires Runs(x) && c <= t <= |x.p|
  {
    forall k :: c <= k < t && IsStore(x.f, x.p[k]) ==> SoundAt(x.f, x.hooked, x.p, x.m, k)
  }

  lemma {:induction false} OpsInMemory(x: Activation, size: nat, c: nat, t: nat)
    requires Runs(x) && c <= t <= |x.p| && Fits(x, size, c, t)
    ensures forall op :: op in Ops(x, c, t) ==> WriteLog.InMemory(size, op)
    decreases t
  {
    if c < t {
      OpsInMemory(x, size, c, t - 1);
      assert IsStore(x.f, x.p[t-1]) ==> FitsAt(x, size, t - 1);
    }
  }

  ghost predicate LogReady(s: WriteLog.State, ops: seq<Op>) {
    |s.mem| % WriteLog.GRANULARITY == 0 && forall op :: op in ops ==> WriteLog.InMemory(|s.mem|, op)
  }

  lemma {:induction false} RunAppend(s: WriteLog.State, ops: seq<Op>, op: Op)
    requires LogReady(s, ops) && WriteLog.InMemory(|s.mem|, op)
    ensures LogReady(s, ops + [op]) && WriteLog.Run(s, ops + [op]) == WriteLog.Step(WriteLog.Run(s, ops), op)
    ensures WriteLog.AllCovered(s, ops) && WriteLog.Covered(WriteLog.Run(s, ops), op) ==> WriteLog.AllCovered(s, ops + [op])
  {
    var more := ops + [op];
    assert more[..|ops|] == ops && more[|ops|] == op;
    if WriteLog.AllCovered(s, ops) && WriteLog.Covered(WriteLog.Run(s, ops), op) {
      forall n | 0 <= n < |more| ensures WriteLog.Covered(WriteLog.Run(s, more[..n]), more[n]) {
        assert n < |ops| ==> more[..n] == ops[..n] && more[n] == ops[n];
      }
    }
  }

  lemma {:induction false} RegionCovers(s: WriteLog.State, a: nat, data: seq<WriteLog.Byte>)
    requires WriteLog.Saves(s.log, WriteLog.Align(a)) && a % WriteLog.GRANULARITY + |data| <= WriteLog.GRANULARITY
    ensures WriteLog.Covered(s, WriteLog.Write(a, data))
  {
    forall b | a <= b < a + |data| ensures WriteLog.Align(b) == WriteLog.Align(a) {
      WriteLog.SameRegion(WriteLog.Align(a), b);
    }
  }

  /** Everything written so far was covered, and the log holds the regions `saved` and more. */
  ghost predicate CoveredSo(s: WriteLog.State, ops: seq<Op>, saved: set<nat>) {
    LogReady(s, ops) && WriteLog.AllCovered(s, ops) && forall r :: r in saved ==> WriteLog.Saves(WriteLog.Run(s, ops).log, r)
  }

  lemma {:induction false} WriteCovered(s: WriteLog.State, ops: seq<Op>, saved: set<nat>, a: nat, data: seq<WriteLog.Byte>)
    requires CoveredSo(s, ops, saved) && WriteLog.Align(a) in saved
    requires a + |data| <= |s.mem| && a % WriteLog.GRANULARITY + |data| <= WriteLog.GRANULARITY
    ensures CoveredSo(s, ops + [WriteLog.Write(a, data)], saved)
  {
    RegionCovers(WriteLog.Run(s, ops), a, data);
    RunAppend(s, ops, WriteLog.Write(a, data));
  }

  lemma {:induction false} HookSaves(s: WriteLog.State, ops: seq<Op>, saved: set<nat>, a: nat)
    requires CoveredSo(s, ops, saved) && WriteLog.Run(s, ops).windowOpen && a < |s.mem|
    ensures CoveredSo(s, ops + [WriteLog.StoreHook(a)], saved + {WriteLog.Align(a)})
  {
    var before := WriteLog.Run(s, ops);
    RunAppend(s, ops, WriteLog.StoreHook(a));
    forall r | r in saved + {WriteLog.Align(a)} ensures WriteLog.Saves(WriteLog.Save(before, a).log, r) {
      WriteLog.SaveAdds(before, a, r);
    }
  }

  /** The regions of the hooked stores of a stretch. */
  ghost function Regions(x: Activation, c: nat, k: nat): set<nat>
    requires Runs(x) && c <= k <= |x.p|
  {
    set i | c <= i < k && IsStore(x.f, x.p[i]) && x.p[i] in x.hooked :: WriteLog.Align(StoreAddress(x, i))
  }

  /** The address of an unhooked store was logged within the stretch. */
  lemma {:induction false} LoggedInStretch(x: Activation, c: nat, k: nat)
    requires Runs(x) && c <= k < |x.p| && Stretch(x, c, k + 1)
    requires IsStore(x.f, x.p[k]) && x.p[k] !in x.hooked && SoundAt(x.f, x.hooked, x.p, x.m, k)
    ensures WriteLog.Align(StoreAddress(x, k)) in Regions(x, c, k)
  {
    var address := Address(x.f, x.m[k], x.p[k]);
    var i :| 0 <= i < k && LoggedBy(x.f, x.hooked, x.p, x.m, i, k, address);
    assert c <= i;
    assert StoreAddress(x, i) == StoreAddress(x, k);
  }

  lemma {:induction false} RegionsNext(x: Activation, c: nat, k: nat)
    requires Runs(x) && c <= k < |x.p|
    ensures Regions(x, c, k + 1) == Regions(x, c, k) +
              (if IsStore(x.f, x.p[k]) && x.p[k] in x.hooked then {WriteLog.Align(StoreAddress(x, k))} else {})
  {
  }

  /** One store, hooked or not. */
  lemma {:induction false} StoreCovered(x: Activation, c: nat, k: nat, s: WriteLog.State, ops: seq<Op>)
    requires Runs(x) && c <= k < |x.p| && Stretch(x, c, k + 1) && IsStore(x.f, x.p[k]) && SoundAt(x.f, x.hooked, x.p, x.m, k)
    requires CoveredSo(s, ops, Regions(x, c, k)) && FitsAt(x, |s.mem|, k) && WriteLog.Run(s, ops).windowOpen
    ensures CoveredSo(s, ops + OpsAt(x, k), Regions(x, c, k + 1))
  {
    var a, data, saved := StoreAddress(x, k), x.data(k), Regions(x, c, k);
    RegionsNext(x, c, k);
    if x.p[k] in x.hooked {
      var hook := WriteLog.StoreHook(a);
      HookSaves(s, ops, saved, a);
      WriteCovered(s, ops + [hook], saved + {WriteLog.Align(a)}, a, data);
      assert ops + [hook] + [WriteLog.Write(a, data)] == ops + OpsAt(x, k);
    } else {
      LoggedInStretch(x, c, k);
      WriteCovered(s, ops, saved, a, data);
      assert OpsAt(x, k) == [WriteLog.Write(a, data)];
    }
  }

  lemma {:induction false} InstructionCovered(x: Activation, c: nat, k: nat, s: WriteLog.State, ops: seq<Op>)
    requires Runs(x) && c <= k < |x.p| && Stretch(x, c, k + 1)
    requires IsStore(x.f, x.p[k]) ==> SoundAt(x.f, x.hooked, x.p, x.m, k) && FitsAt(x, |s.mem|, k)
    requires CoveredSo(s, ops, Regions(x, c, k)) && WriteLog.Run(s, ops).windowOpen
    ensures CoveredSo(s, ops + OpsAt(x, k), Regions(x, c, k + 1))
  {
    if IsStore(x.f, x.p[k]) {
      StoreCovered(x, c, k, s, ops);
    } else {
      RegionsNext(x, c, k);
      assert ops + OpsAt(x, k) == ops;
    }
  }

  lemma {:induction false} OpenBefore(x: Activation, c: nat, t: nat, s: WriteLog.State)
    requires Runs(x) && c < t <= |x.p| && LogReady(s, Ops(x, c, t)) && WriteLog.Run(s, Ops(x, c, t)).windowOpen
    ensures LogReady(s, Ops(x, c, t - 1)) && WriteLog.Run(s, Ops(x, c, t - 1)).windowOpen
  {
    var before, now := Ops(x, c, t - 1), Ops(x, c, t);
    assert now[..|before|] == before;
    WriteLog.WasOpen(s, now, |before|);
  }

  lemma {:induction false} ShorterStretch(x: Activation, c: nat, t: nat, size: nat)
    requires Runs(x) && c < t <= |x.p| && Stretch(x, c, t) && AllLogged(x, c, t) && Fits(x, size, c, t)
    ensures Stretch(x, c, t - 1) && AllLogged(x, c, t - 1) && Fits(x, size, c, t - 1)
    ensures IsStore(x.f, x.p[t-1]) ==> SoundAt(x.f, x.hooked, x.p, x.m, t - 1) && FitsAt(x, size, t - 1)
  {
  }

  lemma {:induction false} StretchCovered(x: Activation, c: nat, t: nat, s: WriteLog.State)
    requires Runs(x) && c <= t <= |x.p| && Stretch(x, c, t) && AllLogged(x, c, t) && Fits(x, |s.mem|, c, t)
    requires LogReady(s, Ops(x, c, t)) && WriteLog.Run(s, Ops(x, c, t)).windowOpen
    ensures CoveredSo(s, Ops(x, c, t), Regions(x, c, t))
    decreases t
  {
    if c < t {
      OpenBefore(x, c, t, s);
      ShorterStretch(x, c, t, |s.mem|);
      StretchCovered(x, c, t - 1, s);
      InstructionCovered(x, c, t - 1, s, Ops(x, c, t - 1));
    }
  }

  /** A stretch of an execution whose stores are all hooked or logged is put back by a restart, in every region that
      restarts put back. */
  lemma {:induction false} StretchUndone(x: Activation, c: nat, t: nat, s: WriteLog.State, restart: WriteLog.Restart, b: nat)
    requires Runs(x) && c <= t <= |x.p| && Stretch(x, c, t) && AllLogged(x, c, t) && Fits(x, |s.mem|, c, t)
    requires |s.mem| % WriteLog.GRANULARITY == 0 && s.log == [] && b < |s.mem|
    ensures forall op :: op in Ops(x, c, t) ==> WriteLog.InMemory(|s.mem|, op)
    ensures WriteLog.Run(s, Ops(x, c, t)).windowOpen ==> WriteLog.Undone(s, WriteLog.Run(s, Ops(x, c, t)), restart, b)
  {
    OpsInMemory(x, |s.mem|, c, t);
    if WriteLog.Run(s, Ops(x, c, t)).windowOpen {
      StretchCovered(x, c, t, s);
      WriteLog.RestartPutsBack(s, Ops(x, c, t), restart, b);
    }
  }

  /** The pass leaves enough hooks: for every function whose drops are safe, every execution with the retained hooks only,
      and every stretch of it between checkpoints in which all stores were candidates and the window stays open, a restart
      puts back every byte of the regions that restarts put back. */
  lemma {:induction false} RetainedHooksUndone(x: Activation, candidates: set<Pos>, c: nat, t: nat, s: WriteLog.State, restart: WriteLog.Restart, b: nat)
    requires Runs(x) && DropsSafe(x.f) && x.hooked == Retained(x.f, candidates)
    requires c <= t <= |x.p| && Stretch(x, c, t) && Fits(x, |s.mem|, c, t)
    requires forall k :: c <= k < t && IsStore(x.f, x.p[k]) ==> x.p[k] in candidates
    requires |s.mem| % WriteLog.GRANULARITY == 0 && s.log == [] && b < |s.mem|
    ensures forall op :: op in Ops(x, c, t) ==> WriteLog.InMemory(|s.mem|, op)
    ensures WriteLog.Run(s, Ops(x, c, t)).windowOpen ==> WriteLog.Undone(s, WriteLog.Run(s, Ops(x, c, t)), restart, b)
  {
    var conv :| Executes(x.f, conv, x.p, x.m);
    forall k | c <= k < t && IsStore(x.f, x.p[k]) ensures SoundAt(x.f, x.hooked, x.p, x.m, k) {
      DroppingSoundAt(x.f, candidates, conv, x.p, x.m, k);
    }
    StretchUndone(x, c, t, s, restart, b);
  }
}
