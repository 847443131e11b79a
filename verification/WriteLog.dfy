/**
 The write log: hooks save the regions that are about to be written, and a restart puts them back in reverse order.
 What a byte holds after a restart is what it held when its region was first saved (`RolledBackByte`), so that a run whose
 writes are all covered by hooks is undone completely (`CoveredRunUndone`). Which writes the hooks cover is exact too.
 */
module WriteLog {
  import RecoveryWindow

  type Byte = b: nat | b < 256

  type Memory = seq<Byte>

  /** The bytes that one entry saves, and the size of an entry with its address. */
  const GRANULARITY := 8
  const ENTRY_BYTES := 12
  const MAX_ENTRIES := 0x20_0000
  const WRITELOG_BYTES := MAX_ENTRIES * ENTRY_BYTES

  datatype Entry = Entry(addr: nat, data: seq<Byte>)

  /** The start of the region of an address. */
  function Align(a: nat): (r: nat)
    ensures r <= a < r + GRANULARITY
  {
    a - a % GRANULARITY
  }

  lemma {:induction false} RegionInside(n: nat, a: nat)
    requires n % GRANULARITY == 0 && a < n
    ensures Align(a) + GRANULARITY <= n
  {
  }

  lemma {:induction false} SameRegion(r: nat, a: nat)
    requires r % GRANULARITY == 0
    ensures Align(a) == r <==> r <= a < r + GRANULARITY
  {
  }

  function Region(mem: Memory, r: nat): (d: seq<Byte>)
    requires r + GRANULARITY <= |mem|
    ensures |d| == GRANULARITY
  {
    mem[r..r + GRANULARITY]
  }

  function Put(mem: Memory, r: nat, data: seq<Byte>): (m: Memory)
    requires |data| == GRANULARITY && r + GRANULARITY <= |mem|
    ensures |m| == |mem|
    ensures forall b :: 0 <= b < |m| ==> m[b] == if r <= b < r + GRANULARITY then data[b - r] else mem[b]
  {
    mem[..r] + data + mem[r + GRANULARITY..]
  }

  // ----- restoring -----

  ghost predicate EntryOk(n: nat, e: Entry) {
    e.addr % GRANULARITY == 0 && e.addr + GRANULARITY <= n && |e.data| == GRANULARITY
  }

  ghost predicate LogOk(n: nat, log: seq<Entry>) {
    forall i :: 0 <= i < |log| ==> EntryOk(n, log[i])
  }

  /** The log is walked in reverse order. The entries of the regions in `skip` are passed over. */
  ghost function Rollback(mem: Memory, log: seq<Entry>, skip: set<nat>): (m: Memory)
    requires LogOk(|mem|, log)
    ensures |m| == |mem|
    decreases |log|
  {
    if log == [] then mem
    else
      var e := log[|log|-1];
      Rollback(if e.addr in skip then mem else Put(mem, e.addr, e.data), log[..|log|-1], skip)
  }

  ghost predicate Saves(log: seq<Entry>, r: nat) {
    exists i :: 0 <= i < |log| && log[i].addr == r
  }

  /** The first entry of a region. */
  ghost predicate SavedFirst(log: seq<Entry>, r: nat, i: nat) {
    i < |log| && log[i].addr == r && forall j :: 0 <= j < i ==> log[j].addr != r
  }

  /** The byte `b` is in the region that starts at `r`. */
  predicate InRegion(r: nat, b: nat) {
    r % GRANULARITY == 0 && r <= b < r + GRANULARITY
  }

  /** An entry puts back the bytes of its region, and no other. */
  lemma {:induction false} PutByte(mem: Memory, e: Entry, r: nat, b: nat)
    requires EntryOk(|mem|, e) && b < |mem| && InRegion(r, b)
    ensures Put(mem, e.addr, e.data)[b] == if e.addr == r then e.data[b - r] else mem[b]
  {
    SameRegion(e.addr, b);
    SameRegion(r, b);
  }

  function Undo(mem: Memory, e: Entry, skip: set<nat>): (m: Memory)
    requires EntryOk(|mem|, e)
    ensures |m| == |mem|
  {
    if e.addr in skip then mem else Put(mem, e.addr, e.data)
  }

  lemma {:induction false} RollbackLast(mem: Memory, log: seq<Entry>, skip: set<nat>)
    requires LogOk(|mem|, log) && log != []
    ensures var n := |log| - 1;
            EntryOk(|mem|, log[n]) && LogOk(|mem|, log[..n]) && Rollback(mem, log, skip) == Rollback(Undo(mem, log[n], skip), log[..n], skip)
  {
  }

  lemma {:induction false} RolledBackUnlogged(mem: Memory, log: seq<Entry>, skip: set<nat>, r: nat, b: nat)
    requires LogOk(|mem|, log) && b < |mem| && InRegion(r, b) && (r in skip || !Saves(log, r))
    ensures Rollback(mem, log, skip)[b] == mem[b]
    decreases |log|
  {
    if log != [] {
      var n := |log| - 1;
      RollbackLast(mem, log, skip);
      PutByte(mem, log[n], r, b);
      assert forall i :: 0 <= i < n ==> log[..n][i] == log[i];
      RolledBackUnlogged(Undo(mem, log[n], skip), log[..n], skip, r, b);
    }
  }

  /** The only entry of the region is the last of the log. */
  lemma {:induction false} RolledBackLast(mem: Memory, log: seq<Entry>, skip: set<nat>, r: nat, b: nat)
    requires LogOk(|mem|, log) && b < |mem| && InRegion(r, b) && log != [] && SavedFirst(log, r, |log| - 1) && r !in skip
    ensures EntryOk(|mem|, log[|log|-1]) && Rollback(mem, log, skip)[b] == log[|log|-1].data[b - r]
  {
    var n := |log| - 1;
    RollbackLast(mem, log, skip);
    assert !Saves(log[..n], r);
    RolledBackUnlogged(Undo(mem, log[n], skip), log[..n], skip, r, b);
    PutByte(mem, log[n], r, b);
  }

  lemma {:induction false} RolledBackLogged(mem: Memory, log: seq<Entry>, skip: set<nat>, r: nat, b: nat, i: nat)
    requires LogOk(|mem|, log) && b < |mem| && InRegion(r, b) && SavedFirst(log, r, i) && r !in skip
    ensures EntryOk(|mem|, log[i]) && Rollback(mem, log, skip)[b] == log[i].data[b - r]
    decreases |log|
  {
    var n := |log| - 1;
    if i < n {
      var before, next := log[..n], Undo(mem, log[n], skip);
      RollbackLast(mem, log, skip);
      assert SavedFirst(before, r, i) && before[i] == log[i];
      RolledBackLogged(next, before, skip, r, b, i);
    } else {
      RolledBackLast(mem, log, skip, r, b);
    }
  }

  /** For every log: a byte goes back to what the first entry of its region holds; a byte of a region that was never
      saved, or is passed over, stays as it is. */
  lemma {:induction false} RolledBackByte(mem: Memory, log: seq<Entry>, skip: set<nat>, b: nat)
    requires LogOk(|mem|, log) && b < |mem|
    ensures forall i: nat :: SavedFirst(log, Align(b), i) && Align(b) !in skip ==>
              EntryOk(|mem|, log[i]) && Rollback(mem, log, skip)[b] == log[i].data[b - Align(b)]
    ensures Align(b) in skip || !Saves(log, Align(b)) ==> Rollback(mem, log, skip)[b] == mem[b]
  {
    forall i: nat | SavedFirst(log, Align(b), i) && Align(b) !in skip
      ensures EntryOk(|mem|, log[i]) && Rollback(mem, log, skip)[b] == log[i].data[b - Align(b)]
    {
      RolledBackLogged(mem, log, skip, Align(b), b, i);
    }
    if Align(b) in skip || !Saves(log, Align(b)) {
      RolledBackUnlogged(mem, log, skip, Align(b), b);
    }
  }

  // ----- runs -----

  datatype State = State(mem: Memory, log: seq<Entry>, windowOpen: bool)

  /** What the program does: a hook for a store, a hook for a block of memory, and the writes themselves. */
  datatype Op =
    | StoreHook(addr: nat)
    | MemcpyHook(addr: nat, size: nat)
    | Write(addr: nat, data: seq<Byte>)

  /** ltckpt_write_wl: nothing while the window is closed; a full log closes it. */
  function Save(s: State, a: nat): (t: State)
    requires a < |s.mem| && |s.mem| % GRANULARITY == 0
    ensures t.mem == s.mem
  {
    if !s.windowOpen then s
    else
      RegionInside(|s.mem|, a);
      var log := s.log + [Entry(Align(a), Region(s.mem, Align(a)))];
      State(s.mem, log, |log| * ENTRY_BYTES < WRITELOG_BYTES)
  }

  /** The loop of the hook for blocks: one entry for every eight bytes from `reg` on. */
  function SaveFrom(s: State, reg: nat, end: nat): (t: State)
    requires end <= |s.mem| && |s.mem| % GRANULARITY == 0
    ensures t.mem == s.mem
    decreases end - reg
  {
    if reg >= end then s else SaveFrom(Save(s, reg), reg + GRANULARITY, end)
  }

  /** Where the hook for blocks starts: it rounds down to four bytes, not to eight. */
  function FirstSaved(a: nat): nat {
    a - a % 4
  }

  predicate InMemory(n: nat, op: Op) {
    match op
    case StoreHook(addr) => addr < n
    case MemcpyHook(addr, size) => addr + size <= n
    case Write(addr, data) => addr + |data| <= n
  }

  function Step(s: State, op: Op): (t: State)
    requires |s.mem| % GRANULARITY == 0 && InMemory(|s.mem|, op)
    ensures |t.mem| == |s.mem|
  {
    match op
    case StoreHook(addr) => Save(s, addr)
    case MemcpyHook(addr, size) => SaveFrom(s, FirstSaved(addr), addr + size)
    case Write(addr, data) => s.(mem := s.mem[..addr] + data + s.mem[addr + |data|..])
  }

  function Run(s: State, ops: seq<Op>): (t: State)
    requires |s.mem| % GRANULARITY == 0 && forall op :: op in ops ==> InMemory(|s.mem|, op)
    ensures |t.mem| == |s.mem|
  {
    if ops == [] then s
    else
      assert ops[|ops|-1] in ops;
      Step(Run(s, ops[..|ops|-1]), ops[|ops|-1])
  }

  /** Every byte that is written lies in a region that has been saved. */
  ghost predicate Covered(s: State, op: Op) {
    op.Write? ==> forall a :: op.addr <= a < op.addr + |op.data| ==> Saves(s.log, Align(a))
  }

  ghost predicate AllCovered(s: State, ops: seq<Op>)
    requires |s.mem| % GRANULARITY == 0 && forall op :: op in ops ==> InMemory(|s.mem|, op)
  {
    forall n :: 0 <= n < |ops| ==> Covered(Run(s, ops[..n]), ops[n])
  }

  /** The memories differ only in saved regions. */
  ghost predicate SameUnsaved(a: Memory, b: Memory, log: seq<Entry>) {
    |a| == |b| && forall i :: 0 <= i < |a| && !Saves(log, Align(i)) ==> a[i] == b[i]
  }

  /** Restoring forgets what saved regions hold now. */
  lemma {:induction false} RollbackForgets(a: Memory, b: Memory, log: seq<Entry>)
    requires LogOk(|a|, log) && SameUnsaved(a, b, log)
    ensures Rollback(a, log, {}) == Rollback(b, log, {})
  {
    var x, y := Rollback(a, log, {}), Rollback(b, log, {});
    forall i | 0 <= i < |a| ensures x[i] == y[i] {
      RolledBackByte(a, log, {}, i);
      RolledBackByte(b, log, {}, i);
      if Saves(log, Align(i)) {
        var k := FirstSave(log, Align(i));
      }
    }
  }

  lemma {:induction false} FirstSave(log: seq<Entry>, r: nat) returns (i: nat)
    requires Saves(log, r)
    ensures SavedFirst(log, r, i)
  {
    i := 0;
    while log[i].addr != r
      invariant i < |log| && forall j :: 0 <= j < i ==> log[j].addr != r
      decreases |log| - i
    {
      i := i + 1;
    }
  }

  /** What the log undoes to, and what an entry adds to it. */
  ghost predicate Undoes(s: State, mem: Memory) {
    LogOk(|s.mem|, s.log) && Rollback(s.mem, s.log, {}) == mem
  }

  lemma {:induction false} PutBack(mem: Memory, r: nat)
    requires r + GRANULARITY <= |mem|
    ensures Put(mem, r, Region(mem, r)) == mem
  {
  }

  /** An entry that has just been written undoes nothing yet. */
  lemma {:induction false} EntryUndoes(mem: Memory, log: seq<Entry>, e: Entry)
    requires LogOk(|mem|, log) && EntryOk(|mem|, e) && Put(mem, e.addr, e.data) == mem
    ensures LogOk(|mem|, log + [e]) && Rollback(mem, log + [e], {}) == Rollback(mem, log, {})
  {
    var more := log + [e];
    assert more[..|more|-1] == log && more[|more|-1] == e;
  }

  lemma {:induction false} SaveUndoes(s: State, a: nat, mem: Memory)
    requires |s.mem| % GRANULARITY == 0 && a < |s.mem| && Undoes(s, mem)
    ensures Undoes(Save(s, a), mem)
  {
    if s.windowOpen {
      RegionInside(|s.mem|, a);
      PutBack(s.mem, Align(a));
      EntryUndoes(s.mem, s.log, Entry(Align(a), Region(s.mem, Align(a))));
    }
  }

  lemma {:induction false} SaveFromUndoes(s: State, reg: nat, end: nat, mem: Memory)
    requires |s.mem| % GRANULARITY == 0 && end <= |s.mem| && Undoes(s, mem)
    ensures Undoes(SaveFrom(s, reg, end), mem)
    decreases end - reg
  {
    if reg < end {
      SaveUndoes(s, reg, mem);
      SaveFromUndoes(Save(s, reg), reg + GRANULARITY, end, mem);
      assert SaveFrom(s, reg, end) == SaveFrom(Save(s, reg), reg + GRANULARITY, end);
    }
  }

  lemma {:induction false} StepUndoes(s: State, op: Op, mem: Memory)
    requires |s.mem| % GRANULARITY == 0 && InMemory(|s.mem|, op) && Covered(s, op) && Undoes(s, mem)
    ensures Undoes(Step(s, op), mem)
  {
    match op
    case StoreHook(addr) => SaveUndoes(s, addr, mem);
    case MemcpyHook(addr, size) => SaveFromUndoes(s, FirstSaved(addr), addr + size, mem);
    case Write(addr, data) => RollbackForgets(s.mem, Step(s, op).mem, s.log);
  }

  /** A run that starts with an empty log, and writes only what the hooks have saved, is undone completely, however the
      hooks and writes are ordered and repeated, and whether or not the window closes on the way. */
  lemma {:induction false} CoveredRunUndone(s: State, ops: seq<Op>)
    requires |s.mem| % GRANULARITY == 0 && (forall op :: op in ops ==> InMemory(|s.mem|, op))
    requires s.log == [] && AllCovered(s, ops)
    ensures Undoes(Run(s, ops), s.mem)
    decreases |ops|
  {
    if ops != [] {
      var n := |ops| - 1;
      forall k | 0 <= k < n ensures Covered(Run(s, ops[..n][..k]), ops[..n][k]) {
        assert ops[..n][..k] == ops[..k];
      }
      CoveredRunUndone(s, ops[..n]);
      assert ops[n] in ops;
      StepUndoes(Run(s, ops[..n]), ops[n], s.mem);
    }
  }

  /** After a restart every byte of such a run holds what it held at the start, except in the regions passed over. */
  lemma {:induction false} RestartUndoes(s: State, ops: seq<Op>, skip: set<nat>, b: nat)
    requires |s.mem| % GRANULARITY == 0 && (forall op :: op in ops ==> InMemory(|s.mem|, op))
    requires s.log == [] && AllCovered(s, ops) && b < |s.mem|
    ensures var t := Run(s, ops);
            LogOk(|t.mem|, t.log) && Rollback(t.mem, t.log, skip)[b] == if Align(b) in skip then t.mem[b] else s.mem[b]
  {
    var t := Run(s, ops);
    CoveredRunUndone(s, ops);
    RolledBackByte(t.mem, t.log, skip, b);
    RolledBackByte(t.mem, t.log, {}, b);
    if Saves(t.log, Align(b)) {
      var i := FirstSave(t.log, Align(b));
    }
  }

  // ----- what a restart puts back -----

  predicate Overlaps(p1: nat, s1: nat, p2: nat, s2: nat) {
    (p1 <= p2 && p1 + s1 > p2) || (p2 <= p1 && p2 + s2 > p1)
  }

  /** Two ranges overlap exactly when they have a byte in common. */
  lemma {:induction false} OverlapsIff(p1: nat, s1: nat, p2: nat, s2: nat)
    requires s1 > 0 && s2 > 0
    ensures Overlaps(p1, s1, p2, s2) <==> exists b: nat :: InRange(b, p1, s1) && InRange(b, p2, s2)
  {
    if Overlaps(p1, s1, p2, s2) {
      var b := if p1 <= p2 then p2 else p1;
      assert InRange(b, p1, s1) && InRange(b, p2, s2);
    }
  }

  predicate InRange(b: nat, p: nat, s: nat) {
    p <= b < p + s
  }

  /** An address and a size. */
  type Range = r: (nat, nat) | r.1 > 0 witness (0, 1)

  /** The log, its own variables, and the stack of the restarting process. */
  datatype Restart = Restart(own: seq<Range>, dataMax: nat)

  /** A region is put back unless it overlaps the log or its variables, lies on the stack, or is at address zero. */
  predicate Restorable(c: Restart, r: nat) {
    r != 0 && r <= c.dataMax && forall i :: 0 <= i < |c.own| ==> !Overlaps(r, GRANULARITY, c.own[i].0, c.own[i].1)
  }

  /** The same by what lies where: not at address zero, not behind the data, and no byte of it in a range of the log. */
  ghost predicate PutsBack(c: Restart, r: nat) {
    && r != 0 && r <= c.dataMax
    && forall i, b :: 0 <= i < |c.own| && InRange(b, r, GRANULARITY) ==> !InRange(b, c.own[i].0, c.own[i].1)
  }

  lemma {:induction false} RestorableIff(c: Restart, r: nat)
    ensures Restorable(c, r) <==> PutsBack(c, r)
  {
    forall i | 0 <= i < |c.own|
      ensures Overlaps(r, GRANULARITY, c.own[i].0, c.own[i].1) <==>
              exists b: nat :: InRange(b, r, GRANULARITY) && InRange(b, c.own[i].0, c.own[i].1)
    {
      OverlapsIff(r, GRANULARITY, c.own[i].0, c.own[i].1);
    }
  }

  ghost function Skipped(c: Restart, log: seq<Entry>): set<nat> {
    set i | 0 <= i < |log| && !Restorable(c, log[i].addr) :: log[i].addr
  }

  lemma {:induction false} SkippedIff(c: Restart, log: seq<Entry>, r: nat)
    ensures r in Skipped(c, log) <==> Saves(log, r) && !PutsBack(c, r)
  {
    RestorableIff(c, r);
  }

  /** What a restart makes of memory. */
  ghost function Restarted(c: Restart, mem: Memory, log: seq<Entry>): (m: Memory)
    requires LogOk(|mem|, log)
    ensures |m| == |mem|
  {
    Rollback(mem, log, Skipped(c, log))
  }

  /** For every log: a byte of a saved region goes back to what the first entry of the region holds, if the region is not
      at address zero, not behind the data, and shares no byte with the log; every other byte stays as it is. */
  lemma {:induction false} RestartedByte(c: Restart, mem: Memory, log: seq<Entry>, b: nat)
    requires LogOk(|mem|, log) && b < |mem|
    ensures forall i: nat :: SavedFirst(log, Align(b), i) && PutsBack(c, Align(b)) ==>
              EntryOk(|mem|, log[i]) && Restarted(c, mem, log)[b] == log[i].data[b - Align(b)]
    ensures !Saves(log, Align(b)) || !PutsBack(c, Align(b)) ==> Restarted(c, mem, log)[b] == mem[b]
  {
    SkippedIff(c, log, Align(b));
    RolledBackByte(mem, log, Skipped(c, log), b);
  }

  /** After a run whose writes are covered and a restart, a byte holds what it held at the start if its region is put back,
      and what the run left in it otherwise. */
  lemma {:induction false} RestartPutsBack(s: State, ops: seq<Op>, c: Restart, b: nat)
    requires |s.mem| % GRANULARITY == 0 && (forall op :: op in ops ==> InMemory(|s.mem|, op))
    requires s.log == [] && AllCovered(s, ops) && b < |s.mem|
    ensures Undone(s, Run(s, ops), c, b)
  {
    var t := Run(s, ops);
    RestartUndoes(s, ops, Skipped(c, t.log), b);
    RestartUndoes(s, ops, {}, b);
    SkippedIff(c, t.log, Align(b));
    RolledBackByte(t.mem, t.log, {}, b);
  }

  ghost predicate Undone(start: State, now: State, c: Restart, b: nat) {
    && |start.mem| == |now.mem| && b < |now.mem| && LogOk(|now.mem|, now.log)
    && Restarted(c, now.mem, now.log)[b] == if PutsBack(c, Align(b)) then start.mem[b] else now.mem[b]
  }

  // ----- what the hooks cover -----

  /** The hook for a store covers a store of `n` bytes that does not cross a region boundary. */
  lemma {:induction false} StoreCovered(s: State, addr: nat, n: nat)
    requires |s.mem| % GRANULARITY == 0 && addr < |s.mem| && s.windowOpen && addr % GRANULARITY + n <= GRANULARITY
    ensures forall a :: addr <= a < addr + n ==> Saves(Save(s, addr).log, Align(a))
  {
    forall a | addr <= a < addr + n ensures Saves(Save(s, addr).log, Align(a)) {
      SameRegion(Align(addr), a);
      SaveAdds(s, addr, Align(a));
    }
  }

  /** And from an empty log, no other. */
  lemma {:induction false} StoreCoveredIff(s: State, addr: nat, n: nat)
    requires |s.mem| % GRANULARITY == 0 && addr < |s.mem| && s.windowOpen && s.log == [] && n > 0
    ensures (forall a :: addr <= a < addr + n ==> Saves(Save(s, addr).log, Align(a))) <==> addr % GRANULARITY + n <= GRANULARITY
  {
    if addr % GRANULARITY + n <= GRANULARITY {
      StoreCovered(s, addr, n);
    } else {
      SameRegion(Align(addr), addr + n - 1);
      SaveAdds(s, addr, Align(addr + n - 1));
    }
  }

  lemma {:induction false} SaveAdds(s: State, a: nat, r: nat)
    requires |s.mem| % GRANULARITY == 0 && a < |s.mem| && s.windowOpen
    ensures Saves(Save(s, a).log, r) <==> Saves(s.log, r) || r == Align(a)
  {
    RegionInside(|s.mem|, a);
    var log := Save(s, a).log;
    assert log == s.log + [Entry(Align(a), Region(s.mem, Align(a)))];
    if Saves(s.log, r) {
      var i :| 0 <= i < |s.log| && s.log[i].addr == r;
      assert log[i].addr == r;
    }
    assert log[|s.log|].addr == Align(a);
  }

  lemma {:induction false} ClosedSaves(s: State, reg: nat, end: nat)
    requires |s.mem| % GRANULARITY == 0 && end <= |s.mem| && !s.windowOpen
    ensures SaveFrom(s, reg, end) == s
    decreases end - reg
  {
    if reg < end {
      ClosedSaves(s, reg + GRANULARITY, end);
    }
  }

  /** The regions that the loop saves, when the log has room: those of every eighth address from `reg` to the end. */
  lemma {:induction false} SaveFromAdds(s: State, reg: nat, end: nat, r: nat)
    requires |s.mem| % GRANULARITY == 0 && end <= |s.mem| && r % GRANULARITY == 0 && SaveFrom(s, reg, end).windowOpen
    ensures Saves(SaveFrom(s, reg, end).log, r) <==> Saves(s.log, r) || (Align(reg) <= r && r + reg % GRANULARITY < end)
    decreases end - reg
  {
    if !s.windowOpen {
      ClosedSaves(s, reg, end);
    }
    if reg < end {
      SaveAdds(s, reg, r);
      SaveFromAdds(Save(s, reg), reg + GRANULARITY, end, r);
      NextRegion(reg, end, r);
    } else {
      SameOffset(reg, r);
    }
  }

  lemma {:induction false} NextRegion(reg: nat, end: nat, r: nat)
    requires r % GRANULARITY == 0 && reg < end
    ensures (reg + GRANULARITY) % GRANULARITY == reg % GRANULARITY && Align(reg + GRANULARITY) == Align(reg) + GRANULARITY
    ensures Align(reg) <= r && r + reg % GRANULARITY < end <==>
            r == Align(reg) || (Align(reg + GRANULARITY) <= r && r + reg % GRANULARITY < end)
  {
  }

  lemma {:induction false} SameOffset(reg: nat, r: nat)
    requires r % GRANULARITY == 0
    ensures Align(reg) <= r ==> r + reg % GRANULARITY >= reg
  {
  }

  /** A block that starts in the upper half of a region and ends in the lower half of a later one does not fit the
      hook for blocks. */
  predicate BlockFits(addr: nat, size: nat) {
    size == 0 || addr % 8 < 4 || !(1 <= (addr + size) % 8 <= 4)
  }

  /** What the hook for blocks saves of the regions of a block, when the log has room. */
  lemma {:induction false} BlockSaves(s: State, addr: nat, size: nat, a: nat)
    requires |s.mem| % GRANULARITY == 0 && addr + size <= |s.mem| && Step(s, MemcpyHook(addr, size)).windowOpen
    requires addr <= a < addr + size
    ensures Saves(Step(s, MemcpyHook(addr, size)).log, Align(a)) <==>
            Saves(s.log, Align(a)) || BlockFits(addr, size) || Align(a) != Align(addr + size - 1)
  {
    var end, reg := addr + size, FirstSaved(addr);
    SaveFromAdds(s, reg, end, Align(a));
    StartsInFirst(addr, a);
    LastRegion(addr, end);
    EarlierRegion(reg, a, end);
  }

  /** From an empty log, the hook for blocks covers exactly the blocks that fit: of the others it loses the last region. */
  lemma {:induction false} MemcpyCoveredIff(s: State, addr: nat, size: nat)
    requires |s.mem| % GRANULARITY == 0 && addr + size <= |s.mem| && s.log == [] && Step(s, MemcpyHook(addr, size)).windowOpen
    ensures (forall a :: addr <= a < addr + size ==> Saves(Step(s, MemcpyHook(addr, size)).log, Align(a))) <==> BlockFits(addr, size)
  {
    forall a | addr <= a < addr + size
      ensures Saves(Step(s, MemcpyHook(addr, size)).log, Align(a)) <==> BlockFits(addr, size) || Align(a) != Align(addr + size - 1)
    {
      BlockSaves(s, addr, size, a);
    }
    if size > 0 {
      assert Saves(Step(s, MemcpyHook(addr, size)).log, Align(addr + size - 1)) <==> BlockFits(addr, size);
    }
  }

  // ----- writes that follow their own hooks -----

  /** The hook is for this write, and covers it. */
  predicate OwnHook(h: Op, op: Op) {
    op.Write? &&
    ((h == StoreHook(op.addr) && op.addr % GRANULARITY + |op.data| <= GRANULARITY) ||
     (h == MemcpyHook(op.addr, |op.data|) && BlockFits(op.addr, |op.data|)))
  }

  predicate OwnHooks(ops: seq<Op>) {
    forall n :: 0 <= n < |ops| && ops[n].Write? ==> n > 0 && OwnHook(ops[n-1], ops[n])
  }

  lemma {:induction false} StaysClosed(s: State, op: Op)
    requires |s.mem| % GRANULARITY == 0 && InMemory(|s.mem|, op) && Step(s, op).windowOpen
    ensures s.windowOpen
  {
    if op.MemcpyHook? && !s.windowOpen {
      ClosedSaves(s, FirstSaved(op.addr), op.addr + op.size);
    }
  }

  /** The log never holds more entries than fit, and the window is open as long as there is room for another. */
  ghost predicate Room(s: State) {
    |s.log| <= MAX_ENTRIES && (s.windowOpen <==> |s.log| < MAX_ENTRIES)
  }

  lemma {:induction false} SaveFromRoom(s: State, reg: nat, end: nat)
    requires |s.mem| % GRANULARITY == 0 && end <= |s.mem| && Room(s)
    ensures Room(SaveFrom(s, reg, end))
    decreases end - reg
  {
    if reg < end {
      SaveFromRoom(Save(s, reg), reg + GRANULARITY, end);
    }
  }

  /** Over every run from a checkpoint. */
  lemma {:induction false} RunRoom(s: State, ops: seq<Op>)
    requires |s.mem| % GRANULARITY == 0 && (forall op :: op in ops ==> InMemory(|s.mem|, op))
    requires s.log == [] && s.windowOpen
    ensures Room(Run(s, ops))
  {
    if ops != [] {
      var n := |ops| - 1;
      RunRoom(s, ops[..n]);
      assert ops[n] in ops;
      if ops[n].MemcpyHook? {
        SaveFromRoom(Run(s, ops[..n]), FirstSaved(ops[n].addr), ops[n].addr + ops[n].size);
      }
    }
  }

  /** A window that is open at the end of a run was open all the time. */
  lemma {:induction false} WasOpen(s: State, ops: seq<Op>, n: nat)
    requires |s.mem| % GRANULARITY == 0 && (forall op :: op in ops ==> InMemory(|s.mem|, op))
    requires n <= |ops| && Run(s, ops).windowOpen
    ensures (forall op :: op in ops[..n] ==> InMemory(|s.mem|, op)) && Run(s, ops[..n]).windowOpen
    decreases |ops|
  {
    if n < |ops| {
      var k := |ops| - 1;
      assert ops[k] in ops;
      StaysClosed(Run(s, ops[..k]), ops[k]);
      WasOpen(s, ops[..k], n);
      assert ops[..k][..n] == ops[..n];
    } else {
      assert ops[..n] == ops;
    }
  }

  lemma {:induction false} HookCovers(s: State, h: Op, op: Op)
    requires |s.mem| % GRANULARITY == 0 && InMemory(|s.mem|, h) && InMemory(|s.mem|, op)
    requires OwnHook(h, op) && Step(s, h).windowOpen
    ensures Covered(Step(s, h), op)
  {
    if h.StoreHook? {
      StaysClosed(s, h);
      StoreCovered(s, op.addr, |op.data|);
    } else {
      forall a | op.addr <= a < op.addr + |op.data| ensures Saves(Step(s, h).log, Align(a)) {
        BlockSaves(s, op.addr, |op.data|, a);
      }
    }
  }

  /** A run in which every write follows its own hook, and the window is open to the end, is covered. */
  lemma {:induction false} OwnHooksCover(s: State, ops: seq<Op>)
    requires |s.mem| % GRANULARITY == 0 && (forall op :: op in ops ==> InMemory(|s.mem|, op))
    requires OwnHooks(ops) && Run(s, ops).windowOpen
    ensures AllCovered(s, ops)
  {
    forall n | 0 <= n < |ops| ensures Covered(Run(s, ops[..n]), ops[n]) {
      if ops[n].Write? {
        var before := ops[..n];
        WasOpen(s, ops, n);
        assert before[..n-1] == ops[..n-1] && before[n-1] == ops[n-1] && ops[n-1] in ops && ops[n] in ops;
        HookCovers(Run(s, ops[..n-1]), ops[n-1], ops[n]);
      }
    }
  }

  /** And so a restart puts back everything such a run has written in the regions that it puts back. */
  lemma {:induction false} OwnHooksUndone(s: State, ops: seq<Op>, c: Restart, b: nat)
    requires |s.mem| % GRANULARITY == 0 && (forall op :: op in ops ==> InMemory(|s.mem|, op))
    requires s.log == [] && OwnHooks(ops) && Run(s, ops).windowOpen && b < |s.mem|
    ensures Undone(s, Run(s, ops), c, b)
  {
    OwnHooksCover(s, ops);
    RestartPutsBack(s, ops, c, b);
  }

  // ----- the regions of a block -----

  lemma {:induction false} StartsInFirst(addr: nat, a: nat)
    requires addr <= a
    ensures Align(FirstSaved(addr)) <= Align(a)
  {
  }

  lemma {:induction false} LastRegion(addr: nat, end: nat)
    requires addr < end
    ensures Align(end - 1) + FirstSaved(addr) % GRANULARITY < end <==> addr % 8 < 4 || !(1 <= end % 8 <= 4)
  {
    HalfOffset(addr);
    LastOffset(end);
  }

  lemma {:induction false} HalfOffset(addr: nat)
    ensures FirstSaved(addr) % GRANULARITY == if addr % 8 < 4 then 0 else 4
  {
    var u, v := addr / 8, addr % 8;
    if v < 4 {
      QuotientBy4(addr, 2 * u, v);
      assert FirstSaved(addr) == 8 * u;
    } else {
      QuotientBy4(addr, 2 * u + 1, v - 4);
      assert FirstSaved(addr) == 8 * u + 4;
    }
  }

  lemma {:induction false} QuotientBy4(a: nat, q: nat, r: nat)
    requires a == 4 * q + r && r < 4
    ensures a % 4 == r
  {
  }

  lemma {:induction false} LastOffset(end: nat)
    requires end > 0
    ensures Align(end - 1) == end - (if end % 8 == 0 then 8 else end % 8)
  {
  }

  lemma {:induction false} EarlierRegion(reg: nat, a: nat, end: nat)
    requires a < end
    ensures Align(a) + reg % GRANULARITY < end || Align(a) == Align(end - 1)
  {
  }

  /** Two bytes of a six byte block are not saved. */
  lemma {:induction false} MemcpyTailLost(s: State)
    requires |s.mem| == 16 && s.log == [] && s.windowOpen
    ensures !Saves(Step(s, MemcpyHook(4, 6)).log, Align(9))
  {
    assert SaveFrom(s, 4, 10) == SaveFrom(Save(s, 4), 12, 10) == Save(s, 4);
    SaveFromAdds(s, 4, 10, 8);
  }

  // ----- the hooks and the restart -----

  /** The recovery library is told when the log fills up, and not changed otherwise. */
  ghost predicate Told(before: RecoveryWindow.State, after: RecoveryWindow.State) {
    after == if before.windowOpen && !after.windowOpen then RecoveryWindow.Step(before, RecoveryWindow.LogFull) else before
  }

  lemma {:induction false} ToldTwice(a: RecoveryWindow.State, b: RecoveryWindow.State, c: RecoveryWindow.State)
    requires Told(a, b) && Told(b, c)
    ensures Told(a, c)
  {
  }

  class Logger {
    const lib: RecoveryWindow.Library
    const mem: array<Byte>
    var log: seq<Entry>
    var position: nat
    var enabled: bool
    const interval: nat
    var numTols: nat

    ghost predicate Valid()
      reads this, mem, lib, lib.callsites
    {
      && mem.Length % GRANULARITY == 0 && LogOk(mem.Length, log) && position == |log| * ENTRY_BYTES && lib.Valid()
    }

    ghost function Now(): State
      reads this, mem, lib
    {
      State(mem[..], log, lib.windowIsOpen)
    }

    constructor (lib: RecoveryWindow.Library, mem: array<Byte>, interval: nat)
      requires lib.Valid() && mem.Length % GRANULARITY == 0
      ensures Valid() && log == [] && !enabled && numTols == 0 && this.lib == lib && this.mem == mem && this.interval == interval
    {
      this.lib, this.mem, this.interval := lib, mem, interval;
      log, position, enabled, numTols := [], 0, false, 0;
    }

    /** A full log closes the window and makes every crash a fail-stop. */
    method WriteWl(a: nat)
      requires Valid() && a < mem.Length
      modifies this, lib
      ensures Valid() && Now() == Save(old(Now()), a) && enabled == old(enabled) && numTols == old(numTols)
      ensures Told(old(lib.Now()), lib.Now())
    {
      if !lib.windowIsOpen {
        return;
      }
      RegionInside(mem.Length, a);
      var r := Align(a);
      assert Region(mem[..], r) == mem[r..r + GRANULARITY];
      log := log + [Entry(r, mem[r..r + GRANULARITY])];
      position := position + ENTRY_BYTES;
      if position >= WRITELOG_BYTES {
        lib.LogOverflow();
      }
    }

    method HookStore(a: nat)
      requires Valid() && a < mem.Length
      modifies this, lib
      ensures Valid() && enabled == old(enabled) && numTols == old(numTols)
      ensures Now() == if enabled then Step(old(Now()), StoreHook(a)) else old(Now())
      ensures Told(old(lib.Now()), lib.Now())
    {
      if enabled {
        WriteWl(a);
      }
    }

    method HookMemcpy(a: nat, size: nat)
      requires Valid() && a + size <= mem.Length
      modifies this, lib
      ensures Valid() && enabled == old(enabled) && numTols == old(numTols)
      ensures Now() == if enabled then Step(old(Now()), MemcpyHook(a, size)) else old(Now())
      ensures Told(old(lib.Now()), lib.Now())
    {
      if !enabled {
        return;
      }
      var end, reg := a + size, a - a % 4;
      ghost var goal, library := SaveFrom(Now(), reg, end), lib.Now();
      while reg < end
        invariant Valid() && enabled && numTols == old(numTols) && Told(library, lib.Now())
        invariant mem[..] == old(mem[..]) && SaveFrom(Now(), reg, end) == goal
        decreases end - reg
      {
        ghost var mid := lib.Now();
        WriteWl(reg);
        ToldTwice(library, mid, lib.Now());
        reg := reg + GRANULARITY;
      }
    }

    /** Every so often a new checkpoint: the log is emptied. An interval of zero means never. */
    method TopOfTheLoop()
      requires Valid()
      modifies this
      ensures Valid() && numTols == old(numTols) + 1
      ensures if interval != 0 && old(numTols) % interval == 0 then Now() == old(Now()).(log := []) && enabled
              else Now() == old(Now()) && enabled == old(enabled)
    {
      if interval == 0 || numTols % interval > 0 {
        numTols := numTols + 1;
        return;
      }
      numTols := numTols + 1;
      log, position, enabled := [], 0, true;
    }

    /** The old process's memory has been copied; the log is walked back to its start. */
    method RestartHook(c: Restart)
      requires Valid()
      modifies this, mem, lib`insideTcb
      ensures Valid() && log == [] && !enabled && lib.insideTcb && numTols == old(numTols)
      ensures mem[..] == Restarted(c, old(mem[..]), old(log))
      ensures forall b, i: nat :: 0 <= b < mem.Length && SavedFirst(old(log), Align(b), i) && PutsBack(c, Align(b)) ==>
                EntryOk(mem.Length, old(log)[i]) && mem[b] == old(log)[i].data[b - Align(b)]
      ensures forall b :: 0 <= b < mem.Length && (!Saves(old(log), Align(b)) || !PutsBack(c, Align(b))) ==> mem[b] == old(mem[b])
    {
      lib.insideTcb := true;
      enabled := false;
      ghost var skip := Skipped(c, log);
      while position >= ENTRY_BYTES
        invariant Valid() && !enabled && lib.insideTcb && numTols == old(numTols) && log <= old(log)
        invariant Rollback(mem[..], log, skip) == Rollback(old(mem[..]), old(log), skip)
        decreases position
      {
        position := position - ENTRY_BYTES;
        var n := |log| - 1;
        var e := log[n];
        assert e == old(log)[n];
        assert e.addr in skip <==> !Restorable(c, e.addr);
        ghost var before := mem[..];
        if Restorable(c, e.addr) {
          CopyRegion(e);
          assert mem[..] == Put(before, e.addr, e.data);
        }
        log := log[..n];
      }
      forall b | 0 <= b < mem.Length
        ensures forall i: nat :: SavedFirst(old(log), Align(b), i) && PutsBack(c, Align(b)) ==>
                  EntryOk(mem.Length, old(log)[i]) && mem[..][b] == old(log)[i].data[b - Align(b)]
        ensures !Saves(old(log), Align(b)) || !PutsBack(c, Align(b)) ==> mem[..][b] == old(mem[..])[b]
      {
        RestartedByte(c, old(mem[..]), old(log), b);
      }
    }

    method CopyRegion(e: Entry)
      requires EntryOk(mem.Length, e)
      modifies mem
      ensures mem[..] == Put(old(mem[..]), e.addr, e.data)
    {
      for i := 0 to GRANULARITY
        invariant forall b :: 0 <= b < mem.Length ==> mem[b] == if e.addr <= b < e.addr + i then e.data[b - e.addr] else old(mem[b])
      {
        mem[e.addr + i] := e.data[i];
      }
    }
  }
}
