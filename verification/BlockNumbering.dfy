/**
 Block numbers: the decision points and fault loggers that the injector emits, the records of its map file, and the
 per-block report that mapprint makes of the file, number the same blocks in the same way.
 */
module BlockNumbering {
  import opened MapFormat
  import opened Options

  /** An instruction of a corrupted clone: its place in the source, its fault candidates, and the fault injected. */
  datatype Inst = Inst(place: Option<(Str, Word)>, candidates: seq<Str>, injected: Option<Str>)

  type Block = seq<Inst>

  datatype Function = Function(name: Str, relPath: Str, instrument: bool, blocks: seq<Block>)

  // ----- what the injector numbers -----

  /** The blocks that are instrumented, in order. */
  function AllBlocks(m: seq<Function>): seq<Block> {
    if m == [] then [] else (if m[0].instrument then m[0].blocks else []) + AllBlocks(m[1..])
  }

  /** The names of the functions that these blocks belong to, block by block. */
  function BlockFunctions(m: seq<Function>): (r: seq<Str>)
    ensures |r| == |AllBlocks(m)|
  {
    if m == [] then []
    else (if m[0].instrument then seq(|m[0].blocks|, (i: nat) => m[0].name) else []) + BlockFunctions(m[1..])
  }

  /** The numbers from `first` on. */
  function Numbers(first: nat, n: nat): (r: seq<nat>)
    ensures |r| == n && forall i :: 0 <= i < n ==> r[i] == first + i
  {
    seq(n, i => first + i)
  }

  function CandidateRecords(names: seq<Str>): seq<Record> {
    if names == [] then [] else [FaultCandidate(names[0])] + CandidateRecords(names[1..])
  }

  function InstRecords(i: Inst): seq<Record> {
    [if i.place.Some? then DInstruction(i.place.value.0, i.place.value.1) else Instruction]
    + CandidateRecords(i.candidates)
    + (if i.injected.Some? then [FaultInjected(i.injected.value)] else [])
  }

  function BodyRecords(b: Block): seq<Record> {
    if b == [] then [] else InstRecords(b[0]) + BodyRecords(b[1..])
  }

  function BlockRecords(b: Block): seq<Record> {
    [BasicBlock] + BodyRecords(b)
  }

  function BlocksRecords(bs: seq<Block>): seq<Record> {
    if bs == [] then [] else BlockRecords(bs[0]) + BlocksRecords(bs[1..])
  }

  function ModuleRecords(m: seq<Function>): seq<Record> {
    if m == [] then []
    else (if m[0].instrument then [FunctionStart(m[0].name, m[0].relPath)] + BlocksRecords(m[0].blocks) else []) + ModuleRecords(m[1..])
  }

  // ----- what mapprint makes of the records -----

  const BB_LINECOUNT_MAX := 4096

  /** A line of the per-block report. */
  datatype Row = Row(index: nat, func: Str, faults: nat, injected: nat, insts: nat, lines: nat)

  datatype Context = Context(
    index: nat, faults: nat, injected: nat, insts: nat, lines: seq<(Str, Word)>, show: bool, func: Str, rows: seq<Row>)

  const FRESH := Context(1, 0, 0, 0, [], false, [], [])

  function Show(c: Context): Context {
    if !c.show then c
    else Context(c.index + 1, 0, 0, 0, [], false, c.func,
                 c.rows + [Row(c.index, c.func, c.faults, c.injected, c.insts, |c.lines|)])
  }

  function WithLine(lines: seq<(Str, Word)>, place: (Str, Word)): seq<(Str, Word)> {
    if place in lines || |lines| >= BB_LINECOUNT_MAX then lines else lines + [place]
  }

  function Process(c: Context, r: Record): Context {
    match r
    case ModuleName(_) => c
    case FunctionStart(name, _) => Show(c).(func := name)
    case BasicBlock => Show(c).(show := true)
    case Instruction => c.(insts := c.insts + 1)
    case DInstruction(path, line) => c.(lines := WithLine(c.lines, (path, line)), insts := c.insts + 1)
    case FaultCandidate(_) => c.(faults := c.faults + 1)
    case FaultInjected(_) => c.(injected := c.injected + 1)
  }

  function ProcessAll(c: Context, rs: seq<Record>): Context
    decreases rs
  {
    if rs == [] then c else ProcessAll(Process(c, rs[0]), rs[1..])
  }

  /** The report: what is printed when all records were read. */
  function Report(rs: seq<Record>): seq<Row> {
    Show(ProcessAll(FRESH, rs)).rows
  }

  // ----- the rows describe the blocks -----

  function Faults(b: Block): nat {
    if b == [] then 0 else |b[0].candidates| + Faults(b[1..])
  }

  function Injected(b: Block): nat {
    if b == [] then 0 else (if b[0].injected.Some? then 1 else 0) + Injected(b[1..])
  }

  function Places(b: Block): set<(Str, Word)> {
    if b == [] then {} else PlacesOf(b[0]) + Places(b[1..])
  }

  function PlacesOf(i: Inst): set<(Str, Word)> {
    if i.place.Some? then {i.place.value} else {}
  }

  /** The row of a block: what it contains, and how many different source lines, as far as they are recorded. */
  function RowOf(index: nat, func: Str, b: Block): Row {
    Row(index, func, Faults(b), Injected(b), |b|, if |Places(b)| <= BB_LINECOUNT_MAX then |Places(b)| else BB_LINECOUNT_MAX)
  }

  function FunctionRows(func: Str, bs: seq<Block>, first: nat): seq<Row> {
    seq(|bs|, (i: nat) requires i < |bs| => RowOf(first + i, func, bs[i]))
  }

  function ModuleRows(m: seq<Function>, first: nat): seq<Row>
    decreases m
  {
    if m == [] then []
    else if !m[0].instrument then ModuleRows(m[1..], first)
    else FunctionRows(m[0].name, m[0].blocks, first) + ModuleRows(m[1..], first + |m[0].blocks|)
  }

  lemma {:induction false} ProcessJoin(c: Context, a: seq<Record>, b: seq<Record>)
    ensures ProcessAll(c, a + b) == ProcessAll(ProcessAll(c, a), b)
    decreases a
  {
    if a == [] {
      assert a + b == b;
    } else {
      assert (a + b)[1..] == a[1..] + b;
      ProcessJoin(Process(c, a[0]), a[1..], b);
    }
  }

  /** Recorded lines: all the different ones, as long as there is room. */
  ghost predicate Lines(lines: seq<(Str, Word)>, places: set<(Str, Word)>) {
    && (forall p :: p in lines ==> p in places)
    && |lines| == (if |places| <= BB_LINECOUNT_MAX then |places| else BB_LINECOUNT_MAX)
    && (|places| <= BB_LINECOUNT_MAX ==> forall p :: p in places ==> p in lines)
  }

  lemma {:induction false} LinesGrow(lines: seq<(Str, Word)>, places: set<(Str, Word)>, p: (Str, Word))
    requires Lines(lines, places)
    ensures Lines(WithLine(lines, p), places + {p})
  {
    if p in places {
      assert places + {p} == places;
    } else {
      assert |places + {p}| == |places| + 1;
    }
  }

  lemma {:induction false} CandidatesCounted(c: Context, names: seq<Str>)
    ensures ProcessAll(c, CandidateRecords(names)) == c.(faults := c.faults + |names|)
    decreases names
  {
    if names != [] {
      assert CandidateRecords(names)[1..] == CandidateRecords(names[1..]);
      CandidatesCounted(Process(c, FaultCandidate(names[0])), names[1..]);
    }
  }

  function InstLines(lines: seq<(Str, Word)>, i: Inst): seq<(Str, Word)> {
    if i.place.Some? then WithLine(lines, i.place.value) else lines
  }

  function BodyLines(lines: seq<(Str, Word)>, b: Block): seq<(Str, Word)>
    decreases b
  {
    if b == [] then lines else BodyLines(InstLines(lines, b[0]), b[1..])
  }

  function Counted(c: Context, insts: nat, faults: nat, injected: nat, lines: seq<(Str, Word)>): Context {
    c.(insts := c.insts + insts, faults := c.faults + faults, injected := c.injected + injected, lines := lines)
  }

  lemma {:induction false} InstCounted(c: Context, i: Inst)
    ensures ProcessAll(c, InstRecords(i)) ==
      Counted(c, 1, |i.candidates|, if i.injected.Some? then 1 else 0, InstLines(c.lines, i))
  {
    var first := if i.place.Some? then DInstruction(i.place.value.0, i.place.value.1) else Instruction;
    var last := if i.injected.Some? then [FaultInjected(i.injected.value)] else [];
    ProcessJoin(c, [first] + CandidateRecords(i.candidates), last);
    ProcessJoin(c, [first], CandidateRecords(i.candidates));
    assert [first][1..] == [];
    CandidatesCounted(Process(c, first), i.candidates);
    assert last != [] ==> last[1..] == [];
  }

  lemma {:induction false} BodyCounted(c: Context, b: Block)
    ensures ProcessAll(c, BodyRecords(b)) == Counted(c, |b|, Faults(b), Injected(b), BodyLines(c.lines, b))
    decreases b
  {
    if b != [] {
      ProcessJoin(c, InstRecords(b[0]), BodyRecords(b[1..]));
      InstCounted(c, b[0]);
      BodyCounted(ProcessAll(c, InstRecords(b[0])), b[1..]);
    }
  }

  lemma {:induction false} InstLinesCounted(lines: seq<(Str, Word)>, i: Inst, places: set<(Str, Word)>)
    requires Lines(lines, places)
    ensures Lines(InstLines(lines, i), places + PlacesOf(i))
  {
    if i.place.Some? {
      LinesGrow(lines, places, i.place.value);
    } else {
      assert places + PlacesOf(i) == places;
    }
  }

  lemma {:induction false} BodyLinesCounted(lines: seq<(Str, Word)>, b: Block, places: set<(Str, Word)>)
    requires Lines(lines, places)
    ensures Lines(BodyLines(lines, b), places + Places(b))
    decreases b
  {
    if b == [] {
      assert places + Places(b) == places;
    } else {
      InstLinesCounted(lines, b[0], places);
      BodyLinesCounted(InstLines(lines, b[0]), b[1..], places + PlacesOf(b[0]));
      assert places + Places(b) == places + PlacesOf(b[0]) + Places(b[1..]);
    }
  }

  /** Nothing is pending unless it is to be shown. */
  ghost predicate Clean(c: Context) {
    !c.show ==> c.insts == 0 && c.faults == 0 && c.injected == 0 && c.lines == []
  }

  /** `n` more rows were shown. */
  function Advanced(s: Context, n: nat, rows: seq<Row>): Context {
    s.(index := s.index + n, rows := s.rows + rows)
  }

  lemma {:induction false} AdvancedTwice(s: Context, n: nat, r: Row, rows: seq<Row>)
    ensures Advanced(Advanced(s, 1, [r]), n, rows) == Advanced(s, n + 1, [r] + rows)
  {
  }

  lemma {:induction false} FunctionRowsFirst(func: Str, bs: seq<Block>, first: nat)
    requires bs != []
    ensures FunctionRows(func, bs, first) == [RowOf(first, func, bs[0])] + FunctionRows(func, bs[1..], first + 1)
  {
  }

  /** A block adds its row, with the next number, to what will have been shown. */
  lemma {:induction false} BlockShown(c: Context, b: Block)
    requires Clean(c)
    ensures var d := ProcessAll(c, BlockRecords(b));
            Clean(d) && Show(d) == Advanced(Show(c), 1, [RowOf(Show(c).index, Show(c).func, b)])
  {
    var s := Show(c).(show := true);
    ProcessJoin(c, [BasicBlock], BodyRecords(b));
    assert [BasicBlock][1..] == [];
    assert ProcessAll(c, [BasicBlock]) == s;
    BodyCounted(s, b);
    BodyLinesCounted([], b, {});
    assert {} + Places(b) == Places(b);
  }

  lemma {:induction false} BlocksShown(c: Context, bs: seq<Block>)
    requires Clean(c)
    ensures var d := ProcessAll(c, BlocksRecords(bs));
            Clean(d) && Show(d) == Advanced(Show(c), |bs|, FunctionRows(Show(c).func, bs, Show(c).index))
    decreases bs
  {
    var s := Show(c);
    if bs == [] {
      assert s.rows + FunctionRows(s.func, bs, s.index) == s.rows;
    } else {
      var d := ProcessAll(c, BlockRecords(bs[0]));
      ProcessJoin(c, BlockRecords(bs[0]), BlocksRecords(bs[1..]));
      BlockShown(c, bs[0]);
      BlocksShown(d, bs[1..]);
      FunctionRowsFirst(s.func, bs, s.index);
      AdvancedTwice(s, |bs| - 1, RowOf(s.index, s.func, bs[0]), FunctionRows(s.func, bs[1..], s.index + 1));
    }
  }

  lemma {:induction false} ModuleShown(c: Context, m: seq<Function>)
    requires Clean(c)
    ensures Show(ProcessAll(c, ModuleRecords(m))).rows == Show(c).rows + ModuleRows(m, Show(c).index)
    decreases m
  {
    if m != [] {
      if m[0].instrument {
        var start := [FunctionStart(m[0].name, m[0].relPath)];
        assert start[1..] == [];
        var d := Process(c, start[0]);
        assert ProcessAll(c, start) == d && Clean(d) && Show(d) == Show(c).(func := m[0].name);
        ProcessJoin(c, start + BlocksRecords(m[0].blocks), ModuleRecords(m[1..]));
        ProcessJoin(c, start, BlocksRecords(m[0].blocks));
        BlocksShown(d, m[0].blocks);
        ModuleShown(ProcessAll(d, BlocksRecords(m[0].blocks)), m[1..]);
      } else {
        assert [] + ModuleRecords(m[1..]) == ModuleRecords(m[1..]);
        ModuleShown(c, m[1..]);
      }
    }
  }

  /** The file of a module: its name, then its records. */
  function FileRecords(name: Str, m: seq<Function>): seq<Record> {
    [ModuleName(name)] + ModuleRecords(m)
  }

  /** From the injector through the file to the report: the rows are exactly the rows of the instrumented blocks. */
  lemma {:induction false} ReportDescribesBlocks(far: Far, name: Str, m: seq<Function>)
    requires AfterAll(NOTHING, FileRecords(name, m)).next <= INT_LIMIT && forall r :: r in FileRecords(name, m) ==> Representable(r)
    ensures Report(Parse(far, AllBytes(NOTHING, FileRecords(name, m)), []).records) == ModuleRows(m, 1)
  {
    RoundTripIff(far, FileRecords(name, m));
    ProcessJoin(FRESH, [ModuleName(name)], ModuleRecords(m));
    assert [ModuleName(name)][1..] == [];
    assert ProcessAll(FRESH, [ModuleName(name)]) == FRESH;
    ModuleShown(FRESH, m);
  }

  /** The k-th row is the row of the k-th block, under the name of the function that the block is in: every index in
      1 .. N occurs once, and no other. */
  lemma {:induction false} RowsNumbered(m: seq<Function>, first: nat)
    ensures |ModuleRows(m, first)| == |AllBlocks(m)|
    ensures forall k :: 0 <= k < |AllBlocks(m)| ==> ModuleRows(m, first)[k] == RowOf(first + k, BlockFunctions(m)[k], AllBlocks(m)[k])
    decreases m
  {
    if m != [] {
      RowsNumbered(m[1..], if m[0].instrument then first + |m[0].blocks| else first);
    }
  }

  // ----- the injector -----

  /** The numbers that go into the decision points and the fault loggers, the records written, and the next number. */
  datatype Output = Output(decisions: seq<nat>, loggers: seq<nat>, records: seq<Record>, next: nat)

  /** The loop over the functions: the headers are numbered first, then the corrupted clones, from the same number on. */
  method InstrumentModule(m: seq<Function>) returns (o: Output)
    ensures o.records == ModuleRecords(m)
    ensures var n := |AllBlocks(m)|; o.decisions == Numbers(1, n) && o.loggers == Numbers(1, n) && o.next == n + 1
  {
    o := Output([], [], [], 1);
    assert m[0..] == m;
    for i := 0 to |m|
      invariant o.next >= 1 && o.decisions == Numbers(1, o.next - 1) && o.loggers == Numbers(1, o.next - 1)
      invariant o.next - 1 + |AllBlocks(m[i..])| == |AllBlocks(m)|
      invariant o.records + ModuleRecords(m[i..]) == ModuleRecords(m)
    {
      assert m[i..][1..] == m[i+1..];
      if m[i].instrument {
        o := InstrumentFunction(m[i], o);
      }
    }
  }

  method InstrumentFunction(f: Function, o: Output) returns (p: Output)
    requires o.next >= 1 && o.decisions == Numbers(1, o.next - 1) && o.loggers == Numbers(1, o.next - 1)
    ensures p.next == o.next + |f.blocks|
    ensures p.decisions == Numbers(1, p.next - 1) && p.loggers == Numbers(1, p.next - 1)
    ensures p.records == o.records + ([FunctionStart(f.name, f.relPath)] + BlocksRecords(f.blocks))
  {
    var decisions, loggers, records, bbIndex := o.decisions, o.loggers, o.records + [FunctionStart(f.name, f.relPath)], o.next;
    var fdp := bbIndex;
    for i := 0 to |f.blocks|
      invariant fdp == bbIndex + i && decisions == Numbers(1, fdp - 1)
    {
      decisions := decisions + [fdp];
      fdp := fdp + 1;
    }
    assert f.blocks[0..] == f.blocks;
    for i := 0 to |f.blocks|
      invariant bbIndex == o.next + i && loggers == Numbers(1, bbIndex - 1)
      invariant records + BlocksRecords(f.blocks[i..]) == o.records + ([FunctionStart(f.name, f.relPath)] + BlocksRecords(f.blocks))
    {
      assert f.blocks[i..][1..] == f.blocks[i+1..];
      var body := WriteBlock(f.blocks[i]);
      records := records + body;
      loggers := loggers + [bbIndex];
      bbIndex := bbIndex + 1;
    }
    p := Output(decisions, loggers, records, bbIndex);
  }

  method WriteBlock(b: Block) returns (records: seq<Record>)
    ensures records == BlockRecords(b)
  {
    records := [BasicBlock];
    assert b[0..] == b;
    for i := 0 to |b|
      invariant records + BodyRecords(b[i..]) == BlockRecords(b)
    {
      assert b[i..][1..] == b[i+1..];
      var inst := WriteInst(b[i]);
      records := records + inst;
    }
  }

  method WriteInst(i: Inst) returns (records: seq<Record>)
    ensures records == InstRecords(i)
  {
    records := [if i.place.Some? then DInstruction(i.place.value.0, i.place.value.1) else Instruction];
    ghost var first := records;
    assert i.candidates[0..] == i.candidates;
    for k := 0 to |i.candidates|
      invariant records + CandidateRecords(i.candidates[k..]) == first + CandidateRecords(i.candidates)
    {
      assert i.candidates[k..][1..] == i.candidates[k+1..];
      records := records + [FaultCandidate(i.candidates[k])];
    }
    if i.injected.Some? {
      records := records + [FaultInjected(i.injected.value)];
    }
  }

  // ----- mapprint -----

  /** Mapprint in its per-block mode, with the context that its callbacks share. */
  class Printer {
    var c: Context

    constructor ()
      ensures c == FRESH
    {
      c := FRESH;
    }

    method ShowLastBb()
      modifies this
      ensures c == Show(old(c))
    {
      if !c.show {
        return;
      }
      c := c.(rows := c.rows + [Row(c.index, c.func, c.faults, c.injected, c.insts, |c.lines|)]);
      c := c.(index := c.index + 1);
      c := c.(faults := 0, injected := 0, insts := 0, lines := [], show := false);
    }

    method CountLine(path: Str, line: Word)
      modifies this
      ensures c == old(c).(lines := WithLine(old(c).lines, (path, line)))
    {
      for i := 0 to |c.lines|
        invariant c == old(c) && (path, line) !in c.lines[..i]
      {
        if c.lines[i].0 == path && c.lines[i].1 == line {
          assert c.lines[i] == (path, line);
          return;
        }
      }
      assert c.lines[..|c.lines|] == c.lines;
      if |c.lines| >= BB_LINECOUNT_MAX {
        return;
      }
      c := c.(lines := c.lines + [(path, line)]);
    }

    method Callback(r: Record)
      modifies this
      ensures c == Process(old(c), r)
    {
      match r
      case ModuleName(_) =>
      case FunctionStart(name, _) =>
        ShowLastBb();
        c := c.(func := name);
      case BasicBlock =>
        ShowLastBb();
        c := c.(show := true);
      case Instruction =>
        c := c.(insts := c.insts + 1);
      case DInstruction(path, line) =>
        CountLine(path, line);
        c := c.(insts := c.insts + 1);
      case FaultCandidate(_) =>
        c := c.(faults := c.faults + 1);
      case FaultInjected(_) =>
        c := c.(injected := c.injected + 1);
    }

    /** All callbacks, then the one for the end of the file. */
    method Print(records: seq<Record>)
      requires c == FRESH
      modifies this
      ensures c.rows == Report(records)
    {
      assert records[0..] == records;
      for i := 0 to |records|
        invariant ProcessAll(c, records[i..]) == ProcessAll(FRESH, records)
      {
        assert records[i..][1..] == records[i+1..];
        Callback(records[i]);
      }
      ShowLastBb();
    }
  }
}
