/**
 Basic block cloning of the fault injector: every block of a function gets a Header copy that
 holds its phi nodes and chooses between a Correct and a Corrupted copy of its body.
 When every header chooses Correct, the clones execute exactly what the original blocks execute.
 */
module BlockCloning {

  type BlockId = nat

  /** A phi node: the operand to move into `dest`, by the block control came from. */
  datatype Phi = Phi(dest: nat, incoming: map<BlockId, nat>)

  /** `Jump(t)` selects a successor from the state; `Decide` is a header's fault decision point. */
  datatype Terminator = Jump(t: nat) | Decide

  datatype Block = Block(phis: seq<Phi>, body: seq<nat>, term: Terminator, succs: seq<BlockId>)

  type Graph = map<BlockId, Block>

  /** Every jump goes to a block, and a phi node has one entry for every predecessor and no other. */
  ghost predicate WellFormed(g: Graph, order: seq<BlockId>) {
    && (forall i, j :: 0 <= i < j < |order| ==> order[i] != order[j])
    && (forall b :: b in order ==> b in g && !g[b].term.Decide?)
    && (forall b, s :: b in order && s in g[b].succs ==> s in order)
    && (forall b, f, p :: b in order && f in g[b].phis && p in f.incoming ==> p in order && b in g[p].succs)
    && (forall b, f, p :: b in order && f in g[b].phis && p in order && b in g[p].succs ==> p in f.incoming)
  }

  // ----- execution -----

  datatype Event = Move(moves: seq<(nat, nat)>) | Exec(instruction: nat)

  /** What instructions, phi moves, jumps and decisions do to a state. */
  datatype Semantics<!S> = Semantics(
    move: (seq<(nat, nat)>, S) -> S,
    exec: (nat, S) -> S,
    select: (nat, S) -> nat,
    decide: (BlockId, S) -> nat)

  datatype Config<S> =
    | At(pred: BlockId, cur: BlockId, state: S, trace: seq<Event>)
    | Halted(state: S, trace: seq<Event>)

  function Moves(phis: seq<Phi>, pred: BlockId): seq<(nat, nat)> {
    if phis == [] then []
    else (if pred in phis[0].incoming then [(phis[0].dest, phis[0].incoming[pred])] else []) + Moves(phis[1..], pred)
  }

  function MoveEvents(moves: seq<(nat, nat)>): seq<Event> {
    if moves == [] then [] else [Move(moves)]
  }

  function ExecEvents(body: seq<nat>): seq<Event> {
    seq(|body|, (i: nat) requires i < |body| => Exec(body[i]))
  }

  function ExecAll<S>(sem: Semantics<S>, body: seq<nat>, s: S): S {
    if body == [] then s else ExecAll(sem, body[1..], sem.exec(body[0], s))
  }

  function Enter<S>(sem: Semantics<S>, moves: seq<(nat, nat)>, s: S): S {
    if moves == [] then s else sem.move(moves, s)
  }

  /** One block is executed and control passes on, or the run halts. */
  function Step<S>(g: Graph, sem: Semantics<S>, c: Config<S>): Config<S> {
    if c.Halted? then c
    else if c.cur !in g then Halted(c.state, c.trace)
    else
      var blk := g[c.cur];
      var moves := Moves(blk.phis, c.pred);
      var s := ExecAll(sem, blk.body, Enter(sem, moves, c.state));
      var trace := c.trace + MoveEvents(moves) + ExecEvents(blk.body);
      var k := match blk.term case Jump(t) => sem.select(t, s) case Decide => sem.decide(c.cur, s);
      if k < |blk.succs| then At(c.cur, blk.succs[k], s, trace) else Halted(s, trace)
  }

  function Steps<S>(g: Graph, sem: Semantics<S>, c: Config<S>, n: nat): Config<S>
    decreases n
  {
    if n == 0 then c else Steps(g, sem, Step(g, sem, c), n - 1)
  }

  // ----- what the transformation produces -----

  /** The clones of one block. */
  datatype Clones = Clones(header: BlockId, correct: BlockId, corrupted: BlockId)

  function HeadersOf(clones: map<BlockId, Clones>): map<BlockId, BlockId> {
    map b | b in clones :: clones[b].header
  }

  /** Where the jump targets of a body lead after cloning. */
  function Retarget(succs: seq<BlockId>, vmap: map<BlockId, BlockId>): seq<BlockId> {
    seq(|succs|, (i: nat) requires i < |succs| => if succs[i] in vmap then vmap[succs[i]] else succs[i])
  }

  /** The phi nodes of a header take, from either clone of a predecessor, what the original took from it. */
  ghost predicate PhisFor(phis: seq<Phi>, cloned: seq<Phi>, order: seq<BlockId>, clones: map<BlockId, Clones>) {
    && |cloned| == |phis|
    && forall i :: 0 <= i < |phis| ==> PhiFor(phis[i], cloned[i], order, clones)
  }

  ghost predicate PhiFor(f: Phi, c: Phi, order: seq<BlockId>, clones: map<BlockId, Clones>) {
    && c.dest == f.dest
    && forall p :: p in order && p in clones && p in f.incoming ==>
      && clones[p].correct in c.incoming && c.incoming[clones[p].correct] == f.incoming[p]
      && clones[p].corrupted in c.incoming && c.incoming[clones[p].corrupted] == f.incoming[p]
  }

  ghost predicate Cloned(g0: Graph, g: Graph, order: seq<BlockId>, clones: map<BlockId, Clones>) {
    && (forall b :: b in order ==> b in g0 && b in clones && b in g && g[b] == g0[b])
    && (forall b :: b in order ==> ClonedBlock(g0, g, order, clones, b))
  }

  ghost predicate ClonedBlock(g0: Graph, g: Graph, order: seq<BlockId>, clones: map<BlockId, Clones>, b: BlockId)
    requires b in g0 && b in clones
  {
    var c, blk := clones[b], g0[b];
    var body := Block([], blk.body, blk.term, Retarget(blk.succs, HeadersOf(clones)));
    && c.header in g && c.correct in g && c.corrupted in g
    && g[c.correct] == body
    && g[c.header].body == [] && g[c.header].term == Decide && g[c.header].succs == [c.correct, c.corrupted]
    && PhisFor(blk.phis, g[c.header].phis, order, clones)
  }

  /** Before a fault is placed in it, a Corrupted clone is a copy of the Correct one. */
  ghost predicate Unfaulted(g: Graph, order: seq<BlockId>, clones: map<BlockId, Clones>) {
    forall b :: b in order ==>
      b in clones && clones[b].correct in g && clones[b].corrupted in g && g[clones[b].corrupted] == g[clones[b].correct]
  }

  /** The fault types rewrite Corrupted clones, and nothing else. */
  ghost predicate FaultsPlaced(g: Graph, faulty: Graph, order: seq<BlockId>, clones: map<BlockId, Clones>) {
    && g.Keys <= faulty.Keys
    && forall b :: b in g && (forall x :: x in order && x in clones ==> clones[x].corrupted != b) ==> faulty[b] == g[b]
  }

  // ----- the clones simulate the original -----

  /** Every decision point picks the Correct clone, or a Corrupted clone that is a copy of it. */
  ghost predicate AvoidsFaults<S(!new)>(sem: Semantics<S>, g: Graph, order: seq<BlockId>, clones: map<BlockId, Clones>) {
    forall b, s :: b in order && b in clones ==> AvoidsFault(sem, g, clones[b], s)
  }

  ghost predicate AvoidsFault<S>(sem: Semantics<S>, g: Graph, c: Clones, s: S) {
    || sem.decide(c.header, s) == 0
    || (sem.decide(c.header, s) == 1 && c.correct in g && c.corrupted in g && g[c.corrupted] == g[c.correct])
  }

  /** The cloned run is at the header of the block the original run is at, in the same state, having done the same. It may
      have come from either clone. */
  ghost predicate Simulates<S>(g: Graph, order: seq<BlockId>, clones: map<BlockId, Clones>, c: Config<S>, d: Config<S>) {
    match c
    case Halted(s, trace) => d == Halted(s, trace)
    case At(pred, cur, s, trace) =>
      && d.At? && cur in order && cur in g && cur in clones
      && d.cur == clones[cur].header && d.state == s && d.trace == trace
      && (g[cur].phis == [] ||
          (pred in order && pred in clones && pred in g && cur in g[pred].succs &&
           (d.pred == clones[pred].correct || d.pred == clones[pred].corrupted)))
  }

  lemma {:induction false} MovesAgree(phis: seq<Phi>, cloned: seq<Phi>, order: seq<BlockId>, clones: map<BlockId, Clones>, p: BlockId)
    requires PhisFor(phis, cloned, order, clones) && p in order && p in clones
    requires forall f :: f in phis ==> p in f.incoming
    ensures Moves(cloned, clones[p].correct) == Moves(cloned, clones[p].corrupted) == Moves(phis, p)
  {
    if phis != [] {
      assert PhiFor(phis[0], cloned[0], order, clones);
      MovesAgree(phis[1..], cloned[1..], order, clones, p);
    }
  }

  lemma {:induction false} HeaderStep<S(!new)>(g0: Graph, g: Graph, order: seq<BlockId>, clones: map<BlockId, Clones>,
                               sem: Semantics<S>, c: Config<S>, d: Config<S>)
    requires WellFormed(g0, order) && Cloned(g0, g, order, clones) && AvoidsFaults(sem, g, order, clones)
    requires c.At? && Simulates(g0, order, clones, c, d)
    ensures var moves, k := Moves(g0[c.cur].phis, c.pred), clones[c.cur];
            var d1 := Step(g, sem, d);
            && (d1 == At(k.header, k.correct, Enter(sem, moves, c.state), c.trace + MoveEvents(moves)) ||
                d1 == At(k.header, k.corrupted, Enter(sem, moves, c.state), c.trace + MoveEvents(moves)))
            && d1.cur in g && g[d1.cur] == g[k.correct]
  {
    var blk, k := g0[c.cur], clones[c.cur];
    assert ClonedBlock(g0, g, order, clones, c.cur);
    if blk.phis != [] {
      MovesAgree(blk.phis, g[k.header].phis, order, clones, c.pred);
    }
    var moves := Moves(blk.phis, c.pred);
    assert Moves(g[k.header].phis, d.pred) == moves;
    assert ExecEvents([]) == [];
    assert AvoidsFault(sem, g, k, Enter(sem, moves, c.state));
  }

  /** The body of a clone does what the original does after its phi nodes. */
  lemma {:induction false} BodyStep<S>(g0: Graph, g: Graph, order: seq<BlockId>, clones: map<BlockId, Clones>,
                           sem: Semantics<S>, c: Config<S>, d: Config<S>)
    requires WellFormed(g0, order) && c.At? && c.cur in order && c.cur in g0 && d.At? && d.cur in g
    requires forall b :: b in order ==> b in clones
    requires g[d.cur] == Block([], g0[c.cur].body, g0[c.cur].term, Retarget(g0[c.cur].succs, HeadersOf(clones)))
    requires var moves := Moves(g0[c.cur].phis, c.pred);
             d.state == Enter(sem, moves, c.state) && d.trace == c.trace + MoveEvents(moves)
    ensures var c1, d1 := Step(g0, sem, c), Step(g, sem, d);
            if c1.Halted? then d1 == Halted(c1.state, c1.trace)
            else
              && c1.pred == c.cur && c1.cur in g0[c.cur].succs && c1.cur in order
              && d1 == At(d.cur, clones[c1.cur].header, c1.state, c1.trace)
  {
    assert Moves([], d.pred) == [] && MoveEvents([]) == [];
    assert d.trace + [] == d.trace;
  }

  /** One block of the original is two blocks of the clones: the header, then a body that no fault has changed. */
  lemma {:induction false} StepSimulates<S(!new)>(g0: Graph, g: Graph, order: seq<BlockId>, clones: map<BlockId, Clones>,
                               sem: Semantics<S>, c: Config<S>, d: Config<S>)
    requires WellFormed(g0, order) && Cloned(g0, g, order, clones) && AvoidsFaults(sem, g, order, clones)
    requires Simulates(g0, order, clones, c, d)
    ensures Simulates(g0, order, clones, Step(g0, sem, c), Step(g, sem, Step(g, sem, d)))
  {
    if c.At? {
      assert ClonedBlock(g0, g, order, clones, c.cur);
      HeaderStep(g0, g, order, clones, sem, c, d);
      BodyStep(g0, g, order, clones, sem, c, Step(g, sem, d));
    }
  }

  lemma {:induction false} RunSimulates<S(!new)>(g0: Graph, g: Graph, order: seq<BlockId>, clones: map<BlockId, Clones>,
                                                 sem: Semantics<S>, c: Config<S>, d: Config<S>, n: nat)
    requires WellFormed(g0, order) && Cloned(g0, g, order, clones) && AvoidsFaults(sem, g, order, clones)
    requires Simulates(g0, order, clones, c, d)
    ensures Simulates(g0, order, clones, Steps(g0, sem, c, n), Steps(g, sem, d, 2 * n))
    decreases n
  {
    if n > 0 {
      StepSimulates(g0, g, order, clones, sem, c, d);
      RunSimulates(g0, g, order, clones, sem, Step(g0, sem, c), Step(g, sem, Step(g, sem, d)), n - 1);
    }
  }

  // ----- the pass -----

  ghost predicate Injective(vmap: map<BlockId, BlockId>) {
    forall p, q :: p in vmap && q in vmap && vmap[p] == vmap[q] ==> p == q
  }

  function RemapPhi(f: Phi, vmap: map<BlockId, BlockId>): Phi
    requires Injective(vmap)
  {
    Phi(f.dest, map p | p in f.incoming && p in vmap :: vmap[p] := f.incoming[p])
  }

  function RemapPhis(phis: seq<Phi>, vmap: map<BlockId, BlockId>): seq<Phi>
    requires Injective(vmap)
  {
    seq(|phis|, (i: nat) requires i < |phis| => RemapPhi(phis[i], vmap))
  }

  /** RemapInstruction on every instruction of a block. */
  function Remap(blk: Block, vmap: map<BlockId, BlockId>): Block
    requires Injective(vmap)
  {
    Block(RemapPhis(blk.phis, vmap), blk.body, blk.term, Retarget(blk.succs, vmap))
  }

  /** splitBasicBlock: the phi nodes of the successors name the new block `c` instead of `h`. */
  function RenamePhi(f: Phi, h: BlockId, c: BlockId): Phi {
    if h in f.incoming then f.(incoming := (f.incoming - {h})[c := f.incoming[h]]) else f
  }

  function RenamePhis(phis: seq<Phi>, h: BlockId, c: BlockId): seq<Phi> {
    seq(|phis|, (i: nat) requires i < |phis| => RenamePhi(phis[i], h, c))
  }

  function RenameIn(g: Graph, where: seq<BlockId>, h: BlockId, c: BlockId): Graph {
    map b | b in g :: if b in where then g[b].(phis := RenamePhis(g[b].phis, h, c)) else g[b]
  }

  /** addIncoming: the block `d` brings what the block `c` brings. */
  function AddPhi(f: Phi, c: BlockId, d: BlockId): Phi {
    if c in f.incoming then f.(incoming := f.incoming[d := f.incoming[c]]) else f
  }

  function AddPhis(phis: seq<Phi>, c: BlockId, d: BlockId): seq<Phi> {
    seq(|phis|, (i: nat) requires i < |phis| => AddPhi(phis[i], c, d))
  }

  function AddIn(g: Graph, where: seq<BlockId>, c: BlockId, d: BlockId): Graph {
    map b | b in g :: if b in where then g[b].(phis := AddPhis(g[b].phis, c, d)) else g[b]
  }

  /** The ids the `m` first clones get. */
  function Fresh(start: BlockId, m: nat): (r: seq<BlockId>)
    ensures |r| == m && forall i :: 0 <= i < m ==> r[i] == start + i
  {
    if m == 0 then [] else Fresh(start, m - 1) + [start + m - 1]
  }

  function VMapAfter(order: seq<BlockId>, start: BlockId, m: nat): map<BlockId, BlockId>
    requires m <= |order|
  {
    if m == 0 then map[] else VMapAfter(order, start, m - 1)[order[m-1] := start + m - 1]
  }

  function GraphAfter(g: Graph, order: seq<BlockId>, start: BlockId, m: nat): Graph
    requires m <= |order| && forall b :: b in order ==> b in g
  {
    if m == 0 then g else GraphAfter(g, order, start, m - 1)[start + m - 1 := g[order[m-1]]]
  }

  lemma {:induction false} GraphAfterSpec(g: Graph, order: seq<BlockId>, start: BlockId, m: nat)
    requires m <= |order| && (forall b :: b in order ==> b in g) && forall b :: b in g ==> b < start
    ensures forall b :: b in GraphAfter(g, order, start, m) <==> b in g || start <= b < start + m
    ensures forall b :: b in g ==> GraphAfter(g, order, start, m)[b] == g[b]
    ensures forall x :: 0 <= x < m ==> GraphAfter(g, order, start, m)[start + x] == g[order[x]]
  {
    if m > 0 {
      GraphAfterSpec(g, order, start, m - 1);
    }
  }

  predicate IsHeader(order: seq<BlockId>, start: BlockId, m: nat, b: BlockId, h: BlockId)
    requires m <= |order|
  {
    start <= h < start + m && order[h - start] == b
  }

  lemma {:induction false} VMapAfterSpec(order: seq<BlockId>, start: BlockId, m: nat)
    requires m <= |order| && forall i, j :: 0 <= i < j < |order| ==> order[i] != order[j]
    ensures forall b :: b in VMapAfter(order, start, m) <==> b in order[..m]
    ensures forall x :: 0 <= x < m ==> order[x] in VMapAfter(order, start, m) && VMapAfter(order, start, m)[order[x]] == start + x
    ensures forall b :: b in VMapAfter(order, start, m) ==> IsHeader(order, start, m, b, VMapAfter(order, start, m)[b])
  {
    if m > 0 {
      VMapAfterSpec(order, start, m - 1);
      assert order[..m] == order[..m-1] + [order[m-1]];
      var before, now := VMapAfter(order, start, m - 1), VMapAfter(order, start, m);
      forall b | b in now ensures IsHeader(order, start, m, b, now[b]) {
        assert b != order[m-1] ==> IsHeader(order, start, m - 1, b, before[b]);
      }
    }
  }

  /** The cloning loop. It walks the block list (without the new entry block) while it appends to it, and
      still ends after cloning every block of the original list exactly once, in order. */
  method CloneBlocks(list: seq<BlockId>, g: Graph, start: BlockId)
    returns (blocks: seq<BlockId>, graph: Graph, vmap: map<BlockId, BlockId>, headers: seq<BlockId>, originals: seq<BlockId>)
    requires forall b :: b in list ==> b in g
    requires forall b :: b in g ==> b < start
    ensures originals == list && headers == Fresh(start, |list|) && blocks == list + headers
    ensures vmap == VMapAfter(list, start, |list|) && graph == GraphAfter(g, list, start, |list|)
  {
    blocks, graph, vmap, headers, originals := list, g, map[], [], [];
    ghost var n := |list|;
    var next := start;
    var i := 0;
    assert list[..0] == [];
    while i < |blocks|
      invariant 0 <= i <= |blocks| == n + |headers| && |headers| == (if i < n then i else n)
      invariant headers == Fresh(start, |headers|) && blocks == list + headers && originals == list[..|headers|]
      invariant next == start + |headers|
      invariant vmap == VMapAfter(list, start, |headers|) && graph == GraphAfter(g, list, start, |headers|)
      decreases n - |headers|, |blocks| - i
    {
      var bb := blocks[i];
      if bb !in headers {
        CloneNext(list, g, start, headers, i, bb);
        originals := originals + [bb];
        graph := graph[next := graph[bb]];
        vmap := vmap[bb := next];
        blocks := blocks + [next];
        headers := headers + [next];
        next := next + 1;
      } else {
        NotOriginal(list, g, start, headers, i, bb);
      }
      i := i + 1;
    }
    assert list[..n] == list;
  }

  /** A block that is not a clone is the next one of the original list. */
  lemma {:induction false} CloneNext(list: seq<BlockId>, g: Graph, start: BlockId, headers: seq<BlockId>, i: nat, bb: BlockId)
    requires (forall b :: b in list ==> b in g) && forall b :: b in g ==> b < start
    requires headers == Fresh(start, |headers|) && |headers| == (if i < |list| then i else |list|)
    requires i < |list + headers| && bb == (list + headers)[i] && bb !in headers
    ensures i == |headers| < |list| && bb == list[i] && list[..i+1] == list[..i] + [bb]
    ensures bb in GraphAfter(g, list, start, i) && GraphAfter(g, list, start, i)[bb] == g[bb]
  {
    assert i < |list|;
    GraphAfterSpec(g, list, start, i);
    assert bb in list;
  }

  /** A clone comes after the whole original list. */
  lemma {:induction false} NotOriginal(list: seq<BlockId>, g: Graph, start: BlockId, headers: seq<BlockId>, i: nat, bb: BlockId)
    requires (forall b :: b in list ==> b in g) && forall b :: b in g ==> b < start
    requires headers == Fresh(start, |headers|) && i < |list + headers| && bb == (list + headers)[i] && bb in headers
    ensures i >= |list|
  {
    forall x | 0 <= x < |list| ensures list[x] < start {
      assert list[x] in list;
    }
  }

  function RemapIn(g: Graph, where: seq<BlockId>, headers: seq<BlockId>, vmap: map<BlockId, BlockId>): Graph
    requires Injective(vmap)
  {
    map b | b in g :: if b in where && b in headers then Remap(g[b], vmap) else g[b]
  }

  /** The second loop over the block list: the clones refer to clones. */
  method RemapHeaders(blocks: seq<BlockId>, headers: seq<BlockId>, vmap: map<BlockId, BlockId>, g: Graph) returns (graph: Graph)
    requires Injective(vmap) && (forall b :: b in blocks ==> b in g)
    requires forall i, j :: 0 <= i < j < |blocks| ==> blocks[i] != blocks[j]
    ensures graph == RemapIn(g, blocks, headers, vmap)
  {
    graph := g;
    for i := 0 to |blocks|
      invariant graph == RemapIn(g, blocks[..i], headers, vmap)
    {
      var b := blocks[i];
      assert blocks[..i+1] == blocks[..i] + [b];
      if b in headers {
        assert b !in blocks[..i];
        graph := graph[b := Remap(graph[b], vmap)];
      }
    }
    assert blocks[..|blocks|] == blocks;
  }

  lemma {:induction false} AddTwice(phis: seq<Phi>, c: BlockId, d: BlockId)
    ensures AddPhis(AddPhis(phis, c, d), c, d) == AddPhis(phis, c, d)
  {
    forall i | 0 <= i < |phis| ensures AddPhi(AddPhi(phis[i], c, d), c, d) == AddPhi(phis[i], c, d) {
      var f := phis[i];
      if c in f.incoming {
        assert f.incoming[d := f.incoming[c]][d := f.incoming[c]] == f.incoming[d := f.incoming[c]];
      }
    }
  }

  /** The loop over the successors of the corrupted block that completes their phi nodes. */
  method AddIncoming(g: Graph, succs: seq<BlockId>, c: BlockId, d: BlockId) returns (graph: Graph)
    requires forall b :: b in succs ==> b in g
    ensures graph == AddIn(g, succs, c, d)
  {
    graph := g;
    for i := 0 to |succs|
      invariant graph == AddIn(g, succs[..i], c, d)
    {
      var b := succs[i];
      assert succs[..i+1] == succs[..i] + [b];
      AddTwice(g[b].phis, c, d);
      graph := graph[b := graph[b].(phis := AddPhis(graph[b].phis, c, d))];
    }
    assert succs[..|succs|] == succs;
  }

  /** What a turn of the loop over the headers does to the phi nodes of a successor. */
  function BothPhis(phis: seq<Phi>, h: BlockId, c: BlockId, d: BlockId): seq<Phi> {
    AddPhis(RenamePhis(phis, h, c), c, d)
  }

  /** One turn of the loop over the headers: `h` keeps its phi nodes and decides between the block `d` and the
      block `c`, which both hold its body; the phi nodes of the successors name `c` and `d` instead of `h`. */
  method SplitHeader(g: Graph, h: BlockId, c: BlockId, d: BlockId, vmap: map<BlockId, BlockId>) returns (graph: Graph)
    requires h in g && c !in g && d !in g && c != d
    requires forall b :: b in g[h].succs ==> b in g && b !in vmap
    ensures Split(g, h, c, d, graph)
  {
    var blk := g[h];
    graph := g[c := Block([], blk.body, blk.term, blk.succs)][h := Block(blk.phis, [], Jump(0), [c])];
    graph := RenameIn(graph, blk.succs, h, c);
    var body := Block([], blk.body, blk.term, Retarget(blk.succs, vmap[c := d]));
    assert body.succs == blk.succs;
    graph := graph[d := body];
    graph := AddIncoming(graph, blk.succs, c, d);
    graph := graph[h := graph[h].(term := Decide, succs := [d, c])];
  }

  ghost predicate Split(g: Graph, h: BlockId, c: BlockId, d: BlockId, graph: Graph)
    requires h in g
  {
    var blk := g[h];
    && graph.Keys == g.Keys + {c, d}
    && graph[c] == graph[d] == Block([], blk.body, blk.term, blk.succs)
    && graph[h] == Block(if h in blk.succs then BothPhis(blk.phis, h, c, d) else blk.phis, [], Decide, [d, c])
    && (forall b :: b in g && b != h ==>
          graph[b] == if b in blk.succs then g[b].(phis := BothPhis(g[b].phis, h, c, d)) else g[b])
  }

  // ----- the loop over the headers -----

  function Corrupted(start: BlockId, n: nat, x: nat): BlockId { start + n + 2 * x }

  function Correct(start: BlockId, n: nat, x: nat): BlockId { start + n + 2 * x + 1 }

  /** After `k` turns a phi node names the two clones of the predecessors that are split, and the header of the others. */
  ghost predicate PhiStage(f0: Phi, f: Phi, order: seq<BlockId>, start: BlockId, k: nat) {
    && f.dest == f0.dest
    && forall y :: 0 <= y < |order| && order[y] in f0.incoming ==> NamedFrom(f, f0.incoming[order[y]], start, |order|, k, y)
  }

  ghost predicate NamedFrom(f: Phi, v: nat, start: BlockId, n: nat, k: nat, y: nat) {
    if y < k then Brings(f, Correct(start, n, y), v) && Brings(f, Corrupted(start, n, y), v)
    else Brings(f, start + y, v)
  }

  predicate Brings(f: Phi, p: BlockId, v: nat) {
    p in f.incoming && f.incoming[p] == v
  }

  ghost predicate PhisStage(phis: seq<Phi>, cloned: seq<Phi>, order: seq<BlockId>, start: BlockId, k: nat) {
    && |cloned| == |phis|
    && forall i :: 0 <= i < |phis| ==> PhiStage(phis[i], cloned[i], order, start, k)
  }

  lemma {:induction false} PhisNext(phis: seq<Phi>, cloned: seq<Phi>, order: seq<BlockId>, start: BlockId, k: nat)
    requires PhisStage(phis, cloned, order, start, k) && k < |order|
    ensures PhisStage(phis, BothPhis(cloned, start + k, Corrupted(start, |order|, k), Correct(start, |order|, k)), order, start, k + 1)
  {
  }

  /** A block without an edge from the block that is split keeps its phi nodes. */
  lemma {:induction false} PhisSkip(phis: seq<Phi>, cloned: seq<Phi>, order: seq<BlockId>, start: BlockId, k: nat)
    requires PhisStage(phis, cloned, order, start, k) && k < |order|
    requires forall f :: f in phis ==> order[k] !in f.incoming
    ensures PhisStage(phis, cloned, order, start, k + 1)
  {
  }

  /** A block of the original after `k` turns. */
  ghost predicate HeaderStage(blk: Block, g: Graph, order: seq<BlockId>, start: BlockId, k: nat, x: nat) {
    var n := |order|;
    var body := Block([], blk.body, blk.term, Retarget(blk.succs, VMapAfter(order, start, n)));
    && start + x in g
    && PhisStage(blk.phis, g[start + x].phis, order, start, k)
    && if x < k then
         && Correct(start, n, x) in g && Corrupted(start, n, x) in g
         && g[Correct(start, n, x)] == g[Corrupted(start, n, x)] == body
         && g[start + x].body == [] && g[start + x].term == Decide
         && g[start + x].succs == [Correct(start, n, x), Corrupted(start, n, x)]
       else g[start + x] == body.(phis := g[start + x].phis)
  }

  ghost predicate Stage(g0: Graph, g: Graph, order: seq<BlockId>, start: BlockId, k: nat) {
    && (forall b :: b in g0 ==> b in g && g[b] == g0[b] && b < start)
    && (forall b :: b in g ==> b < start + |order| + 2 * k)
    && (forall b :: b in order ==> b in g0)
    && HeadersStage(g0, g, order, start, k, |order|)
  }

  ghost predicate HeadersStage(g0: Graph, g: Graph, order: seq<BlockId>, start: BlockId, k: nat, m: nat)
    requires m <= |order| && forall b :: b in order ==> b in g0
  {
    m > 0 ==> HeadersStage(g0, g, order, start, k, m - 1) && HeaderStage(g0[order[m-1]], g, order, start, k, m - 1)
  }

  lemma {:induction false} HeaderAt(g0: Graph, g: Graph, order: seq<BlockId>, start: BlockId, k: nat, m: nat, x: nat)
    requires m <= |order| && forall b :: b in order ==> b in g0
    requires HeadersStage(g0, g, order, start, k, m) && x < m
    ensures HeaderStage(g0[order[x]], g, order, start, k, x)
  {
    if x < m - 1 {
      HeaderAt(g0, g, order, start, k, m - 1, x);
    }
  }

  /** The header of a successor is a successor of the header, and headers only lead to headers. */
  lemma {:induction false} HeaderEdges(order: seq<BlockId>, start: BlockId, succs: seq<BlockId>, x: nat)
    requires (forall i, j :: 0 <= i < j < |order| ==> order[i] != order[j]) && x < |order|
    requires forall b :: b in succs ==> b in order
    ensures start + x in Retarget(succs, VMapAfter(order, start, |order|)) <==> order[x] in succs
    ensures forall b :: b in Retarget(succs, VMapAfter(order, start, |order|)) ==> start <= b < start + |order|
  {
    VMapAfterSpec(order, start, |order|);
    assert order[..|order|] == order;
    var vmap := VMapAfter(order, start, |order|);
    var headers := Retarget(succs, vmap);
    forall i | 0 <= i < |succs|
      ensures start <= headers[i] < start + |order| && (headers[i] == start + x <==> succs[i] == order[x])
    {
      assert succs[i] in succs;
      assert IsHeader(order, start, |order|, succs[i], vmap[succs[i]]);
    }
    if order[x] in succs {
      var i :| 0 <= i < |succs| && succs[i] == order[x];
      assert headers[i] == start + x;
    }
  }

  lemma {:induction false} HeaderPhis(g0: Graph, g: Graph, order: seq<BlockId>, start: BlockId, k: nat, graph: Graph, x: nat)
    requires WellFormed(g0, order) && k < |order| && x < |order| && start + k in g
    requires Split(g, start + k, Corrupted(start, |order|, k), Correct(start, |order|, k), graph)
    requires HeaderStage(g0[order[x]], g, order, start, k, x) && HeaderStage(g0[order[k]], g, order, start, k, k)
    ensures start + x in graph && PhisStage(g0[order[x]].phis, graph[start + x].phis, order, start, k + 1)
  {
    HeaderEdges(order, start, g0[order[k]].succs, x);
    if order[x] in g0[order[k]].succs {
      PhisNext(g0[order[x]].phis, g[start + x].phis, order, start, k);
    } else {
      assert order[k] in order && order[x] in order;
      PhisSkip(g0[order[x]].phis, g[start + x].phis, order, start, k);
    }
  }

  lemma {:induction false} HeaderNext(g0: Graph, g: Graph, order: seq<BlockId>, start: BlockId, k: nat, graph: Graph, x: nat)
    requires WellFormed(g0, order) && k < |order| && x < |order| && start + k in g
    requires Split(g, start + k, Corrupted(start, |order|, k), Correct(start, |order|, k), graph)
    requires HeaderStage(g0[order[x]], g, order, start, k, x) && HeaderStage(g0[order[k]], g, order, start, k, k)
    ensures HeaderStage(g0[order[x]], graph, order, start, k + 1, x)
  {
    HeaderPhis(g0, g, order, start, k, graph, x);
    HeaderEdges(order, start, g0[order[k]].succs, x);
  }

  lemma {:induction false} HeadersNext(g0: Graph, g: Graph, order: seq<BlockId>, start: BlockId, k: nat, graph: Graph, m: nat)
    requires WellFormed(g0, order) && k < |order| && m <= |order| && start + k in g
    requires Split(g, start + k, Corrupted(start, |order|, k), Correct(start, |order|, k), graph)
    requires HeadersStage(g0, g, order, start, k, m) && HeaderStage(g0[order[k]], g, order, start, k, k)
    ensures HeadersStage(g0, graph, order, start, k + 1, m)
  {
    if m > 0 {
      HeadersNext(g0, g, order, start, k, graph, m - 1);
      HeaderNext(g0, g, order, start, k, graph, m - 1);
    }
  }

  lemma {:induction false} StageNext(g0: Graph, g: Graph, order: seq<BlockId>, start: BlockId, k: nat, graph: Graph)
    requires WellFormed(g0, order) && k < |order| && Stage(g0, g, order, start, k) && start + k in g
    requires Split(g, start + k, Corrupted(start, |order|, k), Correct(start, |order|, k), graph)
    ensures Stage(g0, graph, order, start, k + 1)
  {
    HeaderAt(g0, g, order, start, k, |order|, k);
    HeadersNext(g0, g, order, start, k, graph, |order|);
    HeaderEdges(order, start, g0[order[k]].succs, k);
  }

  lemma {:induction false} HeaderSplit(g0: Graph, g: Graph, order: seq<BlockId>, start: BlockId, k: nat, header: BlockId,
                                       next: BlockId, graph: Graph)
    requires WellFormed(g0, order) && k < |order| && Stage(g0, g, order, start, k) && header in g
    requires header == start + k && next == Corrupted(start, |order|, k) && Split(g, header, next, next + 1, graph)
    ensures Stage(g0, graph, order, start, k + 1)
  {
    StageNext(g0, g, order, start, k, graph);
  }

  method SplitNext(ghost g0: Graph, g: Graph, ghost order: seq<BlockId>, start: BlockId, header: BlockId, next: BlockId,
                   vmap: map<BlockId, BlockId>, ghost k: nat) returns (graph: Graph)
    requires WellFormed(g0, order) && k < |order| && Stage(g0, g, order, start, k)
    requires header == start + k && next == Corrupted(start, |order|, k)
    requires forall b :: b in vmap ==> b < start || b >= start + |order|
    ensures Stage(g0, graph, order, start, k + 1)
  {
    TargetsExist(g0, g, order, start, k, header, vmap);
    graph := SplitHeader(g, header, next, next + 1, vmap);
    HeaderSplit(g0, g, order, start, k, header, next, graph);
  }

  /** The loop over the headers. */
  method SplitHeaders(ghost g0: Graph, g: Graph, ghost order: seq<BlockId>, headers: seq<BlockId>, start: BlockId,
                      vmap: map<BlockId, BlockId>) returns (graph: Graph)
    requires WellFormed(g0, order) && headers == Fresh(start, |order|) && Stage(g0, g, order, start, 0)
    requires forall b :: b in vmap ==> b < start
    ensures Stage(g0, graph, order, start, |order|)
  {
    graph := g;
    var next: BlockId := start + |headers|;
    var mapped: map<BlockId, BlockId> := vmap;
    for k := 0 to |headers|
      invariant next == start + |headers| + 2 * k && Stage(g0, graph, order, start, k)
      invariant forall b :: b in mapped ==> b < start || b >= start + |headers|
    {
      graph := SplitNext(g0, graph, order, start, headers[k], next, mapped, k);
      mapped := mapped[next := next + 1];
      next := next + 2;
    }
  }

  lemma {:induction false} TargetExists(g0: Graph, g: Graph, order: seq<BlockId>, start: BlockId, k: nat, b: BlockId)
    requires WellFormed(g0, order) && k < |order| && Stage(g0, g, order, start, k)
    requires start <= b < start + |order|
    ensures b in g
  {
    HeaderAt(g0, g, order, start, k, |order|, b - start);
  }

  lemma {:induction false} TargetsExist(g0: Graph, g: Graph, order: seq<BlockId>, start: BlockId, k: nat, header: BlockId,
                                        vmap: map<BlockId, BlockId>)
    requires WellFormed(g0, order) && k < |order| && Stage(g0, g, order, start, k) && header == start + k
    requires forall b :: b in vmap ==> b < start || b >= start + |order|
    ensures header in g && forall b :: b in g[header].succs ==> b in g && b !in vmap
  {
    HeaderAt(g0, g, order, start, k, |order|, k);
    HeaderEdges(order, start, g0[order[k]].succs, k);
    forall b | b in g[header].succs ensures b in g && b !in vmap {
      TargetExists(g0, g, order, start, k, b);
    }
  }

  function ClonesAfter(order: seq<BlockId>, start: BlockId, m: nat): map<BlockId, Clones>
    requires m <= |order|
  {
    if m == 0 then map[]
    else ClonesAfter(order, start, m - 1)[order[m-1] :=
           Clones(start + m - 1, Correct(start, |order|, m - 1), Corrupted(start, |order|, m - 1))]
  }

  lemma {:induction false} ClonesAfterSpec(order: seq<BlockId>, start: BlockId, m: nat)
    requires m <= |order| && forall i, j :: 0 <= i < j < |order| ==> order[i] != order[j]
    ensures forall b :: b in ClonesAfter(order, start, m) <==> b in order[..m]
    ensures forall x :: 0 <= x < m ==> order[x] in ClonesAfter(order, start, m)
    ensures forall x :: 0 <= x < m ==>
      ClonesAfter(order, start, m)[order[x]] == Clones(start + x, Correct(start, |order|, x), Corrupted(start, |order|, x))
  {
    if m > 0 {
      ClonesAfterSpec(order, start, m - 1);
      assert order[..m] == order[..m-1] + [order[m-1]];
    }
  }

  lemma {:induction false} VMapIsHeaders(order: seq<BlockId>, start: BlockId, m: nat)
    requires m <= |order|
    ensures HeadersOf(ClonesAfter(order, start, m)) == VMapAfter(order, start, m)
  {
    if m > 0 {
      VMapIsHeaders(order, start, m - 1);
    }
  }

  lemma {:induction false} StagePhis(phis: seq<Phi>, cloned: seq<Phi>, order: seq<BlockId>, start: BlockId)
    requires PhisStage(phis, cloned, order, start, |order|)
    requires forall i, j :: 0 <= i < j < |order| ==> order[i] != order[j]
    ensures PhisFor(phis, cloned, order, ClonesAfter(order, start, |order|))
  {
    ClonesAfterSpec(order, start, |order|);
    var clones := ClonesAfter(order, start, |order|);
    forall i | 0 <= i < |phis| ensures PhiFor(phis[i], cloned[i], order, clones) {
      forall p | p in order && p in clones && p in phis[i].incoming
        ensures Brings(cloned[i], clones[p].correct, phis[i].incoming[p]) && Brings(cloned[i], clones[p].corrupted, phis[i].incoming[p])
      {
        var y :| 0 <= y < |order| && order[y] == p;
        assert NamedFrom(cloned[i], phis[i].incoming[p], start, |order|, |order|, y);
      }
    }
  }

  lemma {:induction false} SplitIsCloned(g0: Graph, g: Graph, order: seq<BlockId>, start: BlockId, clones: map<BlockId, Clones>, x: nat)
    requires (forall i, j :: 0 <= i < j < |order| ==> order[i] != order[j]) && x < |order| && order[x] in g0
    requires HeaderStage(g0[order[x]], g, order, start, |order|, x)
    requires clones == ClonesAfter(order, start, |order|) && order[x] in clones
    requires clones[order[x]] == Clones(start + x, Correct(start, |order|, x), Corrupted(start, |order|, x))
    ensures ClonedBlock(g0, g, order, clones, order[x])
    ensures Corrupted(start, |order|, x) in g && g[Corrupted(start, |order|, x)] == g[Correct(start, |order|, x)]
  {
    VMapIsHeaders(order, start, |order|);
    StagePhis(g0[order[x]].phis, g[start + x].phis, order, start);
  }

  lemma {:induction false} BlockSplit(g0: Graph, g: Graph, order: seq<BlockId>, start: BlockId, b: BlockId)
    requires Stage(g0, g, order, start, |order|) && b in order && forall i, j :: 0 <= i < j < |order| ==> order[i] != order[j]
    ensures b in ClonesAfter(order, start, |order|) && ClonedBlock(g0, g, order, ClonesAfter(order, start, |order|), b)
    ensures var c := ClonesAfter(order, start, |order|)[b]; c.corrupted in g && g[c.corrupted] == g[c.correct]
  {
    var x :| 0 <= x < |order| && order[x] == b;
    ClonesAfterSpec(order, start, |order|);
    HeaderAt(g0, g, order, start, |order|, |order|, x);
    SplitIsCloned(g0, g, order, start, ClonesAfter(order, start, |order|), x);
  }

  /** When every header has had its turn, the blocks are cloned. */
  lemma {:induction false} AllSplit(g0: Graph, g: Graph, order: seq<BlockId>, start: BlockId)
    requires Stage(g0, g, order, start, |order|) && forall i, j :: 0 <= i < j < |order| ==> order[i] != order[j]
    ensures Cloned(g0, g, order, ClonesAfter(order, start, |order|)) && Unfaulted(g, order, ClonesAfter(order, start, |order|))
  {
    forall b | b in order {
      BlockSplit(g0, g, order, start, b);
    }
  }

  /** A phi node of a clone names the header of every predecessor. */
  lemma {:induction false} RemapStage(phis: seq<Phi>, order: seq<BlockId>, start: BlockId)
    requires (forall i, j :: 0 <= i < j < |order| ==> order[i] != order[j]) && Injective(VMapAfter(order, start, |order|))
    ensures PhisStage(phis, RemapPhis(phis, VMapAfter(order, start, |order|)), order, start, 0)
  {
    VMapAfterSpec(order, start, |order|);
    var vmap := VMapAfter(order, start, |order|);
    forall i | 0 <= i < |phis| ensures PhiStage(phis[i], RemapPhi(phis[i], vmap), order, start, 0) {
      forall y | 0 <= y < |order| && order[y] in phis[i].incoming
        ensures Brings(RemapPhi(phis[i], vmap), start + y, phis[i].incoming[order[y]])
      {
        assert vmap[order[y]] == start + y;
      }
    }
  }

  lemma {:induction false} VMapInjective(order: seq<BlockId>, start: BlockId)
    requires forall i, j :: 0 <= i < j < |order| ==> order[i] != order[j]
    ensures Injective(VMapAfter(order, start, |order|))
    ensures forall b :: b in VMapAfter(order, start, |order|) ==> b in order
  {
    VMapAfterSpec(order, start, |order|);
    var vmap := VMapAfter(order, start, |order|);
    forall p, q | p in vmap && q in vmap && vmap[p] == vmap[q] ensures p == q {
      assert IsHeader(order, start, |order|, p, vmap[p]) && IsHeader(order, start, |order|, q, vmap[q]);
    }
  }

  /** The graph after the second loop. */
  function Remapped(g0: Graph, order: seq<BlockId>, start: BlockId): Graph
    requires (forall b :: b in order ==> b in g0) && Injective(VMapAfter(order, start, |order|))
  {
    var headers := Fresh(start, |order|);
    RemapIn(GraphAfter(g0, order, start, |order|), order + headers, headers, VMapAfter(order, start, |order|))
  }

  lemma {:induction false} RemappedAt(g0: Graph, order: seq<BlockId>, start: BlockId, x: nat)
    requires (forall b :: b in order ==> b in g0) && (forall b :: b in g0 ==> b < start) && Injective(VMapAfter(order, start, |order|))
    requires x < |order|
    ensures start + x in Remapped(g0, order, start)
    ensures Remapped(g0, order, start)[start + x] == Remap(g0[order[x]], VMapAfter(order, start, |order|))
  {
    var headers := Fresh(start, |order|);
    var h := headers[x];
    assert h in headers && h in order + headers;
    assert h in GraphAfter(g0, order, start, |order|) && GraphAfter(g0, order, start, |order|)[h] == g0[order[x]] by {
      GraphAfterSpec(g0, order, start, |order|);
    }
  }

  lemma {:induction false} RemappedHeaders(g0: Graph, order: seq<BlockId>, start: BlockId, m: nat)
    requires (forall i, j :: 0 <= i < j < |order| ==> order[i] != order[j]) && m <= |order|
    requires (forall b :: b in order ==> b in g0) && (forall b :: b in g0 ==> b < start) && Injective(VMapAfter(order, start, |order|))
    ensures HeadersStage(g0, Remapped(g0, order, start), order, start, 0, m)
  {
    if m > 0 {
      RemappedHeaders(g0, order, start, m - 1);
      RemappedAt(g0, order, start, m - 1);
      RemapStage(g0[order[m-1]].phis, order, start);
    }
  }

  lemma {:induction false} RemappedOthers(g0: Graph, order: seq<BlockId>, start: BlockId)
    requires (forall b :: b in order ==> b in g0) && (forall b :: b in g0 ==> b < start) && Injective(VMapAfter(order, start, |order|))
    ensures forall b :: b in g0 ==> b in Remapped(g0, order, start) && Remapped(g0, order, start)[b] == g0[b]
    ensures forall b :: b in Remapped(g0, order, start) ==> b < start + |order|
  {
    GraphAfterSpec(g0, order, start, |order|);
  }

  lemma {:induction false} RemapIsStage(g0: Graph, order: seq<BlockId>, start: BlockId)
    requires (forall i, j :: 0 <= i < j < |order| ==> order[i] != order[j])
    requires (forall b :: b in order ==> b in g0) && (forall b :: b in g0 ==> b < start) && Injective(VMapAfter(order, start, |order|))
    ensures Stage(g0, Remapped(g0, order, start), order, start, 0)
  {
    RemappedHeaders(g0, order, start, |order|);
    RemappedOthers(g0, order, start);
  }

  method CloneAndRemap(list: seq<BlockId>, g: Graph, start: BlockId)
    returns (graph: Graph, vmap: map<BlockId, BlockId>, headers: seq<BlockId>)
    requires (forall i, j :: 0 <= i < j < |list| ==> list[i] != list[j])
    requires (forall b :: b in list ==> b in g) && forall b :: b in g ==> b < start
    ensures headers == Fresh(start, |list|) && (forall b :: b in vmap ==> b < start)
    ensures Injective(VMapAfter(list, start, |list|)) && graph == Remapped(g, list, start)
  {
    var blocks, cloned, originals;
    blocks, cloned, vmap, headers, originals := CloneBlocks(list, g, start);
    VMapInjective(list, start);
    GraphAfterSpec(g, list, start, |list|);
    graph := RemapHeaders(blocks, headers, vmap, cloned);
  }

  /** The whole pass over the blocks of a function (without its new entry block). */
  method CloneFunction(list: seq<BlockId>, g: Graph, start: BlockId) returns (graph: Graph)
    requires WellFormed(g, list) && forall b :: b in g ==> b < start
    ensures Cloned(g, graph, list, ClonesAfter(list, start, |list|)) && Unfaulted(graph, list, ClonesAfter(list, start, |list|))
  {
    var remapped, vmap, headers := CloneAndRemap(list, g, start);
    RemapIsStage(g, list, start);
    graph := SplitHeaders(g, remapped, list, headers, start, vmap);
    AllSplit(g, graph, list, start);
  }

  // ----- what the instrumented function does -----

  lemma {:induction false} FaultsSpare(g0: Graph, g: Graph, faulty: Graph, order: seq<BlockId>, start: BlockId, b: BlockId, clones: map<BlockId, Clones>)
    requires (forall i, j :: 0 <= i < j < |order| ==> order[i] != order[j]) && b in order && b in g && b < start
    requires clones == ClonesAfter(order, start, |order|) && FaultsPlaced(g, faulty, order, clones)
    requires b in clones && clones[b].header in g && clones[b].correct in g
    ensures faulty[b] == g[b] && faulty[clones[b].header] == g[clones[b].header] && faulty[clones[b].correct] == g[clones[b].correct]
  {
    CloneIds(order, start, b);
    forall x | x in order ensures x in clones && clones[x].corrupted !in {b, clones[b].header, clones[b].correct} {
      CloneIds(order, start, x);
    }
  }

  /** A fault in a Corrupted clone leaves everything else as the pass made it. */
  lemma {:induction false} FaultsKeepCloned(g0: Graph, g: Graph, faulty: Graph, order: seq<BlockId>, start: BlockId)
    requires (forall i, j :: 0 <= i < j < |order| ==> order[i] != order[j]) && forall b :: b in g0 ==> b < start
    requires Cloned(g0, g, order, ClonesAfter(order, start, |order|))
    requires FaultsPlaced(g, faulty, order, ClonesAfter(order, start, |order|))
    ensures Cloned(g0, faulty, order, ClonesAfter(order, start, |order|))
  {
    var clones := ClonesAfter(order, start, |order|);
    forall b | b in order ensures b in faulty && faulty[b] == g0[b] && ClonedBlock(g0, faulty, order, clones, b) {
      assert ClonedBlock(g0, g, order, clones, b);
      FaultsSpare(g0, g, faulty, order, start, b, clones);
    }
  }

  lemma {:induction false} CloneIds(order: seq<BlockId>, start: BlockId, b: BlockId)
    requires (forall i, j :: 0 <= i < j < |order| ==> order[i] != order[j]) && b in order
    ensures b in ClonesAfter(order, start, |order|)
    ensures var c := ClonesAfter(order, start, |order|)[b];
            start <= c.header < start + |order| <= c.corrupted == c.correct - 1 && (c.corrupted - start - |order|) % 2 == 0
  {
    ClonesAfterSpec(order, start, |order|);
    var x :| 0 <= x < |order| && order[x] == b;
  }

  /** The original blocks still lead to original blocks, and run as before. */
  lemma {:induction false} OriginalRuns<S>(g0: Graph, g: Graph, order: seq<BlockId>, sem: Semantics<S>, c: Config<S>, n: nat)
    requires WellFormed(g0, order) && (forall b :: b in order ==> b in g && g[b] == g0[b])
    requires c.At? ==> c.cur in order
    ensures Steps(g, sem, c, n) == Steps(g0, sem, c, n)
    decreases n
  {
    if n > 0 {
      OriginalRuns(g0, g, order, sem, Step(g0, sem, c), n - 1);
    }
  }

  /** Entered at the original first block, the instrumented function runs as the original; entered at its clone, it does
      what the original does, in the same order and with the same states, as long as no decision picks a Corrupted clone
      with a fault in it. */
  lemma {:induction false} FunctionRuns<S(!new)>(g0: Graph, g: Graph, faulty: Graph, order: seq<BlockId>, start: BlockId, first: BlockId,
                              sem: Semantics<S>, p: BlockId, s: S, n: nat)
    requires WellFormed(g0, order) && first in order && g0[first].phis == [] && forall b :: b in g0 ==> b < start
    requires Cloned(g0, g, order, ClonesAfter(order, start, |order|))
    requires FaultsPlaced(g, faulty, order, ClonesAfter(order, start, |order|))
    requires AvoidsFaults(sem, faulty, order, ClonesAfter(order, start, |order|))
    ensures var clones := ClonesAfter(order, start, |order|);
            && Steps(faulty, sem, At(p, first, s, []), n) == Steps(g0, sem, At(p, first, s, []), n)
            && Simulates(g0, order, clones, Steps(g0, sem, At(p, first, s, []), n),
                         Steps(faulty, sem, At(p, clones[first].header, s, []), 2 * n))
  {
    var clones := ClonesAfter(order, start, |order|);
    FaultsKeepCloned(g0, g, faulty, order, start);
    OriginalRuns(g0, faulty, order, sem, At(p, first, s, []), n);
    RunSimulates(g0, faulty, order, clones, sem, At(p, first, s, []), At(p, clones[first].header, s, []), n);
  }

  /** Before any fault is placed the instrumented function does what the original does, whatever the decisions. */
  lemma {:induction false} UnfaultedRuns<S(!new)>(g0: Graph, g: Graph, order: seq<BlockId>, start: BlockId, first: BlockId,
                              sem: Semantics<S>, p: BlockId, s: S, n: nat)
    requires WellFormed(g0, order) && first in order && g0[first].phis == [] && forall b :: b in g0 ==> b < start
    requires Cloned(g0, g, order, ClonesAfter(order, start, |order|)) && Unfaulted(g, order, ClonesAfter(order, start, |order|))
    requires forall h, t :: sem.decide(h, t) <= 1
    ensures var clones := ClonesAfter(order, start, |order|);
            Simulates(g0, order, clones, Steps(g0, sem, At(p, first, s, []), n),
                      Steps(g, sem, At(p, clones[first].header, s, []), 2 * n))
  {
    FunctionRuns(g0, g, g, order, start, first, sem, p, s, n);
  }
}
