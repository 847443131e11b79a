/**
 The window profiler: a hook in every basic block counts the instructions executed inside and outside the recovery
 window, as four policies see it, globally and for every function and its callers.
 */
module WindowProfiler {
  import opened Options

  /** The counters of a policy: instructions in and out of the window, and window closings by kind. */
  datatype Policy = Policy(bbIn: nat, bbOut: nat, end: nat, endK: nat, endS: nat, endN: nat)

  /** The pessimistic, data flow, optimistic and recovery window policies. */
  datatype Stats = Stats(pes: Policy, dfa: Policy, opt: Policy, rwindow: Policy)

  /** A function and the callers it was reached through. */
  datatype Key = Key(caller2: nat, caller1: nat, caller0: nat, func: string)

  datatype Scope = Scope(key: Key, stats: Stats)

  const MAXFUNCS := 8000

  const NOTHING := Policy(0, 0, 0, 0, 0, 0)

  const NONE := Stats(NOTHING, NOTHING, NOTHING, NOTHING)

  datatype State = State(
    enabled: bool,
    counting: bool,       // statistics are enabled
    handled: bool,        // a message is being handled: the optimistic window
    last: bool,           // what the hook last saw
    pes: bool,
    dfa: bool,
    windowOpen: bool,     // the recovery window
    glo: Stats,
    funcs: seq<Scope>,
    aborted: bool)        // out of slots for functions

  const INIT := State(true, false, false, false, false, false, false, NONE, [], false)

  /** The functions whose entry closes the pessimistic window. */
  const CLOSERS: seq<string> := ["_ipc_send", "_ipc_notify", "_do_kernel_call"]

  function Closer(func: string): Option<nat> {
    if CLOSERS[0] <= func then Some(0) else if CLOSERS[1] <= func then Some(1) else if CLOSERS[2] <= func then Some(2) else None
  }

  // ----- what a hook adds -----

  function Plus(a: Policy, b: Policy): Policy {
    Policy(a.bbIn + b.bbIn, a.bbOut + b.bbOut, a.end + b.end, a.endK + b.endK, a.endS + b.endS, a.endN + b.endN)
  }

  function Add(a: Stats, b: Stats): Stats {
    Stats(Plus(a.pes, b.pes), Plus(a.dfa, b.dfa), Plus(a.opt, b.opt), Plus(a.rwindow, b.rwindow))
  }

  /** `n` instructions, inside or outside. */
  function Account(inside: bool, n: nat): Policy {
    if inside then NOTHING.(bbIn := n) else NOTHING.(bbOut := n)
  }

  function PesEnd(closer: Option<nat>): Policy {
    if closer.None? then NOTHING
    else if closer.value == 0 then NOTHING.(end := 1, endS := 1)
    else if closer.value == 1 then NOTHING.(end := 1, endN := 1)
    else NOTHING.(end := 1, endK := 1)
  }

  function OptEnd(closing: bool): Policy {
    if closing then NOTHING.(end := 1, endK := 1) else NOTHING
  }

  /** The windows as a block sees them, after the window edges have been taken. */
  datatype View = View(closer: Option<nat>, closing: bool, handled: bool, pes: bool, dfa: bool, windowOpen: bool)

  function Look(s: State, first: bool, func: string): View {
    var closer := if first && s.pes then Closer(func) else None;
    var opening, closing := s.handled && !s.last, !s.handled && s.last;
    View(closer, closing, s.handled,
         if opening then true else if closing then false else s.pes && closer.None?,
         if opening then true else if closing then false else s.dfa,
         s.windowOpen && !closing)
  }

  function GlobalDelta(v: View, n: nat): Stats {
    Stats(Plus(Account(v.pes, n), PesEnd(v.closer)),
          Account(v.dfa, n),
          Plus(Account(v.handled, n), OptEnd(v.closing)),
          Account(v.windowOpen, n))
  }

  /** A function's share. A pessimistic closing is counted with its optimistic closings, as the code does. */
  function FunctionDelta(v: View, n: nat): Stats {
    Stats(Account(v.pes, n),
          Account(v.dfa, n),
          Plus(Account(v.handled, n),
               NOTHING.(end := (if v.closer.Some? then 1 else 0) + (if v.closing then 1 else 0))),
          NOTHING)
  }

  // ----- runs -----

  datatype Event =
    | SetHandled(on: bool)
    | SetWindow(on: bool)
    | SetEnabled(on: bool)
    | SetCounting(on: bool)
    | Hook(first: bool, key: Key, insts: nat)

  function IndexOf(funcs: seq<Scope>, key: Key): (i: nat)
    ensures i <= |funcs| && (i < |funcs| ==> funcs[i].key == key) && forall j :: 0 <= j < i ==> funcs[j].key != key
  {
    if funcs == [] then 0 else if funcs[0].key == key then 0 else 1 + IndexOf(funcs[1..], key)
  }

  /** The slot of a key is found, or the next one is taken. */
  function WithKey(funcs: seq<Scope>, key: Key): (r: seq<Scope>)
    ensures IndexOf(funcs, key) < |r|
  {
    if IndexOf(funcs, key) < |funcs| then funcs else funcs + [Scope(key, NONE)]
  }

  function Grow(funcs: seq<Scope>, i: nat, d: Stats): seq<Scope>
    requires i < |funcs|
  {
    funcs[i := funcs[i].(stats := Add(funcs[i].stats, d))]
  }

  function Step(s: State, e: Event): State {
    if s.aborted then s else
    match e
    case SetHandled(on) => s.(handled := on)
    case SetWindow(on) => s.(windowOpen := on)
    case SetEnabled(on) => s.(enabled := on)
    case SetCounting(on) => s.(counting := on)
    case Hook(first, key, insts) =>
      if !s.enabled then s.(last := s.handled)
      else if s.counting && IndexOf(s.funcs, key) >= MAXFUNCS then s.(aborted := true)
      else
        var v := Look(s, first, key.func);
        if s.counting then Counted(Seen(s, v), v, key, insts) else Seen(s, v)
  }

  function Seen(s: State, v: View): State {
    s.(last := s.handled, pes := v.pes, dfa := v.dfa, windowOpen := v.windowOpen)
  }

  function Counted(s: State, v: View, key: Key, insts: nat): State {
    s.(glo := Add(s.glo, GlobalDelta(v, insts)),
       funcs := Grow(WithKey(s.funcs, key), IndexOf(s.funcs, key), FunctionDelta(v, insts)))
  }

  function Run(s: State, es: seq<Event>): State {
    if es == [] then s else Step(Run(s, es[..|es|-1]), es[|es|-1])
  }

  // ----- conservation -----

  function Sum(funcs: seq<Scope>): Stats {
    if funcs == [] then NONE else Add(Sum(funcs[..|funcs|-1]), funcs[|funcs|-1].stats)
  }

  lemma {:induction false} PlusSwap(p: Policy, q: Policy, r: Policy)
    ensures Plus(Plus(p, r), q) == Plus(p, Plus(q, r)) && Plus(Plus(p, q), r) == Plus(p, Plus(q, r))
  {
  }

  lemma {:induction false} AddCommutes(a: Stats, b: Stats, c: Stats)
    ensures Add(Add(a, c), b) == Add(a, Add(b, c)) && Add(Add(a, b), c) == Add(a, Add(b, c))
  {
    PlusSwap(a.pes, b.pes, c.pes);
    PlusSwap(a.dfa, b.dfa, c.dfa);
    PlusSwap(a.opt, b.opt, c.opt);
    PlusSwap(a.rwindow, b.rwindow, c.rwindow);
  }

  lemma {:induction false} PlusNothing(p: Policy)
    ensures Plus(p, NOTHING) == p
  {
  }

  lemma {:induction false} AddNone(a: Stats)
    ensures Add(a, NONE) == a
  {
    PlusNothing(a.pes);
    PlusNothing(a.dfa);
    PlusNothing(a.opt);
    PlusNothing(a.rwindow);
  }

  lemma {:induction false} SumGrow(funcs: seq<Scope>, i: nat, d: Stats)
    requires i < |funcs|
    ensures Sum(Grow(funcs, i, d)) == Add(Sum(funcs), d)
  {
    var n := |funcs| - 1;
    var grown := Grow(funcs, i, d);
    AddCommutes(Sum(funcs[..n]), funcs[n].stats, d);
    if i == n {
      assert grown[..n] == funcs[..n];
    } else {
      SumGrow(funcs[..n], i, d);
      assert grown[..n] == Grow(funcs[..n], i, d);
    }
  }

  function Total(p: Policy): nat {
    p.bbIn + p.bbOut
  }

  /** The four policies account for the same instructions, and the kinds of closing add up. */
  ghost predicate Balanced(g: Stats) {
    && Total(g.opt) == Total(g.pes) == Total(g.dfa) == Total(g.rwindow)
    && g.pes.end == g.pes.endK + g.pes.endS + g.pes.endN
    && g.opt.end == g.opt.endK
  }

  /** The functions' counters add up to the global ones. */
  ghost predicate Conserved(g: Stats, t: Stats) {
    && t.opt.bbIn == g.opt.bbIn && t.opt.bbOut == g.opt.bbOut
    && t.pes.bbIn == g.pes.bbIn && t.pes.bbOut == g.pes.bbOut
    && t.dfa.bbIn == g.dfa.bbIn && t.dfa.bbOut == g.dfa.bbOut
    && t.opt.end == g.opt.end + g.pes.end && t.pes.end == 0
  }

  lemma {:induction false} DeltaBalanced(v: View, n: nat, g: Stats)
    requires Balanced(g)
    ensures Balanced(Add(g, GlobalDelta(v, n)))
  {
    DeltaTotals(v, n);
    var d := GlobalDelta(v, n);
    assert d.pes.end == d.pes.endK + d.pes.endS + d.pes.endN && d.opt.end == d.opt.endK;
  }

  lemma {:induction false} DeltaTotals(v: View, n: nat)
    ensures var d := GlobalDelta(v, n); Total(d.opt) == Total(d.pes) == Total(d.dfa) == Total(d.rwindow) == n
  {
  }

  lemma {:induction false} DeltasConserve(v: View, n: nat, g: Stats, t: Stats)
    requires Conserved(g, t)
    ensures Conserved(Add(g, GlobalDelta(v, n)), Add(t, FunctionDelta(v, n)))
  {
  }

  ghost predicate Kept(s: State) {
    Balanced(s.glo) && Conserved(s.glo, Sum(s.funcs)) && |s.funcs| <= MAXFUNCS
  }

  /** After every run, with profiling and statistics switched on and off at will: the four policies' totals are equal,
      the per-function counters add up to the global ones, and the pessimistic closings split into the three kinds. */
  lemma {:induction false} RunsConserve(es: seq<Event>)
    ensures Kept(Run(INIT, es))
  {
    if es != [] {
      RunsConserve(es[..|es|-1]);
      StepConserves(Run(INIT, es[..|es|-1]), es[|es|-1]);
    }
  }

  lemma {:induction false} StepConserves(s: State, e: Event)
    requires Kept(s)
    ensures Kept(Step(s, e))
  {
    if e.Hook? && !s.aborted && s.enabled && s.counting && IndexOf(s.funcs, e.key) < MAXFUNCS {
      var v := Look(s, e.first, e.key.func);
      CountedConserves(Seen(s, v), v, e.key, e.insts);
    }
  }

  lemma {:induction false} SumAppend(funcs: seq<Scope>, last: Scope)
    ensures Sum(funcs + [last]) == Add(Sum(funcs), last.stats)
  {
    assert (funcs + [last])[..|funcs|] == funcs;
  }

  lemma {:induction false} SumWithKey(funcs: seq<Scope>, key: Key)
    ensures Sum(WithKey(funcs, key)) == Sum(funcs)
  {
    SumAppend(funcs, Scope(key, NONE));
    AddNone(Sum(funcs));
  }

  /** A counted block adds its share to the sum over the functions. */
  lemma {:induction false} SumCounted(funcs: seq<Scope>, key: Key, d: Stats)
    ensures Sum(Grow(WithKey(funcs, key), IndexOf(funcs, key), d)) == Add(Sum(funcs), d)
  {
    SumWithKey(funcs, key);
    SumGrow(WithKey(funcs, key), IndexOf(funcs, key), d);
  }

  lemma {:induction false} WithKeyFits(funcs: seq<Scope>, key: Key)
    requires |funcs| <= MAXFUNCS && IndexOf(funcs, key) < MAXFUNCS
    ensures |WithKey(funcs, key)| <= MAXFUNCS
  {
  }

  /** Stated on the parts of a state, which is all that counting depends on. */
  lemma {:induction false} PartsConserve(glo: Stats, funcs: seq<Scope>, v: View, key: Key, n: nat)
    requires Balanced(glo) && Conserved(glo, Sum(funcs)) && |funcs| <= MAXFUNCS && IndexOf(funcs, key) < MAXFUNCS
    ensures var counted := Grow(WithKey(funcs, key), IndexOf(funcs, key), FunctionDelta(v, n));
            var total := Add(glo, GlobalDelta(v, n));
            Balanced(total) && Conserved(total, Sum(counted)) && |counted| <= MAXFUNCS
  {
    SumCounted(funcs, key, FunctionDelta(v, n));
    DeltaBalanced(v, n, glo);
    DeltasConserve(v, n, glo, Sum(funcs));
    WithKeyFits(funcs, key);
  }

  lemma {:induction false} CountedConserves(s: State, v: View, key: Key, n: nat)
    requires Kept(s) && IndexOf(s.funcs, key) < MAXFUNCS
    ensures Kept(Counted(s, v, key, n))
  {
    PartsConserve(s.glo, s.funcs, v, key, n);
  }

  // ----- the policies compared -----

  /** The data flow window follows the optimistic one, and the pessimistic window is inside it. */
  ghost predicate Synced(s: State) {
    s.dfa == s.last && (s.pes ==> s.last)
  }

  ghost predicate Ordered(s: State) {
    InOrder(s.glo)
  }

  ghost predicate InOrder(g: Stats) {
    g.pes.bbIn <= g.opt.bbIn && g.dfa.bbIn == g.opt.bbIn && g.dfa.bbOut == g.opt.bbOut
  }

  ghost predicate StaysEnabled(es: seq<Event>) {
    forall e :: e in es ==> e != SetEnabled(false)
  }

  /** While profiling stays enabled, the data flow counters equal the optimistic ones, and the pessimistic policy never
      counts more instructions inside the window than the optimistic one. */
  lemma {:induction false} EnabledRunsOrdered(es: seq<Event>)
    requires StaysEnabled(es)
    ensures var s := Run(INIT, es); Synced(s) && Ordered(s) && s.enabled
  {
    if es != [] {
      var before, e := es[..|es|-1], es[|es|-1];
      assert e in es && forall x :: x in before ==> x in es;
      EnabledRunsOrdered(before);
      StepOrdered(Run(INIT, before), e);
    }
  }

  lemma {:induction false} ViewSynced(s: State, first: bool, func: string)
    requires Synced(s)
    ensures var v := Look(s, first, func); v.dfa == v.handled && (v.pes ==> v.handled)
  {
  }

  lemma {:induction false} DeltaOrdered(v: View, n: nat)
    requires v.dfa == v.handled && (v.pes ==> v.handled)
    ensures InOrder(GlobalDelta(v, n))
  {
  }

  lemma {:induction false} InOrderAdd(a: Stats, b: Stats)
    requires InOrder(a) && InOrder(b)
    ensures InOrder(Add(a, b))
  {
  }

  /** Counting changes counters only. */
  lemma {:induction false} CountedGlobal(s: State, v: View, key: Key, n: nat)
    ensures var t := Counted(s, v, key, n); t.glo == Add(s.glo, GlobalDelta(v, n)) && t == s.(glo := t.glo, funcs := t.funcs)
  {
  }

  lemma {:induction false} SeenOrdered(s: State, v: View)
    requires v.dfa == v.handled == s.handled && (v.pes ==> v.handled) && Ordered(s)
    ensures Synced(Seen(s, v)) && Ordered(Seen(s, v))
  {
  }

  lemma {:induction false} StepOrdered(s: State, e: Event)
    requires Synced(s) && Ordered(s) && s.enabled && e != SetEnabled(false)
    ensures Synced(Step(s, e)) && Ordered(Step(s, e)) && Step(s, e).enabled
  {
    if e.Hook? {
      var v := Look(s, e.first, e.key.func);
      ViewSynced(s, e.first, e.key.func);
      SeenOrdered(s, v);
      DeltaOrdered(v, e.insts);
      InOrderAdd(s.glo, GlobalDelta(v, e.insts));
      CountedGlobal(Seen(s, v), v, e.key, e.insts);
    }
  }

  /** How many disabled hooks saw a changed message flag since an enabled hook last saw one. */
  function Missed(es: seq<Event>): nat {
    if es == [] then 0 else NowMissed(Run(INIT, es[..|es|-1]), es[|es|-1], Missed(es[..|es|-1]))
  }

  function NowMissed(s: State, e: Event, missed: nat): nat {
    if s.aborted || !e.Hook? || s.handled == s.last then missed
    else if !s.enabled then missed + 1
    else if Step(s, e).aborted then missed
    else 0
  }

  ghost predicate Even(n: nat) {
    n % 2 == 0
  }

  lemma {:induction false} StepSync(s: State, e: Event, missed: nat)
    requires (s.pes ==> s.dfa) && (s.dfa == s.last <==> Even(missed))
    ensures var t := Step(s, e); (t.pes ==> t.dfa) && (t.dfa == t.last <==> Even(NowMissed(s, e, missed)))
  {
    assert Even(missed + 1) <==> !Even(missed);
  }

  lemma {:induction false} RunSync(es: seq<Event>)
    ensures var s := Run(INIT, es); (s.pes ==> s.dfa) && (s.dfa == s.last <==> Even(Missed(es)))
  {
    if es != [] {
      var before := es[..|es|-1];
      RunSync(before);
      StepSync(Run(INIT, before), es[|es|-1], Missed(before));
    }
  }

  /** Over whole runs: the policies agree if and only if profiling was off for an even number of flag changes that the
      hook saw since it last took one. */
  lemma {:induction false} SyncedIff(es: seq<Event>)
    ensures Synced(Run(INIT, es)) <==> Even(Missed(es))
  {
    RunSync(es);
  }

  lemma {:induction false} SyncedStaysOrdered(s: State, ext: seq<Event>)
    requires Synced(s) && Ordered(s) && s.enabled && StaysEnabled(ext)
    ensures var t := Run(s, ext); Synced(t) && Ordered(t) && t.enabled
  {
    if ext != [] {
      var before, e := ext[..|ext|-1], ext[|ext|-1];
      assert e in ext && forall x :: x in before ==> x in ext;
      SyncedStaysOrdered(s, before);
      StepOrdered(Run(s, before), e);
    }
  }

  lemma {:induction false} RunThree(s: State, a: Event, b: Event, c: Event)
    ensures Run(s, [a, b, c]) == Step(Step(Step(s, a), b), c)
  {
    assert [a, b, c][..2] == [a, b] && [a, b][..1] == [a] && [a][..0] == [];
    assert Run(s, [a]) == Step(Run(s, []), a);
    assert Run(s, [a, b]) == Step(Run(s, [a]), b);
  }

  lemma {:induction false} UnsyncedShows(s: State) returns (ext: seq<Event>)
    requires !Synced(s) && (s.pes ==> s.dfa) && Ordered(s) && s.enabled && !s.aborted
    ensures StaysEnabled(ext) && !Ordered(Run(s, ext))
  {
    var key := if |s.funcs| < MAXFUNCS then Key(0, 0, 0, "") else s.funcs[0].key;
    assert IndexOf(s.funcs, key) < MAXFUNCS;
    var on := s.(handled := s.last, counting := true);
    assert Step(Step(s, SetHandled(s.last)), SetCounting(true)) == on;
    RunThree(s, SetHandled(s.last), SetCounting(true), Hook(false, key, 1));
    ext := [SetHandled(s.last), SetCounting(true), Hook(false, key, 1)];
  }

  /** An ordered run stays ordered, however it goes on without disabling the profiler, if and only if the flag changes
      that were missed cancel out. */
  lemma {:induction false} StaysOrderedIff(es: seq<Event>)
    requires var s := Run(INIT, es); s.enabled && !s.aborted && Ordered(s)
    ensures (forall ext :: StaysEnabled(ext) ==> Ordered(Run(Run(INIT, es), ext))) <==> Even(Missed(es))
  {
    var s := Run(INIT, es);
    RunSync(es);
    if Synced(s) {
      forall ext | StaysEnabled(ext) ensures Ordered(Run(s, ext)) {
        SyncedStaysOrdered(s, ext);
      }
    } else {
      var ext := UnsyncedShows(s);
    }
  }

  /** Switching profiling off while a message starts makes the data flow policy miss the window. */
  lemma {:induction false} DisabledRunsDiffer(key: Key, n: nat)
    requires n > 0
    ensures var s := Step(Step(Step(INIT, SetCounting(true)), SetEnabled(false)), SetHandled(true));
            var t := Step(Step(Step(s, Hook(false, key, n)), SetEnabled(true)), Hook(false, key, n));
            t.glo.opt.bbIn == n && t.glo.dfa.bbIn == 0
  {
  }

  // ----- the hook -----

  /** The hash table finds the slots. */
  ghost predicate Indexed(funcs: seq<Scope>, index: map<Key, nat>) {
    && (forall k :: k in index ==> index[k] < |funcs| && IndexOf(funcs, k) == index[k])
    && (forall k :: k !in index ==> IndexOf(funcs, k) == |funcs|)
  }

  /** Finds the slot of a key, or takes the next one if there is one. */
  method FindSlot(funcs: seq<Scope>, index: map<Key, nat>, key: Key) returns (i: nat, funcs': seq<Scope>, index': map<Key, nat>)
    requires Indexed(funcs, index)
    ensures i == IndexOf(funcs, key) && Indexed(funcs', index')
    ensures funcs' == if i >= MAXFUNCS then funcs else WithKey(funcs, key)
  {
    funcs', index' := funcs, index;
    if key in index {
      i := index[key];
    } else {
      i := |funcs|;
      if i < MAXFUNCS {
        forall k ensures IndexOf(funcs + [Scope(key, NONE)], k) == if k == key then |funcs| else if k in index then index[k] else |funcs| + 1 {
          IndexOfAppend(funcs, Scope(key, NONE), k);
        }
        funcs' := funcs + [Scope(key, NONE)];
        index' := index[key := i];
      }
    }
  }

  /** The globals of the profiler: the counters and flags, and the hash table. */
  class Profiler {
    var now: State
    var index: map<Key, nat>

    ghost predicate Valid()
      reads this
    {
      Indexed(now.funcs, index)
    }

    constructor ()
      ensures Valid() && now == INIT
    {
      now, index := INIT, map[];
    }

    method Wprof(first: bool, key: Key, insts: nat)
      requires Valid() && !now.aborted
      modifies this
      ensures Valid() && now == Step(old(now), Hook(first, key, insts))
    {
      now, index := HookOnce(now, index, first, key, insts);
    }
  }

  method HookOnce(s: State, index: map<Key, nat>, first: bool, key: Key, insts: nat) returns (t: State, index': map<Key, nat>)
    requires Indexed(s.funcs, index) && !s.aborted
    ensures Indexed(t.funcs, index') && t == Step(s, Hook(first, key, insts))
  {
    t, index' := s, index;
    if !s.enabled {
      t := s.(last := s.handled);
      return;
    }
    if s.counting {
      var i, funcs;
      i, funcs, index' := FindSlot(s.funcs, index, key);
      if i >= MAXFUNCS {
        t := s.(aborted := true);
        return;
      }
      var v := TakeEdges(s, first, key.func);
      var glo, funcs' := AccountBlock(s.glo, funcs, index', i, v, insts);
      t := Seen(s, v).(glo := glo, funcs := funcs');
    } else {
      var v := TakeEdges(s, first, key.func);
      t := Seen(s, v);
    }
  }

  /** The loop over the closing functions, on entry to a function. */
  method ClosePessimistic(pes: bool, func: string) returns (closer: Option<nat>, stillOpen: bool)
    ensures closer == (if pes then Closer(func) else None) && stillOpen == (pes && closer.None?)
  {
    closer, stillOpen := None, pes;
    for i := 0 to |CLOSERS|
      invariant stillOpen == (pes && closer.None?) && (closer.Some? ==> pes && closer == Closer(func))
      invariant closer.None? && pes ==> forall j :: 0 <= j < i ==> !(CLOSERS[j] <= func)
    {
      if stillOpen && CLOSERS[i] <= func {
        closer, stillOpen := Some(i), false;
      }
    }
  }

  /** Closes the pessimistic window, and opens or closes all windows when the message flag has changed. */
  method TakeEdges(s: State, first: bool, func: string) returns (v: View)
    ensures v == Look(s, first, func)
  {
    var closer, closing, pes, dfa, windowOpen := None, false, s.pes, s.dfa, s.windowOpen;
    if first {
      closer, pes := ClosePessimistic(pes, func);
    }
    if s.handled && !s.last {
      pes, dfa := true, true;
    } else if !s.handled && s.last {
      pes, dfa, windowOpen := false, false, false;
      closing := true;
    }
    v := View(closer, closing, s.handled, pes, dfa, windowOpen);
  }

  /** The closings, and the basic block accounting. */
  method AccountBlock(glo: Stats, funcs: seq<Scope>, ghost index: map<Key, nat>, i: nat, v: View, insts: nat)
    returns (glo': Stats, funcs': seq<Scope>)
    requires i < |funcs| && Indexed(funcs, index)
    ensures glo' == Add(glo, GlobalDelta(v, insts)) && funcs' == Grow(funcs, i, FunctionDelta(v, insts)) && Indexed(funcs', index)
  {
    glo' := CountGlobal(glo, v, insts);
    var f := CountFunction(funcs[i].stats, v, insts);
    SameKeys(funcs, i, f);
    funcs' := funcs[i := funcs[i].(stats := f)];
  }

  method EndPessimistic(p: Policy, closer: Option<nat>) returns (q: Policy)
    ensures q == Plus(p, PesEnd(closer))
  {
    q := p;
    if closer.Some? {
      q := q.(end := q.end + 1);
      if closer.value == 0 {
        q := q.(endS := q.endS + 1);
      } else if closer.value == 1 {
        q := q.(endN := q.endN + 1);
      } else {
        q := q.(endK := q.endK + 1);
      }
    }
  }

  method EndOptimistic(p: Policy, closing: bool) returns (q: Policy)
    ensures q == Plus(p, OptEnd(closing))
  {
    q := p;
    if closing {
      q := q.(end := q.end + 1);
      q := q.(endK := q.endK + 1);
    }
  }

  lemma {:induction false} ChargeIsPlus(p: Policy, inside: bool, n: nat)
    ensures Charge(p, inside, n) == Plus(p, Account(inside, n))
  {
  }

  /** The closings of a policy, and then the block. */
  lemma {:induction false} EndsCharged(p: Policy, ends: Policy, inside: bool, n: nat)
    ensures Charge(Plus(p, ends), inside, n) == Plus(p, Plus(Account(inside, n), ends))
  {
    ChargeIsPlus(Plus(p, ends), inside, n);
    PlusSwap(p, Account(inside, n), ends);
  }

  method CountGlobal(glo: Stats, v: View, insts: nat) returns (g: Stats)
    ensures g == Add(glo, GlobalDelta(v, insts))
  {
    var pes := EndPessimistic(glo.pes, v.closer);
    var opt := EndOptimistic(glo.opt, v.closing);
    EndsCharged(glo.pes, PesEnd(v.closer), v.pes, insts);
    EndsCharged(glo.opt, OptEnd(v.closing), v.handled, insts);
    ChargeIsPlus(glo.dfa, v.dfa, insts);
    ChargeIsPlus(glo.rwindow, v.windowOpen, insts);
    g := Stats(Charge(pes, v.pes, insts), Charge(glo.dfa, v.dfa, insts), Charge(opt, v.handled, insts), Charge(glo.rwindow, v.windowOpen, insts));
  }

  method CountFunction(stats: Stats, v: View, insts: nat) returns (f: Stats)
    ensures f == Add(stats, FunctionDelta(v, insts))
  {
    var opt := stats.opt;
    if v.closer.Some? {
      opt := opt.(end := opt.end + 1);
    }
    if v.closing {
      opt := opt.(end := opt.end + 1);
    }
    ghost var ends := NOTHING.(end := (if v.closer.Some? then 1 else 0) + (if v.closing then 1 else 0));
    assert opt == Plus(stats.opt, ends);
    EndsCharged(stats.opt, ends, v.handled, insts);
    ChargeIsPlus(stats.pes, v.pes, insts);
    ChargeIsPlus(stats.dfa, v.dfa, insts);
    PlusNothing(stats.rwindow);
    f := Stats(Charge(stats.pes, v.pes, insts), Charge(stats.dfa, v.dfa, insts), Charge(opt, v.handled, insts), stats.rwindow);
  }

  function Charge(p: Policy, inside: bool, n: nat): Policy {
    if inside then p.(bbIn := p.bbIn + n) else p.(bbOut := p.bbOut + n)
  }

  lemma {:induction false} IndexOfAppend(funcs: seq<Scope>, s: Scope, k: Key)
    ensures IndexOf(funcs + [s], k) == if IndexOf(funcs, k) < |funcs| then IndexOf(funcs, k) else if s.key == k then |funcs| else |funcs| + 1
  {
    if funcs == [] {
      assert [s][1..] == [] && [] + [s] == [s];
    } else {
      assert (funcs + [s])[1..] == funcs[1..] + [s];
      IndexOfAppend(funcs[1..], s, k);
    }
  }

  lemma {:induction false} IndexOfUnique(funcs: seq<Scope>, k: Key, i: nat)
    requires i <= |funcs| && (i < |funcs| ==> funcs[i].key == k) && forall j :: 0 <= j < i ==> funcs[j].key != k
    ensures IndexOf(funcs, k) == i
  {
  }

  lemma {:induction false} SameKeys(funcs: seq<Scope>, i: nat, f: Stats)
    requires i < |funcs|
    ensures forall k :: IndexOf(funcs[i := funcs[i].(stats := f)], k) == IndexOf(funcs, k)
  {
    forall k ensures IndexOf(funcs[i := funcs[i].(stats := f)], k) == IndexOf(funcs, k) {
      IndexOfUnique(funcs[i := funcs[i].(stats := f)], k, IndexOf(funcs, k));
    }
  }
}
