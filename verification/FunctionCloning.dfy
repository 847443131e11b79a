/**
 Function cloning: every candidate function becomes a dispatcher that reads the clone flag and forwards
 its call to one of two copies of its old body. The copies call the dispatchers, not each other.
 Whatever the history of the flag, the program computes what it computed before.
 */
module FunctionCloning {
  import opened Options

  /** A function of the module, or one of the two copies of a function. */
  datatype Name = Original(id: nat) | Clone1(id: nat) | Clone2(id: nat)

  /** What a call names: a function, or a pointer. */
  datatype Target = Direct(name: Name) | Indirect

  /** The code of a function. `Do` stands for any instruction, calls of external functions included. */
  datatype Code =
    | Skip
    | Do(op: nat)
    | Then(first: Code, second: Code)
    | If(cond: nat, yes: Code, no: Code)
    | While(cond: nat, loop: Code)
    | Call(target: Target, site: nat)

  /** A block that calls the hook if there is one, calls a copy with the parameters, and returns its result. */
  datatype CallBlock = CallBlock(hook: Option<nat>, callee: Name)

  /** Plain code, possibly behind a hook, or the comparison of the flag that leads to one of two call blocks. */
  datatype Body =
    | Plain(hook: Option<nat>, code: Code)
    | Dispatcher(value: int, differs: CallBlock, equals: CallBlock)

  datatype Function = Function(params: nat, vararg: bool, body: Body)

  type Program = map<Name, Function>

  // ----- execution -----

  datatype Event = Effect(op: nat) | Hook(hook: nat)

  /** What outlives a call: memory, what has happened so far, and how often the flag has been read. */
  datatype World<G> = World(globals: G, trace: seq<Event>, seen: nat)

  /** The meaning of instructions, conditions, call sites, frames and return values. */
  datatype Machine<!G, !L, !V> = Machine(
    step: (nat, L, G) -> (L, G),
    test: (nat, L, G) -> bool,
    args: (nat, L, G) -> seq<V>,
    target: (nat, L, G) -> nat,          // the function that a pointer holds: its address was taken before the pass
    bind: (nat, L, V) -> L,
    frame: seq<V> -> L,
    result: L -> V)

  function Callee<G, L, V>(m: Machine<G, L, V>, t: Target, site: nat, l: L, g: G): Name {
    if t.Direct? then t.name else Original(m.target(site, l, g))
  }

  function Hooked<G>(hook: Option<nat>, w: World<G>): World<G> {
    if hook.Some? then w.(trace := w.trace + [Hook(hook.value)]) else w
  }

  /** The actual arguments that reach the fixed parameters. */
  function Fixed<V>(f: Function, args: seq<V>): seq<V> {
    if |args| <= f.params then args else args[..f.params]
  }

  /** The actual arguments that a function can see. */
  function Visible<V>(f: Function, args: seq<V>): seq<V> {
    if f.vararg then args else Fixed(f, args)
  }

  /** A call, `None` when it does not return within `fuel` nested steps; `flag(i)` is what the i-th read of the flag sees. */
  function Invoke<G, L, V>(m: Machine<G, L, V>, p: Program, flag: nat -> int, name: Name, args: seq<V>, w: World<G>, fuel: nat)
    : Option<(V, World<G>)>
    decreases fuel, 0
  {
    if fuel == 0 || name !in p then None else
    match p[name].body
    case Plain(hook, code) =>
      var r := Run(m, p, flag, code, m.frame(Visible(p[name], args)), Hooked(hook, w), fuel - 1);
      if r.None? then None else Some((m.result(r.value.0), r.value.1))
    case Dispatcher(value, differs, equals) =>
      var block := if flag(w.seen) != value then differs else equals;
      Invoke(m, p, flag, block.callee, Fixed(p[name], args), Hooked(block.hook, w.(seen := w.seen + 1)), fuel - 1)
  }

  function Run<G, L, V>(m: Machine<G, L, V>, p: Program, flag: nat -> int, c: Code, l: L, w: World<G>, fuel: nat)
    : Option<(L, World<G>)>
    decreases fuel, 0
  {
    if fuel == 0 then None else
    match c
    case Skip => Some((l, w))
    case Do(op) =>
      var (l', g) := m.step(op, l, w.globals);
      Some((l', w.(globals := g, trace := w.trace + [Effect(op)])))
    case Then(c1, c2) => Sequence(m, p, flag, c1, c2, l, w, fuel - 1)
    case If(cond, yes, no) =>
      Run(m, p, flag, if m.test(cond, l, w.globals) then yes else no, l, w, fuel - 1)
    case While(cond, loop) =>
      if m.test(cond, l, w.globals) then Sequence(m, p, flag, loop, c, l, w, fuel - 1) else Some((l, w))
    case Call(target, site) =>
      var r := Invoke(m, p, flag, Callee(m, target, site, l, w.globals), m.args(site, l, w.globals), w, fuel - 1);
      if r.None? then None else Some((m.bind(site, l, r.value.0), r.value.1))
  }

  function Sequence<G, L, V>(m: Machine<G, L, V>, p: Program, flag: nat -> int, c1: Code, c2: Code, l: L, w: World<G>, fuel: nat)
    : Option<(L, World<G>)>
    decreases fuel, 1
  {
    var r := Run(m, p, flag, c1, l, w, fuel);
    if r.None? then None else Run(m, p, flag, c2, r.value.0, r.value.1, fuel)
  }

  // ----- the transformation -----

  datatype Settings = Settings(value: int, hook1: Option<nat>, hook2: Option<nat>)

  /** The three functions that a candidate becomes. */
  function DispatcherOf(o: Settings, name: Name, f: Function): Function {
    f.(body := Dispatcher(o.value, CallBlock(o.hook1, Clone1(name.id)), CallBlock(o.hook2, Clone2(name.id))))
  }

  function CopyOf(hook: Option<nat>, f: Function): Function
    requires f.body.Plain?
  {
    f.(body := Plain(hook, f.body.code))
  }

  /** A module before the pass: functions have plain code, and their names are not those of copies. */
  ghost predicate Module(p: Program) {
    forall name :: name in p ==>
      name.Original? && p[name].body.Plain? && p[name].body.hook.None? && CallsOriginals(p[name].body.code)
  }

  predicate CallsOriginals(c: Code) {
    match c
    case Skip => true
    case Do(_) => true
    case Then(c1, c2) => CallsOriginals(c1) && CallsOriginals(c2)
    case If(_, yes, no) => CallsOriginals(yes) && CallsOriginals(no)
    case While(_, loop) => CallsOriginals(loop)
    case Call(target, _) => target.Direct? ==> target.name.Original?
  }

  /** The functions of the list that are defined, not skipped and candidates are replaced; the others stay. */
  ghost predicate Transformed(p: Program, q: Program, o: Settings, cloned: set<Name>) {
    && (forall name :: name in p && name !in cloned ==> name in q && q[name] == p[name])
    && (forall name :: name in cloned ==> name in p && p[name].body.Plain? && Expanded(q, o, name, p[name]))
    && (forall name: Name :: name.Original? && name in q ==> name in p)
  }

  ghost predicate Expanded(q: Program, o: Settings, name: Name, f: Function)
    requires f.body.Plain?
  {
    && name in q && q[name] == DispatcherOf(o, name, f)
    && Clone1(name.id) in q && q[Clone1(name.id)] == CopyOf(o.hook1, f)
    && Clone2(name.id) in q && q[Clone2(name.id)] == CopyOf(o.hook2, f)
  }

  method ListFunctions(list: seq<Name>, skip: set<Name>) returns (functions: seq<Name>)
    requires forall i, j :: 0 <= i < j < |list| ==> list[i] != list[j]
    ensures forall name :: name in functions <==> name in list && name !in skip
    ensures forall i, j :: 0 <= i < j < |functions| ==> functions[i] != functions[j]
  {
    functions := [];
    for i := 0 to |list|
      invariant forall name :: name in functions <==> name in list[..i] && name !in skip
      invariant forall a, b :: 0 <= a < b < |functions| ==> functions[a] != functions[b]
    {
      if list[i] !in skip {
        functions := functions + [list[i]];
      }
    }
  }

  function Expand(q: Program, o: Settings, name: Name, f: Function): Program
    requires f.body.Plain?
  {
    q[Clone1(name.id) := CopyOf(o.hook1, f)][Clone2(name.id) := CopyOf(o.hook2, f)][name := DispatcherOf(o, name, f)]
  }

  lemma {:induction false} ExpandedKept(q: Program, o: Settings, x: Name, f: Function, name: Name, g: Function)
    requires x.Original? && name.Original? && x != name && f.body.Plain? && g.body.Plain? && Expanded(q, o, x, f)
    ensures Expanded(Expand(q, o, name, g), o, x, f)
  {
  }

  lemma {:induction false} TransformedNext(p: Program, q: Program, o: Settings, cloned: set<Name>, name: Name)
    requires (forall x :: x in p ==> x.Original?) && name in p && name !in cloned && p[name].body.Plain?
    requires Transformed(p, q, o, cloned)
    ensures Transformed(p, Expand(q, o, name, p[name]), o, cloned + {name})
  {
    forall x | x in cloned ensures Expanded(Expand(q, o, name, p[name]), o, x, p[x]) {
      ExpandedKept(q, o, x, p[x], name, p[name]);
    }
    assert Expanded(Expand(q, o, name, p[name]), o, name, p[name]);
  }

  /** The pass: the functions to look at are listed first, then cloned one after the other. */
  method CloneFunctions(p: Program, list: seq<Name>, skip: set<Name>, candidates: set<Name>, o: Settings)
    returns (q: Program)
    requires Module(p) && (forall i, j :: 0 <= i < j < |list| ==> list[i] != list[j])
    ensures Transformed(p, q, o, set name | name in list && name !in skip && name in candidates && name in p)
  {
    var functions := ListFunctions(list, skip);
    q := p;
    ghost var cloned: set<Name> := {};
    for i := 0 to |functions|
      invariant cloned == set name | name in functions[..i] && name in candidates && name in p
      invariant Transformed(p, q, o, cloned)
    {
      var name := functions[i];
      assert functions[..i+1] == functions[..i] + [name] && name !in functions[..i];
      if name in p && name in candidates {
        var f := q[name];
        TransformedNext(p, q, o, cloned, name);
        q := q[Clone1(name.id) := CopyOf(o.hook1, f)][Clone2(name.id) := CopyOf(o.hook2, f)];
        q := q[name := DispatcherOf(o, name, f)];
        cloned := cloned + {name};
      }
    }
    assert cloned == set name | name in list && name !in skip && name in candidates && name in p;
  }

  // ----- the two programs do the same -----

  function WithoutHooks(trace: seq<Event>): seq<Event> {
    if trace == [] then [] else
    (if trace[0].Hook? then [] else [trace[0]]) + WithoutHooks(trace[1..])
  }

  lemma {:induction false} WithoutHooksAppend(a: seq<Event>, e: Event)
    ensures WithoutHooks(a + [e]) == WithoutHooks(a) + (if e.Hook? then [] else [e])
  {
    if a == [] {
      assert a + [e] == [e] && [e][1..] == [];
    } else {
      WithoutHooksAppend(a[1..], e);
      var t := a + [e];
      assert t[0] == a[0] && t[1..] == a[1..] + [e];
      assert WithoutHooks(t) == (if a[0].Hook? then [] else [a[0]]) + WithoutHooks(a[1..] + [e]);
    }
  }

  /** Equal memory, and the same effects in the same order, hooks apart. */
  ghost predicate Same<G>(w: World<G>, v: World<G>) {
    w.globals == v.globals && WithoutHooks(w.trace) == WithoutHooks(v.trace)
  }

  lemma {:induction false} HookedSame<G>(hook: Option<nat>, w: World<G>)
    ensures Same(w, Hooked(hook, w)) && Hooked(hook, w).seen == w.seen
  {
    if hook.Some? {
      WithoutHooksAppend(w.trace, Hook(hook.value));
    }
  }

  /** Functions with a variable argument list are not cloned. */
  ghost predicate NoVarargs(p: Program, cloned: set<Name>) {
    forall name :: name in cloned && name in p ==> !p[name].vararg
  }

  /** Two outcomes of a call or of a piece of code agree. */
  ghost predicate Agree<T, G>(a: Option<(T, World<G>)>, b: Option<(T, World<G>)>) {
    a.Some? && b.Some? && a.value.0 == b.value.0 && Same(a.value.1, b.value.1)
  }

  function Finish<G, L, V>(m: Machine<G, L, V>, r: Option<(L, World<G>)>): Option<(V, World<G>)> {
    if r.None? then None else Some((m.result(r.value.0), r.value.1))
  }

  lemma {:induction false} FinishAgrees<G, L, V>(m: Machine<G, L, V>, a: Option<(L, World<G>)>, b: Option<(L, World<G>)>)
    requires Agree(a, b)
    ensures Agree(Finish(m, a), Finish(m, b))
  {
  }

  lemma {:induction false} PlainCall<G, L, V>(m: Machine<G, L, V>, p: Program, flag: nat -> int, name: Name, args: seq<V>, w: World<G>, n: nat)
    requires name in p && p[name].body.Plain? && p[name].body.hook.None? && n > 0
    ensures Invoke(m, p, flag, name, args, w, n) ==
      Finish(m, Run(m, p, flag, p[name].body.code, m.frame(Visible(p[name], args)), w, n - 1))
  {
  }

  /** A call of a dispatcher runs the old code of the function, in the frame it had, two steps later. */
  lemma {:induction false} Dispatched<G, L, V>(m: Machine<G, L, V>, q: Program, o: Settings, flag: nat -> int, name: Name, f: Function,
      args: seq<V>, v: World<G>, k: nat) returns (v2: World<G>)
    requires f.body.Plain? && !f.vararg && Expanded(q, o, name, f)
    ensures Same(v, v2)
    ensures Invoke(m, q, flag, name, args, v, k) ==
      if k < 2 then None else Finish(m, Run(m, q, flag, f.body.code, m.frame(Visible(f, args)), v2, k - 2))
  {
    var first := flag(v.seen) != o.value;
    var hook, clone := if first then o.hook1 else o.hook2, if first then Clone1(name.id) else Clone2(name.id);
    var v1 := Hooked(hook, v.(seen := v.seen + 1));
    HookedSame(hook, v.(seen := v.seen + 1));
    HookedSame(hook, v1);
    v2 := Hooked(hook, v1);
    assert Visible(f, Fixed(f, args)) == Visible(f, args);
    if k > 0 {
      assert Invoke(m, q, flag, name, args, v, k) == Invoke(m, q, flag, clone, Fixed(f, args), v1, k - 1);
    }
  }

  /** A call of the original program that returns also returns in the transformed one, with the same result. */
  lemma {:induction false} InvokePreserved<G, L, V>(m: Machine<G, L, V>, p: Program, q: Program, o: Settings, cloned: set<Name>,
      f0: nat -> int, flag: nat -> int, name: Name, args: seq<V>, w: World<G>, v: World<G>, n: nat, k: nat)
    requires Module(p) && Transformed(p, q, o, cloned) && NoVarargs(p, cloned) && Same(w, v)
    requires Invoke(m, p, f0, name, args, w, n).Some? && k >= 2 * n
    ensures Agree(Invoke(m, p, f0, name, args, w, n), Invoke(m, q, flag, name, args, v, k))
    decreases n, 0
  {
    var f := p[name];
    var l := m.frame(Visible(f, args));
    if name in cloned {
      var v2 := Dispatched(m, q, o, flag, name, f, args, v, k);
      RunPreserved(m, p, q, o, cloned, f0, flag, f.body.code, l, w, v2, n - 1, k - 2);
    } else {
      RunPreserved(m, p, q, o, cloned, f0, flag, f.body.code, l, w, v, n - 1, k - 1);
    }
  }

  lemma {:induction false} RunPreserved<G, L, V>(m: Machine<G, L, V>, p: Program, q: Program, o: Settings, cloned: set<Name>,
      f0: nat -> int, flag: nat -> int, c: Code, l: L, w: World<G>, v: World<G>, n: nat, k: nat)
    requires Module(p) && Transformed(p, q, o, cloned) && NoVarargs(p, cloned) && Same(w, v)
    requires Run(m, p, f0, c, l, w, n).Some? && k >= 2 * n
    ensures Agree(Run(m, p, f0, c, l, w, n), Run(m, q, flag, c, l, v, k))
    decreases n, 0
  {
    match c
    case Skip =>
    case Do(op) =>
      WithoutHooksAppend(w.trace, Effect(op));
      WithoutHooksAppend(v.trace, Effect(op));
    case Then(c1, c2) =>
      SequencePreserved(m, p, q, o, cloned, f0, flag, c1, c2, l, w, v, n - 1, k - 1);
    case If(cond, yes, no) =>
      RunPreserved(m, p, q, o, cloned, f0, flag, if m.test(cond, l, w.globals) then yes else no, l, w, v, n - 1, k - 1);
    case While(cond, loop) =>
      if m.test(cond, l, w.globals) {
        SequencePreserved(m, p, q, o, cloned, f0, flag, loop, c, l, w, v, n - 1, k - 1);
      }
    case Call(target, site) =>
      var callee := Callee(m, target, site, l, w.globals);
      InvokePreserved(m, p, q, o, cloned, f0, flag, callee, m.args(site, l, w.globals), w, v, n - 1, k - 1);
  }

  lemma {:induction false} SequencePreserved<G, L, V>(m: Machine<G, L, V>, p: Program, q: Program, o: Settings, cloned: set<Name>,
      f0: nat -> int, flag: nat -> int, c1: Code, c2: Code, l: L, w: World<G>, v: World<G>, n: nat, k: nat)
    requires Module(p) && Transformed(p, q, o, cloned) && NoVarargs(p, cloned) && Same(w, v)
    requires Sequence(m, p, f0, c1, c2, l, w, n).Some? && k >= 2 * n
    ensures Agree(Sequence(m, p, f0, c1, c2, l, w, n), Sequence(m, q, flag, c1, c2, l, v, k))
    decreases n, 1
  {
    RunPreserved(m, p, q, o, cloned, f0, flag, c1, l, w, v, n, k);
    var r, s := Run(m, p, f0, c1, l, w, n), Run(m, q, flag, c1, l, v, k);
    RunPreserved(m, p, q, o, cloned, f0, flag, c2, r.value.0, r.value.1, s.value.1, n, k);
  }

  /** What a function of the module has become. */
  lemma {:induction false} Transforms(p: Program, q: Program, o: Settings, cloned: set<Name>, name: Name)
    requires Module(p) && Transformed(p, q, o, cloned) && NoVarargs(p, cloned) && name.Original? && name in q
    ensures name in p && p[name].body.Plain? && p[name].body.hook.None? && CallsOriginals(p[name].body.code)
    ensures if name in cloned then !p[name].vararg && Expanded(q, o, name, p[name]) else q[name] == p[name]
  {
  }

  /** A call that returns in the transformed program returned in the original one, with the same result. */
  lemma {:induction false} InvokeReflected<G, L, V>(m: Machine<G, L, V>, p: Program, q: Program, o: Settings, cloned: set<Name>,
      f0: nat -> int, flag: nat -> int, name: Name, args: seq<V>, w: World<G>, v: World<G>, n: nat, k: nat)
    requires Module(p) && Transformed(p, q, o, cloned) && NoVarargs(p, cloned) && Same(w, v) && name.Original?
    requires Invoke(m, q, flag, name, args, v, k).Some? && n >= k
    ensures Agree(Invoke(m, p, f0, name, args, w, n), Invoke(m, q, flag, name, args, v, k))
    decreases k, 0
  {
    Transforms(p, q, o, cloned, name);
    var f := p[name];
    var l := m.frame(Visible(f, args));
    PlainCall(m, p, f0, name, args, w, n);
    var k2, v2 := k - 1, v;
    if name in cloned {
      v2 := Dispatched(m, q, o, flag, name, f, args, v, k);
      k2 := k - 2;
    } else {
      PlainCall(m, q, flag, name, args, v, k);
    }
    RunReflected(m, p, q, o, cloned, f0, flag, f.body.code, l, w, v2, n - 1, k2);
    FinishAgrees(m, Run(m, p, f0, f.body.code, l, w, n - 1), Run(m, q, flag, f.body.code, l, v2, k2));
  }

  lemma {:induction false} RunReflected<G, L, V>(m: Machine<G, L, V>, p: Program, q: Program, o: Settings, cloned: set<Name>,
      f0: nat -> int, flag: nat -> int, c: Code, l: L, w: World<G>, v: World<G>, n: nat, k: nat)
    requires Module(p) && Transformed(p, q, o, cloned) && NoVarargs(p, cloned) && Same(w, v) && CallsOriginals(c)
    requires Run(m, q, flag, c, l, v, k).Some? && n >= k
    ensures Agree(Run(m, p, f0, c, l, w, n), Run(m, q, flag, c, l, v, k))
    decreases k, 0
  {
    match c
    case Skip =>
    case Do(op) =>
      WithoutHooksAppend(w.trace, Effect(op));
      WithoutHooksAppend(v.trace, Effect(op));
    case Then(c1, c2) =>
      SequenceReflected(m, p, q, o, cloned, f0, flag, c1, c2, l, w, v, n - 1, k - 1);
    case If(cond, yes, no) =>
      RunReflected(m, p, q, o, cloned, f0, flag, if m.test(cond, l, w.globals) then yes else no, l, w, v, n - 1, k - 1);
    case While(cond, loop) =>
      if m.test(cond, l, w.globals) {
        SequenceReflected(m, p, q, o, cloned, f0, flag, loop, c, l, w, v, n - 1, k - 1);
      }
    case Call(target, site) =>
      var callee := Callee(m, target, site, l, w.globals);
      InvokeReflected(m, p, q, o, cloned, f0, flag, callee, m.args(site, l, w.globals), w, v, n - 1, k - 1);
  }

  lemma {:induction false} SequenceReflected<G, L, V>(m: Machine<G, L, V>, p: Program, q: Program, o: Settings, cloned: set<Name>,
      f0: nat -> int, flag: nat -> int, c1: Code, c2: Code, l: L, w: World<G>, v: World<G>, n: nat, k: nat)
    requires Module(p) && Transformed(p, q, o, cloned) && NoVarargs(p, cloned) && Same(w, v)
    requires CallsOriginals(c1) && CallsOriginals(c2)
    requires Sequence(m, q, flag, c1, c2, l, v, k).Some? && n >= k
    ensures Agree(Sequence(m, p, f0, c1, c2, l, w, n), Sequence(m, q, flag, c1, c2, l, v, k))
    decreases k, 1
  {
    RunReflected(m, p, q, o, cloned, f0, flag, c1, l, w, v, n, k);
    var r, s := Run(m, p, f0, c1, l, w, n), Run(m, q, flag, c1, l, v, k);
    RunReflected(m, p, q, o, cloned, f0, flag, c2, r.value.0, r.value.1, s.value.1, n, k);
  }

  ghost predicate Returns<G, L, V>(m: Machine<G, L, V>, p: Program, flag: nat -> int, name: Name, args: seq<V>, w: World<G>) {
    exists n: nat :: Invoke(m, p, flag, name, args, w, n).Some?
  }

  /** A call returns in one program if and only if it returns in the other, and whenever both have returned
      the results, the memory and the effects are the same. */
  ghost predicate SameMeaning<G, L, V>(m: Machine<G, L, V>, p: Program, q: Program, f0: nat -> int, flag: nat -> int,
      name: Name, args: seq<V>, w: World<G>)
  {
    && (Returns(m, p, f0, name, args, w) <==> Returns(m, q, flag, name, args, w))
    && forall n: nat, k: nat :: Invoke(m, p, f0, name, args, w, n).Some? && Invoke(m, q, flag, name, args, w, k).Some? ==>
         Agree(Invoke(m, p, f0, name, args, w, n), Invoke(m, q, flag, name, args, w, k))
  }

  /** Cloning changes no meaning, for every machine and every two histories of the flag. */
  lemma {:induction false} CloningPreservesMeaning<G, L, V>(m: Machine<G, L, V>, p: Program, q: Program, o: Settings, cloned: set<Name>,
      f0: nat -> int, flag: nat -> int, name: Name, args: seq<V>, w: World<G>)
    requires Module(p) && Transformed(p, q, o, cloned) && NoVarargs(p, cloned) && name.Original?
    ensures SameMeaning(m, p, q, f0, flag, name, args, w)
  {
    if n: nat :| Invoke(m, p, f0, name, args, w, n).Some? {
      InvokePreserved(m, p, q, o, cloned, f0, flag, name, args, w, w, n, 2 * n);
    }
    if k: nat :| Invoke(m, q, flag, name, args, w, k).Some? {
      InvokeReflected(m, p, q, o, cloned, f0, flag, name, args, w, w, k, k);
    }
    forall n: nat, k: nat | Invoke(m, p, f0, name, args, w, n).Some? && Invoke(m, q, flag, name, args, w, k).Some?
      ensures Agree(Invoke(m, p, f0, name, args, w, n), Invoke(m, q, flag, name, args, w, k))
    {
      InvokePreserved(m, p, p, o, {}, f0, f0, name, args, w, w, n, 2 * n + k);
      InvokeReflected(m, p, q, o, cloned, f0, flag, name, args, w, w, 2 * n + k, k);
    }
  }

  // ----- which copy runs -----

  /** The world in which a hook, if there is one, has just run. */
  ghost predicate AfterHook<G>(hook: Option<nat>, w: World<G>, v: World<G>) {
    v.globals == w.globals && v.seen == w.seen && v.trace == if hook.Some? then w.trace + [Hook(hook.value)] else w.trace
  }

  /** A call of a cloned function reads the flag once. If the flag differs from the value, the first hook runs and then the
      first copy; if it is equal, the second hook and the second copy. */
  lemma {:induction false} FlagChooses<G, L, V>(m: Machine<G, L, V>, p: Program, q: Program, o: Settings, cloned: set<Name>,
      flag: nat -> int, name: Name, args: seq<V>, w: World<G>, v: World<G>, k: nat)
    requires Module(p) && Transformed(p, q, o, cloned) && name in cloned
    requires AfterHook(if flag(w.seen) != o.value then o.hook1 else o.hook2, w.(seen := w.seen + 1), v)
    ensures flag(w.seen) != o.value ==>
              Invoke(m, q, flag, name, args, w, k + 1) == Invoke(m, q, flag, Clone1(name.id), Fixed(p[name], args), v, k)
    ensures flag(w.seen) == o.value ==>
              Invoke(m, q, flag, name, args, w, k + 1) == Invoke(m, q, flag, Clone2(name.id), Fixed(p[name], args), v, k)
  {
  }

  /** Either copy runs its own hook once more, and then the code that the function had. */
  lemma {:induction false} CopyRuns<G, L, V>(m: Machine<G, L, V>, p: Program, q: Program, o: Settings, cloned: set<Name>,
      flag: nat -> int, name: Name, first: bool, args: seq<V>, w: World<G>, v: World<G>, k: nat)
    requires Module(p) && Transformed(p, q, o, cloned) && name in cloned
    requires AfterHook(if first then o.hook1 else o.hook2, w, v)
    ensures var copy := if first then Clone1(name.id) else Clone2(name.id);
            Invoke(m, q, flag, copy, args, w, k + 1) ==
            Finish(m, Run(m, q, flag, p[name].body.code, m.frame(Visible(p[name], args)), v, k))
  {
  }

  function HooksOf(trace: seq<Event>): seq<nat> {
    if trace == [] then [] else
    HooksOf(trace[..|trace|-1]) + if trace[|trace|-1].Hook? then [trace[|trace|-1].hook] else []
  }

  lemma {:induction false} HooksAppend(trace: seq<Event>, e: Event)
    ensures HooksOf(trace + [e]) == HooksOf(trace) + if e.Hook? then [e.hook] else []
  {
    assert (trace + [e])[..|trace|] == trace;
  }

  function One(hook: Option<nat>): seq<nat> {
    if hook.Some? then [hook.value] else []
  }

  /** The hook that belongs to a value of the flag, twice: before the copy is called, and when it starts. */
  function Twice(o: Settings, seen: int): seq<nat> {
    var hook := if seen != o.value then o.hook1 else o.hook2;
    One(hook) + One(hook)
  }

  /** What the reads of the flag from the a-th up to the b-th ask for. */
  function HooksFor(o: Settings, flag: nat -> int, a: nat, b: nat): seq<nat>
    decreases b
  {
    if a >= b then [] else HooksFor(o, flag, a, b - 1) + Twice(o, flag(b - 1))
  }

  lemma {:induction false} HooksForJoin(o: Settings, flag: nat -> int, a: nat, b: nat, c: nat)
    requires a <= b <= c
    ensures HooksFor(o, flag, a, c) == HooksFor(o, flag, a, b) + HooksFor(o, flag, b, c)
    decreases c
  {
    if b < c {
      HooksForJoin(o, flag, a, b, c - 1);
    }
  }

  /** Between two worlds the hooks ran that the reads of the flag in between ask for, in the order of the reads. */
  ghost predicate HooksRan<G>(o: Settings, flag: nat -> int, w: World<G>, v: World<G>) {
    w.seen <= v.seen && HooksOf(v.trace) == HooksOf(w.trace) + HooksFor(o, flag, w.seen, v.seen)
  }

  lemma {:induction false} HooksRanJoin<G>(o: Settings, flag: nat -> int, u: World<G>, w: World<G>, v: World<G>)
    requires HooksRan(o, flag, u, w) && HooksRan(o, flag, w, v)
    ensures HooksRan(o, flag, u, v)
  {
    HooksForJoin(o, flag, u.seen, w.seen, v.seen);
  }

  lemma {:induction false} HooksAfter<G>(hook: Option<nat>, w: World<G>, v: World<G>)
    requires AfterHook(hook, w, v)
    ensures HooksOf(v.trace) == HooksOf(w.trace) + One(hook)
  {
    if hook.Some? {
      HooksAppend(w.trace, Hook(hook.value));
    }
  }

  lemma {:induction false} HooksForOne(o: Settings, flag: nat -> int, a: nat)
    ensures HooksFor(o, flag, a, a + 1) == Twice(o, flag(a))
  {
    assert HooksFor(o, flag, a, a) == [];
  }

  lemma {:induction false} AppendTwice(s: seq<nat>, x: seq<nat>)
    ensures s + x + x == s + (x + x)
  {
  }

  lemma {:induction false} HookedTwice<G>(o: Settings, flag: nat -> int, w: World<G>, v: World<G>, v2: World<G>)
    requires var hook := if flag(w.seen) != o.value then o.hook1 else o.hook2;
             AfterHook(hook, w.(seen := w.seen + 1), v) && AfterHook(hook, v, v2)
    ensures HooksRan(o, flag, w, v2)
  {
    var hook := if flag(w.seen) != o.value then o.hook1 else o.hook2;
    HooksAfter(hook, w.(seen := w.seen + 1), v);
    HooksAfter(hook, v, v2);
    HooksForOne(o, flag, w.seen);
    AppendTwice(HooksOf(w.trace), One(hook));
  }

  /** Over every call that returns: each read of the flag runs the hook of the copy that it chooses, before the copy is
      called and when it starts, and nothing else runs a hook. */
  lemma {:induction false} InvokeHooks<G, L, V>(m: Machine<G, L, V>, p: Program, q: Program, o: Settings, cloned: set<Name>,
      flag: nat -> int, name: Name, args: seq<V>, w: World<G>, k: nat)
    requires Module(p) && Transformed(p, q, o, cloned) && name.Original?
    requires Invoke(m, q, flag, name, args, w, k).Some?
    ensures HooksRan(o, flag, w, Invoke(m, q, flag, name, args, w, k).value.1)
    decreases k, 0
  {
    assert name in p && CallsOriginals(p[name].body.code);
    var f := p[name];
    if name in cloned {
      var first := flag(w.seen) != o.value;
      var hook := if first then o.hook1 else o.hook2;
      var v := Hooked(hook, w.(seen := w.seen + 1));
      var v2 := Hooked(hook, v);
      var l := m.frame(Visible(f, Fixed(f, args)));
      FlagChooses(m, p, q, o, cloned, flag, name, args, w, v, k - 1);
      assert k > 1;
      CopyRuns(m, p, q, o, cloned, flag, name, first, Fixed(f, args), v, v2, k - 2);
      RunHooks(m, p, q, o, cloned, flag, f.body.code, l, v2, k - 2);
      HookedTwice(o, flag, w, v, v2);
      HooksRanJoin(o, flag, w, v2, Run(m, q, flag, f.body.code, l, v2, k - 2).value.1);
    } else {
      RunHooks(m, p, q, o, cloned, flag, f.body.code, m.frame(Visible(f, args)), w, k - 1);
    }
  }

  lemma {:induction false} RunHooks<G, L, V>(m: Machine<G, L, V>, p: Program, q: Program, o: Settings, cloned: set<Name>,
      flag: nat -> int, c: Code, l: L, w: World<G>, k: nat)
    requires Module(p) && Transformed(p, q, o, cloned) && CallsOriginals(c)
    requires Run(m, q, flag, c, l, w, k).Some?
    ensures HooksRan(o, flag, w, Run(m, q, flag, c, l, w, k).value.1)
    decreases k, 0
  {
    match c
    case Skip =>
    case Do(op) => HooksAppend(w.trace, Effect(op));
    case Then(c1, c2) => SequenceHooks(m, p, q, o, cloned, flag, c1, c2, l, w, k - 1);
    case If(cond, yes, no) =>
      RunHooks(m, p, q, o, cloned, flag, if m.test(cond, l, w.globals) then yes else no, l, w, k - 1);
    case While(cond, loop) =>
      if m.test(cond, l, w.globals) {
        SequenceHooks(m, p, q, o, cloned, flag, loop, c, l, w, k - 1);
      }
    case Call(target, site) =>
      var callee := Callee(m, target, site, l, w.globals);
      InvokeHooks(m, p, q, o, cloned, flag, callee, m.args(site, l, w.globals), w, k - 1);
  }

  lemma {:induction false} SequenceHooks<G, L, V>(m: Machine<G, L, V>, p: Program, q: Program, o: Settings, cloned: set<Name>,
      flag: nat -> int, c1: Code, c2: Code, l: L, w: World<G>, k: nat)
    requires Module(p) && Transformed(p, q, o, cloned) && CallsOriginals(c1) && CallsOriginals(c2)
    requires Sequence(m, q, flag, c1, c2, l, w, k).Some?
    ensures HooksRan(o, flag, w, Sequence(m, q, flag, c1, c2, l, w, k).value.1)
    decreases k, 1
  {
    RunHooks(m, p, q, o, cloned, flag, c1, l, w, k);
    var r := Run(m, q, flag, c1, l, w, k);
    RunHooks(m, p, q, o, cloned, flag, c2, r.value.0, r.value.1, k);
    HooksRanJoin(o, flag, w, r.value.1, Sequence(m, q, flag, c1, c2, l, w, k).value.1);
  }

  // ----- variable argument lists -----

  /** A machine whose functions return the number of their arguments. */
  const COUNTING: Machine<int, seq<int>, int> := Machine(
    (op: nat, l: seq<int>, g: int) => (l, g),
    (c: nat, l: seq<int>, g: int) => false,
    (s: nat, l: seq<int>, g: int) => [],
    (s: nat, l: seq<int>, g: int) => 0,
    (s: nat, l: seq<int>, v: int) => l,
    (args: seq<int>) => args,
    (l: seq<int>) => |l|)

  function Alone(f: Function): Program {
    map[Original(0) := f]
  }

  function AloneCloned(f: Function, o: Settings): Program
    requires f.body.Plain?
  {
    Expand(map[], o, Original(0), f)
  }

  /** A variadic function that returns the number of its arguments returns the number of its fixed parameters once it is
      cloned, whatever those are, and whatever the hooks and the flag. */
  lemma {:induction false} VarargLosesArguments(params: nat, o: Settings, f0: nat -> int, flag: nat -> int, args: seq<int>, w: World<int>)
    requires |args| > params
    ensures var f := Function(params, true, Plain(None, Skip));
            && Module(Alone(f)) && Transformed(Alone(f), AloneCloned(f, o), o, {Original(0)})
            && Invoke(COUNTING, Alone(f), f0, Original(0), args, w, 3) == Some((|args|, w))
            && Invoke(COUNTING, AloneCloned(f, o), flag, Original(0), args, w, 3).Some?
            && Invoke(COUNTING, AloneCloned(f, o), flag, Original(0), args, w, 3).value.0 == params
  {
    var f := Function(params, true, Plain(None, Skip));
    var q := AloneCloned(f, o);
    var first := flag(w.seen) != o.value;
    var hook, clone := if first then o.hook1 else o.hook2, if first then Clone1(0) else Clone2(0);
    var v1 := Hooked(hook, w.(seen := w.seen + 1));
    assert Invoke(COUNTING, q, flag, Original(0), args, w, 3) == Invoke(COUNTING, q, flag, clone, Fixed(f, args), v1, 2);
    assert Run(COUNTING, q, flag, Skip, Fixed(f, args), Hooked(hook, v1), 1) == Some((Fixed(f, args), Hooked(hook, v1)));
    assert Run(COUNTING, Alone(f), f0, Skip, args, w, 2) == Some((args, w));
  }

  /** Only the function `name`, of the given signature, is cloned. */
  ghost predicate ClonedAlone(p: Program, q: Program, o: Settings, name: Name, params: nat, vararg: bool) {
    Module(p) && Transformed(p, q, o, {name}) && name in p && p[name].params == params && p[name].vararg == vararg
  }

  /** Cloning a function of this signature changes no meaning, whatever the program, its code, the settings, the machine
      and the flag. */
  ghost predicate SafeSignature(params: nat, vararg: bool) {
    forall m: Machine<int, seq<int>, int>, p, q, o, name, f0, flag, callee: Name, args, w ::
      ClonedAlone(p, q, o, name, params, vararg) && callee.Original? ==> SameMeaning(m, p, q, f0, flag, callee, args, w)
  }

  lemma {:induction false} SignatureSafeIff(params: nat, vararg: bool)
    ensures SafeSignature(params, vararg) <==> !vararg
  {
    if vararg {
      var f := Function(params, true, Plain(None, Skip));
      var o, flag, w := Settings(0, None, None), (i: nat) => 0, World(0, [], 0);
      var args: seq<int> := seq(params + 1, i => 0);
      VarargLosesArguments(params, o, flag, flag, args, w);
      var p, q := Alone(f), AloneCloned(f, o);
      assert ClonedAlone(p, q, o, Original(0), params, vararg);
      assert !Agree(Invoke(COUNTING, p, flag, Original(0), args, w, 3), Invoke(COUNTING, q, flag, Original(0), args, w, 3));
      assert !SameMeaning(COUNTING, p, q, flag, flag, Original(0), args, w);
    } else {
      forall m: Machine<int, seq<int>, int>, p, q, o, name, f0, flag, callee: Name, args, w
        | ClonedAlone(p, q, o, name, params, vararg) && callee.Original?
        ensures SameMeaning(m, p, q, f0, flag, callee, args, w)
      {
        CloningPreservesMeaning(m, p, q, o, {name}, f0, flag, callee, args, w);
      }
    }
  }
}
