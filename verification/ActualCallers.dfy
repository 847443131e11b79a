/** The inverse call graph: for every function, the call sites that may call it and the functions they are in. */
module ActualCallers {
  import CallStacks

  type Fn = nat

  /** A call site, and the function it is in. */
  datatype Site = Site(caller: Fn, id: nat)

  /** A call site of a function, with the functions that the callee analysis gives for it. */
  datatype Call = Call(id: nat, callees: seq<Fn>)

  datatype Function = Function(fn: Fn, intrinsic: bool, calls: seq<Call>)

  /** A callee and a site that may call it. */
  type Edge = (Fn, Site)

  // ----- what there is to record -----

  function CallEdges(fn: Fn, call: Call, n: nat): seq<Edge>
    requires n <= |call.callees|
  {
    if n == 0 then [] else CallEdges(fn, call, n - 1) + [(call.callees[n-1], Site(fn, call.id))]
  }

  function FunctionEdges(f: Function, n: nat): seq<Edge>
    requires n <= |f.calls|
  {
    if n == 0 then [] else FunctionEdges(f, n - 1) + CallEdges(f.fn, f.calls[n-1], |f.calls[n-1].callees|)
  }

  function EdgesOf(f: Function): seq<Edge> {
    if f.intrinsic then [] else FunctionEdges(f, |f.calls|)
  }

  function ModuleEdges(m: seq<Function>): seq<Edge> {
    if m == [] then [] else ModuleEdges(m[..|m|-1]) + EdgesOf(m[|m|-1])
  }

  /** A function has a call that may call `callee`. */
  ghost predicate MayCall(f: Function, callee: Fn) {
    !f.intrinsic && exists j :: 0 <= j < |f.calls| && callee in f.calls[j].callees
  }

  ghost predicate Calls(m: seq<Function>, caller: Fn, callee: Fn) {
    exists i :: 0 <= i < |m| && m[i].fn == caller && MayCall(m[i], callee)
  }

  /** The sites of a callee, in the order in which they were recorded. */
  function SitesOf(edges: seq<Edge>, callee: Fn): seq<Site> {
    if edges == [] then []
    else
      var before, last := SitesOf(edges[..|edges|-1], callee), edges[|edges|-1];
      if last.0 == callee then before + [last.1] else before
  }

  lemma {:induction false} SitesOfMember(edges: seq<Edge>, callee: Fn, s: Site)
    ensures s in SitesOf(edges, callee) <==> (callee, s) in edges
  {
    if edges != [] {
      SitesOfMember(edges[..|edges|-1], callee, s);
      assert edges == edges[..|edges|-1] + [edges[|edges|-1]];
    }
  }

  /** Some site of `caller` is recorded for `callee`. */
  ghost predicate HasEdge(edges: seq<Edge>, caller: Fn, callee: Fn) {
    exists e :: e in edges && e.0 == callee && e.1.caller == caller
  }

  lemma {:induction false} CallEdgesHave(fn: Fn, call: Call, n: nat, caller: Fn, callee: Fn)
    requires n <= |call.callees|
    ensures HasEdge(CallEdges(fn, call, n), caller, callee) <==> fn == caller && callee in call.callees[..n]
  {
    if n > 0 {
      var last := [(call.callees[n-1], Site(fn, call.id))];
      CallEdgesHave(fn, call, n - 1, caller, callee);
      assert call.callees[..n] == call.callees[..n-1] + [call.callees[n-1]];
      assert last[0] in last;
    }
  }

  lemma {:induction false} FunctionEdgesHave(f: Function, n: nat, caller: Fn, callee: Fn)
    requires n <= |f.calls|
    ensures HasEdge(FunctionEdges(f, n), caller, callee) <==> f.fn == caller && exists j :: 0 <= j < n && callee in f.calls[j].callees
  {
    if n > 0 {
      var call := f.calls[n-1];
      FunctionEdgesHave(f, n - 1, caller, callee);
      CallEdgesHave(f.fn, call, |call.callees|, caller, callee);
      assert call.callees[..|call.callees|] == call.callees;
    }
  }

  lemma {:induction false} EdgesOfHave(f: Function, caller: Fn, callee: Fn)
    ensures HasEdge(EdgesOf(f), caller, callee) <==> f.fn == caller && MayCall(f, callee)
  {
    FunctionEdgesHave(f, |f.calls|, caller, callee);
  }

  lemma {:induction false} ModuleEdgesHave(m: seq<Function>, caller: Fn, callee: Fn)
    ensures HasEdge(ModuleEdges(m), caller, callee) <==> Calls(m, caller, callee)
  {
    if m != [] {
      var before, f := m[..|m|-1], m[|m|-1];
      ModuleEdgesHave(before, caller, callee);
      EdgesOfHave(f, caller, callee);
    }
  }

  // ----- recording it -----

  class CallerMaps {
    var sites: map<Fn, seq<Site>>
    var callers: map<Fn, set<Fn>>

    /** Both maps hold exactly what the edges say. */
    ghost predicate Holds(edges: seq<Edge>)
      reads this
    {
      && sites.Keys == callers.Keys
      && (forall f :: f in sites <==> SitesOf(edges, f) != [])
      && (forall f :: f in sites ==> sites[f] == SitesOf(edges, f) && callers[f] == set s | s in sites[f] :: s.caller)
    }

    method AddActualCaller(f: Fn, site: Site, ghost edges: seq<Edge>)
      requires Holds(edges)
      modifies this
      ensures Holds(edges + [(f, site)])
    {
      ghost var more := edges + [(f, site)];
      assert more[..|more|-1] == edges;
      if f !in sites {
        sites := sites[f := [site]];
        callers := callers[f := {site.caller}];
        return;
      }
      sites := sites[f := sites[f] + [site]];
      callers := callers[f := callers[f] + {site.caller}];
    }

    /** Fetched once: a second call finds the maps filled. */
    method FetchActualCallers(m: seq<Function>)
      requires Holds([]) || Holds(ModuleEdges(m))
      modifies this
      ensures Holds(ModuleEdges(m))
    {
      if |sites| > 0 {
        return;
      }
      sites, callers := map[], map[];
      for i := 0 to |m|
        invariant Holds(ModuleEdges(m[..i]))
      {
        assert m[..i+1][..i] == m[..i];
        Record(m[i], ModuleEdges(m[..i]));
      }
      assert m[..|m|] == m;
    }

    method Record(f: Function, ghost edges: seq<Edge>)
      requires Holds(edges)
      modifies this
      ensures Holds(edges + EdgesOf(f))
    {
      assert edges + [] == edges;
      if f.intrinsic {
        return;
      }
      for j := 0 to |f.calls|
        invariant Holds(edges + FunctionEdges(f, j))
      {
        RecordCall(f.fn, f.calls[j], edges + FunctionEdges(f, j));
        assert edges + FunctionEdges(f, j) + CallEdges(f.fn, f.calls[j], |f.calls[j].callees|) == edges + FunctionEdges(f, j + 1);
      }
    }

    method RecordCall(fn: Fn, call: Call, ghost edges: seq<Edge>)
      requires Holds(edges)
      modifies this
      ensures Holds(edges + CallEdges(fn, call, |call.callees|))
    {
      assert edges + [] == edges;
      for k := 0 to |call.callees|
        invariant Holds(edges + CallEdges(fn, call, k))
      {
        AddActualCaller(call.callees[k], Site(fn, call.id), edges + CallEdges(fn, call, k));
        assert edges + CallEdges(fn, call, k) + [(call.callees[k], Site(fn, call.id))] == edges + CallEdges(fn, call, k + 1);
      }
    }

    /** The caller sets are the inverse of the call relation, for every pair of functions. */
    lemma {:induction false} CallersExact(m: seq<Function>, caller: Fn, callee: Fn)
      requires Holds(ModuleEdges(m))
      ensures callee in callers && caller in callers[callee] <==> Calls(m, caller, callee)
    {
      var edges := ModuleEdges(m);
      ModuleEdgesHave(m, caller, callee);
      if callee in callers && caller in callers[callee] {
        var s :| s in sites[callee] && s.caller == caller;
        SitesOfMember(edges, callee, s);
        assert (callee, s) in edges;
      }
      if HasEdge(edges, caller, callee) {
        var e :| e in edges && e.0 == callee && e.1.caller == caller;
        SitesOfMember(edges, callee, e.1);
        assert e == (callee, e.1);
      }
    }
  }

  // ----- call stacks over the recorded callers -----

  /** Each function of the chain may call the next one. */
  ghost predicate CallChain(m: seq<Function>, p: seq<Fn>) {
    p != [] && forall i, j :: 0 <= i && j == i + 1 && j < |p| ==> Calls(m, p[i], p[j])
  }

  /** `x` is `f`, or calls it through others; a limit bounds the length of the chain. */
  ghost predicate CallsTransitively(m: seq<Function>, x: Fn, f: Fn, limit: nat) {
    exists p :: CallChain(m, p) && p[0] == x && p[|p|-1] == f && (limit == 0 || |p| <= limit)
  }

  /** The graph lists the caller sets. */
  ghost predicate Lists(g: CallStacks.Graph, callers: map<Fn, set<Fn>>) {
    g.Keys == callers.Keys && forall f :: f in g ==> forall c :: c in g[f] <==> c in callers[f]
  }

  lemma {:induction false} ReachesIsCalls(maps: CallerMaps, m: seq<Function>, g: CallStacks.Graph, x: Fn, f: Fn, limit: nat)
    requires maps.Holds(ModuleEdges(m)) && Lists(g, maps.callers)
    ensures CallStacks.Reaches(g, x, f, limit) <==> CallsTransitively(m, x, f, limit)
  {
    forall a, b ensures a in CallStacks.Callers(g, b) <==> Calls(m, a, b) {
      maps.CallersExact(m, a, b);
    }
    forall p ensures CallStacks.Path(g, p) <==> CallChain(m, p) {
    }
  }

  method InOrder(fs: set<Fn>) returns (s: seq<Fn>)
    ensures forall f :: f in s <==> f in fs
  {
    s := [];
    var todo := fs;
    while todo != {}
      invariant forall f :: f in fs <==> f in s || f in todo
      decreases todo
    {
      var f :| f in todo;
      s, todo := s + [f], todo - {f};
    }
  }

  method ListCallers(callers: map<Fn, set<Fn>>) returns (g: CallStacks.Graph)
    ensures Lists(g, callers)
  {
    g := map[];
    var todo := callers.Keys;
    while todo != {}
      invariant todo <= callers.Keys && g.Keys == callers.Keys - todo
      invariant forall f :: f in g ==> forall c :: c in g[f] <==> c in callers[f]
      decreases todo
    {
      var f :| f in todo;
      var cs := InOrder(callers[f]);
      g, todo := g[f := cs], todo - {f};
    }
  }

  /** getCallStacksFunctions on the callers of a module: adds exactly the function and those that call it, directly or
      through others, by the calls of the module. */
  method CallingFunctions(maps: CallerMaps, m: seq<Function>, f: Fn, functions: set<Fn>, limit: nat) returns (r: set<Fn>)
    requires maps.Holds([]) || maps.Holds(ModuleEdges(m))
    modifies maps
    ensures maps.Holds(ModuleEdges(m))
    ensures forall x :: x in r <==> x in functions || CallsTransitively(m, x, f, limit)
  {
    maps.FetchActualCallers(m);
    var g := ListCallers(maps.callers);
    var finder := new CallStacks.Finder(g);
    ghost var nodes := {f} + set k, c | k in g && c in g[k] :: c;
    r := finder.GetCallStacksFunctions(nodes, f, functions, limit);
    forall x ensures CallStacks.Reaches(g, x, f, limit) <==> CallsTransitively(m, x, f, limit) {
      ReachesIsCalls(maps, m, g, x, f, limit);
    }
  }
}
