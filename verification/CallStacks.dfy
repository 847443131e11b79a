/**
 Call stacks in the inverse call graph: a function's callers are followed upwards until there are none, a function
 repeats, or a limit is reached. The functions on the stacks are the function and its transitive callers.
 */
module CallStacks {

  type Fn = nat

  type Stack = seq<Fn>

  /** The callers of every function, in the order in which the caller sets are walked. */
  type Graph = map<Fn, seq<Fn>>

  function Callers(g: Graph, f: Fn): seq<Fn> {
    if f in g then g[f] else []
  }

  /** A set of functions that is closed under callers. */
  ghost predicate Closed(g: Graph, nodes: set<Fn>) {
    forall f, c :: f in nodes && c in Callers(g, f) ==> c in nodes
  }

  predicate Stops(g: Graph, f: Fn, visited: set<Fn>, limit: nat) {
    Callers(g, f) == [] || f in visited || (limit != 0 && limit == |visited| + 1)
  }

  function PushAll(stacks: seq<Stack>, f: Fn): (r: seq<Stack>)
    ensures |r| == |stacks| && forall i :: 0 <= i < |r| ==> r[i] == stacks[i] + [f]
  {
    seq(|stacks|, (i: nat) requires i < |stacks| => stacks[i] + [f])
  }

  function Stacks(g: Graph, ghost nodes: set<Fn>, f: Fn, visited: set<Fn>, limit: nat): seq<Stack>
    requires Closed(g, nodes) && f in nodes
    decreases nodes - visited, 0
  {
    if Stops(g, f, visited, limit) then [[f]]
    else
      assert f in nodes - visited && f !in nodes - (visited + {f});
      PushAll(StacksOf(g, nodes, Callers(g, f), visited + {f}, limit), f)
  }

  function StacksOf(g: Graph, ghost nodes: set<Fn>, fs: seq<Fn>, visited: set<Fn>, limit: nat): seq<Stack>
    requires Closed(g, nodes) && forall f :: f in fs ==> f in nodes
    decreases nodes - visited, |fs|
  {
    if fs == [] then [] else Stacks(g, nodes, fs[0], visited, limit) + StacksOf(g, nodes, fs[1..], visited, limit)
  }

  // ----- the stacks are paths -----

  /** Each function is called by the one before it. */
  ghost predicate Path(g: Graph, p: Stack) {
    && p != []
    && forall i, j :: 0 <= i && j == i + 1 && j < |p| ==> p[i] in Callers(g, p[j])
  }

  ghost predicate EndsIn(p: Stack, f: Fn) {
    p != [] && p[|p|-1] == f
  }

  /** A stack of `f` on top of the visited functions is a path that ends in `f`, and respects the limit. */
  ghost predicate GoodStack(g: Graph, f: Fn, visited: set<Fn>, limit: nat, p: Stack) {
    Path(g, p) && EndsIn(p, f) && (limit > |visited| ==> |p| + |visited| <= limit)
  }

  lemma {:induction false} StacksAreGood(g: Graph, nodes: set<Fn>, f: Fn, visited: set<Fn>, limit: nat)
    requires Closed(g, nodes) && f in nodes
    ensures forall p :: p in Stacks(g, nodes, f, visited, limit) ==> GoodStack(g, f, visited, limit, p)
    decreases nodes - visited, 0
  {
    if !Stops(g, f, visited, limit) {
      assert f in nodes - visited && f !in nodes - (visited + {f});
      var nested := StacksOf(g, nodes, Callers(g, f), visited + {f}, limit);
      StacksOfAreGood(g, nodes, Callers(g, f), visited + {f}, limit);
      forall p | p in PushAll(nested, f) ensures GoodStack(g, f, visited, limit, p) {
        var i :| 0 <= i < |nested| && p == nested[i] + [f];
        assert nested[i] in nested;
      }
    }
  }

  lemma {:induction false} StacksOfAreGood(g: Graph, nodes: set<Fn>, fs: seq<Fn>, visited: set<Fn>, limit: nat)
    requires Closed(g, nodes) && forall f :: f in fs ==> f in nodes
    ensures forall p :: p in StacksOf(g, nodes, fs, visited, limit) ==> p != [] && p[|p|-1] in fs && GoodStack(g, p[|p|-1], visited, limit, p)
    decreases nodes - visited, |fs|
  {
    if fs != [] {
      StacksAreGood(g, nodes, fs[0], visited, limit);
      StacksOfAreGood(g, nodes, fs[1..], visited, limit);
    }
  }

  // ----- and they reach every transitive caller -----

  ghost predicate Suffix(p: Stack, s: Stack) {
    |p| <= |s| && s[|s|-|p|..] == p
  }

  ghost predicate Simple(p: Stack) {
    forall i, j :: 0 <= i < j < |p| ==> p[i] != p[j]
  }

  lemma {:induction false} SomeStack(g: Graph, nodes: set<Fn>, f: Fn, visited: set<Fn>, limit: nat)
    requires Closed(g, nodes) && f in nodes
    ensures Stacks(g, nodes, f, visited, limit) != []
    decreases nodes - visited
  {
    if !Stops(g, f, visited, limit) {
      assert f in nodes - visited && f !in nodes - (visited + {f});
      SomeStack(g, nodes, Callers(g, f)[0], visited + {f}, limit);
    }
  }

  lemma {:induction false} StacksOfHas(g: Graph, nodes: set<Fn>, fs: seq<Fn>, visited: set<Fn>, limit: nat, f: Fn)
    requires Closed(g, nodes) && (forall x :: x in fs ==> x in nodes) && f in fs
    ensures forall p :: p in Stacks(g, nodes, f, visited, limit) ==> p in StacksOf(g, nodes, fs, visited, limit)
    decreases |fs|
  {
    if fs[0] != f {
      StacksOfHas(g, nodes, fs[1..], visited, limit, f);
    }
  }

  /** A stack of a caller, with the function on it, is a stack of the function. */
  lemma {:induction false} StackLifted(g: Graph, nodes: set<Fn>, f: Fn, visited: set<Fn>, limit: nat, c: Fn, t: Stack)
    requires Closed(g, nodes) && f in nodes && c in Callers(g, f) && !Stops(g, f, visited, limit)
    requires t in Stacks(g, nodes, c, visited + {f}, limit)
    ensures t + [f] in Stacks(g, nodes, f, visited, limit)
  {
    StacksOfHas(g, nodes, Callers(g, f), visited + {f}, limit, c);
    var nested := StacksOf(g, nodes, Callers(g, f), visited + {f}, limit);
    var i :| 0 <= i < |nested| && nested[i] == t;
    assert PushAll(nested, f)[i] == t + [f];
  }

  lemma {:induction false} StackOfOne(g: Graph, nodes: set<Fn>, f: Fn, visited: set<Fn>, limit: nat) returns (s: Stack)
    requires Closed(g, nodes) && f in nodes
    ensures s in Stacks(g, nodes, f, visited, limit) && Suffix([f], s)
  {
    SomeStack(g, nodes, f, visited, limit);
    StacksAreGood(g, nodes, f, visited, limit);
    s := Stacks(g, nodes, f, visited, limit)[0];
    assert GoodStack(g, f, visited, limit, s);
  }

  lemma {:induction false} PathInit(g: Graph, p: Stack)
    requires Path(g, p) && Simple(p) && |p| > 1
    ensures var q := p[..|p|-1];
            p == q + [p[|p|-1]] && Path(g, q) && Simple(q) && EndsIn(q, p[|p|-2]) && p[|p|-1] !in q && p[|p|-2] in Callers(g, p[|p|-1])
    ensures p[|p|-1] in p && forall x :: x in p[..|p|-1] ==> x in p
  {
  }

  /** A path without repetitions that avoids the visited functions and respects the limit is the end of some stack. */
  lemma {:induction false} SimplePathsFound(g: Graph, nodes: set<Fn>, f: Fn, visited: set<Fn>, limit: nat, p: Stack) returns (s: Stack)
    requires Closed(g, nodes) && f in nodes && Path(g, p) && EndsIn(p, f) && Simple(p) && forall x :: x in p ==> x !in visited
    requires limit == 0 || |p| + |visited| <= limit
    ensures s in Stacks(g, nodes, f, visited, limit) && Suffix(p, s)
    decreases |p|
  {
    if |p| == 1 {
      assert p == [f];
      s := StackOfOne(g, nodes, f, visited, limit);
    } else {
      PathInit(g, p);
      var q, c := p[..|p|-1], p[|p|-2];
      var t := SimplePathsFound(g, nodes, c, visited + {f}, limit, q);
      StackLifted(g, nodes, f, visited, limit, c, t);
      s := t + [f];
    }
  }

  /** `f` is `h` or a transitive caller of it, over at most `limit` functions if there is a limit. */
  ghost predicate Reaches(g: Graph, f: Fn, h: Fn, limit: nat) {
    exists p :: Path(g, p) && p[0] == f && EndsIn(p, h) && (limit == 0 || |p| <= limit)
  }

  /** A path can be shortened until no function repeats. */
  lemma {:induction false} MakeSimple(g: Graph, p: Stack) returns (q: Stack)
    requires Path(g, p)
    ensures Path(g, q) && Simple(q) && q[0] == p[0] && q[|q|-1] == p[|p|-1] && |q| <= |p|
    decreases |p|
  {
    if i, j :| 0 <= i < j < |p| && p[i] == p[j] {
      var r := p[..i] + p[j..];
      forall a, b | 0 <= a && b == a + 1 && b < |r| ensures r[a] in Callers(g, r[b]) {
        if b < i {
          assert p[a] in Callers(g, p[b]);
        } else if b == i {
          assert p[a] in Callers(g, p[i]);
        } else {
          var a', b' := a + (j - i), b + (j - i);
          assert p[a'] in Callers(g, p[b']);
        }
      }
      q := MakeSimple(g, r);
    } else {
      q := p;
    }
  }

  /** The functions on the stacks. */
  ghost function OnStacks(stacks: seq<Stack>): set<Fn> {
    set p, f | p in stacks && f in p :: f
  }

  /** The functions on the stacks of `f` are exactly `f` and its transitive callers, up to the limit if there is one. */
  lemma {:induction false} StackFunctionsExact(g: Graph, nodes: set<Fn>, f: Fn, limit: nat)
    requires Closed(g, nodes) && f in nodes
    ensures forall x :: x in OnStacks(Stacks(g, nodes, f, {}, limit)) <==> Reaches(g, x, f, limit)
  {
    var stacks := Stacks(g, nodes, f, {}, limit);
    StacksAreGood(g, nodes, f, {}, limit);
    forall x | x in OnStacks(stacks) ensures Reaches(g, x, f, limit) {
      var p :| p in stacks && x in p;
      assert GoodStack(g, f, {}, limit, p);
      var i :| 0 <= i < |p| && p[i] == x;
      TailIsPath(g, p, i);
    }
    forall x | Reaches(g, x, f, limit) ensures x in OnStacks(stacks) {
      var p :| Path(g, p) && p[0] == x && EndsIn(p, f) && (limit == 0 || |p| <= limit);
      var q := MakeSimple(g, p);
      var s := SimplePathsFound(g, nodes, f, {}, limit, q);
      assert s[|s| - |q|] == s[|s| - |q|..][0] == x && x in s;
    }
  }

  lemma {:induction false} TailIsPath(g: Graph, p: Stack, i: nat)
    requires Path(g, p) && i < |p|
    ensures Path(g, p[i..]) && p[i..][0] == p[i] && p[i..][|p[i..]|-1] == p[|p|-1]
  {
  }

  // ----- the enumeration -----

  /** What a call leaves in the vector it is given: the stacks that were there also get the function on top, unless the
      call stops at once. */
  function Extended(g: Graph, ghost nodes: set<Fn>, f: Fn, visited: set<Fn>, limit: nat, stacks: seq<Stack>): seq<Stack>
    requires Closed(g, nodes) && f in nodes
  {
    if Stops(g, f, visited, limit) then stacks + [[f]]
    else PushAll(stacks + StacksOf(g, nodes, Callers(g, f), visited + {f}, limit), f)
  }

  lemma {:induction false} ExtendedFromNothing(g: Graph, nodes: set<Fn>, f: Fn, visited: set<Fn>, limit: nat)
    requires Closed(g, nodes) && f in nodes
    ensures Extended(g, nodes, f, visited, limit, []) == Stacks(g, nodes, f, visited, limit)
  {
  }

  lemma {:induction false} StacksOfNext(g: Graph, nodes: set<Fn>, fs: seq<Fn>, i: nat, visited: set<Fn>, limit: nat, r: seq<Stack>)
    requires Closed(g, nodes) && (forall f :: f in fs ==> f in nodes) && i < |fs|
    ensures fs[i] in nodes
    ensures r + StacksOf(g, nodes, fs[i..], visited, limit) ==
            r + Stacks(g, nodes, fs[i], visited, limit) + StacksOf(g, nodes, fs[i+1..], visited, limit)
  {
  }

  class Finder {
    const callers: Graph
    var level: nat
    var visited: set<Fn>

    constructor (callers: Graph)
      ensures this.callers == callers && level == 0
    {
      this.callers := callers;
      level, visited := 0, {};
    }

    /** The visited functions as a call sees them: the outermost call starts from none. */
    ghost function Seen(): set<Fn>
      reads this
    {
      if level == 0 then {} else visited
    }

    /** Terminates on cyclic graphs, and leaves the static level and visited set as it found them. */
    method GetCallStacks(ghost nodes: set<Fn>, f: Fn, stacks: seq<Stack>, limit: nat) returns (r: seq<Stack>)
      requires Closed(callers, nodes) && f in nodes
      modifies this
      ensures level == old(level) && visited == old(Seen())
      ensures r == Extended(callers, nodes, f, old(Seen()), limit, stacks)
      decreases nodes - Seen(), 0
    {
      if level == 0 {
        visited := {};
      }
      ghost var seen := visited;
      var cs := Callers(callers, f);
      if |cs| == 0 || f in visited || (limit != 0 && limit == |visited| + 1) {
        return stacks + [[f]];
      }
      assert f in nodes - seen && f !in nodes - (seen + {f});
      level := level + 1;
      visited := visited + {f};
      r := stacks;
      for i := 0 to |cs|
        invariant level == old(level) + 1 && visited == seen + {f}
        invariant r + StacksOf(callers, nodes, cs[i..], seen + {f}, limit) == stacks + StacksOf(callers, nodes, cs, seen + {f}, limit)
      {
        StacksOfNext(callers, nodes, cs, i, seen + {f}, limit, r);
        ExtendedFromNothing(callers, nodes, cs[i], seen + {f}, limit);
        var nested := GetCallStacks(nodes, cs[i], [], limit);
        r := r + nested;
      }
      level := level - 1;
      visited := visited - {f};
      r := PushAll(r, f);
    }

    /** Adds exactly the function and its transitive callers to the set, up to the limit if there is one. */
    method GetCallStacksFunctions(ghost nodes: set<Fn>, f: Fn, functions: set<Fn>, limit: nat) returns (r: set<Fn>)
      requires Closed(callers, nodes) && f in nodes && level == 0
      modifies this
      ensures level == 0
      ensures forall x :: x in r <==> x in functions || Reaches(callers, x, f, limit)
    {
      var stacks := GetCallStacks(nodes, f, [], limit);
      ExtendedFromNothing(callers, nodes, f, {}, limit);
      StackFunctionsExact(callers, nodes, f, limit);
      r := Collect(stacks, functions);
    }
  }

  method Collect(stacks: seq<Stack>, functions: set<Fn>) returns (r: set<Fn>)
    ensures r == functions + OnStacks(stacks)
  {
    r := functions;
    for i := 0 to |stacks|
      invariant r == functions + OnStacks(stacks[..i])
    {
      for j := 0 to |stacks[i]|
        invariant r == functions + OnStacks(stacks[..i]) + (set x | x in stacks[i][..j])
      {
        r := r + {stacks[i][j]};
      }
      assert stacks[..i+1] == stacks[..i] + [stacks[i]] && stacks[i][..|stacks[i]|] == stacks[i];
      assert OnStacks(stacks[..i+1]) == OnStacks(stacks[..i]) + set x | x in stacks[i];
    }
    assert stacks[..|stacks|] == stacks;
  }
}
