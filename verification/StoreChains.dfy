/**
 ObjectStoreDomationMap: stores to one object are grouped into chains whose first element
 dominates the others, so that one range hook at the leader runs before all of them.
 */
module StoreChains {
  import opened ControlFlow

  type Entry = (Pos, int)
  type Chain = seq<Entry>

  /** The leader dominates every other store of the chain. */
  ghost predicate Led(f: Function, c: Chain) {
    c != [] && forall k :: 0 < k < |c| ==> Dominates(f, c[0].0, c[k].0)
  }

  ghost function Stores(cs: seq<Chain>): multiset<Entry> {
    if cs == [] then multiset{} else Stores(cs[..|cs|-1]) + multiset(cs[|cs|-1])
  }

  lemma {:induction false} StoresUpdate(cs: seq<Chain>, i: nat, c: Chain, e: Entry)
    requires i < |cs| && multiset(c) == multiset(cs[i]) + multiset{e}
    ensures Stores(cs[i := c]) == Stores(cs) + multiset{e}
  {
    var n := |cs| - 1;
    if i == n {
      assert cs[i := c][..n] == cs[..n];
    } else {
      StoresUpdate(cs[..n], i, c, e);
      assert cs[i := c][..n] == cs[..n][i := c];
    }
  }

  class DominationMap {
    const f: Function
    const dt: set<(Pos, Pos)>
    var chains: map<Value, seq<Chain>>

    ghost predicate Valid()
      reads this
    {
      DominatorTreeOk(f, dt) && (forall v :: v in chains ==> ChainsOk(chains[v]))
    }

    ghost function Added(v: Value): multiset<Entry>
      reads this
    {
      if v in chains then Stores(chains[v]) else multiset{}
    }

    constructor (f: Function, dt: set<(Pos, Pos)>)
      requires DominatorTreeOk(f, dt)
      ensures Valid() && this.f == f && chains == map[]
    {
      this.f, this.dt, this.chains := f, dt, map[];
    }

    /** addStore: the new store joins the first chain whose leader it is comparable with, at the
        back when the leader dominates it and at the front when it dominates the leader. */
    method AddStore(v: Value, s: Pos, offset: int)
      requires Valid() && IsStore(f, s)
      modifies this
      ensures Valid()
      ensures Added(v) == old(Added(v)) + multiset{(s, offset)}
      ensures v in chains && chains.Keys == old(chains.Keys) + {v}
      ensures if v in old(chains) then Joined(old(chains)[v], (s, offset), chains[v]) else chains[v] == [[(s, offset)]]
      ensures forall w :: w in old(chains) && w != v ==> chains[w] == old(chains[w])
    {
      var e := (s, offset);
      if v !in chains {
        SetChains(v, [[e]], e);
      } else {
        var dcl := Join(chains[v], e);
        SetChains(v, dcl, e);
      }
    }

    /** One of a store and the leader of a chain dominates the other. */
    ghost predicate Comparable(c: Chain, e: Entry) {
      c != [] && (Dominates(f, c[0].0, e.0) || Dominates(f, e.0, c[0].0))
    }

    /** The first chain that a store is comparable with. */
    ghost predicate FirstFor(dcl: seq<Chain>, e: Entry, i: nat) {
      i < |dcl| && Comparable(dcl[i], e) && forall k :: 0 <= k < i ==> !Comparable(dcl[k], e)
    }

    /** The store joins the first chain it is comparable with, behind a leader that dominates it and otherwise in front, and
        no other; or it starts a chain, when it is comparable with none. */
    ghost predicate Joined(dcl: seq<Chain>, e: Entry, cs: seq<Chain>) {
      && (forall i: nat :: FirstFor(dcl, e, i) ==>
            cs == dcl[i := if Dominates(f, dcl[i][0].0, e.0) then dcl[i] + [e] else [e] + dcl[i]])
      && ((forall k :: 0 <= k < |dcl| ==> !Comparable(dcl[k], e)) ==> cs == dcl + [[e]])
    }

    lemma {:induction false} JoinedFirst(dcl: seq<Chain>, e: Entry, i: nat)
      requires FirstFor(dcl, e, i)
      ensures Joined(dcl, e, dcl[i := if Dominates(f, dcl[i][0].0, e.0) then dcl[i] + [e] else [e] + dcl[i]])
    {
    }

    lemma {:induction false} StartsChain(dcl: seq<Chain>, e: Entry)
      requires ChainsOk(dcl) && IsStore(f, e.0)
      ensures ChainsOk(dcl + [[e]]) && Stores(dcl + [[e]]) == Stores(dcl) + multiset{e}
    {
      assert (dcl + [[e]])[..|dcl|] == dcl;
    }

    /** The store joins a chain when it is comparable with some leader, and starts one only when it is not. */
    method Join(dcl: seq<Chain>, e: Entry) returns (cs: seq<Chain>)
      requires DominatorTreeOk(f, dt) && ChainsOk(dcl) && IsStore(f, e.0)
      ensures ChainsOk(cs) && Stores(cs) == Stores(dcl) + multiset{e}
      ensures Joined(dcl, e, cs)
    {
      for i := 0 to |dcl|
        invariant forall k :: 0 <= k < i ==> !Comparable(dcl[k], e)
      {
        var dc := dcl[i];
        assert ChainOk(dc);
        var leader := dc[0].0;
        if (leader, e.0) in dt {
          JoinedFirst(dcl, e, i);
          JoinsBack(dcl, i, e);
          return dcl[i := dc + [e]];
        }
        if (e.0, leader) in dt {
          JoinedFirst(dcl, e, i);
          JoinsFront(dcl, i, e);
          return dcl[i := [e] + dc];
        }
      }
      StartsChain(dcl, e);
      return dcl + [[e]];
    }

    /** A store that dominates the leader dominates the whole chain. */
    lemma {:induction false} LeaderReplaced(dc: Chain, e: Entry)
      requires Led(f, dc) && Dominates(f, e.0, dc[0].0)
      ensures Led(f, [e] + dc)
    {
      forall k | 0 < k < |[e] + dc| ensures Dominates(f, e.0, ([e] + dc)[k].0) {
        if k > 1 {
          DominatesTransitive(f, e.0, dc[0].0, dc[k-1].0);
        }
      }
    }

    lemma {:induction false} JoinsBack(dcl: seq<Chain>, i: nat, e: Entry)
      requires i < |dcl| && ChainsOk(dcl) && IsStore(f, e.0) && dcl[i] != [] && Dominates(f, dcl[i][0].0, e.0)
      ensures ChainsOk(dcl[i := dcl[i] + [e]]) && Stores(dcl[i := dcl[i] + [e]]) == Stores(dcl) + multiset{e}
    {
      var c := dcl[i] + [e];
      assert ChainOk(dcl[i]);
      forall k | 0 < k < |c| ensures Dominates(f, c[0].0, c[k].0) {
        assert k < |dcl[i]| ==> c[k] == dcl[i][k];
      }
      StoresUpdate(dcl, i, c, e);
    }

    lemma {:induction false} JoinsFront(dcl: seq<Chain>, i: nat, e: Entry)
      requires i < |dcl| && ChainsOk(dcl) && IsStore(f, e.0) && dcl[i] != [] && Dominates(f, e.0, dcl[i][0].0)
      ensures ChainsOk(dcl[i := [e] + dcl[i]]) && Stores(dcl[i := [e] + dcl[i]]) == Stores(dcl) + multiset{e}
    {
      var c := [e] + dcl[i];
      assert ChainOk(dcl[i]);
      LeaderReplaced(dcl[i], e);
      StoresUpdate(dcl, i, c, e);
    }

    ghost predicate ChainOk(c: Chain) {
      Led(f, c) && forall x :: x in c ==> IsStore(f, x.0)
    }

    ghost predicate ChainsOk(cs: seq<Chain>) {
      forall i :: 0 <= i < |cs| ==> ChainOk(cs[i])
    }

    method SetChains(v: Value, cs: seq<Chain>, ghost e: Entry)
      requires Valid() && ChainsOk(cs)
      requires Stores(cs) == Added(v) + multiset{e}
      modifies this
      ensures Valid() && chains == old(chains)[v := cs]
      ensures Added(v) == old(Added(v)) + multiset{e}
    {
      chains := chains[v := cs];
    }
  }
}
