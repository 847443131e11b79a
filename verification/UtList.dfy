/**
 The list macros of utlist: singly linked, doubly linked and circular lists, their shared sort, and the operations on
 doubly linked lists.
 */
module UtList {
  import opened LinkedLists
  import opened MergeSort

  ghost predicate Distinct(s: seq<Node>) {
    forall i, j :: 0 <= i < j < |s| ==> s[i] != s[j]
  }

  ghost function IndexOf(s: seq<Node>, n: nat): (idx: Index)
    requires Distinct(s) && n <= |s|
    ensures Indexed(s[..n], idx)
  {
    if n == 0 then map[] else assert s[..n] == s[..n-1] + [s[n-1]]; IndexOf(s, n - 1)[s[n-1] := n - 1]
  }

  lemma {:induction false} IndexedDistinct(s: seq<Node>, idx: Index)
    requires Indexed(s, idx)
    ensures Distinct(s)
  {
  }

  /** `LL`, `DL` and `CDL` lists. */
  datatype Kind = Single | Double | Circular

  /** The last `next` of a list. */
  function Stop(kind: Kind, head: Node?): Node? {
    if kind.Circular? then head else null
  }

  /** The links of a list whose elements are `s`, in this order: `prev` of the head leads to the last element, and
      `next` of the last element is null or, in a circular list, the head. */
  ghost predicate LinkedAs(s: seq<Node>, head: Node?, kind: Kind)
    reads s
  {
    && head == At(s, 0)
    && (!kind.Single? && s != [] ==> s[0].prev == s[|s|-1])
    && (!kind.Single? ==> forall i {:trigger s[i].prev} :: 0 < i < |s| ==> s[i].prev == s[i-1])
    && (forall i {:trigger s[i].next} :: 0 <= i < |s| ==> s[i].next == Onward(s, i + 1, Stop(kind, head)))
  }

  /** The links of a `DL` list. */
  ghost predicate Linked(s: seq<Node>, head: Node?)
    reads s
  {
    LinkedAs(s, head, Double)
  }

  lemma {:induction false} ConcatDistinct(a: seq<Node>, b: seq<Node>)
    requires Distinct(a) && Distinct(b) && Nodes(a) !! Nodes(b)
    ensures Distinct(a + b)
  {
    forall i, j | 0 <= i < j < |a + b| ensures (a + b)[i] != (a + b)[j] {
      if i < |a| <= j {
        assert a[i] in Nodes(a) && b[j - |a|] in Nodes(b);
      }
    }
  }

  lemma {:induction false} SameWithin(s: seq<Node>, t: seq<Node>, u: set<Node>)
    requires multiset(s) == multiset(t) && Within(s, u)
    ensures Within(t, u)
  {
    forall i | 0 <= i < |t| ensures t[i] in u {
      assert t[i] in multiset(t);
      assert t[i] in s;
    }
  }

  method Close(kind: Kind, list: Node, tail: Node, ghost t: seq<Node>, ghost pos: Index)
    requires t != [] && Output(t, pos, list, tail, !kind.Single?)
    modifies list`prev, tail`next
    ensures LinkedAs(t, list, kind)
  {
    if !kind.Single? {
      list.prev := tail;
    }
    tail.next := Stop(kind, list);
  }

  /** One round of the sort macros: a pass, then the links that make the result a list again. */
  method SortRound(kind: Kind, list0: Node, insize: nat, cmp: Cmp<Node>, ghost u: set<Node>, ghost s: seq<Node>, ghost idx: Index)
    returns (list: Node, merges: nat, ghost t: seq<Node>, ghost pos: Index)
    requires s != [] && insize > 0 && Indexed(s, idx) && LinkedAs(s, list0, kind) && Within(s, u)
    modifies u`next, u`prev
    ensures t == Pass(s, insize, cmp) && |t| == |s| && Within(t, u)
    ensures LinkedAs(t, list, kind) && Indexed(t, pos)
    ensures merges <= 1 <==> |s| <= 2 * insize
  {
    t := Pass(s, insize, cmp);
    PassPermutes(s, insize, cmp);
    SameWithin(s, t, u);
    OneMerge(|s|, insize);
    var l, tail;
    l, tail, merges, pos := MergePass(list0, Style(Stop(kind, list0), !kind.Single?), insize, cmp, u, s, idx);
    list := l;
    Close(kind, list, tail, t, pos);
  }

  lemma {:induction false} SortUnfold(s: seq<Node>, k: nat, t: seq<Node>, goal: seq<Node>, cmp: Cmp<Node>)
    requires k > 0 && t == Pass(s, k, cmp) && goal == MergeSort.Sort(s, k, cmp)
    ensures if |s| <= 2 * k then t == goal else MergeSort.Sort(t, 2 * k, cmp) == goal
  {
  }

  /** The loop of the sort macros. */
  method SortList(kind: Kind, list: Node, cmp: Cmp<Node>, ghost u: set<Node>, ghost s: seq<Node>, ghost idx: Index)
    returns (head: Node, ghost t: seq<Node>, ghost pos: Index)
    requires s != [] && Indexed(s, idx) && LinkedAs(s, list, kind) && Within(s, u)
    modifies u`next, u`prev
    ensures t == MergeSort.Sort(s, 1, cmp)
    ensures LinkedAs(t, head, kind) && Indexed(t, pos)
  {
    head, t, pos := list, s, idx;
    ghost var goal := MergeSort.Sort(s, 1, cmp);
    var insize, looping := 1, true;
    while looping
      invariant insize > 0 && t != [] && Within(t, u) && |t| == |s|
      invariant Indexed(t, pos) && LinkedAs(t, head, kind)
      invariant if looping then MergeSort.Sort(t, insize, cmp) == goal else t == goal
      decreases looping, |s| - 2 * insize
    {
      var merges;
      ghost var r;
      head, merges, r, pos := SortRound(kind, head, insize, cmp, u, t, pos);
      SortUnfold(t, insize, r, goal, cmp);
      t := r;
      if merges <= 1 {
        looping := false;
      }
      insize := 2 * insize;
    }
  }

  /** LL_SORT, DL_SORT and CDL_SORT. */
  method SortAny(kind: Kind, head: Node?, cmp: Cmp<Node>, ghost nodes: seq<Node>) returns (list: Node?, ghost sorted: seq<Node>)
    requires Distinct(nodes) && LinkedAs(nodes, head, kind)
    modifies Nodes(nodes)`next, Nodes(nodes)`prev
    ensures sorted == MergeSort.Sort(nodes, 1, cmp)
    ensures Distinct(sorted) && LinkedAs(sorted, list, kind)
  {
    list, sorted := head, nodes;
    if head != null {
      ghost var idx := IndexOf(nodes, |nodes|);
      assert nodes[..|nodes|] == nodes;
      list, sorted, idx := SortList(kind, head, cmp, Nodes(nodes), nodes, idx);
      IndexedDistinct(sorted, idx);
    }
  }

  /** LL_FOREACH, DL_FOREACH and CDL_FOREACH: following `next` from the head visits every element once, in order. */
  method ForEach(kind: Kind, head: Node?, ghost nodes: seq<Node>) returns (visited: seq<Node>)
    requires Distinct(nodes) && LinkedAs(nodes, head, kind)
    ensures visited == nodes
  {
    visited := [];
    var el := head;
    while el != null
      invariant visited <= nodes && el == At(nodes, |visited|)
      decreases |nodes| - |visited|
    {
      visited := visited + [el];
      el := if kind.Circular? && el.next == head then null else el.next;
    }
  }

  class DList {
    var head: Node?
    ghost var nodes: seq<Node>

    ghost predicate Valid()
      reads this, nodes
    {
      Distinct(nodes) && Linked(nodes, head)
    }

    constructor ()
      ensures Valid() && nodes == []
    {
      head, nodes := null, [];
    }

    method Append(add: Node)
      requires Valid() && add !in nodes
      modifies this, add, Nodes(nodes)
      ensures Valid() && nodes == old(nodes) + [add]
    {
      if head != null {
        add.prev := head.prev;
        head.prev.next := add;
        head.prev := add;
        add.next := null;
      } else {
        head := add;
        head.prev := head;
        head.next := null;
      }
      nodes := nodes + [add];
    }

    method Prepend(add: Node)
      requires Valid() && add !in nodes
      modifies this, add, Nodes(nodes)
      ensures Valid() && nodes == [add] + old(nodes)
    {
      add.next := head;
      if head != null {
        add.prev := head.prev;
        head.prev := add;
      } else {
        add.prev := add;
      }
      head := add;
      nodes := [add] + nodes;
    }

    /** DL_DELETE of the element at index `k`. */
    method Delete(del: Node, ghost k: nat)
      requires Valid() && k < |nodes| && nodes[k] == del
      modifies this, Nodes(nodes)
      ensures Valid() && nodes == old(nodes)[..k] + old(nodes)[k+1..]
    {
      ghost var s := nodes;
      if del.prev == del {
        assert |s| == 1;
        head := null;
      } else if del == head {
        assert k == 0;
        del.next.prev := del.prev;
        head := del.next;
      } else {
        del.prev.next := del.next;
        if del.next != null {
          del.next.prev := del.prev;
        } else {
          head.prev := del.prev;
        }
      }
      nodes := s[..k] + s[k+1..];
    }

    /** DL_CONCAT: the other list's elements follow; the other head variable is left as it is. */
    method Concat(other: DList)
      requires Valid() && other.Valid() && this != other
      requires Nodes(nodes) !! Nodes(other.nodes)
      modifies this, Nodes(nodes), Nodes(other.nodes)
      ensures Valid() && nodes == old(nodes) + old(other.nodes)
    {
      ConcatDistinct(nodes, other.nodes);
      if other.head != null {
        if head != null {
          var tmp := other.head.prev;
          other.head.prev := head.prev;
          head.prev.next := other.head;
          head.prev := tmp;
        } else {
          head := other.head;
        }
      }
      nodes := nodes + other.nodes;
    }

    /** DL_REPLACE_ELEM: `add` takes the place of the element at index `k`. */
    method ReplaceElem(el: Node, add: Node, ghost k: nat)
      requires Valid() && k < |nodes| && nodes[k] == el && add !in nodes
      modifies this, add, Nodes(nodes)
      ensures Valid() && nodes == old(nodes)[k := add]
    {
      ghost var s := nodes;
      if head == el {
        assert k == 0;
        head := add;
        add.next := el.next;
        if el.next == null {
          add.prev := add;
        } else {
          add.prev := el.prev;
          add.next.prev := add;
        }
      } else {
        add.next := el.next;
        add.prev := el.prev;
        add.prev.next := add;
        if el.next == null {
          head.prev := add;
        } else {
          add.next.prev := add;
        }
      }
      nodes := s[k := add];
    }

    /** DL_SORT. */
    method Sort(cmp: Cmp<Node>)
      requires Valid()
      modifies this, Nodes(nodes)
      ensures Valid() && nodes == MergeSort.Sort(old(nodes), 1, cmp)
    {
      head, nodes := SortAny(Double, head, cmp, nodes);
    }
  }
}
