/**
 The linked lists of utlist and uthash: elements with `prev` and `next` pointers, and the in-place
 bottom-up merge sort their sort macros share.
 */
module LinkedLists {
  import opened MergeSort

  /** A list element. `hhPrev`, `hhNext` and `hashv` are the links of uthash's bucket chains; the plain
      list macros do not touch them. */
  class Node {
    const key: string
    var prev: Node?
    var next: Node?
    var hhPrev: Node?
    var hhNext: Node?
    var hashv: nat

    constructor (key: string)
      ensures this.key == key
    {
      this.key := key;
      prev, next, hhPrev, hhNext, hashv := null, null, null, null, 0;
    }
  }

  function At(s: seq<Node>, i: nat): Node? {
    if i < |s| then s[i] else null
  }

  function PrevOf(s: seq<Node>, i: nat): Node?
    requires i <= |s|
  {
    if i == 0 then null else s[i-1]
  }

  /** Where each element of a list without repetitions stands. */
  type Index = map<Node, nat>

  ghost predicate Indexed(s: seq<Node>, idx: Index) {
    forall i :: 0 <= i < |s| ==> s[i] in idx && idx[s[i]] == i
  }

  ghost function Nodes(s: seq<Node>): set<Node> {
    set n | n in s
  }

  ghost predicate Within(s: seq<Node>, u: set<Node>) {
    forall i :: 0 <= i < |s| ==> s[i] in u
  }

  /** How the elements of a list are linked: what `next` of the last element is (null, or in a circular list the head),
      and whether `prev` is kept. */
  datatype Style = Style(stop: Node?, double: bool)

  /** The list built so far, except that the last `next` is not yet set. */
  ghost predicate Output(done: seq<Node>, pos: Index, list: Node?, tail: Node?, double: bool)
    reads done
  {
    && Indexed(done, pos)
    && list == At(done, 0)
    && tail == PrevOf(done, |done|)
    && (double ==> forall i {:trigger done[i].prev} :: 0 <= i < |done| ==> done[i].prev == PrevOf(done, i))
    && (forall i {:trigger done[i].next} :: 0 <= i < |done| - 1 ==> done[i].next == done[i+1])
  }

  /** Behind the last element comes `stop`: null, or in a circular list the head. */
  function Onward(s: seq<Node>, i: nat, stop: Node?): Node? {
    if i < |s| then s[i] else stop
  }

  ghost predicate Stops(s: seq<Node>, stop: Node?) {
    stop != null ==> s != [] && stop == s[0]
  }

  /** `next` still leads through `s[a..b]`. */
  ghost predicate Unread(s: seq<Node>, a: nat, b: nat, stop: Node?)
    requires b <= |s|
    reads s
  {
    forall i {:trigger s[i].next} :: a <= i < b ==> s[i].next == Onward(s, i + 1, stop)
  }

  /** Only elements of `s` before `b` and outside `a..iq` have been output. */
  ghost predicate Consumed(idx: Index, a: nat, iq: nat, b: nat, done: seq<Node>) {
    forall i :: 0 <= i < |done| ==> done[i] in idx && idx[done[i]] < b && !(a <= idx[done[i]] < iq)
  }

  method Push(ghost u: set<Node>, double: bool, list0: Node?, tail0: Node?, e: Node, ghost done: seq<Node>, ghost pos: Index)
    returns (list: Node?, tail: Node?)
    requires Output(done, pos, list0, tail0, double) && e !in done && Within(done, u) && e in u
    modifies u`next, u`prev
    ensures Output(done + [e], pos[e := |done|], list, tail, double)
    ensures forall n :: n in u && n !in done ==> n.next == old(n.next)
  {
    list := list0;
    if tail0 != null {
      tail0.next := e;
    } else {
      list := e;
    }
    if double {
      e.prev := tail0;
    }
    tail := e;
  }

  /** Outputs the element at index `x` and steps past it; the stretches `a..iq` and `b..` stay unread. */
  method Take(ghost u: set<Node>, ghost s: seq<Node>, ghost idx: Index, ghost x: nat, ghost a: nat, ghost iq: nat, ghost b: nat,
              e: Node, style: Style, list0: Node?, tail0: Node?, ghost done: seq<Node>, ghost pos: Index)
    returns (after: Node?, list: Node?, tail: Node?)
    requires x < |s| && e == s[x] && Indexed(s, idx) && Stops(s, style.stop) && Output(done, pos, list0, tail0, style.double) && Within(s, u) && Within(done, u)
    requires iq <= |s| && !(a <= x < iq) && x < b && e !in done
    requires Unread(s, x, x + 1, style.stop) && Unread(s, a, iq, style.stop) && Unread(s, b, |s|, style.stop) && Consumed(idx, a, iq, b, done)
    modifies u`next, u`prev
    ensures after == At(s, x + 1)
    ensures Output(done + [e], pos[e := |done|], list, tail, style.double) && Within(done + [e], u)
    ensures Unread(s, a, iq, style.stop) && Unread(s, b, |s|, style.stop) && Consumed(idx, a, iq, b, done + [e])
  {
    after := if e.next == style.stop then null else e.next;
    list, tail := Push(u, style.double, list0, tail0, e, done, pos);
  }

  /** What is still to be output by the merge of the runs that stand at `a` and `b`. */
  ghost function Pending(s: seq<Node>, a: nat, iq: nat, b: nat, iz: nat, cmp: Cmp<Node>): seq<Node>
    requires a <= iq <= |s| && b <= iz <= |s|
  {
    Merge(s[a..iq], s[b..iz], cmp)
  }

  lemma {:induction false} PendingLeft(s: seq<Node>, a: nat, iq: nat, b: nat, iz: nat, e: Node, done: seq<Node>, all: seq<Node>, cmp: Cmp<Node>)
    requires a < iq <= |s| && b <= iz <= |s| && (b == iz || cmp(s[a], s[b]) <= 0)
    requires e == s[a] && done + Pending(s, a, iq, b, iz, cmp) == all
    ensures (done + [e]) + Pending(s, a + 1, iq, b, iz, cmp) == all
  {
  }

  lemma {:induction false} PendingRight(s: seq<Node>, a: nat, iq: nat, b: nat, iz: nat, e: Node, done: seq<Node>, all: seq<Node>, cmp: Cmp<Node>)
    requires a <= iq <= |s| && b < iz <= |s| && (a == iq || cmp(s[a], s[b]) > 0)
    requires e == s[b] && done + Pending(s, a, iq, b, iz, cmp) == all
    ensures (done + [e]) + Pending(s, a, iq, b + 1, iz, cmp) == all
  {
  }

  /** The state of a merge: the left run stands at index `a`, the right one at `b`, and `done` has been output. */
  ghost predicate Merging(u: set<Node>, s: seq<Node>, idx: Index, a: nat, iq: nat, b: nat, iz: nat, p: Node?, q: Node?,
                          style: Style, list: Node?, tail: Node?, done: seq<Node>, pos: Index, all: seq<Node>, cmp: Cmp<Node>)
    reads s, done
  {
    && Indexed(s, idx) && Stops(s, style.stop) && a <= iq <= b <= iz <= |s|
    && (a < iq ==> p == s[a]) && q == At(s, b)
    && Unread(s, a, iq, style.stop) && Unread(s, b, |s|, style.stop) && Consumed(idx, a, iq, b, done)
    && Output(done, pos, list, tail, style.double) && Within(s, u) && Within(done, u)
    && done + Pending(s, a, iq, b, iz, cmp) == all
  }

  method TakeLeft(ghost u: set<Node>, ghost s: seq<Node>, ghost idx: Index, ghost a: nat, ghost iq: nat, ghost b: nat, ghost iz: nat,
                  p0: Node, ghost q: Node?, style: Style, list0: Node?, tail0: Node?, ghost done: seq<Node>, ghost pos: Index,
                  ghost all: seq<Node>, cmp: Cmp<Node>)
    returns (p: Node?, list: Node?, tail: Node?)
    requires a < iq && Merging(u, s, idx, a, iq, b, iz, p0, q, style, list0, tail0, done, pos, all, cmp)
    requires b == iz || cmp(p0, s[b]) <= 0
    modifies u`next, u`prev
    ensures Merging(u, s, idx, a + 1, iq, b, iz, p, q, style, list, tail, done + [p0], pos[p0 := |done|], all, cmp)
  {
    PendingLeft(s, a, iq, b, iz, p0, done, all, cmp);
    p, list, tail := Take(u, s, idx, a, a + 1, iq, b, p0, style, list0, tail0, done, pos);
  }

  method TakeRight(ghost u: set<Node>, ghost s: seq<Node>, ghost idx: Index, ghost a: nat, ghost iq: nat, ghost b: nat, ghost iz: nat,
                   ghost p: Node?, q0: Node, style: Style, list0: Node?, tail0: Node?, ghost done: seq<Node>, ghost pos: Index,
                   ghost all: seq<Node>, cmp: Cmp<Node>)
    returns (q: Node?, list: Node?, tail: Node?)
    requires b < iz && Merging(u, s, idx, a, iq, b, iz, p, q0, style, list0, tail0, done, pos, all, cmp)
    requires a == iq || cmp(s[a], q0) > 0
    modifies u`next, u`prev
    ensures Merging(u, s, idx, a, iq, b + 1, iz, p, q, style, list, tail, done + [q0], pos[q0 := |done|], all, cmp)
  {
    PendingRight(s, a, iq, b, iz, q0, done, all, cmp);
    q, list, tail := Take(u, s, idx, b, a, iq, b + 1, q0, style, list0, tail0, done, pos);
  }

  /** The inner loop of a pass: merges the run of `psize` elements at `p` with the run of at most `qsize`
      elements at `q` onto the end of the output. */
  method MergeRuns(ghost u: set<Node>, ghost s: seq<Node>, ghost idx: Index, ghost ip: nat, ghost iq: nat, ghost iz: nat,
                   p0: Node?, psize0: nat, q0: Node?, qsize0: nat, style: Style, list0: Node?, tail0: Node?,
                   ghost done0: seq<Node>, ghost pos0: Index, cmp: Cmp<Node>)
    returns (q: Node?, list: Node?, tail: Node?, ghost done: seq<Node>, ghost pos: Index)
    requires ip < iq == ip + psize0 <= |s| && iz == Min(iq + qsize0, |s|)
    requires Merging(u, s, idx, ip, iq, iq, iz, p0, q0, style, list0, tail0, done0, pos0, done0 + Pending(s, ip, iq, iq, iz, cmp), cmp)
    modifies u`next, u`prev
    ensures done == done0 + Pending(s, ip, iq, iq, iz, cmp)
    ensures Output(done, pos, list, tail, style.double) && Within(s, u) && Within(done, u)
    ensures q == At(s, iz) && Unread(s, iz, |s|, style.stop) && Consumed(idx, iz, iz, iz, done)
  {
    var p, psize, qsize := p0, psize0, qsize0;
    q, list, tail, done, pos := q0, list0, tail0, done0, pos0;
    ghost var a: nat, b: nat, all := ip, iq, done0 + Pending(s, ip, iq, iq, iz, cmp);
    while psize > 0 || (qsize > 0 && q != null)
      invariant psize >= 0 && qsize >= 0 && a + psize == iq && b + qsize == iq + qsize0
      invariant Merging(u, s, idx, a, iq, b, iz, p, q, style, list, tail, done, pos, all, cmp)
      decreases psize + qsize
    {
      ghost var n := |done|;
      var left := if psize == 0 then false else if qsize == 0 || q == null then true else cmp(p, q) <= 0;
      if left {
        ghost var e: Node := p;
        p, list, tail := TakeLeft(u, s, idx, a, iq, b, iz, p, q, style, list, tail, done, pos, all, cmp);
        done, pos, a := done + [e], pos[e := n], a + 1;
        psize := psize - 1;
      } else {
        ghost var e: Node := q;
        q, list, tail := TakeRight(u, s, idx, a, iq, b, iz, p, q, style, list, tail, done, pos, all, cmp);
        done, pos, b := done + [e], pos[e := n], b + 1;
        qsize := qsize - 1;
      }
    }
    assert b == iz;
  }

  // ----- one pass -----

  /** The list as the passes find it: `next` leads through `s` and ends in `stop`. */
  ghost predicate Forward(s: seq<Node>, idx: Index, list: Node?, stop: Node?)
    reads s
  {
    Indexed(s, idx) && Stops(s, stop) && list == At(s, 0) && Unread(s, 0, |s|, stop)
  }

  /** The `for` loop of a pass: the start and length of the left run. */
  method RunEnd(ghost s: seq<Node>, ghost idx: Index, ghost a: nat, p: Node, style: Style, insize: nat) returns (q: Node?, psize: nat)
    requires Indexed(s, idx) && Stops(s, style.stop) && a < |s| && p == s[a] && insize > 0 && Unread(s, a, |s|, style.stop)
    ensures psize == Min(insize, |s| - a) && q == At(s, a + psize)
  {
    q, psize := p, 0;
    for i := 0 to insize
      invariant psize == i && a + psize < |s| && q == s[a + psize]
    {
      psize := psize + 1;
      q := if q.next == style.stop then null else q.next;
      if q == null {
        break;
      }
    }
  }

  lemma {:induction false} PassUnfold(s: seq<Node>, a: nat, k: nat, iq: nat, iz: nat, cmp: Cmp<Node>)
    requires a < |s| && k > 0 && iq == a + Min(k, |s| - a) && iz == Min(iq + k, |s|)
    ensures Pass(s[a..], k, cmp) == Pending(s, a, iq, iq, iz, cmp) + Pass(s[iz..], k, cmp)
  {
    var r, m, n := s[a..], iq - a, iz - a;
    assert r[..m] == s[a..iq];
    assert r[m..n] == s[iq..iz];
    assert r[n..] == s[iz..];
    PassDef(r, k, m, n, s[a..iq], s[iq..iz], s[iz..], cmp);
  }

  lemma {:induction false} PassDef(r: seq<Node>, k: nat, m: nat, n: nat, x: seq<Node>, y: seq<Node>, z: seq<Node>, cmp: Cmp<Node>)
    requires r != [] && k > 0 && m == Min(k, |r|) && n == Min(2 * k, |r|)
    requires r[..m] == x && r[m..n] == y && r[n..] == z
    ensures Pass(r, k, cmp) == Merge(x, y, cmp) + Pass(z, k, cmp)
  {
  }

  lemma {:induction false} MergesStep(n: nat, k: nat, d: nat)
    requires n > 0 && k > 0 && d == Min(2 * k, n)
    ensures Merges(n, k) == 1 + Merges(n - d, k)
  {
  }

  lemma {:induction false} PassStep(s: seq<Node>, a: nat, k: nat, iq: nat, iz: nat, done: seq<Node>, all: seq<Node>, cmp: Cmp<Node>)
    requires a < |s| && k > 0 && iq == a + Min(k, |s| - a) && iz == Min(iq + k, |s|)
    requires done + Pass(s[a..], k, cmp) == all
    ensures (done + Pending(s, a, iq, iq, iz, cmp)) + Pass(s[iz..], k, cmp) == all
    ensures Merges(|s| - a, k) == 1 + Merges(|s| - iz, k)
  {
    MergesStep(|s| - a, k, iz - a);
    PassUnfold(s, a, k, iq, iz, cmp);
    Associative(done, Pending(s, a, iq, iq, iz, cmp), Pass(s[iz..], k, cmp));
  }

  lemma {:induction false} Associative(x: seq<Node>, y: seq<Node>, z: seq<Node>)
    ensures x + (y + z) == (x + y) + z
  {
  }

  /** The state between two merges of a pass. */
  ghost predicate Passing(u: set<Node>, s: seq<Node>, idx: Index, a: nat, p: Node?, style: Style, list: Node?, tail: Node?,
                          done: seq<Node>, pos: Index, all: seq<Node>, k: nat, cmp: Cmp<Node>)
    requires k > 0
    reads s, done
  {
    && Indexed(s, idx) && Stops(s, style.stop) && a <= |s| && p == At(s, a) && Unread(s, a, |s|, style.stop) && Consumed(idx, a, a, a, done)
    && Output(done, pos, list, tail, style.double) && Within(s, u) && Within(done, u)
    && done + Pass(s[a..], k, cmp) == all
  }

  method MergeNext(ghost u: set<Node>, ghost s: seq<Node>, ghost idx: Index, ghost a: nat, p: Node, insize: nat, style: Style, list0: Node?, tail0: Node?,
                   ghost done0: seq<Node>, ghost pos0: Index, ghost all: seq<Node>, cmp: Cmp<Node>)
    returns (q: Node?, list: Node?, tail: Node?, ghost iz: nat, ghost done: seq<Node>, ghost pos: Index)
    requires insize > 0 && a < |s| && Passing(u, s, idx, a, p, style, list0, tail0, done0, pos0, all, insize, cmp)
    modifies u`next, u`prev
    ensures Passing(u, s, idx, iz, q, style, list, tail, done, pos, all, insize, cmp)
    ensures a < iz <= |s| && Merges(|s| - a, insize) == 1 + Merges(|s| - iz, insize)
  {
    var q0, psize := RunEnd(s, idx, a, p, style, insize);
    ghost var iq := a + psize;
    iz := Min(iq + insize, |s|);
    PassStep(s, a, insize, iq, iz, done0, all, cmp);
    q, list, tail, done, pos := MergeRuns(u, s, idx, a, iq, iz, p, psize, q0, insize, style, list0, tail0, done0, pos0, cmp);
  }

  /** The body of the outer loop of the sort macros, up to its last link. The old head of a circular list
      is its stop. */
  method MergePass(list0: Node, style: Style, insize: nat, cmp: Cmp<Node>, ghost u: set<Node>, ghost s: seq<Node>, ghost idx: Index)
    returns (list: Node?, tail: Node?, merges: nat, ghost pos: Index)
    requires s != [] && insize > 0 && Forward(s, idx, list0, style.stop) && Within(s, u)
    modifies u`next, u`prev
    ensures Output(Pass(s, insize, cmp), pos, list, tail, style.double)
    ensures merges == Merges(|s|, insize)
  {
    var p: Node? := list0;
    list, tail, merges := null, null, 0;
    ghost var done: seq<Node>, a: nat, all := [], 0, Pass(s, insize, cmp);
    pos := map[];
    assert s[0..] == s;
    while p != null
      invariant Passing(u, s, idx, a, p, style, list, tail, done, pos, all, insize, cmp)
      invariant merges + Merges(|s| - a, insize) == Merges(|s|, insize)
      decreases |s| - a
    {
      merges := merges + 1;
      p, list, tail, a, done, pos := MergeNext(u, s, idx, a, p, insize, style, list, tail, done, pos, all, cmp);
    }
    assert s[a..] == [];
    assert done + [] == done;
  }
}
