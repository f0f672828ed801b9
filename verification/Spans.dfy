/** Span records and the circular doubly linked list that strings them together. */
module Spans {
  import opened Pages

  class Span {
    var pageId: nat
    var n: nat
    var next: Span?
    var prev: Span?
    var useCount: nat
    var freeList: nat
    var isUse: bool

    constructor ()
      ensures pageId == 0 && n == 0 && next == null && prev == null
      ensures useCount == 0 && freeList == 0 && !isUse
    {
      pageId, n, next, prev, useCount, freeList, isUse := 0, 0, null, null, 0, 0, false;
    }
  }

  /** Distinct, except that the first may equal the last. */
  ghost predicate AlmostDistinct<S>(r: seq<S>) {
    forall i, j :: 0 <= i < j < |r| && !(i == 0 && j == |r| - 1) ==> r[i] != r[j]
  }

  /** A ring with a sentinel `head`; `elems` are the spans on it, front first. */
  class SpanList {
    const head: Span
    ghost var elems: seq<Span>

    ghost function Nodes(): set<Span>
      reads this
    {
      {head} + set s | s in elems
    }

    ghost function Ring(): seq<Span>
      reads this
    {
      [head] + elems + [head]
    }

    ghost predicate Valid()
      reads this, Nodes()`next, Nodes()`prev
    {
      && NoDup(elems) && head !in elems
      && var r := Ring();
         forall i :: 0 <= i <= |elems| ==> r[i].next == r[i + 1] && r[i + 1].prev == r[i]
    }

    /** The only node that appears twice in the ring is the sentinel, at its two ends. */
    lemma RingDistinct()
      requires NoDup(elems) && head !in elems
      ensures AlmostDistinct(Ring())
    {
      var r := Ring();
      forall i, j | 0 <= i < j <= |elems| + 1 && !(i == 0 && j == |elems| + 1)
        ensures r[i] != r[j]
      {
        if i == 0 {
          assert r[j] in elems;
        } else if j == |elems| + 1 {
          assert r[i] in elems;
        } else {
          assert r[i] == elems[i - 1] && r[j] == elems[j - 1];
        }
      }
    }

    constructor ()
      ensures Valid() && elems == [] && fresh(head)
    {
      head := new Span();
      elems := [];
      new;
      head.prev := head;
      head.next := head;
    }

    method Begin() returns (s: Span)
      requires Valid()
      ensures s == if |elems| > 0 then elems[0] else head
    {
      assert Ring()[1] == if |elems| > 0 then elems[0] else head;
      assert Ring()[0].next == Ring()[1];
      s := head.next;
    }

    method Empty() returns (b: bool)
      requires Valid()
      ensures b <==> |elems| == 0
    {
      assert Ring()[0].next == Ring()[1];
      assert |elems| > 0 ==> Ring()[1] == elems[0] && elems[0] in elems;
      b := head.next == head;
    }

    lemma InsertedNoDup(xs: seq<Span>, s: Span, k: nat)
      requires NoDup(xs) && s !in xs && k <= |xs|
      ensures NoDup(xs[..k] + [s] + xs[k..])
    {
      var at := i requires 0 <= i <= |xs| => if i < k then xs[i] else if i == k then s else xs[i - 1];
      assert forall i :: 0 <= i <= |xs| ==> (xs[..k] + [s] + xs[k..])[i] == at(i);
      assert forall i, j :: 0 <= i < j <= |xs| ==> at(i) != at(j);
    }

    /** `pos` is the span at position `k`, or the sentinel when `k` is one past the last. */
    method Insert(pos: Span, newSpan: Span, ghost k: nat)
      requires Valid() && newSpan !in Nodes()
      requires k <= |elems| && pos == Ring()[k + 1]
      modifies this`elems, Nodes()`next, Nodes()`prev, newSpan`next, newSpan`prev
      ensures Valid() && elems == old(elems)[..k] + [newSpan] + old(elems)[k..]
    {
      hide NoDup;
      ghost var r := Ring();
      InsertedNoDup(elems, newSpan, k);
      assert r[k].next == r[k + 1] && r[k + 1].prev == r[k];
      assert r[k] in Nodes() && r[k + 1] in Nodes();
      RingDistinct();
      var prev := pos.prev;
      prev.next := newSpan;
      newSpan.prev := prev;
      newSpan.next := pos;
      pos.prev := newSpan;
      elems := elems[..k] + [newSpan] + elems[k..];
      ghost var q := Ring();
      assert q == r[..k + 1] + [newSpan] + r[k + 1..];
      forall i | 0 <= i <= |elems| ensures q[i].next == q[i + 1] && q[i + 1].prev == q[i] {
        if i < k {
          assert old(r[i].next == r[i + 1] && r[i + 1].prev == r[i]);
        } else if i > k + 1 {
          assert old(r[i - 1].next == r[i] && r[i].prev == r[i - 1]);
        }
      }
    }

    method PushFront(span: Span)
      requires Valid() && span !in Nodes()
      modifies this`elems, Nodes()`next, Nodes()`prev, span`next, span`prev
      ensures Valid() && elems == [span] + old(elems)
    {
      var first := Begin();
      Insert(first, span, 0);
    }

    method Erase(pos: Span)
      requires Valid() && pos in elems
      modifies this`elems, Nodes()`next, Nodes()`prev
      ensures Valid() && elems == Without(old(elems), pos)
    {
      ghost var k :| 0 <= k < |elems| && elems[k] == pos;
      Unlink(pos, k);
      WithoutIs(old(elems), k);
    }

    method Unlink(pos: Span, ghost k: nat)
      requires Valid() && k < |elems| && elems[k] == pos
      modifies this`elems, Nodes()`next, Nodes()`prev
      ensures Valid() && elems == old(elems)[..k] + old(elems)[k + 1..]
    {
      ghost var r := Ring();
      RingDistinct();
      assert r[k + 1] == pos && r[k].next == r[k + 1] && r[k + 1].prev == r[k] && r[k + 1].next == r[k + 2];
      assert r[k] in Nodes() && r[k + 2] in Nodes();
      var prev := pos.prev;
      var next := pos.next;
      prev.next := next;
      next.prev := prev;
      elems := elems[..k] + elems[k + 1..];
      ghost var q := Ring();
      assert q == r[..k + 1] + r[k + 2..];
      forall i | 0 <= i <= |elems| ensures q[i].next == q[i + 1] && q[i + 1].prev == q[i] {
        if i < k {
          assert old(r[i].next == r[i + 1] && r[i + 1].prev == r[i]);
        } else if i > k {
          assert old(r[i + 1].next == r[i + 2] && r[i + 2].prev == r[i + 1]);
        }
      }
    }

    method PopFront() returns (front: Span)
      requires Valid() && |elems| > 0
      modifies this`elems, Nodes()`next, Nodes()`prev
      ensures Valid() && front == old(elems)[0] && elems == old(elems)[1..]
    {
      assert Ring()[0].next == Ring()[1] && Ring()[1] == elems[0] && elems[0] in elems;
      front := head.next;
      WithoutIs(elems, 0);
      Erase(front);
    }
  }

  lemma {:induction false} WithoutIs<S>(xs: seq<S>, k: nat)
    requires NoDup(xs) && k < |xs|
    ensures Without(xs, xs[k]) == xs[..k] + xs[k + 1..]
  {
    if k > 0 {
      var tail := xs[1..];
      assert xs[0] != xs[k] && tail[k - 1] == xs[k];
      TailNoDup(xs);
      hide NoDup;
      WithoutIs(tail, k - 1);
      HeadFirst(xs, k);
    }
  }

  lemma TailNoDup<S>(xs: seq<S>)
    requires NoDup(xs) && |xs| > 0
    ensures NoDup(xs[1..])
  {
  }

  lemma HeadFirst<S>(xs: seq<S>, k: nat)
    requires 0 < k < |xs|
    ensures [xs[0]] + (xs[1..][..k - 1] + xs[1..][k..]) == xs[..k] + xs[k + 1..]
  {
  }
}
