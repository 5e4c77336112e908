/** The circular doubly linked list of the buffer cache.  Nodes 0..h-1 are the buffers and
    node h is the list head; `next` and `prev` are the link fields, and `order` is the
    list read from head.next (most recently used) to head.prev (least recently used). */
module Lru {
  /** The k-th node met when walking from the head; positions -1 and |order| are the head. */
  function At(order: seq<nat>, h: nat, k: int): nat
    requires -1 <= k <= |order|
  {
    if 0 <= k < |order| then order[k] else h
  }

  ghost predicate Distinct<T>(s: seq<T>) {
    forall i, j :: 0 <= i < j < |s| ==> s[i] != s[j]
  }

  /** Nodes i-1 and i point at each other. */
  ghost predicate Linked(next: seq<nat>, prev: seq<nat>, order: seq<nat>, h: nat, i: nat)
    requires |next| == |prev| == h + 1 && i <= |order| && (forall k :: 0 <= k < |order| ==> order[k] < h)
  {
    next[At(order, h, i - 1)] == At(order, h, i) && prev[At(order, h, i)] == At(order, h, i - 1)
  }

  ghost predicate Ring(next: seq<nat>, prev: seq<nat>, order: seq<nat>, h: nat) {
    && |next| == |prev| == h + 1
    && Distinct(order)
    && (forall k :: 0 <= k < |order| ==> order[k] < h)
    && (forall i: nat | i <= |order| :: Linked(next, prev, order, h, i))
  }

  function Without<T>(s: seq<T>, k: nat): seq<T>
    requires k < |s|
  {
    s[..k] + s[k + 1..]
  }

  /** b->next->prev = b->prev; b->prev->next = b->next; takes b out of the ring. */
  lemma UnlinkKeepsRing(next: seq<nat>, prev: seq<nat>, order: seq<nat>, h: nat, k: nat)
    requires Ring(next, prev, order, h) && k < |order|
    ensures var b := order[k];
            next[b] <= h && prev[b] <= h
            && Ring(next[prev[b] := next[b]], prev[next[b] := prev[b]], Without(order, k), h)
  {
    var b := order[k];
    assert Linked(next, prev, order, h, k) && Linked(next, prev, order, h, k + 1);
    var next', prev', order' := next[prev[b] := next[b]], prev[next[b] := prev[b]], Without(order, k);
    assert forall i :: 0 <= i < |order'| ==> order'[i] == order[if i < k then i else i + 1];
    forall i: nat | i <= |order'|
      ensures Linked(next', prev', order', h, i)
    {
      assert Linked(next, prev, order, h, if i <= k then i else i + 1);
    }
  }

  /** b->next = head.next; b->prev = &head; head.next->prev = b; head.next = b. */
  lemma PushFrontKeepsRing(next: seq<nat>, prev: seq<nat>, order: seq<nat>, h: nat, b: nat)
    requires Ring(next, prev, order, h) && b < h && b !in order
    ensures next[h] <= h
    ensures Ring(next[b := next[h]][h := b], prev[b := h][next[h] := b], [b] + order, h)
  {
    assert Linked(next, prev, order, h, 0);
    var next', prev', order' := next[b := next[h]][h := b], prev[b := h][next[h] := b], [b] + order;
    forall i: nat | i <= |order'|
      ensures Linked(next', prev', order', h, i)
    {
      assert i > 0 ==> Linked(next, prev, order, h, i - 1);
    }
  }
}
