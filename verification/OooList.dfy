// The out-of-order segment list as it lies in memory: pool elements linked by index.
module OooList {
  import opened FifoSpec

  // A pool element; indices stand for pointers.
  datatype OooSegment = OooSegment(next: nat, prev: nat, pos: nat, length: nat)

  const INVALID_INDEX: nat := 0xFFFF_FFFF

  type Pool = map<nat, OooSegment>

  // A pool of `size` slots: those on the free list are distinct and unused.
  ghost predicate PoolTidy(pool: Pool, size: nat, free: seq<nat>) {
    && Distinct(free)
    && (forall t :: 0 <= t < |free| ==> free[t] < size && free[t] !in pool)
    && (forall i :: i in pool ==> i < size)
  }

  ghost predicate Distinct(order: seq<nat>) {
    forall i, j :: 0 <= i < j < |order| ==> order[i] != order[j]
  }

  // Element i of the list, or the invalid index on either side of it.
  function At(order: seq<nat>, i: int): nat {
    if 0 <= i < |order| then order[i] else INVALID_INDEX
  }

  ghost predicate LinksAt(pool: Pool, order: seq<nat>, i: nat) {
    i < |order| && order[i] in pool
    && pool[order[i]].next == At(order, i + 1)
    && pool[order[i]].prev == At(order, i - 1)
  }

  // `order` lists the elements from the head on, doubly linked.
  ghost predicate Chain(pool: Pool, order: seq<nat>) {
    && Distinct(order) && INVALID_INDEX !in order
    && (forall i :: 0 <= i < |order| ==> order[i] in pool)
    && forall i: nat {:trigger LinksAt(pool, order, i)} :: i < |order| ==> LinksAt(pool, order, i)
  }

  ghost predicate AllListed(pool: Pool, order: seq<nat>) {
    forall i :: i in pool ==> i in order
  }

  ghost function SegAt(pool: Pool, i: nat): Seg
    requires i in pool
  {
    Seg(pool[i].pos, pool[i].length)
  }

  ghost function SegsOf(pool: Pool, order: seq<nat>): (r: seq<Seg>)
    requires forall i :: 0 <= i < |order| ==> order[i] in pool
    ensures |r| == |order|
  {
    seq(|order|, i requires 0 <= i < |order| => SegAt(pool, order[i]))
  }

  // The neighbours of an element are on the list, or it is an end of the list.
  lemma Neighbours(pool: Pool, order: seq<nat>, k: nat)
    requires Chain(pool, order) && k < |order|
    ensures var cur := pool[order[k]];
            && cur.next == At(order, k + 1) && cur.prev == At(order, k - 1)
            && (cur.next != INVALID_INDEX ==> cur.next in pool)
            && (cur.prev != INVALID_INDEX ==> cur.prev in pool)
            && (cur.next == INVALID_INDEX <==> k == |order| - 1)
            && (cur.prev == INVALID_INDEX <==> k == 0)
  {
    assert LinksAt(pool, order, k);
    assert k > 0 ==> At(order, k - 1) in order;
    assert k + 1 < |order| ==> At(order, k + 1) in order;
  }

  // ------------------------------------------------------------------------------------------
  // Taking an element out

  ghost function Without(order: seq<nat>, k: nat): seq<nat>
    requires k < |order|
  {
    order[..k] + order[k+1..]
  }

  lemma WithoutAt(order: seq<nat>, k: nat, i: int)
    requires k < |order|
    ensures At(Without(order, k), i) == if i < k then At(order, i) else At(order, i + 1)
  {
  }

  lemma DistinctWithout(order: seq<nat>, k: nat)
    requires Distinct(order) && k < |order| && INVALID_INDEX !in order
    ensures Distinct(Without(order, k)) && INVALID_INDEX !in Without(order, k)
  {
  }

  // The pool after the neighbours of element `index` have been linked to each other.
  function Unlinked(pool: Pool, index: nat): (r: Pool)
    requires index in pool
    requires pool[index].next != INVALID_INDEX ==> pool[index].next in pool
    requires pool[index].prev != INVALID_INDEX ==> pool[index].prev in pool
    ensures r.Keys == pool.Keys
  {
    var cur := pool[index];
    var p := if cur.next != INVALID_INDEX then pool[cur.next := pool[cur.next].(prev := cur.prev)] else pool;
    if cur.prev != INVALID_INDEX then p[cur.prev := p[cur.prev].(next := cur.next)] else p
  }

  // Element i of the list after element k was taken out.
  ghost predicate CloseAt(pool: Pool, order: seq<nat>, k: nat, pool': Pool, i: nat)
    requires i < |order|
  {
    order[i] in pool' && order[i] in pool
    && pool'[order[i]] == pool[order[i]].(next := At(order, if i == k - 1 then k + 1 else i + 1),
                                          prev := At(order, if i == k + 1 then k - 1 else i - 1))
  }

  lemma UnlinkedAt(pool: Pool, order: seq<nat>, k: nat, i: nat)
    requires Chain(pool, order) && k < |order| && i < |order| && i != k
    requires var cur := pool[order[k]];
             && (cur.next != INVALID_INDEX ==> cur.next in pool)
             && (cur.prev != INVALID_INDEX ==> cur.prev in pool)
    ensures CloseAt(pool, order, k, Unlinked(pool, order[k]) - {order[k]}, i)
  {
    assert LinksAt(pool, order, k) && LinksAt(pool, order, i);
  }

  lemma Closed(pool: Pool, order: seq<nat>, k: nat, pool': Pool)
    requires Chain(pool, order) && k < |order|
    requires forall i :: 0 <= i < |order| && i != k ==> CloseAt(pool, order, k, pool', i)
    ensures Chain(pool', Without(order, k))
    ensures SegsOf(pool', Without(order, k))
            == SegsOf(pool, order)[..k] + SegsOf(pool, order)[k+1..]
  {
    var o := Without(order, k);
    DistinctWithout(order, k);
    hide Distinct, At;
    forall i: nat | i < |o|
      ensures LinksAt(pool', o, i)
      ensures SegAt(pool', o[i]) == (SegsOf(pool, order)[..k] + SegsOf(pool, order)[k+1..])[i]
    {
      assert CloseAt(pool, order, k, pool', if i < k then i else i + 1);
      WithoutAt(order, k, i - 1);
      WithoutAt(order, k, i + 1);
    }
    assert forall i :: 0 <= i < |o| ==> LinksAt(pool', o, i);
  }

  // Everything ooo_segment_del has to establish, for element k of the list.
  lemma Deleted(pool: Pool, order: seq<nat>, k: nat)
    requires Chain(pool, order) && k < |order|
    ensures var cur := pool[order[k]];
            && (cur.next != INVALID_INDEX ==> cur.next in pool)
            && (cur.prev != INVALID_INDEX ==> cur.prev in pool)
    ensures var x := order[k];
            var pool' := Unlinked(pool, x) - {x};
            && Chain(pool', Without(order, k))
            && SegsOf(pool', Without(order, k))
               == SegsOf(pool, order)[..k] + SegsOf(pool, order)[k+1..]
            && At(Without(order, k), 0) == if pool[x].prev == INVALID_INDEX then pool[x].next else At(order, 0)
  {
    Neighbours(pool, order, k);
    var pool' := Unlinked(pool, order[k]) - {order[k]};
    WithoutAt(order, k, 0);
    DistinctWithout(order, k);
    hide Unlinked, Distinct, At, Chain, LinksAt;
    forall i | 0 <= i < |order| && i != k ensures CloseAt(pool, order, k, pool', i) {
      UnlinkedAt(pool, order, k, i);
    }
    Closed(pool, order, k, pool');
  }

  lemma WithoutKeeps(order: seq<nat>, k: nat, i: nat)
    requires k < |order| && i in order && i != order[k]
    ensures i in Without(order, k)
  {
    var t :| 0 <= t < |order| && order[t] == i;
    assert Without(order, k)[if t < k then t else t - 1] == i;
  }

  lemma DeletedListed(pool: Pool, order: seq<nat>, k: nat, pool': Pool)
    requires k < |order| && AllListed(pool, order)
    requires forall i :: i in pool' ==> i in pool && i != order[k]
    ensures AllListed(pool', Without(order, k))
  {
    forall i | i in pool' ensures i in Without(order, k) { WithoutKeeps(order, k, i); }
  }

  // ------------------------------------------------------------------------------------------
  // Putting an element in

  ghost function With(order: seq<nat>, k: nat, x: nat): seq<nat>
    requires k <= |order|
  {
    order[..k] + [x] + order[k..]
  }

  lemma WithAt(order: seq<nat>, k: nat, x: nat, i: int)
    requires k <= |order|
    ensures At(With(order, k, x), i)
            == if i < k then At(order, i) else if i == k then x else At(order, i - 1)
  {
  }

  lemma DistinctWith(order: seq<nat>, k: nat, x: nat)
    requires Distinct(order) && k <= |order| && INVALID_INDEX !in order
    requires x !in order && x != INVALID_INDEX
    ensures Distinct(With(order, k, x)) && INVALID_INDEX !in With(order, k, x)
  {
    var o := With(order, k, x);
    forall i, j | 0 <= i < j < |o| ensures o[i] != o[j] {
      WithAt(order, k, x, i);
      WithAt(order, k, x, j);
    }
  }

  // The pool after element x has been linked in before element s, or after it.
  function LinkedBefore(pool: Pool, x: nat, s: nat): (r: Pool)
    requires x in pool && s in pool
    requires pool[s].prev != INVALID_INDEX ==> pool[s].prev in pool
    ensures r.Keys == pool.Keys
  {
    var prev := pool[s].prev;
    var p := if prev != INVALID_INDEX then pool[prev := pool[prev].(next := x)] else pool;
    var q := p[x := p[x].(prev := prev, next := s)];
    q[s := q[s].(prev := x)]
  }

  function LinkedAfter(pool: Pool, x: nat, s: nat): (r: Pool)
    requires x in pool && s in pool
    requires pool[s].next != INVALID_INDEX ==> pool[s].next in pool
    ensures r.Keys == pool.Keys
  {
    var next := pool[s].next;
    var p := if next != INVALID_INDEX then pool[next := pool[next].(prev := x)] else pool;
    var q := p[x := p[x].(prev := s, next := next)];
    q[s := q[s].(next := x)]
  }

  // A new element: in the pool, on no list, with both links invalid.
  ghost predicate Loose(pool: Pool, order: seq<nat>, x: nat) {
    x in pool && x !in order && x != INVALID_INDEX
    && pool[x].next == INVALID_INDEX && pool[x].prev == INVALID_INDEX
  }

  // Element i of the list after x was linked in as element k.
  ghost predicate RelinkedAt(pool: Pool, order: seq<nat>, k: nat, x: nat, pool': Pool, i: nat)
    requires i < |order|
  {
    order[i] in pool' && order[i] in pool
    && pool'[order[i]] == pool[order[i]].(next := if i == k - 1 then x else At(order, i + 1),
                                          prev := if i == k then x else At(order, i - 1))
  }

  lemma Inserted(pool: Pool, order: seq<nat>, k: nat, x: nat, pool': Pool)
    requires Chain(pool, order) && k <= |order| && Loose(pool, order, x)
    requires x in pool' && pool'[x] == pool[x].(next := At(order, k), prev := At(order, k - 1))
    requires forall i :: 0 <= i < |order| ==> RelinkedAt(pool, order, k, x, pool', i)
    ensures Chain(pool', With(order, k, x))
    ensures SegsOf(pool', With(order, k, x))
            == SegsOf(pool, order)[..k] + [SegAt(pool, x)] + SegsOf(pool, order)[k..]
    ensures At(With(order, k, x), 0) == if k == 0 then x else At(order, 0)
  {
    var o := With(order, k, x);
    var segs := SegsOf(pool, order)[..k] + [SegAt(pool, x)] + SegsOf(pool, order)[k..];
    DistinctWith(order, k, x);
    forall i: nat | i < |o|
      ensures LinksAt(pool', o, i)
      ensures SegAt(pool', o[i]) == segs[i]
    {
      WithAt(order, k, x, i - 1);
      WithAt(order, k, x, i + 1);
      if i != k { assert RelinkedAt(pool, order, k, x, pool', if i < k then i else i - 1); }
    }
    assert forall i :: 0 <= i < |o| ==> LinksAt(pool', o, i);
    WithAt(order, k, x, 0);
  }

  lemma LinkedBeforeAt(pool: Pool, order: seq<nat>, k: nat, x: nat, i: nat)
    requires Chain(pool, order) && k < |order| && Loose(pool, order, x) && i < |order|
    requires pool[order[k]].prev != INVALID_INDEX ==> pool[order[k]].prev in pool
    ensures RelinkedAt(pool, order, k, x, LinkedBefore(pool, x, order[k]), i)
  {
    assert LinksAt(pool, order, k) && LinksAt(pool, order, i);
  }

  lemma LinkedAfterAt(pool: Pool, order: seq<nat>, k: nat, x: nat, i: nat, l: nat)
    requires Chain(pool, order) && k < |order| && Loose(pool, order, x) && i < |order| && l == k + 1
    requires pool[order[k]].next != INVALID_INDEX ==> pool[order[k]].next in pool
    ensures RelinkedAt(pool, order, l, x, LinkedAfter(pool, x, order[k]), i)
  {
    assert LinksAt(pool, order, k) && LinksAt(pool, order, i);
  }

  lemma InsertedBefore(pool: Pool, order: seq<nat>, k: nat, x: nat)
    requires Chain(pool, order) && k < |order| && Loose(pool, order, x)
    ensures pool[order[k]].prev != INVALID_INDEX ==> pool[order[k]].prev in pool
    ensures pool[order[k]].prev == INVALID_INDEX <==> k == 0
    ensures var pool' := LinkedBefore(pool, x, order[k]);
            && Chain(pool', With(order, k, x))
            && SegsOf(pool', With(order, k, x))
               == SegsOf(pool, order)[..k] + [SegAt(pool, x)] + SegsOf(pool, order)[k..]
            && At(With(order, k, x), 0) == if k == 0 then x else At(order, 0)
  {
    Neighbours(pool, order, k);
    var pool' := LinkedBefore(pool, x, order[k]);
    forall i | 0 <= i < |order| ensures RelinkedAt(pool, order, k, x, pool', i) {
      LinkedBeforeAt(pool, order, k, x, i);
    }
    Inserted(pool, order, k, x, pool');
  }

  lemma InsertedAfter(pool: Pool, order: seq<nat>, k: nat, x: nat)
    requires Chain(pool, order) && k < |order| && Loose(pool, order, x)
    ensures pool[order[k]].next != INVALID_INDEX ==> pool[order[k]].next in pool
    ensures var pool' := LinkedAfter(pool, x, order[k]);
            && Chain(pool', With(order, k + 1, x))
            && SegsOf(pool', With(order, k + 1, x))
               == SegsOf(pool, order)[..k + 1] + [SegAt(pool, x)] + SegsOf(pool, order)[k + 1..]
            && At(With(order, k + 1, x), 0) == At(order, 0)
  {
    Neighbours(pool, order, k);
    var pool', l := LinkedAfter(pool, x, order[k]), k + 1;
    forall i | 0 <= i < |order| ensures RelinkedAt(pool, order, l, x, pool', i) {
      LinkedAfterAt(pool, order, k, x, i, l);
    }
    Inserted(pool, order, l, x, pool');
  }

  // Changing what element k describes leaves the links alone.
  lemma ChainSet(pool: Pool, order: seq<nat>, k: nat, pool': Pool)
    requires Chain(pool, order) && k < |order|
    requires forall i :: 0 <= i < |order| ==>
               && order[i] in pool'
               && pool'[order[i]].next == pool[order[i]].next
               && pool'[order[i]].prev == pool[order[i]].prev
               && (i != k ==> SegAt(pool', order[i]) == SegAt(pool, order[i]))
    ensures Chain(pool', order)
    ensures SegsOf(pool', order) == SegsOf(pool, order)[k := SegAt(pool', order[k])]
  {
    forall i: nat | i < |order| ensures LinksAt(pool', order, i) {
      assert LinksAt(pool, order, i);
    }
  }

  // Setting what element k describes.
  lemma Reset(pool: Pool, order: seq<nat>, k: nat, s: Seg)
    requires Chain(pool, order) && k < |order|
    ensures var pool' := pool[order[k] := pool[order[k]].(pos := s.pos, length := s.len)];
            Chain(pool', order) && SegsOf(pool', order) == SegsOf(pool, order)[k := s]
  {
    ChainSet(pool, order, k, pool[order[k] := pool[order[k]].(pos := s.pos, length := s.len)]);
  }

  lemma InsertedListed(pool: Pool, order: seq<nat>, k: nat, x: nat, pool': Pool)
    requires k <= |order| && AllListed(pool, order)
    requires forall i :: i in pool' ==> i in pool || i == x
    ensures AllListed(pool', With(order, k, x))
  {
    var o := With(order, k, x);
    assert o[k] == x;
    forall i | i in pool' ensures i in o {
      if i != x {
        var t :| 0 <= t < |order| && order[t] == i;
        assert o[if t < k then t else t + 1] == i;
      }
    }
  }

  // A new element leaves the list as it is.
  lemma Allocated(pool: Pool, order: seq<nat>, x: nat, e: OooSegment)
    requires Chain(pool, order) && x !in pool
    ensures Chain(pool[x := e], order) && SegsOf(pool[x := e], order) == SegsOf(pool, order)
    ensures x !in order
  {
    var pool' := pool[x := e];
    forall i: nat | i < |order| ensures LinksAt(pool', order, i) {
      assert LinksAt(pool, order, i);
    }
  }

  lemma TidySame(pool: Pool, size: nat, free: seq<nat>, pool': Pool)
    requires PoolTidy(pool, size, free) && pool'.Keys == pool.Keys
    ensures PoolTidy(pool', size, free)
  {
  }

  function Fresh(s: Seg): OooSegment {
    OooSegment(INVALID_INDEX, INVALID_INDEX, s.pos, s.len)
  }

  // Everything "add before" and "add after" have to establish, for element k of the list.
  lemma AddedBefore(pool: Pool, order: seq<nat>, k: nat, x: nat, s: Seg)
    requires Chain(pool, order) && k < |order| && AllListed(pool, order)
    requires x !in pool && x != INVALID_INDEX
    ensures var loose := pool[x := Fresh(s)];
            && x in loose && order[k] in loose
            && (loose[order[k]].prev != INVALID_INDEX ==> loose[order[k]].prev in loose)
    ensures var loose := pool[x := Fresh(s)];
            var pool' := LinkedBefore(loose, x, order[k]);
            && pool'.Keys == loose.Keys && Chain(pool', With(order, k, x))
            && AllListed(pool', With(order, k, x))
            && SegsOf(pool', With(order, k, x)) == Spliced(SegsOf(pool, order), Splice(k, k, s))
            && At(With(order, k, x), 0)
               == if loose[order[k]].prev == INVALID_INDEX then x else At(order, 0)
  {
    Allocated(pool, order, x, Fresh(s));
    var loose := pool[x := Fresh(s)];
    InsertedBefore(loose, order, k, x);
    InsertedListed(pool, order, k, x, LinkedBefore(loose, x, order[k]));
  }

  lemma AddedAfter(pool: Pool, order: seq<nat>, k: nat, x: nat, s: Seg)
    requires Chain(pool, order) && k < |order| && AllListed(pool, order)
    requires x !in pool && x != INVALID_INDEX
    ensures var loose := pool[x := Fresh(s)];
            && x in loose && order[k] in loose
            && (loose[order[k]].next != INVALID_INDEX ==> loose[order[k]].next in loose)
    ensures var loose := pool[x := Fresh(s)];
            var pool' := LinkedAfter(loose, x, order[k]);
            && pool'.Keys == loose.Keys && Chain(pool', With(order, k + 1, x))
            && AllListed(pool', With(order, k + 1, x))
            && SegsOf(pool', With(order, k + 1, x))
               == Spliced(SegsOf(pool, order), Splice(k + 1, k + 1, s))
            && At(With(order, k + 1, x), 0) == At(order, 0)
  {
    Allocated(pool, order, x, Fresh(s));
    var loose := pool[x := Fresh(s)];
    InsertedAfter(loose, order, k, x);
    InsertedListed(pool, order, k + 1, x, LinkedAfter(loose, x, order[k]));
  }
}
