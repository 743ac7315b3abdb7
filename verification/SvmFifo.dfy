// The fifo in memory: svm_fifo.c's methods over its fields, its byte array and its segment pool,
// each proved to compute the function of the same name in FifoSpec.
module SvmFifoMemory {
  import opened Base
  import opened Ring
  import opened FifoSpec
  import opened OooList

  class SvmFifo {
    const nitems: nat
    const data: array<u8>
    var head: nat
    var tail: nat
    var cursize: nat
    var oooSegments: Pool
    var poolSize: nat            // elements ever handed out
    var poolFree: seq<nat>       // indices given back
    var listHead: nat
    var newest: nat
    ghost var order: seq<nat>    // the list, head first

    // The list is well linked, and the pool holds its elements and no others.
    ghost predicate Linked()
      reads this
    {
      && Chain(oooSegments, order) && listHead == At(order, 0)
      && AllListed(oooSegments, order)
      && PoolTidy(oooSegments, poolSize, poolFree)
    }

    ghost function View(): (f: Fifo)
      reads this, data
      requires Linked()
    {
      Fifo(nitems, data[..], head, tail, cursize, SegsOf(oooSegments, order))
    }

    function SegOf(i: nat): Seg
      reads this
      requires i in oooSegments
    {
      Seg(oooSegments[i].pos, oooSegments[i].length)
    }

    // svm_fifo_create: an empty fifo of `size` zero bytes.
    constructor (size: nat)
      requires 0 < size <= MAX_RING
      ensures Linked() && fresh(data) && poolSize == 0
      ensures View() == Fifo(size, seq(size, i => 0), 0, 0, 0, [])
    {
      nitems := size;
      data := new u8[size](i => 0);
      head, tail, cursize := 0, 0, 0;
      oooSegments, poolSize, poolFree := map[], 0, [];
      listHead, newest := INVALID_INDEX, 0;
      order := [];
      new;
      assert data[..] == seq(size, i => 0);
      assert SegsOf(oooSegments, order) == [];
    }

    // ooo_segment_new: a free pool element, not yet linked in.
    method OooSegmentNew(start: nat, length: nat) returns (index: nat)
      requires PoolTidy(oooSegments, poolSize, poolFree) && poolSize < INVALID_INDEX
      modifies `oooSegments, `poolSize, `poolFree
      ensures index !in old(oooSegments) && index != INVALID_INDEX
      ensures oooSegments == old(oooSegments)[index := Fresh(Seg(start, length))]
      ensures PoolTidy(oooSegments, poolSize, poolFree)
      ensures if old(poolFree) == [] then poolSize == old(poolSize) + 1 && poolFree == []
              else poolSize == old(poolSize) && poolFree + [index] == old(poolFree)
    {
      var l := |poolFree|;
      if l > 0 {
        index := poolFree[l - 1];
        poolFree := poolFree[..l - 1];
      } else {
        index := poolSize;
        poolSize := poolSize + 1;
      }
      oooSegments := oooSegments[index := OooSegment(INVALID_INDEX, INVALID_INDEX, start, length)];
    }

    // pool_put: give an element back.
    method PoolPut(index: nat)
      requires index in oooSegments
      requires PoolTidy(oooSegments, poolSize, poolFree)
      modifies `oooSegments, `poolFree
      ensures PoolTidy(oooSegments, poolSize, poolFree) && oooSegments == old(oooSegments) - {index}
      ensures poolFree == old(poolFree) + [index]
    {
      oooSegments := oooSegments - {index};
      poolFree := poolFree + [index];
    }

    // ooo_segment_del, its first part: link the neighbours of an element to each other.
    method Unlink(index: nat)
      requires index in oooSegments
      requires oooSegments[index].next != INVALID_INDEX ==> oooSegments[index].next in oooSegments
      requires oooSegments[index].prev != INVALID_INDEX ==> oooSegments[index].prev in oooSegments
      modifies `oooSegments, `listHead
      ensures oooSegments == Unlinked(old(oooSegments), index)
      ensures listHead == if old(oooSegments[index].prev) == INVALID_INDEX
                          then old(oooSegments[index].next) else old(listHead)
    {
      var cur := oooSegments[index];
      if cur.next != INVALID_INDEX {
        oooSegments := oooSegments[cur.next := oooSegments[cur.next].(prev := cur.prev)];
      }
      if cur.prev != INVALID_INDEX {
        oooSegments := oooSegments[cur.prev := oooSegments[cur.prev].(next := cur.next)];
      } else {
        listHead := cur.next;
      }
    }

    // ooo_segment_del: unlink element k of the list and give it back to the pool.
    method OooSegmentDel(index: nat, ghost k: nat)
      requires Linked() && k < |order| && order[k] == index
      modifies `oooSegments, `poolFree, `listHead, `order
      ensures Linked() && order == Without(old(order), k)
      ensures SegsOf(oooSegments, order)
              == SegsOf(old(oooSegments), old(order))[..k] + SegsOf(old(oooSegments), old(order))[k+1..]
    {
      Deleted(oooSegments, order, k);
      ghost var before, rest := oooSegments, Without(order, k);
      hide Chain, At, Without, SegsOf, Unlinked, PoolTidy, AllListed;
      Unlink(index);
      PoolPut(index);
      DeletedListed(before, order, k, oooSegments);
      order := rest;
    }

    // ooo_segment_add: the link updates of "add before current segment" ...
    method LinkBefore(newIndex: nat, s: nat)
      requires newIndex in oooSegments && s in oooSegments
      requires oooSegments[s].prev != INVALID_INDEX ==> oooSegments[s].prev in oooSegments
      modifies `oooSegments, `listHead
      ensures oooSegments == LinkedBefore(old(oooSegments), newIndex, s)
      ensures listHead == if old(oooSegments[s].prev) == INVALID_INDEX then newIndex else old(listHead)
    {
      var prev := oooSegments[s].prev;
      if prev != INVALID_INDEX {
        oooSegments := oooSegments[prev := oooSegments[prev].(next := newIndex)];
      } else {
        listHead := newIndex;
      }
      oooSegments := oooSegments[newIndex := oooSegments[newIndex].(prev := prev, next := s)];
      oooSegments := oooSegments[s := oooSegments[s].(prev := newIndex)];
    }

    // ... and of "add after current segment".
    method LinkAfter(newIndex: nat, s: nat)
      requires newIndex in oooSegments && s in oooSegments
      requires oooSegments[s].next != INVALID_INDEX ==> oooSegments[s].next in oooSegments
      modifies `oooSegments
      ensures oooSegments == LinkedAfter(old(oooSegments), newIndex, s)
    {
      var next := oooSegments[s].next;
      if next != INVALID_INDEX {
        oooSegments := oooSegments[next := oooSegments[next].(prev := newIndex)];
      }
      oooSegments := oooSegments[newIndex := oooSegments[newIndex].(prev := s, next := next)];
      oooSegments := oooSegments[s := oooSegments[s].(next := newIndex)];
    }

    // ooo_segment_add, "add before current segment".
    method AddBefore(s: nat, ghost k: nat, position: nat, length: nat)
      requires Linked() && k < |order| && order[k] == s && poolSize < INVALID_INDEX
      modifies `oooSegments, `poolSize, `poolFree, `listHead, `newest, `order
      ensures Linked() && k < |order| && newest == order[k]
      ensures SegsOf(oooSegments, order)
              == Spliced(SegsOf(old(oooSegments), old(order)), Splice(k, k, Seg(position, length)))
    {
      hide Chain, SegsOf, Spliced, At, PoolTidy, AllListed, LinkedBefore;
      ghost var before, o := oooSegments, order;
      var newIndex := OooSegmentNew(position, length);
      ghost var loose := oooSegments;
      AddedBefore(before, o, k, newIndex, Seg(position, length));
      LinkBefore(newIndex, s);
      newest := newIndex;
      TidySame(loose, poolSize, poolFree, oooSegments);
      order := With(o, k, newIndex);
    }

    // ooo_segment_add, "add after current segment".
    method AddAfter(s: nat, ghost k: nat, position: nat, length: nat)
      requires Linked() && k < |order| && order[k] == s && poolSize < INVALID_INDEX
      modifies `oooSegments, `poolSize, `poolFree, `newest, `order
      ensures Linked() && k + 1 < |order| && newest == order[k + 1]
      ensures SegsOf(oooSegments, order)
              == Spliced(SegsOf(old(oooSegments), old(order)), Splice(k + 1, k + 1, Seg(position, length)))
    {
      hide Chain, SegsOf, Spliced, At, PoolTidy, AllListed, LinkedAfter;
      ghost var before, o := oooSegments, order;
      var newIndex := OooSegmentNew(position, length);
      ghost var loose := oooSegments;
      AddedAfter(before, o, k, newIndex, Seg(position, length));
      LinkAfter(newIndex, s);
      newest := newIndex;
      TidySame(loose, poolSize, poolFree, oooSegments);
      order := With(o, k + 1, newIndex);
    }

    // ooo_segment_add, "merge at head": extend segment s to the front, over the one before it if
    // that one reaches the new range.
    method ExtendFront(s: nat, ghost j: nat, offset: nat)
      requires Linked() && j < |order| && order[j] == s && 0 < nitems
      modifies `oooSegments, `poolFree, `listHead, `order
      ensures Linked()
      ensures var p := MergeFront(nitems, tail, SegsOf(old(oooSegments), old(order)), offset, j);
              && p.from < |order| && order[p.from] == s
              && SegsOf(oooSegments, order) == Spliced(SegsOf(old(oooSegments), old(order)), p)
    {
      hide SegOffset, SegEndOffset, Position, PoolTidy, AllListed, U32, Distinct, Spliced;
      ghost var segs := SegsOf(oooSegments, order);
      Neighbours(oooSegments, order, j);
      var sEof := SegEndOffset(nitems, tail, SegOf(s));
      if oooSegments[s].prev != INVALID_INDEX {
        var prev := oooSegments[s].prev;
        if SegEndOffset(nitems, tail, SegOf(prev)) >= offset {
          var length := U32(sEof - SegOffset(nitems, tail, SegOf(prev)));
          ReplacedBoth(segs, j, Seg(oooSegments[prev].pos, length));
          SetSegment(s, j, oooSegments[prev].pos, length);
          OooSegmentDel(prev, j - 1);
        } else {
          ReplacedOne(segs, j, segs[j]);
        }
      } else {
        var position := Position(nitems, tail, offset);
        var length := U32(sEof - SegOffset(nitems, tail, Seg(position, 0)));
        ReplacedOne(segs, j, Seg(position, length));
        SetSegment(s, j, position, length);
      }
    }

    // Set what element k describes.
    method SetSegment(s: nat, ghost k: nat, pos: nat, length: nat)
      requires Linked() && k < |order| && order[k] == s
      modifies `oooSegments
      ensures Linked()
      ensures SegsOf(oooSegments, order) == SegsOf(old(oooSegments), order)[k := Seg(pos, length)]
    {
      Reset(oooSegments, order, k, Seg(pos, length));
      hide Chain, SegsOf, PoolTidy, AllListed;
      ghost var before := oooSegments;
      oooSegments := oooSegments[s := oooSegments[s].(pos := pos, length := length)];
      TidySame(before, poolSize, poolFree, oooSegments);
    }

    // ooo_segment_add, "the new segment's tail may cover multiple smaller ones".
    method ExtendEnd(s: nat, endOffset: nat, ghost base: seq<Seg>, ghost p: Splice)
      requires Linked() && 0 < nitems && p.from <= p.to <= |base|
      requires SegsOf(oooSegments, order) == Spliced(base, p) && order[p.from] == s
      modifies `oooSegments, `poolFree, `listHead, `order
      ensures Linked() && p.from < |order| && order[p.from] == s
      ensures SegsOf(oooSegments, order) == Spliced(base, MergeEnd(nitems, tail, base, endOffset, p))
    {
      hide SegOffset, SegEndOffset, PoolTidy, AllListed, U32, Distinct, MergeEnd;
      ghost var k, m := p.from, p.to;
      Neighbours(oooSegments, order, k);
      var it := oooSegments[s].next;
      while it != INVALID_INDEX && SegEndOffset(nitems, tail, SegOf(it)) < endOffset
        invariant Linked() && p.to <= m <= |base| && k < |order| && order[k] == s
        invariant it != INVALID_INDEX ==> it in oooSegments
        invariant SegsOf(oooSegments, order) == base[..k] + [p.s] + base[m..]
        invariant it == At(order, k + 1)
        invariant SkipCovered(nitems, tail, base, endOffset, m)
                  == SkipCovered(nitems, tail, base, endOffset, p.to)
        decreases |base| - m
      {
        assert SegsOf(oooSegments, order)[k + 1] == base[m];
        Neighbours(oooSegments, order, k + 1);
        var next := oooSegments[it].next;
        Replaced(base, k, p.s, m, p.s);
        OooSegmentDel(it, k + 1);
        Neighbours(oooSegments, order, k);
        it := next;
        m := m + 1;
      }
      Neighbours(oooSegments, order, k);
      assert m < |base| ==> SegsOf(oooSegments, order)[k + 1] == base[m];
      assert SegsOf(oooSegments, order)[k] == p.s;
      assert m == SkipCovered(nitems, tail, base, endOffset, p.to);
      MergeLast(s, it, endOffset, k, m, base, p);
    }

    // ... set the length, and merge with the first segment not covered if it is reached.
    method MergeLast(s: nat, it: nat, endOffset: nat, ghost k: nat, ghost m: nat,
                     ghost base: seq<Seg>, ghost p: Splice)
      requires Linked() && 0 < nitems && k < |order| && order[k] == s && m <= |base|
      requires it == At(order, k + 1) && p.from == k <= p.to <= m
      requires SegsOf(oooSegments, order) == base[..k] + [p.s] + base[m..]
      requires m == SkipCovered(nitems, tail, base, endOffset, p.to)
      modifies `oooSegments, `poolFree, `listHead, `order
      ensures Linked() && k < |order| && order[k] == s
      ensures SegsOf(oooSegments, order) == Spliced(base, MergeEnd(nitems, tail, base, endOffset, p))
    {
      hide SegOffset, SegEndOffset, PoolTidy, AllListed, SkipCovered, U32, Distinct, MergeEnd, Spliced;
      assert SegsOf(oooSegments, order)[k] == p.s;
      var position := oooSegments[s].pos;
      var length := U32(endOffset - SegOffset(nitems, tail, SegOf(s)));
      SetSegment(s, k, position, length);
      Replaced(base, k, p.s, m, Seg(position, length));
      MergedIs(nitems, tail, base, endOffset, p, m);
      if it != INVALID_INDEX && SegOffset(nitems, tail, SegOf(it)) < endOffset {
        assert SegsOf(oooSegments, order)[k + 1] == base[m];
        MergeNext(s, it, endOffset, length, k, m, base);
      } else {
        assert m < |base| ==> SegsOf(oooSegments, order)[k + 1] == base[m];
      }
    }

    // ... taking in that segment and removing it.
    method MergeNext(s: nat, it: nat, endOffset: nat, length: nat, ghost k: nat, ghost m: nat, ghost base: seq<Seg>)
      requires Linked() && 0 < nitems && k + 1 < |order| && order[k] == s && order[k + 1] == it && m < |base|
      requires SegsOf(oooSegments, order)[k + 1] == base[m] && k <= m
      requires SegsOf(oooSegments, order)
               == base[..k] + [Seg(SegsOf(oooSegments, order)[k].pos, length)] + base[m..]
      modifies `oooSegments, `poolFree, `listHead, `order
      ensures Linked() && k < |order| && order[k] == s
      ensures var longer := U32(length + base[m].len - (SegOffset(nitems, tail, base[m]) - endOffset));
              SegsOf(oooSegments, order)
              == base[..k] + [Seg(SegsOf(old(oooSegments), old(order))[k].pos, longer)] + base[m + 1..]
    {
      hide SegOffset, PoolTidy, AllListed, U32, Distinct;
      var position := oooSegments[s].pos;
      var longer := U32(length + oooSegments[it].length - (SegOffset(nitems, tail, SegOf(it)) - endOffset));
      Replaced(base, k, Seg(position, length), m, Seg(position, longer));
      SetSegment(s, k, position, longer);
      OooSegmentDel(it, k + 1);
    }

    // The search of ooo_segment_add: the first segment that starts after `offset`, or the last.
    method FindSegment(offset: nat) returns (s: nat, ghost k: nat)
      requires Linked() && order != [] && 0 < nitems
      ensures k < |order| && order[k] == s
      ensures k == FindFrom(nitems, tail, SegsOf(oooSegments, order), offset, 0)
    {
      hide SegOffset, PoolTidy, AllListed;
      ghost var segs := SegsOf(oooSegments, order);
      s, k := listHead, 0;
      Neighbours(oooSegments, order, 0);
      while oooSegments[s].next != INVALID_INDEX && SegOffset(nitems, tail, SegOf(s)) <= offset
        invariant k < |order| && order[k] == s && s in oooSegments
        invariant FindFrom(nitems, tail, segs, offset, k) == FindFrom(nitems, tail, segs, offset, 0)
        decreases |order| - k
      {
        Neighbours(oooSegments, order, k);
        s, k := oooSegments[s].next, k + 1;
      }
      Neighbours(oooSegments, order, k);
    }

    // ooo_segment_add.
    method OooSegmentAdd(offset: nat, length: nat)
      requires Linked() && 0 < nitems && poolSize < INVALID_INDEX
      modifies `oooSegments, `poolSize, `poolFree, `listHead, `newest, `order
      ensures Linked()
      ensures var p := AddSegment(nitems, tail, SegsOf(old(oooSegments), old(order)), offset, length);
              && SegsOf(oooSegments, order) == Spliced(SegsOf(old(oooSegments), old(order)), p)
              && p.from < |order| && newest == order[p.from]
    {
      hide SegOffset, SegEndOffset, Position, PoolTidy, AllListed, MergeFront, MergeEnd, FindFrom, Spliced, U32,
           Distinct;
      ghost var segs := SegsOf(oooSegments, order);
      var position := Position(nitems, tail, offset);
      var endOffset := U32(offset + length);
      if listHead == INVALID_INDEX {
        AddFirst(position, length);
        return;
      }
      var s; ghost var j;
      s, j := FindSegment(offset);
      assert SegOf(s) == segs[j];
      var sSof := SegOffset(nitems, tail, SegOf(s));
      var sEof := SegEndOffset(nitems, tail, SegOf(s));
      if endOffset < sSof {
        AddBefore(s, j, position, length);
        return;
      } else if sEof < offset {
        AddAfter(s, j, position, length);
        return;
      }
      MergeInto(s, j, offset, endOffset, sSof, sEof);
      newest := s;
    }

    // ooo_segment_add, the new range reaches segment s, which spans [sSof, sEof).
    method MergeInto(s: nat, ghost j: nat, offset: nat, endOffset: nat, sSof: nat, sEof: nat)
      requires Linked() && 0 < nitems && j < |order| && order[j] == s
      requires var cur := SegsOf(oooSegments, order)[j];
               sSof == SegOffset(nitems, tail, cur) && sEof == SegEndOffset(nitems, tail, cur)
      modifies `oooSegments, `poolFree, `listHead, `order
      ensures Linked()
      ensures var segs := SegsOf(old(oooSegments), old(order));
              var front := MergeFront(nitems, tail, segs, offset, j);
              var p := if offset <= sSof then
                         if sEof < endOffset then MergeEnd(nitems, tail, segs, endOffset, front) else front
                       else if sEof <= endOffset then
                         Splice(j, j + 1, Seg(segs[j].pos, U32(endOffset - sSof)))
                       else
                         Splice(j, j + 1, segs[j]);
              && SegsOf(oooSegments, order) == Spliced(segs, p)
              && p.from < |order| && order[p.from] == s
    {
      hide SegOffset, SegEndOffset, PoolTidy, AllListed, MergeFront, MergeEnd, U32, Distinct;
      ghost var segs := SegsOf(oooSegments, order);
      assert SegOf(s) == segs[j];
      if offset <= sSof {
        ExtendFront(s, j, offset);
        if sEof < endOffset {
          ExtendEnd(s, endOffset, segs, MergeFront(nitems, tail, segs, offset, j));
        }
      } else if sEof <= endOffset {
        SetSegment(s, j, oooSegments[s].pos, U32(endOffset - sSof));
      }
    }

    // ooo_segment_add on an empty list.
    method AddFirst(position: nat, length: nat)
      requires Linked() && listHead == INVALID_INDEX && poolSize < INVALID_INDEX
      modifies `oooSegments, `poolSize, `poolFree, `listHead, `newest, `order
      ensures Linked() && |order| == 1 && newest == order[0] && old(order) == []
      ensures SegsOf(oooSegments, order) == Spliced([], Splice(0, 0, Seg(position, length)))
    {
      assert order == [];
      var s := OooSegmentNew(position, length);
      listHead := s;
      newest := listHead;
      order := [s];
    }

    // ooo_segment_try_collect, its loop: drop the segments the last enqueue ran over.
    method PassOver(enqueued: nat) returns (s: nat, diff: nat)
      requires Linked() && order != [] && 0 < nitems
      modifies `tail, `oooSegments, `poolFree, `listHead, `order
      ensures Linked() && order != [] && order[0] == s
      ensures var segs := SegsOf(old(oooSegments), old(order));
              var v := PassOverrun(nitems, old(tail), segs, enqueued, 0);
              v.tail == tail && v.lag == diff && SegsOf(oooSegments, order) == segs[v.first..]
    {
      hide SegLag, Position, PoolTidy, AllListed;
      ghost var segs, i := SegsOf(oooSegments, order), 0;
      ghost var v := PassOverrun(nitems, tail, segs, enqueued, 0);
      Neighbours(oooSegments, order, 0);
      s := listHead;
      diff := SegLag(nitems, tail, SegOf(s));
      while 0 < diff < enqueued
        invariant Linked() && order != [] && order[0] == s && s in oooSegments && tail == old(tail)
        invariant i < |segs| && SegsOf(oooSegments, order) == segs[i..]
        invariant diff == SegLag(nitems, tail, segs[i])
        invariant PassOverrun(nitems, tail, segs, enqueued, i) == v
        decreases |segs| - i
      {
        assert SegOf(s) == segs[i..][0];
        Neighbours(oooSegments, order, 0);
        if diff < oooSegments[s].length {
          tail := Position(nitems, tail, oooSegments[s].length - diff);
          return;
        } else if oooSegments[s].next != INVALID_INDEX {
          var index := s;
          s := oooSegments[s].next;
          diff := SegLag(nitems, tail, SegOf(s));
          assert SegOf(s) == segs[i..][1];
          assert segs[i..][..0] + segs[i..][1..] == segs[i + 1..];
          OooSegmentDel(index, 0);
          i := i + 1;
        } else {
          return;
        }
      }
    }

    // ooo_segment_try_collect.
    method OooSegmentTryCollect(enqueued: nat) returns (bytes: nat)
      requires Linked() && order != [] && 0 < nitems && cursize <= nitems
      modifies `tail, `oooSegments, `poolFree, `listHead, `order
      ensures Linked()
      ensures Collected(tail, SegsOf(oooSegments, order), bytes)
              == TryCollect(nitems, old(tail), cursize, SegsOf(old(oooSegments), old(order)), enqueued)
    {
      hide SegLag, Position, PoolTidy, AllListed, PassOverrun;
      ghost var segs := SegsOf(oooSegments, order);
      ghost var v := PassOverrun(nitems, tail, segs, enqueued, 0);
      var s, diff := PassOver(enqueued);
      assert SegOf(s) == segs[v.first..][0];
      bytes := 0;
      if diff == 0 {
        bytes := if nitems - cursize >= oooSegments[s].length then oooSegments[s].length else nitems - cursize;
        tail := Position(nitems, tail, bytes);
        OooSegmentDel(s, 0);
        assert segs[v.first..][..0] + segs[v.first..][1..] == segs[v.first + 1..];
      }
    }

    // memcpy of `count` bytes of `src` from `from` on, to slot `at` of the ring.
    method CopyIn(at: nat, src: seq<u8>, from: nat, count: nat)
      requires at + count <= data.Length && from + count <= |src|
      modifies data
      ensures forall k :: 0 <= k < data.Length ==>
                data[k] == if at <= k < at + count then src[from + (k - at)] else old(data[k])
    {
      for i := 0 to count
        invariant forall k :: 0 <= k < data.Length ==>
                    data[k] == if at <= k < at + i then src[from + (k - at)] else old(data[k])
      {
        data[at + i] := src[from + i];
      }
    }

    // svm_fifo_enqueue_internal, its two copies: `total` bytes at the tail, which moves past them.
    method StoreAtTail(src: seq<u8>, total: nat)
      requires 0 < data.Length == nitems && tail < nitems && total <= |src| && total <= nitems
      modifies data, `tail
      ensures data[..] == Written(old(data[..]), old(tail), src[..total])
      ensures tail == Wrap(old(tail) + total, nitems)
    {
      var first := if nitems - tail < total then nitems - tail else total;
      CopyIn(tail, src, 0, first);
      tail := tail + first;
      tail := if tail == nitems then 0 else tail;
      var second := total - first;
      if second > 0 {
        CopyIn(tail, src, first, second);
        var end: int := tail + second;
        if end == nitems { end := 0; }
        tail := end;
      }
    }

    // svm_fifo_enqueue_internal, its end: collect segments, then count the bytes in.
    method CountIn(total: nat) returns (count: int)
      requires Linked() && Sane(View())
      modifies this
      ensures Linked() && (View(), count) == Publish(old(View()), total)
    {
      assert listHead == INVALID_INDEX <==> order == [];
      hide SegsOf, Chain, PoolTidy, AllListed, TryCollect;
      var bytes := 0;
      if listHead != INVALID_INDEX {
        bytes := OooSegmentTryCollect(total);
      }
      cursize := cursize + total + bytes;
      count := total + bytes;
    }

    // svm_fifo_enqueue_internal, copying from `src`.
    method EnqueueInternal(src: seq<u8>) returns (count: int)
      requires Linked() && Sane(View())
      modifies this, data
      ensures Linked() && (View(), count) == Enqueue(old(View()), src)
    {
      hide SegsOf, Chain, PoolTidy, AllListed, Written, Publish;
      if cursize == nitems {
        return -2;
      }
      var total := if nitems - cursize < |src| then nitems - cursize else |src|;
      StoreAtTail(src, total);
      count := CountIn(total);
    }

    // svm_fifo_enqueue_with_offset_internal2: the segment first, then the bytes.
    method EnqueueWithOffset(offset: nat, src: seq<u8>) returns (r: Option<int>)
      requires Linked() && Sane(View()) && poolSize < INVALID_INDEX && 0 < offset
      modifies this, data
      ensures Linked() && (View(), r) == EnqueueAhead(old(View()), offset, src)
    {
      hide SegsOf, Chain, PoolTidy, AllListed, Written, AddSegment, Position;
      if U32(|src| + offset) > nitems - cursize {
        return Some(-1);
      }
      OooSegmentAdd(offset, |src|);
      if |src| > nitems {
        return None;
      }
      StoreAhead(offset, src);
      r := Some(0);
    }

    // svm_fifo_enqueue_with_offset_internal2, its two copies.
    method StoreAhead(offset: nat, src: seq<u8>)
      requires 0 < data.Length == nitems && tail < nitems && |src| <= nitems
      modifies data
      ensures data[..] == Written(old(data[..]), Position(nitems, tail, offset), src)
    {
      var at := Position(nitems, tail, offset);
      hide Position;
      var first := if nitems - at < |src| then nitems - at else |src|;
      CopyIn(at, src, 0, first);
      var second := |src| - first;
      if second > 0 {
        assert (at + first) % nitems == 0;
        CopyIn(0, src, first, second);
      }
    }

    // The bytes read from slot `at` on, in two copies.
    method CopyOut(at: nat, total: nat) returns (out: seq<u8>)
      requires 0 < data.Length == nitems && at < nitems && total <= nitems
      ensures out == ReadRing(data[..], at, total)
    {
      var first := if nitems - at < total then nitems - at else total;
      out := data[at..at + first];
      var second := total - first;
      if second > 0 {
        out := out + data[..second];
      }
      assert forall i :: 0 <= i < total ==> out[i] == data[Wrap(at + i, nitems)];
    }

    // svm_fifo_dequeue_internal2, copying out.
    method DequeueInternal(max: nat) returns (count: int, out: seq<u8>)
      requires Linked() && Sane(View())
      modifies `head, `cursize
      ensures Linked() && (View(), count, out) == Dequeue(old(View()), max)
    {
      hide SegsOf, Chain, PoolTidy, AllListed;
      if cursize == 0 {
        return -2, [];
      }
      var total := if cursize < max then cursize else max;
      out := CopyOut(head, total);
      AdvanceHead(total);
      cursize := cursize - total;
      count := total;
    }

    // The head moves past `total` bytes, in two steps.
    method AdvanceHead(total: nat)
      requires head < nitems && total <= nitems
      modifies `head
      ensures head == Wrap(old(head) + total, nitems)
    {
      var first := if nitems - head < total then nitems - head else total;
      head := head + first;
      head := if head == nitems then 0 else head;
      var second := total - first;
      if second > 0 {
        var end: int := head + second;
        if end == nitems { end := 0; }
        head := end;
      }
    }

    // svm_fifo_peek, copying out.
    method Peek(offset: nat, max: nat) returns (count: int, out: Option<seq<u8>>)
      requires Linked() && Sane(View())
      ensures (count, out) == FifoSpec.Peek(View(), offset, max)
      ensures count == if cursize == 0 then -2 else if cursize < max then cursize else max
    {
      hide SegsOf, Chain, PoolTidy, AllListed, U32;
      if cursize == 0 {
        return -2, Some([]);
      }
      var total := if cursize < max then cursize else max;
      var left, at := U32(nitems - head + offset), U32(head + offset);
      var first := if left < total then left else total;
      count := total;
      if first > 0 && at + first > nitems {
        return count, None;
      }
      var copied := if first > 0 then data[at..at + first] else [];
      out := Some(copied + data[..total - first]);
    }

    // svm_fifo_dequeue_drop.
    method DequeueDrop(max: nat) returns (count: int)
      requires Linked() && Sane(View())
      modifies `head, `cursize
      ensures Linked()
      ensures var d := Dequeue(old(View()), max); View() == d.0 && count == d.1
    {
      hide SegsOf, Chain, PoolTidy, AllListed;
      if cursize == 0 {
        return -2;
      }
      var total := if cursize < max then cursize else max;
      AdvanceHead(total);
      cursize := cursize - total;
      count := total;
    }
  }

  lemma ReplacedOne(segs: seq<Seg>, j: nat, x: Seg)
    requires j < |segs|
    ensures segs[j := x] == Spliced(segs, Splice(j, j + 1, x))
  {
  }

  lemma ReplacedBoth(segs: seq<Seg>, j: nat, x: Seg)
    requires 0 < j < |segs|
    ensures segs[j := x][..j - 1] + segs[j := x][j..] == Spliced(segs, Splice(j - 1, j + 1, x))
  {
  }

  // What the end of a merge makes of the list, by the first segment not covered.
  lemma MergedIs(n: nat, tail: nat, base: seq<Seg>, end: nat, p: Splice, m: nat)
    requires 0 < n && p.from <= p.to <= m <= |base| && m == SkipCovered(n, tail, base, end, p.to)
    ensures var length := U32(end - SegOffset(n, tail, p.s));
            Spliced(base, MergeEnd(n, tail, base, end, p))
            == if m < |base| && SegOffset(n, tail, base[m]) < end then
                 base[..p.from]
                 + [Seg(p.s.pos, U32(length + base[m].len - (SegOffset(n, tail, base[m]) - end)))] + base[m + 1..]
               else
                 base[..p.from] + [Seg(p.s.pos, length)] + base[m..]
  {
    hide SegOffset, SkipCovered, U32;
  }

  lemma Replaced(base: seq<Seg>, k: nat, x: Seg, m: nat, y: Seg)
    requires k <= m <= |base|
    ensures (base[..k] + [x] + base[m..])[k := y] == base[..k] + [y] + base[m..]
    ensures var now := base[..k] + [y] + base[m..];
            m < |base| ==> now[..k + 1] + now[k + 2..] == base[..k] + [y] + base[m + 1..]
  {
  }
}
