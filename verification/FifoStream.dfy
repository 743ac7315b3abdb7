// Stream reassembly: what the fifo holds and hands out when every call delivers its slice of one
// byte stream.
module FifoStream {
  import opened Base
  import opened Ring
  import opened FifoSpec
  import opened FifoSegments
  import opened FifoAddExact
  import opened FifoCollectExact

  type Stream = nat -> u8

  // The ring and its segments fit together.
  ghost predicate Ok(f: Fifo) {
    && Sane(f) && f.tail == Wrap(f.head + f.cursize, f.n)
    && SegsOk(f.n, f.tail, f.n - f.cursize, f.segs)
  }

  // Byte k past the head has arrived.
  ghost predicate Arrived(f: Fifo, k: nat)
    requires Ok(f)
  {
    k < f.cursize || Covered(f.n, f.tail, f.segs, k - f.cursize)
  }

  // Every byte that has arrived is the stream's byte for its place; `at` is the place of the head.
  ghost predicate Holds(f: Fifo, stream: Stream, at: nat) {
    && Ok(f)
    && forall k :: 0 <= k < f.n && Arrived(f, k) ==> f.data[Wrap(f.head + k, f.n)] == stream(at + k)
  }

  function Slice(stream: Stream, from: nat, len: nat): (r: seq<u8>)
    ensures |r| == len
  {
    seq(len, i requires 0 <= i < len => stream(from + i))
  }

  lemma ReadIsSlice(f: Fifo, stream: Stream, at: nat, len: nat)
    requires Holds(f, stream, at) && len <= f.cursize
    ensures ReadRing(f.data, f.head, len) == Slice(stream, at, len)
  {
    forall i | 0 <= i < len ensures ReadRing(f.data, f.head, len)[i] == Slice(stream, at, len)[i] {
      assert Arrived(f, i);
    }
  }

  lemma DequeueHolds(f: Fifo, stream: Stream, at: nat, max: nat)
    requires Holds(f, stream, at) && 0 < f.cursize
    ensures var (g, count, out) := Dequeue(f, max);
            && count == Min(f.cursize, max) && out == Slice(stream, at, count)
            && Holds(g, stream, at + count)
  {
    var (g, count, out) := Dequeue(f, max);
    ReadIsSlice(f, stream, at, count);
    forall k | 0 <= k < g.n && Arrived(g, k)
      ensures g.data[Wrap(g.head + k, g.n)] == stream(at + count + k)
    {
      assert Arrived(f, count + k);
    }
  }

  // Writing `src` from k0 past the head on changes no byte outside that stretch.
  lemma WrittenAt(f: Fifo, k0: nat, src: seq<u8>, k: nat)
    requires Sane(f) && k0 <= f.n && k0 + |src| <= f.n && k < f.n
    ensures Written(f.data, Wrap(f.head + k0, f.n), src)[Wrap(f.head + k, f.n)]
            == if k0 <= k < k0 + |src| then src[k - k0] else f.data[Wrap(f.head + k, f.n)]
  {
  }

  // ------------------------------------------------------------------------------------------
  // In-order enqueue

  // Byte k past the head has arrived once m more bytes stand at the tail.
  ghost predicate Came(f: Fifo, m: nat, k: nat)
    requires Ok(f)
  {
    Arrived(f, k) || f.cursize <= k < f.cursize + m
  }

  lemma EnqueueCollects(f: Fifo, src: seq<u8>)
    requires Ok(f) && f.cursize < f.n
    requires CollectGood(f.n, f.tail, f.segs, Min(f.n - f.cursize, |src|))
    ensures var (g, count) := Enqueue(f, src);
            var m := Min(f.n - f.cursize, |src|);
            && m <= count && g == f.(data := Written(f.data, f.tail, src[..m]), tail := g.tail,
                                     segs := g.segs, cursize := f.cursize + count)
            && CollectRight(f.n, f.tail, f.cursize, f.segs, m, Collected(g.tail, g.segs, count - m))
  {
    hide Wrap, Dist, TryCollect;
    var m := Min(f.n - f.cursize, |src|);
    if f.segs != [] {
      CollectGoodRight(f.n, f.tail, f.cursize, f.segs, m);
    }
  }

  // What an in-order enqueue is for: exactly the bytes that had come count as arrived afterwards,
  // exactly those up to the first missing one can be read, and the count says how many were added.
  ghost predicate EnqueueRight(f: Fifo, m: nat, g: Fifo, count: int)
    requires Ok(f)
  {
    && Ok(g) && g.n == f.n && g.cursize == f.cursize + count
    && (forall k :: 0 <= k < f.n ==> (Arrived(g, k) <==> Came(f, m, k)))
    && (g.cursize < f.n ==> !Came(f, m, g.cursize))
  }

  lemma CollectsRight(f: Fifo, m: nat, g: Fifo, bytes: nat)
    requires Ok(f) && f.cursize + m <= f.n && |g.data| == f.n
    requires CollectRight(f.n, f.tail, f.cursize, f.segs, m, Collected(g.tail, g.segs, bytes))
    requires g == f.(data := g.data, tail := g.tail, segs := g.segs, cursize := f.cursize + m + bytes)
    ensures EnqueueRight(f, m, g, m + bytes)
  {
    hide Dist;
    forall k | 0 <= k < f.n ensures Arrived(g, k) <==> Came(f, m, k) {
      if k >= g.cursize {
        assert Covered(f.n, g.tail, g.segs, k - g.cursize)
          <==> Covered(f.n, f.tail, f.segs, m + bytes + (k - g.cursize));
      } else if k >= f.cursize + m {
        assert Covered(f.n, f.tail, f.segs, k - f.cursize);
      }
    }
  }

  lemma EnqueueGoodRight(f: Fifo, src: seq<u8>)
    requires Ok(f) && f.cursize < f.n
    requires CollectGood(f.n, f.tail, f.segs, Min(f.n - f.cursize, |src|))
    ensures var (g, count) := Enqueue(f, src);
            EnqueueRight(f, Min(f.n - f.cursize, |src|), g, count)
  {
    hide Dist, Enqueue, Written, CollectRight;
    var (g, count) := Enqueue(f, src);
    var m := Min(f.n - f.cursize, |src|);
    EnqueueCollects(f, src);
    CollectsRight(f, m, g, count - m);
  }

  lemma RightCollects(f: Fifo, m: nat, g: Fifo, bytes: nat)
    requires Ok(f) && f.cursize + m <= f.n && g.head == f.head
    requires EnqueueRight(f, m, g, m + bytes)
    ensures CollectRight(f.n, f.tail, f.cursize, f.segs, m, Collected(g.tail, g.segs, bytes))
  {
    hide Dist;
    forall o: nat
      ensures Covered(f.n, g.tail, g.segs, o) <==> Covered(f.n, f.tail, f.segs, m + bytes + o)
    {
      if g.cursize + o < f.n {
        assert Arrived(g, g.cursize + o) <==> Came(f, m, g.cursize + o);
      }
    }
    forall o: nat | m <= o < m + bytes ensures Covered(f.n, f.tail, f.segs, o) {
      assert Arrived(g, f.cursize + o);
    }
  }

  lemma EnqueueBadWrong(f: Fifo, src: seq<u8>)
    requires Ok(f) && f.cursize < f.n
    requires !CollectGood(f.n, f.tail, f.segs, Min(f.n - f.cursize, |src|))
    ensures var (g, count) := Enqueue(f, src);
            !EnqueueRight(f, Min(f.n - f.cursize, |src|), g, count)
  {
    hide Dist, Wrap, Written, TryCollect, CollectRight, EnqueueRight;
    var m := Min(f.n - f.cursize, |src|);
    var (g, count) := Enqueue(f, src);
    if EnqueueRight(f, m, g, count) {
      RightCollects(f, m, g, count - m);
      CollectBadWrong(f.n, f.tail, f.cursize, f.segs, m);
    }
  }

  // In-order enqueue does its job if and only if CollectGood holds beforehand.
  lemma EnqueueExact(f: Fifo, src: seq<u8>)
    requires Ok(f) && f.cursize < f.n
    ensures var (g, count) := Enqueue(f, src);
            EnqueueRight(f, Min(f.n - f.cursize, |src|), g, count)
            <==> CollectGood(f.n, f.tail, f.segs, Min(f.n - f.cursize, |src|))
  {
    hide Enqueue, CollectGood, EnqueueRight;
    if CollectGood(f.n, f.tail, f.segs, Min(f.n - f.cursize, |src|)) {
      EnqueueGoodRight(f, src);
    } else {
      EnqueueBadWrong(f, src);
    }
  }

  // Where the bytes of the stream have come, the ring holds them once they are written.
  lemma WrittenCame(f: Fifo, stream: Stream, at: nat, src: seq<u8>, k: nat)
    requires Holds(f, stream, at) && f.cursize + |src| <= f.n && k < f.n && Came(f, |src|, k)
    requires src == Slice(stream, at + f.cursize, |src|)
    ensures Written(f.data, f.tail, src)[Wrap(f.head + k, f.n)] == stream(at + k)
  {
    hide Written;
    WrittenAt(f, f.cursize, src, k);
  }

  // The next bytes of the stream, enqueued in order.
  lemma EnqueueHolds(f: Fifo, stream: Stream, at: nat, src: seq<u8>)
    requires Holds(f, stream, at) && src == Slice(stream, at + f.cursize, |src|)
    requires f.cursize < f.n
    requires CollectGood(f.n, f.tail, f.segs, Min(f.n - f.cursize, |src|))
    ensures Holds(Enqueue(f, src).0, stream, at)
  {
    hide Enqueue, CollectGood, CollectRight, Came, Arrived, Wrap, Written, SegsOk;
    var (g, count) := Enqueue(f, src);
    var m := Min(f.n - f.cursize, |src|);
    EnqueueCollects(f, src);
    EnqueueGoodRight(f, src);
    forall k | 0 <= k < g.n && Arrived(g, k)
      ensures g.data[Wrap(g.head + k, g.n)] == stream(at + k)
    {
      WrittenCame(f, stream, at, src[..m], k);
    }
  }

  // ------------------------------------------------------------------------------------------
  // Enqueue at an offset

  // What an enqueue at an offset is for: exactly its bytes are new, and none becomes readable.
  ghost predicate AheadRight(f: Fifo, offset: nat, len: nat, g: Fifo)
    requires Ok(f)
  {
    && Ok(g) && g.n == f.n && g.cursize == f.cursize
    && forall k :: 0 <= k < f.n ==>
         (Arrived(g, k) <==> Arrived(f, k) || f.cursize + offset <= k < f.cursize + offset + len)
  }

  lemma AheadFits(f: Fifo, offset: nat, src: seq<u8>)
    requires Ok(f) && offset + |src| <= f.n - f.cursize
    ensures var p := AddSegment(f.n, f.tail, f.segs, offset, |src|);
            EnqueueAhead(f, offset, src)
            == (f.(segs := Spliced(f.segs, p), data := Written(f.data, Position(f.n, f.tail, offset), src)), Some(0))
  {
    hide AddSegment, Position, Written, SegsOk;
  }

  lemma CoveredArrives(f: Fifo, offset: nat, len: nat, g: Fifo)
    requires Ok(f) && offset + len <= f.n - f.cursize && |g.data| == f.n
    requires g == f.(segs := g.segs, data := g.data) && InRing(g.n, g.segs)
    requires SegsOk(f.n, f.tail, f.n - f.cursize, g.segs)
    requires forall o: nat :: Covered(f.n, f.tail, g.segs, o)
                              <==> Covered(f.n, f.tail, f.segs, o) || offset <= o < offset + len
    ensures AheadRight(f, offset, len, g)
  {
    hide Wrap, Covered;
  }

  lemma ArrivedCovers(f: Fifo, offset: nat, len: nat, g: Fifo, o: nat)
    requires Ok(f) && offset + len <= f.n - f.cursize && |g.data| == f.n
    requires g == f.(segs := g.segs, data := g.data) && AheadRight(f, offset, len, g)
    ensures Covered(f.n, f.tail, g.segs, o) <==> Covered(f.n, f.tail, f.segs, o) || offset <= o < offset + len
  {
    hide Wrap, Dist;
    if f.cursize + o < f.n {
      assert Arrived(g, f.cursize + o) <==> Arrived(f, f.cursize + o) || offset <= o < offset + len;
    }
  }

  lemma AheadOk(f: Fifo, offset: nat, len: nat, g: Fifo)
    requires Ok(f) && |g.data| == f.n && g == f.(segs := g.segs, data := g.data)
    requires AheadRight(f, offset, len, g)
    ensures SegsOk(f.n, f.tail, f.n - f.cursize, g.segs)
  {
    hide SegsOk, Arrived;
  }

  // The segment added is what counts.
  lemma SplicedAhead(f: Fifo, offset: nat, len: nat, g: Fifo)
    requires Ok(f) && 0 < offset && offset + len <= f.n - f.cursize && |g.data| == f.n
    requires g == f.(segs := Spliced(f.segs, AddSegment(f.n, f.tail, f.segs, offset, len)), data := g.data)
    ensures AheadRight(f, offset, len, g) <==> AddGood(f.n, f.tail, f.segs, offset, len)
  {
    hide SegsOk, Covered, Arrived, Wrap, AddSegment, Spliced, AheadRight, AddGood;
    AddExact(f.n, f.tail, f.n - f.cursize, f.segs, offset, len);
    if AddGood(f.n, f.tail, f.segs, offset, len) {
      CoveredArrives(f, offset, len, g);
    } else if AheadRight(f, offset, len, g) {
      AheadOk(f, offset, len, g);
      forall o: nat
        ensures Covered(f.n, f.tail, g.segs, o) <==> Covered(f.n, f.tail, f.segs, o) || offset <= o < offset + len
      {
        ArrivedCovers(f, offset, len, g, o);
      }
    }
  }

  lemma AheadExact(f: Fifo, offset: nat, src: seq<u8>)
    requires Ok(f) && 0 < offset && offset + |src| <= f.n - f.cursize
    ensures AheadRight(f, offset, |src|, EnqueueAhead(f, offset, src).0)
            <==> AddGood(f.n, f.tail, f.segs, offset, |src|)
  {
    hide Dist, Wrap, Position, AddSegment, Written, EnqueueAhead, AddGood, AheadRight, SegsOk;
    AheadFits(f, offset, src);
    SplicedAhead(f, offset, |src|, EnqueueAhead(f, offset, src).0);
  }

  // A range that does not fit is refused if and only if its end, as a 32-bit sum, does not fit either.
  lemma RefusedExact(f: Fifo, offset: nat, src: seq<u8>)
    requires Ok(f) && offset + |src| > f.n - f.cursize
    ensures EnqueueAhead(f, offset, src).1 == Some(-1) <==> U32(offset + |src|) > f.n - f.cursize
    ensures offset + |src| < U32_RANGE ==> EnqueueAhead(f, offset, src) == (f, Some(-1))
  {
    hide U32, AddSegment, Position, Written, Spliced, SegsOk;
    if offset + |src| < U32_RANGE { U32Is(offset + |src|); }
  }

  lemma AheadHolds(f: Fifo, stream: Stream, at: nat, offset: nat, src: seq<u8>)
    requires Holds(f, stream, at) && 0 < offset && offset + |src| < U32_RANGE
    requires src == Slice(stream, at + f.cursize + offset, |src|)
    requires offset + |src| <= f.n - f.cursize ==> AddGood(f.n, f.tail, f.segs, offset, |src|)
    ensures Holds(EnqueueAhead(f, offset, src).0, stream, at)
  {
    hide Dist, AddSegment, AddGood, Position, Written, EnqueueAhead;
    if offset + |src| > f.n - f.cursize {
      RefusedExact(f, offset, src);
    } else {
      var g := EnqueueAhead(f, offset, src).0;
      AheadExact(f, offset, src);
      AheadFits(f, offset, src);
      PositionIs(f.n, f.tail, offset);
      forall k | 0 <= k < g.n && Arrived(g, k) ensures g.data[Wrap(g.head + k, g.n)] == stream(at + k) {
        AheadWritten(f, offset, src, k);
      }
    }
  }

  lemma AheadWritten(f: Fifo, offset: nat, src: seq<u8>, k: nat)
    requires Ok(f) && offset + |src| <= f.n - f.cursize && k < f.n
    ensures Written(f.data, Position(f.n, f.tail, offset), src)[Wrap(f.head + k, f.n)]
            == if f.cursize + offset <= k < f.cursize + offset + |src|
               then src[k - (f.cursize + offset)] else f.data[Wrap(f.head + k, f.n)]
  {
    hide Position;
    PositionIs(f.n, f.tail, offset);
  }
}
