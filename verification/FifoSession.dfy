// Runs of the fifo: any sequence of calls, by both ends, on one byte stream.
module FifoSession {
  import opened Base
  import opened Ring
  import opened FifoSpec
  import opened FifoSegments
  import opened FifoAddExact
  import opened FifoCollectExact
  import opened FifoStream

  // A call, with the slice of the stream it delivers given by place and length.
  datatype Request = InOrder(len: nat) | Ahead(offset: nat, len: nat) | Take(max: nat) | Drop(max: nat)

  // The fifo, the stream place of its head, and what has been handed out: a byte for each byte
  // taken, None for each byte dropped. `come` are the stream places of the bytes calls have accepted.
  datatype Session = Session(f: Fifo, at: nat, out: seq<Option<u8>>, come: set<nat>)

  function Create(size: nat): Session {
    Session(Fifo(size, seq(size, i => 0), 0, 0, 0, []), 0, [], {})
  }

  // What the producer checks before a call: the guards that AheadExact and EnqueueExact show exact.
  ghost predicate Allowed(s: Session, c: Request)
    requires Ok(s.f)
  {
    match c
    case InOrder(len) =>
      s.f.cursize < s.f.n ==>
        CollectGood(s.f.n, s.f.tail, s.f.segs, Min(s.f.n - s.f.cursize, len))
    case Ahead(offset, len) =>
      0 < offset && offset + len < U32_RANGE
      && (offset + len <= s.f.n - s.f.cursize ==> AddGood(s.f.n, s.f.tail, s.f.segs, offset, len))
    case Take(_) => true
    case Drop(_) => true
  }

  // Stream places from `first` on.
  function Places(first: nat, len: nat): (r: set<nat>)
    ensures forall p :: p in r <==> first <= p < first + len
  {
    if len == 0 then {} else Places(first, len - 1) + {first + len - 1}
  }

  ghost function Step(stream: Stream, s: Session, c: Request): Session
    requires Ok(s.f)
  {
    match c
    case InOrder(len) =>
      var next, taken := s.at + s.f.cursize, Min(s.f.n - s.f.cursize, len);
      s.(f := Enqueue(s.f, Slice(stream, next, len)).0, come := s.come + Places(next, taken))
    case Ahead(offset, len) =>
      var first, fits := s.at + s.f.cursize + offset, offset + len <= s.f.n - s.f.cursize;
      s.(f := EnqueueAhead(s.f, offset, Slice(stream, first, len)).0,
         come := s.come + if fits then Places(first, len) else {})
    case Take(max) =>
      var (g, count, out) := Dequeue(s.f, max);
      s.(f := g, at := s.at + |out|, out := s.out + seq(|out|, i requires 0 <= i < |out| => Some(out[i])))
    case Drop(max) =>
      var (g, count, out) := Dequeue(s.f, max);
      s.(f := g, at := s.at + |out|, out := s.out + seq(|out|, i => None))
  }

  // The fifo holds the stream's bytes, and every byte handed out was the stream's for its place.
  ghost predicate Faithful(stream: Stream, s: Session) {
    && Holds(s.f, stream, s.at) && |s.out| == s.at
    && forall i :: 0 <= i < s.at && s.out[i].Some? ==> s.out[i].value == stream(i)
  }

  // Every byte accepted has been handed out or is in the fifo, and no other byte is.
  ghost predicate Complete(s: Session) {
    && Ok(s.f)
    && forall p: nat :: p in s.come <==> p < s.at || (p < s.at + s.f.n && Arrived(s.f, p - s.at))
  }

  // Place p is the first whose byte has not been accepted.
  ghost predicate FirstMissing(s: Session, p: nat) {
    p !in s.come && forall q: nat :: q < p ==> q in s.come
  }

  lemma NextMissing(s: Session)
    requires Complete(s)
    ensures FirstMissing(s, s.at + s.f.cursize)
  {
    if s.f.cursize < s.f.n { assert !Arrived(s.f, s.f.cursize); }
  }

  lemma StepComplete(stream: Stream, s: Session, c: Request)
    requires Faithful(stream, s) && Complete(s) && Allowed(s, c)
    ensures Complete(Step(stream, s, c))
  {
    hide Dist, Wrap, Written, ReadRing, CollectGood, AddGood, Publish, AddSegment, Position, Enqueue, EnqueueAhead;
    match c
    case InOrder(len) => InOrderComplete(stream, s, len);
    case Ahead(offset, len) => AheadComplete(stream, s, offset, len);
    case Take(max) => TakeComplete(stream, s, max, Step(stream, s, c));
    case Drop(max) => TakeComplete(stream, s, max, Step(stream, s, c));
  }

  // A call that accepts the bytes from `first` on.
  lemma Accepted(s: Session, s': Session, first: nat, len: nat)
    requires Complete(s) && Ok(s'.f) && s'.at == s.at <= first && first + len <= s.at + s.f.n && s'.f.n == s.f.n
    requires s'.come == s.come + Places(first, len)
    requires forall k :: 0 <= k < s.f.n ==> (Arrived(s'.f, k) <==> Arrived(s.f, k) || first <= s.at + k < first + len)
    ensures Complete(s')
  {
    hide Ok, Arrived;
    forall p: nat ensures p in s'.come <==> p < s'.at || (p < s'.at + s'.f.n && Arrived(s'.f, p - s'.at)) {
      assert p in s.come <==> p < s.at || (p < s.at + s.f.n && Arrived(s.f, p - s.at));
    }
  }

  lemma InOrderComplete(stream: Stream, s: Session, len: nat)
    requires Complete(s) && Allowed(s, InOrder(len))
    ensures Complete(Step(stream, s, InOrder(len)))
  {
    hide Dist, Wrap, CollectGood, Enqueue, Arrived, Complete;
    CompleteOk(s);
    var src := Slice(stream, s.at + s.f.cursize, len);
    if s.f.cursize < s.f.n {
      EnqueueExact(s.f, src);
      Accepted(s, Step(stream, s, InOrder(len)), s.at + s.f.cursize, Min(s.f.n - s.f.cursize, len));
    } else {
      FullStays(s.f, src);
      assert Places(s.at + s.f.cursize, 0) == {} && s.come + {} == s.come;
    }
  }

  lemma CompleteOk(s: Session)
    requires Complete(s)
    ensures Ok(s.f)
  {
  }

  lemma FullStays(f: Fifo, src: seq<u8>)
    requires Ok(f) && f.cursize == f.n
    ensures Enqueue(f, src).0 == f
  {
  }

  lemma AheadComplete(stream: Stream, s: Session, offset: nat, len: nat)
    requires Complete(s) && Allowed(s, Ahead(offset, len))
    ensures Complete(Step(stream, s, Ahead(offset, len)))
  {
    hide Dist, Wrap, AddGood, EnqueueAhead, Arrived, Complete;
    CompleteOk(s);
    var src := Slice(stream, s.at + s.f.cursize + offset, len);
    if offset + len <= s.f.n - s.f.cursize {
      AheadExact(s.f, offset, src);
      Accepted(s, Step(stream, s, Ahead(offset, len)), s.at + s.f.cursize + offset, len);
    } else {
      RefusedExact(s.f, offset, src);
      assert s.come + {} == s.come;
    }
  }

  lemma TakeComplete(stream: Stream, s: Session, max: nat, s': Session)
    requires Faithful(stream, s) && Complete(s) && s'.come == s.come
    requires s'.f == Dequeue(s.f, max).0 && s'.at == s.at + |Dequeue(s.f, max).2|
    ensures Complete(s')
  {
    hide Dist;
    if 0 < s.f.cursize {
      DequeueHolds(s.f, stream, s.at, max);
      forall p: nat
        ensures p in s'.come <==> p < s'.at || (p < s'.at + s'.f.n && Arrived(s'.f, p - s'.at))
      {
        assert p in s.come <==> p < s.at || (p < s.at + s.f.n && Arrived(s.f, p - s.at));
      }
    }
  }

  lemma TakeFaithful(stream: Stream, s: Session, c: Request)
    requires Faithful(stream, s) && (c.Take? || c.Drop?)
    ensures Faithful(stream, Step(stream, s, c))
  {
    hide Dist, Wrap, Arrived, ReadRing;
    if 0 < s.f.cursize { DequeueHolds(s.f, stream, s.at, c.max); }
  }

  lemma StepFaithful(stream: Stream, s: Session, c: Request)
    requires Faithful(stream, s) && Allowed(s, c)
    ensures Faithful(stream, Step(stream, s, c))
  {
    hide Wrap, Arrived, CollectGood, AddGood, Enqueue, EnqueueAhead, Dequeue, Slice, Places;
    match c
    case InOrder(len) =>
      if s.f.cursize < s.f.n {
        EnqueueHolds(s.f, stream, s.at, Slice(stream, s.at + s.f.cursize, len));
      } else {
        FullStays(s.f, Slice(stream, s.at + s.f.cursize, len));
      }
    case Ahead(offset, len) =>
      AheadHolds(s.f, stream, s.at, offset, Slice(stream, s.at + s.f.cursize + offset, len));
    case _ => TakeFaithful(stream, s, c);
  }

  // The states a run passes through.
  ghost predicate Run(stream: Stream, states: seq<Session>, calls: seq<Request>) {
    && |states| == |calls| + 1
    && forall i :: 0 <= i < |calls| ==>
         Ok(states[i].f) && Allowed(states[i], calls[i])
         && states[i + 1] == Step(stream, states[i], calls[i])
  }

  // Stream reassembly: over any run from an empty fifo, what has been handed out is the stream from
  // its start, each byte in its place, and so is what can be read next: all of it up to the first byte
  // not accepted yet.
  lemma {:induction false} Reassembly(stream: Stream, size: nat, states: seq<Session>, calls: seq<Request>)
    requires 0 < size <= MAX_RING && Run(stream, states, calls) && states[0] == Create(size)
    ensures var s := states[|calls|];
            && Faithful(stream, s)
            && Unread(s.f) == Slice(stream, s.at, s.f.cursize)
            && Complete(s) && FirstMissing(s, s.at + s.f.cursize)
    decreases |calls|
  {
    hide Arrived, CollectGood, AddGood, Step, Create, Slice;
    var k := |calls|;
    if k == 0 {
      CreateFaithful(stream, size);
    } else {
      Reassembly(stream, size, states[..k], calls[..k - 1]);
      StepFaithful(stream, states[k - 1], calls[k - 1]);
      StepComplete(stream, states[k - 1], calls[k - 1]);
    }
    NextMissing(states[k]);
    ReadIsSlice(states[k].f, stream, states[k].at, states[k].f.cursize);
  }

  lemma CreateFaithful(stream: Stream, size: nat)
    requires 0 < size <= MAX_RING
    ensures Faithful(stream, Create(size)) && Complete(Create(size))
  {
  }

  // In-order data that ends exactly where the first stored segment starts makes the whole segment
  // readable and counts its bytes; the call is always allowed.
  lemma FillGap(f: Fifo, src: seq<u8>)
    requires Ok(f) && f.segs != [] && |src| == Lo(f.n, f.tail, f.segs[0])
    ensures CollectGood(f.n, f.tail, f.segs, |src|)
    ensures var (g, count) := Enqueue(f, src);
            count == Hi(f.n, f.tail, f.segs[0]) && g.cursize == f.cursize + count && g.segs == f.segs[1..]
  {
    hide Dist, Wrap, Written, PassOverrun, TryCollect, SegLag;
    var m := |src|;
    assert FirstReaching(f.n, f.tail, f.segs, m + 1, 0) == 0;
    TryCollectIs(f.n, f.tail, f.cursize, f.segs, m);
  }

  // ------------------------------------------------------------------------------------------
  // Calls the code gets wrong

  // An empty ring of 100 bytes with segments stored ahead of the tail.
  function Example(segs: seq<Seg>): Fifo {
    Fifo(100, seq(100, i => 0), 0, 0, 0, segs)
  }

  lemma AheadWrong(segs: seq<Seg>, offset: nat, len: nat)
    requires Ok(Example(segs)) && 0 < offset && offset + len <= 100
    requires !AddGood(100, 0, segs, offset, len)
    ensures forall src: seq<u8> :: |src| == len ==>
              !AheadRight(Example(segs), offset, len, EnqueueAhead(Example(segs), offset, src).0)
  {
    forall src: seq<u8> | |src| == len
      ensures !AheadRight(Example(segs), offset, len, EnqueueAhead(Example(segs), offset, src).0)
    {
      AheadExact(Example(segs), offset, src);
    }
  }

  // Bytes that repeat part of an earlier stored segment while a later one exists: the new segment
  // is linked in between and overlaps the earlier one.
  lemma RepeatOverlaps(src: seq<u8>)
    requires |src| == 3
    ensures var f := Example([Seg(10, 10), Seg(40, 10)]);
            Ok(f) && !AheadRight(f, 12, 3, EnqueueAhead(f, 12, src).0)
  {
    AheadWrong([Seg(10, 10), Seg(40, 10)], 12, 3);
  }

  // A range that starts in the gap before a segment and reaches it, with another segment further
  // back: its first bytes are stored but in no segment.
  lemma GapFrontLost(src: seq<u8>)
    requires |src| == 15
    ensures var f := Example([Seg(10, 10), Seg(40, 10)]);
            Ok(f) && !AheadRight(f, 30, 15, EnqueueAhead(f, 30, src).0)
  {
    AheadWrong([Seg(10, 10), Seg(40, 10)], 30, 15);
  }

  // A range that ends inside a later segment: the merged length is too large.
  lemma CutLaterTooLong(src: seq<u8>)
    requires |src| == 40
    ensures var f := Example([Seg(10, 10), Seg(40, 10)]);
            Ok(f) && !AheadRight(f, 5, 40, EnqueueAhead(f, 5, src).0)
  {
    AheadWrong([Seg(10, 10), Seg(40, 10)], 5, 40);
  }

  // A stored segment that ends a whole ring past the tail: its end reads as 0.
  lemma FullLapMisplaced(src: seq<u8>)
    requires |src| == 3
    ensures var f := Example([Seg(90, 10)]);
            Ok(f) && !AheadRight(f, 92, 3, EnqueueAhead(f, 92, src).0)
  {
    AheadWrong([Seg(90, 10)], 92, 3);
  }

  // Two bytes four billion places ahead: the sum wraps to 1, and they are not refused.
  lemma FarAheadTaken(src: seq<u8>)
    requires |src| == 2
    ensures EnqueueAhead(Example([]), U32_RANGE - 1, src).1 == Some(0)
  {
  }

  // In-order data that ends inside a stored segment: the tail moves on but the bytes are not
  // counted.
  lemma OverrunNotCounted(src: seq<u8>)
    requires |src| == 15
    ensures var f := Example([Seg(10, 10)]);
            Ok(f) && !EnqueueRight(f, 15, Enqueue(f, src).0, Enqueue(f, src).1)
  {
    EnqueueExact(Example([Seg(10, 10)]), src);
  }

  // In-order data that covers every stored segment: the last one stays on the list.
  lemma OverrunStale(src: seq<u8>)
    requires |src| == 30
    ensures var f := Example([Seg(10, 10)]);
            Ok(f) && !EnqueueRight(f, 30, Enqueue(f, src).0, Enqueue(f, src).1)
  {
    EnqueueExact(Example([Seg(10, 10)]), src);
  }

  // ------------------------------------------------------------------------------------------
  // Peek

  // The unread bytes from `offset` on, at most `max`.
  function Wanted(f: Fifo, offset: nat, max: nat): seq<u8>
    requires Sane(f)
  {
    if offset < f.cursize
    then ReadRing(f.data, Wrap(f.head + offset, f.n), Min(f.cursize - offset, max))
    else []
  }

  // Peek at a 32-bit offset reads what is wanted if and only if the offset is 0, or nothing is asked
  // for, or the bytes asked for are all there and do not wrap.
  lemma PeekExact(f: Fifo, offset: nat, max: nat)
    requires Ok(f) && 0 < f.cursize && offset < U32_RANGE
    ensures FifoSpec.Peek(f, offset, max).1 == Some(Wanted(f, offset, max))
       <==> var total := Min(f.cursize, max);
            || offset == 0 || total == 0
            || (f.head + offset + total <= f.n && offset + total <= f.cursize)
  {
    hide FifoSpec.Peek, Wanted;
    var total := Min(f.cursize, max);
    if offset == 0 || (0 < total && f.head + offset + total <= f.n && offset + total <= f.cursize) {
      PeekReads(f, offset, max);
    } else if total == 0 {
      PeekNothing(f, offset, max);
    } else {
      PeekMisses(f, offset, max);
    }
  }

  lemma PeekNothing(f: Fifo, offset: nat, max: nat)
    requires Ok(f) && 0 < f.cursize && Min(f.cursize, max) == 0
    ensures FifoSpec.Peek(f, offset, max).1 == Some(Wanted(f, offset, max))
  {
    hide U32, ReadRing, Wrap;
    assert Wanted(f, offset, max) == [];
    assert [] + f.data[..0] == [];
  }

  // Either the copy leaves the ring, or it returns more bytes than there are from `offset` on.
  lemma PeekMisses(f: Fifo, offset: nat, max: nat)
    requires Ok(f) && 0 < f.cursize && 0 < offset < U32_RANGE && 0 < Min(f.cursize, max)
    requires f.head + offset + Min(f.cursize, max) > f.n || offset + Min(f.cursize, max) > f.cursize
    ensures FifoSpec.Peek(f, offset, max).1 != Some(Wanted(f, offset, max))
  {
    hide U32, ReadRing, Wrap;
    var total := Min(f.cursize, max);
    if offset + total <= f.cursize {
      U32Is(f.n - f.head + offset);
      U32Is(f.head + offset);
    } else {
      assert |Wanted(f, offset, max)| < total;
    }
  }

  lemma PeekReads(f: Fifo, offset: nat, max: nat)
    requires Ok(f) && 0 < f.cursize
    requires var total := Min(f.cursize, max);
             offset == 0 || (0 < total && f.head + offset + total <= f.n && offset + total <= f.cursize)
    ensures FifoSpec.Peek(f, offset, max).1 == Some(Wanted(f, offset, max))
  {
    hide U32, ReadRing;
    U32Is(f.n - f.head + offset);
    U32Is(f.head + offset);
    var total := Min(f.cursize, max);
    RingInParts(f, offset, total, Min(f.n - f.head + offset, total));
  }

  // Bytes read in one part, or in two at the end of the ring.
  lemma RingInParts(f: Fifo, offset: nat, total: nat, first: nat)
    requires Sane(f) && total <= f.cursize && first <= total && offset <= f.cursize
    requires f.head + offset + first <= f.n && (first < total ==> f.head + offset + first == f.n && offset == 0)
    ensures total <= f.n
         && f.data[f.head + offset..f.head + offset + first] + f.data[..total - first]
            == ReadRing(f.data, Wrap(f.head + offset, f.n), total)
  {
    var got := f.data[f.head + offset..f.head + offset + first] + f.data[..total - first];
    forall i | 0 <= i < total ensures got[i] == f.data[Wrap(Wrap(f.head + offset, f.n) + i, f.n)] {}
  }

  // Four bytes are there; peeking at offset 2 reads four, of which two are not.
  lemma PeekTooFar()
    ensures var f := Fifo(10, [0, 1, 2, 3, 4, 5, 6, 7, 8, 9], 0, 4, 4, []);
            Ok(f) && FifoSpec.Peek(f, 2, 4).1 != Some(Wanted(f, 2, 4))
  {
    PeekExact(Fifo(10, [0, 1, 2, 3, 4, 5, 6, 7, 8, 9], 0, 4, 4, []), 2, 4);
  }

  // ------------------------------------------------------------------------------------------
  // The results calls return

  // Peek returns the number of bytes it copies: all that are unread, or as many as asked for; or -2 when
  // none is.
  lemma PeekCounts(f: Fifo, offset: nat, max: nat)
    requires Sane(f)
    ensures var (count, out) := FifoSpec.Peek(f, offset, max);
            if f.cursize == 0 then count == -2 && out == Some([])
            else count == (if f.cursize <= max then f.cursize else max) && (out.Some? ==> |out.value| == count)
  {
    hide U32;
  }

  // A dequeue, and a drop, return the number of bytes they take, all that are unread or as many as asked
  // for; or -2, changing nothing, when none is.
  lemma DequeueCounts(f: Fifo, max: nat)
    requires Sane(f)
    ensures var (g, count, out) := Dequeue(f, max);
            if f.cursize == 0 then count == -2 && g == f && out == []
            else count == (if f.cursize <= max then f.cursize else max) == |out| && g.cursize == f.cursize - count
  {
  }

  // An in-order enqueue returns -2, changing nothing, when the ring is full, and otherwise the number of
  // bytes that became readable; with no segment stored, that is all that fit of those given.
  lemma EnqueueCounts(f: Fifo, src: seq<u8>)
    requires Sane(f)
    ensures var (g, count) := Enqueue(f, src);
            if f.cursize == f.n then count == -2 && g == f
            else
              var m := if |src| <= f.n - f.cursize then |src| else f.n - f.cursize;
              m <= count == g.cursize - f.cursize && (f.segs == [] ==> count == m)
  {
    hide TryCollect, Written;
  }

  // An enqueue at an offset returns 0 when it stores all it is given, and leaves the readable bytes, the
  // head and the tail alone whatever it returns.
  lemma AheadCounts(f: Fifo, offset: nat, src: seq<u8>)
    requires Sane(f)
    ensures var (g, result) := EnqueueAhead(f, offset, src);
            && g.n == f.n && g.head == f.head && g.tail == f.tail && g.cursize == f.cursize
            && (offset + |src| <= f.n - f.cursize && f.n <= MAX_RING ==> result == Some(0))
            && (result == Some(-1) ==> g == f)
  {
    hide AddSegment, Written, Position, U32;
    if offset + |src| < U32_RANGE { U32Is(offset + |src|); }
  }
}
