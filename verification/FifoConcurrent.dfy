// The lock-free protocol: one producer and one consumer share the fifo and interleave at every read
// and update of cursize, every byte copied and every store of head or tail.
module FifoConcurrent {
  import opened Base
  import opened Ring
  import opened FifoSpec
  import opened FifoSegments
  import opened FifoAddExact
  import opened FifoCollectExact
  import opened FifoStream

  // Where the producer is. `total` bytes go in two copies, `first` of them before the ring's end;
  // `i` counts the bytes of the current copy. `before` is the segment list at the call.
  datatype Producer =
    | Idle
    | Testing(len: nat)
    | Reading(len: nat)
    | CopyIn1(total: nat, first: nat, i: nat)
    | StoreTail1(total: nat, first: nat)
    | WrapTail1(total: nat, first: nat)
    | CopyIn2(total: nat, first: nat, i: nat)
    | StoreTail2(total: nat, first: nat)
    | WrapTail2(total: nat, first: nat)
    | Collecting(total: nat)
    | Counting(total: nat, bytes: nat, before: seq<Seg>)
    | ReadingAhead(offset: nat, len: nat)
    | CopyAhead(offset: nat, len: nat, i: nat, before: seq<Seg>)

  // Where the consumer is; `got` are the bytes copied out so far.
  datatype Consumer =
    | Waiting
    | TestingOut(max: nat)
    | ReadingOut(max: nat)
    | CopyOut1(total: nat, first: nat, got: seq<u8>)
    | StoreHead1(total: nat, first: nat, got: seq<u8>)
    | WrapHead1(total: nat, first: nat, got: seq<u8>)
    | CopyOut2(total: nat, first: nat, got: seq<u8>)
    | StoreHead2(total: nat, first: nat, got: seq<u8>)
    | WrapHead2(total: nat, first: nat, got: seq<u8>)
    | Releasing(total: nat, got: seq<u8>)

  // The shared fields but the consumer's, and the producer; for the proof also what finished calls
  // have handed out, the ring slot of the oldest unread byte, and the sum of the counts finished
  // enqueues have returned.
  datatype Core = Core(n: nat, data: seq<u8>, cursize: nat, tail: nat, segs: seq<Seg>, p: Producer,
                       out: seq<u8>, front: nat, counted: nat)

  // The whole system: head and c are the consumer's.
  datatype State = State(core: Core, head: nat, c: Consumer)

  ghost function Init(size: nat): State {
    State(Core(size, seq(size, i => 0), 0, 0, [], Idle, [], 0, 0), 0, Waiting)
  }

  // ------------------------------------------------------------------------------------------
  // Steps

  // In-order data is wanted from here on whatever part of `len` turns out to fit.
  ghost predicate MayEnqueue(s: Core, len: nat) {
    s.tail < s.n && InRing(s.n, s.segs)
    && forall m :: Min(if s.cursize <= s.n then s.n - s.cursize else 0, len) <= m <= len ==>
         CollectGood(s.n, s.tail, s.segs, m)
  }

  ghost predicate MayGoAhead(s: Core, offset: nat, len: nat) {
    s.tail < s.n && InRing(s.n, s.segs) && 0 < offset && offset + len < U32_RANGE
    && AddGood(s.n, s.tail, s.segs, offset, len)
  }

  // The sums the producer's next step forms stay inside the ring.
  predicate ProducerReady(s: Core) {
    0 < s.n &&
    match s.p
    case Reading(len) => s.cursize <= s.n && s.tail <= s.n
    case CopyIn1(total, first, i) => i < first ==> s.tail + i < |s.data|
    case CopyIn2(total, first, i) => first + i < total ==> s.tail + i < |s.data|
    case StoreTail2(total, first) => first <= total
    case Collecting(total) => s.cursize <= s.n
    case ReadingAhead(offset, len) => s.cursize <= s.n
    case CopyAhead(offset, len, i, _) => i < len ==> i <= s.n == |s.data|
    case _ => true
  }

  // The next step inside svm_fifo_enqueue_internal or svm_fifo_enqueue_with_offset_internal2, which
  // deliver the stream's bytes; `next` is the stream place of the byte that belongs at the tail.
  function ProducerNext(stream: Stream, s: Core): Core
    requires ProducerReady(s)
  {
    var next := |s.out| + s.cursize;
    match s.p
    case Idle => s
    case Testing(len) => s.(p := if s.cursize == s.n then Idle else Reading(len))
    case Reading(len) =>
      var total := Min(s.n - s.cursize, len);
      s.(p := CopyIn1(total, Min(s.n - s.tail, total), 0))
    case CopyIn1(total, first, i) =>
      if i < first then
        s.(data := s.data[s.tail + i := stream(next + i)], p := CopyIn1(total, first, i + 1))
      else
        s.(p := StoreTail1(total, first))
    case StoreTail1(total, first) => s.(tail := s.tail + first, p := WrapTail1(total, first))
    case WrapTail1(total, first) =>
      s.(tail := if s.tail == s.n then 0 else s.tail,
         p := if first < total then CopyIn2(total, first, 0) else Collecting(total))
    case CopyIn2(total, first, i) =>
      if first + i < total then
        s.(data := s.data[s.tail + i := stream(next + first + i)], p := CopyIn2(total, first, i + 1))
      else
        s.(p := StoreTail2(total, first))
    case StoreTail2(total, first) =>
      s.(tail := s.tail + (total - first), p := WrapTail2(total, first))
    case WrapTail2(total, first) =>
      s.(tail := if s.tail == s.n then 0 else s.tail, p := Collecting(total))
    case Collecting(total) =>
      var c := if s.segs == [] then Collected(s.tail, [], 0)
               else TryCollect(s.n, s.tail, s.cursize, s.segs, total);
      s.(tail := c.tail, segs := c.segs, p := Counting(total, c.bytes, s.segs))
    case Counting(total, bytes, before) =>
      s.(cursize := s.cursize + total + bytes, p := Idle, counted := s.counted + total + bytes)
    case ReadingAhead(offset, len) =>
      if U32(len + offset) > s.n - s.cursize then
        s.(p := Idle)
      else
        s.(segs := Spliced(s.segs, AddSegment(s.n, s.tail, s.segs, offset, len)),
           p := CopyAhead(offset, len, 0, s.segs))
    case CopyAhead(offset, len, i, before) =>
      if i < len then
        s.(data := s.data[AheadSlot(s, offset, i) := stream(next + offset + i)],
           p := CopyAhead(offset, len, i + 1, before))
      else
        s.(p := Idle)
  }

  // Slot of byte i of an enqueue at an offset.
  function AheadSlot(s: Core, offset: nat, i: nat): (r: nat)
    requires 0 < s.n && i <= s.n
    ensures r < s.n
  {
    Wrap(Position(s.n, s.tail, offset) + i, s.n)
  }

  // A producer step: a call begins, or goes on.
  ghost predicate ProducerStep(stream: Stream, s: Core, s': Core) {
    if s.p.Idle? then
      || (exists len :: MayEnqueue(s, len) && s' == s.(p := Testing(len)))
      || (exists offset, len :: MayGoAhead(s, offset, len) && s' == s.(p := ReadingAhead(offset, len)))
    else
      ProducerReady(s) && s' == ProducerNext(stream, s)
  }

  predicate ConsumerReady(s: State) {
    match s.c
    case ReadingOut(max) => s.head <= s.core.n
    case CopyOut1(total, first, got) => |got| < first ==> s.head + |got| < |s.core.data|
    case CopyOut2(total, first, got) =>
      |got| < total ==> first <= |got| && s.head + (|got| - first) < |s.core.data|
    case StoreHead2(total, first, got) => first <= total
    case Releasing(total, got) => total <= s.core.cursize && s.core.front + total < 2 * s.core.n
    case _ => true
  }

  // The next step inside svm_fifo_dequeue_internal2.
  function ConsumerNext(s: State): State
    requires ConsumerReady(s)
  {
    var r := s.core;
    match s.c
    case Waiting => s
    case TestingOut(max) => s.(c := if r.cursize == 0 then Waiting else ReadingOut(max))
    case ReadingOut(max) =>
      var total := Min(r.cursize, max);
      s.(c := CopyOut1(total, Min(r.n - s.head, total), []))
    case CopyOut1(total, first, got) =>
      s.(c := if |got| < first then CopyOut1(total, first, got + [r.data[s.head + |got|]])
              else StoreHead1(total, first, got))
    case StoreHead1(total, first, got) => s.(head := s.head + first, c := WrapHead1(total, first, got))
    case WrapHead1(total, first, got) =>
      s.(head := if s.head == r.n then 0 else s.head,
         c := if first < total then CopyOut2(total, first, got) else Releasing(total, got))
    case CopyOut2(total, first, got) =>
      s.(c := if |got| < total then CopyOut2(total, first, got + [r.data[s.head + (|got| - first)]])
              else StoreHead2(total, first, got))
    case StoreHead2(total, first, got) =>
      s.(head := s.head + (total - first), c := WrapHead2(total, first, got))
    case WrapHead2(total, first, got) =>
      s.(head := if s.head == r.n then 0 else s.head, c := Releasing(total, got))
    case Releasing(total, got) => s.(c := Waiting, core := Released(r, total, got))
  }

  // A consumer step: a call begins, or goes on.
  ghost predicate ConsumerStep(s: State, s': State) {
    if s.c.Waiting? then exists max :: s' == s.(c := TestingOut(max))
    else ConsumerReady(s) && s' == ConsumerNext(s)
  }

  // The atomic subtraction that ends a dequeue.
  function Released(r: Core, total: nat, got: seq<u8>): Core
    requires total <= r.cursize && r.front + total < 2 * r.n
  {
    r.(cursize := r.cursize - total, out := r.out + got, front := Wrap(r.front + total, r.n))
  }

  ghost predicate Next(stream: Stream, s: State, s': State) {
    || (ProducerStep(stream, s.core, s'.core) && s' == s.(core := s'.core))
    || ConsumerStep(s, s')
  }

  // ------------------------------------------------------------------------------------------
  // The invariant

  // The segment list as it was when the call in progress began.
  function Stored(s: Core): seq<Seg> {
    match s.p
    case Counting(_, _, before) => before
    case CopyAhead(_, _, _, before) => before
    case _ => s.segs
  }

  ghost predicate Shape(s: Core) {
    0 < s.n <= MAX_RING && |s.data| == s.n && s.front < s.n && s.cursize <= s.n
  }

  // Ring slot one past the last unread byte.
  function Back(s: Core): nat
    requires s.front < s.n && s.cursize <= s.n
  {
    Wrap(s.front + s.cursize, s.n)
  }

  // The fifo as finished calls left it.
  ghost function Settled(s: Core): Fifo
    requires Shape(s)
  {
    Fifo(s.n, s.data, s.front, Back(s), s.cursize, Stored(s))
  }

  // The stream's byte g is in its slot.
  ghost predicate AtPlace(stream: Stream, s: Core, g: nat) {
    Shape(s) && |s.out| <= g < |s.out| + s.n
    && s.data[Wrap(s.front + (g - |s.out|), s.n)] == stream(g)
  }

  // The stream's `count` bytes from `offset` past the back are in their slots.
  ghost predicate InPlace(stream: Stream, s: Core, offset: nat, count: nat) {
    var g0 := |s.out| + s.cursize + offset;
    forall g: nat {:trigger AtPlace(stream, s, g)} :: g0 <= g < g0 + count ==> AtPlace(stream, s, g)
  }

  // An in-order call has fixed the number of bytes it stores.
  ghost predicate Chosen(s: Core, total: nat, first: nat)
    requires Shape(s) && InRing(s.n, Stored(s))
  {
    && s.cursize + total <= s.n && first == Min(s.n - Back(s), total)
    && CollectGood(s.n, Back(s), Stored(s), total)
  }

  ghost predicate ProducerInv(stream: Stream, s: Core)
    requires Shape(s) && InRing(s.n, Stored(s))
  {
    match s.p
    case Idle => s.tail == Back(s)
    case Testing(len) => s.tail == Back(s) && MayEnqueue(s, len)
    case Reading(len) => s.tail == Back(s) && MayEnqueue(s, len)
    case CopyIn1(total, first, i) =>
      s.tail == Back(s) && Chosen(s, total, first) && i <= first && InPlace(stream, s, 0, i)
    case StoreTail1(total, first) =>
      s.tail == Back(s) && Chosen(s, total, first) && InPlace(stream, s, 0, first)
    case WrapTail1(total, first) =>
      s.tail == Back(s) + first && Chosen(s, total, first) && InPlace(stream, s, 0, first)
    case CopyIn2(total, first, i) =>
      s.tail == 0 && Chosen(s, total, first) && first < total && first + i <= total
      && InPlace(stream, s, 0, first + i)
    case StoreTail2(total, first) =>
      s.tail == 0 && Chosen(s, total, first) && first < total && InPlace(stream, s, 0, total)
    case WrapTail2(total, first) =>
      s.tail == total - first && Chosen(s, total, first) && first < total && InPlace(stream, s, 0, total)
    case Collecting(total) =>
      s.cursize + total <= s.n && s.tail == Wrap(Back(s) + total, s.n)
      && CollectGood(s.n, Back(s), s.segs, total) && InPlace(stream, s, 0, total)
    case Counting(total, bytes, before) =>
      s.cursize + total <= s.n && InPlace(stream, s, 0, total)
      && CollectRight(s.n, Back(s), s.cursize, before, total, Collected(s.tail, s.segs, bytes))
    case ReadingAhead(offset, len) =>
      s.tail == Back(s) && 0 < offset && offset + len < U32_RANGE && AddGood(s.n, s.tail, s.segs, offset, len)
    case CopyAhead(offset, len, i, before) =>
      s.tail == Back(s) && 0 < offset && i <= len && s.cursize + offset + len <= s.n
      && AddGood(s.n, s.tail, before, offset, len)
      && s.segs == Spliced(before, AddSegment(s.n, s.tail, before, offset, len))
      && InPlace(stream, s, offset, i)
  }

  // The ring as far as the producer is concerned.
  ghost predicate CoreInv(stream: Stream, s: Core) {
    && Shape(s) && Holds(Settled(s), stream, |s.out|)
    && s.out == Slice(stream, 0, |s.out|)
    && ProducerInv(stream, s)
  }

  // `got` are the first of `total` unread bytes.
  ghost predicate Got(stream: Stream, s: Core, got: seq<u8>, total: nat, first: nat)
    requires Shape(s)
  {
    && total <= s.cursize && first == Min(s.n - s.front, total) && |got| <= total
    && got == Slice(stream, |s.out|, |got|)
  }

  ghost predicate ConsumerInv(stream: Stream, r: Core, head: nat, c: Consumer)
    requires Shape(r)
  {
    match c
    case Waiting => head == r.front
    case TestingOut(_) => head == r.front
    case ReadingOut(_) => head == r.front && 0 < r.cursize
    case CopyOut1(total, first, got) =>
      head == r.front && Got(stream, r, got, total, first) && |got| <= first
    case StoreHead1(total, first, got) =>
      head == r.front && Got(stream, r, got, total, first) && |got| == first
    case WrapHead1(total, first, got) =>
      head == r.front + first && Got(stream, r, got, total, first) && |got| == first
    case CopyOut2(total, first, got) =>
      head == 0 && Got(stream, r, got, total, first) && first <= |got| && first < total
    case StoreHead2(total, first, got) =>
      head == 0 && Got(stream, r, got, total, first) && |got| == total && first < total
    case WrapHead2(total, first, got) =>
      head == total - first && Got(stream, r, got, total, first) && |got| == total && first < total
    case Releasing(total, got) =>
      total <= r.cursize && head == Wrap(r.front + total, r.n)
      && got == Slice(stream, |r.out|, total)
  }

  ghost predicate Inv(stream: Stream, s: State) {
    CoreInv(stream, s.core) && ConsumerInv(stream, s.core, s.head, s.c)
  }

  lemma InitInv(stream: Stream, size: nat)
    requires 0 < size <= MAX_RING
    ensures Inv(stream, Init(size))
  {
  }

  // ------------------------------------------------------------------------------------------
  // Consumer steps

  // One byte read by the consumer is the stream's next.
  lemma GotMore(stream: Stream, s: Core, got: seq<u8>, total: nat, first: nat, at: nat)
    requires CoreInv(stream, s) && Got(stream, s, got, total, first) && |got| < total
    requires at == Wrap(s.front + |got|, s.n)
    ensures Got(stream, s, got + [s.data[at]], total, first)
  {
    assert Arrived(Settled(s), |got|);
  }

  lemma CopyOut1Keeps(stream: Stream, s: State, s': State)
    requires Inv(stream, s) && ConsumerStep(s, s') && s.c.CopyOut1?
    ensures Inv(stream, s')
  {
    hide CoreInv, Slice;
    CoreShape(stream, s.core);
    if |s.c.got| < s.c.first {
      GotMore(stream, s.core, s.c.got, s.c.total, s.c.first, s.head + |s.c.got|);
    }
  }

  lemma CopyOut2Keeps(stream: Stream, s: State, s': State)
    requires Inv(stream, s) && ConsumerStep(s, s') && s.c.CopyOut2?
    ensures Inv(stream, s')
  {
    hide CoreInv, Slice;
    CoreShape(stream, s.core);
    if |s.c.got| < s.c.total {
      GotMore(stream, s.core, s.c.got, s.c.total, s.c.first, s.head + (|s.c.got| - s.c.first));
    }
  }

  lemma StoreHeadKeeps(stream: Stream, s: State, s': State)
    requires Inv(stream, s) && ConsumerStep(s, s')
    requires s.c.StoreHead1? || s.c.WrapHead1? || s.c.StoreHead2? || s.c.WrapHead2?
    ensures Inv(stream, s')
  {
    hide CoreInv, Slice;
    CoreShape(stream, s.core);
  }

  lemma BeginOutKeeps(stream: Stream, s: State, s': State)
    requires Inv(stream, s) && ConsumerStep(s, s')
    requires s.c.Waiting? || s.c.TestingOut? || s.c.ReadingOut?
    ensures Inv(stream, s')
  {
    hide CoreInv, Slice;
    CoreShape(stream, s.core);
    if s.c.ReadingOut? { assert Slice(stream, |s.core.out|, 0) == []; }
  }

  lemma ConsumerKeeps(stream: Stream, s: State, s': State)
    requires Inv(stream, s) && ConsumerStep(s, s') && !s.c.Releasing?
    ensures Inv(stream, s')
  {
    hide *;
    match s.c
    case CopyOut1(_, _, _) => CopyOut1Keeps(stream, s, s');
    case CopyOut2(_, _, _) => CopyOut2Keeps(stream, s, s');
    case Waiting => BeginOutKeeps(stream, s, s');
    case TestingOut(_) => BeginOutKeeps(stream, s, s');
    case ReadingOut(_) => BeginOutKeeps(stream, s, s');
    case _ => StoreHeadKeeps(stream, s, s');
  }

  // The consumer lets go of `total` bytes. The back stays where it is.
  lemma ReleasedBack(s: Core, total: nat, got: seq<u8>)
    requires Shape(s) && total <= s.cursize && |got| == total
    ensures var s' := Released(s, total, got);
            && Shape(s') && Back(s') == Back(s) && Stored(s') == Stored(s)
            && |s'.out| + s'.cursize == |s.out| + s.cursize
  {
  }

  lemma ReleasedInPlace(stream: Stream, s: Core, total: nat, got: seq<u8>, offset: nat, count: nat)
    requires Shape(s) && total <= s.cursize && |got| == total && InPlace(stream, s, offset, count)
    ensures InPlace(stream, Released(s, total, got), offset, count)
  {
    var s' := Released(s, total, got);
    forall g: nat | |s'.out| + s'.cursize + offset <= g < |s'.out| + s'.cursize + offset + count
      ensures AtPlace(stream, s', g)
    {
      assert AtPlace(stream, s, g);
    }
  }

  // The first of the two copies, the second, and everything else the producer may be doing.
  lemma ReleasedFirst(stream: Stream, s: Core, total: nat, got: seq<u8>)
    requires Shape(s) && InRing(s.n, Stored(s)) && ProducerInv(stream, s)
    requires s.p.CopyIn1? || s.p.StoreTail1? || s.p.WrapTail1?
    requires total <= s.cursize && |got| == total
    ensures ProducerInv(stream, Released(s, total, got))
  {
    hide Wrap, Dist, InPlace, CollectGood, AddGood;
    ReleasedBack(s, total, got);
    ReleasedInPlace(stream, s, total, got, 0, if s.p.CopyIn1? then s.p.i else s.p.first);
  }

  lemma ReleasedSecond(stream: Stream, s: Core, total: nat, got: seq<u8>)
    requires Shape(s) && InRing(s.n, Stored(s)) && ProducerInv(stream, s)
    requires s.p.CopyIn2? || s.p.StoreTail2? || s.p.WrapTail2?
    requires total <= s.cursize && |got| == total
    ensures ProducerInv(stream, Released(s, total, got))
  {
    hide Wrap, Dist, InPlace, CollectGood, AddGood;
    ReleasedBack(s, total, got);
    ReleasedInPlace(stream, s, total, got, 0, if s.p.CopyIn2? then s.p.first + s.p.i else s.p.total);
  }

  lemma ReleasedCounting(stream: Stream, s: Core, total: nat, got: seq<u8>)
    requires Shape(s) && InRing(s.n, Stored(s)) && ProducerInv(stream, s) && s.p.Counting?
    requires total <= s.cursize && |got| == total
    ensures ProducerInv(stream, Released(s, total, got))
  {
    hide Wrap, Dist, InPlace, CollectGood, AddGood;
    ReleasedBack(s, total, got);
    ReleasedInPlace(stream, s, total, got, 0, s.p.total);
  }

  lemma ReleasedOther(stream: Stream, s: Core, total: nat, got: seq<u8>)
    requires Shape(s) && InRing(s.n, Stored(s)) && ProducerInv(stream, s)
    requires s.p.Idle? || s.p.Testing? || s.p.Reading? || s.p.Collecting? || s.p.ReadingAhead? || s.p.CopyAhead?
    requires total <= s.cursize && |got| == total
    ensures ProducerInv(stream, Released(s, total, got))
  {
    hide Wrap, Dist, InPlace, CollectGood, AddGood;
    ReleasedBack(s, total, got);
    if s.p.Collecting? { ReleasedInPlace(stream, s, total, got, 0, s.p.total); }
    if s.p.CopyAhead? { ReleasedInPlace(stream, s, total, got, s.p.offset, s.p.i); }
  }

  lemma ReleasedProducer(stream: Stream, s: Core, total: nat, got: seq<u8>)
    requires Shape(s) && InRing(s.n, Stored(s)) && ProducerInv(stream, s)
    requires total <= s.cursize && |got| == total
    ensures ProducerInv(stream, Released(s, total, got))
  {
    hide ProducerInv;
    if s.p.CopyIn1? || s.p.StoreTail1? || s.p.WrapTail1? {
      ReleasedFirst(stream, s, total, got);
    } else if s.p.CopyIn2? || s.p.StoreTail2? || s.p.WrapTail2? {
      ReleasedSecond(stream, s, total, got);
    } else if s.p.Counting? {
      ReleasedCounting(stream, s, total, got);
    } else {
      ReleasedOther(stream, s, total, got);
    }
  }

  lemma SliceJoin(stream: Stream, from: nat, a: nat, b: nat)
    ensures Slice(stream, from, a) + Slice(stream, from + a, b) == Slice(stream, from, a + b)
  {
  }

  lemma ReleasedInv(stream: Stream, s: Core, total: nat, got: seq<u8>)
    requires CoreInv(stream, s) && total <= s.cursize && got == Slice(stream, |s.out|, total)
    ensures CoreInv(stream, Released(s, total, got))
  {
    hide ProducerInv, Slice;
    var s' := Released(s, total, got);
    ReleasedBack(s, total, got);
    ReleasedProducer(stream, s, total, got);
    SliceJoin(stream, 0, |s.out|, total);
    if s.cursize > 0 {
      DequeueHolds(Settled(s), stream, |s.out|, total);
      assert Settled(s') == Dequeue(Settled(s), total).0;
    } else {
      assert s' == s;
    }
  }

  lemma ConsumerInvariant(stream: Stream, s: State, s': State)
    requires Inv(stream, s) && ConsumerStep(s, s')
    ensures Inv(stream, s')
  {
    if s.c.Releasing? {
      ReleasedInv(stream, s.core, s.c.total, s.c.got);
    } else {
      ConsumerKeeps(stream, s, s');
    }
  }

  // ------------------------------------------------------------------------------------------
  // Producer steps

  // Writing the stream's byte in its slot, readable or not, keeps the fifo faithful.
  lemma PokeHolds(f: Fifo, stream: Stream, at: nat, k: nat)
    requires Holds(f, stream, at) && k < f.n
    ensures Holds(f.(data := f.data[Wrap(f.head + k, f.n) := stream(at + k)]), stream, at)
  {
    var g := f.(data := f.data[Wrap(f.head + k, f.n) := stream(at + k)]);
    forall j | 0 <= j < g.n && Arrived(g, j) ensures g.data[Wrap(g.head + j, g.n)] == stream(at + j) {
      assert Arrived(f, j);
      if j != k { assert Wrap(f.head + j, f.n) != Wrap(f.head + k, f.n); }
    }
  }

  // The producer writes the next byte of its copy, `offset + i` past the back.
  function Wrote(stream: Stream, s: Core, k: nat, p: Producer): Core
    requires s.front < s.n == |s.data| && k < s.n
  {
    s.(data := s.data[Wrap(s.front + k, s.n) := stream(|s.out| + k)], p := p)
  }

  lemma WroteInPlace(stream: Stream, s: Core, offset: nat, i: nat, p: Producer)
    requires Shape(s) && s.cursize + offset + i < s.n && InPlace(stream, s, offset, i)
    ensures InPlace(stream, Wrote(stream, s, s.cursize + offset + i, p), offset, i + 1)
  {
    var s' := Wrote(stream, s, s.cursize + offset + i, p);
    var g0 := |s.out| + s.cursize + offset;
    forall g: nat | g0 <= g < g0 + i + 1 ensures AtPlace(stream, s', g) {
      if g < g0 + i { assert AtPlace(stream, s, g); }
    }
  }

  // The fifo as finished calls left it does not change with the producer's own fields.
  lemma SettledSame(stream: Stream, s: Core, s': Core)
    requires Shape(s) && s' == s.(tail := s'.tail, segs := s'.segs, p := s'.p) && Stored(s') == Stored(s)
    ensures Shape(s') && Settled(s') == Settled(s)
    ensures forall g: nat :: AtPlace(stream, s', g) <==> AtPlace(stream, s, g)
  {
  }

  lemma BeginKeeps(stream: Stream, s: Core, s': Core)
    requires CoreInv(stream, s) && ProducerStep(stream, s, s') && s.p.Idle?
    ensures CoreInv(stream, s')
  {
    hide AddGood, CollectGood, Slice, Holds, ProducerNext;
    SettledSame(stream, s, s');
  }

  lemma StartKeeps(stream: Stream, s: Core, s': Core)
    requires CoreInv(stream, s) && ProducerStep(stream, s, s') && (s.p.Testing? || s.p.Reading?)
    ensures CoreInv(stream, s')
  {
    hide AddGood, CollectGood, AddSegment, Slice, Holds, TryCollect, Position;
    SettledSame(stream, s, s');
  }

  lemma GoAheadIs(stream: Stream, s: Core, s': Core)
    requires CoreInv(stream, s) && ProducerStep(stream, s, s') && s.p.ReadingAhead?
    ensures InRing(s.n, s.segs) && s.tail < s.n && s.cursize <= s.n
    ensures s' == if s.p.offset + s.p.len > s.n - s.cursize then s.(p := Idle)
                  else s.(segs := Spliced(s.segs, AddSegment(s.n, s.tail, s.segs, s.p.offset, s.p.len)),
                          p := CopyAhead(s.p.offset, s.p.len, 0, s.segs))
  {
    hide AddGood, AddSegment, Slice, Arrived;
  }

  lemma GoAheadKeeps(stream: Stream, s: Core, s': Core)
    requires CoreInv(stream, s) && ProducerStep(stream, s, s') && s.p.ReadingAhead?
    ensures CoreInv(stream, s')
  {
    hide ProducerStep, AddGood, AddSegment, Slice, Holds;
    GoAheadIs(stream, s, s');
    SettledSame(stream, s, s');
  }

  lemma StoreKeeps1(stream: Stream, s: Core, s': Core)
    requires CoreInv(stream, s) && ProducerStep(stream, s, s') && (s.p.StoreTail1? || s.p.WrapTail1?)
    ensures CoreInv(stream, s')
  {
    hide AddGood, CollectGood, AddSegment, Slice, Holds, AtPlace;
    SettledSame(stream, s, s');
  }

  lemma StoreKeeps2(stream: Stream, s: Core, s': Core)
    requires CoreInv(stream, s) && ProducerStep(stream, s, s') && (s.p.StoreTail2? || s.p.WrapTail2?)
    ensures CoreInv(stream, s')
  {
    hide AddGood, CollectGood, AddSegment, Slice, Holds, AtPlace;
    SettledSame(stream, s, s');
  }

  lemma WroteKeeps(stream: Stream, s: Core, offset: nat, i: nat, p: Producer)
    requires Shape(s) && Holds(Settled(s), stream, |s.out|)
    requires s.cursize + offset + i < s.n && InPlace(stream, s, offset, i)
    requires Stored(s.(p := p)) == Stored(s)
    ensures var s' := Wrote(stream, s, s.cursize + offset + i, p);
            Shape(s') && Holds(Settled(s'), stream, |s'.out|) && InPlace(stream, s', offset, i + 1)
  {
    hide Holds, InPlace, Wrap;
    PokeHolds(Settled(s), stream, |s.out|, s.cursize + offset + i);
    WroteInPlace(stream, s, offset, i, p);
  }

  lemma Copy1Is(stream: Stream, s: Core, s': Core)
    requires CoreInv(stream, s) && ProducerStep(stream, s, s') && s.p.CopyIn1?
    ensures InRing(s.n, Stored(s)) && s.p.i <= s.p.first <= s.p.total <= s.n - s.cursize
    ensures s' == if s.p.i < s.p.first
                  then Wrote(stream, s, s.cursize + s.p.i, CopyIn1(s.p.total, s.p.first, s.p.i + 1))
                  else s.(p := StoreTail1(s.p.total, s.p.first))
  {
  }

  lemma Copy1Keeps(stream: Stream, s: Core, s': Core)
    requires CoreInv(stream, s) && ProducerStep(stream, s, s') && s.p.CopyIn1?
    ensures CoreInv(stream, s')
  {
    hide ProducerStep, Wrap, CollectGood, Slice, Holds, InPlace;
    Copy1Is(stream, s, s');
    if s.p.i < s.p.first {
      WroteKeeps(stream, s, 0, s.p.i, s'.p);
    } else {
      SettledSame(stream, s, s');
      InPlaceSame(stream, s, s', 0, s.p.i);
    }
  }

  lemma Copy2Is(stream: Stream, s: Core, s': Core)
    requires CoreInv(stream, s) && ProducerStep(stream, s, s') && s.p.CopyIn2?
    ensures InRing(s.n, Stored(s)) && s.p.first + s.p.i <= s.p.total <= s.n - s.cursize
    ensures s' == if s.p.first + s.p.i < s.p.total
                  then Wrote(stream, s, s.cursize + s.p.first + s.p.i,
                             CopyIn2(s.p.total, s.p.first, s.p.i + 1))
                  else s.(p := StoreTail2(s.p.total, s.p.first))
  {
  }

  lemma Copy2Keeps(stream: Stream, s: Core, s': Core)
    requires CoreInv(stream, s) && ProducerStep(stream, s, s') && s.p.CopyIn2?
    ensures CoreInv(stream, s')
  {
    hide ProducerStep, Wrap, CollectGood, Slice, Holds, InPlace;
    Copy2Is(stream, s, s');
    if s.p.first + s.p.i < s.p.total {
      WroteKeeps(stream, s, 0, s.p.first + s.p.i, s'.p);
    } else {
      SettledSame(stream, s, s');
      InPlaceSame(stream, s, s', 0, s.p.first + s.p.i);
    }
  }

  lemma InPlaceSame(stream: Stream, s: Core, s': Core, offset: nat, count: nat)
    requires Shape(s) && s' == s.(tail := s'.tail, segs := s'.segs, p := s'.p)
    requires InPlace(stream, s, offset, count)
    ensures InPlace(stream, s', offset, count)
  {
    forall g: nat | |s.out| + s.cursize + offset <= g < |s.out| + s.cursize + offset + count
      ensures AtPlace(stream, s', g)
    {
      assert AtPlace(stream, s, g);
    }
  }

  lemma CollectKeeps(stream: Stream, s: Core, s': Core)
    requires CoreInv(stream, s) && ProducerStep(stream, s, s') && s.p.Collecting?
    ensures CoreInv(stream, s')
  {
    hide TryCollect, InPlace;
    var total := s.p.total;
    InPlaceSame(stream, s, s', 0, total);
    SettledSame(stream, s, s');
    if s.segs != [] {
      CollectGoodRight(s.n, Back(s), s.cursize, s.segs, total);
    }
  }

  // Counting the bytes in: they, and the segment that follows them, become readable at once.
  lemma CountHolds(stream: Stream, s: Core, g: Fifo, m: nat, bytes: nat)
    requires Shape(s) && Holds(Settled(s), stream, |s.out|) && InPlace(stream, s, 0, m)
    requires s.cursize + m <= s.n
    requires CollectRight(s.n, Back(s), s.cursize, Stored(s), m, Collected(g.tail, g.segs, bytes))
    requires g == Settled(s).(tail := g.tail, segs := g.segs, cursize := s.cursize + m + bytes)
    ensures Ok(g) && Holds(g, stream, |s.out|)
  {
    hide Dist, CollectRight;
    var f := Settled(s);
    CollectsRight(f, m, g, bytes);
    forall k | 0 <= k < g.n && Arrived(g, k)
      ensures g.data[Wrap(g.head + k, g.n)] == stream(|s.out| + k)
    {
      assert Came(f, m, k);
      if !Arrived(f, k) { assert AtPlace(stream, s, |s.out| + k); }
    }
  }

  lemma CountKeeps(stream: Stream, s: Core, s': Core)
    requires CoreInv(stream, s) && ProducerStep(stream, s, s') && s.p.Counting?
    ensures CoreInv(stream, s')
  {
    hide Dist, Slice, InPlace, Holds;
    var m, bytes := s.p.total, s.p.bytes;
    var g := Fifo(s.n, s.data, s.front, s.tail, s'.cursize, s.segs);
    CountHolds(stream, s, g, m, bytes);
  }

  lemma AheadSettles(stream: Stream, s: Core, g: Fifo, offset: nat, len: nat)
    requires Shape(s) && Holds(Settled(s), stream, |s.out|) && InPlace(stream, s, offset, len)
    requires 0 < offset && s.cursize + offset + len <= s.n && AddGood(s.n, Back(s), Stored(s), offset, len)
    requires g == Settled(s).(segs := Spliced(Stored(s), AddSegment(s.n, Back(s), Stored(s), offset, len)))
    ensures Ok(g) && Holds(g, stream, |s.out|)
  {
    hide AddGood, AddSegment, Spliced, SegsOk, Covered;
    var f := Settled(s);
    SplicedAhead(f, offset, len, g);
    forall k | 0 <= k < g.n && Arrived(g, k)
      ensures g.data[Wrap(g.head + k, g.n)] == stream(|s.out| + k)
    {
      hide Wrap;
      if !Arrived(f, k) { assert AtPlace(stream, s, |s.out| + k); }
    }
  }

  lemma AheadSlotIs(s: Core, offset: nat, i: nat)
    requires Shape(s) && s.n <= MAX_RING && s.tail == Back(s) && s.cursize + offset + i < s.n
    ensures AheadSlot(s, offset, i) == Wrap(s.front + (s.cursize + offset + i), s.n)
  {
    hide Wrap, Position;
    WrapTwice(s.front + s.cursize, offset, s.n);
    PositionIs(s.n, s.tail, offset);
    WrapTwice(s.front + s.cursize + offset, i, s.n);
  }

  lemma AheadIs(stream: Stream, s: Core, s': Core)
    requires CoreInv(stream, s) && ProducerStep(stream, s, s') && s.p.CopyAhead?
    ensures InRing(s.n, Stored(s)) && s.cursize + s.p.offset + s.p.len <= s.n
    ensures s' == if s.p.i < s.p.len
                  then Wrote(stream, s, s.cursize + s.p.offset + s.p.i,
                             CopyAhead(s.p.offset, s.p.len, s.p.i + 1, s.p.before))
                  else s.(p := Idle)
  {
    hide AheadSlot, Wrap, Arrived, AddGood, AddSegment, Spliced, Slice, U32, InPlace;
    if s.p.i < s.p.len { AheadSlotIs(s, s.p.offset, s.p.i); }
  }

  lemma AheadKeeps(stream: Stream, s: Core, s': Core)
    requires CoreInv(stream, s) && ProducerStep(stream, s, s') && s.p.CopyAhead?
    ensures CoreInv(stream, s')
  {
    hide ProducerStep, Wrap, Dist, AddGood, AddSegment, Slice, Holds, InPlace;
    AheadIs(stream, s, s');
    if s.p.i < s.p.len {
      WroteKeeps(stream, s, s.p.offset, s.p.i, s'.p);
    } else {
      AheadSettles(stream, s, Settled(s'), s.p.offset, s.p.len);
    }
  }

  lemma ProducerKeeps(stream: Stream, s: Core, s': Core)
    requires CoreInv(stream, s) && ProducerStep(stream, s, s')
    ensures CoreInv(stream, s')
  {
    hide CoreInv, ProducerStep;
    match s.p
    case CopyIn1(_, _, _) => Copy1Keeps(stream, s, s');
    case CopyIn2(_, _, _) => Copy2Keeps(stream, s, s');
    case Collecting(_) => CollectKeeps(stream, s, s');
    case Counting(_, _, _) => CountKeeps(stream, s, s');
    case CopyAhead(_, _, _, _) => AheadKeeps(stream, s, s');
    case Idle => BeginKeeps(stream, s, s');
    case Testing(_) => StartKeeps(stream, s, s');
    case Reading(_) => StartKeeps(stream, s, s');
    case ReadingAhead(_, _) => GoAheadKeeps(stream, s, s');
    case StoreTail1(_, _) => StoreKeeps1(stream, s, s');
    case WrapTail1(_, _) => StoreKeeps1(stream, s, s');
    case _ => StoreKeeps2(stream, s, s');
  }

  // The consumer's view survives every producer step: cursize only grows.
  lemma GrownUnseen(stream: Stream, s: Core, s': Core, head: nat, c: Consumer)
    requires Shape(s) && Shape(s') && ConsumerInv(stream, s, head, c)
    requires s'.n == s.n && s'.front == s.front && s'.out == s.out && s.cursize <= s'.cursize
    ensures ConsumerInv(stream, s', head, c)
  {
    hide Shape, Slice, Wrap;
  }

  lemma ProducerUnseen(stream: Stream, s: Core, s': Core, head: nat, c: Consumer)
    requires CoreInv(stream, s) && ProducerStep(stream, s, s') && ConsumerInv(stream, s, head, c)
    requires Shape(s')
    ensures ConsumerInv(stream, s', head, c)
  {
    hide CoreInv, ProducerStep, ConsumerInv, Shape;
    CoreShape(stream, s);
    ProducerGrows(stream, s, s');
    GrownUnseen(stream, s, s', head, c);
  }

  lemma ProducerGrows(stream: Stream, s: Core, s': Core)
    requires ProducerStep(stream, s, s')
    ensures s'.n == s.n && s'.front == s.front && s'.out == s.out && s.cursize <= s'.cursize
  {
  }

  lemma NextKeeps(stream: Stream, s: State, s': State)
    requires Inv(stream, s) && Next(stream, s, s')
    ensures Inv(stream, s')
  {
    hide CoreInv, ProducerStep, ConsumerStep, ConsumerInv;
    if ProducerStep(stream, s.core, s'.core) && s' == s.(core := s'.core) {
      ProducerKeeps(stream, s.core, s'.core);
      CoreShape(stream, s'.core);
      ProducerUnseen(stream, s.core, s'.core, s.head, s.c);
    } else {
      ConsumerInvariant(stream, s, s');
    }
  }

  lemma CoreShape(stream: Stream, s: Core)
    requires CoreInv(stream, s)
    ensures Shape(s)
  {
  }

  lemma CoreProducer(stream: Stream, s: Core)
    requires CoreInv(stream, s)
    ensures Shape(s) && InRing(s.n, Stored(s)) && ProducerInv(stream, s)
  {
  }

  // ------------------------------------------------------------------------------------------
  // What holds in every reachable state

  ghost predicate Run(stream: Stream, states: seq<State>, size: nat) {
    && |states| > 0 && states[0] == Init(size)
    && forall i :: 0 <= i < |states| - 1 ==> Next(stream, states[i], states[i + 1])
  }

  lemma {:induction false} RunInv(stream: Stream, states: seq<State>, size: nat, i: nat)
    requires 0 < size <= MAX_RING && Run(stream, states, size) && i < |states|
    ensures Inv(stream, states[i])
  {
    if i == 0 {
      InitInv(stream, size);
    } else {
      RunInv(stream, states, size, i - 1);
      assert Next(stream, states[i - 1], states[i - 1 + 1]);
      NextKeeps(stream, states[i - 1], states[i]);
    }
  }

  // Slot the producer writes next, if it is about to write a byte.
  function WriteSlot(s: Core): Option<nat> {
    match s.p
    case CopyIn1(total, first, i) => if i < first then Some(s.tail + i) else None
    case CopyIn2(total, first, i) => if first + i < total then Some(s.tail + i) else None
    case CopyAhead(offset, len, i, _) =>
      if i < len && 0 < s.n && i <= s.n then Some(AheadSlot(s, offset, i)) else None
    case _ => None
  }

  // Slot the consumer reads next, if it is about to read a byte.
  function ReadSlot(s: State): Option<nat> {
    match s.c
    case CopyOut1(total, first, got) => if |got| < first then Some(s.head + |got|) else None
    case CopyOut2(total, first, got) =>
      if first <= |got| < total then Some(s.head + (|got| - first)) else None
    case _ => None
  }

  // Slot k holds an unread byte.
  ghost predicate UnreadSlot(s: Core, k: nat) {
    Shape(s) && k < s.n && Dist(s.n, s.front, k) < s.cursize
  }

  // In every interleaving: what finished calls have handed out is the stream from its start, and with
  // the unread bytes as many as finished enqueues have counted; cursize stays within the ring; the
  // next byte to be written goes into the ring but not into an unread slot, and the next byte to be
  // read comes from an unread slot.
  lemma Safety(stream: Stream, states: seq<State>, size: nat, i: nat)
    requires 0 < size <= MAX_RING && Run(stream, states, size) && i < |states|
    ensures var s := states[i];
            && s.core.n == size && s.core.cursize <= size
            && s.core.out == Slice(stream, 0, |s.core.out|) && |s.core.out| + s.core.cursize == s.core.counted
            && (WriteSlot(s.core).Some? ==>
                  WriteSlot(s.core).value < size && !UnreadSlot(s.core, WriteSlot(s.core).value))
            && (ReadSlot(s).Some? ==>
                  ReadSlot(s).value < size && UnreadSlot(s.core, ReadSlot(s).value))
  {
    var s := states[i];
    RunInv(stream, states, size, i);
    RunSize(stream, states, size, i);
    RunCounts(stream, states, size, i);
    hide Run;
    WriteClear(stream, s.core);
    ReadFull(stream, s);
  }

  lemma {:induction false} RunCounts(stream: Stream, states: seq<State>, size: nat, i: nat)
    requires 0 < size <= MAX_RING && Run(stream, states, size) && i < |states|
    ensures |states[i].core.out| + states[i].core.cursize == states[i].core.counted
  {
    hide Inv, Next;
    if i > 0 {
      RunCounts(stream, states, size, i - 1);
      RunInv(stream, states, size, i - 1);
      assert Next(stream, states[i - 1], states[i - 1 + 1]);
      NextCounts(stream, states[i - 1], states[i]);
    }
  }

  lemma NextCounts(stream: Stream, s: State, s': State)
    requires Inv(stream, s) && Next(stream, s, s') && |s.core.out| + s.core.cursize == s.core.counted
    ensures |s'.core.out| + s'.core.cursize == s'.core.counted
  {
    hide CoreInv, ConsumerStep, ProducerStep;
    CoreShape(stream, s.core);
    if ConsumerStep(s, s') { ConsumerCounts(stream, s, s'); } else { ProducerCounts(stream, s.core, s'.core); }
  }

  lemma ConsumerCounts(stream: Stream, s: State, s': State)
    requires ConsumerStep(s, s') && Shape(s.core) && ConsumerInv(stream, s.core, s.head, s.c)
    ensures |s'.core.out| + s'.core.cursize == |s.core.out| + s.core.cursize && s'.core.counted == s.core.counted
  {
    hide Slice;
  }

  lemma ProducerCounts(stream: Stream, s: Core, s': Core)
    requires ProducerStep(stream, s, s') && |s.out| + s.cursize == s.counted
    ensures |s'.out| + s'.cursize == s'.counted
  {
    hide TryCollect, AddSegment, CollectGood, AddGood, AheadSlot, Spliced, Wrap, U32;
  }

  lemma {:induction false} RunSize(stream: Stream, states: seq<State>, size: nat, i: nat)
    requires 0 < size <= MAX_RING && Run(stream, states, size) && i < |states|
    ensures states[i].core.n == size
  {
    if i > 0 {
      RunSize(stream, states, size, i - 1);
      assert Next(stream, states[i - 1], states[i - 1 + 1]);
      if ProducerStep(stream, states[i - 1].core, states[i].core) {
        ProducerGrows(stream, states[i - 1].core, states[i].core);
      }
    }
  }

  lemma WriteClear(stream: Stream, s: Core)
    requires CoreInv(stream, s)
    ensures WriteSlot(s).Some? ==> WriteSlot(s).value < s.n && !UnreadSlot(s, WriteSlot(s).value)
  {
    hide CoreInv, InPlace, CollectGood, AddGood, AddSegment, AheadSlot, CollectRight;
    CoreProducer(stream, s);
    if s.p.CopyAhead? && s.p.i < s.p.len { AheadSlotIs(s, s.p.offset, s.p.i); }
  }

  lemma ReadFull(stream: Stream, s: State)
    requires Inv(stream, s)
    ensures ReadSlot(s).Some? ==>
              ReadSlot(s).value < s.core.n && UnreadSlot(s.core, ReadSlot(s).value)
  {
    CoreShape(stream, s.core);
    hide CoreInv, Slice;
  }

  // ------------------------------------------------------------------------------------------
  // The sums and slots of the next step are in bounds

  lemma ProducerFree(stream: Stream, s: Core)
    requires CoreInv(stream, s)
    ensures ProducerReady(s)
  {
  }

  lemma ConsumerFree(stream: Stream, s: State)
    requires Inv(stream, s)
    ensures ConsumerReady(s)
  {
    CoreShape(stream, s.core);
    hide CoreInv, Slice;
  }
}
