// One side's steps without the other's in between: the fine steps of a call add up to the call.
module FifoSolo {
  import opened Base
  import opened Ring
  import opened FifoSpec
  import opened FifoStream
  import opened FifoConcurrent

  // The shared fields as a fifo.
  function FifoOf(s: Core, head: nat): Fifo {
    Fifo(s.n, s.data, head, s.tail, s.cursize, s.segs)
  }

  // ------------------------------------------------------------------------------------------
  // The producer

  // The producer goes through one call, from its first step to its last.
  ghost predicate ProducerAlone(stream: Stream, states: seq<Core>) {
    && |states| > 1 && states[|states| - 1].p.Idle?
    && forall x :: 0 <= x < |states| - 1 ==>
         !states[x].p.Idle? && ProducerReady(states[x]) && states[x + 1] == ProducerNext(stream, states[x])
  }

  lemma WrittenNone(data: seq<u8>, at: nat, src: seq<u8>)
    requires at < |data|
    ensures Written(data, at, src[..0]) == data
  {
  }

  // One byte more.
  lemma WrittenNext(data: seq<u8>, at: nat, src: seq<u8>, k: nat)
    requires at < |data| && k < |src| && k < |data|
    ensures Written(data, at, src[..k])[Wrap(at + k, |data|) := src[k]] == Written(data, at, src[..k + 1])
  {
    var x, y := Written(data, at, src[..k])[Wrap(at + k, |data|) := src[k]], Written(data, at, src[..k + 1]);
    forall j | 0 <= j < |data| ensures x[j] == y[j] {
      if Dist(|data|, at, j) == k { assert j == Wrap(at + k, |data|); }
    }
  }

  // Where an in-order enqueue of `src` from s0 on has got to.
  ghost predicate SoloIn(s0: Core, src: seq<u8>, s: Core)
    requires Sane(FifoOf(s0, 0))
  {
    var total := Min(s0.n - s0.cursize, |src|);
    var first := Min(s0.n - s0.tail, total);
    match s.p
    case Testing(len) => s == s0 && len == |src|
    case Reading(len) => s == s0.(p := s.p) && len == |src| && s0.cursize < s0.n
    case CopyIn1(t, f, i) => Stores(s0, src, s, t, f) && i <= first && Filled(s0, src, i, s0.tail, s)
    case StoreTail1(t, f) => Stores(s0, src, s, t, f) && Filled(s0, src, first, s0.tail, s)
    case WrapTail1(t, f) => Stores(s0, src, s, t, f) && Filled(s0, src, first, s0.tail + first, s)
    case CopyIn2(t, f, i) =>
      Stores(s0, src, s, t, f) && first < total && first + i <= total && Filled(s0, src, first + i, 0, s)
    case StoreTail2(t, f) => Stores(s0, src, s, t, f) && first < total && Filled(s0, src, total, 0, s)
    case WrapTail2(t, f) => Stores(s0, src, s, t, f) && first < total && Filled(s0, src, total, total - first, s)
    case Collecting(t) =>
      s0.cursize < s0.n && t == total && Filled(s0, src, total, Wrap(s0.tail + total, s0.n), s)
    case Counting(t, bytes, before) =>
      var (g, count) := Enqueue(FifoOf(s0, 0), src);
      && s0.cursize < s0.n && t == total && total + bytes == count
      && s == s0.(data := g.data, tail := g.tail, segs := g.segs, p := s.p) && g.cursize == s0.cursize + count
    case Idle =>
      var (g, count) := Enqueue(FifoOf(s0, 0), src);
      && s == s0.(data := g.data, tail := g.tail, segs := g.segs, cursize := g.cursize, p := Idle,
                  counted := s0.counted + if count < 0 then 0 else count as nat)
    case _ => false
  }

  ghost predicate Stores(s0: Core, src: seq<u8>, s: Core, total: nat, first: nat)
    requires s0.cursize <= s0.n && s0.tail <= s0.n
  {
    s0.cursize < s0.n && total == Min(s0.n - s0.cursize, |src|) && first == Min(s0.n - s0.tail, total)
  }

  // k bytes are in the ring, and the tail stands at `tail`.
  ghost predicate Filled(s0: Core, src: seq<u8>, k: nat, tail: nat, s: Core)
    requires s0.tail < |s0.data|
  {
    k <= |src| && k <= |s0.data| && s == s0.(data := Written(s0.data, s0.tail, src[..k]), tail := tail, p := s.p)
  }

  lemma SoloStarts(s0: Core, src: seq<u8>)
    requires Sane(FifoOf(s0, 0)) && s0.p == Testing(|src|)
    ensures SoloIn(s0, src, s0)
  {
  }

  lemma SoloBegins(stream: Stream, s0: Core, src: seq<u8>, s: Core)
    requires Sane(FifoOf(s0, 0)) && SoloIn(s0, src, s) && ProducerReady(s) && (s.p.Testing? || s.p.Reading?)
    ensures SoloIn(s0, src, ProducerNext(stream, s))
  {
    hide Written, Publish;
    WrittenNone(s0.data, s0.tail, src);
  }

  lemma SoloCopies1(stream: Stream, s0: Core, src: seq<u8>, s: Core)
    requires Sane(FifoOf(s0, 0)) && SoloIn(s0, src, s) && ProducerReady(s) && s.p.CopyIn1?
    requires src == Slice(stream, |s0.out| + s0.cursize, |src|)
    ensures SoloIn(s0, src, ProducerNext(stream, s))
  {
    hide Written, Publish, Slice;
    if s.p.i < s.p.first {
      SliceAt(stream, |s0.out| + s0.cursize, |src|, s.p.i);
      WrittenNext(s0.data, s0.tail, src, s.p.i);
    }
  }

  lemma SoloCopies2(stream: Stream, s0: Core, src: seq<u8>, s: Core)
    requires Sane(FifoOf(s0, 0)) && SoloIn(s0, src, s) && ProducerReady(s) && s.p.CopyIn2?
    requires src == Slice(stream, |s0.out| + s0.cursize, |src|)
    ensures SoloIn(s0, src, ProducerNext(stream, s))
  {
    hide Written, Publish, Slice;
    var k := s.p.first + s.p.i;
    if k < s.p.total {
      SliceAt(stream, |s0.out| + s0.cursize, |src|, k);
      WrittenNext(s0.data, s0.tail, src, k);
    }
  }

  lemma SliceAt(stream: Stream, from: nat, len: nat, i: nat)
    requires i < len
    ensures Slice(stream, from, len)[i] == stream(from + i)
  {
  }

  lemma SoloStores(stream: Stream, s0: Core, src: seq<u8>, s: Core)
    requires Sane(FifoOf(s0, 0)) && SoloIn(s0, src, s) && ProducerReady(s)
    requires s.p.StoreTail1? || s.p.WrapTail1? || s.p.StoreTail2? || s.p.WrapTail2?
    ensures SoloIn(s0, src, ProducerNext(stream, s))
  {
    hide Written, Publish;
  }

  lemma SoloCounts(stream: Stream, s0: Core, src: seq<u8>, s: Core)
    requires Sane(FifoOf(s0, 0)) && SoloIn(s0, src, s) && ProducerReady(s) && (s.p.Collecting? || s.p.Counting?)
    ensures SoloIn(s0, src, ProducerNext(stream, s))
  {
    hide Written, TryCollect;
  }

  lemma SoloNext(stream: Stream, s0: Core, src: seq<u8>, s: Core)
    requires Sane(FifoOf(s0, 0)) && SoloIn(s0, src, s) && ProducerReady(s) && !s.p.Idle?
    requires src == Slice(stream, |s0.out| + s0.cursize, |src|)
    ensures SoloIn(s0, src, ProducerNext(stream, s))
  {
    NotAhead(s0, src, s);
    hide SoloIn, ProducerNext, ProducerReady;
    match s.p
    case Testing(_) => SoloBegins(stream, s0, src, s);
    case Reading(_) => SoloBegins(stream, s0, src, s);
    case CopyIn1(_, _, _) => SoloCopies1(stream, s0, src, s);
    case CopyIn2(_, _, _) => SoloCopies2(stream, s0, src, s);
    case Collecting(_) => SoloCounts(stream, s0, src, s);
    case Counting(_, _, _) => SoloCounts(stream, s0, src, s);
    case _ => SoloStores(stream, s0, src, s);
  }

  lemma NotAhead(s0: Core, src: seq<u8>, s: Core)
    requires Sane(FifoOf(s0, 0)) && SoloIn(s0, src, s)
    ensures !s.p.ReadingAhead? && !s.p.CopyAhead?
  {
    hide Written, Publish;
  }

  lemma {:induction false} SoloReaches(stream: Stream, states: seq<Core>, src: seq<u8>, k: nat)
    requires ProducerAlone(stream, states) && k < |states| && Sane(FifoOf(states[0], 0))
    requires states[0].p == Testing(|src|) && src == Slice(stream, |states[0].out| + states[0].cursize, |src|)
    ensures SoloIn(states[0], src, states[k])
  {
    hide SoloIn, ProducerNext, ProducerReady, Slice;
    if k == 0 {
      SoloStarts(states[0], src);
    } else {
      SoloReaches(stream, states, src, k - 1);
      assert states[k - 1 + 1] == ProducerNext(stream, states[k - 1]);
      SoloNext(stream, states[0], src, states[k - 1]);
    }
  }

  // An in-order enqueue that the consumer does not interleave with leaves what Enqueue computes, and
  // counts what it returns.
  lemma EnqueueAlone(stream: Stream, states: seq<Core>, head: nat, src: seq<u8>)
    requires ProducerAlone(stream, states) && Sane(FifoOf(states[0], head))
    requires states[0].p == Testing(|src|) && src == Slice(stream, |states[0].out| + states[0].cursize, |src|)
    ensures var s, s' := states[0], states[|states| - 1];
            var (g, count) := Enqueue(FifoOf(s, head), src);
            && FifoOf(s', head) == g && s'.out == s.out && s'.front == s.front
            && s'.counted == s.counted + if count == -2 then 0 else count
  {
    hide Written, Publish, Slice, ProducerNext, ProducerReady;
    SoloReaches(stream, states, src, |states| - 1);
    HeadApart(FifoOf(states[0], 0), head, src);
  }

  // The head is the consumer's: an enqueue neither reads nor writes it.
  lemma HeadApart(f: Fifo, head: nat, src: seq<u8>)
    requires Sane(f) && head < f.n
    ensures var (g, count) := Enqueue(f, src);
            Enqueue(f.(head := head), src) == (g.(head := head), count) && (count == -2 || 0 <= count) && g.n == f.n
  {
    hide Written, TryCollect;
  }

  // ------------------------------------------------------------------------------------------
  // ... ahead of the tail

  ghost predicate SoloAhead(s0: Core, offset: nat, src: seq<u8>, s: Core)
    requires Sane(FifoOf(s0, 0))
  {
    match s.p
    case ReadingAhead(o, len) => s == s0 && o == offset && len == |src|
    case CopyAhead(o, len, i, before) =>
      && U32(|src| + offset) <= s0.n - s0.cursize && |src| <= s0.n
      && o == offset && len == |src| && i <= len
      && s == s0.(segs := Spliced(s0.segs, AddSegment(s0.n, s0.tail, s0.segs, offset, |src|)), p := s.p,
                  data := Written(s0.data, Position(s0.n, s0.tail, offset), src[..i]))
    case Idle =>
      var (g, result) := EnqueueAhead(FifoOf(s0, 0), offset, src);
      result.Some? && s == s0.(segs := g.segs, data := g.data, p := Idle)
    case _ => false
  }

  lemma PositionInside(n: nat, tail: nat, offset: nat)
    requires 0 < n
    ensures Position(n, tail, offset) < n
  {
  }

  lemma SoloAheadNext(stream: Stream, s0: Core, offset: nat, src: seq<u8>, s: Core)
    requires Sane(FifoOf(s0, 0)) && SoloAhead(s0, offset, src, s) && ProducerReady(s) && !s.p.Idle?
    requires src == Slice(stream, |s0.out| + s0.cursize + offset, |src|) && |src| <= s0.n
    ensures SoloAhead(s0, offset, src, ProducerNext(stream, s))
  {
    hide Written, AddSegment, Position, Spliced, U32, Slice;
    PositionInside(s0.n, s0.tail, offset);
    WrittenNone(s0.data, Position(s0.n, s0.tail, offset), src);
    if s.p.CopyAhead? && s.p.i < |src| {
      SliceAt(stream, |s0.out| + s0.cursize + offset, |src|, s.p.i);
      WrittenNext(s0.data, Position(s0.n, s0.tail, offset), src, s.p.i);
    }
    assert src[..|src|] == src;
  }

  lemma {:induction false} SoloAheadReaches(stream: Stream, states: seq<Core>, offset: nat, src: seq<u8>, k: nat)
    requires ProducerAlone(stream, states) && k < |states| && Sane(FifoOf(states[0], 0))
    requires states[0].p == ReadingAhead(offset, |src|) && |src| <= states[0].n
    requires src == Slice(stream, |states[0].out| + states[0].cursize + offset, |src|)
    ensures SoloAhead(states[0], offset, src, states[k])
  {
    if k > 0 {
      SoloAheadReaches(stream, states, offset, src, k - 1);
      assert states[k - 1 + 1] == ProducerNext(stream, states[k - 1]);
      hide SoloAhead, ProducerNext, ProducerReady, Slice;
      SoloAheadNext(stream, states[0], offset, src, states[k - 1]);
    }
  }

  // An enqueue at an offset that the consumer does not interleave with leaves what EnqueueAhead computes,
  // and counts nothing.
  lemma AheadAlone(stream: Stream, states: seq<Core>, head: nat, offset: nat, src: seq<u8>)
    requires ProducerAlone(stream, states) && Sane(FifoOf(states[0], head))
    requires states[0].p == ReadingAhead(offset, |src|) && |src| <= states[0].n
    requires src == Slice(stream, |states[0].out| + states[0].cursize + offset, |src|)
    ensures var s, s' := states[0], states[|states| - 1];
            && FifoOf(s', head) == EnqueueAhead(FifoOf(s, head), offset, src).0
            && s'.out == s.out && s'.front == s.front && s'.counted == s.counted
  {
    hide Written, AddSegment, Position, Spliced, U32, Slice, ProducerNext, ProducerReady;
    SoloAheadReaches(stream, states, offset, src, |states| - 1);
  }

  // ------------------------------------------------------------------------------------------
  // The consumer

  ghost predicate ConsumerAlone(states: seq<State>) {
    && |states| > 1 && states[|states| - 1].c.Waiting?
    && forall x :: 0 <= x < |states| - 1 ==>
         !states[x].c.Waiting? && ConsumerReady(states[x]) && states[x + 1] == ConsumerNext(states[x])
  }

  // Where a dequeue of at most `max` bytes from s0 on has got to.
  ghost predicate SoloOut(s0: State, max: nat, s: State)
    requires Sane(FifoOf(s0.core, s0.head))
  {
    var total := Min(s0.core.cursize, max);
    var first := Min(s0.core.n - s0.head, total);
    match s.c
    case TestingOut(m) => s == s0 && m == max
    case ReadingOut(m) => s == s0.(c := s.c) && m == max && 0 < s0.core.cursize
    case CopyOut1(t, f, got) => Takes(s0, max, t, f) && |got| <= first && Taken(s0, got, s0.head, s)
    case StoreHead1(t, f, got) => Takes(s0, max, t, f) && |got| == first && Taken(s0, got, s0.head, s)
    case WrapHead1(t, f, got) => Takes(s0, max, t, f) && |got| == first && Taken(s0, got, s0.head + first, s)
    case CopyOut2(t, f, got) => Takes(s0, max, t, f) && first < total && first <= |got| <= total && Taken(s0, got, 0, s)
    case StoreHead2(t, f, got) => Takes(s0, max, t, f) && first < total && |got| == total && Taken(s0, got, 0, s)
    case WrapHead2(t, f, got) =>
      Takes(s0, max, t, f) && first < total && |got| == total && Taken(s0, got, total - first, s)
    case Releasing(t, got) =>
      0 < s0.core.cursize && t == total == |got| && Taken(s0, got, Wrap(s0.head + total, s0.core.n), s)
    case Waiting =>
      var (g, count, out) := Dequeue(FifoOf(s0.core, s0.head), max);
      && s.head == g.head && s.core.out == s0.core.out + out
      && s.core == s0.core.(cursize := g.cursize, out := s.core.out, front := s.core.front)
  }

  ghost predicate Takes(s0: State, max: nat, total: nat, first: nat)
    requires s0.head <= s0.core.n
  {
    0 < s0.core.cursize && total == Min(s0.core.cursize, max) && first == Min(s0.core.n - s0.head, total)
  }

  // `got` is read, and the head stands at `head`.
  ghost predicate Taken(s0: State, got: seq<u8>, head: nat, s: State)
    requires s0.head < |s0.core.data|
  {
    && |got| <= |s0.core.data| && got == ReadRing(s0.core.data, s0.head, |got|)
    && s == s0.(head := head, c := s.c)
  }

  // One byte more.
  lemma ReadNext(data: seq<u8>, at: nat, k: nat)
    requires at < |data| && k < |data|
    ensures ReadRing(data, at, k) + [data[Wrap(at + k, |data|)]] == ReadRing(data, at, k + 1)
  {
  }

  lemma OutCopies(s0: State, max: nat, s: State)
    requires Sane(FifoOf(s0.core, s0.head)) && SoloOut(s0, max, s) && ConsumerReady(s)
    requires s.c.CopyOut1? || s.c.CopyOut2?
    ensures SoloOut(s0, max, ConsumerNext(s))
  {
    hide ReadRing;
    if |s.c.got| < (if s.c.CopyOut1? then s.c.first else s.c.total) {
      ReadNext(s0.core.data, s0.head, |s.c.got|);
    }
  }

  lemma OutBegins(s0: State, max: nat, s: State)
    requires Sane(FifoOf(s0.core, s0.head)) && SoloOut(s0, max, s) && ConsumerReady(s)
    requires s.c.TestingOut? || s.c.ReadingOut?
    ensures SoloOut(s0, max, ConsumerNext(s))
  {
    hide ReadRing;
    assert ReadRing(s0.core.data, s0.head, 0) == [];
  }

  lemma OutMoves(s0: State, max: nat, s: State)
    requires Sane(FifoOf(s0.core, s0.head)) && SoloOut(s0, max, s) && ConsumerReady(s)
    requires s.c.StoreHead1? || s.c.WrapHead1? || s.c.StoreHead2? || s.c.WrapHead2?
    ensures SoloOut(s0, max, ConsumerNext(s))
  {
    hide ReadRing, Dequeue;
  }

  lemma OutReleases(s0: State, max: nat, s: State)
    requires Sane(FifoOf(s0.core, s0.head)) && SoloOut(s0, max, s) && ConsumerReady(s) && s.c.Releasing?
    ensures SoloOut(s0, max, ConsumerNext(s))
  {
    hide ReadRing, Wrap;
  }

  lemma OutNext(s0: State, max: nat, s: State)
    requires Sane(FifoOf(s0.core, s0.head)) && SoloOut(s0, max, s) && ConsumerReady(s) && !s.c.Waiting?
    ensures SoloOut(s0, max, ConsumerNext(s))
  {
    hide SoloOut, ConsumerReady, ConsumerNext;
    match s.c
    case TestingOut(_) => OutBegins(s0, max, s);
    case ReadingOut(_) => OutBegins(s0, max, s);
    case CopyOut1(_, _, _) => OutCopies(s0, max, s);
    case CopyOut2(_, _, _) => OutCopies(s0, max, s);
    case Releasing(_, _) => OutReleases(s0, max, s);
    case _ => OutMoves(s0, max, s);
  }

  lemma {:induction false} OutReaches(states: seq<State>, max: nat, k: nat)
    requires ConsumerAlone(states) && k < |states| && Sane(FifoOf(states[0].core, states[0].head))
    requires states[0].c == TestingOut(max)
    ensures SoloOut(states[0], max, states[k])
  {
    hide ReadRing, ConsumerNext, ConsumerReady;
    if k > 0 {
      OutReaches(states, max, k - 1);
      assert states[k - 1 + 1] == ConsumerNext(states[k - 1]);
      OutNext(states[0], max, states[k - 1]);
    }
  }

  // A dequeue that the producer does not interleave with hands out, and leaves, what Dequeue computes.
  lemma DequeueAlone(states: seq<State>, max: nat)
    requires ConsumerAlone(states) && Sane(FifoOf(states[0].core, states[0].head))
    requires states[0].c == TestingOut(max)
    ensures var s, s' := states[0], states[|states| - 1];
            var (g, count, out) := Dequeue(FifoOf(s.core, s.head), max);
            && FifoOf(s'.core, s'.head) == g && s'.core.out == s.core.out + out
            && s'.core.counted == s.core.counted && s'.core.p == s.core.p
  {
    hide ReadRing, ConsumerNext, ConsumerReady;
    OutReaches(states, max, |states| - 1);
  }

  // ------------------------------------------------------------------------------------------
  // Every call ends

  function Minus(a: nat, b: nat): nat {
    if a <= b then 0 else a - b
  }

  // Steps the producer has left in its call at most.
  function ProducerLeft(s: Core): nat {
    match s.p
    case Idle => 0
    case Testing(len) => s.n + 11
    case Reading(len) => s.n + 10
    case CopyIn1(total, first, i) => Minus(first, i) + Minus(total, first) + 9
    case StoreTail1(total, first) => Minus(total, first) + 8
    case WrapTail1(total, first) => Minus(total, first) + 7
    case CopyIn2(total, first, i) => Minus(total, first + i) + 5
    case StoreTail2(_, _) => 4
    case WrapTail2(_, _) => 3
    case Collecting(_) => 2
    case Counting(_, _, _) => 1
    case ReadingAhead(offset, len) => len + 2
    case CopyAhead(offset, len, i, _) => Minus(len, i) + 1
  }

  function ConsumerLeft(s: State): nat {
    match s.c
    case Waiting => 0
    case TestingOut(_) => s.core.n + 11
    case ReadingOut(_) => s.core.n + 10
    case CopyOut1(total, first, got) => Minus(first, |got|) + Minus(total, first) + 8
    case StoreHead1(total, first, got) => Minus(total, first) + 7
    case WrapHead1(total, first, got) => Minus(total, first) + 6
    case CopyOut2(total, first, got) => Minus(total, |got|) + 4
    case StoreHead2(_, _, _) => 3
    case WrapHead2(_, _, _) => 2
    case Releasing(_, _) => 1
  }

  lemma CopyEnds(stream: Stream, s: Core)
    requires ProducerReady(s) && (s.p.CopyIn1? || s.p.CopyIn2? || s.p.CopyAhead?)
    ensures ProducerLeft(ProducerNext(stream, s)) < ProducerLeft(s)
  {
    hide AheadSlot;
  }

  lemma BeginEnds(stream: Stream, s: Core)
    requires ProducerReady(s) && (s.p.Testing? || s.p.Reading? || s.p.ReadingAhead?)
    ensures ProducerLeft(ProducerNext(stream, s)) < ProducerLeft(s)
  {
    hide AddSegment, Spliced, U32;
  }

  lemma TailEnds(stream: Stream, s: Core)
    requires ProducerReady(s)
    requires !s.p.Idle? && !s.p.CopyIn1? && !s.p.CopyIn2? && !s.p.CopyAhead?
    requires !s.p.Testing? && !s.p.Reading? && !s.p.ReadingAhead?
    ensures ProducerLeft(ProducerNext(stream, s)) < ProducerLeft(s)
  {
    hide TryCollect;
  }

  // Each step of a call, whatever the other side does in between, brings its end nearer by one at least:
  // no call takes more than n + 11 steps of its own, or, ahead of the tail, its length and 2.
  lemma ProducerEnds(stream: Stream, s: Core, s': Core)
    requires ProducerStep(stream, s, s') && !s.p.Idle?
    ensures ProducerLeft(s') < ProducerLeft(s)
  {
    hide ProducerNext, ProducerReady, ProducerLeft;
    if s.p.CopyIn1? || s.p.CopyIn2? || s.p.CopyAhead? {
      CopyEnds(stream, s);
    } else if s.p.Testing? || s.p.Reading? || s.p.ReadingAhead? {
      BeginEnds(stream, s);
    } else {
      TailEnds(stream, s);
    }
  }

  lemma ConsumerEnds(stream: Stream, s: State, s': State)
    requires ConsumerStep(s, s') && !s.c.Waiting? && Shape(s.core) && ConsumerInv(stream, s.core, s.head, s.c)
    ensures ConsumerLeft(s') < ConsumerLeft(s)
  {
    hide Wrap, Slice;
  }
}
