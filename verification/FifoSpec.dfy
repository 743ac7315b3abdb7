// The byte fifo as a value: what svm_fifo.c computes, step by step, on the ring, the counters and
// the list of out-of-order segments. The class in SvmFifo.dfy is proved to compute these functions.
module FifoSpec {
  import opened Base
  import opened Ring

  // One out-of-order segment: ring slot of its first byte, and its length.
  datatype Seg = Seg(pos: nat, len: nat)

  datatype Fifo = Fifo(n: nat, data: seq<u8>, head: nat, tail: nat, cursize: nat, segs: seq<Seg>)

  // ------------------------------------------------------------------------------------------
  // Out-of-order segments

  // Distance of a segment's start, and of its end, from the tail, as 32-bit arithmetic gives them.
  function SegOffset(n: nat, tail: nat, s: Seg): nat
    requires 0 < n
  {
    U32(n + s.pos - tail) % n
  }

  function SegEndOffset(n: nat, tail: nat, s: Seg): nat
    requires 0 < n
  {
    U32(n + s.pos + s.len - tail) % n
  }

  // Ring slot `offset` bytes past the tail.
  function Position(n: nat, tail: nat, offset: nat): nat
    requires 0 < n
  {
    U32(tail + offset) % n
  }

  // What one addition does to the segment list: segs[from..to] gives way to the single segment s.
  datatype Splice = Splice(from: nat, to: nat, s: Seg)

  function Spliced(segs: seq<Seg>, p: Splice): seq<Seg>
    requires p.from <= p.to <= |segs|
  {
    segs[..p.from] + [p.s] + segs[p.to..]
  }

  // First segment from i on that starts after `offset`, or the last one.
  function FindFrom(n: nat, tail: nat, segs: seq<Seg>, offset: nat, i: nat): (j: nat)
    requires 0 < n && i < |segs|
    ensures i <= j < |segs|
    decreases |segs| - i
  {
    if i + 1 < |segs| && SegOffset(n, tail, segs[i]) <= offset
    then FindFrom(n, tail, segs, offset, i + 1)
    else i
  }

  // First segment from i on whose computed end is not before `end`.
  function SkipCovered(n: nat, tail: nat, segs: seq<Seg>, end: nat, i: nat): (m: nat)
    requires 0 < n && i <= |segs|
    ensures i <= m <= |segs|
    decreases |segs| - i
  {
    if i < |segs| && SegEndOffset(n, tail, segs[i]) < end
    then SkipCovered(n, tail, segs, end, i + 1)
    else i
  }

  // ooo_segment_add, "merge at head": the new range starts at or before segs[j] and reaches it.
  // First its front, with the segment before it if that one reaches the new range ...
  function MergeFront(n: nat, tail: nat, segs: seq<Seg>, offset: nat, j: nat): (p: Splice)
    requires 0 < n && j < |segs|
    ensures p.from <= j && p.to == j + 1
  {
    var sEof := SegEndOffset(n, tail, segs[j]);
    if j == 0 then
      var position := Position(n, tail, offset);
      Splice(j, j + 1, Seg(position, U32(sEof - SegOffset(n, tail, Seg(position, 0)))))
    else if SegEndOffset(n, tail, segs[j-1]) >= offset then
      Splice(j - 1, j + 1, Seg(segs[j-1].pos, U32(sEof - SegOffset(n, tail, segs[j-1]))))
    else
      Splice(j, j + 1, segs[j])
  }

  // ... then, when the new range runs past segs[j], the later segments up to its end.
  function MergeEnd(n: nat, tail: nat, segs: seq<Seg>, end: nat, p: Splice): (q: Splice)
    requires 0 < n && p.from <= p.to <= |segs|
    ensures q.from == p.from && p.to <= q.to <= |segs| && q.s.pos == p.s.pos
  {
    var m := SkipCovered(n, tail, segs, end, p.to);
    var len := U32(end - SegOffset(n, tail, p.s));
    if m < |segs| && SegOffset(n, tail, segs[m]) < end then
      Splice(p.from, m + 1,
             Seg(p.s.pos, U32(len + segs[m].len - (SegOffset(n, tail, segs[m]) - end))))
    else
      Splice(p.from, m, Seg(p.s.pos, len))
  }

  function AddSegment(n: nat, tail: nat, segs: seq<Seg>, offset: nat, length: nat): (p: Splice)
    requires 0 < n
    ensures p.from <= p.to <= |segs|
  {
    var position := Position(n, tail, offset);
    var end := U32(offset + length);
    if segs == [] then
      Splice(0, 0, Seg(position, length))
    else
      var j := FindFrom(n, tail, segs, offset, 0);
      var sSof := SegOffset(n, tail, segs[j]);
      var sEof := SegEndOffset(n, tail, segs[j]);
      if end < sSof then
        Splice(j, j, Seg(position, length))
      else if sEof < offset then
        Splice(j + 1, j + 1, Seg(position, length))
      else if offset <= sSof then
        var p := MergeFront(n, tail, segs, offset, j);
        if sEof < end then MergeEnd(n, tail, segs, end, p) else p
      else if sEof <= end then
        Splice(j, j + 1, Seg(segs[j].pos, U32(end - sSof)))
      else
        Splice(j, j + 1, segs[j])
  }

  // How far the tail has moved past a segment's start.
  function SegLag(n: nat, tail: nat, s: Seg): nat
    requires 0 < n
  {
    U32(n + tail - s.pos) % n
  }

  // ooo_segment_try_collect, first part: pass over the segments the last enqueue ran over. It stops
  // at segs[first], with the tail there and that segment's lag.
  datatype Overrun = Overrun(first: nat, tail: nat, lag: nat)

  function PassOverrun(n: nat, tail: nat, segs: seq<Seg>, enqueued: nat, i: nat): (r: Overrun)
    requires 0 < n && i < |segs|
    ensures i <= r.first < |segs|
    decreases |segs| - i
  {
    var lag := SegLag(n, tail, segs[i]);
    if 0 < lag < enqueued then
      if lag < segs[i].len then
        Overrun(i, Position(n, tail, segs[i].len - lag), lag)
      else if i + 1 < |segs| then
        PassOverrun(n, tail, segs, enqueued, i + 1)
      else
        Overrun(i, tail, lag)
    else
      Overrun(i, tail, lag)
  }

  datatype Collected = Collected(tail: nat, segs: seq<Seg>, bytes: nat)

  // ... then take in the segment the tail has reached, if any.
  function TryCollect(n: nat, tail: nat, cursize: nat, segs: seq<Seg>, enqueued: nat): Collected
    requires 0 < n && segs != [] && cursize <= n
  {
    var v := PassOverrun(n, tail, segs, enqueued, 0);
    if v.lag == 0 then
      var s := segs[v.first];
      var bytes := if n - cursize >= s.len then s.len else n - cursize;
      Collected(Position(n, v.tail, bytes), segs[v.first + 1..], bytes)
    else
      Collected(v.tail, segs[v.first..], 0)
  }

  // ------------------------------------------------------------------------------------------
  // The ring

  // Sizes the code relies on, whatever happened to the segment list before.
  ghost predicate Sane(f: Fifo) {
    && 0 < f.n <= MAX_RING && |f.data| == f.n
    && f.head < f.n && f.tail < f.n && f.cursize <= f.n
    && forall i :: 0 <= i < |f.segs| ==> f.segs[i].pos < f.n
  }

  // The bytes of `src` stored from slot `at` on, wrapping at the end of the ring.
  function Written(data: seq<u8>, at: nat, src: seq<u8>): (r: seq<u8>)
    requires at < |data| && |src| <= |data|
    ensures |r| == |data|
  {
    seq(|data|, k requires 0 <= k < |data| =>
      var d := Dist(|data|, at, k);
      if d < |src| then src[d] else data[k])
  }

  // `len` bytes read from slot `at` on.
  function ReadRing(data: seq<u8>, at: nat, len: nat): (r: seq<u8>)
    requires at < |data| && len <= |data|
    ensures |r| == len
  {
    seq(len, i requires 0 <= i < len => data[Wrap(at + i, |data|)])
  }

  function Unread(f: Fifo): seq<u8>
    requires Sane(f)
  {
    ReadRing(f.data, f.head, f.cursize)
  }

  // svm_fifo_enqueue_internal, its end: collect segments the tail has reached, then count the
  // bytes in.
  function Publish(f: Fifo, total: nat): (r: (Fifo, int))
    requires Sane(f)
  {
    if f.segs == [] then
      (f.(cursize := f.cursize + total), total)
    else
      var c := TryCollect(f.n, f.tail, f.cursize, f.segs, total);
      (f.(tail := c.tail, segs := c.segs, cursize := f.cursize + total + c.bytes), total + c.bytes)
  }

  // svm_fifo_enqueue_internal, copying from `src`; -2 when the fifo is full.
  function Enqueue(f: Fifo, src: seq<u8>): (r: (Fifo, int))
    requires Sane(f)
  {
    if f.cursize == f.n then
      (f, -2)
    else
      var total := Min(f.n - f.cursize, |src|);
      Publish(f.(data := Written(f.data, f.tail, src[..total]), tail := Wrap(f.tail + total, f.n)), total)
  }

  // svm_fifo_enqueue_with_offset_internal2: all of `src` at `offset` past the tail, or -1; None stands
  // for a copy longer than the ring.
  function EnqueueAhead(f: Fifo, offset: nat, src: seq<u8>): (r: (Fifo, Option<int>))
    requires Sane(f)
  {
    if U32(|src| + offset) > f.n - f.cursize then
      (f, Some(-1))
    else
      var g := f.(segs := Spliced(f.segs, AddSegment(f.n, f.tail, f.segs, offset, |src|)));
      if |src| > f.n then (g, None)
      else (g.(data := Written(f.data, Position(f.n, f.tail, offset), src)), Some(0))
  }

  // svm_fifo_dequeue_internal2 and svm_fifo_dequeue_drop; -2 when there is nothing to take.
  function Dequeue(f: Fifo, max: nat): (r: (Fifo, int, seq<u8>))
    requires Sane(f)
  {
    if f.cursize == 0 then
      (f, -2, [])
    else
      var total: int := Min(f.cursize, max);
      (f.(head := Wrap(f.head + total, f.n), cursize := f.cursize - total),
       total, ReadRing(f.data, f.head, total))
  }

  // svm_fifo_peek, copying out: None stands for a copy that runs past the end of the ring.
  function Peek(f: Fifo, offset: nat, max: nat): (r: (int, Option<seq<u8>>))
    requires Sane(f)
  {
    if f.cursize == 0 then
      (-2, Some([]))
    else
      var total: int := Min(f.cursize, max);
      var first, at := Min(U32(f.n - f.head + offset), total), U32(f.head + offset);
      if first > 0 && at + first > f.n then
        (total, None)
      else
        var out1 := if first > 0 then f.data[at..at + first] else [];
        (total, Some(out1 + f.data[..total - first]))
  }
}
