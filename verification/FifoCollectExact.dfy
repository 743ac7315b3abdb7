// ooo_segment_try_collect: exactly which in-order enqueues leave the fifo sound.
module FifoCollectExact {
  import opened Ring
  import opened FifoSpec
  import opened FifoSegments

  // The first segment not wholly overrun by the m bytes starts at their end or later. The caller
  // can look at this before it enqueues them.
  predicate CollectGood(n: nat, tail: nat, segs: seq<Seg>, m: nat)
    requires tail < n && forall t :: 0 <= t < |segs| ==> segs[t].pos < n
  {
    segs == [] ||
    var i := FirstReaching(n, tail, segs, m + 1, 0);
    i < |segs| && m <= Lo(n, tail, segs[i])
  }

  // m in-order bytes have just been stored at the tail; the segments are relative to the old tail.
  ghost predicate CollectCall(n: nat, tail: nat, cursize: nat, segs: seq<Seg>, m: nat) {
    && tail < n <= MAX_RING && cursize + m <= n && SegsOk(n, tail, n - cursize, segs) && segs != []
  }

  // The tail has moved by the bytes reported, those are the m bytes and the stored bytes that
  // directly follow them, and the remaining segments are the stored bytes beyond.
  ghost predicate CollectRight(n: nat, tail: nat, cursize: nat, segs: seq<Seg>, m: nat, c: Collected)
    requires tail < n && cursize + m <= n && InRing(n, segs)
  {
    var total := m + c.bytes;
    && cursize + total <= n && c.tail == Wrap(tail + total, n)
    && SegsOk(n, c.tail, n - cursize - total, c.segs)
    && (forall o: nat :: m <= o < total ==> Covered(n, tail, segs, o))
    && !Covered(n, tail, segs, total)
    && SameBytes(n, tail, segs, total, c.tail, c.segs)
  }

  // The second list, seen from a tail d bytes on, covers what the first covers beyond those bytes.
  ghost predicate SameBytes(n: nat, tail: nat, segs: seq<Seg>, d: nat, tail': nat, rest: seq<Seg>)
    requires tail < n && tail' < n && InRing(n, segs) && InRing(n, rest)
  {
    forall o: nat :: Covered(n, tail', rest, o) <==> Covered(n, tail, segs, d + o)
  }

  lemma LagIs(n: nat, tail: nat, s: Seg, m: nat)
    requires tail < n <= MAX_RING && s.pos < n && m <= n && 0 < Lo(n, tail, s)
    ensures SegLag(n, Wrap(tail + m, n), s)
            == if Lo(n, tail, s) <= m then m - Lo(n, tail, s) else n - (Lo(n, tail, s) - m)
  {
    ModOnce(n + Wrap(tail + m, n) - s.pos, n);
  }

  // Moving the tail by d moves every segment start by d, modulo the ring.
  lemma LoShift(n: nat, tail: nat, s: Seg, d: nat)
    requires tail < n && s.pos < n && d <= n
    ensures Lo(n, Wrap(tail + d, n), s)
            == if d <= Lo(n, tail, s) then Lo(n, tail, s) - d else n - (d - Lo(n, tail, s))
  {
  }

  // Every one of these segments starts d nearer to tail' than to tail.
  ghost predicate Shifted(n: nat, tail: nat, segs: seq<Seg>, d: nat, tail': nat)
    requires tail < n && tail' < n && InRing(n, segs)
  {
    forall t :: 0 <= t < |segs| ==>
                  d < Lo(n, tail, segs[t]) && Lo(n, tail', segs[t]) == Lo(n, tail, segs[t]) - d
  }

  lemma RestShifted(n: nat, tail: nat, free: nat, segs: seq<Seg>, i: nat, d: nat, tail': nat)
    requires tail < n && SegsOk(n, tail, free, segs) && i <= |segs| && d <= free <= n
    requires i < |segs| ==> d < Lo(n, tail, segs[i])
    requires tail' == Wrap(tail + d, n)
    ensures Shifted(n, tail, segs[i..], d, tail')
  {
    hide Dist;
    forall t | 0 <= t < |segs[i..]|
      ensures d < Lo(n, tail, segs[i..][t]) && Lo(n, tail', segs[i..][t]) == Lo(n, tail, segs[i..][t]) - d
    {
      assert t > 0 ==> Hi(n, tail, segs[i]) < Lo(n, tail, segs[i + t]);
      LoShift(n, tail, segs[i + t], d);
    }
  }

  lemma ShiftedOk(n: nat, tail: nat, free: nat, segs: seq<Seg>, d: nat, tail': nat)
    requires tail < n && tail' < n && SegsOk(n, tail, free, segs) && d <= free
    requires Shifted(n, tail, segs, d, tail')
    ensures SegsOk(n, tail', free - d, segs)
  {
    hide Lo;
  }

  lemma SegsShift(n: nat, tail: nat, free: nat, segs: seq<Seg>, i: nat, d: nat, tail': nat)
    requires tail < n && SegsOk(n, tail, free, segs) && i <= |segs| && d <= free <= n
    requires i < |segs| ==> d < Lo(n, tail, segs[i])
    requires i > 0 ==> Hi(n, tail, segs[i-1]) <= d
    requires tail' == Wrap(tail + d, n)
    ensures SegsOk(n, tail', free - d, segs[i..])
    ensures SameBytes(n, tail, segs, d, tail', segs[i..])
  {
    hide Dist, Shifted, Covered, Wrap;
    RestShifted(n, tail, free, segs, i, d, tail');
    ShiftedOk(n, tail, free, segs[i..], d, tail');
    forall o: nat ensures Covered(n, tail', segs[i..], o) <==> Covered(n, tail, segs, d + o) {
      CoverSplit(n, tail, segs, i, d + o);
      CoverShift(n, tail, segs[i..], d, tail', o);
      FrontBehind(n, tail, free, segs, i, d + o);
    }
  }

  lemma FrontBehind(n: nat, tail: nat, free: nat, segs: seq<Seg>, i: nat, o: nat)
    requires tail < n && SegsOk(n, tail, free, segs) && i <= |segs|
    requires i > 0 ==> Hi(n, tail, segs[i-1]) <= o
    ensures !Covered(n, tail, segs[..i], o)
  {
    hide Lo, Hi;
    assert forall t :: 0 <= t < i ==> Hi(n, tail, segs[t]) <= Hi(n, tail, segs[i-1]);
  }

  lemma CoverShift(n: nat, tail: nat, segs: seq<Seg>, d: nat, tail': nat, o: nat)
    requires tail < n && tail' < n && InRing(n, segs) && Shifted(n, tail, segs, d, tail')
    ensures Covered(n, tail', segs, o) <==> Covered(n, tail, segs, d + o)
  {
    hide Dist;
    if t :| 0 <= t < |segs| && Lo(n, tail', segs[t]) <= o < Hi(n, tail', segs[t]) {
      assert Lo(n, tail, segs[t]) <= d + o < Hi(n, tail, segs[t]);
    }
    if t :| 0 <= t < |segs| && Lo(n, tail, segs[t]) <= d + o < Hi(n, tail, segs[t]) {
      assert Lo(n, tail', segs[t]) <= o < Hi(n, tail', segs[t]);
    }
  }

  // ------------------------------------------------------------------------------------------

  // One segment of that pass.
  lemma PassOne(n: nat, tail: nat, cursize: nat, segs: seq<Seg>, m: nat, k: nat)
    requires CollectCall(n, tail, cursize, segs, m) && k < |segs|
    ensures var s := segs[k];
            var tail' := Wrap(tail + m, n);
            PassOverrun(n, tail', segs, m, k)
            == if Lo(n, tail, s) < m then
                 if Hi(n, tail, s) > m then
                   Overrun(k, Wrap(tail' + (Hi(n, tail, s) - m), n), m - Lo(n, tail, s))
                 else if k + 1 < |segs| then PassOverrun(n, tail', segs, m, k + 1)
                 else Overrun(k, tail', m - Lo(n, tail, s))
               else
                 Overrun(k, tail', if Lo(n, tail, s) == m then 0 else n - (Lo(n, tail, s) - m))
  {
    hide Dist, Position, SegLag;
    LagIs(n, tail, segs[k], m);
    if Lo(n, tail, segs[k]) < m < Hi(n, tail, segs[k]) {
      PositionIs(n, Wrap(tail + m, n), Hi(n, tail, segs[k]) - m);
    }
  }

  // Where passing over overrun segments stops, by the first segment that ends beyond the m bytes.
  lemma {:induction false} PassIs(n: nat, tail: nat, cursize: nat, segs: seq<Seg>, m: nat, k: nat)
    requires CollectCall(n, tail, cursize, segs, m) && k < |segs|
    ensures var i := FirstReaching(n, tail, segs, m + 1, k);
            var tail' := Wrap(tail + m, n);
            var v := PassOverrun(n, tail', segs, m, k);
            if i == |segs| then
              v.first == i - 1 && v.tail == tail' && v.lag != 0
            else if Lo(n, tail, segs[i]) < m then
              v.first == i && v.lag != 0
              && v.tail == Wrap(tail' + (Hi(n, tail, segs[i]) - m), n)
            else
              v.first == i && v.tail == tail' && (v.lag == 0 <==> Lo(n, tail, segs[i]) == m)
    decreases |segs| - k
  {
    hide Dist, Wrap, PassOverrun, InRing;
    PassOne(n, tail, cursize, segs, m, k);
    if Lo(n, tail, segs[k]) < m && Hi(n, tail, segs[k]) <= m && k + 1 < |segs| {
      PassIs(n, tail, cursize, segs, m, k + 1);
    }
  }

  // The tail has come to `total`, between segments i-1 and i, with everything up to there covered.
  lemma CollectedRight(n: nat, tail: nat, cursize: nat, segs: seq<Seg>, m: nat, i: nat, c: Collected)
    requires CollectCall(n, tail, cursize, segs, m) && i <= |segs|
    requires cursize + m + c.bytes <= n && c.tail == Wrap(tail + m + c.bytes, n) && c.segs == segs[i..]
    requires i > 0 ==> Hi(n, tail, segs[i-1]) <= m + c.bytes
    requires i < |segs| ==> m + c.bytes < Lo(n, tail, segs[i])
    requires c.bytes > 0 ==> i > 0 && Lo(n, tail, segs[i-1]) == m && segs[i-1].len == c.bytes
    ensures CollectRight(n, tail, cursize, segs, m, c)
  {
    hide Dist, Wrap, SegsOk, SameBytes;
    SegsShift(n, tail, n - cursize, segs, i, m + c.bytes, c.tail);
    NotCovered(n, tail, n - cursize, segs, i, m + c.bytes);
  }

  lemma TryCollectIs(n: nat, tail: nat, cursize: nat, segs: seq<Seg>, m: nat)
    requires CollectCall(n, tail, cursize, segs, m) && CollectGood(n, tail, segs, m)
    ensures var i := FirstReaching(n, tail, segs, m + 1, 0);
            TryCollect(n, Wrap(tail + m, n), cursize, segs, m)
            == if Lo(n, tail, segs[i]) == m then
                 Collected(Wrap(tail + Hi(n, tail, segs[i]), n), segs[i + 1..], segs[i].len)
               else
                 Collected(Wrap(tail + m, n), segs[i..], 0)
  {
    hide Dist, Position, SegLag, PassOverrun;
    PassIs(n, tail, cursize, segs, m, 0);
    var i := FirstReaching(n, tail, segs, m + 1, 0);
    PositionIs(n, Wrap(tail + m, n), segs[i].len);
  }

  lemma CollectGoodRight(n: nat, tail: nat, cursize: nat, segs: seq<Seg>, m: nat)
    requires CollectCall(n, tail, cursize, segs, m) && CollectGood(n, tail, segs, m)
    ensures CollectRight(n, tail, cursize, segs, m,
                         TryCollect(n, Wrap(tail + m, n), cursize, segs, m))
  {
    hide Dist, Wrap, FirstReaching, TryCollect, CollectRight;
    var i := FirstReaching(n, tail, segs, m + 1, 0);
    var c := TryCollect(n, Wrap(tail + m, n), cursize, segs, m);
    TryCollectIs(n, tail, cursize, segs, m);
    assert i > 0 ==> Hi(n, tail, segs[i-1]) < Lo(n, tail, segs[i]);
    assert i + 1 < |segs| ==> Hi(n, tail, segs[i]) < Lo(n, tail, segs[i+1]);
    CollectedRight(n, tail, cursize, segs, m, if Lo(n, tail, segs[i]) == m then i + 1 else i, c);
  }

  lemma NotCovered(n: nat, tail: nat, free: nat, segs: seq<Seg>, i: nat, o: nat)
    requires tail < n && SegsOk(n, tail, free, segs) && i <= |segs|
    requires i > 0 ==> Hi(n, tail, segs[i-1]) <= o
    requires i < |segs| ==> o < Lo(n, tail, segs[i])
    ensures !Covered(n, tail, segs, o)
  {
    hide Dist;
    CoverSplit(n, tail, segs, i, o);
    FrontBehind(n, tail, free, segs, i, o);
  }

  lemma BadCollectIs(n: nat, tail: nat, cursize: nat, segs: seq<Seg>, m: nat)
    requires CollectCall(n, tail, cursize, segs, m) && !CollectGood(n, tail, segs, m)
    ensures var i := FirstReaching(n, tail, segs, m + 1, 0);
            TryCollect(n, Wrap(tail + m, n), cursize, segs, m)
            == if i == |segs| then Collected(Wrap(tail + m, n), segs[i - 1..], 0)
               else Collected(Wrap(Wrap(tail + m, n) + (Hi(n, tail, segs[i]) - m), n), segs[i..], 0)
  {
    hide Dist, Position, SegLag, PassOverrun, FirstReaching;
    PassIs(n, tail, cursize, segs, m, 0);
  }

  // A segment wholly behind the tail stays on the list and seems to lie a lap ahead.
  lemma LapAhead(n: nat, tail: nat, cursize: nat, segs: seq<Seg>, m: nat, i: nat)
    requires CollectCall(n, tail, cursize, segs, m) && i < |segs| && Hi(n, tail, segs[i]) <= m
    ensures !SegsOk(n, Wrap(tail + m, n), n - cursize - m, segs[i..])
  {
    hide Dist;
    LoShift(n, tail, segs[i], m);
    assert segs[i..][0] == segs[i];
  }

  // Any other place the tail comes to makes the result wrong.
  lemma TailWrong(n: nat, tail: nat, cursize: nat, segs: seq<Seg>, m: nat, past: nat, rest: seq<Seg>)
    requires CollectCall(n, tail, cursize, segs, m) && 0 < past < n
    ensures !CollectRight(n, tail, cursize, segs, m, Collected(Wrap(Wrap(tail + m, n) + past, n), rest, 0))
  {
    hide Dist, SegsOk, Covered, SameBytes;
  }

  lemma CollectBadWrong(n: nat, tail: nat, cursize: nat, segs: seq<Seg>, m: nat)
    requires CollectCall(n, tail, cursize, segs, m) && !CollectGood(n, tail, segs, m)
    ensures !CollectRight(n, tail, cursize, segs, m,
                          TryCollect(n, Wrap(tail + m, n), cursize, segs, m))
  {
    hide Wrap, Dist, TryCollect, FirstReaching, SameBytes, Covered;
    var i := FirstReaching(n, tail, segs, m + 1, 0);
    BadCollectIs(n, tail, cursize, segs, m);
    if i == |segs| {
      LapAhead(n, tail, cursize, segs, m, |segs| - 1);
    } else {
      TailWrong(n, tail, cursize, segs, m, Hi(n, tail, segs[i]) - m, segs[i..]);
    }
  }

  // The fifo is sound after collecting, with exactly the bytes that follow on exposed and counted,
  // if and only if CollectGood held.
  lemma CollectExact(n: nat, tail: nat, cursize: nat, segs: seq<Seg>, m: nat)
    requires CollectCall(n, tail, cursize, segs, m)
    ensures CollectRight(n, tail, cursize, segs, m,
                         TryCollect(n, Wrap(tail + m, n), cursize, segs, m))
       <==> CollectGood(n, tail, segs, m)
  {
    if CollectGood(n, tail, segs, m) {
      CollectGoodRight(n, tail, cursize, segs, m);
    } else {
      CollectBadWrong(n, tail, cursize, segs, m);
    }
  }
}
