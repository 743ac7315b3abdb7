// When the out-of-order segment list of the fifo stays sound, and when it does not.
module FifoSegments {
  import opened Ring
  import opened FifoSpec

  // Tail-relative span [Lo, Hi) of a segment, in exact arithmetic.
  function Lo(n: nat, tail: nat, s: Seg): (r: nat)
    requires tail < n && s.pos < n
    ensures r < n
  {
    Dist(n, tail, s.pos)
  }

  function Hi(n: nat, tail: nat, s: Seg): nat
    requires tail < n && s.pos < n
  {
    Lo(n, tail, s) + s.len
  }

  ghost predicate InRing(n: nat, segs: seq<Seg>) {
    forall i :: 0 <= i < |segs| ==> segs[i].pos < n
  }

  // Segments hold bytes ahead of the tail and within the free space, in order, merged when adjacent.
  ghost predicate SegsOk(n: nat, tail: nat, free: nat, segs: seq<Seg>)
    requires tail < n
  {
    && InRing(n, segs)
    && (forall i :: 0 <= i < |segs| ==>
                      0 < Lo(n, tail, segs[i]) < Hi(n, tail, segs[i]) <= free)
    && (forall i, j :: 0 <= i < j < |segs| ==> Hi(n, tail, segs[i]) < Lo(n, tail, segs[j]))
  }

  ghost predicate Covered(n: nat, tail: nat, segs: seq<Seg>, o: nat)
    requires tail < n && InRing(n, segs)
  {
    exists i :: 0 <= i < |segs| && Lo(n, tail, segs[i]) <= o < Hi(n, tail, segs[i])
  }

  lemma OffsetIs(n: nat, tail: nat, s: Seg)
    requires tail < n <= MAX_RING && s.pos < n
    ensures SegOffset(n, tail, s) == Lo(n, tail, s)
  {
    ModOnce(n + s.pos - tail, n);
  }

  lemma LapIs(n: nat)
    requires 0 < n <= MAX_RING
    ensures U32(2 * n) % n == 0
  {
    ModTwice(n);
  }

  lemma EndOffsetIs(n: nat, tail: nat, s: Seg)
    requires tail < n <= MAX_RING && s.pos < n && Hi(n, tail, s) <= n
    ensures SegEndOffset(n, tail, s) == if Hi(n, tail, s) == n then 0 else Hi(n, tail, s)
  {
    hide U32;
    var x := n + s.pos + s.len - tail;
    LapIs(n);
    if x < 2 * n {
      U32Is(x);
      ModOnce(x, n);
    }
  }

  lemma PositionIs(n: nat, tail: nat, offset: nat)
    requires tail < n <= MAX_RING && offset <= n
    ensures var s := Position(n, tail, offset);
            && s == Wrap(tail + offset, n)
            && Dist(n, tail, s) == if offset == n then 0 else offset
  {
    ModOnce(tail + offset, n);
  }

  // ------------------------------------------------------------------------------------------
  // Searching the list

  lemma {:induction false} FindIs(n: nat, tail: nat, free: nat, segs: seq<Seg>, offset: nat, i: nat)
    requires tail < n <= MAX_RING && SegsOk(n, tail, free, segs) && i < |segs|
    ensures var j := FindFrom(n, tail, segs, offset, i);
            && (forall t :: i <= t < j ==> Lo(n, tail, segs[t]) <= offset)
            && (j + 1 < |segs| ==> offset < Lo(n, tail, segs[j]) && Hi(n, tail, segs[j]) < n)
    decreases |segs| - i
  {
    OffsetIs(n, tail, segs[i]);
    assert i + 1 < |segs| ==> Hi(n, tail, segs[i]) < Lo(n, tail, segs[i + 1]);
    if i + 1 < |segs| && SegOffset(n, tail, segs[i]) <= offset {
      FindIs(n, tail, free, segs, offset, i + 1);
    }
  }

  // First segment from i on that ends at or after `end`.
  function FirstReaching(n: nat, tail: nat, segs: seq<Seg>, end: nat, i: nat): (m: nat)
    requires tail < n && i <= |segs|
    requires forall t :: 0 <= t < |segs| ==> segs[t].pos < n
    ensures i <= m <= |segs|
    ensures forall t :: i <= t < m ==> Hi(n, tail, segs[t]) < end
    ensures m < |segs| ==> end <= Hi(n, tail, segs[m])
    decreases |segs| - i
  {
    if i < |segs| && Hi(n, tail, segs[i]) < end
    then FirstReaching(n, tail, segs, end, i + 1)
    else i
  }

  // A segment that ends a whole lap past the tail is taken for covered, whatever `end` is.
  lemma {:induction false} SkipIs(n: nat, tail: nat, segs: seq<Seg>, end: nat, i: nat)
    requires tail < n <= MAX_RING && SegsOk(n, tail, n, segs) && i <= |segs| && 0 < end
    ensures var m := FirstReaching(n, tail, segs, end, i);
            SkipCovered(n, tail, segs, end, i)
            == if m < |segs| && Hi(n, tail, segs[m]) == n then m + 1 else m
    decreases |segs| - i
  {
    if i < |segs| {
      EndOffsetIs(n, tail, segs[i]);
      assert i + 1 < |segs| ==> Hi(n, tail, segs[i]) < Lo(n, tail, segs[i + 1]);
      if Hi(n, tail, segs[i]) != n && Hi(n, tail, segs[i]) < end {
        SkipIs(n, tail, segs, end, i + 1);
      }
    }
  }

  // ------------------------------------------------------------------------------------------
  // Splicing

  lemma SplicedAt(segs: seq<Seg>, p: Splice, i: nat)
    requires p.from <= p.to <= |segs| && i <= p.from + |segs| - p.to
    ensures var r := Spliced(segs, p);
            && |r| == p.from + 1 + |segs| - p.to
            && r[i] == if i < p.from then segs[i]
                       else if i == p.from then p.s
                       else segs[i - p.from - 1 + p.to]
  {
  }

  // The new segment fits its place.
  ghost predicate Fits(n: nat, tail: nat, free: nat, segs: seq<Seg>, p: Splice)
    requires tail < n && InRing(n, segs) && p.from <= p.to <= |segs| && p.s.pos < n
  {
    && 0 < Lo(n, tail, p.s) < Hi(n, tail, p.s) <= free
    && (p.from == 0 || Hi(n, tail, segs[p.from - 1]) < Lo(n, tail, p.s))
    && (p.to == |segs| || Hi(n, tail, p.s) < Lo(n, tail, segs[p.to]))
  }

  lemma FitsSound(n: nat, tail: nat, free: nat, segs: seq<Seg>, p: Splice)
    requires tail < n && SegsOk(n, tail, free, segs) && p.from <= p.to <= |segs| && p.s.pos < n
    requires Fits(n, tail, free, segs, p)
    ensures SegsOk(n, tail, free, Spliced(segs, p))
  {
    var r := Spliced(segs, p);
    forall i | 0 <= i < |r|
      ensures r[i].pos < n && 0 < Lo(n, tail, r[i]) < Hi(n, tail, r[i]) <= free
    {
      SplicedAt(segs, p, i);
    }
    forall i, j | 0 <= i < j < |r| ensures Hi(n, tail, r[i]) < Lo(n, tail, r[j]) {
      SplicedAt(segs, p, i);
      SplicedAt(segs, p, j);
      if i < p.from && p.from <= j {
        assert Hi(n, tail, segs[i]) <= Hi(n, tail, segs[p.from - 1]);
      }
      if i <= p.from < j {
        assert Lo(n, tail, segs[p.to]) <= Lo(n, tail, r[j]);
      }
    }
  }

  lemma SplicedSound(n: nat, tail: nat, free: nat, segs: seq<Seg>, p: Splice)
    requires tail < n && SegsOk(n, tail, free, segs) && p.from <= p.to <= |segs| && p.s.pos < n
    ensures InRing(n, Spliced(segs, p))
    ensures SegsOk(n, tail, free, Spliced(segs, p)) <==> Fits(n, tail, free, segs, p)
  {
    var r := Spliced(segs, p);
    forall i | 0 <= i < |r| ensures r[i].pos < n { SplicedAt(segs, p, i); }
    if Fits(n, tail, free, segs, p) {
      FitsSound(n, tail, free, segs, p);
    }
    if SegsOk(n, tail, free, r) {
      SplicedAt(segs, p, p.from);
      if p.from > 0 { SplicedAt(segs, p, p.from - 1); }
      if p.to < |segs| { SplicedAt(segs, p, p.from + 1); }
    }
  }

  lemma SplicedCover(n: nat, tail: nat, segs: seq<Seg>, p: Splice, o: nat)
    requires tail < n && InRing(n, segs) && p.from <= p.to <= |segs| && p.s.pos < n
    requires InRing(n, Spliced(segs, p))
    ensures Covered(n, tail, Spliced(segs, p), o) <==>
            || Lo(n, tail, p.s) <= o < Hi(n, tail, p.s)
            || Covered(n, tail, segs[..p.from], o)
            || Covered(n, tail, segs[p.to..], o)
  {
    var r := Spliced(segs, p);
    assert r[p.from] == p.s;
    assert r[..p.from] == segs[..p.from] && r[p.from + 1..] == segs[p.to..];
    CoverSplit(n, tail, r, p.from, o);
    CoverSplit(n, tail, r[p.from..], 1, o);
    assert r[p.from..][1..] == segs[p.to..];
    assert r[p.from..][..1] == [p.s];
    assert [p.s][0] == p.s;
  }

  lemma CoverSplit(n: nat, tail: nat, segs: seq<Seg>, i: nat, o: nat)
    requires tail < n && InRing(n, segs) && i <= |segs|
    ensures Covered(n, tail, segs, o)
            <==> Covered(n, tail, segs[..i], o) || Covered(n, tail, segs[i..], o)
  {
    if t :| 0 <= t < |segs| && Lo(n, tail, segs[t]) <= o < Hi(n, tail, segs[t]) {
      if t < i { assert segs[..i][t] == segs[t]; } else { assert segs[i..][t - i] == segs[t]; }
    }
  }
}
