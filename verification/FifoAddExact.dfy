// ooo_segment_add: exactly which calls keep the list sorted, merged and true to the bytes stored.
module FifoAddExact {
  import opened Ring
  import opened FifoSpec
  import opened FifoSegments

  // The first later segment that reaches the new range's end starts beyond it.
  predicate EndGood(n: nat, tail: nat, segs: seq<Seg>, end: nat, i: nat)
    requires tail < n && i <= |segs|
    requires forall t :: 0 <= t < |segs| ==> segs[t].pos < n
  {
    var m := FirstReaching(n, tail, segs, end, i);
    m == |segs| || (if Hi(n, tail, segs[m]) == n then end == n else end < Lo(n, tail, segs[m]))
  }

  ghost predicate Call(n: nat, tail: nat, free: nat, segs: seq<Seg>, offset: nat, length: nat) {
    && tail < n <= MAX_RING && free <= n && SegsOk(n, tail, free, segs)
    && 0 < offset && offset + length <= free
  }

  lemma PrefixCover(n: nat, tail: nat, free: nat, segs: seq<Seg>, i: nat, o: nat)
    requires tail < n && SegsOk(n, tail, free, segs) && i < |segs|
    ensures Covered(n, tail, segs[..i], o) ==> o < Lo(n, tail, segs[i])
    ensures Covered(n, tail, segs[i+1..], o) ==> Hi(n, tail, segs[i]) < o
  {
  }

  // p.s is exactly the new range together with the segments it replaces.
  ghost predicate Spans(n: nat, tail: nat, segs: seq<Seg>, p: Splice, offset: nat, end: nat)
    requires tail < n && InRing(n, segs) && p.from <= p.to <= |segs| && p.s.pos < n
  {
    && Lo(n, tail, p.s) <= offset && end <= Hi(n, tail, p.s)
    && (Lo(n, tail, p.s) < offset ==>
          p.from < p.to && Lo(n, tail, p.s) == Lo(n, tail, segs[p.from])
          && offset <= Hi(n, tail, segs[p.from]))
    && (end < Hi(n, tail, p.s) ==>
          p.from < p.to && Hi(n, tail, p.s) == Hi(n, tail, segs[p.to - 1])
          && Lo(n, tail, segs[p.to - 1]) <= end)
    && (p.from < p.to ==>
          Lo(n, tail, p.s) <= Lo(n, tail, segs[p.from])
          && Hi(n, tail, segs[p.to - 1]) <= Hi(n, tail, p.s))
  }

  lemma SpansCover(n: nat, tail: nat, free: nat, segs: seq<Seg>, p: Splice,
                   offset: nat, end: nat, o: nat)
    requires tail < n && SegsOk(n, tail, free, segs) && offset <= end
    requires p.from <= p.to <= |segs| && p.s.pos < n && Spans(n, tail, segs, p, offset, end)
    ensures Lo(n, tail, p.s) <= o < Hi(n, tail, p.s)
            <==> Covered(n, tail, segs[p.from..p.to], o) || offset <= o < end
  {
    hide Lo, Hi;
    var mid := segs[p.from..p.to];
    if Lo(n, tail, p.s) <= o < Hi(n, tail, p.s) {
      if o < offset {
        assert mid[0] == segs[p.from];
      } else if end <= o {
        assert mid[|mid| - 1] == segs[p.to - 1];
      }
    }
    if t :| 0 <= t < |mid| && Lo(n, tail, mid[t]) <= o < Hi(n, tail, mid[t]) {
      assert mid[t] == segs[p.from + t];
      assert Lo(n, tail, segs[p.from]) <= Lo(n, tail, mid[t]);
      assert Hi(n, tail, mid[t]) <= Hi(n, tail, segs[p.to - 1]);
    }
  }

  // The list after the splice is sound and covers exactly the old bytes and the new range.
  ghost predicate RightAfter(n: nat, tail: nat, free: nat, segs: seq<Seg>, p: Splice, offset: nat, end: nat)
    requires tail < n && InRing(n, segs) && p.from <= p.to <= |segs| && InRing(n, Spliced(segs, p))
  {
    && SegsOk(n, tail, free, Spliced(segs, p))
    && forall o: nat :: Covered(n, tail, Spliced(segs, p), o)
                        <==> Covered(n, tail, segs, o) || offset <= o < end
  }

  // A splice whose segment fits its place and spans what it replaces does what the call is for.
  lemma SpliceRight(n: nat, tail: nat, free: nat, segs: seq<Seg>, p: Splice, offset: nat, end: nat)
    requires tail < n && SegsOk(n, tail, free, segs) && offset <= end
    requires p.from <= p.to <= |segs| && p.s.pos < n
    requires Fits(n, tail, free, segs, p) && Spans(n, tail, segs, p, offset, end)
    ensures InRing(n, Spliced(segs, p)) && RightAfter(n, tail, free, segs, p, offset, end)
  {
    SplicedSound(n, tail, free, segs, p);
    forall o: nat
      ensures Covered(n, tail, Spliced(segs, p), o)
         <==> Covered(n, tail, segs, o) || offset <= o < end
    {
      SplicedCover(n, tail, segs, p, o);
      CoverSplit(n, tail, segs, p.to, o);
      CoverSplit(n, tail, segs[..p.to], p.from, o);
      assert segs[..p.to][..p.from] == segs[..p.from];
      assert segs[..p.to][p.from..] == segs[p.from..p.to];
      SpansCover(n, tail, free, segs, p, offset, end, o);
    }
  }

  // ------------------------------------------------------------------------------------------
  // Merging at the head of segs[j]

  // The state in which ooo_segment_add reaches its "merge at head" code.
  ghost predicate MergeCall(n: nat, tail: nat, free: nat, segs: seq<Seg>, offset: nat, length: nat, j: nat) {
    && Call(n, tail, free, segs, offset, length) && j < |segs|
    && (forall t :: 0 <= t < j ==> Lo(n, tail, segs[t]) <= offset)
    && offset <= Lo(n, tail, segs[j]) <= offset + length
    && Hi(n, tail, segs[j]) < n
  }

  // Where the merged segment starts, and the first segment it replaces.
  function MergeLo(n: nat, tail: nat, segs: seq<Seg>, offset: nat, j: nat): nat
    requires tail < n && j < |segs| && forall t :: 0 <= t < |segs| ==> segs[t].pos < n
  {
    if j == 0 then offset
    else if offset <= Hi(n, tail, segs[j-1]) then Lo(n, tail, segs[j-1])
    else Lo(n, tail, segs[j])
  }

  lemma MergeFrontIs(n: nat, tail: nat, free: nat, segs: seq<Seg>, offset: nat, length: nat, j: nat)
    requires MergeCall(n, tail, free, segs, offset, length, j)
    ensures var p := MergeFront(n, tail, segs, offset, j);
            && p.s.pos < n && Lo(n, tail, p.s) == MergeLo(n, tail, segs, offset, j)
            && Hi(n, tail, p.s) == Hi(n, tail, segs[j])
            && p.from == (if j > 0 && offset <= Hi(n, tail, segs[j-1]) then j - 1 else j)
  {
    hide Position, SegOffset, SegEndOffset;
    EndOffsetIs(n, tail, segs[j]);
    if j == 0 {
      PositionIs(n, tail, offset);
      OffsetIs(n, tail, Seg(Position(n, tail, offset), 0));
    } else {
      OffsetIs(n, tail, segs[j-1]);
      EndOffsetIs(n, tail, segs[j-1]);
    }
  }

  lemma MergeEndIs(n: nat, tail: nat, free: nat, segs: seq<Seg>, end: nat, p: Splice)
    requires tail < n <= MAX_RING && free <= n && SegsOk(n, tail, free, segs)
    requires p.from <= p.to <= |segs| && p.s.pos < n && Lo(n, tail, p.s) <= end <= n && 0 < end
    ensures var q := MergeEnd(n, tail, segs, end, p);
            var m := FirstReaching(n, tail, segs, end, p.to);
            && q.s.pos == p.s.pos
            && if m < |segs| && Hi(n, tail, segs[m]) == n then
                 q.to == m + 1 && Hi(n, tail, q.s) == end
               else if m < |segs| && Lo(n, tail, segs[m]) < end then
                 q.to == m + 1
                 && q.s.len == U32(end - Lo(n, tail, p.s) + segs[m].len + end - Lo(n, tail, segs[m]))
               else
                 q.to == m && Hi(n, tail, q.s) == end
  {
    hide Dist, Position, SegOffset, SegEndOffset, SkipCovered, FirstReaching, U32;
    SkipIs(n, tail, segs, end, p.to);
    var m := SkipCovered(n, tail, segs, end, p.to);
    OffsetIs(n, tail, p.s);
    U32Is(end - Lo(n, tail, p.s));
    if m < |segs| { OffsetIs(n, tail, segs[m]); }
  }

  function Merge(n: nat, tail: nat, segs: seq<Seg>, offset: nat, end: nat, j: nat): (p: Splice)
    requires tail < n && j < |segs| && forall t :: 0 <= t < |segs| ==> segs[t].pos < n
    ensures p.from <= j < p.to <= |segs|
  {
    var p := MergeFront(n, tail, segs, offset, j);
    if Hi(n, tail, segs[j]) < end then MergeEnd(n, tail, segs, end, p) else p
  }

  predicate MergeGood(n: nat, tail: nat, segs: seq<Seg>, offset: nat, end: nat, j: nat)
    requires tail < n && j < |segs| && forall t :: 0 <= t < |segs| ==> segs[t].pos < n
  {
    && (j == 0 || offset == Lo(n, tail, segs[j]) || offset <= Hi(n, tail, segs[j-1]))
    && (end <= Hi(n, tail, segs[j]) || EndGood(n, tail, segs, end, j + 1))
  }

  // The two halves of Fits and Spans for a splice that replaces at least one segment.
  ghost predicate FrontOk(n: nat, tail: nat, segs: seq<Seg>, p: Splice, offset: nat)
    requires tail < n && InRing(n, segs) && p.from < p.to <= |segs| && p.s.pos < n
  {
    && 0 < Lo(n, tail, p.s) <= offset && Lo(n, tail, p.s) <= Lo(n, tail, segs[p.from])
    && (p.from == 0 || Hi(n, tail, segs[p.from - 1]) < Lo(n, tail, p.s))
    && (Lo(n, tail, p.s) < offset ==>
          Lo(n, tail, p.s) == Lo(n, tail, segs[p.from]) && offset <= Hi(n, tail, segs[p.from]))
  }

  ghost predicate EndOk(n: nat, tail: nat, free: nat, segs: seq<Seg>, p: Splice, end: nat)
    requires tail < n && InRing(n, segs) && p.from < p.to <= |segs| && p.s.pos < n
  {
    && end <= Hi(n, tail, p.s) <= free && Hi(n, tail, segs[p.to - 1]) <= Hi(n, tail, p.s)
    && (p.to == |segs| || Hi(n, tail, p.s) < Lo(n, tail, segs[p.to]))
    && (end < Hi(n, tail, p.s) ==>
          Hi(n, tail, p.s) == Hi(n, tail, segs[p.to - 1]) && Lo(n, tail, segs[p.to - 1]) <= end)
  }

  lemma MergeFrontOk(n: nat, tail: nat, free: nat, segs: seq<Seg>, offset: nat, length: nat, j: nat)
    requires MergeCall(n, tail, free, segs, offset, length, j)
    requires j == 0 || offset == Lo(n, tail, segs[j]) || offset <= Hi(n, tail, segs[j-1])
    ensures var p := MergeFront(n, tail, segs, offset, j);
            p.s.pos < n && FrontOk(n, tail, segs, p, offset)
  {
    hide Dist, Position, SegOffset, SegEndOffset, MergeFront;
    MergeFrontIs(n, tail, free, segs, offset, length, j);
    assert j > 0 ==> Hi(n, tail, segs[j-1]) < Lo(n, tail, segs[j]);
    assert j > 1 ==> Hi(n, tail, segs[j-2]) < Lo(n, tail, segs[j-1]);
  }

  lemma MergeEndOk(n: nat, tail: nat, free: nat, segs: seq<Seg>, end: nat, p: Splice)
    requires tail < n <= MAX_RING && free <= n && SegsOk(n, tail, free, segs)
    requires p.from < p.to <= |segs| && p.s.pos < n && Lo(n, tail, p.s) < end <= free
    requires Hi(n, tail, segs[p.to - 1]) < end && EndGood(n, tail, segs, end, p.to)
    ensures EndOk(n, tail, free, segs, MergeEnd(n, tail, segs, end, p), end)
  {
    hide Dist, Position, SegOffset, SegEndOffset, MergeEnd;
    MergeEndIs(n, tail, free, segs, end, p);
    var m := FirstReaching(n, tail, segs, end, p.to);
    assert m + 1 < |segs| ==> Hi(n, tail, segs[m]) < Lo(n, tail, segs[m + 1]);
  }

  // The new range ends within segs[j]: the end stays segs[j]'s own.
  lemma MergeShortOk(n: nat, tail: nat, free: nat, segs: seq<Seg>, offset: nat, length: nat, j: nat)
    requires MergeCall(n, tail, free, segs, offset, length, j) && offset + length <= Hi(n, tail, segs[j])
    ensures EndOk(n, tail, free, segs, MergeFront(n, tail, segs, offset, j), offset + length)
  {
    hide Dist, Position, SegOffset, SegEndOffset, MergeFront;
    MergeFrontIs(n, tail, free, segs, offset, length, j);
    assert j + 1 < |segs| ==> Hi(n, tail, segs[j]) < Lo(n, tail, segs[j+1]);
  }

  lemma HalvesFit(n: nat, tail: nat, free: nat, segs: seq<Seg>, p: Splice, offset: nat, end: nat)
    requires tail < n && SegsOk(n, tail, free, segs) && p.from < p.to <= |segs| && p.s.pos < n
    requires FrontOk(n, tail, segs, p, offset) && EndOk(n, tail, free, segs, p, end)
    ensures Fits(n, tail, free, segs, p) && Spans(n, tail, segs, p, offset, end)
  {
    hide Lo, Hi;
    assert Lo(n, tail, segs[p.from]) <= Lo(n, tail, segs[p.to - 1]) by {
      assert p.from < p.to - 1 ==> Hi(n, tail, segs[p.from]) < Lo(n, tail, segs[p.to - 1]);
    }
  }

  lemma MergeGoodFits(n: nat, tail: nat, free: nat, segs: seq<Seg>, offset: nat, length: nat, j: nat)
    requires MergeCall(n, tail, free, segs, offset, length, j)
    requires MergeGood(n, tail, segs, offset, offset + length, j)
    ensures var p := Merge(n, tail, segs, offset, offset + length, j);
            && p.s.pos < n && Fits(n, tail, free, segs, p)
            && Spans(n, tail, segs, p, offset, offset + length)
  {
    hide Dist, Position, SegOffset, SegEndOffset, MergeFront, MergeEnd, EndGood, EndOk, Fits, Spans;
    MergeFrontIs(n, tail, free, segs, offset, length, j);
    MergeFrontOk(n, tail, free, segs, offset, length, j);
    if Hi(n, tail, segs[j]) < offset + length {
      MergeEndOk(n, tail, free, segs, offset + length, MergeFront(n, tail, segs, offset, j));
    } else {
      MergeShortOk(n, tail, free, segs, offset, length, j);
    }
    HalvesFit(n, tail, free, segs, Merge(n, tail, segs, offset, offset + length, j), offset, offset + length);
  }

  // A splice that ends anywhere but at the end of the last segment it replaces loses that segment's
  // last byte or claims the byte after it.
  lemma WrongEnd(n: nat, tail: nat, free: nat, segs: seq<Seg>, p: Splice, offset: nat, end: nat)
    requires tail < n && SegsOk(n, tail, free, segs)
    requires p.from < p.to <= |segs| && p.s.pos < n && InRing(n, Spliced(segs, p))
    requires Lo(n, tail, p.s) < Hi(n, tail, segs[p.to - 1]) != Hi(n, tail, p.s)
    requires end <= Hi(n, tail, segs[p.to - 1])
    ensures exists o: nat :: !(Covered(n, tail, Spliced(segs, p), o)
                        <==> Covered(n, tail, segs, o) || offset <= o < end)
  {
    hide Dist;
    var m := p.to - 1;
    var o := if Hi(n, tail, p.s) < Hi(n, tail, segs[m]) then Hi(n, tail, segs[m]) - 1 else Hi(n, tail, segs[m]);
    SplicedCover(n, tail, segs, p, o);
    PrefixCover(n, tail, free, segs, m, o);
    CoverSplit(n, tail, segs, m, o);
    CoverSplit(n, tail, segs[m..], 1, o);
    CoverSplit(n, tail, segs[..m], p.from, o);
    assert segs[m..][1..] == segs[m+1..];
    assert segs[..m][..p.from] == segs[..p.from];
    assert segs[m..][..1] == [segs[m]];
    assert [segs[m]][0] == segs[m];
    assert forall t :: 0 <= t < |[segs[m]]| ==> [segs[m]][t] == segs[m];
  }

  // The new range starts in a gap before segs[j]: the gap's bytes are stored but in no segment.
  lemma WrongFront(n: nat, tail: nat, free: nat, segs: seq<Seg>, p: Splice, offset: nat, end: nat, j: nat)
    requires tail < n && SegsOk(n, tail, free, segs) && offset < end
    requires p.from == j < p.to <= |segs| && p.s.pos < n && InRing(n, Spliced(segs, p))
    requires offset < Lo(n, tail, segs[j]) == Lo(n, tail, p.s)
    requires j == 0 || Hi(n, tail, segs[j-1]) < offset
    ensures !RightAfter(n, tail, free, segs, p, offset, end)
  {
    hide Dist;
    SplicedCover(n, tail, segs, p, offset);
    assert forall t :: 0 <= t < j ==> Hi(n, tail, segs[t]) <= Hi(n, tail, segs[j-1]);
    assert forall t :: j < t < |segs| ==> offset < Lo(n, tail, segs[t]);
    assert !Covered(n, tail, Spliced(segs, p), offset);
  }

  lemma WrongMergeEnd(n: nat, tail: nat, free: nat, segs: seq<Seg>, offset: nat, end: nat, p: Splice)
    requires tail < n <= MAX_RING && free <= n && SegsOk(n, tail, free, segs)
    requires p.from < p.to <= |segs| && p.s.pos < n && Lo(n, tail, p.s) <= Lo(n, tail, segs[p.to - 1])
    requires Hi(n, tail, segs[p.to - 1]) < end <= free && !EndGood(n, tail, segs, end, p.to)
    requires InRing(n, Spliced(segs, MergeEnd(n, tail, segs, end, p)))
    ensures !RightAfter(n, tail, free, segs, MergeEnd(n, tail, segs, end, p), offset, end)
  {
    hide Dist, Position, SegOffset, SegEndOffset, MergeEnd;
    MergeEndIs(n, tail, free, segs, end, p);
    var q := MergeEnd(n, tail, segs, end, p);
    var m := FirstReaching(n, tail, segs, end, p.to);
    assert Hi(n, tail, segs[p.to - 1]) < Lo(n, tail, segs[m]);
    if Hi(n, tail, segs[m]) != n && Lo(n, tail, segs[m]) == end {
      SplicedSound(n, tail, free, segs, q);
    } else {
      WrongEnd(n, tail, free, segs, q, offset, end);
    }
  }

  lemma MergeFrontWrong(n: nat, tail: nat, free: nat, segs: seq<Seg>, offset: nat, length: nat, j: nat)
    requires MergeCall(n, tail, free, segs, offset, length, j)
    requires 0 < j && offset != Lo(n, tail, segs[j]) && Hi(n, tail, segs[j-1]) < offset
    requires InRing(n, Spliced(segs, Merge(n, tail, segs, offset, offset + length, j)))
    ensures !RightAfter(n, tail, free, segs, Merge(n, tail, segs, offset, offset + length, j),
                        offset, offset + length)
  {
    hide Dist, Position, SegOffset, SegEndOffset, MergeFront, MergeEnd, RightAfter;
    MergeFrontIs(n, tail, free, segs, offset, length, j);
    WrongFront(n, tail, free, segs, Merge(n, tail, segs, offset, offset + length, j), offset, offset + length, j);
  }

  lemma MergeEndWrong(n: nat, tail: nat, free: nat, segs: seq<Seg>, offset: nat, length: nat, j: nat)
    requires MergeCall(n, tail, free, segs, offset, length, j)
    requires j == 0 || offset == Lo(n, tail, segs[j]) || offset <= Hi(n, tail, segs[j-1])
    requires Hi(n, tail, segs[j]) < offset + length && !EndGood(n, tail, segs, offset + length, j + 1)
    requires InRing(n, Spliced(segs, Merge(n, tail, segs, offset, offset + length, j)))
    ensures !RightAfter(n, tail, free, segs, Merge(n, tail, segs, offset, offset + length, j),
                        offset, offset + length)
  {
    hide Dist, Position, SegOffset, SegEndOffset, MergeFront, MergeEnd, EndGood, RightAfter;
    MergeFrontIs(n, tail, free, segs, offset, length, j);
    assert j > 0 ==> Hi(n, tail, segs[j-1]) < Lo(n, tail, segs[j]);
    WrongMergeEnd(n, tail, free, segs, offset, offset + length, MergeFront(n, tail, segs, offset, j));
  }

  lemma MergeBadWrong(n: nat, tail: nat, free: nat, segs: seq<Seg>, offset: nat, length: nat, j: nat)
    requires MergeCall(n, tail, free, segs, offset, length, j)
    requires !MergeGood(n, tail, segs, offset, offset + length, j)
    ensures var p := Merge(n, tail, segs, offset, offset + length, j);
            && InRing(n, Spliced(segs, p))
            && !RightAfter(n, tail, free, segs, p, offset, offset + length)
  {
    hide Dist, Position, SegOffset, SegEndOffset, MergeFront, MergeEnd, EndGood, RightAfter;
    MergeFrontIs(n, tail, free, segs, offset, length, j);
    SplicedSound(n, tail, free, segs, Merge(n, tail, segs, offset, offset + length, j));
    if !(j == 0 || offset == Lo(n, tail, segs[j]) || offset <= Hi(n, tail, segs[j-1])) {
      MergeFrontWrong(n, tail, free, segs, offset, length, j);
    } else {
      MergeEndWrong(n, tail, free, segs, offset, length, j);
    }
  }

  // ------------------------------------------------------------------------------------------
  // The theorem

  // What the caller can look at before the call. segs[j] is the segment the search stops at.
  predicate AddGood(n: nat, tail: nat, segs: seq<Seg>, offset: nat, length: nat)
    requires tail < n && forall t :: 0 <= t < |segs| ==> segs[t].pos < n
  {
    if segs == [] then
      0 < length
    else
      var j := FindFrom(n, tail, segs, offset, 0);
      var end := offset + length;
      if end < Lo(n, tail, segs[j]) then
        0 < length && (j == 0 || Hi(n, tail, segs[j-1]) < offset)
      else if Hi(n, tail, segs[j]) == n then
        false
      else if Hi(n, tail, segs[j]) < offset then
        0 < length
      else
        Lo(n, tail, segs[j]) < offset || MergeGood(n, tail, segs, offset, end, j)
  }

  lemma AddIs(n: nat, tail: nat, free: nat, segs: seq<Seg>, offset: nat, length: nat, j: nat)
    requires Call(n, tail, free, segs, offset, length) && segs != []
    requires j == FindFrom(n, tail, segs, offset, 0)
    ensures var p := AddSegment(n, tail, segs, offset, length);
            var added := Seg(Position(n, tail, offset), length);
            var end := offset + length;
            if end < Lo(n, tail, segs[j]) then
              p == Splice(j, j, added)
            else if Hi(n, tail, segs[j]) == n || Hi(n, tail, segs[j]) < offset then
              p == Splice(j + 1, j + 1, added)
            else if offset <= Lo(n, tail, segs[j]) then
              p == Merge(n, tail, segs, offset, end, j)
            else
              p == Splice(j, j + 1, Seg(segs[j].pos,
                     if Hi(n, tail, segs[j]) <= end then end - Lo(n, tail, segs[j]) else segs[j].len))
  {
    hide Position, SegOffset, SegEndOffset, MergeFront, MergeEnd, FindFrom;
    OffsetIs(n, tail, segs[j]);
    EndOffsetIs(n, tail, segs[j]);
  }

  lemma NewSegment(n: nat, tail: nat, free: nat, segs: seq<Seg>, offset: nat, length: nat, i: nat)
    requires Call(n, tail, free, segs, offset, length) && i <= |segs|
    requires i == 0 || Lo(n, tail, segs[i-1]) <= offset
    requires i < |segs| ==> offset + length < Lo(n, tail, segs[i])
    ensures var p := Splice(i, i, Seg(Position(n, tail, offset), length));
            && InRing(n, Spliced(segs, p))
            && (RightAfter(n, tail, free, segs, p, offset, offset + length)
                <==> 0 < length && (i == 0 || Hi(n, tail, segs[i-1]) < offset))
  {
    hide Dist, Position;
    PositionIs(n, tail, offset);
    var p := Splice(i, i, Seg(Position(n, tail, offset), length));
    SplicedSound(n, tail, free, segs, p);
    if 0 < length && (i == 0 || Hi(n, tail, segs[i-1]) < offset) {
      SpliceRight(n, tail, free, segs, p, offset, offset + length);
    }
  }

  // ooo_segment_add keeps the list sorted, disjoint and merged, and adds exactly the new range to
  // the bytes it covers, if and only if AddGood holds.
  lemma AddExact(n: nat, tail: nat, free: nat, segs: seq<Seg>, offset: nat, length: nat)
    requires Call(n, tail, free, segs, offset, length)
    ensures var p := AddSegment(n, tail, segs, offset, length);
            && InRing(n, Spliced(segs, p))
            && (RightAfter(n, tail, free, segs, p, offset, offset + length)
                <==> AddGood(n, tail, segs, offset, length))
  {
    hide Dist, Position, SegOffset, SegEndOffset, MergeFront, MergeEnd, Merge, MergeGood, RightAfter;
    if segs == [] {
      NewSegment(n, tail, free, segs, offset, length, 0);
    } else {
      var j := FindFrom(n, tail, segs, offset, 0);
      FindIs(n, tail, free, segs, offset, 0);
      AddIs(n, tail, free, segs, offset, length, j);
      hide FindFrom, AddSegment, SegsOk, InRing;
      var end := offset + length;
      if end < Lo(n, tail, segs[j]) {
        NewSegment(n, tail, free, segs, offset, length, j);
      } else if Hi(n, tail, segs[j]) == n || Hi(n, tail, segs[j]) < offset {
        AfterLast(n, tail, free, segs, offset, length, j);
      } else {
        AddReaches(n, tail, free, segs, offset, length, j);
      }
    }
  }

  // The new range reaches segs[j], or starts inside it.
  lemma AddReaches(n: nat, tail: nat, free: nat, segs: seq<Seg>, offset: nat, length: nat, j: nat)
    requires Call(n, tail, free, segs, offset, length) && segs != []
    requires j == FindFrom(n, tail, segs, offset, 0)
    requires Lo(n, tail, segs[j]) <= offset + length
    requires offset <= Hi(n, tail, segs[j]) != n
    ensures var p := AddSegment(n, tail, segs, offset, length);
            && InRing(n, Spliced(segs, p))
            && (RightAfter(n, tail, free, segs, p, offset, offset + length)
                <==> Lo(n, tail, segs[j]) < offset || MergeGood(n, tail, segs, offset, offset + length, j))
  {
    hide Dist, Position, SegOffset, SegEndOffset, MergeFront, MergeEnd, Merge, MergeGood, RightAfter;
    var end := offset + length;
    var p := AddSegment(n, tail, segs, offset, length);
    FindIs(n, tail, free, segs, offset, 0);
    AddIs(n, tail, free, segs, offset, length, j);
    hide FindFrom, AddSegment;
    if offset <= Lo(n, tail, segs[j]) {
      if MergeGood(n, tail, segs, offset, end, j) {
        MergeGoodFits(n, tail, free, segs, offset, length, j);
        SpliceRight(n, tail, free, segs, p, offset, end);
      } else {
        MergeBadWrong(n, tail, free, segs, offset, length, j);
      }
    } else {
      assert j > 0 ==> Hi(n, tail, segs[j-1]) < Lo(n, tail, segs[j]);
      SpliceRight(n, tail, free, segs, p, offset, end);
    }
  }

  // Appending after the last segment; one that ends a whole lap past the tail looks as if it ended
  // at the tail itself, and the new segment lands behind it out of order.
  lemma AfterLast(n: nat, tail: nat, free: nat, segs: seq<Seg>, offset: nat, length: nat, j: nat)
    requires Call(n, tail, free, segs, offset, length) && j + 1 == |segs|
    requires Hi(n, tail, segs[j]) == n || Hi(n, tail, segs[j]) < offset
    ensures var p := Splice(j + 1, j + 1, Seg(Position(n, tail, offset), length));
            && InRing(n, Spliced(segs, p))
            && (RightAfter(n, tail, free, segs, p, offset, offset + length)
                <==> 0 < length && Hi(n, tail, segs[j]) != n)
  {
    hide Dist, Position;
    if Hi(n, tail, segs[j]) != n {
      NewSegment(n, tail, free, segs, offset, length, j + 1);
    } else {
      PositionIs(n, tail, offset);
      SplicedSound(n, tail, free, segs, Splice(j + 1, j + 1, Seg(Position(n, tail, offset), length)));
    }
  }

  // The segment recorded as newest holds the new range.
  lemma NewestHolds(n: nat, tail: nat, free: nat, segs: seq<Seg>, offset: nat, length: nat)
    requires Call(n, tail, free, segs, offset, length) && AddGood(n, tail, segs, offset, length)
    ensures var p := AddSegment(n, tail, segs, offset, length);
            && p.s.pos < n && Lo(n, tail, p.s) <= offset
            && offset + length <= Hi(n, tail, p.s) <= free
            && Spliced(segs, p)[p.from] == p.s
  {
    hide Dist, Position, SegOffset, SegEndOffset, MergeFront, MergeEnd, Merge, MergeGood;
    PositionIs(n, tail, offset);
    if segs != [] {
      var j := FindFrom(n, tail, segs, offset, 0);
      FindIs(n, tail, free, segs, offset, 0);
      AddIs(n, tail, free, segs, offset, length, j);
      if offset <= Lo(n, tail, segs[j]) <= offset + length && Hi(n, tail, segs[j]) != n {
        MergeGoodFits(n, tail, free, segs, offset, length, j);
      }
    }
  }
}
