// How many buffers and packets allocation, copying and cloning hand out, by what is free and what
// physmem is going to answer.
module BufferCounts {
  import opened Base
  import opened BufferSpec
  import opened BufferAlloc
  import opened BufferCopy
  import opened BufferAppend
  import opened BufferRefill
  import opened BufferRuns

  // ------------------------------------------------------------------------------------------
  // Allocating

  // Buffers that are free are handed out from the end of the list, and physmem is not asked.
  lemma AllocFree(m: Mem, n: nat)
    requires 0 < n <= |m.free|
    ensures var (g, got) := Alloc(m, n);
            && got.Some? && |got.value| == n && g.free + got.value == m.free
            && g == m.(free := g.free, known := g.known)
  {
    hide Marked;
    NoRefill(m, n);
  }

  // When too few are free, exactly as many as physmem's answers make up are added first; then the last n
  // are handed out, or none when nothing was added.
  lemma AllocRefilled(m: Mem, n: nat, least: nat, total: nat, j: nat)
    requires |m.free| < n && least % 16 == 0 && n - |m.free| <= least < n - |m.free| + 16
    requires total == (if least < m.minEach then m.minEach else least) && Answers(m, total, j)
    ensures var (g, got) := Alloc(m, n);
            && j <= |m.supply|
            && match got
               case None => 0 < 16 * j < n - |m.free|
               case Some(ds) => (if j == 0 then ds == [] else |ds| == n)
                                && g.free + ds == m.free + Joined(m.supply[..j])
                                && g.supply == if total <= 16 * j then m.supply[j..] else Rest(m.supply[j..])
  {
    hide Answers, FillFreeList, Marked, Joined;
    RefillExact(m, n, least, total, j);
  }

  // A call comes back empty-handed if and only if too few buffers are free and physmem's next answer is
  // no full chunk of new ones.
  lemma AllocEmpty(m: Mem, n: nat)
    requires 0 < n
    ensures Alloc(m, n).1 == Some([]) <==> |m.free| < n && !Fresh(m, 0)
    ensures Alloc(m, n).1.Some? && Alloc(m, n).1 != Some([]) ==> |Alloc(m, n).1.value| == n
  {
    hide Alloc, Answers, FreshOf, Joined;
    if n <= |m.free| {
      AllocFree(m, n);
    } else {
      var least := LeastExists(n - |m.free|);
      var total := if least < m.minEach then m.minEach else least;
      var j := AnswersExist(m, total, 0);
      AnswersFirst(m, total, j);
      AllocRefilled(m, n, least, total, j);
    }
  }

  // A buffer handed out holds no data, starts at the front of its data area, and has no flag set.
  lemma AllocClean(m: Mem, ps: Packets, n: nat, d: nat)
    requires Inv(m, ps) && Alloc(m, n).1.Some? && d in Alloc(m, n).1.value
    ensures var g := Alloc(m, n).0;
            d in g.bufs && var x := g.bufs[d];
            && x.currentData == x.currentLength == x.totalRest == x.nAddRefs == 0
            && !x.nextPresent && !x.totalLengthValid && !x.extHdrValid
  {
    hide Inv, Alloc, HandedOut;
    AllocKeeps(m, ps, n);
    HandedOutFacts(m, ps, n, Alloc(m, n).0, Alloc(m, n).1.value);
  }

  // ------------------------------------------------------------------------------------------
  // Copying

  // Buffer by buffer a copy starts its data where the source does, is as long, and says the same of what
  // follows; its first buffer caches the same length.
  lemma CopyAgrees(m: Mem, ps: Packets, h: nat, ds: seq<nat>, i: nat)
    requires CopyCall(m, ps, h, ds) && i < |ds|
    ensures h in ps && |ds| == |ps[h]| && ps[h][i] in m.bufs && ds[i] in m.bufs
    ensures var x, y := m.bufs[ps[h][i]], At(Copied(m, ps[h], ds).bufs, ds[i]);
            && y.currentData == x.currentData && y.currentLength == x.currentLength
            && y.nextPresent == x.nextPresent && y.totalLengthValid == x.totalLengthValid && !y.extHdrValid
            && y.totalRest == (if i == 0 then x.totalRest else m.bufs[ds[i]].totalRest)
            && (i + 1 < |ds| ==> y.nextBuffer == ds[i + 1])
  {
    hide CopyCall, Copied, AllOk, NoRepeats, FreeClean, KnownOk, PacketsOk, IsChain, CopySpan;
    CopyParts(m, ps, h, ds);
    CopiedAt(m, ps, h, ds, i);
  }

  // A copy is made if and only if its buffers are free or physmem's next answer is good, unless the ASSERT
  // of allocation fails.
  lemma CopyMadeExact(m: Mem, ps: Packets, c: seq<nat>)
    requires c != []
    ensures var o := CopyStep(m, ps, c);
            && (o.ok <==> Alloc(m, |c|).1.Some?)
            && |o.heads| == (if o.ok && (|c| <= |m.free| || Fresh(m, 0)) then 1 else 0)
            && (|o.heads| == 1 ==> o.heads[0] in o.ps && |o.ps[o.heads[0]]| == |c|)
  {
    hide Alloc, Fresh, Copied;
    AllocEmpty(m, |c|);
  }

  lemma CopyFromFree(m: Mem, ps: Packets, c: seq<nat>)
    requires 0 < |c| <= |m.free|
    ensures var o := CopyStep(m, ps, c);
            o.ok && |o.heads| == 1 && |o.m.free| == |m.free| - |c| && o.m.supply == m.supply
  {
    hide Alloc, Copied;
    AllocFree(m, |c|);
  }

  // k copies are made of a packet if the free list holds the buffers; if fewer are, the one after the last
  // found too few free and physmem's answer bad.
  lemma {:induction false} CopiesCounted(m: Mem, ps: Packets, c: seq<nat>, k: nat)
    requires c != []
    ensures var o := CopiesStep(m, ps, c, k);
            && |o.heads| <= k
            && (k * |c| <= |m.free| ==> o.ok && |o.heads| == k)
            && (o.ok && |o.heads| < k ==>
                  var g := CopiesStep(m, ps, c, |o.heads|).m; |g.free| < |c| && !Fresh(g, 0))
    decreases k
  {
    hide CopyStep, CopiesStep, Fresh;
    CopiesUnfolds(m, ps, c, k);
    if k > 0 {
      var one := CopyStep(m, ps, c);
      CopyMadeExact(m, ps, c);
      if |c| <= |m.free| { CopyFromFree(m, ps, c); }
      if k * |c| <= |m.free| { Enough(k, |c|, |m.free|); }
      if one.heads != [] {
        CopiesCounted(one.m, one.ps, c, k - 1);
        CopiesUnfolds(m, ps, c, 1 + |CopiesStep(one.m, one.ps, c, k - 1).heads|);
      } else {
        CopiesUnfolds(m, ps, c, 0);
      }
    }
  }

  lemma Enough(k: nat, each: nat, free: int)
    requires 0 < k && k * each <= free
    ensures each <= free && (k - 1) * each <= free - each
  {
  }

  lemma CopiesUnfolds(m: Mem, ps: Packets, c: seq<nat>, k: nat)
    ensures CopiesStep(m, ps, c, k)
            == if k == 0 then Outcome(m, ps, [], 0, true)
               else var one := CopyStep(m, ps, c);
                    if one.heads == [] then one
                    else var rest := CopiesStep(one.m, one.ps, c, k - 1); rest.(heads := one.heads + rest.heads)
  {
    hide CopyStep;
  }

  // ------------------------------------------------------------------------------------------
  // When memory runs dry

  // physmem has `a` more full chunks of new buffers, and then nothing.
  ghost predicate Stocked(m: Mem, a: nat) {
    |m.supply| == a && forall i :: 0 <= i < a ==> Fresh(m, i)
  }

  lemma StockedNext(m: Mem, a: nat)
    requires 0 < a && Stocked(m, a)
    ensures FreshChunk(m, CHUNK, m.supply[0]) && Stocked(Grown(m, m.supply[0]), a - 1)
  {
    hide Fresh, FreshChunk;
    FreshFirst(m);
    forall i | 0 <= i < a - 1 ensures Fresh(Grown(m, m.supply[0]), i) { FreshNext(m, i); }
  }

  lemma {:induction false} FillStocked(m: Mem, total: nat, a: nat) returns (left: nat)
    requires Stocked(m, a) && total % CHUNK == 0
    ensures var (g, k) := FillFrom(m, total);
            && left <= a && k == Min(total, CHUNK * a) == CHUNK * (a - left) && Stocked(g, left)
            && |g.free| == |m.free| + k && g.minEach == m.minEach
    decreases a
  {
    hide Stocked, FreshChunk, Grown;
    if total == 0 || a == 0 {
      left := a;
      NothingLeft(m, total, a);
    } else {
      StockedNext(m, a);
      SomeLeft(m, a);
      FullChunk(m);
      left := FillStocked(Grown(m, m.supply[0]), total - CHUNK, a - 1);
    }
  }

  lemma NothingLeft(m: Mem, total: nat, a: nat)
    requires Stocked(m, a) && (total == 0 || a == 0)
    ensures FillFrom(m, total) == (m, 0)
  {
  }

  lemma SomeLeft(m: Mem, a: nat)
    requires Stocked(m, a) && 0 < a
    ensures m.supply != []
  {
  }

  lemma FullChunk(m: Mem)
    requires m.supply != [] && FreshChunk(m, CHUNK, m.supply[0])
    ensures var g := Grown(m, m.supply[0]); |g.free| == |m.free| + CHUNK && g.minEach == m.minEach
  {
  }

  // Allocation succeeds as long as free buffers and chunks to come make up the number.
  lemma AllocStocked(m: Mem, n: nat, a: nat) returns (left: nat)
    requires 0 < n && Stocked(m, a) && m.minEach % CHUNK == 0
    ensures var (g, got) := Alloc(m, n);
            if n <= |m.free| + CHUNK * a then
              got.Some? && |got.value| == n && Stocked(g, left) && g.minEach == m.minEach
              && |g.free| + CHUNK * left == |m.free| + CHUNK * a - n
            else got == None || got == Some([])
  {
    hide Fresh, FillFrom, Taken;
    left := a;
    if n > |m.free| {
      var total := Wanted(m, n);
      assert total % CHUNK == 0;
      left := FillStocked(m, total, a);
    }
    if n <= |FillFreeList(m, n).0.free| { TakenStocked(FillFreeList(m, n).0, n, left); }
  }

  lemma TakenStocked(m: Mem, n: nat, a: nat)
    requires n <= |m.free| && Stocked(m, a)
    ensures Stocked(Taken(m, n), a) && |Taken(m, n).free| == |m.free| - n && Taken(m, n).minEach == m.minEach
  {
    hide Marked;
    forall i | 0 <= i < a ensures Fresh(Taken(m, n), i) { assert Fresh(m, i); }
  }

  lemma CopiedStocked(m: Mem, c: seq<nat>, ds: seq<nat>, a: nat)
    requires |ds| == |c| && Stocked(m, a)
    ensures Stocked(Copied(m, c, ds), a)
  {
    hide Copied;
    var g := Copied(m, c, ds);
    forall i | 0 <= i < a ensures Fresh(g, i) {
      assert Fresh(m, i);
      assert forall x :: x in g.bufs.Keys <==> x in m.bufs.Keys;
    }
  }

  // With refills of whole chunks, as the minimum of 256 makes them, copies are made until free buffers and
  // chunks to come together are fewer than the next one needs, and not before.
  lemma {:induction false} CopiesUntilDry(m: Mem, ps: Packets, c: seq<nat>, k: nat, a: nat)
    requires c != [] && Stocked(m, a) && m.minEach % CHUNK == 0
    ensures var made, there := |CopiesStep(m, ps, c, k).heads|, |m.free| + CHUNK * a;
            made <= k && made * |c| <= there && (made < k ==> there < (made + 1) * |c|)
    decreases k
  {
    hide CopyStep, CopiesStep, Stocked, Alloc;
    CopiesUnfolds(m, ps, c, k);
    if k > 0 {
      var one := CopyStep(m, ps, c);
      var left := AllocStocked(m, |c|, a);
      CopyStocked(m, ps, c, a, left);
      if one.heads != [] {
        CopiesUntilDry(one.m, one.ps, c, k - 1, left);
        Times(|CopiesStep(one.m, one.ps, c, k - 1).heads|, |c|);
      }
    }
  }

  lemma Times(k: nat, each: nat)
    ensures (k + 1) * each == k * each + each && (k + 2) * each == (k + 1) * each + each
  {
  }

  lemma CopyStocked(m: Mem, ps: Packets, c: seq<nat>, a: nat, left: nat)
    requires c != []
    requires var (g, got) := Alloc(m, |c|);
             if |c| <= |m.free| + CHUNK * a then
               got.Some? && |got.value| == |c| && Stocked(g, left) && g.minEach == m.minEach
               && |g.free| + CHUNK * left == |m.free| + CHUNK * a - |c|
             else got == None || got == Some([])
    ensures var o := CopyStep(m, ps, c);
            if |c| <= |m.free| + CHUNK * a then
              |o.heads| == 1 && Stocked(o.m, left) && o.m.minEach == m.minEach
              && |o.m.free| + CHUNK * left == |m.free| + CHUNK * a - |c|
            else o.heads == []
  {
    hide Alloc, Stocked, Copied;
    var (g, got) := Alloc(m, |c|);
    if |c| <= |m.free| + CHUNK * a { CopiedStocked(g, c, got.value, left); }
  }

  // ------------------------------------------------------------------------------------------
  // Cloning

  // A packet whose first buffer has no more than 128 bytes behind the header is copied. The source is the
  // first clone; all n come back if the free list holds the buffers for n - 1 copies, and fewer only if
  // some copy found too few free and physmem's answer bad.
  lemma CloneCopiesCounted(m: Mem, ps: Packets, src: nat, n: nat, headEnd: nat)
    requires Inv(m, ps) && src in ps && 0 < n && m.bufs[src].currentLength <= headEnd + 128
    requires CloneStep(m, ps, src, n, headEnd).ok
    ensures var c, o := ps[src], CloneStep(m, ps, src, n, headEnd);
            && 1 <= |o.heads| <= n && o.heads[0] == src && ps[src] != []
            && ((n - 1) * |c| <= |m.free| ==> |o.heads| == n)
            && (|o.heads| < n ==>
                  var g := CopiesStep(m, ps, c, |o.heads| - 1).m; |g.free| < |c| && !Fresh(g, 0))
  {
    hide Inv, CopiesStep, Fresh, Alloc, Cloned;
    HeadIn(m, ps, src);
    CopiesCounted(m, ps, ps[src], n - 1);
  }

  // The header's bytes and no more, where the source has them, and the source's word on cached lengths.
  predicate HeadRight(s: Buffer, x: Buffer, headEnd: nat) {
    && x.currentLength == headEnd && x.currentData == s.currentData && x.nextPresent
    && x.totalLengthValid == s.totalLengthValid && !x.extHdrValid
  }

  // The source begins behind the header, and counts the clones.
  predicate SourceRight(s: Buffer, x: Buffer, headEnd: nat, n: nat) {
    && headEnd <= s.currentLength && 0 < n
    && x == s.(currentData := s.currentData + headEnd, currentLength := s.currentLength - headEnd, nAddRefs := n - 1)
  }

  // Any other packet is shared: all n clones come back if n buffers are free or physmem's next answer is
  // good, and the source alone otherwise. Each clone is a buffer of exactly the header's bytes in front of
  // the source's chain.
  lemma CloneSharesCounted(m: Mem, ps: Packets, src: nat, n: nat, headEnd: nat)
    requires Inv(m, ps) && src in ps && 0 < n && headEnd + 128 < m.bufs[src].currentLength
    requires CloneStep(m, ps, src, n, headEnd).ok
    ensures var o := CloneStep(m, ps, src, n, headEnd);
            if n <= |m.free| || Fresh(m, 0) then
              && |o.heads| == n && SourceRight(m.bufs[src], At(o.m.bufs, src), headEnd, n)
              && forall h :: h in o.heads ==> h !in ps && h in o.ps && o.ps[h] == [h] + ps[src]
                                              && HeadRight(m.bufs[src], At(o.m.bufs, h), headEnd)
            else o.heads == [src] && o.ps == ps
  {
    hide Inv, Fresh, Alloc, Cloned, HandedOut, HeadRight, SourceRight, NoRepeats, Initialized;
    HeadIn(m, ps, src);
    AllocEmpty(m, n);
    var (g, got) := Alloc(m, n);
    if got.Some? && got.value != [] {
      AllocBefore(m, ps, src, n);
      HandedOutFacts(m, ps, n, g, got.value);
      ClonedSource(g, ps[src], got.value, headEnd);
      forall h | h in got.value
        ensures HeadRight(m.bufs[src], At(Cloned(g, ps[src], got.value, headEnd).bufs, h), headEnd)
      {
        ClonedHead(g, ps[src], got.value, headEnd, h);
      }
    }
  }

  lemma ClonedSource(g: Mem, c: seq<nat>, ds: seq<nat>, headEnd: nat)
    requires c != [] && ds != [] && c[0] in g.bufs && c[0] !in ds && headEnd <= g.bufs[c[0]].currentLength
    ensures SourceRight(g.bufs[c[0]], At(Cloned(g, c, ds, headEnd).bufs, c[0]), headEnd, |ds|)
  {
    hide Cloned;
    assert c[0] in c && c[0] in Cloned(g, c, ds, headEnd).bufs.Keys;
  }

  lemma ClonedHead(g: Mem, c: seq<nat>, ds: seq<nat>, headEnd: nat, h: nat)
    requires c != [] && ds != [] && c[0] in g.bufs && h in ds && h in g.bufs
    ensures HeadRight(g.bufs[c[0]], At(Cloned(g, c, ds, headEnd).bufs, h), headEnd)
  {
    hide Cloned, CopySpan;
    assert h in Cloned(g, c, ds, headEnd).bufs.Keys;
  }

  // ------------------------------------------------------------------------------------------
  // Freeing

  // b comes before d in c.
  ghost predicate Before(c: seq<nat>, b: nat, d: nat) {
    exists i, j :: 0 <= i < j < |c| && c[i] == b && c[j] == d
  }

  lemma BeforeCons(x: nat, c: seq<nat>, b: nat, d: nat)
    requires Before(c, b, d) || (b == x && d in c)
    ensures Before([x] + c, b, d)
  {
    var e := [x] + c;
    if Before(c, b, d) {
      var i, j :| 0 <= i < j < |c| && c[i] == b && c[j] == d;
      assert e[i + 1] == b && e[j + 1] == d;
    } else {
      var j :| 0 <= j < |c| && c[j] == d;
      assert e[0] == b && e[j + 1] == d;
    }
  }

  lemma {:induction false} UnsharedOrder(bufs: map<nat, Buffer>, c: seq<nat>, i: nat, j: nat)
    requires i < j < |Unshared(bufs, c)|
    ensures Before(c, Unshared(bufs, c)[i], Unshared(bufs, c)[j])
  {
    hide Before;
    var kept := if At(bufs, c[0]).nAddRefs == 0 then 1 else 0;
    var rest := Unshared(bufs, c[1..]);
    assert c == [c[0]] + c[1..];
    if i >= kept {
      UnsharedOrder(bufs, c[1..], i - kept, j - kept);
    } else {
      assert rest[j - 1] in rest;
    }
    BeforeCons(c[0], c[1..], Unshared(bufs, c)[i], Unshared(bufs, c)[j]);
  }

  // The buffers of a packet that nobody else uses go on the end of the free list, in the packet's order.
  lemma FreedInOrder(m: Mem, c: seq<nat>)
    ensures var g := FreePacket(m, c);
            && m.free <= g.free
            && (forall b :: b in g.free[|m.free|..] <==> b in c && At(m.bufs, b).nAddRefs == 0)
            && forall i, j :: |m.free| <= i < j < |g.free| ==> Before(c, g.free[i], g.free[j])
  {
    hide Before;
    var g := FreePacket(m, c);
    var k := |m.free|;
    assert g.free[k..] == Unshared(m.bufs, c);
    forall i, j | k <= i < j < |g.free| ensures Before(c, g.free[i], g.free[j]) {
      UnsharedOrder(m.bufs, c, i - k, j - k);
    }
  }

  // ------------------------------------------------------------------------------------------
  // Attaching, and room for data

  // The head says of cached lengths what the tail's first buffer says, and counts its bytes among the rest.
  lemma AttachCaches(m: Mem, head: nat, c: seq<nat>)
    requires head in m.bufs && head !in c && c != [] && c[0] in m.bufs
    ensures var x, t := At(Attached(m, head, c).bufs, head), m.bufs[c[0]];
            && x.totalLengthValid == t.totalLengthValid && x.totalRest == t.currentLength + t.totalRest
            && x.nextPresent && x.nextBuffer == c[0] && !x.extHdrValid
            && x.currentLength == m.bufs[head].currentLength && x.currentData == m.bufs[head].currentData
  {
    hide Attached;
    assert head in Attached(m, head, c).bufs.Keys;
  }

  // The 16-bit difference is the number of bytes between a buffer's data and the end of its memory.
  lemma RoomExact(m: Mem, b: Buffer)
    requires Sized(m) && BufferOk(m, b)
    ensures Room(m, b) == |b.mem| - (m.pre + b.currentData + b.currentLength)
  {
  }
}
