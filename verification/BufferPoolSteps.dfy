// Steps of the in-place buffer functions, for their loops in BufferPool.dfy.
module BufferPoolSteps {
  import opened Base
  import opened BufferSpec
  import opened BufferFree
  import opened BufferAlloc
  import opened BufferCopy
  import opened BufferClone
  import opened BufferAppend
  import opened BufferExtend
  import opened BufferRuns

  function Without(ps: Packets, hs: seq<nat>): Packets {
    ps - Elems(hs)
  }

  // The packets hs[..i] have been freed.
  ghost predicate Freed(was: Mem, ps: Packets, hs: seq<nat>, i: nat, m: Mem) {
    i <= |hs| && var rs := Without(ps, hs[..i]);
    Inv(m, rs) && FreeAll(was, ps, hs) == FreeAll(m, rs, hs[i..])
  }

  lemma FreedNone(m: Mem, ps: Packets, hs: seq<nat>)
    requires Inv(m, ps)
    ensures Freed(m, ps, hs, 0, m)
  {
    assert ps - Elems(hs[..0]) == ps && hs[0..] == hs;
  }

  lemma FreedChain(was: Mem, ps: Packets, hs: seq<nat>, i: nat, m: Mem)
    requires Freed(was, ps, hs, i, m) && i < |hs| && NoRepeats(hs) && forall h :: h in hs ==> h in ps
    ensures hs[i] in ps && IsChain(m.bufs, ps[hs[i]]) && ps[hs[i]][0] == hs[i]
  {
    PacketIn(m, Without(ps, hs[..i]), hs[i]);
  }

  lemma WithoutOne(ps: Packets, hs: seq<nat>, i: nat)
    requires i < |hs| && NoRepeats(hs) && hs[i] in ps
    ensures var rs := Without(ps, hs[..i]);
            hs[i] in rs && rs[hs[i]] == ps[hs[i]] && Without(ps, hs[..i + 1]) == rs - {hs[i]}
  {
    assert hs[..i + 1] == hs[..i] + [hs[i]];
    assert Elems(hs[..i + 1]) == Elems(hs[..i]) + {hs[i]};
  }

  lemma FreedOne(was: Mem, ps: Packets, hs: seq<nat>, i: nat, m: Mem)
    requires Freed(was, ps, hs, i, m) && i < |hs| && NoRepeats(hs) && forall h :: h in hs ==> h in ps
    ensures Freed(was, ps, hs, i + 1, FreePacket(m, ps[hs[i]]))
  {
    WithoutOne(ps, hs, i);
    hide Inv, FreePacket, NoRepeats, Without;
    FreeKeeps(m, Without(ps, hs[..i]), hs[i]);
    assert hs[i..][1..] == hs[i + 1..];
  }

  lemma FreedEnd(was: Mem, ps: Packets, hs: seq<nat>, m: Mem)
    requires Freed(was, ps, hs, |hs|, m)
    ensures m == FreeAll(was, ps, hs).0
  {
  }

  // The first i buffers of a chunk are on the free list.
  ghost predicate GrownPart(m: Mem, chunk: seq<nat>, i: nat, bufs: map<nat, Buffer>, free: seq<nat>,
                            known: map<nat, bool>)
  {
    i <= |chunk| && var g := Grown(m, chunk[..i]); bufs == g.bufs && free == g.free && known == g.known
  }

  lemma GrownNone(m: Mem, chunk: seq<nat>)
    ensures GrownPart(m, chunk, 0, m.bufs, m.free, m.known)
  {
    assert chunk[..0] == [] && Elems([]) == {};
  }

  lemma GrownMore(m: Mem, chunk: seq<nat>, i: nat, bufs: map<nat, Buffer>, free: seq<nat>, known: map<nat, bool>)
    requires FreshChunk(m, |chunk|, chunk) && i < |chunk| && GrownPart(m, chunk, i, bufs, free, known)
    ensures GrownPart(m, chunk, i + 1, bufs[chunk[i] := NewBuffer(m)], free + [chunk[i]], known[chunk[i] := false])
  {
    hide FreshChunk, Grown, NewBuffer;
    ChunkFresh(m, chunk, i);
    GrownSnoc(m, chunk[..i], chunk[i]);
    assert chunk[..i + 1] == chunk[..i] + [chunk[i]];
  }

  lemma GrownAll(m: Mem, chunk: seq<nat>, bufs: map<nat, Buffer>, free: seq<nat>, known: map<nat, bool>)
    requires GrownPart(m, chunk, |chunk|, bufs, free, known)
    ensures var g := Grown(m, chunk); bufs == g.bufs && free == g.free && known == g.known
  {
    assert chunk[..|chunk|] == chunk;
  }

  // The first k buffers of c have been read.
  ghost predicate ContentsSoFar(m: Mem, c: seq<nat>, k: nat, contents: seq<u8>) {
    k <= |c| && contents + Bytes(m, c[k..]) == Bytes(m, c)
  }

  lemma ContentsStart(m: Mem, c: seq<nat>)
    ensures ContentsSoFar(m, c, 0, [])
  {
    assert c[0..] == c && [] + Bytes(m, c) == Bytes(m, c);
  }

  lemma ContentsNext(m: Mem, c: seq<nat>, k: nat, contents: seq<u8>)
    requires IsChain(m.bufs, c) && AllOk(m) && k < |c| && ContentsSoFar(m, c, k, contents)
    ensures c[k] in m.bufs && LinkAt(m.bufs, c, k)
    ensures var x := m.bufs[c[k]];
            var from := m.pre + x.currentData;
            0 <= from && from + x.currentLength <= |x.mem|
            && ContentsSoFar(m, c, k + 1, contents + x.mem[from..from + x.currentLength])
  {
    assert LinkAt(m.bufs, c, k) && BufferOk(m, m.bufs[c[k]]);
    hide AllOk, IsChain;
    assert c[k..][1..] == c[k + 1..] && c[k..][0] == c[k];
    Associative(contents, Data(m, m.bufs[c[k]]), Bytes(m, c[k + 1..]));
  }

  lemma ContentsEnd(m: Mem, c: seq<nat>, contents: seq<u8>)
    requires ContentsSoFar(m, c, |c|, contents)
    ensures contents == Bytes(m, c)
  {
    assert c[|c|..] == [] && contents + [] == contents;
  }

  lemma GrownFields(m: Mem, chunk: seq<nat>)
    ensures var g := Grown(m, chunk);
            g == m.(bufs := g.bufs, free := g.free, known := g.known, nAlloc := m.nAlloc + |chunk|,
                    supply := Rest(m.supply))
  {
  }

  lemma ChunkFresh(m: Mem, chunk: seq<nat>, i: nat)
    requires FreshChunk(m, |chunk|, chunk) && i < |chunk|
    ensures chunk[i] !in m.bufs
  {
  }

  lemma NewAlike(m: Mem, g: Mem)
    requires m.pre == g.pre && m.dataBytes == g.dataBytes
    ensures NewBuffer(m) == NewBuffer(g)
  {
  }

  lemma ElemsSnoc(s: seq<nat>, x: nat)
    ensures Elems(s + [x]) == Elems(s) + {x}
    ensures forall b :: b in s + [x] <==> b in s || b == x
  {
  }

  lemma GrownSnoc(m: Mem, s: seq<nat>, x: nat)
    requires x !in m.bufs
    ensures var g, h := Grown(m, s), Grown(m, s + [x]);
            && h.bufs == g.bufs[x := NewBuffer(m)] && h.free == g.free + [x] && h.known == g.known[x := false]
  {
    hide Elems, NewBuffer, Marked;
    ElemsSnoc(s, x);
    MarkedSnoc(m.known, s, x, false);
  }

  lemma FillNone(m: Mem)
    ensures FillFrom(m, 0) == (m, 0)
  {
  }

  // fill_free_list's loop takes in one chunk, or stops.
  lemma FillOne(m: Mem, remaining: nat)
    requires 0 < remaining
    ensures var k := Min(remaining, CHUNK);
            FillFrom(m, remaining)
            == if m.supply == [] || !FreshChunk(m, k, m.supply[0]) then (m.(supply := Rest(m.supply)), 0)
               else var rest := FillFrom(Grown(m, m.supply[0]), remaining - k); (rest.0, k + rest.1)
  {
    hide FreshChunk, Grown;
  }

  lemma GrownSupply(m: Mem, b: Mem, chunk: seq<nat>)
    requires b == m.(supply := Rest(m.supply))
    ensures Grown(b, chunk).(supply := Rest(m.supply)) == Grown(m, chunk)
  {
  }

  // The first i buffers of c have been freed.
  ghost predicate Walked(m: Mem, c: seq<nat>, i: nat, bufs: map<nat, Buffer>, free: seq<nat>, known: map<nat, bool>) {
    i <= |c| && var f := FreePacket(m, c[..i]); bufs == f.bufs && free == f.free && known == f.known
  }

  lemma WalkedNone(m: Mem, c: seq<nat>)
    ensures Walked(m, c, 0, m.bufs, m.free, m.known)
  {
    assert c[..0] == [] && Elems([]) == {};
  }

  lemma WalkedAll(m: Mem, c: seq<nat>, bufs: map<nat, Buffer>, free: seq<nat>, known: map<nat, bool>)
    requires Walked(m, c, |c|, bufs, free, known)
    ensures FreePacket(m, c) == m.(bufs := bufs, free := free, known := known)
  {
    assert c[..|c|] == c;
  }

  lemma Unwalked(m: Mem, c: seq<nat>, i: nat, bufs: map<nat, Buffer>, free: seq<nat>, known: map<nat, bool>)
    requires Walked(m, c, i, bufs, free, known) && NoRepeats(c) && i < |c| && c[i] in m.bufs
    ensures c[i] in bufs && bufs[c[i]] == m.bufs[c[i]]
  {
    assert c[i] !in c[..i];
  }

  lemma {:induction false} UnsharedSnoc(bufs: map<nat, Buffer>, c: seq<nat>, b: nat)
    ensures Unshared(bufs, c + [b]) == Unshared(bufs, c) + if At(bufs, b).nAddRefs == 0 then [b] else []
  {
    if c == [] {
      assert c + [b] == [b] && [b][1..] == [];
    } else {
      UnsharedSnoc(bufs, c[1..], b);
      assert (c + [b])[1..] == c[1..] + [b];
    }
  }

  // What freeing buffer i of c after those before it does.
  lemma {:induction false} WalkOne(m: Mem, c: seq<nat>, i: nat)
    requires i < |c| && NoRepeats(c) && c[i] in m.bufs
    ensures var f, g, b := FreePacket(m, c[..i]), FreePacket(m, c[..i + 1]), c[i];
            && b in f.bufs && f.bufs[b] == m.bufs[b]
            && g.bufs == f.bufs[b := Dropped(m.bufs[b])]
            && g.free == f.free + (if m.bufs[b].nAddRefs == 0 then [b] else [])
            && g.known == (if m.bufs[b].nAddRefs == 0 then f.known[b := false] else f.known)
  {
    assert c[..i + 1] == c[..i] + [c[i]] && c[i] !in c[..i];
    hide FreePacket, Unshared, NoRepeats, Dropped;
    WalkBufs(m, c[..i], c[i]);
    WalkList(m, c[..i], c[i]);
  }

  lemma WalkBufs(m: Mem, c: seq<nat>, b: nat)
    requires b !in c && b in m.bufs
    ensures var f, g := FreePacket(m, c), FreePacket(m, c + [b]);
            b in f.bufs && f.bufs[b] == m.bufs[b] && g.bufs == f.bufs[b := Dropped(m.bufs[b])]
  {
    hide Unshared, Dropped, Marked;
  }

  lemma WalkList(m: Mem, c: seq<nat>, b: nat)
    requires b in m.bufs
    ensures var f, g := FreePacket(m, c), FreePacket(m, c + [b]);
            && g.free == f.free + (if m.bufs[b].nAddRefs == 0 then [b] else [])
            && g.known == (if m.bufs[b].nAddRefs == 0 then f.known[b := false] else f.known)
  {
    UnsharedSnoc(m.bufs, c, b);
    MarkedSnoc(m.known, Unshared(m.bufs, c), b, false);
    hide Unshared, Dropped, Marked;
  }

  lemma MarkedSnoc(known: map<nat, bool>, bs: seq<nat>, b: nat, state: bool)
    ensures Marked(known, bs + [b], state) == Marked(known, bs, state)[b := state]
  {
    assert Elems(bs + [b]) == Elems(bs) + {b};
  }

  // ------------------------------------------------------------------------------------------

  // What vlib_buffer_copy has once it has its buffers.
  ghost predicate Copying(g: Mem, c: seq<nat>, ds: seq<nat>) {
    && IsChain(g.bufs, c) && |ds| == |c| && NoRepeats(ds)
    && (forall i :: 0 <= i < |ds| ==> ds[i] in g.bufs && ds[i] !in c)
  }

  lemma CopyingParts(g: Mem, c: seq<nat>, ds: seq<nat>)
    requires Copying(g, c, ds)
    ensures |ds| == |c| && ds != [] && ds[0] in g.bufs && c[0] in g.bufs && At(g.bufs, c[0]) == g.bufs[c[0]]
  {
  }

  lemma CopyReady(m: Mem, ps: Packets, h: nat)
    requires Inv(m, ps) && h in ps && Alloc(m, |ps[h]|).1.Some?
    requires |Alloc(m, |ps[h]|).1.value| >= |ps[h]|
    ensures var (g, got) := Alloc(m, |ps[h]|);
            Copying(g, ps[h], got.value) && h == ps[h][0]
  {
    var (g, got) := Alloc(m, |ps[h]|);
    hide Inv, Alloc, HandedOut, Bytes, Singles, Users, NoRepeats, IsChain;
    AllocBefore(m, ps, h, |ps[h]|);
    CopyCallIs(m, ps, h, g, got.value);
    CopyParts(g, ps, h, got.value);
  }

  // The first i segments have been copied.
  ghost predicate CopiedPart(g: Mem, c: seq<nat>, ds: seq<nat>, i: nat, bufs: map<nat, Buffer>) {
    i <= |c| == |ds| && bufs == Copied(g, c[..i], ds[..i]).bufs
  }

  lemma CopiedAll(g: Mem, c: seq<nat>, ds: seq<nat>, bufs: map<nat, Buffer>)
    requires CopiedPart(g, c, ds, |ds|, bufs)
    ensures g.(bufs := bufs) == Copied(g, c, ds)
  {
    assert c[..|ds|] == c && ds[..|ds|] == ds;
  }

  lemma CopiedFirst(g: Mem, c: seq<nat>, ds: seq<nat>)
    requires Copying(g, c, ds)
    ensures CopiedPart(g, c, ds, 1, g.bufs[ds[0] := CopiedSegment(g.bufs[ds[0]], At(g.bufs, c[0]), g.pre, true, None)])
  {
  }

  // The position of a destination among the first i.
  lemma CopiedPrefix(g: Mem, c: seq<nat>, ds: seq<nat>, i: nat, j: nat)
    requires Copying(g, c, ds) && j < i <= |c|
    ensures CopiedBuffer(g, c[..i], ds[..i], ds[j])
            == CopiedSegment(g.bufs[ds[j]], g.bufs[c[j]], g.pre, j == 0, if j + 1 < i then Some(ds[j + 1]) else None)
  {
    IndexIs(ds[..i], j);
    hide CopiedSegment;
  }

  lemma CopiedBeyond(g: Mem, c: seq<nat>, ds: seq<nat>, i: nat, b: nat)
    requires i <= |c| == |ds| && b in g.bufs && b !in ds[..i]
    ensures var x := Copied(g, c[..i], ds[..i]).bufs; b in x && x[b] == g.bufs[b]
  {
    hide Copied;
    assert b in Copied(g, c[..i], ds[..i]).bufs.Keys;
  }

  lemma CopiedLinked(d: Buffer, s: Buffer, pre: nat, first: bool, next: nat)
    ensures CopiedSegment(d, s, pre, first, Some(next))
            == CopiedSegment(d, s, pre, first, None).(nextBuffer := next)
  {
  }

  // What the walk reads when i segments are copied: the links of c, and buffers not yet written.
  lemma CopyWalk(g: Mem, c: seq<nat>, ds: seq<nat>, i: nat, x: map<nat, Buffer>)
    requires Copying(g, c, ds) && 1 <= i < |c| && CopiedPart(g, c, ds, i, x)
    ensures c[i - 1] in g.bufs && c[i] in g.bufs && ds[i] in g.bufs
    ensures c[i - 1] in x && x[c[i - 1]] == g.bufs[c[i - 1]] && g.bufs[c[i - 1]].nextBuffer == c[i]
    ensures c[i] in x && x[c[i]] == g.bufs[c[i]] && ds[i] in x && x[ds[i]] == g.bufs[ds[i]] && ds[i - 1] in x
    ensures c[i - 1] != ds[i - 1] && c[i] != ds[i - 1] && ds[i] != ds[i - 1]
  {
    hide Copied;
    assert LinkAt(g.bufs, c, i - 1) && c[i] in c && c[i - 1] in c;
    CopiedBeyond(g, c, ds, i, c[i]);
    CopiedBeyond(g, c, ds, i, c[i - 1]);
    CopiedBeyond(g, c, ds, i, ds[i]);
    assert ds[i - 1] in Copied(g, c[..i], ds[..i]).bufs.Keys;
  }

  // Segment i after the ones before it.
  lemma CopiedSnoc(g: Mem, c: seq<nat>, ds: seq<nat>, i: nat, x: map<nat, Buffer>)
    requires Copying(g, c, ds) && 1 <= i < |c| && CopiedPart(g, c, ds, i, x)
    ensures ds[i - 1] in x && ds[i] in g.bufs && c[i] in g.bufs
    ensures CopiedPart(g, c, ds, i + 1,
                       x[ds[i - 1] := x[ds[i - 1]].(nextBuffer := ds[i])]
                        [ds[i] := CopiedSegment(g.bufs[ds[i]], g.bufs[c[i]], g.pre, false, None)])
  {
    CopyWalk(g, c, ds, i, x);
    hide CopiedSegment, Copied, Copying;
    var y, d, e := Copied(g, c[..i + 1], ds[..i + 1]).bufs, ds[i - 1], ds[i];
    assert x.Keys == g.bufs.Keys && y.Keys == g.bufs.Keys;
    var u, v := x[d].(nextBuffer := e), CopiedSegment(g.bufs[e], g.bufs[c[i]], g.pre, false, None);
    forall b | b in x ensures b in y && y[b] == if b == e then v else if b == d then u else x[b] {
      assert b in g.bufs.Keys;
      CopiedSnocAt(g, c, ds, i, b);
    }
    TwoPatched(x, y, d, u, e, v);
  }

  lemma TwoPatched(x: map<nat, Buffer>, y: map<nat, Buffer>, d: nat, u: Buffer, e: nat, v: Buffer)
    requires x.Keys == y.Keys && d in x && e in x
    requires forall b :: b in x ==> b in y && y[b] == if b == e then v else if b == d then u else x[b]
    ensures y == x[d := u][e := v]
  {
  }

  lemma CopiedSnocAt(g: Mem, c: seq<nat>, ds: seq<nat>, i: nat, b: nat)
    requires Copying(g, c, ds) && 1 <= i < |c| && b in g.bufs
    ensures var x, y := Copied(g, c[..i], ds[..i]).bufs, Copied(g, c[..i + 1], ds[..i + 1]).bufs;
            && b in x && b in y && ds[i] in g.bufs && c[i] in g.bufs
            && y[b] == if b == ds[i] then CopiedSegment(g.bufs[b], g.bufs[c[i]], g.pre, false, None)
                       else if b == ds[i - 1] then x[b].(nextBuffer := ds[i])
                       else x[b]
  {
    hide Copied, CopiedSegment, CopiedBuffer;
    assert b in Copied(g, c[..i], ds[..i]).bufs.Keys && b in Copied(g, c[..i + 1], ds[..i + 1]).bufs.Keys;
    if j :| 0 <= j <= i && ds[j] == b {
      CopiedPrefix(g, c, ds, i + 1, j);
      if j < i {
        CopiedPrefix(g, c, ds, i, j);
        CopiedLinked(g.bufs[b], g.bufs[c[j]], g.pre, j == 0, ds[j + 1]);
      }
    } else {
      CopiedBeyond(g, c, ds, i, b);
      CopiedBeyond(g, c, ds, i + 1, b);
    }
  }

  // What vlib_buffer_clone has once it has its buffers.
  ghost predicate Cloning(g: Mem, c: seq<nat>, ds: seq<nat>) {
    && IsChain(g.bufs, c) && NoRepeats(c) && ds != [] && NoRepeats(ds)
    && (forall b :: b in ds ==> b in g.bufs && b !in c)
  }

  lemma CloneReady(m: Mem, ps: Packets, src: nat, n: nat, headEnd: nat)
    requires Inv(m, ps) && src in ps && 0 < n <= MAX_U8 && Alloc(m, n).1.Some? && Alloc(m, n).1.value != []
    requires src in m.bufs && m.bufs[src].currentLength > headEnd + 2 * CACHE_LINE_BYTES
    ensures var (g, got) := Alloc(m, n);
            Cloning(g, ps[src], got.value) && src == ps[src][0]
  {
    var (g, got) := Alloc(m, n);
    hide Inv, Alloc, HandedOut, Bytes, Users, NoRepeats;
    AllocBefore(m, ps, src, n);
    var ds := got.value;
    HandedOutFacts(m, ps, n, g, ds);
    ClonePlaces(m, ps, src, n, g, ds);
  }

  lemma ClonePlaces(m: Mem, ps: Packets, src: nat, n: nat, g: Mem, ds: seq<nat>)
    requires src in ps && HandedOut(m, ps, n, g, ds) && Inv(g, ps + Singles(ds))
    ensures IsChain(g.bufs, ps[src]) && NoRepeats(ps[src]) && forall d :: d in ds ==> d !in ps[src] && d in g.bufs
  {
    var qs := ps + Singles(ds);
    assert src !in ds && src in qs && qs[src] == ps[src];
    PacketIn(g, qs, src);
    ChainNoRepeats(g.bufs, ps[src]);
    forall d | d in ds ensures d !in ps[src] { assert src !in Users(ps, d); }
  }

  // The copy loop has made k copies.
  ghost predicate CopiesDone(m0: Mem, ps: Packets, src: nat, k: nat, m: Mem, copies: seq<nat>)
    requires src in ps
  {
    var o := CopiesStep(m0, ps, ps[src], k);
    && o.m == m && o.heads == copies && |copies| == k && o.ok
    && Inv(m, o.ps) && src in o.ps && o.ps[src] == ps[src]
  }

  lemma NoneDone(m: Mem, ps: Packets, src: nat)
    requires Inv(m, ps) && src in ps
    ensures CopiesDone(m, ps, src, 0, m, [])
  {
  }

  lemma DoneIs(m0: Mem, ps: Packets, src: nat, k: nat, m: Mem, copies: seq<nat>)
    requires src in ps && CopiesDone(m0, ps, src, k, m, copies)
    ensures var o := CopiesStep(m0, ps, ps[src], k); o.m == m && o.heads == copies && o.ok
  {
  }

  // The copy that follows k others.
  lemma {:induction false} CopiesSnoc(m: Mem, ps: Packets, c: seq<nat>, k: nat)
    requires |CopiesStep(m, ps, c, k).heads| == k
    ensures var o := CopiesStep(m, ps, c, k);
            var one := CopyStep(o.m, o.ps, c);
            CopiesStep(m, ps, c, k + 1) == one.(heads := o.heads + one.heads)
    decreases k
  {
    hide CopyStep, CopiesStep;
    CopiesUnfold(m, ps, c, k + 1);
    var one := CopyStep(m, ps, c);
    OneHead(m, ps, c);
    if k == 0 {
      NoCopy(m, ps, c);
      NoCopy(one.m, one.ps, c);
      assert one.heads + [] == one.heads && [] + one.heads == one.heads;
    } else {
      CopiesUnfold(m, ps, c, k);
      CopiesSnoc(one.m, one.ps, c, k - 1);
      var o := CopiesStep(one.m, one.ps, c, k - 1);
      Associative(one.heads, o.heads, CopyStep(o.m, o.ps, c).heads);
    }
  }

  lemma OneHead(m: Mem, ps: Packets, c: seq<nat>)
    ensures var o := CopyStep(m, ps, c);
            |o.heads| <= 1 && o.copied == 0 && (o.heads != [] ==> o.ok)
  {
  }

  lemma NoCopy(m: Mem, ps: Packets, c: seq<nat>)
    ensures CopiesStep(m, ps, c, 0) == Outcome(m, ps, [], 0, true)
  {
  }

  // Once a copy has failed, there are no more.
  lemma {:induction false} StoppedShort(m: Mem, ps: Packets, c: seq<nat>, k: nat, n: nat)
    requires k <= n && |CopiesStep(m, ps, c, k).heads| < k
    ensures CopiesStep(m, ps, c, n) == CopiesStep(m, ps, c, k)
    decreases k
  {
    hide CopyStep, CopiesStep;
    var one := CopyStep(m, ps, c);
    CopiesUnfold(m, ps, c, k);
    CopiesUnfold(m, ps, c, n);
    if one.heads != [] { StoppedShort(one.m, one.ps, c, k - 1, n - 1); }
  }

  lemma CopiesUnfold(m: Mem, ps: Packets, c: seq<nat>, k: nat)
    requires 0 < k
    ensures var one := CopyStep(m, ps, c);
            CopiesStep(m, ps, c, k) == if one.heads == [] then one
                                       else var rest := CopiesStep(one.m, one.ps, c, k - 1);
                                            rest.(heads := one.heads + rest.heads)
  {
  }

  lemma CopyMade(m: Mem, ps: Packets, h: nat)
    requires Inv(m, ps) && h in ps && CopyStep(m, ps, ps[h]).heads != []
    ensures var o := CopyStep(m, ps, ps[h]);
            Inv(o.m, o.ps) && h in o.ps && o.ps[h] == ps[h] && o.ok && |o.heads| == 1
  {
    assert CopyStep(m, ps, ps[h]).ok;
    hide Inv, CopyStep, Bytes, Grew;
    CopyStepKeeps(m, ps, h);
    var o := CopyStep(m, ps, ps[h]);
    GrewHeads(m, ps, o.m, o.ps, o.heads, Bytes(m, ps[h]), h);
  }

  lemma CloningParts(g: Mem, c: seq<nat>, ds: seq<nat>)
    requires Cloning(g, c, ds)
    ensures c != [] && c[0] in g.bufs && c[0] in c && c[0] !in ds && ds != []
    ensures NoRepeats(c) && NoRepeats(ds) && forall b :: b in ds ==> b in g.bufs
  {
  }

  // Heads written, the source advanced, counts set.
  lemma CloningDone(g: Mem, c: seq<nat>, ds: seq<nat>, headEnd: nat)
    requires Cloning(g, c, ds) && c[0] in g.bufs
    ensures var x := Patched(g.bufs, ds, HeadOf(g.bufs[c[0]], g.pre, c[0], headEnd));
            c[0] in x && x[c[0]] == g.bufs[c[0]]
            && Patched(x[c[0] := Advanced(x[c[0]], headEnd)], c, RefsOf(|ds| - 1)) == Cloned(g, c, ds, headEnd).bufs
  {
    assert c[0] in c && c[0] !in ds;
    hide CloneHead, IsChain, NoRepeats, Advanced;
    var x := Patched(g.bufs, ds, HeadOf(g.bufs[c[0]], g.pre, c[0], headEnd));
    var y := Patched(x[c[0] := Advanced(x[c[0]], headEnd)], c, RefsOf(|ds| - 1));
    forall b | b in g.bufs ensures b in y && y[b] == ClonedBuffer(g, c, ds, headEnd, b) {
      assert b in ds ==> b !in c;
    }
  }

  // ------------------------------------------------------------------------------------------
  // Writing buffers one after another

  // Every buffer of c changed by f, the others as they were.
  function Patched(bufs: map<nat, Buffer>, c: seq<nat>, f: Buffer -> Buffer): (r: map<nat, Buffer>)
    ensures r.Keys == bufs.Keys
    ensures forall b :: b in r ==> r[b] == if b in c then f(bufs[b]) else bufs[b]
  {
    map b | b in bufs :: if b in c then f(bufs[b]) else bufs[b]
  }

  function RefsOf(count: nat): Buffer -> Buffer {
    (x: Buffer) => x.(nAddRefs := count)
  }

  function OneMore(x: Buffer): Buffer {
    x.(nAddRefs := (x.nAddRefs + 1) % (MAX_U8 + 1))
  }

  function HeadOf(s: Buffer, pre: nat, src: nat, headEnd: nat): Buffer -> Buffer {
    (d: Buffer) => CloneHead(d, s, pre, src, headEnd)
  }

  // The first k buffers of c have been changed.
  ghost predicate PatchedPart(bufs: map<nat, Buffer>, c: seq<nat>, f: Buffer -> Buffer, k: nat, x: map<nat, Buffer>) {
    k <= |c| && x == Patched(bufs, c[..k], f)
  }

  lemma PatchedNone(bufs: map<nat, Buffer>, c: seq<nat>, f: Buffer -> Buffer)
    ensures PatchedPart(bufs, c, f, 0, bufs)
  {
  }

  lemma PatchedNext(bufs: map<nat, Buffer>, c: seq<nat>, f: Buffer -> Buffer, k: nat, x: map<nat, Buffer>)
    requires PatchedPart(bufs, c, f, k, x) && NoRepeats(c) && k < |c| && c[k] in bufs
    ensures c[k] in x && x[c[k]] == bufs[c[k]] && PatchedPart(bufs, c, f, k + 1, x[c[k] := f(bufs[c[k]])])
  {
    assert c[..k + 1] == c[..k] + [c[k]] && c[k] !in c[..k];
  }

  lemma PatchedOther(bufs: map<nat, Buffer>, c: seq<nat>, f: Buffer -> Buffer, k: nat, x: map<nat, Buffer>, b: nat)
    requires PatchedPart(bufs, c, f, k, x) && b in bufs && b !in c
    ensures b in x && x[b] == bufs[b]
  {
  }

  lemma PatchedAll(bufs: map<nat, Buffer>, c: seq<nat>, f: Buffer -> Buffer, x: map<nat, Buffer>)
    requires PatchedPart(bufs, c, f, |c|, x)
    ensures x == Patched(bufs, c, f)
  {
    assert c[..|c|] == c;
  }

  // The bytes behind the data of `last`, and the cached length of `first`.
  lemma PutDone(g: Mem, first: nat, last: nat, bytes: seq<u8>)
    requires first in g.bufs && last in g.bufs
    ensures var b := g.bufs[last];
            var x := g.bufs[last := b.(currentLength := b.currentLength + |bytes|,
                                       mem := Overwritten(b.mem, g.pre + b.currentData + b.currentLength, bytes))];
            first in x && Put(g, first, last, bytes).bufs
            == if first == last then x else x[first := x[first].(totalRest := x[first].totalRest + |bytes|)]
  {
    hide Overwritten;
  }

  lemma LinkIn(bufs: map<nat, Buffer>, c: seq<nat>, k: nat)
    requires IsChain(bufs, c)
    ensures c != []
    ensures k < |c| ==> c[k] in bufs && (bufs[c[k]].nextPresent <==> k + 1 < |c|)
    ensures k + 1 < |c| ==> bufs[c[k]].nextBuffer == c[k + 1]
  {
    if k < |c| { assert LinkAt(bufs, c, k); }
  }

  // The chain c survives what is written before its counts are.
  lemma AttachingChain(g: Mem, head: nat, c: seq<nat>)
    requires IsChain(g.bufs, c) && head in g.bufs && head !in c && c[0] in g.bufs
    ensures IsChain(g.bufs[head := LinkedHead(g.bufs[head], g.bufs[c[0]], c[0])], c)
  {
    ChainSame(g.bufs, c, g.bufs[head := LinkedHead(g.bufs[head], g.bufs[c[0]], c[0])]);
  }

  lemma CloningChain(g: Mem, c: seq<nat>, ds: seq<nat>, headEnd: nat)
    requires Cloning(g, c, ds) && c[0] in g.bufs
    ensures var x := Patched(g.bufs, ds, HeadOf(g.bufs[c[0]], g.pre, c[0], headEnd));
            c[0] in x && IsChain(x[c[0] := Advanced(x[c[0]], headEnd)], c)
  {
    hide CloneHead, NoRepeats;
    var x := Patched(g.bufs, ds, HeadOf(g.bufs[c[0]], g.pre, c[0], headEnd));
    assert c[0] in c && c[0] !in ds;
    ChainSame(g.bufs, c, x[c[0] := Advanced(x[c[0]], headEnd)]);
  }

  // The tail's counts one up and the head linked to it.
  lemma AttachingDone(g: Mem, head: nat, c: seq<nat>)
    requires IsChain(g.bufs, c) && head in g.bufs && head !in c && c[0] in g.bufs
    ensures Patched(g.bufs[head := LinkedHead(g.bufs[head], g.bufs[c[0]], c[0])], c, OneMore)
            == Attached(g, head, c).bufs
  {
    assert c[0] in c;
  }

  // ------------------------------------------------------------------------------------------

  // `copied` bytes are in, and appending the rest from here is what appending them all was.
  ghost predicate Appending(was: Mem, ps: Packets, h: nat, data: seq<u8>, m: Mem, copied: nat, last: nat,
                            added: seq<nat>)
  {
    h in ps && Continued(ps, h, m, last, added) && Remaining(was, h, Last(ps[h]), data, m, copied, last, added)
  }

  ghost predicate Remaining(was: Mem, h: nat, last0: nat, data: seq<u8>, m: Mem, copied: nat, last: nat,
                            added: seq<nat>)
  {
    copied <= |data| && var r := AppendData(m, h, last, data[copied..]);
    AppendData(was, h, last0, data) == r.(copied := copied + r.copied, added := added + r.added)
  }

  ghost predicate Continued(ps: Packets, h: nat, m: Mem, last: nat, added: seq<nat>)
    requires h in ps
  {
    AppendCall(m, With(ps, h, ps[h] + added), h) && last == Last(ps[h] + added)
  }

  lemma AppendingStart(m: Mem, ps: Packets, h: nat, data: seq<u8>)
    requires AppendCall(m, ps, h)
    ensures h in ps && Appending(m, ps, h, data, m, 0, Last(ps[h]), [])
  {
    hide AppendCall, AppendData;
    InCall(m, ps, h);
    assert ps[h] + [] == ps[h];
    WithSame(ps, h);
    RemainingAll(m, h, Last(ps[h]), data);
  }

  lemma InCall(m: Mem, ps: Packets, h: nat)
    requires AppendCall(m, ps, h)
    ensures h in ps
  {
  }

  lemma RemainingAll(m: Mem, h: nat, last: nat, data: seq<u8>)
    ensures Remaining(m, h, last, data, m, 0, last, [])
  {
    hide AppendData;
    assert data[0..] == data;
    var r := AppendData(m, h, last, data);
    assert [] + r.added == r.added;
  }

  lemma AppendingIn(was: Mem, ps: Packets, h: nat, data: seq<u8>, m: Mem, copied: nat, last: nat, added: seq<nat>)
    requires Appending(was, ps, h, data, m, copied, last, added)
    ensures h in m.bufs && last in m.bufs
  {
    hide AppendCall, AppendData;
    AppendEnds(m, With(ps, h, ps[h] + added), h);
    HeadBuffer(m, With(ps, h, ps[h] + added), h);
  }

  lemma HeadBuffer(m: Mem, ps: Packets, h: nat)
    requires AppendCall(m, ps, h)
    ensures h in m.bufs
  {
    HeadIn(m, ps, h);
  }

  lemma AppendingEnd(was: Mem, ps: Packets, h: nat, data: seq<u8>, m: Mem, copied: nat, last: nat, added: seq<nat>)
    requires Appending(was, ps, h, data, m, copied, last, added) && copied == |data|
    ensures var a := AppendData(was, h, Last(ps[h]), data); a.m == m && a.copied == copied && a.last == last
  {
  }

  // The free list's answer: none, and the call ends, or a new buffer.
  lemma AppendingAlloc(was: Mem, ps: Packets, h: nat, data: seq<u8>, m: Mem, copied: nat, last: nat, added: seq<nat>)
    requires Appending(was, ps, h, data, m, copied, last, added) && copied < |data|
    requires Room(m, At(m.bufs, last)) == 0
    ensures var (g, got) := Alloc(m, 1);
            && got.Some? && last in g.bufs
            && (|got.value| == 1 ==> got.value[0] in g.bufs)
            && (|got.value| != 1 ==>
                  var a := AppendData(was, h, Last(ps[h]), data); a.m == g && a.copied == copied && a.last == last)
  {
    AppendingIn(was, ps, h, data, m, copied, last, added);
    hide AppendCall, Alloc, Room, ChainCall;
    AllocOne(m, With(ps, h, ps[h] + added), h);
    var (g, got) := Alloc(m, 1);
    if |got.value| == 1 { NewIn(g, With(ps, h, ps[h] + added), h, got.value[0]); }
  }

  lemma NewIn(m: Mem, ps: Packets, h: nat, d: nat)
    requires ChainCall(m, ps, h, d)
    ensures d in m.bufs
  {
  }

  lemma AllocChained(m: Mem, qs: Packets, h: nat)
    requires AppendCall(m, qs, h) && Alloc(m, 1).1.Some? && |Alloc(m, 1).1.value| == 1
    ensures var (g, got) := Alloc(m, 1);
            var d := got.value[0];
            h in qs && var x := Chained(g, Last(qs[h]), d);
            AppendCall(x, With(qs, h, qs[h] + [d]), h) && Room(x, At(x.bufs, d)) != 0 && d != Last(qs[h])
  {
    var (g, got) := Alloc(m, 1);
    hide Alloc, Chained, AppendCall, Room, ChainCall, ChainRight;
    AllocOne(m, qs, h);
    ChainedCall(m, qs, h, g, got.value[0]);
    NewOther(g, qs, h, got.value[0]);
  }

  lemma NewOther(m: Mem, ps: Packets, h: nat, d: nat)
    requires ChainCall(m, ps, h, d)
    ensures h in ps && d != Last(ps[h])
  {
    ChainParts(m, ps, h, d);
  }

  lemma ContinuedChained(ps: Packets, h: nat, m: Mem, last: nat, added: seq<nat>)
    requires h in ps && Continued(ps, h, m, last, added) && Alloc(m, 1).1.Some? && |Alloc(m, 1).1.value| == 1
    ensures var (g, got) := Alloc(m, 1);
            var d := got.value[0];
            var x := Chained(g, last, d);
            Continued(ps, h, x, d, added + [d]) && Room(x, At(x.bufs, d)) != 0 && d != last
  {
    hide Alloc, Chained, AppendCall, Room;
    var d := Alloc(m, 1).1.value[0];
    AllocChained(m, With(ps, h, ps[h] + added), h);
    Associative(ps[h], added, [d]);
    WithAgain(ps, h, ps[h] + added, ps[h] + (added + [d]));
  }

  lemma WithAgain(ps: Packets, h: nat, c: seq<nat>, d: seq<nat>)
    ensures With(With(ps, h, c), h, d) == With(ps, h, d)
  {
  }

  lemma RemainingChained(was: Mem, h: nat, last0: nat, data: seq<u8>, m: Mem, copied: nat, last: nat, added: seq<nat>)
    requires Remaining(was, h, last0, data, m, copied, last, added) && copied < |data|
    requires Room(m, At(m.bufs, last)) == 0 && Alloc(m, 1).1.Some? && |Alloc(m, 1).1.value| == 1
    requires var d := Alloc(m, 1).1.value[0]; var x := Chained(Alloc(m, 1).0, last, d); Room(x, At(x.bufs, d)) != 0
    ensures var d := Alloc(m, 1).1.value[0];
            Remaining(was, h, last0, data, Chained(Alloc(m, 1).0, last, d), copied, d, added + [d])
  {
    var d := Alloc(m, 1).1.value[0];
    var x, rest := Chained(Alloc(m, 1).0, last, d), data[copied..];
    var r := AppendSome(x, h, d, rest);
    assert AppendData(m, h, last, rest) == r.(added := [d] + r.added);
    AppendIsSome(x, h, d, rest);
    hide Alloc, Chained, AppendSome, AppendData, Room;
    Associative(added, [d], r.added);
  }

  lemma AppendingChained(was: Mem, ps: Packets, h: nat, data: seq<u8>, m: Mem, copied: nat, last: nat, added: seq<nat>)
    requires Appending(was, ps, h, data, m, copied, last, added) && copied < |data|
    requires Room(m, At(m.bufs, last)) == 0 && Alloc(m, 1).1.Some? && |Alloc(m, 1).1.value| == 1
    ensures var (g, got) := Alloc(m, 1);
            var d := got.value[0];
            var x := Chained(g, last, d);
            Appending(was, ps, h, data, x, copied, d, added + [d]) && Room(x, At(x.bufs, d)) != 0 && d != last
            && d in x.bufs && h in x.bufs
  {
    hide Alloc, Chained, Room, Continued, Remaining;
    ContinuedChained(ps, h, m, last, added);
    RemainingChained(was, h, Last(ps[h]), data, m, copied, last, added);
    var d := Alloc(m, 1).1.value[0];
    AppendingIn(was, ps, h, data, Chained(Alloc(m, 1).0, last, d), copied, d, added + [d]);
  }

  lemma AppendIsSome(m: Mem, h: nat, last: nat, data: seq<u8>)
    requires data != [] && Room(m, At(m.bufs, last)) != 0
    ensures AppendData(m, h, last, data) == AppendSome(m, h, last, data)
  {
  }

  lemma RemainingPut(was: Mem, h: nat, last0: nat, data: seq<u8>, m: Mem, copied: nat, last: nat, added: seq<nat>,
                     len: nat)
    requires Remaining(was, h, last0, data, m, copied, last, added) && copied < |data|
    requires 0 < len == Min(|data| - copied, Room(m, At(m.bufs, last)))
    ensures Remaining(was, h, last0, data, Put(m, h, last, data[copied..copied + len]), copied + len, last, added)
  {
    var rest := data[copied..];
    assert rest[..len] == data[copied..copied + len] && rest[len..] == data[copied + len..];
    AppendIsSome(m, h, last, rest);
    AppendSomeIs(m, h, last, rest, len);
    hide AppendData, AppendSome, Put, Room;
  }

  lemma ContinuedPut(ps: Packets, h: nat, data: seq<u8>, m: Mem, last: nat, added: seq<nat>)
    requires h in ps && Continued(ps, h, m, last, added) && data != [] && Room(m, At(m.bufs, last)) != 0
    ensures var len := Min(|data|, Room(m, At(m.bufs, last)));
            0 < len && Continued(ps, h, Put(m, h, last, data[..len]), last, added)
  {
    hide AppendCall, Put, Room, PutCall;
    SomeCall(m, With(ps, h, ps[h] + added), h, data);
  }

  lemma AppendingPut(was: Mem, ps: Packets, h: nat, data: seq<u8>, m: Mem, copied: nat, last: nat, added: seq<nat>)
    requires Appending(was, ps, h, data, m, copied, last, added) && copied < |data|
    requires Room(m, At(m.bufs, last)) != 0
    ensures var len := Min(|data| - copied, Room(m, At(m.bufs, last)));
            && 0 < len
            && Appending(was, ps, h, data, Put(m, h, last, data[copied..copied + len]), copied + len, last, added)
  {
    hide Put, Room, Continued, Remaining;
    var len := Min(|data| - copied, Room(m, At(m.bufs, last)));
    assert data[copied..][..len] == data[copied..copied + len];
    ContinuedPut(ps, h, data[copied..], m, last, added);
    RemainingPut(was, h, Last(ps[h]), data, m, copied, last, added, len);
  }
}
