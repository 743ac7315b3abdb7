// Allocation: the free list grows by whole chunks, and gives the number asked for or none.
module BufferAlloc {
  import opened Base
  import opened BufferSpec
  import opened BufferFree

  // Single-buffer packets for the buffers handed out.
  function Singles(ds: seq<nat>): Packets {
    map d | d in ds :: [d]
  }

  lemma GrownPackets(m: Mem, ps: Packets, chunk: seq<nat>)
    requires PacketsOk(m, ps)
    ensures PacketsOk(Grown(m, chunk), ps)
  {
    var g := Grown(m, chunk);
    forall h | h in ps ensures PacketOk(g.bufs, h, ps[h]) {
      assert Kept(m.bufs, ps[h], g.bufs);
      PacketSame(m.bufs, h, ps[h], g.bufs);
    }
  }

  lemma GrownCounted(m: Mem, ps: Packets, chunk: seq<nat>, b: nat)
    requires Inv(m, ps) && FreshChunk(m, |chunk|, chunk) && b in Grown(m, chunk).bufs
    ensures Counted(Grown(m, chunk), ps, b)
  {
    var g := Grown(m, chunk);
    assert g.free == m.free + chunk;
    if b in m.bufs {
      assert Counted(m, ps, b);
      assert b !in chunk;
    } else {
      forall h | h in ps ensures b !in ps[h] {}
      assert b in g.free;
    }
  }

  lemma GrownClean(m: Mem, chunk: seq<nat>)
    requires NoRepeats(m.free) && FreeClean(m) && FreshChunk(m, |chunk|, chunk)
    ensures NoRepeats(Grown(m, chunk).free) && FreeClean(Grown(m, chunk))
  {
    forall x | x in m.free ensures x !in chunk {}
    NoRepeatsJoin(m.free, chunk);
  }

  lemma GrownKnown(m: Mem, chunk: seq<nat>)
    requires KnownOk(m) && FreshChunk(m, |chunk|, chunk)
    ensures KnownOk(Grown(m, chunk))
  {
    var g := Grown(m, chunk);
    ElemsSize(chunk);
    assert m.bufs.Keys !! Elems(chunk);
    assert |m.bufs.Keys + Elems(chunk)| == |m.bufs.Keys| + |Elems(chunk)|;
    assert |g.bufs| == |g.bufs.Keys| && |m.bufs| == |m.bufs.Keys|;
    hide NoRepeats;
    forall b | b in g.bufs ensures g.known[b] <==> b !in g.free {
      assert b in g.free <==> b in m.free || b in chunk;
    }
  }

  lemma {:induction false} ElemsSize(s: seq<nat>)
    requires NoRepeats(s)
    ensures |Elems(s)| == |s|
  {
    if s != [] {
      ElemsSize(s[1..]);
      assert s[0] !in s[1..];
      assert Elems(s) == Elems(s[1..]) + {s[0]};
    }
  }

  lemma GrownAllOk(m: Mem, chunk: seq<nat>)
    requires AllOk(m)
    ensures AllOk(Grown(m, chunk))
  {
  }

  lemma GrownKeeps(m: Mem, ps: Packets, chunk: seq<nat>)
    requires Inv(m, ps) && FreshChunk(m, |chunk|, chunk)
    ensures Inv(Grown(m, chunk), ps)
  {
    hide Inv, PacketsOk, FreeListOk, AllOk, NoRepeats, FreeClean, KnownOk, Counted, FreshChunk, Grown;
    var g := Grown(m, chunk);
    Parts(m, ps);
    GrownPackets(m, ps, chunk);
    GrownClean(m, chunk);
    GrownKnown(m, chunk);
    GrownAllOk(m, chunk);
    forall b | b in g.bufs ensures Counted(g, ps, b) {
      GrownCounted(m, ps, chunk, b);
    }
    Whole(g, ps);
  }

  // The free list only grows, and no buffer changes.
  ghost predicate Extends(m: Mem, g: Mem) {
    && g == m.(bufs := g.bufs, free := g.free, nAlloc := g.nAlloc, known := g.known, supply := g.supply)
    && m.free <= g.free
    && (forall b :: b in m.bufs ==> b in g.bufs && g.bufs[b] == m.bufs[b])
    && (forall b :: b in g.bufs && b !in m.bufs ==> b in g.free)
  }

  // What physmem is yet to answer is no part of the invariant.
  lemma SupplyKeeps(m: Mem, ps: Packets, supply: seq<seq<nat>>)
    requires Inv(m, ps)
    ensures Inv(m.(supply := supply), ps) && Extends(m, m.(supply := supply))
  {
    var g := m.(supply := supply);
    assert forall b :: b in m.bufs ==> (Counted(g, ps, b) <==> Counted(m, ps, b));
    assert forall b: Buffer :: BufferOk(g, b) <==> BufferOk(m, b);
  }

  lemma {:induction false} FillKeeps(m: Mem, ps: Packets, remaining: nat)
    requires Inv(m, ps)
    ensures var (g, k) := FillFrom(m, remaining);
            && Inv(g, ps) && Extends(m, g)
            && |g.free| == |m.free| + k && k <= remaining && g.nAlloc == m.nAlloc + k
    decreases remaining
  {
    hide Inv, FreshChunk, Grown, Extends;
    var n := Min(remaining, CHUNK);
    if remaining == 0 {
      ExtendsSelf(m);
    } else if m.supply == [] || !FreshChunk(m, n, m.supply[0]) {
      SupplyKeeps(m, ps, Rest(m.supply));
    } else {
      var h := Grown(m, m.supply[0]);
      GrownExtends(m, m.supply[0], n);
      GrownKeeps(m, ps, m.supply[0]);
      FillKeeps(h, ps, remaining - n);
      ExtendsOn(m, h, FillFrom(h, remaining - n).0);
    }
  }

  lemma ExtendsSelf(m: Mem)
    ensures Extends(m, m)
  {
  }

  lemma ExtendsOn(m: Mem, h: Mem, g: Mem)
    requires Extends(m, h) && Extends(h, g)
    ensures Extends(m, g)
  {
    forall b | b in g.bufs && b !in m.bufs ensures b in g.free {
      if b in h.bufs {
        var i :| 0 <= i < |h.free| && h.free[i] == b;
        assert g.free[i] == b;
      }
    }
  }

  lemma GrownExtends(m: Mem, chunk: seq<nat>, n: nat)
    requires FreshChunk(m, n, chunk)
    ensures var h := Grown(m, chunk);
            |chunk| == n && Extends(m, h) && |h.free| == |m.free| + n && h.nAlloc == m.nAlloc + n
  {
    assert forall b :: b in chunk ==> b in m.free + chunk;
  }

  // ------------------------------------------------------------------------------------------

  lemma UsersWith(ps: Packets, ds: seq<nat>, b: nat)
    requires forall d :: d in ds ==> Users(ps, d) == {} && d !in ps
    ensures b !in ds ==> Users(ps + Singles(ds), b) == Users(ps, b)
    ensures b in ds ==> Users(ps + Singles(ds), b) == {b}
  {
    var qs := ps + Singles(ds);
    forall h ensures h in Users(qs, b) <==> h in (if b in ds then {b} else Users(ps, b)) {
      if h in ds { assert qs[h] == [h]; }
      if b in ds { assert h !in Users(ps, b); }
    }
  }

  lemma SinglePacket(m: Mem, b: nat)
    requires b in m.bufs && m.bufs[b] == Initialized(m.bufs[b])
    ensures PacketOk(m.bufs, b, [b])
  {
    assert LinkAt(m.bufs, [b], 0);
    assert [b][1..] == [];
  }

  lemma TakenPackets(m: Mem, ps: Packets, n: nat)
    requires PacketsOk(m, ps) && FreeClean(m) && n <= |m.free|
    ensures PacketsOk(Taken(m, n), ps + Singles(m.free[|m.free| - n..]))
  {
    var ds := m.free[|m.free| - n..];
    hide PacketOk;
    forall d | d in ds ensures PacketOk(m.bufs, d, [d]) {
      assert d in m.free;
      SinglePacket(m, d);
    }
    var qs := ps + Singles(ds);
    assert forall h :: h in qs ==> qs[h] == if h in ds then [h] else ps[h];
  }

  lemma TakenCounted(m: Mem, ps: Packets, n: nat, b: nat)
    requires Inv(m, ps) && n <= |m.free| && b in m.bufs
    ensures Counted(Taken(m, n), ps + Singles(m.free[|m.free| - n..]), b)
  {
    hide Inv, Users, Singles, Counted, NoRepeats, FreeClean, KnownOk, AllOk, PacketsOk;
    var k := |m.free| - n;
    var ds := m.free[k..];
    Parts(m, ps);
    CountedOf(m, ps, b);
    FreeSplit(m, k, b);
    forall d | d in ds ensures Users(ps, d) == {} && d !in ps { FreeUnused(m, ps, d); }
    UsersWith(ps, ds, b);
    TakenCount(m, ps, n, b, ps + Singles(ds));
  }

  lemma TakenCount(m: Mem, ps: Packets, n: nat, b: nat, qs: Packets)
    requires Counted(m, ps, b) && n <= |m.free| && b in m.bufs
    requires var k := |m.free| - n; b in m.free <==> b in m.free[..k] || b in m.free[k..]
    requires var k := |m.free| - n; !(b in m.free[..k] && b in m.free[k..])
    requires Users(qs, b) == if b in m.free[|m.free| - n..] then {b} else Users(ps, b)
    ensures Counted(Taken(m, n), qs, b)
  {
    hide Users, Marked;
  }

  lemma CountedOf(m: Mem, ps: Packets, b: nat)
    requires Inv(m, ps) && b in m.bufs
    ensures Counted(m, ps, b)
  {
  }

  lemma FreeSplit(m: Mem, k: nat, b: nat)
    requires NoRepeats(m.free) && k <= |m.free|
    ensures b in m.free <==> b in m.free[..k] || b in m.free[k..]
    ensures !(b in m.free[..k] && b in m.free[k..])
  {
    assert m.free == m.free[..k] + m.free[k..];
  }

  lemma HeadUses(m: Mem, ps: Packets, h: nat)
    requires PacketsOk(m, ps)
    ensures h in ps ==> h in Users(ps, h)
  {
    if h in ps { assert ps[h][0] == h; }
  }

  lemma FreeUnused(m: Mem, ps: Packets, b: nat)
    requires Inv(m, ps) && b in m.free
    ensures b in m.bufs && Users(ps, b) == {} && b !in ps
  {
    HeadUses(m, ps, b);
    assert Counted(m, ps, b);
  }

  lemma TakenList(m: Mem, n: nat)
    requires FreeListOk(m) && n <= |m.free|
    ensures FreeListOk(Taken(m, n))
  {
    TakenClean(m, n);
    TakenKnownOk(m, n);
    TakenNoRepeats(m, n);
    hide Taken, FreeClean, KnownOk, NoRepeats;
  }

  lemma TakenNoRepeats(m: Mem, n: nat)
    requires NoRepeats(m.free) && n <= |m.free|
    ensures NoRepeats(Taken(m, n).free)
  {
  }

  lemma TakenKnownOk(m: Mem, n: nat)
    requires NoRepeats(m.free) && FreeClean(m) && KnownOk(m) && n <= |m.free|
    ensures KnownOk(Taken(m, n))
  {
    var k, t := |m.free| - n, Taken(m, n);
    assert t.nAlloc == m.nAlloc && t.bufs == m.bufs && t.free == m.free[..k];
    assert t.known.Keys == m.bufs.Keys by { TakenKeys(m, n); }
    hide Taken, Marked, Elems, Initialized, NoRepeats, FreeClean;
    forall b | b in m.bufs ensures b in t.known && (t.known[b] <==> b !in t.free) {
      FreeSplit(m, k, b);
      TakenKnown(m, n, b);
    }
  }

  lemma TakenKeys(m: Mem, n: nat)
    requires FreeClean(m) && KnownOk(m) && n <= |m.free|
    ensures Taken(m, n).known.Keys == m.bufs.Keys
  {
    hide Marked;
    var ds := m.free[|m.free| - n..];
    forall b | b in ds ensures b in m.bufs { assert b in m.free; }
    assert Taken(m, n).known.Keys == m.known.Keys + Elems(ds);
  }

  lemma TakenKnown(m: Mem, n: nat, b: nat)
    requires n <= |m.free| && b in m.known
    ensures var t := Taken(m, n);
            b in t.known && (t.known[b] <==> m.known[b] || b in m.free[|m.free| - n..])
  {
    assert b in Taken(m, n).known.Keys;
  }

  lemma TakenClean(m: Mem, n: nat)
    requires FreeClean(m) && n <= |m.free|
    ensures FreeClean(Taken(m, n))
  {
  }

  lemma TakenKeeps(m: Mem, ps: Packets, n: nat)
    requires Inv(m, ps) && n <= |m.free|
    ensures Inv(Taken(m, n), ps + Singles(m.free[|m.free| - n..]))
  {
    hide Inv, PacketsOk, FreeListOk, AllOk, NoRepeats, FreeClean, KnownOk, Counted, Singles;
    var t, qs := Taken(m, n), ps + Singles(m.free[|m.free| - n..]);
    Parts(m, ps);
    TakenPackets(m, ps, n);
    TakenList(m, n);
    TakenAllOk(m, n);
    hide Taken;
    forall b | b in t.bufs ensures Counted(t, qs, b) {
      TakenCounted(m, ps, n, b);
    }
    ListParts(t);
    Whole(t, qs);
  }

  lemma TakenAllOk(m: Mem, n: nat)
    requires AllOk(m) && n <= |m.free|
    ensures AllOk(Taken(m, n)) && Taken(m, n).bufs == m.bufs
  {
  }

  lemma ListParts(m: Mem)
    requires FreeListOk(m)
    ensures NoRepeats(m.free) && FreeClean(m) && KnownOk(m)
  {
  }

  // ------------------------------------------------------------------------------------------

  // Allocation hands out nothing or exactly the number asked for, all different and all unused, and
  // keeps the invariant with each of them a live packet.
  ghost predicate HandedOut(m: Mem, ps: Packets, n: nat, g: Mem, ds: seq<nat>) {
    && (ds == [] || |ds| == n) && NoRepeats(ds)
    && (forall d :: d in ds ==> d !in ps && Users(ps, d) == {})
    && (forall d :: d in ds ==> d in g.bufs && g.bufs[d] == Initialized(g.bufs[d]))
    && (forall b :: b in m.bufs ==> b in g.bufs && g.bufs[b] == m.bufs[b])
    && g == m.(bufs := g.bufs, free := g.free, nAlloc := g.nAlloc, known := g.known, supply := g.supply)
  }

  lemma AllocKeeps(m: Mem, ps: Packets, n: nat)
    requires Inv(m, ps)
    ensures var (g, got) := Alloc(m, n);
            match got
            case None => Inv(g, ps)
            case Some(ds) => HandedOut(m, ps, n, g, ds) && Inv(g, ps + Singles(ds))
  {
    hide Inv, FillFrom, Wanted, Taken, Extends, HandedOut, Singles;
    var (g, filled) := FillFreeList(m, n);
    if n > |m.free| { FillKeeps(m, ps, Wanted(m, n)); } else { ExtendsSelf(m); }
    if filled == 0 {
      NoSingles(ps);
      AllocatedOut(m, ps, n, g, 0);
    } else if n <= |g.free| {
      AllocatedOut(m, ps, n, g, n);
      TakenKeeps(g, ps, n);
    }
  }

  lemma NoSingles(ps: Packets)
    ensures ps + Singles([]) == ps
  {
  }

  // The last buffers of the free list.
  lemma FreeTail(g: Mem, ps: Packets, k: nat)
    requires Inv(g, ps) && k <= |g.free|
    ensures var ds := g.free[|g.free| - k..];
            && NoRepeats(ds)
            && forall d :: d in ds ==> d !in ps && Users(ps, d) == {} && d in g.bufs
                                       && g.bufs[d] == Initialized(g.bufs[d])
  {
    var ds := g.free[|g.free| - k..];
    forall d | d in ds
      ensures d !in ps && Users(ps, d) == {} && d in g.bufs && g.bufs[d] == Initialized(g.bufs[d])
    {
      assert d in g.free;
      FreeUnused(g, ps, d);
    }
  }

  lemma AllocatedOut(m: Mem, ps: Packets, n: nat, g: Mem, k: nat)
    requires Inv(g, ps) && Extends(m, g) && k <= |g.free| && (k == 0 || k == n)
    ensures HandedOut(m, ps, n, Taken(g, k), g.free[|g.free| - k..])
    ensures k == 0 ==> HandedOut(m, ps, n, g, [])
  {
    hide Inv, NoRepeats, Users, Initialized, Marked;
    FreeTail(g, ps, k);
    assert k == 0 ==> g.free[|g.free| - k..] == [];
  }

  // Answer i of physmem is a chunk of `size` buffers not seen before, neither in memory nor in the
  // answers ahead of it.
  predicate FreshOf(m: Mem, i: nat, size: nat) {
    && i < |m.supply| && |m.supply[i]| == size && NoRepeats(m.supply[i])
    && forall x :: x in m.supply[i] ==> x !in m.bufs && forall j :: 0 <= j < i ==> x !in m.supply[j]
  }

  // ... a full chunk.
  predicate Fresh(m: Mem, i: nat) {
    FreshOf(m, i, CHUNK)
  }

  lemma FreshOfFirst(m: Mem, size: nat)
    ensures FreshOf(m, 0, size) <==> m.supply != [] && FreshChunk(m, size, m.supply[0])
  {
  }

  lemma FreshFirst(m: Mem)
    ensures Fresh(m, 0) <==> m.supply != [] && FreshChunk(m, CHUNK, m.supply[0])
  {
    FreshOfFirst(m, CHUNK);
  }

  lemma FreshNext(m: Mem, i: nat)
    requires Fresh(m, 0)
    ensures Fresh(Grown(m, m.supply[0]), i) <==> Fresh(m, i + 1)
  {
    FreshOfNext(m, i, CHUNK);
  }

  lemma FreshOfNext(m: Mem, i: nat, size: nat)
    requires m.supply != []
    ensures FreshOf(Grown(m, m.supply[0]), i, size) <==> FreshOf(m, i + 1, size)
  {
    var g := Grown(m, m.supply[0]);
    hide NoRepeats, Marked;
    assert g.supply == m.supply[1..] && g.bufs.Keys == m.bufs.Keys + Elems(m.supply[0]);
    if i < |g.supply| {
      assert g.supply[i] == m.supply[i + 1];
      forall x ensures x !in g.bufs <==> x !in m.bufs && x !in m.supply[0] { assert x in g.bufs <==> x in g.bufs.Keys; }
      assert forall j :: 0 <= j < i ==> g.supply[j] == m.supply[j + 1];
      assert forall j :: 0 < j < i + 1 ==> m.supply[j] == g.supply[j - 1];
    }
  }

  // Answers that are good are all used, as far as they are asked for ...
  lemma {:induction false} FillGoes(m: Mem, remaining: nat, k: nat)
    requires k * CHUNK <= remaining && forall i :: 0 <= i < k ==> Fresh(m, i)
    ensures FillFrom(m, remaining).1 >= k * CHUNK
    decreases k
  {
    hide Fresh, FreshChunk, Grown;
    if k > 0 {
      FreshFirst(m);
      var g := Grown(m, m.supply[0]);
      forall i | 0 <= i < k - 1 ensures Fresh(g, i) { FreshNext(m, i); }
      FillGoes(g, remaining - CHUNK, k - 1);
    }
  }

  // ... and the first bad one ends the refill.
  lemma {:induction false} FillStops(m: Mem, remaining: nat, k: nat)
    requires (k + 1) * CHUNK <= remaining && !Fresh(m, k) && forall i :: 0 <= i < k ==> Fresh(m, i)
    ensures FillFrom(m, remaining).1 == k * CHUNK
    decreases k
  {
    hide Fresh, FreshChunk, Grown;
    FreshFirst(m);
    if k > 0 {
      var g := Grown(m, m.supply[0]);
      FreshNext(m, k - 1);
      forall i | 0 <= i < k - 1 ensures Fresh(g, i) { FreshNext(m, i); }
      FillStops(g, remaining - CHUNK, k - 1);
    }
  }

  // Answers before the first bad one.
  function GoodAnswers(m: Mem, i: nat): (k: nat)
    ensures i <= k && !Fresh(m, k) && forall j :: i <= j < k ==> Fresh(m, j)
    decreases |m.supply| - i
  {
    if Fresh(m, i) then GoodAnswers(m, i + 1) else i
  }

  // physmem fails after some answers, but before `need` buffers are there.
  ghost predicate FailsMidway(m: Mem, need: int) {
    exists k :: 0 < k * CHUNK < need && !Fresh(m, k) && forall i :: 0 <= i < k ==> Fresh(m, i)
  }

  lemma WantedEnough(m: Mem, n: nat, k: nat)
    requires |m.free| < n && k * CHUNK < n - |m.free|
    ensures (k + 1) * CHUNK <= Wanted(m, n) && n - |m.free| <= Wanted(m, n)
  {
  }

  lemma FilledIs(m: Mem, n: nat)
    requires |m.free| < n
    ensures 0 < FillFrom(m, Wanted(m, n)).1 < n - |m.free| <==> FailsMidway(m, n - |m.free|)
  {
    var need, k := n - |m.free|, GoodAnswers(m, 0);
    hide FillFrom, Wanted, Fresh;
    forall j: nat | 0 < j * CHUNK < need && !Fresh(m, j) && forall i :: 0 <= i < j ==> Fresh(m, i)
      ensures FillFrom(m, Wanted(m, n)).1 == j * CHUNK
    {
      WantedEnough(m, n, j);
      FillStops(m, Wanted(m, n), j);
    }
    if k * CHUNK < need {
      WantedEnough(m, n, k);
      FillStops(m, Wanted(m, n), k);
    } else {
      var j := (need + CHUNK - 1) / CHUNK;
      WantedEnough(m, n, j - 1);
      FillGoes(m, Wanted(m, n), j);
    }
  }

  // The ASSERT of alloc_from_free_list fails if and only if the free list is too short and physmem's
  // answers go bad after some full chunks, but before enough of them.
  lemma AllocExact(m: Mem, ps: Packets, n: nat)
    requires Inv(m, ps)
    ensures Alloc(m, n).1 == None <==> |m.free| < n && FailsMidway(m, n - |m.free|)
  {
    hide Inv, FillFrom, Wanted, Taken, FailsMidway;
    if n > |m.free| {
      FillKeeps(m, ps, Wanted(m, n));
      FilledIs(m, n);
    }
  }

  // One buffer is there unless the free list is empty and physmem's next answer is bad.
  lemma AllocSingle(m: Mem, ps: Packets)
    requires Inv(m, ps)
    ensures Alloc(m, 1).1.Some?
    ensures Alloc(m, 1).1.value == [] <==> m.free == [] && !Fresh(m, 0)
  {
    hide Inv, FillFrom, Wanted, Taken, Fresh;
    if m.free == [] {
      FillKeeps(m, ps, Wanted(m, 1));
      WantedEnough(m, 1, 0);
      if Fresh(m, 0) { FillGoes(m, Wanted(m, 1), 1); } else { FillStops(m, Wanted(m, 1), 0); }
    }
  }

  // One chunk supplied of the three that 40 buffers need: the ASSERT fails.
  lemma AllocRunsShort()
    ensures Alloc(Mem(128, 2048, 0, map[], [], 0, map[], [seq(16, i => i)]), 40).1 == None
  {
    var chunk := seq(16, i => i);
    var m := Mem(128, 2048, 0, map[], [], 0, map[], [chunk]);
    var g := Grown(m, chunk);
    assert FreshChunk(m, 16, chunk) && g.supply == [];
    hide Grown, FreshChunk;
    GrownExtends(m, chunk, 16);
    assert FillFrom(g, 32) == (g.(supply := []), 0);
    assert FillFrom(m, 48).1 == 16;
    assert Wanted(m, 40) == 48;
  }
}
