// Exactly when appending any number of bytes does what it is for.
module BufferAppendExact {
  import opened Base
  import opened BufferSpec
  import opened BufferFree
  import opened BufferAlloc
  import opened BufferAttach
  import opened BufferAppend
  import opened BufferExtend
  import opened BufferRuns

  // ------------------------------------------------------------------------------------------
  // What appending never takes back, whatever the state: a buffer in use stays in use, no shorter, and
  // with something behind it if there was.

  ghost predicate Used(m: Mem, x: nat) {
    x in m.bufs && x !in m.free
  }

  ghost predicate Onward(m: Mem, m': Mem, x: nat) {
    && Used(m, x) && Used(m', x)
    && m'.bufs[x].currentLength >= m.bufs[x].currentLength
    && (m.bufs[x].nextPresent ==> m'.bufs[x].nextPresent)
  }

  lemma OnwardOn(m: Mem, m': Mem, m'': Mem, x: nat)
    requires Onward(m, m', x) && Onward(m', m'', x)
    ensures Onward(m, m'', x)
  {
  }

  lemma {:induction false} FillOnward(m: Mem, remaining: nat, x: nat)
    requires Used(m, x)
    ensures var g := FillFrom(m, remaining).0; Used(g, x) && g.bufs[x] == m.bufs[x]
    decreases remaining
  {
    var n := Min(remaining, CHUNK);
    hide Grown, FreshChunk;
    if remaining > 0 && m.supply != [] && FreshChunk(m, n, m.supply[0]) {
      GrownOnward(m, n, m.supply[0], x);
      FillOnward(Grown(m, m.supply[0]), remaining - n, x);
    }
  }

  lemma GrownOnward(m: Mem, n: nat, chunk: seq<nat>, x: nat)
    requires Used(m, x) && FreshChunk(m, n, chunk)
    ensures var g := Grown(m, chunk); Used(g, x) && g.bufs[x] == m.bufs[x]
  {
  }

  lemma AllocOnward(m: Mem, n: nat, x: nat)
    requires Used(m, x)
    ensures var (g, got) := Alloc(m, n);
            Onward(m, g, x) && g.bufs[x] == m.bufs[x] && (got.Some? ==> x !in got.value)
  {
    hide FillFrom, Wanted, Marked;
    if n > |m.free| { FillOnward(m, Wanted(m, n), x); }
    var f := FillFreeList(m, n).0;
    if n <= |f.free| { TailOf(f.free, |f.free| - n, x); }
  }

  lemma TailOf(s: seq<nat>, k: nat, x: nat)
    requires k <= |s| && x !in s
    ensures x !in s[k..] && x !in s[..k]
  {
  }

  lemma PutOnward(m: Mem, first: nat, last: nat, bytes: seq<u8>, x: nat)
    requires Used(m, x)
    ensures Onward(m, Put(m, first, last, bytes), x)
    ensures x == last ==> At(Put(m, first, last, bytes).bufs, x).currentLength == m.bufs[x].currentLength + |bytes|
  {
    hide Put;
    PutFields(m, first, last, bytes, x);
  }

  lemma ChainedOnward(m: Mem, last: nat, d: nat, x: nat)
    requires Used(m, x) && d != x
    ensures Onward(m, Chained(m, last, d), x)
    ensures x == last ==> At(Chained(m, last, d).bufs, x).nextPresent
  {
    hide Chained;
    assert x in Chained(m, last, d).bufs.Keys;
  }

  lemma {:induction false} AppendOnward(m: Mem, first: nat, last: nat, data: seq<u8>, x: nat)
    requires Used(m, x)
    ensures Onward(m, AppendData(m, first, last, data).m, x)
    decreases |data|, 1
  {
    hide Alloc, Chained, Room, Onward;
    if data == [] {
      OnwardSelf(m, x);
    } else if Room(m, At(m.bufs, last)) == 0 {
      var (g, got) := Alloc(m, 1);
      AllocOnward(m, 1, x);
      if got.Some? && |got.value| == 1 {
        var d := got.value[0];
        OnwardUse(m, g, x);
        ChainedOnward(g, last, d, x);
        OnwardUse(g, Chained(g, last, d), x);
        AppendSomeOnward(Chained(g, last, d), first, d, data, x);
        OnwardOn(m, g, Chained(g, last, d), x);
        OnwardOn(m, Chained(g, last, d), AppendSome(Chained(g, last, d), first, d, data).m, x);
      }
    } else {
      AppendSomeOnward(m, first, last, data, x);
    }
  }

  lemma OnwardSelf(m: Mem, x: nat)
    requires Used(m, x)
    ensures Onward(m, m, x)
  {
  }

  lemma OnwardUse(m: Mem, m': Mem, x: nat)
    requires Onward(m, m', x)
    ensures Used(m', x) && m'.bufs[x].currentLength >= m.bufs[x].currentLength
  {
  }

  lemma {:induction false} AppendSomeOnward(m: Mem, first: nat, last: nat, data: seq<u8>, x: nat)
    requires Used(m, x) && data != []
    ensures Onward(m, AppendSome(m, first, last, data).m, x)
    decreases |data|, 0
  {
    hide Put, Room, Onward;
    var len := Min(|data|, Room(m, At(m.bufs, last)));
    if len == 0 {
      OnwardSelf(m, x);
    } else {
      var p := Put(m, first, last, data[..len]);
      PutOnward(m, first, last, data[..len], x);
      OnwardUse(m, p, x);
      AppendOnward(p, first, last, data[len..], x);
      OnwardOn(m, p, AppendData(p, first, last, data[len..]).m, x);
    }
  }

  // ------------------------------------------------------------------------------------------

  // The packet has its bytes and then the first `copied` new ones; every other packet has what it had.
  ghost predicate AppendDone(m: Mem, ps: Packets, h: nat, data: seq<u8>, a: Appended)
    requires h in ps
  {
    && Inv(a.m, With(ps, h, ps[h] + a.added)) && a.copied <= |data|
    && Bytes(a.m, ps[h] + a.added) == Bytes(m, ps[h]) + data[..a.copied]
    && forall k :: k in ps && k != h ==> Bytes(a.m, ps[k]) == Bytes(m, ps[k])
  }

  lemma UnsharedDone(m: Mem, ps: Packets, h: nat, data: seq<u8>)
    requires AppendCall(m, ps, h)
    ensures h in ps && AppendDone(m, ps, h, data, AppendData(m, h, Last(ps[h]), data))
  {
    hide Inv, Bytes, AppendData, Spared, Filled, Sized, SameBytes;
    AppendKeeps(m, ps, h, data);
    var a := AppendData(m, h, Last(ps[h]), data);
    forall k | k in ps && k != h ensures Bytes(a.m, ps[k]) == Bytes(m, ps[k]) { AppendLeaves(m, ps, h, a.m, k); }
  }

  lemma NothingDone(m: Mem, ps: Packets, h: nat, data: seq<u8>, g: Mem)
    requires Inv(m, ps) && Inv(g, ps) && h in ps && g.pre == m.pre
    requires forall b :: b in m.bufs ==> b in g.bufs && g.bufs[b] == m.bufs[b]
    ensures AppendDone(m, ps, h, data, Appended(g, 0, Last(ps[h]), []))
  {
    hide Inv, Bytes;
    BuffersKept(m, ps, g);
    assert ps[h] + [] == ps[h] && data[..0] == [];
    WithSame(ps, h);
    assert Bytes(m, ps[h]) + [] == Bytes(m, ps[h]);
  }

  // With nothing copied, nothing has changed.
  lemma NoneCopied(m: Mem, ps: Packets, h: nat, data: seq<u8>)
    requires Inv(m, ps) && Sized(m) && h in ps && AppendData(m, h, Last(ps[h]), data).copied == 0
    ensures AppendDone(m, ps, h, data, AppendData(m, h, Last(ps[h]), data))
  {
    hide Inv, Alloc, Chained, Room, ChainCall, AppendDone, Sized, Put;
    var last := Last(ps[h]);
    if data == [] {
      NothingDone(m, ps, h, data, m);
    } else if Room(m, At(m.bufs, last)) == 0 {
      AllocOne(m, ps, h);
      var (g, got) := Alloc(m, 1);
      if |got.value| == 1 {
        NewHasRoom(m, ps, h, g, got.value[0]);
      } else {
        NothingDone(m, ps, h, data, g);
      }
    }
  }

  lemma {:induction false} LengthGrows(bufs: map<nat, Buffer>, c: seq<nat>, bufs': map<nat, Buffer>, x: nat)
    requires forall b :: b in c ==> At(bufs', b).currentLength >= At(bufs, b).currentLength
    ensures Length(bufs', c) >= Length(bufs, c)
    ensures x in c && At(bufs', x).currentLength > At(bufs, x).currentLength ==> Length(bufs', c) > Length(bufs, c)
    decreases |c|
  {
    if c != [] {
      assert c[0] in c && forall b :: b in c[1..] ==> b in c;
      LengthGrows(bufs, c[1..], bufs', x);
    }
  }

  // Another packet that ends in the same buffer grows with it.
  lemma OtherGrows(m: Mem, ps: Packets, k: nat, qs: Packets, m': Mem, x: nat)
    requires Inv(m, ps) && k in ps && Inv(m', qs) && k in qs && qs[k] == ps[k] && x in ps[k]
    requires forall b :: b in ps[k] ==> Onward(m, m', b)
    requires At(m'.bufs, x).currentLength > At(m.bufs, x).currentLength
    ensures Bytes(m', ps[k]) != Bytes(m, ps[k])
  {
    hide Inv, Bytes, Length;
    forall i | 0 <= i < |ps[k]| ensures ps[k][i] in m.bufs && ps[k][i] in m'.bufs { assert ps[k][i] in ps[k]; }
    Parts(m, ps);
    Parts(m', qs);
    BytesLength(m, ps[k]);
    BytesLength(m', ps[k]);
    LengthGrows(m.bufs, ps[k], m'.bufs, x);
  }

  // The first step on a shared last buffer: it gets longer, or something behind it.
  lemma FirstStep(m: Mem, ps: Packets, h: nat, data: seq<u8>)
    requires Inv(m, ps) && h in ps && Used(m, Last(ps[h])) && AppendData(m, h, Last(ps[h]), data).copied > 0
    ensures var x, m' := Last(ps[h]), AppendData(m, h, Last(ps[h]), data).m;
            x in m'.bufs && (m'.bufs[x].nextPresent || m'.bufs[x].currentLength > m.bufs[x].currentLength)
  {
    hide Inv, Alloc, Chained, Room, Put, ChainCall;
    var x := Last(ps[h]);
    if Room(m, At(m.bufs, x)) == 0 {
      AllocOnward(m, 1, x);
      var (g, got) := Alloc(m, 1);
      var d := got.value[0];
      ChainedOnward(g, x, d, x);
      AppendSomeOnward(Chained(g, x, d), h, d, data, x);
    } else {
      var len := Min(|data|, Room(m, At(m.bufs, x)));
      PutOnward(m, h, x, data[..len], x);
      AppendOnward(Put(m, h, x, data[..len]), h, x, data[len..], x);
    }
  }

  lemma SharedWrong(m: Mem, ps: Packets, h: nat, data: seq<u8>)
    requires Inv(m, ps) && h in ps && At(m.bufs, Last(ps[h])).nAddRefs > 0
    requires AppendData(m, h, Last(ps[h]), data).copied > 0
    ensures !AppendDone(m, ps, h, data, AppendData(m, h, Last(ps[h]), data))
  {
    hide Inv, AppendData, Bytes, Onward;
    var a, x := AppendData(m, h, Last(ps[h]), data), Last(ps[h]);
    var k := Sharer(m, ps, h);
    Live(m, ps, k);
    LastLink(m.bufs, k, ps[k]);
    forall b | b in ps[k] ensures Onward(m, a.m, b) {
      NotFree(m, ps, k, b);
      AppendOnward(m, h, x, data, b);
    }
    NotFree(m, ps, k, x);
    FirstStep(m, ps, h, data);
    if AppendDone(m, ps, h, data, a) {
      var qs := With(ps, h, ps[h] + a.added);
      Live(a.m, qs, k);
      LastLink(a.m.bufs, k, ps[k]);
      OtherGrows(m, ps, k, qs, a.m, x);
    }
  }

  // No byte can be taken: there is none, or no room in the last buffer, no free buffer, and no good
  // answer of physmem.
  predicate NoneFits(m: Mem, last: nat, data: seq<u8>) {
    data == [] || (Room(m, At(m.bufs, last)) == 0 && m.free == [] && !Fresh(m, 0))
  }

  lemma CopiedNothing(m: Mem, ps: Packets, h: nat, data: seq<u8>)
    requires Inv(m, ps) && Sized(m) && h in ps
    ensures AppendData(m, h, Last(ps[h]), data).copied == 0 <==> NoneFits(m, Last(ps[h]), data)
  {
    hide Inv, Alloc, Chained, Room, ChainCall, Sized, Put, Fresh;
    var last := Last(ps[h]);
    if data != [] && Room(m, At(m.bufs, last)) == 0 {
      AllocSingle(m, ps);
      AllocOne(m, ps, h);
      var (g, got) := Alloc(m, 1);
      if |got.value| == 1 { NewHasRoom(m, ps, h, g, got.value[0]); }
    }
  }

  // Appending does what it is for if and only if the packet's last buffer is unshared or no byte can be
  // taken.
  lemma AppendExact(m: Mem, ps: Packets, h: nat, data: seq<u8>)
    requires Inv(m, ps) && Sized(m) && h in ps
    ensures AppendDone(m, ps, h, data, AppendData(m, h, Last(ps[h]), data))
       <==> At(m.bufs, Last(ps[h])).nAddRefs == 0 || NoneFits(m, Last(ps[h]), data)
  {
    hide Inv, AppendData, AppendDone, Sized, NoneFits;
    CopiedNothing(m, ps, h, data);
    if At(m.bufs, Last(ps[h])).nAddRefs == 0 {
      UnsharedDone(m, ps, h, data);
    } else if AppendData(m, h, Last(ps[h]), data).copied == 0 {
      NoneCopied(m, ps, h, data);
    } else {
      SharedWrong(m, ps, h, data);
    }
  }
}
