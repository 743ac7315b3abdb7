// Freeing a packet keeps the ownership invariant.
module BufferFree {
  import opened BufferSpec

  // Links determine the rest of a chain, so none repeats a buffer.
  lemma {:induction false} ChainUnique(bufs: map<nat, Buffer>, c: seq<nat>, d: seq<nat>)
    requires IsChain(bufs, c) && IsChain(bufs, d) && c[0] == d[0]
    ensures c == d
    decreases |c|
  {
    assert LinkAt(bufs, c, 0) && LinkAt(bufs, d, 0);
    if |c| > 1 {
      ChainTail(bufs, c, 1);
      ChainTail(bufs, d, 1);
      ChainUnique(bufs, c[1..], d[1..]);
    }
    assert c == [c[0]] + c[1..] && d == [d[0]] + d[1..];
  }

  lemma ChainTail(bufs: map<nat, Buffer>, c: seq<nat>, k: nat)
    requires IsChain(bufs, c) && k < |c|
    ensures IsChain(bufs, c[k..])
  {
    var d := c[k..];
    forall i | 0 <= i < |d| ensures LinkAt(bufs, d, i) { assert LinkAt(bufs, c, k + i); }
  }

  lemma ChainNoRepeats(bufs: map<nat, Buffer>, c: seq<nat>)
    requires IsChain(bufs, c)
    ensures NoRepeats(c)
  {
    forall i, j | 0 <= i < j < |c| ensures c[i] != c[j] {
      if c[i] == c[j] {
        ChainTail(bufs, c, i);
        ChainTail(bufs, c, j);
        ChainUnique(bufs, c[i..], c[j..]);
      }
    }
  }

  // A chain none of whose buffers' links changed is still that chain.
  lemma ChainSame(bufs: map<nat, Buffer>, c: seq<nat>, bufs': map<nat, Buffer>)
    requires IsChain(bufs, c)
    requires forall b :: b in c ==> b in bufs' && bufs'[b].nextPresent == bufs[b].nextPresent
                                    && bufs'[b].nextBuffer == bufs[b].nextBuffer
    ensures IsChain(bufs', c)
  {
    forall i | 0 <= i < |c| ensures LinkAt(bufs', c, i) {
      assert LinkAt(bufs, c, i);
      assert c[i] in c;
      if i + 1 < |c| { assert c[i + 1] in c; }
    }
  }

  lemma {:induction false} LengthSame(bufs: map<nat, Buffer>, c: seq<nat>, bufs': map<nat, Buffer>)
    requires forall b :: b in c ==> At(bufs', b).currentLength == At(bufs, b).currentLength
    ensures Length(bufs', c) == Length(bufs, c)
  {
    if c != [] {
      assert forall b :: b in c[1..] ==> b in c;
      LengthSame(bufs, c[1..], bufs');
    }
  }

  // The buffers of a packet differ in their counts at most.
  ghost predicate Kept(bufs: map<nat, Buffer>, c: seq<nat>, bufs': map<nat, Buffer>) {
    forall b :: b in c ==> b in bufs && b in bufs' && bufs'[b] == bufs[b].(nAddRefs := bufs'[b].nAddRefs)
  }

  lemma PacketSame(bufs: map<nat, Buffer>, h: nat, c: seq<nat>, bufs': map<nat, Buffer>)
    requires PacketOk(bufs, h, c) && Kept(bufs, c, bufs')
    ensures PacketOk(bufs', h, c)
  {
    ChainSame(bufs, c, bufs');
    assert c[0] in c;
    assert forall b :: b in c[1..] ==> b in c;
    LengthSame(bufs, c[1..], bufs');
  }

  lemma UsersWithout(ps: Packets, h: nat, b: nat)
    requires h in ps
    ensures Users(ps - {h}, b) == Users(ps, b) - {h}
    ensures b in ps[h] ==> h in Users(ps, b) && |Users(ps - {h}, b)| == |Users(ps, b)| - 1
    ensures b !in ps[h] ==> Users(ps - {h}, b) == Users(ps, b)
  {
  }

  lemma {:induction false} UnsharedNoRepeats(bufs: map<nat, Buffer>, c: seq<nat>)
    requires NoRepeats(c)
    ensures NoRepeats(Unshared(bufs, c))
  {
    if c != [] {
      UnsharedNoRepeats(bufs, c[1..]);
      assert c[0] !in c[1..];
    }
  }

  // A buffer of one packet that another packet passes through too has references to spare.
  lemma SharedKept(m: Mem, ps: Packets, h: nat, k: nat, b: nat)
    requires Inv(m, ps) && h in ps && k in ps && h != k && b in ps[h] && b in ps[k]
    ensures b in m.bufs && m.bufs[b].nAddRefs > 0
  {
    var i :| 0 <= i < |ps[h]| && ps[h][i] == b;
    assert k in Users(ps, b) - {h} && h in Users(ps, b);
    assert |Users(ps, b)| == |Users(ps, b) - {h}| + 1;
  }

  lemma FreeOther(m: Mem, ps: Packets, h: nat, k: nat)
    requires Inv(m, ps) && h in ps && k in ps && k != h
    ensures Kept(m.bufs, ps[k], FreePacket(m, ps[h]).bufs)
  {
    forall b | b in ps[k]
      ensures var bufs' := FreePacket(m, ps[h]).bufs;
              b in m.bufs && b in bufs' && bufs'[b] == m.bufs[b].(nAddRefs := bufs'[b].nAddRefs)
    {
      NotFree(m, ps, k, b);
      if b in ps[h] { SharedKept(m, ps, h, k, b); }
    }
  }

  lemma FreePacketsOk(m: Mem, ps: Packets, h: nat)
    requires Inv(m, ps) && h in ps
    ensures PacketsOk(FreePacket(m, ps[h]), ps - {h})
  {
    hide FreePacket;
    var m', qs := FreePacket(m, ps[h]), ps - {h};
    forall k | k in qs ensures PacketOk(m'.bufs, k, qs[k]) {
      FreeOther(m, ps, h, k);
      PacketSame(m.bufs, k, ps[k], m'.bufs);
    }
  }

  lemma FreeCounted(m: Mem, ps: Packets, h: nat, b: nat)
    requires Inv(m, ps) && h in ps && b in m.bufs
    ensures Counted(FreePacket(m, ps[h]), ps - {h}, b)
  {
    hide Unshared, Marked, IsChain, NoRepeats, LengthCoherent, BufferOk;
    assert Counted(m, ps, b);
    UsersWithout(ps, h, b);
    assert b in ps[h] ==> h in Users(ps, b);
  }

  lemma NoRepeatsJoin(a: seq<nat>, b: seq<nat>)
    requires NoRepeats(a) && NoRepeats(b) && forall x :: x in a ==> x !in b
    ensures NoRepeats(a + b)
  {
    forall i, j | 0 <= i < j < |a + b| ensures (a + b)[i] != (a + b)[j] {
      if i < |a| <= j { assert a[i] in a && b[j - |a|] in b; }
    }
  }

  lemma NotFree(m: Mem, ps: Packets, h: nat, b: nat)
    requires Inv(m, ps) && h in ps && b in ps[h]
    ensures b in m.bufs && b !in m.free
  {
    var i :| 0 <= i < |ps[h]| && ps[h][i] == b;
    assert Counted(m, ps, b);
    assert h in Users(ps, b);
  }

  lemma Live(m: Mem, ps: Packets, h: nat)
    requires Inv(m, ps) && h in ps
    ensures PacketOk(m.bufs, h, ps[h]) && ps[h] != [] && ps[h][0] == h && h in m.bufs && h !in m.free
  {
    assert PacketOk(m.bufs, h, ps[h]);
    hide LengthCoherent;
    NotFree(m, ps, h, h);
  }

  lemma FreeListKept(m: Mem, ps: Packets, h: nat)
    requires Inv(m, ps) && h in ps
    ensures FreeListOk(FreePacket(m, ps[h]))
  {
    var c, gone := ps[h], Unshared(m.bufs, ps[h]);
    var m' := FreePacket(m, c);
    ChainNoRepeats(m.bufs, c);
    UnsharedNoRepeats(m.bufs, c);
    forall b | b in c ensures b in m.bufs && b !in m.free { NotFree(m, ps, h, b); }
    NoRepeatsJoin(m.free, gone);
    FreeListAfter(m, c);
  }

  lemma FreeListAfter(m: Mem, c: seq<nat>)
    requires FreeClean(m) && KnownOk(m)
    requires (forall i :: 0 <= i < |c| ==> c[i] in m.bufs) && forall b :: b in c ==> b !in m.free
    ensures FreeClean(FreePacket(m, c)) && KnownOk(FreePacket(m, c))
  {
    hide Unshared;
    var m', gone := FreePacket(m, c), Unshared(m.bufs, c);
    assert forall b :: b in m'.free <==> b in m.free || b in gone;
    assert forall b :: b in c ==> b in m.bufs;
    assert m'.bufs.Keys == m.bufs.Keys && m'.known.Keys == m.known.Keys;
    assert |m'.bufs.Keys| == |m'.bufs| && |m.bufs.Keys| == |m.bufs|;
  }

  lemma FreeAllOk(m: Mem, c: seq<nat>)
    requires AllOk(m)
    ensures AllOk(FreePacket(m, c)) && FreePacket(m, c).bufs.Keys == m.bufs.Keys
  {
  }

  // Freeing a packet: every other packet is untouched, every count right, and the buffers nobody
  // else uses are on the free list, once each.
  lemma FreeKeeps(m: Mem, ps: Packets, h: nat)
    requires Inv(m, ps) && h in ps
    ensures Inv(FreePacket(m, ps[h]), ps - {h})
  {
    var m' := FreePacket(m, ps[h]);
    FreePacketsOk(m, ps, h);
    FreeListKept(m, ps, h);
    FreeAllOk(m, ps[h]);
    hide FreeListOk, PacketsOk, AllOk, FreePacket, Counted;
    forall b | b in m'.bufs ensures Counted(m', ps - {h}, b) {
      assert b in m'.bufs.Keys;
      FreeCounted(m, ps, h, b);
    }
  }

  lemma Parts(m: Mem, ps: Packets)
    requires Inv(m, ps)
    ensures AllOk(m) && FreeListOk(m) && PacketsOk(m, ps)
    ensures NoRepeats(m.free) && FreeClean(m) && KnownOk(m)
  {
  }

  lemma Whole(m: Mem, ps: Packets)
    requires AllOk(m) && NoRepeats(m.free) && FreeClean(m) && KnownOk(m) && PacketsOk(m, ps)
    requires forall b :: b in m.bufs ==> Counted(m, ps, b)
    ensures Inv(m, ps)
  {
  }
}
