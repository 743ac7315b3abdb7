// Chaining a new buffer, and appending any number of bytes.
module BufferExtend {
  import opened Base
  import opened BufferSpec
  import opened BufferFree
  import opened BufferAlloc
  import opened BufferClone
  import opened BufferAttach
  import opened BufferAppend

  // vlib_buffer_chain_buffer: d, a single buffer just handed out, goes behind the packet h.
  ghost predicate ChainCall(m: Mem, ps: Packets, h: nat, d: nat) {
    Inv(m, ps + Singles([d])) && h in ps && d !in ps && Users(ps, d) == {}
    && d in m.bufs && m.bufs[d] == Initialized(m.bufs[d])
  }

  lemma ChainFacts(m: Mem, ps: Packets, h: nat, d: nat)
    requires ChainCall(m, ps, h, d)
    ensures h in ps && d !in ps && Users(ps, d) == {} && d in m.bufs && m.bufs[d] == Initialized(m.bufs[d])
    ensures var qs := ps + Singles([d]);
            Inv(m, qs) && d in qs && qs[d] == [d] && forall k :: k in ps ==> k in qs && qs[k] == ps[k]
  {
    hide Inv, Users;
  }

  lemma ChainParts(m: Mem, ps: Packets, h: nat, d: nat)
    requires ChainCall(m, ps, h, d)
    ensures h in ps && PacketsOk(m, ps) && PacketOk(m.bufs, h, ps[h]) && NoRepeats(ps[h])
    ensures d in m.bufs && d !in m.free && d !in ps[h] && Last(ps[h]) != d
    ensures forall i :: 0 <= i < |ps[h]| ==> ps[h][i] in m.bufs && ps[h][i] !in m.free
    ensures m.bufs[d] == Initialized(m.bufs[d]) && Last(ps[h]) in m.bufs && Last(ps[h]) !in m.free
    ensures Inv(m, ps + Singles([d])) && h in ps + Singles([d]) && (ps + Singles([d]))[h] == ps[h]
    ensures ps[h] != [] && d !in ps && Users(ps, d) == {}
  {
    hide ChainCall, Inv, Singles, NoRepeats, LengthCoherent, Initialized;
    ChainFacts(m, ps, h, d);
    var qs := ps + Singles([d]);
    Live(m, qs, d);
    forall k | k in ps ensures PacketOk(m.bufs, k, ps[k]) { Live(m, qs, k); }
    ChainNoRepeats(m.bufs, ps[h]);
    assert d in ps[h] ==> h in Users(ps, d);
    forall i | 0 <= i < |ps[h]| ensures ps[h][i] in m.bufs && ps[h][i] !in m.free { NotFree(m, qs, h, ps[h][i]); }
  }

  lemma ChainedAt(m: Mem, last: nat, d: nat, b: nat)
    requires b in m.bufs && last != d && d in m.bufs && m.bufs[d] == Initialized(m.bufs[d])
    ensures var m' := Chained(m, last, d);
            && b in m'.bufs && SameBytes(m, m', b)
            && m'.bufs[b] == if b == last then m.bufs[b].(nextBuffer := d, nextPresent := true) else m.bufs[b]
  {
    hide Chained;
    assert b in Chained(m, last, d).bufs.Keys;
  }

  lemma ChainedLinks(m: Mem, c: seq<nat>, d: nat)
    requires IsChain(m.bufs, c) && NoRepeats(c) && d !in c && d in m.bufs && m.bufs[d] == Initialized(m.bufs[d])
    ensures IsChain(Chained(m, Last(c), d).bufs, c + [d])
  {
    hide Chained;
    var m', e := Chained(m, Last(c), d), c + [d];
    assert Last(c) in c;
    forall i | 0 <= i < |e| ensures e[i] in m'.bufs && LinkAt(m'.bufs, e, i) {
      ChainedAt(m, Last(c), d, e[i]);
      if i < |c| { assert LinkAt(m.bufs, c, i); }
    }
  }

  lemma {:induction false} ChainedBytes(m: Mem, c: seq<nat>, d: nat)
    requires c != [] && (forall i :: 0 <= i < |c| ==> c[i] in m.bufs) && d !in c
    requires d in m.bufs && m.bufs[d] == Initialized(m.bufs[d])
    ensures var m' := Chained(m, Last(c), d);
            && Bytes(m', c + [d]) == Bytes(m, c)
            && Length(m'.bufs, c[1..] + [d]) == Length(m.bufs, c[1..])
  {
    var m' := Chained(m, Last(c), d);
    assert Last(c) in c;
    ChainedAt(m, Last(c), d, d);
    hide Chained, Bytes, Length;
    forall b | b in c ensures SameBytes(m, m', b) { ChainedAt(m, Last(c), d, b); }
    ReadSame(m, m', c);
    assert forall b :: b in c[1..] ==> b in c;
    ReadSame(m, m', c[1..]);
    BytesSnoc(m', c, d);
    BytesSnoc(m', c[1..], d);
    assert Data(m', At(m'.bufs, d)) == [];
  }

  lemma ChainedPacket(m: Mem, h: nat, c: seq<nat>, d: nat)
    requires PacketOk(m.bufs, h, c) && NoRepeats(c) && d !in c
    requires d in m.bufs && m.bufs[d] == Initialized(m.bufs[d])
    ensures PacketOk(Chained(m, Last(c), d).bufs, h, c + [d])
  {
    ChainedLinks(m, c, d);
    ChainedBytes(m, c, d);
    assert Last(c) in c;
    ChainedAt(m, Last(c), d, h);
    hide Chained, Length, IsChain;
    assert (c + [d])[1..] == c[1..] + [d];
  }

  lemma UsersChained(ps: Packets, h: nat, d: nat, b: nat)
    requires h in ps && d !in ps && Users(ps, d) == {}
    ensures var qs, rs := ps + Singles([d]), With(ps, h, ps[h] + [d]);
            b != d ==> Users(rs, b) == Users(qs, b)
    ensures var qs, rs := ps + Singles([d]), With(ps, h, ps[h] + [d]);
            Users(rs, d) == {h} && Users(qs, d) == {d}
  {
    var qs, rs := ps + Singles([d]), With(ps, h, ps[h] + [d]);
    forall k ensures k in ps ==> d !in ps[k] { assert k !in Users(ps, d); }
  }

  lemma ChainedCounted(m: Mem, ps: Packets, h: nat, d: nat, b: nat)
    requires ChainCall(m, ps, h, d) && b in m.bufs
    ensures h in ps && Counted(Chained(m, Last(ps[h]), d), With(ps, h, ps[h] + [d]), b)
  {
    hide Chained, ChainCall, Inv, PacketsOk, PacketOk, NoRepeats, Users, Singles;
    ChainParts(m, ps, h, d);
    ChainedAt(m, Last(ps[h]), d, b);
    CountedOf(m, ps + Singles([d]), b);
    UsersChained(ps, h, d, b);
  }

  lemma ChainedOther(m: Mem, ps: Packets, h: nat, d: nat, k: nat)
    requires ChainCall(m, ps, h, d) && At(m.bufs, Last(ps[h])).nAddRefs == 0 && k in ps && k != h
    ensures h in ps && Kept(m.bufs, ps[k], Chained(m, Last(ps[h]), d).bufs)
  {
    hide Chained, ChainCall, Inv, PacketsOk, NoRepeats, Users, Singles, LengthCoherent;
    ChainParts(m, ps, h, d);
    PacketEnds(m.bufs, h, ps[h]);
    hide PacketOk;
    var qs, m' := ps + Singles([d]), Chained(m, Last(ps[h]), d);
    assert k in qs && qs[k] == ps[k] by { InSum(ps, d, k); }
    forall b | b in ps[k] ensures b in m.bufs && b in m'.bufs && m'.bufs[b] == m.bufs[b] {
      NotFree(m, qs, k, b);
      Apart(m, qs, h, k, b);
      ChainedAt(m, Last(ps[h]), d, b);
    }
  }

  lemma InSum(ps: Packets, d: nat, k: nat)
    requires k in ps && d !in ps
    ensures var qs := ps + Singles([d]); k in qs && qs[k] == ps[k]
  {
  }

  lemma ChainedClean(m: Mem, last: nat, d: nat)
    requires AllOk(m) && NoRepeats(m.free) && FreeClean(m) && KnownOk(m) && last in m.bufs && last != d
    requires last !in m.free && d in m.bufs && m.bufs[d] == Initialized(m.bufs[d])
    ensures var m' := Chained(m, last, d);
            AllOk(m') && NoRepeats(m'.free) && FreeClean(m') && KnownOk(m') && m'.bufs.Keys == m.bufs.Keys
  {
    hide Chained;
    var m' := Chained(m, last, d);
    forall b | b in m.bufs
      ensures b in m'.bufs && BufferOk(m, m'.bufs[b]) && (b in m.free ==> m'.bufs[b] == m.bufs[b])
    {
      ChainedAt(m, last, d, b);
    }
    assert |m'.bufs.Keys| == |m'.bufs| && |m.bufs.Keys| == |m.bufs|;
  }

  // The packet has the same bytes, a buffer more to hold others, and so has every other packet.
  ghost predicate ChainRight(m: Mem, ps: Packets, h: nat, d: nat, m': Mem)
    requires h in ps
  {
    && Inv(m', With(ps, h, ps[h] + [d])) && Bytes(m', ps[h] + [d]) == Bytes(m, ps[h])
    && forall k :: k in ps && k != h ==> Bytes(m', ps[k]) == Bytes(m, ps[k])
  }

  lemma ChainKeeps(m: Mem, ps: Packets, h: nat, d: nat)
    requires ChainCall(m, ps, h, d) && At(m.bufs, Last(ps[h])).nAddRefs == 0
    ensures h in ps && ChainRight(m, ps, h, d, Chained(m, Last(ps[h]), d))
  {
    hide Chained, ChainCall, Inv, PacketsOk, PacketOk, NoRepeats, Singles, AllOk, FreeClean, KnownOk,
         Counted, Kept, Bytes, FreeListOk, Initialized, Users;
    ChainParts(m, ps, h, d);
    Parts(m, ps + Singles([d]));
    ChainedPacket(m, h, ps[h], d);
    ChainedClean(m, Last(ps[h]), d);
    ChainedBytes(m, ps[h], d);
    var m', rs := Chained(m, Last(ps[h]), d), With(ps, h, ps[h] + [d]);
    forall k | k in rs ensures PacketOk(m'.bufs, k, rs[k]) && (k != h ==> Bytes(m', ps[k]) == Bytes(m, ps[k])) {
      if k != h {
        ChainedOther(m, ps, h, d, k);
        PacketIn(m, ps, k);
        PacketSame(m.bufs, k, ps[k], m'.bufs);
        KeptBytes(m, ps[k], m');
      }
    }
    PacketsAll(m', rs);
    forall b | b in m'.bufs ensures Counted(m', rs, b) {
      assert b in m'.bufs.Keys;
      ChainedCounted(m, ps, h, d, b);
    }
    Whole(m', rs);
  }

  // Chaining does just that if and only if the packet's last buffer is unshared.
  lemma ChainExact(m: Mem, ps: Packets, h: nat, d: nat)
    requires ChainCall(m, ps, h, d)
    ensures h in ps
    ensures ChainRight(m, ps, h, d, Chained(m, Last(ps[h]), d)) <==> At(m.bufs, Last(ps[h])).nAddRefs == 0
  {
    if At(m.bufs, Last(ps[h])).nAddRefs == 0 {
      ChainKeeps(m, ps, h, d);
    } else {
      ChainParts(m, ps, h, d);
      ChainShared(m, ps, h, d);
    }
  }

  lemma ChainShared(m: Mem, ps: Packets, h: nat, d: nat)
    requires ChainCall(m, ps, h, d) && At(m.bufs, Last(ps[h])).nAddRefs > 0
    ensures h in ps && !Inv(Chained(m, Last(ps[h]), d), With(ps, h, ps[h] + [d]))
  {
    hide Chained, ChainCall, Inv, Users, LengthCoherent, NoRepeats, PacketsOk, PacketOk, IsChain;
    ChainParts(m, ps, h, d);
    var qs := ps + Singles([d]);
    var k := Sharer(m, qs, h);
    assert k != d by { assert qs[d] == [d]; }
    var m', rs := Chained(m, Last(ps[h]), d), With(ps, h, ps[h] + [d]);
    ChainedAt(m, Last(ps[k]), d, Last(ps[k]));
    assert k in rs && rs[k] == ps[k];
    if Inv(m', rs) {
      Live(m', rs, k);
      LastLink(m'.bufs, k, ps[k]);
    }
  }

  // ------------------------------------------------------------------------------------------
  // vlib_buffer_chain_append_data_with_alloc

  // A packet whose last buffer is its own, as appending needs.
  ghost predicate AppendCall(m: Mem, ps: Packets, h: nat) {
    Inv(m, ps) && Sized(m) && h in ps && At(m.bufs, Last(ps[h])).nAddRefs == 0
  }

  // The packet holds its bytes and then the first `copied` new ones, in its buffers and the added
  // ones, each full but the last; no other buffer of any packet changed, and only a free list that
  // could not be filled left bytes over.
  ghost predicate AppendRight(m: Mem, ps: Packets, h: nat, data: seq<u8>, a: Appended)
    requires h in ps
  {
    var e := ps[h] + a.added;
    && Extended(m, ps, h, e, a) && a.copied <= |data|
    && Bytes(a.m, e) == Bytes(m, ps[h]) + data[..a.copied]
    && Spared(m, ps, Last(ps[h]), a.m)
    && Filled(a.m, e, |ps[h]| - 1)
    && (a.copied < |data| ==> a.m.free == [] && Room(a.m, At(a.m.bufs, a.last)) == 0)
  }

  ghost predicate Extended(m: Mem, ps: Packets, h: nat, e: seq<nat>, a: Appended) {
    && AppendCall(a.m, With(ps, h, e), h) && a.last == Last(e)
    && a.m.pre == m.pre && a.m.dataBytes == m.dataBytes
  }

  ghost predicate Spared(m: Mem, ps: Packets, last: nat, m': Mem) {
    forall k, b :: k in ps && b in ps[k] && b != last ==> SameBytes(m, m', b)
  }

  ghost predicate Filled(m: Mem, c: seq<nat>, from: int) {
    forall i :: 0 <= from <= i < |c| - 1 ==> Room(m, At(m.bufs, c[i])) == 0
  }

  lemma AlreadyThere(m: Mem, ps: Packets, h: nat, data: seq<u8>, g: Mem)
    requires AppendCall(m, ps, h) && Inv(g, ps) && g.pre == m.pre && g.dataBytes == m.dataBytes
    requires forall b :: b in m.bufs ==> b in g.bufs && g.bufs[b] == m.bufs[b]
    requires data == [] || (g.free == [] && Room(m, At(m.bufs, Last(ps[h]))) == 0)
    ensures h in ps && AppendRight(m, ps, h, data, Appended(g, 0, Last(ps[h]), []))
  {
    hide Inv, PacketOk, Bytes, Room, Length, Sized;
    var c := ps[h];
    assert Last(c) in c by { AppendEnds(m, ps, h); }
    NotFree(m, ps, h, Last(c));
    assert c + [] == c && With(ps, h, c) == ps && data[..0] == [];
    forall k, b | k in ps && b in ps[k] ensures b in m.bufs && SameBytes(m, g, b) { NotFree(m, ps, k, b); }
    RoomSame(m, g, Last(c));
    ReadSame(m, g, c);
    assert Bytes(m, c) + [] == Bytes(m, c);
    assert AppendCall(g, ps, h) by { assert Sized(g) by { SizedSame(m, g); } }
  }

  lemma SizedSame(m: Mem, g: Mem)
    requires Sized(m) && g.pre == m.pre && g.dataBytes == m.dataBytes
    ensures Sized(g)
  {
  }

  lemma AppendEnds(m: Mem, ps: Packets, h: nat)
    requires AppendCall(m, ps, h)
    ensures h in ps[h] && Last(ps[h]) in ps[h] && Last(ps[h]) in m.bufs
  {
    PacketIn(m, ps, h);
  }

  lemma PutSpares(m: Mem, ps: Packets, h: nat, bytes: seq<u8>)
    requires PutCall(m, ps, h, bytes)
    ensures h in ps && Spared(m, ps, Last(ps[h]), Put(m, h, Last(ps[h]), bytes))
  {
    PutInv(m, ps, h, bytes);
    hide Put, Inv, PutCall;
    forall k, b | k in ps && b in ps[k] && b != Last(ps[h])
      ensures SameBytes(m, Put(m, h, Last(ps[h]), bytes), b)
    {
      NotFree(m, ps, k, b);
      PutFields(m, h, Last(ps[h]), bytes, b);
    }
  }

  lemma PutAppendCall(m: Mem, ps: Packets, h: nat, bytes: seq<u8>)
    requires AppendCall(m, ps, h) && PutCall(m, ps, h, bytes)
    ensures h in ps && AppendCall(Put(m, h, Last(ps[h]), bytes), ps, h)
  {
    PutKeeps(m, ps, h, bytes);
    PutParts(m, ps, h, bytes);
    hide Put, Inv, Bytes, PacketOk;
    PutFields(m, h, Last(ps[h]), bytes, Last(ps[h]));
  }

  lemma Joined(b: seq<u8>, data: seq<u8>, i: nat, j: nat)
    requires i + j <= |data|
    ensures b + data[..i + j] == (b + data[..i]) + data[i..][..j]
  {
  }

  lemma PutThenBytes(m: Mem, ps: Packets, h: nat, data: seq<u8>, len: nat, r: Appended)
    requires len <= |data| && AppendCall(m, ps, h) && PutCall(m, ps, h, data[..len])
    requires AppendRight(Put(m, h, Last(ps[h]), data[..len]), ps, h, data[len..], r)
    ensures len + r.copied <= |data|
    ensures Bytes(r.m, ps[h] + r.added) == Bytes(m, ps[h]) + data[..len + r.copied]
  {
    hide Put, Inv, Bytes, PutCall, Sized, Spared, Filled, Room, Extended;
    PutKeeps(m, ps, h, data[..len]);
    Joined(Bytes(m, ps[h]), data, len, r.copied);
  }

  lemma PutThen(m: Mem, ps: Packets, h: nat, data: seq<u8>, len: nat, r: Appended)
    requires len <= |data| && AppendCall(m, ps, h) && PutCall(m, ps, h, data[..len])
    requires AppendRight(Put(m, h, Last(ps[h]), data[..len]), ps, h, data[len..], r)
    ensures h in ps && AppendRight(m, ps, h, data, r.(copied := len + r.copied))
  {
    hide Put, Inv, Bytes, PutCall, AppendCall, SameBytes, Filled, Room, PutRight, Spared;
    PutSpares(m, ps, h, data[..len]);
    PutThenBytes(m, ps, h, data, len, r);
    SparedOn(m, ps, Last(ps[h]), Put(m, h, Last(ps[h]), data[..len]), r.m);
  }

  lemma SparedOn(m: Mem, ps: Packets, last: nat, m': Mem, m'': Mem)
    requires Spared(m, ps, last, m') && Spared(m', ps, last, m'')
    ensures Spared(m, ps, last, m'')
  {
    forall k, b | k in ps && b in ps[k] && b != last ensures SameBytes(m, m'', b) {
      assert SameBytes(m, m', b) && SameBytes(m', m'', b);
    }
  }

  // A buffer taken from the free list and chained, then the rest of the data appended.
  lemma ChainThen(m: Mem, ps: Packets, h: nat, data: seq<u8>, g: Mem, d: nat, r: Appended)
    requires AppendCall(m, ps, h) && ChainCall(g, ps, h, d) && g.pre == m.pre && g.dataBytes == m.dataBytes
    requires forall b :: b in m.bufs ==> b in g.bufs && g.bufs[b] == m.bufs[b]
    requires Room(m, At(m.bufs, Last(ps[h]))) == 0
    requires ChainRight(g, ps, h, d, Chained(g, Last(ps[h]), d))
    requires AppendRight(Chained(g, Last(ps[h]), d), With(ps, h, ps[h] + [d]), h, data, r)
    ensures h in ps && AppendRight(m, ps, h, data, r.(added := [d] + r.added))
  {
    assert h in ps;
    hide Chained, Inv, ChainCall, AppendCall, Bytes, PacketOk, PacketsOk, Room, Spared, Singles, Extended,
         Filled, SameBytes;
    ChainSpares(m, ps, h, g, d, r.m);
    SameStart(m, ps, h, g);
    AppendEnds(m, ps, h);
    ChainJoin(m, ps, h, data, Chained(g, Last(ps[h]), d), d, r);
  }

  lemma ChainJoin(m: Mem, ps: Packets, h: nat, data: seq<u8>, x: Mem, d: nat, r: Appended)
    requires h in ps && ps[h] != [] && Room(m, At(m.bufs, Last(ps[h]))) == 0
    requires Bytes(x, ps[h] + [d]) == Bytes(m, ps[h]) && x.pre == m.pre && x.dataBytes == m.dataBytes
    requires Spared(m, ps, Last(ps[h]), r.m) && SameBytes(m, r.m, Last(ps[h]))
    requires AppendRight(x, With(ps, h, ps[h] + [d]), h, data, r)
    ensures AppendRight(m, ps, h, data, r.(added := [d] + r.added))
  {
    hide Inv, AppendCall, Bytes, Room, Spared, SameBytes, Filled;
    var c := ps[h];
    Associative(c, [d], r.added);
    FilledOn(m, c, d, r.added, r.m);
    assert With(ps, h, c + [d])[h := c + ([d] + r.added)] == With(ps, h, c + ([d] + r.added));
  }

  lemma SameStart(m: Mem, ps: Packets, h: nat, g: Mem)
    requires AppendCall(m, ps, h) && g.pre == m.pre
    requires forall b :: b in m.bufs ==> b in g.bufs && g.bufs[b] == m.bufs[b]
    ensures Bytes(g, ps[h]) == Bytes(m, ps[h])
  {
    forall b | b in ps[h] ensures SameBytes(m, g, b) { PacketBuffers(m, ps, h, b); }
    ReadSame(m, g, ps[h]);
  }

  lemma FilledOn(m: Mem, c: seq<nat>, d: nat, added: seq<nat>, m': Mem)
    requires c != [] && SameBytes(m, m', Last(c)) && m'.dataBytes == m.dataBytes
    requires Room(m, At(m.bufs, Last(c))) == 0 && Filled(m', (c + [d]) + added, |c + [d]| - 1)
    ensures Filled(m', c + ([d] + added), |c| - 1)
  {
    RoomSame(m, m', Last(c));
    hide Room, SameBytes;
    Associative(c, [d], added);
    assert (c + ([d] + added))[|c| - 1] == Last(c);
  }

  lemma RoomSame(m: Mem, m': Mem, b: nat)
    requires SameBytes(m, m', b) && m'.dataBytes == m.dataBytes
    ensures Room(m', At(m'.bufs, b)) == Room(m, At(m.bufs, b))
  {
  }

  lemma PacketBuffers(m: Mem, ps: Packets, k: nat, b: nat)
    requires AppendCall(m, ps, k) && b in ps[k]
    ensures b in m.bufs
  {
    NotFree(m, ps, k, b);
  }

  lemma ChainSpares(m: Mem, ps: Packets, h: nat, g: Mem, d: nat, m': Mem)
    requires AppendCall(m, ps, h) && ChainCall(g, ps, h, d)
    requires forall b :: b in m.bufs ==> b in g.bufs && g.bufs[b] == m.bufs[b]
    requires Spared(Chained(g, Last(ps[h]), d), With(ps, h, ps[h] + [d]), d, m')
    ensures forall k, b :: k in ps && b in ps[k] ==> SameBytes(m, m', b)
    ensures Spared(m, ps, Last(ps[h]), m')
  {
    hide Chained, Inv, ChainCall, PacketOk, NoRepeats, PacketsOk, Singles, Sized;
    ChainParts(g, ps, h, d);
    var x := Chained(g, Last(ps[h]), d);
    forall k, b | k in ps && b in ps[k] ensures SameBytes(m, m', b) {
      NotFree(m, ps, k, b);
      assert b != d by { assert k in Users(ps, b); }
      ChainedAt(g, Last(ps[h]), d, b);
      assert b in With(ps, h, ps[h] + [d])[k];
      assert SameBytes(x, m', b);
    }
  }

  // One buffer asked of the free list: got, or there is none left.
  lemma AllocOne(m: Mem, ps: Packets, h: nat)
    requires Inv(m, ps) && h in ps
    ensures var (g, got) := Alloc(m, 1);
            && g.pre == m.pre && g.dataBytes == m.dataBytes
            && (forall b :: b in m.bufs ==> b in g.bufs && g.bufs[b] == m.bufs[b])
            && got.Some? && |got.value| <= 1
            && (|got.value| == 1 ==> ChainCall(g, ps, h, got.value[0]))
            && (got.value == [] ==> Inv(g, ps) && g.free == [])
  {
    hide Inv, Alloc, Fresh, HandedOut, ChainCall;
    AllocKeeps(m, ps, 1);
    AllocSingle(m, ps);
    var (g, got) := Alloc(m, 1);
    assert g.pre == m.pre && g.dataBytes == m.dataBytes && |got.value| <= 1
      && (forall b :: b in m.bufs ==> b in g.bufs && g.bufs[b] == m.bufs[b]) by { HandedOutOne(m, ps, g, got.value); }
    if got.value == [] {
      NoSingles(ps);
      AllocNone(m, ps, 1);
    } else {
      assert got.value == [got.value[0]];
      OneCall(m, ps, h, g, got.value[0]);
    }
  }

  lemma HandedOutOne(m: Mem, ps: Packets, g: Mem, ds: seq<nat>)
    requires HandedOut(m, ps, 1, g, ds)
    ensures g.pre == m.pre && g.dataBytes == m.dataBytes && |ds| <= 1
    ensures forall b :: b in m.bufs ==> b in g.bufs && g.bufs[b] == m.bufs[b]
  {
  }

  lemma OneCall(m: Mem, ps: Packets, h: nat, g: Mem, d: nat)
    requires HandedOut(m, ps, 1, g, [d]) && Inv(g, ps + Singles([d])) && h in ps
    ensures ChainCall(g, ps, h, d)
  {
    hide Inv, Users;
    assert d in [d];
  }

  lemma AllocNone(m: Mem, ps: Packets, n: nat)
    requires Inv(m, ps) && 0 < n && Alloc(m, n).1 == Some([])
    ensures |Alloc(m, n).0.free| == |m.free| < n
  {
    hide Inv, FillFrom, Wanted;
    if n > |m.free| { FillKeeps(m, ps, Wanted(m, n)); }
  }

  // Appending ends, and does what it is for, whatever the length and however often physmem fails.
  lemma {:induction false} AppendKeeps(m: Mem, ps: Packets, h: nat, data: seq<u8>)
    requires AppendCall(m, ps, h)
    ensures h in ps && AppendRight(m, ps, h, data, AppendData(m, h, Last(ps[h]), data))
    decreases |data|, 1
  {
    assert h in ps && Inv(m, ps);
    hide AppendRight, Inv, Chained, Put, AppendCall, Room, Alloc;
    var last := Last(ps[h]);
    if data == [] {
      AlreadyThere(m, ps, h, data, m);
    } else if Room(m, At(m.bufs, last)) == 0 {
      AllocOne(m, ps, h);
      var (g, got) := Alloc(m, 1);
      if |got.value| == 1 {
        var d := got.value[0];
        ChainedCall(m, ps, h, g, d);
        var qs := With(ps, h, ps[h] + [d]);
        assert Last(qs[h]) == d;
        AppendSomeKeeps(Chained(g, last, d), qs, h, data);
        ChainThen(m, ps, h, data, g, d, AppendSome(Chained(g, last, d), h, d, data));
      } else {
        AlreadyThere(m, ps, h, data, g);
      }
    } else {
      AppendSomeKeeps(m, ps, h, data);
    }
  }

  // The state after chaining a new buffer, which has room.
  lemma ChainedCall(m: Mem, ps: Packets, h: nat, g: Mem, d: nat)
    requires AppendCall(m, ps, h) && ChainCall(g, ps, h, d) && g.pre == m.pre && g.dataBytes == m.dataBytes
    requires forall b :: b in m.bufs ==> b in g.bufs && g.bufs[b] == m.bufs[b]
    ensures h in ps
    ensures var x, qs := Chained(g, Last(ps[h]), d), With(ps, h, ps[h] + [d]);
            && ChainRight(g, ps, h, d, x) && AppendCall(x, qs, h) && Last(qs[h]) == d
            && Room(x, At(x.bufs, d)) != 0
  {
    assert h in ps && Sized(m) && At(m.bufs, Last(ps[h])).nAddRefs == 0;
    hide Inv, Chained, PacketsOk, PacketOk, NoRepeats, Users, Singles, ChainCall, Bytes, AppendCall, Sized, Room;
    AppendEnds(m, ps, h);
    ChainKeeps(g, ps, h, d);
    NewHasRoom(m, ps, h, g, d);
    SizedSame(m, g);
    assert AppendCall(Chained(g, Last(ps[h]), d), With(ps, h, ps[h] + [d]), h) by {
      AppendCallIs(Chained(g, Last(ps[h]), d), With(ps, h, ps[h] + [d]), h, d);
    }
  }

  lemma AppendCallIs(m: Mem, ps: Packets, h: nat, d: nat)
    requires Inv(m, ps) && Sized(m) && h in ps && Last(ps[h]) == d && At(m.bufs, d).nAddRefs == 0
    ensures AppendCall(m, ps, h)
  {
  }

  lemma NewHasRoom(m: Mem, ps: Packets, h: nat, g: Mem, d: nat)
    requires Sized(m) && h in ps && ChainCall(g, ps, h, d) && g.pre == m.pre && g.dataBytes == m.dataBytes
    ensures var x := Chained(g, Last(ps[h]), d);
            At(x.bufs, d).nAddRefs == 0 && Room(x, At(x.bufs, d)) != 0 && Sized(x)
  {
    hide Inv, Chained, Users, Singles;
    ChainParts(g, ps, h, d);
    ChainedAt(g, Last(ps[h]), d, d);
    SizedSame(m, g);
  }

  lemma SomeCall(m: Mem, ps: Packets, h: nat, data: seq<u8>)
    requires AppendCall(m, ps, h) && data != [] && Room(m, At(m.bufs, Last(ps[h]))) != 0
    ensures var len := Min(|data|, Room(m, At(m.bufs, Last(ps[h]))));
            0 < len && PutCall(m, ps, h, data[..len]) && AppendCall(Put(m, h, Last(ps[h]), data[..len]), ps, h)
  {
    hide Inv, Put;
    PutAppendCall(m, ps, h, data[..Min(|data|, Room(m, At(m.bufs, Last(ps[h]))))]);
  }

  lemma AppendSomeIs(m: Mem, first: nat, last: nat, data: seq<u8>, len: nat)
    requires data != [] && 0 < len == Min(|data|, Room(m, At(m.bufs, last)))
    ensures var r := AppendData(Put(m, first, last, data[..len]), first, last, data[len..]);
            AppendSome(m, first, last, data) == r.(copied := len + r.copied)
  {
  }

  lemma {:induction false} AppendSomeKeeps(m: Mem, ps: Packets, h: nat, data: seq<u8>)
    requires AppendCall(m, ps, h) && data != [] && Room(m, At(m.bufs, Last(ps[h]))) != 0
    ensures h in ps && AppendRight(m, ps, h, data, AppendSome(m, h, Last(ps[h]), data))
    decreases |data|, 0
  {
    assert h in ps;
    hide AppendRight, Inv, Put, AppendCall, PutCall, Room, AppendData, AppendSome, Sized;
    var last := Last(ps[h]);
    var len := Min(|data|, Room(m, At(m.bufs, last)));
    SomeCall(m, ps, h, data);
    var x := Put(m, h, last, data[..len]);
    AppendKeeps(x, ps, h, data[len..]);
    AppendSomeIs(m, h, last, data, len);
    var r := AppendData(x, h, last, data[len..]);
    PutThen(m, ps, h, data, len, r);
    assert AppendRight(m, ps, h, data, r.(copied := len + r.copied));
    assert AppendSome(m, h, last, data) == r.(copied := len + r.copied);
  }
}
