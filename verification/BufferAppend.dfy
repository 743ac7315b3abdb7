// Building packets: appending bytes, chaining buffers, and the cached length of a chain.
module BufferAppend {
  import opened Base
  import opened BufferSpec
  import opened BufferFree
  import opened BufferAlloc
  import opened BufferCopy
  import opened BufferClone

  function Last(c: seq<nat>): nat {
    if c == [] then 0 else c[|c| - 1]
  }

  // Buffers' bytes fit 16-bit lengths, and a new buffer has room.
  ghost predicate Sized(m: Mem) {
    0 < m.dataBytes && m.pre + m.dataBytes < U16_RANGE
  }

  // ------------------------------------------------------------------------------------------
  // The cached length

  lemma {:induction false} BytesLength(m: Mem, c: seq<nat>)
    requires AllOk(m) && forall i :: 0 <= i < |c| ==> c[i] in m.bufs
    ensures |Bytes(m, c)| == Length(m.bufs, c)
  {
    if c != [] { BytesLength(m, c[1..]); }
  }

  // Whatever the flags say, the length reported is the number of bytes in the packet.
  lemma LengthExact(m: Mem, ps: Packets, h: nat)
    requires Inv(m, ps) && h in ps
    ensures ps[h] != [] && h == ps[h][0] && h in m.bufs
    ensures LengthInChain(m, ps[h]) == |Bytes(m, ps[h])|
  {
    BytesLength(m, ps[h]);
    assert PacketOk(m.bufs, h, ps[h]) && LinkAt(m.bufs, ps[h], 0);
  }

  // A packet whose links, lengths and cached length did not change is as it was.
  ghost predicate Alike(bufs: map<nat, Buffer>, c: seq<nat>, bufs': map<nat, Buffer>, b: nat) {
    && b in bufs && b in bufs'
    && bufs'[b].nextPresent == bufs[b].nextPresent && bufs'[b].nextBuffer == bufs[b].nextBuffer
    && bufs'[b].currentLength == bufs[b].currentLength
    && (c != [] && b == c[0] ==> bufs'[b].totalRest == bufs[b].totalRest
                                 && bufs'[b].totalLengthValid == bufs[b].totalLengthValid)
  }

  lemma PacketAlike(bufs: map<nat, Buffer>, h: nat, c: seq<nat>, bufs': map<nat, Buffer>)
    requires PacketOk(bufs, h, c) && forall b :: b in c ==> Alike(bufs, c, bufs', b)
    ensures PacketOk(bufs', h, c)
  {
    ChainSame(bufs, c, bufs');
    assert c[0] in c;
    assert forall b :: b in c[1..] ==> b in c;
    LengthSame(bufs, c[1..], bufs');
  }

  // A change of buffers that leaves counts and free buffers alone.
  ghost predicate Edited(m: Mem, m': Mem, b: nat) {
    && b in m.bufs && b in m'.bufs && m'.bufs[b].nAddRefs == m.bufs[b].nAddRefs
    && BufferOk(m, m'.bufs[b]) && (b in m.free ==> m'.bufs[b] == m.bufs[b])
  }

  lemma EditedCounted(m: Mem, ps: Packets, qs: Packets, m': Mem, b: nat)
    requires Counted(m, ps, b) && Edited(m, m', b) && m'.free == m.free && Users(qs, b) == Users(ps, b)
    ensures Counted(m', qs, b)
  {
    hide Users;
  }

  lemma EditedAllOk(m: Mem, m': Mem)
    requires m' == m.(bufs := m'.bufs) && m'.bufs.Keys == m.bufs.Keys
    requires forall b :: b in m.bufs ==> Edited(m, m', b)
    ensures AllOk(m')
  {
    forall b | b in m'.bufs ensures BufferOk(m', m'.bufs[b]) {
      assert b in m'.bufs.Keys && Edited(m, m', b);
    }
  }

  lemma EditedFree(m: Mem, m': Mem)
    requires FreeClean(m) && KnownOk(m) && m' == m.(bufs := m'.bufs) && m'.bufs.Keys == m.bufs.Keys
    requires forall b :: b in m.bufs ==> Edited(m, m', b)
    ensures FreeClean(m') && KnownOk(m')
  {
    assert |m'.bufs.Keys| == |m'.bufs| && |m.bufs.Keys| == |m.bufs|;
  }

  lemma EditedKeeps(m: Mem, ps: Packets, m': Mem, qs: Packets)
    requires Inv(m, ps) && m' == m.(bufs := m'.bufs) && m'.bufs.Keys == m.bufs.Keys
    requires forall b :: b in m.bufs ==> Edited(m, m', b)
    requires PacketsOk(m', qs) && forall b :: b in m.bufs ==> Users(qs, b) == Users(ps, b)
    ensures Inv(m', qs)
  {
    hide PacketsOk, AllOk, NoRepeats, FreeClean, KnownOk, Users, Edited, Inv, Counted;
    Parts(m, ps);
    EditedFree(m, m');
    EditedAllOk(m, m');
    forall b | b in m'.bufs ensures Counted(m', qs, b) {
      assert b in m'.bufs.Keys;
      CountedOf(m, ps, b);
      EditedCounted(m, ps, qs, m', b);
    }
    Whole(m', qs);
  }

  lemma MeasuredPacket(m: Mem, h: nat, c: seq<nat>, k: nat, d: seq<nat>)
    requires PacketOk(m.bufs, h, c) && PacketOk(m.bufs, k, d) && (k == h ==> c == d)
    ensures h in m.bufs && PacketOk(Measured(m, c).bufs, k, d)
  {
    var m' := Measured(m, c);
    if k != h {
      forall b | b in d ensures Alike(m.bufs, d, m'.bufs, b) {}
      PacketAlike(m.bufs, k, d, m'.bufs);
    } else {
      ChainSame(m.bufs, c, m'.bufs);
      LengthSame(m.bufs, c[1..], m'.bufs);
      assert LinkAt(m.bufs, c, 0);
    }
  }

  // Buffer b holds the same bytes in both memories.
  ghost predicate SameBytes(m: Mem, m': Mem, b: nat) {
    var x, y := At(m.bufs, b), At(m'.bufs, b);
    x.currentData == y.currentData && x.currentLength == y.currentLength && x.mem == y.mem
  }

  lemma {:induction false} ReadSame(m: Mem, m': Mem, c: seq<nat>)
    requires m'.pre == m.pre && forall b :: b in c ==> SameBytes(m, m', b)
    ensures Bytes(m', c) == Bytes(m, c) && Length(m'.bufs, c) == Length(m.bufs, c)
  {
    forall i | 0 <= i < |c| ensures SameData(m, c, m', c, i) {
      assert SameBytes(m, m', c[i]);
    }
    BytesMatch(m, c, m', c);
  }

  lemma MeasuredAt(m: Mem, c: seq<nat>, b: nat)
    requires AllOk(m) && c != [] && c[0] in m.bufs && c[0] !in m.free && b in m.bufs
    ensures Edited(m, Measured(m, c), b) && SameBytes(m, Measured(m, c), b)
  {
    assert BufferOk(m, m.bufs[b]);
    hide AllOk, Length;
  }

  lemma MeasuredIs(m: Mem, c: seq<nat>)
    requires c != [] && c[0] in m.bufs
    ensures var m' := Measured(m, c);
            m' == m.(bufs := m'.bufs) && m'.bufs.Keys == m.bufs.Keys && LengthIsCached(m'.bufs[c[0]])
  {
  }

  // Measuring a packet keeps the invariant and every packet's bytes; the length is cached after it.
  lemma MeasuredKeeps(m: Mem, ps: Packets, h: nat)
    requires Inv(m, ps) && h in ps
    ensures ps[h] != [] && ps[h][0] in m.bufs
    ensures var m' := Measured(m, ps[h]);
            && Inv(m', ps) && LengthIsCached(m'.bufs[ps[h][0]])
            && forall k :: k in ps ==> Bytes(m', ps[k]) == Bytes(m, ps[k])
  {
    hide Measured, Inv, PacketOk, Edited, SameBytes, Bytes, LengthIsCached;
    Live(m, ps, h);
    MeasuredIs(m, ps[h]);
    var m' := Measured(m, ps[h]);
    forall b | b in m.bufs ensures Edited(m, m', b) && SameBytes(m, m', b) {
      Parts(m, ps);
      MeasuredAt(m, ps[h], b);
    }
    forall k | k in ps ensures PacketOk(m'.bufs, k, ps[k]) {
      Live(m, ps, k);
      MeasuredPacket(m, h, ps[h], k, ps[k]);
    }
    PacketsAll(m', ps);
    EditedKeeps(m, ps, m', ps);
    forall k | k in ps ensures Bytes(m', ps[k]) == Bytes(m, ps[k]) {
      forall b | b in ps[k] ensures SameBytes(m, m', b) { NotFree(m, ps, k, b); }
      ReadSame(m, m', ps[k]);
    }
  }

  // ------------------------------------------------------------------------------------------
  // Writing behind the data of the last buffer

  lemma {:induction false} BytesSnoc(m: Mem, c: seq<nat>, b: nat)
    ensures Bytes(m, c + [b]) == Bytes(m, c) + Data(m, At(m.bufs, b))
    ensures Length(m.bufs, c + [b]) == Length(m.bufs, c) + At(m.bufs, b).currentLength
  {
    if c == [] {
      assert c + [b] == [b] && [b][1..] == [];
    } else {
      BytesSnoc(m, c[1..], b);
      assert (c + [b])[1..] == c[1..] + [b];
      Associative(Data(m, At(m.bufs, c[0])), Bytes(m, c[1..]), Data(m, At(m.bufs, b)));
    }
  }

  lemma PutData(m: Mem, first: nat, last: nat, bytes: seq<u8>)
    requires Sized(m) && last in m.bufs && BufferOk(m, m.bufs[last]) && |bytes| <= Room(m, m.bufs[last])
    ensures var x := PutBuffer(m, first, last, bytes, last);
            BufferOk(m, x) && Data(m, x) == Data(m, m.bufs[last]) + bytes
  {
  }

  // A chain's bytes after a write behind its last buffer.
  lemma {:induction false} PutBytes(m: Mem, first: nat, c: seq<nat>, bytes: seq<u8>)
    requires Sized(m) && c != [] && NoRepeats(c) && forall i :: 0 <= i < |c| ==> c[i] in m.bufs
    requires BufferOk(m, m.bufs[Last(c)]) && |bytes| <= Room(m, m.bufs[Last(c)])
    ensures var m' := Put(m, first, Last(c), bytes);
            Bytes(m', c) == Bytes(m, c) + bytes && Length(m'.bufs, c) == Length(m.bufs, c) + |bytes|
  {
    var last, front := Last(c), c[..|c| - 1];
    var m' := Put(m, first, last, bytes);
    hide Put, Bytes, Length, Data;
    assert c == front + [last];
    assert m'.bufs[last] == PutBuffer(m, first, last, bytes, last) by { assert last in m.bufs; }
    PutData(m, first, last, bytes);
    assert Data(m', m'.bufs[last]) == Data(m, m'.bufs[last]) by { SameView(m, m', m'.bufs[last]); }
    forall i | 0 <= i < |front| ensures SameData(m, front, m', front, i) {
      assert front[i] == c[i] && c[i] in m.bufs && c[i] != last;
      SameView(m, m', m'.bufs[c[i]]);
      FieldsView(m, m'.bufs[c[i]], m.bufs[c[i]]);
    }
    BytesMatch(m, front, m', front);
    BytesSnoc(m, front, last);
    BytesSnoc(m', front, last);
    Associative(Bytes(m, front), Data(m, m.bufs[last]), bytes);
  }

  lemma SameView(m: Mem, m': Mem, b: Buffer)
    requires m'.pre == m.pre
    ensures Data(m', b) == Data(m, b)
  {
  }

  lemma FieldsView(m: Mem, x: Buffer, y: Buffer)
    requires x.currentData == y.currentData && x.currentLength == y.currentLength && x.mem == y.mem
    ensures Data(m, x) == Data(m, y)
  {
  }

  // ------------------------------------------------------------------------------------------
  // What shares a packet's last buffer

  // Two chains with a buffer in common end in the same buffer.
  lemma SameEnd(bufs: map<nat, Buffer>, c: seq<nat>, d: seq<nat>, b: nat)
    requires IsChain(bufs, c) && IsChain(bufs, d) && b in c && b in d
    ensures Last(c) == Last(d)
  {
    var i :| 0 <= i < |c| && c[i] == b;
    var j :| 0 <= j < |d| && d[j] == b;
    ChainTail(bufs, c, i);
    ChainTail(bufs, d, j);
    ChainUnique(bufs, c[i..], d[j..]);
    assert Last(c) == Last(c[i..]) && Last(d) == Last(d[j..]);
  }

  // The packet h whose last buffer is unshared shares no buffer with another packet.
  lemma Apart(m: Mem, ps: Packets, h: nat, k: nat, b: nat)
    requires Inv(m, ps) && h in ps && At(m.bufs, Last(ps[h])).nAddRefs == 0
    requires k in ps && k != h && b in ps[k]
    ensures b !in ps[h]
  {
    PacketIn(m, ps, h);
    PacketIn(m, ps, k);
    assert Last(ps[h]) in ps[h] && Last(ps[k]) in ps[k];
    hide Inv, LengthCoherent;
    if b in ps[h] {
      SameEnd(m.bufs, ps[h], ps[k], b);
      SharedKept(m, ps, h, k, Last(ps[h]));
    }
  }

  // Another packet through a shared last buffer.
  lemma Sharer(m: Mem, ps: Packets, h: nat) returns (k: nat)
    requires Inv(m, ps) && h in ps && At(m.bufs, Last(ps[h])).nAddRefs > 0
    ensures k in ps && k != h && Last(ps[h]) == Last(ps[k])
  {
    PacketIn(m, ps, h);
    var last := Last(ps[h]);
    CountedOf(m, ps, last);
    NotFree(m, ps, h, last);
    var us := Users(ps, last);
    assert |us - {h}| >= 1;
    k :| k in us - {h};
    PacketIn(m, ps, k);
    SameEnd(m.bufs, ps[h], ps[k], last);
  }

  // ------------------------------------------------------------------------------------------
  // vlib_buffer_chain_append_data

  // Bytes are put behind the packet h, no more than fit.
  ghost predicate PutCall(m: Mem, ps: Packets, h: nat, bytes: seq<u8>) {
    Inv(m, ps) && Sized(m) && h in ps && |bytes| <= Room(m, At(m.bufs, Last(ps[h])))
  }

  // The packet has its bytes and then the new ones; every other packet has what it had.
  ghost predicate PutRight(m: Mem, ps: Packets, h: nat, bytes: seq<u8>, m': Mem)
    requires h in ps
  {
    && Inv(m', ps) && Bytes(m', ps[h]) == Bytes(m, ps[h]) + bytes
    && forall k :: k in ps && k != h ==> Bytes(m', ps[k]) == Bytes(m, ps[k])
  }

  lemma PutParts(m: Mem, ps: Packets, h: nat, bytes: seq<u8>)
    requires PutCall(m, ps, h, bytes)
    ensures PacketOk(m.bufs, h, ps[h]) && h == ps[h][0] && NoRepeats(ps[h])
    ensures forall i :: 0 <= i < |ps[h]| ==> ps[h][i] in m.bufs && ps[h][i] !in m.free
    ensures Last(ps[h]) in m.bufs && BufferOk(m, m.bufs[Last(ps[h])])
    ensures h in ps && ps[h] != [] && Sized(m) && |bytes| <= Room(m, m.bufs[Last(ps[h])])
  {
    PacketIn(m, ps, h);
    ChainNoRepeats(m.bufs, ps[h]);
    forall i | 0 <= i < |ps[h]| ensures ps[h][i] !in m.free { NotFree(m, ps, h, ps[h][i]); }
  }

  lemma PutEdits(m: Mem, ps: Packets, h: nat, bytes: seq<u8>, b: nat)
    requires PutCall(m, ps, h, bytes) && b in m.bufs
    ensures h in ps && Edited(m, Put(m, h, Last(ps[h]), bytes), b)
  {
    hide Put, PutCall, AllOk, NoRepeats, PacketOk, Data, Room, Sized, Overwritten, BufferOk;
    PutParts(m, ps, h, bytes);
    PutOk(m, ps, h, bytes, b);
    PutData(m, h, Last(ps[h]), bytes);
    assert b in Put(m, h, Last(ps[h]), bytes).bufs.Keys;
    if b != Last(ps[h]) { OnlyMemory(m, m.bufs[b], PutBuffer(m, h, Last(ps[h]), bytes, b)); }
  }

  lemma PutOk(m: Mem, ps: Packets, h: nat, bytes: seq<u8>, b: nat)
    requires PutCall(m, ps, h, bytes) && b in m.bufs
    ensures BufferOk(m, m.bufs[b])
  {
  }

  lemma OnlyMemory(m: Mem, x: Buffer, y: Buffer)
    requires BufferOk(m, x) && y == x.(totalRest := y.totalRest)
    ensures BufferOk(m, y)
  {
  }

  lemma PutFields(m: Mem, first: nat, last: nat, bytes: seq<u8>, b: nat)
    requires b in m.bufs
    ensures var m' := Put(m, first, last, bytes);
            b in m'.bufs && m'.bufs[b] == PutBuffer(m, first, last, bytes, b)
            && m'.bufs[b].nextPresent == m.bufs[b].nextPresent && m'.bufs[b].nextBuffer == m.bufs[b].nextBuffer
            && m'.bufs[b].totalLengthValid == m.bufs[b].totalLengthValid
  {
    hide Put;
    assert b in Put(m, first, last, bytes).bufs.Keys;
  }

  lemma {:induction false} PutLength(m: Mem, h: nat, c: seq<nat>, bytes: seq<u8>)
    requires Sized(m) && NoRepeats(c) && forall i :: 0 <= i < |c| ==> c[i] in m.bufs
    requires PacketOk(m.bufs, h, c)
    requires BufferOk(m, m.bufs[Last(c)]) && |bytes| <= Room(m, m.bufs[Last(c)])
    ensures LengthCoherent(Put(m, h, Last(c), bytes).bufs, c)
  {
    hide Put, IsChain, NoRepeats, Room, BufferOk, Sized;
    PutFields(m, h, Last(c), bytes, h);
    if |c| > 1 {
      PutRest(m, h, c, bytes);
    } else {
      assert c[1..] == [];
    }
  }

  lemma {:induction false} PutPacket(m: Mem, ps: Packets, h: nat, bytes: seq<u8>)
    requires PutCall(m, ps, h, bytes)
    ensures h in ps && PacketOk(Put(m, h, Last(ps[h]), bytes).bufs, h, ps[h])
  {
    hide Put, PutCall, NoRepeats, Room, BufferOk, Sized, LengthCoherent, Inv;
    PutParts(m, ps, h, bytes);
    var c, m' := ps[h], Put(m, h, Last(ps[h]), bytes);
    forall b | b in c
      ensures b in m'.bufs && m'.bufs[b].nextPresent == m.bufs[b].nextPresent
              && m'.bufs[b].nextBuffer == m.bufs[b].nextBuffer
    {
      PutFields(m, h, Last(c), bytes, b);
    }
    ChainSame(m.bufs, c, m'.bufs);
    PutLength(m, h, c, bytes);
  }

  lemma {:induction false} PutRest(m: Mem, h: nat, c: seq<nat>, bytes: seq<u8>)
    requires Sized(m) && |c| > 1 && NoRepeats(c) && forall i :: 0 <= i < |c| ==> c[i] in m.bufs
    requires BufferOk(m, m.bufs[Last(c)]) && |bytes| <= Room(m, m.bufs[Last(c)]) && h == c[0]
    ensures var m' := Put(m, h, Last(c), bytes);
            && Length(m'.bufs, c[1..]) == Length(m.bufs, c[1..]) + |bytes|
            && h in m'.bufs && m'.bufs[h] == m.bufs[h].(totalRest := m.bufs[h].totalRest + |bytes|)
  {
    hide Put;
    PutBytes(m, h, c[1..], bytes);
    assert h in Put(m, h, Last(c), bytes).bufs.Keys && Last(c[1..]) == Last(c) && h != Last(c);
  }

  lemma PutOther(m: Mem, ps: Packets, h: nat, bytes: seq<u8>, k: nat)
    requires PutCall(m, ps, h, bytes) && At(m.bufs, Last(ps[h])).nAddRefs == 0 && k in ps && k != h
    ensures h in ps && Kept(m.bufs, ps[k], Put(m, h, Last(ps[h]), bytes).bufs)
  {
    hide Put, PutCall, Inv, PacketOk, Room, Sized, BufferOk, NoRepeats;
    PutParts(m, ps, h, bytes);
    PutInv(m, ps, h, bytes);
    PacketIn(m, ps, h) by { Parts(m, ps); }
    assert Last(ps[h]) in ps[h] && h in ps[h] by { PacketEnds(m.bufs, h, ps[h]); }
    var m' := Put(m, h, Last(ps[h]), bytes);
    forall b | b in ps[k] ensures b in m.bufs && b in m'.bufs && m'.bufs[b] == m.bufs[b] {
      NotFree(m, ps, k, b);
      Apart(m, ps, h, k, b);
      assert b in m'.bufs.Keys;
    }
  }

  lemma PacketEnds(bufs: map<nat, Buffer>, h: nat, c: seq<nat>)
    requires PacketOk(bufs, h, c)
    ensures h in c && Last(c) in c
  {
  }

  lemma PutInv(m: Mem, ps: Packets, h: nat, bytes: seq<u8>)
    requires PutCall(m, ps, h, bytes)
    ensures Inv(m, ps) && Sized(m) && h in ps
  {
  }

  lemma KeptBytes(m: Mem, c: seq<nat>, m': Mem)
    requires Kept(m.bufs, c, m'.bufs) && m'.pre == m.pre
    ensures Bytes(m', c) == Bytes(m, c)
  {
    ReadSame(m, m', c);
  }

  lemma PutKeeps(m: Mem, ps: Packets, h: nat, bytes: seq<u8>)
    requires PutCall(m, ps, h, bytes) && At(m.bufs, Last(ps[h])).nAddRefs == 0
    ensures h in ps && PutRight(m, ps, h, bytes, Put(m, h, Last(ps[h]), bytes))
  {
    PutParts(m, ps, h, bytes);
    PutInv(m, ps, h, bytes);
    var m' := Put(m, h, Last(ps[h]), bytes);
    PutBytes(m, h, ps[h], bytes);
    PutPacket(m, ps, h, bytes);
    hide PutCall, Put, Inv, PacketOk, Edited, Kept, Bytes;
    forall b | b in m.bufs ensures Edited(m, m', b) { PutEdits(m, ps, h, bytes, b); }
    forall k | k in ps && k != h ensures PacketOk(m'.bufs, k, ps[k]) && Bytes(m', ps[k]) == Bytes(m, ps[k]) {
      PacketIn(m, ps, k);
      PutOther(m, ps, h, bytes, k);
      PacketSame(m.bufs, k, ps[k], m'.bufs);
      KeptBytes(m, ps[k], m');
    }
    PacketsAll(m', ps);
    EditedKeeps(m, ps, m', ps);
  }

  // Appending to a packet does just that if and only if its last buffer is unshared.
  lemma PutExact(m: Mem, ps: Packets, h: nat, bytes: seq<u8>)
    requires PutCall(m, ps, h, bytes) && bytes != []
    ensures h in ps
    ensures PutRight(m, ps, h, bytes, Put(m, h, Last(ps[h]), bytes))
       <==> At(m.bufs, Last(ps[h])).nAddRefs == 0
  {
    PutInv(m, ps, h, bytes);
    if At(m.bufs, Last(ps[h])).nAddRefs == 0 {
      PutKeeps(m, ps, h, bytes);
    } else {
      PutParts(m, ps, h, bytes);
      var k := Sharer(m, ps, h);
      PacketIn(m, ps, k);
      ChainNoRepeats(m.bufs, ps[k]);
      hide Put, Inv, LengthCoherent, Bytes;
      PutBytes(m, h, ps[k], bytes);
    }
  }

  // ------------------------------------------------------------------------------------------
  // vlib_buffer_chain_init

  function Init(m: Mem, h: nat): Mem
    requires h in m.bufs
  {
    m.(bufs := m.bufs[h := Emptied(m.bufs[h])])
  }

  lemma InitPacket(m: Mem, h: nat)
    requires h in m.bufs
    ensures PacketOk(Init(m, h).bufs, h, [h]) && Bytes(Init(m, h), [h]) == []
  {
    assert LinkAt(Init(m, h).bufs, [h], 0);
    assert [h][1..] == [];
  }

  lemma InitOther(m: Mem, ps: Packets, h: nat, k: nat)
    requires Inv(m, ps) && h in ps && ps[h] == [h] && At(m.bufs, h).nAddRefs == 0 && k in ps && k != h
    ensures h in m.bufs && Kept(m.bufs, ps[k], Init(m, h).bufs)
  {
    NotFree(m, ps, h, h);
    forall b | b in ps[k] ensures b in m.bufs && b != h {
      NotFree(m, ps, k, b);
      Apart(m, ps, h, k, b);
    }
  }

  lemma InitAt(m: Mem, h: nat, b: nat)
    requires AllOk(m) && h in m.bufs && h !in m.free && b in m.bufs
    ensures Edited(m, Init(m, h), b)
  {
    assert BufferOk(m, m.bufs[b]);
    hide AllOk;
  }

  lemma InitIs(m: Mem, h: nat)
    requires h in m.bufs
    ensures var m' := Init(m, h);
            m' == m.(bufs := m'.bufs) && m'.bufs.Keys == m.bufs.Keys && m'.bufs[h].totalLengthValid
  {
  }

  // An unshared packet of one buffer becomes empty, with its length cached; the others are as they were.
  lemma InitKeeps(m: Mem, ps: Packets, h: nat)
    requires Inv(m, ps) && h in ps && |ps[h]| == 1 && At(m.bufs, h).nAddRefs == 0
    ensures h in m.bufs && Inv(Init(m, h), ps) && Init(m, h).bufs[h].totalLengthValid && Bytes(Init(m, h), ps[h]) == []
    ensures forall k :: k in ps && k != h ==> Bytes(Init(m, h), ps[k]) == Bytes(m, ps[k])
  {
    hide Init, Inv, PacketOk, Edited, Kept, Bytes, LengthIsCached;
    Live(m, ps, h);
    assert ps[h] == [h];
    InitPacket(m, h);
    InitIs(m, h);
    var m' := Init(m, h);
    forall b | b in m.bufs ensures Edited(m, m', b) {
      Parts(m, ps);
      InitAt(m, h, b);
    }
    forall k | k in ps ensures PacketOk(m'.bufs, k, ps[k]) && (k != h ==> Bytes(m', ps[k]) == Bytes(m, ps[k])) {
      if k != h {
        InitOther(m, ps, h, k);
        Live(m, ps, k);
        PacketSame(m.bufs, k, ps[k], m'.bufs);
        KeptBytes(m, ps[k], m');
      }
    }
    PacketsAll(m', ps);
    EditedKeeps(m, ps, m', ps);
  }
}
