// Cloning a packet n ways over one shared tail.
module BufferClone {
  import opened BufferSpec
  import opened BufferFree
  import opened BufferAlloc
  import opened BufferCopy

  // vlib_buffer_clone's shared path: ds are live single buffers, just handed out. The source's own
  // ASSERT asks that its first buffer be unshared.
  ghost predicate CloneCall(m: Mem, ps: Packets, src: nat, ds: seq<nat>, headEnd: nat) {
    && Inv(m, ps + Singles(ds)) && src in ps && 0 < |ds| <= MAX_U8 && NoRepeats(ds)
    && (forall d :: d in ds ==> d !in ps && Users(ps, d) == {} && d in m.bufs
                                && m.bufs[d] == Initialized(m.bufs[d]))
    && src in m.bufs && m.bufs[src].nAddRefs == 0 && headEnd <= m.bufs[src].currentLength
  }

  // Every buffer of the chain belongs to this packet only.
  predicate ChainUnshared(m: Mem, c: seq<nat>)
    requires forall i :: 0 <= i < |c| ==> c[i] in m.bufs
  {
    forall i :: 0 <= i < |c| ==> m.bufs[c[i]].nAddRefs == 0
  }

  // The packets after the call: a head for each clone, all with the source's chain behind them.
  function Clones(ps: Packets, src: nat, ds: seq<nat>): Packets
    requires src in ps
  {
    (ps - {src}) + map d | d in ds :: [d] + ps[src]
  }

  lemma CloneParts(m: Mem, ps: Packets, src: nat, ds: seq<nat>, headEnd: nat)
    requires CloneCall(m, ps, src, ds, headEnd)
    ensures AllOk(m) && NoRepeats(m.free) && FreeClean(m) && KnownOk(m) && PacketsOk(m, ps)
    ensures IsChain(m.bufs, ps[src]) && ps[src][0] == src && NoRepeats(ps[src])
    ensures forall i :: 0 <= i < |ps[src]| ==> ps[src][i] in m.bufs && ps[src][i] !in ds
    ensures forall i :: 0 <= i < |ps[src]| ==> ps[src][i] !in m.free
    ensures forall i :: 0 <= i < |ds| ==> ds[i] in m.bufs && ds[i] !in m.free
  {
    var qs := ps + Singles(ds);
    assert forall k :: k in ps ==> k in qs && qs[k] == ps[k];
    ChainNoRepeats(m.bufs, ps[src]);
    forall i | 0 <= i < |ps[src]| ensures ps[src][i] !in ds && ps[src][i] !in m.free {
      assert src in Users(ps, ps[src][i]);
      NotFree(m, qs, src, ps[src][i]);
    }
    forall i | 0 <= i < |ds| ensures ds[i] !in m.free {
      assert qs[ds[i]] == [ds[i]];
      NotFree(m, qs, ds[i], ds[i]);
    }
  }

  // ------------------------------------------------------------------------------------------
  // Contents

  lemma CloneHeadData(m: Mem, d: Buffer, s: Buffer, src: nat, headEnd: nat)
    requires BufferOk(m, s) && |d.mem| == m.pre + m.dataBytes && headEnd <= s.currentLength
    ensures var e, t := CloneHead(d, s, m.pre, src, headEnd), Advanced(s, headEnd);
            BufferOk(m, e) && BufferOk(m, t) && Data(m, e) + Data(m, t) == Data(m, s)
  {
  }

  lemma ClonedAllOk(m: Mem, c: seq<nat>, ds: seq<nat>, headEnd: nat)
    requires AllOk(m) && c != [] && ds != [] && c[0] in m.bufs && headEnd <= m.bufs[c[0]].currentLength
    ensures AllOk(Cloned(m, c, ds, headEnd))
  {
    hide Cloned, CloneHead, Advanced, BufferOk;
    var m' := Cloned(m, c, ds, headEnd);
    forall b | b in m'.bufs ensures BufferOk(m', m'.bufs[b]) {
      assert b in m'.bufs.Keys;
      ClonedOkAt(m, c, ds, headEnd, b);
    }
  }

  lemma ClonedOkAt(m: Mem, c: seq<nat>, ds: seq<nat>, headEnd: nat, b: nat)
    requires AllOk(m) && c != [] && ds != [] && c[0] in m.bufs && headEnd <= m.bufs[c[0]].currentLength
    requires b in m.bufs
    ensures BufferOk(Cloned(m, c, ds, headEnd), ClonedBuffer(m, c, ds, headEnd, b))
  {
    hide CloneHead, Data, Cloned;
    CloneHeadData(m, m.bufs[b], m.bufs[c[0]], c[0], headEnd);
  }

  // A chain that can be cloned into ds.
  ghost predicate Clonable(m: Mem, c: seq<nat>, ds: seq<nat>, headEnd: nat) {
    && AllOk(m) && c != [] && NoRepeats(c) && ds != []
    && (forall i :: 0 <= i < |c| ==> c[i] in m.bufs && c[i] !in ds)
    && headEnd <= m.bufs[c[0]].currentLength
  }

  // The source's chain keeps its bytes but for the ones its first buffer now skips.
  lemma {:induction false} ClonedRest(m: Mem, c: seq<nat>, ds: seq<nat>, headEnd: nat)
    requires Clonable(m, c, ds, headEnd)
    ensures var m' := Cloned(m, c, ds, headEnd);
            Bytes(m', c[1..]) == Bytes(m, c[1..]) && Length(m'.bufs, c[1..]) == Length(m.bufs, c[1..])
  {
    hide Cloned, AllOk, Bytes, Length;
    var m' := Cloned(m, c, ds, headEnd);
    forall i | 0 <= i < |c[1..]| ensures SameData(m, c[1..], m', c[1..], i) {
      assert c[1..][i] == c[i + 1] && c[i + 1] != c[0] && c[i + 1] in c;
    }
    BytesMatch(m, c[1..], m', c[1..]);
  }

  lemma ClonedBuffers(m: Mem, c: seq<nat>, ds: seq<nat>, headEnd: nat, d: nat)
    requires Clonable(m, c, ds, headEnd) && d in ds && d in m.bufs
    ensures var m', s := Cloned(m, c, ds, headEnd), m.bufs[c[0]];
            && At(m'.bufs, c[0]) == Advanced(s, headEnd).(nAddRefs := |ds| - 1)
            && At(m'.bufs, d) == CloneHead(m.bufs[d], s, m.pre, c[0], headEnd)
            && Data(m', At(m'.bufs, d)) + Data(m', At(m'.bufs, c[0])) == Data(m, At(m.bufs, c[0]))
  {
    hide Cloned, CloneHead, Advanced, Data, NoRepeats;
    ClonedAt(m, c, ds, headEnd, d);
    ClonedData(m, c, ds, headEnd, d);
  }

  lemma ClonedAt(m: Mem, c: seq<nat>, ds: seq<nat>, headEnd: nat, d: nat)
    requires Clonable(m, c, ds, headEnd) && d in ds && d in m.bufs
    ensures var m', s := Cloned(m, c, ds, headEnd), m.bufs[c[0]];
            && At(m'.bufs, c[0]) == Advanced(s, headEnd).(nAddRefs := |ds| - 1)
            && At(m'.bufs, d) == CloneHead(m.bufs[d], s, m.pre, c[0], headEnd)
  {
    hide Cloned, CloneHead, Advanced, AllOk, NoRepeats;
    assert c[0] in c && c[0] in Cloned(m, c, ds, headEnd).bufs.Keys && d in Cloned(m, c, ds, headEnd).bufs.Keys;
  }

  lemma ClonedData(m: Mem, c: seq<nat>, ds: seq<nat>, headEnd: nat, d: nat)
    requires Clonable(m, c, ds, headEnd) && d in m.bufs
    ensures var m', s := Cloned(m, c, ds, headEnd), m.bufs[c[0]];
            Data(m', CloneHead(m.bufs[d], s, m.pre, c[0], headEnd))
            + Data(m', Advanced(s, headEnd).(nAddRefs := |ds| - 1)) == Data(m, At(m.bufs, c[0]))
  {
    hide Cloned, NoRepeats, CloneHead, Data, BufferOk;
    OkAt(m, d);
    OkAt(m, c[0]);
    OkSized(m, m.bufs[d]);
    CloneHeadData(m, m.bufs[d], m.bufs[c[0]], c[0], headEnd);
    DataSame(m, Cloned(m, c, ds, headEnd), CloneHead(m.bufs[d], m.bufs[c[0]], m.pre, c[0], headEnd), 0);
    DataSame(m, Cloned(m, c, ds, headEnd), Advanced(m.bufs[c[0]], headEnd), |ds| - 1);
  }

  lemma OkAt(m: Mem, b: nat)
    requires AllOk(m) && b in m.bufs
    ensures BufferOk(m, m.bufs[b])
  {
  }

  lemma OkSized(m: Mem, b: Buffer)
    requires BufferOk(m, b)
    ensures |b.mem| == m.pre + m.dataBytes
  {
  }

  // A buffer's data depends neither on its count nor on other buffers.
  lemma DataSame(m: Mem, m': Mem, b: Buffer, count: nat)
    requires m'.pre == m.pre
    ensures Data(m', b) == Data(m, b) == Data(m', b.(nAddRefs := count))
  {
  }

  lemma Associative<T>(a: seq<T>, b: seq<T>, c: seq<T>)
    ensures a + (b + c) == (a + b) + c
  {
  }

  lemma {:induction false} ClonedBytes(m: Mem, c: seq<nat>, ds: seq<nat>, headEnd: nat, d: nat)
    requires Clonable(m, c, ds, headEnd) && d in ds && d in m.bufs
    ensures Bytes(Cloned(m, c, ds, headEnd), [d] + c) == Bytes(m, c)
  {
    ClonedRest(m, c, ds, headEnd);
    ClonedBuffers(m, c, ds, headEnd, d);
    var x, y := c[0], c[1..];
    assert c == [x] + y;
    hide Cloned, Clonable, Data, At, Bytes;
    var m' := Cloned(m, c, ds, headEnd);
    BytesCons(m', d, c);
    BytesCons(m', x, y);
    BytesCons(m, x, y);
    Associative(Data(m', At(m'.bufs, d)), Data(m', At(m'.bufs, x)), Bytes(m, y));
  }

  // Each clone's chain holds the bytes of the packet it was made from.
  lemma {:induction false} CloneBytes(m: Mem, ps: Packets, src: nat, ds: seq<nat>, headEnd: nat, d: nat)
    requires CloneCall(m, ps, src, ds, headEnd) && d in ds
    ensures ps[src] != [] && Bytes(Cloned(m, ps[src], ds, headEnd), [d] + ps[src]) == Bytes(m, ps[src])
  {
    hide Inv, PacketsOk, IsChain, Bytes, Cloned;
    CloneParts(m, ps, src, ds, headEnd);
    ClonedBytes(m, ps[src], ds, headEnd, d);
  }

  // ------------------------------------------------------------------------------------------
  // Ownership

  lemma UsersClones(ps: Packets, src: nat, ds: seq<nat>, b: nat)
    requires src in ps && forall d :: d in ds ==> d !in ps && Users(ps, d) == {}
    ensures Users(Clones(ps, src, ds), b)
            == if b in ds then {b}
               else if b in ps[src] then (Users(ps, b) - {src}) + Elems(ds)
               else Users(ps, b)
  {
    var qs := Clones(ps, src, ds);
    var us := if b in ds then {b}
              else if b in ps[src] then (Users(ps, b) - {src}) + Elems(ds) else Users(ps, b);
    forall h ensures h in Users(qs, b) <==> h in us {
      if h in ds { assert qs[h] == [h] + ps[src]; }
      if b in ds { assert h !in Users(ps, b) && src !in Users(ps, b); }
    }
  }

  lemma ClonesCount(ps: Packets, src: nat, ds: seq<nat>, b: nat)
    requires src in ps && b in ps[src] && b !in ds && NoRepeats(ds)
    requires forall d :: d in ds ==> d !in ps && Users(ps, d) == {}
    ensures |Users(Clones(ps, src, ds), b)| == |Users(ps, b)| - 1 + |ds|
  {
    UsersClones(ps, src, ds, b);
    ElemsSize(ds);
    assert src in Users(ps, b);
    assert |Users(ps, b) - {src}| == |Users(ps, b)| - 1;
    assert (Users(ps, b) - {src}) !! Elems(ds);
  }

  lemma ClonedCounted(m: Mem, ps: Packets, src: nat, ds: seq<nat>, headEnd: nat, b: nat)
    requires CloneCall(m, ps, src, ds, headEnd) && b in m.bufs
    ensures ps[src] != []
    ensures Counted(Cloned(m, ps[src], ds, headEnd), Clones(ps, src, ds), b)
       <==> b in ps[src] ==> m.bufs[b].nAddRefs == 0
  {
    CloneParts(m, ps, src, ds, headEnd);
    var c := ps[src];
    assert Counted(m, ps + Singles(ds), b);
    UsersWith(ps, ds, b);
    UsersClones(ps, src, ds, b);
    if b in c && b !in ds { ClonesCount(ps, src, ds, b); }
    hide Inv, PacketsOk, Users, Singles, Clones, NoRepeats, IsChain, KnownOk;
    assert b in c ==> exists i :: 0 <= i < |c| && c[i] == b;
  }

  lemma Elsewhere(m: Mem, ps: Packets, src: nat, ds: seq<nat>, headEnd: nat, k: nat, b: nat)
    requires CloneCall(m, ps, src, ds, headEnd) && k in ps && k != src && b in ps[k]
    requires forall i :: 0 <= i < |ps[src]| ==> At(m.bufs, ps[src][i]).nAddRefs == 0
    ensures b in m.bufs && b !in ps[src] && b !in ds
  {
    var qs := ps + Singles(ds);
    assert k in Users(ps, b);
    assert qs[src] == ps[src] && qs[k] == ps[k] && src in qs && k in qs;
    hide CloneCall, Singles;
    NotFree(m, qs, k, b);
    if b in ps[src] {
      var i :| 0 <= i < |ps[src]| && ps[src][i] == b;
      SharedKept(m, qs, src, k, b);
    }
  }

  lemma CloneSome(m: Mem, ps: Packets, src: nat, ds: seq<nat>, headEnd: nat)
    requires CloneCall(m, ps, src, ds, headEnd)
    ensures ds != [] && src in ps && ps[src] != []
  {
    CloneParts(m, ps, src, ds, headEnd);
  }

  lemma CloneLong(m: Mem, ps: Packets, src: nat, ds: seq<nat>, headEnd: nat)
    requires CloneCall(m, ps, src, ds, headEnd)
    ensures src in m.bufs && headEnd <= m.bufs[src].currentLength
  {
  }

  lemma ClonedOther(m: Mem, ps: Packets, src: nat, ds: seq<nat>, headEnd: nat, k: nat)
    requires CloneCall(m, ps, src, ds, headEnd) && k in ps && k != src
    requires forall i :: 0 <= i < |ps[src]| ==> At(m.bufs, ps[src][i]).nAddRefs == 0
    ensures ps[src] != [] && Kept(m.bufs, ps[k], Cloned(m, ps[src], ds, headEnd).bufs)
  {
    hide Cloned, CloneCall, At;
    CloneSome(m, ps, src, ds, headEnd);
    var m' := Cloned(m, ps[src], ds, headEnd);
    forall b | b in ps[k] ensures b in m.bufs && b in m'.bufs && m'.bufs[b] == m.bufs[b] {
      Elsewhere(m, ps, src, ds, headEnd, k, b);
      assert b in m'.bufs.Keys;
    }
  }

  // Links behind a clone's head.
  lemma ClonedLinks(m: Mem, c: seq<nat>, ds: seq<nat>, headEnd: nat, d: nat)
    requires Clonable(m, c, ds, headEnd) && d in ds && d in m.bufs && IsChain(m.bufs, c)
    ensures IsChain(Cloned(m, c, ds, headEnd).bufs, [d] + c)
  {
    hide Cloned;
    var m', e := Cloned(m, c, ds, headEnd), [d] + c;
    forall i | 0 <= i < |e| ensures LinkAt(m'.bufs, e, i) {
      assert e[i] in m'.bufs.Keys;
      if i > 0 {
        assert LinkAt(m.bufs, c, i - 1) && c[i - 1] in c && c[i - 1] !in ds;
      }
    }
  }

  lemma {:induction false} ClonedLength(m: Mem, c: seq<nat>, ds: seq<nat>, headEnd: nat, d: nat)
    requires Clonable(m, c, ds, headEnd) && d in ds && d in m.bufs && LengthCoherent(m.bufs, c)
    ensures LengthCoherent(Cloned(m, c, ds, headEnd).bufs, [d] + c)
  {
    ClonedRest(m, c, ds, headEnd);
    ClonedBuffers(m, c, ds, headEnd, d);
    var x, y := c[0], c[1..];
    assert c == [x] + y && ([d] + c)[1..] == c && x in m.bufs;
    var m' := Cloned(m, c, ds, headEnd);
    hide Cloned, Clonable, Data, Length;
    BytesCons(m', x, y);
  }

  lemma ClonedNew(m: Mem, ps: Packets, src: nat, ds: seq<nat>, headEnd: nat, d: nat)
    requires CloneCall(m, ps, src, ds, headEnd) && d in ds
    ensures ps[src] != [] && PacketOk(Cloned(m, ps[src], ds, headEnd).bufs, d, [d] + ps[src])
  {
    CloneParts(m, ps, src, ds, headEnd);
    assert PacketOk(m.bufs, src, ps[src]);
    assert Clonable(m, ps[src], ds, headEnd) && d in m.bufs;
    hide CloneCall, Cloned, IsChain, LengthCoherent, Clonable, PacketsOk, NoRepeats, FreeClean, KnownOk, AllOk;
    ClonedLinks(m, ps[src], ds, headEnd, d);
    ClonedLength(m, ps[src], ds, headEnd, d);
  }

  lemma ClonedFree(m: Mem, ps: Packets, src: nat, ds: seq<nat>, headEnd: nat)
    requires CloneCall(m, ps, src, ds, headEnd)
    ensures ps[src] != [] && FreeClean(Cloned(m, ps[src], ds, headEnd))
    ensures KnownOk(Cloned(m, ps[src], ds, headEnd))
  {
    hide Cloned, CloneCall, PacketsOk, IsChain, NoRepeats, AllOk, FreeClean, KnownOk;
    CloneParts(m, ps, src, ds, headEnd);
    CloneSome(m, ps, src, ds, headEnd);
    ClonedList(m, ps[src], ds, headEnd);
  }

  lemma ClonedList(m: Mem, c: seq<nat>, ds: seq<nat>, headEnd: nat)
    requires FreeClean(m) && KnownOk(m) && c != [] && ds != []
    requires (forall i :: 0 <= i < |c| ==> c[i] !in m.free) && forall i :: 0 <= i < |ds| ==> ds[i] !in m.free
    ensures FreeClean(Cloned(m, c, ds, headEnd)) && KnownOk(Cloned(m, c, ds, headEnd))
  {
    hide Cloned;
    var m' := Cloned(m, c, ds, headEnd);
    assert |m'.bufs.Keys| == |m'.bufs| && |m.bufs.Keys| == |m.bufs|;
    assert forall b :: b in m.free ==> b !in ds && b !in c;
  }

  // Cloning by a shared tail keeps the ownership invariant, with every clone a live packet in place
  // of the source, if and only if no other packet shares a buffer of the source's chain.
  lemma CloneExact(m: Mem, ps: Packets, src: nat, ds: seq<nat>, headEnd: nat)
    requires CloneCall(m, ps, src, ds, headEnd)
    ensures ps[src] != [] && forall i :: 0 <= i < |ps[src]| ==> ps[src][i] in m.bufs
    ensures Inv(Cloned(m, ps[src], ds, headEnd), Clones(ps, src, ds)) <==> ChainUnshared(m, ps[src])
  {
    hide CloneCall, Cloned, PacketOk, PacketsOk, IsChain, NoRepeats, AllOk, FreeClean, KnownOk, Kept;
    CloneParts(m, ps, src, ds, headEnd);
    CloneSome(m, ps, src, ds, headEnd);
    CloneLong(m, ps, src, ds, headEnd);
    ClonedFree(m, ps, src, ds, headEnd);
    var c := ps[src];
    var m', qs := Cloned(m, c, ds, headEnd), Clones(ps, src, ds);
    ClonedAllOk(m, c, ds, headEnd);
    if ChainUnshared(m, c) {
      forall k | k in qs ensures PacketOk(m'.bufs, k, qs[k]) {
        if k in ds {
          ClonedNew(m, ps, src, ds, headEnd, k);
        } else {
          ClonedOther(m, ps, src, ds, headEnd, k);
          PacketIn(m, ps, k);
          PacketSame(m.bufs, k, ps[k], m'.bufs);
        }
      }
      PacketsAll(m', qs);
      forall b | b in m'.bufs ensures Counted(m', qs, b) {
        assert b in m'.bufs.Keys;
        ClonedCounted(m, ps, src, ds, headEnd, b);
      }
      Whole(m', qs);
    } else {
      var i :| 0 <= i < |c| && m.bufs[c[i]].nAddRefs != 0;
      ClonedCounted(m, ps, src, ds, headEnd, c[i]);
      assert c[i] in m'.bufs.Keys;
    }
  }

  lemma PacketsAll(m: Mem, ps: Packets)
    requires forall k :: k in ps ==> PacketOk(m.bufs, k, ps[k])
    ensures PacketsOk(m, ps)
  {
  }

  lemma PacketIn(m: Mem, ps: Packets, k: nat)
    requires PacketsOk(m, ps) && k in ps
    ensures PacketOk(m.bufs, k, ps[k])
  {
  }
}
