// Copying a packet.
module BufferCopy {
  import opened Base
  import opened BufferSpec
  import opened BufferFree
  import opened BufferAlloc

  // ds are live single buffers, just handed out; c is the chain to be copied into them.
  ghost predicate CopyCall(m: Mem, ps: Packets, h: nat, ds: seq<nat>) {
    && Inv(m, ps + Singles(ds)) && h in ps && |ds| == |ps[h]| && NoRepeats(ds)
    && forall d :: d in ds ==> d !in ps && Users(ps, d) == {} && d in m.bufs
                               && m.bufs[d] == Initialized(m.bufs[d])
  }

  lemma CopyParts(m: Mem, ps: Packets, h: nat, ds: seq<nat>)
    requires CopyCall(m, ps, h, ds)
    ensures h in ps && |ds| == |ps[h]|
    ensures AllOk(m) && NoRepeats(m.free) && FreeClean(m) && KnownOk(m) && PacketsOk(m, ps)
    ensures IsChain(m.bufs, ps[h]) && ds != []
    ensures forall i :: 0 <= i < |ps[h]| ==> ps[h][i] in m.bufs && ps[h][i] !in ds
    ensures forall i :: 0 <= i < |ds| ==> ds[i] in m.bufs && ds[i] !in m.free
  {
    var qs := ps + Singles(ds);
    assert forall k :: k in ps ==> k in qs && qs[k] == ps[k];
    forall i | 0 <= i < |ps[h]| ensures ps[h][i] !in ds {
      assert h in Users(ps, ps[h][i]);
    }
    forall i | 0 <= i < |ds| ensures ds[i] !in m.free {
      assert qs[ds[i]] == [ds[i]];
      assert Counted(m, qs, ds[i]) && ds[i] in Users(qs, ds[i]);
    }
  }

  lemma IndexIs(ds: seq<nat>, i: nat)
    requires NoRepeats(ds) && i < |ds|
    ensures IndexOf(ds, ds[i]) == i
  {
  }

  lemma CopiedAt(m: Mem, ps: Packets, h: nat, ds: seq<nat>, i: nat)
    requires CopyCall(m, ps, h, ds) && i < |ds|
    ensures ds[i] in m.bufs
    ensures At(Copied(m, ps[h], ds).bufs, ds[i])
            == CopiedSegment(m.bufs[ds[i]], At(m.bufs, ps[h][i]), m.pre, i == 0,
                             if i + 1 < |ds| then Some(ds[i + 1]) else None)
  {
    IndexIs(ds, i);
    hide Copied;
    assert ds[i] in m.bufs.Keys;
  }

  lemma CopiedData(m: Mem, d: Buffer, s: Buffer, first: bool, next: Option<nat>)
    requires BufferOk(m, s) && |d.mem| == m.pre + m.dataBytes
    ensures var e := CopiedSegment(d, s, m.pre, first, next);
            BufferOk(m, e) && Data(m, e) == Data(m, s)
  {
  }

  lemma CopiedAllOk(m: Mem, c: seq<nat>, ds: seq<nat>)
    requires AllOk(m) && |c| == |ds| && forall i :: 0 <= i < |c| ==> c[i] in m.bufs
    ensures AllOk(Copied(m, c, ds))
  {
    hide Copied;
    var m' := Copied(m, c, ds);
    forall b | b in m'.bufs ensures BufferOk(m', m'.bufs[b]) {
      assert b in m'.bufs.Keys;
      if b in ds {
        var i := IndexOf(ds, b);
        CopiedData(m, m.bufs[b], m.bufs[c[i]], i == 0, if i + 1 < |ds| then Some(ds[i + 1]) else None);
      }
    }
  }

  lemma CopiedLinks(m: Mem, ps: Packets, h: nat, ds: seq<nat>)
    requires CopyCall(m, ps, h, ds)
    ensures IsChain(Copied(m, ps[h], ds).bufs, ds)
  {
    CopyParts(m, ps, h, ds);
    hide Copied;
    var m' := Copied(m, ps[h], ds);
    forall i | 0 <= i < |ds| ensures LinkAt(m'.bufs, ds, i) {
      CopiedAt(m, ps, h, ds, i);
      assert ds[i] in m'.bufs.Keys;
      assert LinkAt(m.bufs, ps[h], i);
    }
  }

  // Buffer i of d holds the bytes buffer i of c held.
  ghost predicate SameData(m: Mem, c: seq<nat>, m': Mem, d: seq<nat>, i: nat) {
    i < |c| && i < |d|
    && Data(m', At(m'.bufs, d[i])) == Data(m, At(m.bufs, c[i]))
    && At(m'.bufs, d[i]).currentLength == At(m.bufs, c[i]).currentLength
  }

  lemma {:induction false} BytesMatch(m: Mem, c: seq<nat>, m': Mem, d: seq<nat>)
    requires |c| == |d| && forall i :: 0 <= i < |c| ==> SameData(m, c, m', d, i)
    ensures Bytes(m', d) == Bytes(m, c) && Length(m'.bufs, d) == Length(m.bufs, c)
  {
    if c != [] {
      assert SameData(m, c, m', d, 0);
      forall i | 0 <= i < |c[1..]| ensures SameData(m, c[1..], m', d[1..], i) {
        assert SameData(m, c, m', d, i + 1);
      }
      BytesMatch(m, c[1..], m', d[1..]);
    }
  }

  lemma CopiedLength(d: Buffer, s: Buffer, pre: nat, first: bool, next: Option<nat>)
    ensures CopiedSegment(d, s, pre, first, next).currentLength == s.currentLength
  {
  }

  lemma CopiedView(m: Mem, c: seq<nat>, ds: seq<nat>, i: nat)
    requires |c| == |ds| && i < |ds|
    ensures forall b: Buffer :: Data(Copied(m, c, ds), b) == Data(m, b)
  {
  }

  lemma CopiedSame(m: Mem, ps: Packets, h: nat, ds: seq<nat>, i: nat)
    requires CopyCall(m, ps, h, ds) && i < |ds|
    ensures h in ps && |ds| == |ps[h]| && SameData(m, ps[h], Copied(m, ps[h], ds), ds, i)
  {
    hide Copied, CopyCall, PacketsOk, IsChain, FreeClean, KnownOk, NoRepeats, CopiedSegment, Data;
    CopyParts(m, ps, h, ds);
    var c := ps[h];
    CopiedAt(m, ps, h, ds, i);
    assert BufferOk(m, m.bufs[c[i]]) && BufferOk(m, m.bufs[ds[i]]);
    hide AllOk;
    CopiedLength(m.bufs[ds[i]], m.bufs[c[i]], m.pre, i == 0, if i + 1 < |ds| then Some(ds[i + 1]) else None);
    CopiedView(m, ps[h], ds, i);
    CopiedData(m, m.bufs[ds[i]], m.bufs[c[i]], i == 0, if i + 1 < |ds| then Some(ds[i + 1]) else None);
  }

  // The copy has the source's bytes, with the same boundaries between its buffers.
  lemma {:induction false} CopiedBytes(m: Mem, ps: Packets, h: nat, ds: seq<nat>)
    requires CopyCall(m, ps, h, ds)
    ensures var m' := Copied(m, ps[h], ds);
            && (forall i :: 0 <= i < |ds| ==> SameData(m, ps[h], m', ds, i))
            && Bytes(m', ds) == Bytes(m, ps[h])
            && ds != [] && Length(m'.bufs, ds[1..]) == Length(m.bufs, ps[h][1..])
  {
    hide Inv, Copied, Bytes, Length;
    CopyParts(m, ps, h, ds);
    var c, m' := ps[h], Copied(m, ps[h], ds);
    forall i | 0 <= i < |ds| ensures SameData(m, c, m', ds, i) { CopiedSame(m, ps, h, ds, i); }
    BytesMatch(m, c, m', ds);
    forall i | 0 <= i < |c[1..]| ensures SameData(m, c[1..], m', ds[1..], i) {
      assert SameData(m, c, m', ds, i + 1);
    }
    BytesMatch(m, c[1..], m', ds[1..]);
  }

  lemma CopiedElsewhere(m: Mem, c: seq<nat>, ds: seq<nat>, b: nat)
    requires |c| == |ds| && b in m.bufs && b !in ds
    ensures var m' := Copied(m, c, ds);
            b in m'.bufs && m'.bufs[b] == m.bufs[b]
  {
    hide Copied;
    assert b in Copied(m, c, ds).bufs.Keys;
  }

  lemma CopiedApart(m: Mem, ps: Packets, h: nat, ds: seq<nat>, k: nat, b: nat)
    requires CopyCall(m, ps, h, ds) && k in ps && b in ps[k]
    ensures b in m.bufs && b !in ds
  {
    assert k in Users(ps, b);
    CopyParts(m, ps, h, ds);
    assert PacketOk(m.bufs, k, ps[k]);
  }

  lemma CopiedOther(m: Mem, ps: Packets, h: nat, ds: seq<nat>, k: nat)
    requires CopyCall(m, ps, h, ds) && k in ps
    ensures h in ps && |ds| == |ps[h]| && Kept(m.bufs, ps[k], Copied(m, ps[h], ds).bufs)
  {
    hide Copied, CopyCall, AllOk, NoRepeats, FreeClean, KnownOk, PacketsOk, IsChain;
    CopyParts(m, ps, h, ds);
    var m' := Copied(m, ps[h], ds);
    forall b | b in ps[k] ensures b in m.bufs && b in m'.bufs && m'.bufs[b] == m.bufs[b] {
      CopiedApart(m, ps, h, ds, k, b);
      CopiedElsewhere(m, ps[h], ds, b);
    }
  }

  lemma CopiedNew(m: Mem, ps: Packets, h: nat, ds: seq<nat>)
    requires CopyCall(m, ps, h, ds)
    ensures ds != [] && PacketOk(Copied(m, ps[h], ds).bufs, ds[0], ds)
  {
    CopyParts(m, ps, h, ds);
    CopiedLinks(m, ps, h, ds);
    CopiedBytes(m, ps, h, ds);
    CopiedAt(m, ps, h, ds, 0);
    assert PacketOk(m.bufs, h, ps[h]);
    hide CopyCall, Copied, SameData, IsChain;
  }

  lemma CopiedUsers(ps: Packets, ds: seq<nat>, b: nat)
    requires ds != [] && forall d :: d in ds ==> d !in ps && Users(ps, d) == {}
    ensures Users(With(ps, ds[0], ds), b) == if b in ds then {ds[0]} else Users(ps, b)
  {
    var us := if b in ds then {ds[0]} else Users(ps, b);
    forall k ensures k in Users(With(ps, ds[0], ds), b) <==> k in us {
      if b in ds { assert k !in Users(ps, b); }
    }
  }

  lemma CopiedRefs(m: Mem, c: seq<nat>, ds: seq<nat>, b: nat)
    requires |c| == |ds| && b in m.bufs
    ensures At(Copied(m, c, ds).bufs, b).nAddRefs == At(m.bufs, b).nAddRefs && Copied(m, c, ds).free == m.free
  {
    hide Copied;
    assert b in Copied(m, c, ds).bufs.Keys;
  }

  lemma CopyFresh(m: Mem, ps: Packets, h: nat, ds: seq<nat>)
    requires CopyCall(m, ps, h, ds)
    ensures ds != [] && h in ps && |ds| == |ps[h]| && Inv(m, ps + Singles(ds))
    ensures forall d :: d in ds ==> d !in ps && Users(ps, d) == {}
  {
    hide Inv, Users;
    CopyParts(m, ps, h, ds);
  }

  lemma CopiedCounted(m: Mem, ps: Packets, h: nat, ds: seq<nat>, b: nat)
    requires CopyCall(m, ps, h, ds) && b in m.bufs
    ensures ds != [] && Counted(Copied(m, ps[h], ds), With(ps, ds[0], ds), b)
  {
    hide CopyCall, Inv, Copied, Users, Singles;
    CopyFresh(m, ps, h, ds);
    CountedOf(m, ps + Singles(ds), b);
    UsersWith(ps, ds, b);
    CopiedUsers(ps, ds, b);
    CopiedRefs(m, ps[h], ds, b);
  }

  lemma CopiedFree(m: Mem, ps: Packets, h: nat, ds: seq<nat>)
    requires CopyCall(m, ps, h, ds)
    ensures FreeClean(Copied(m, ps[h], ds)) && KnownOk(Copied(m, ps[h], ds))
  {
    CopyParts(m, ps, h, ds);
    hide Copied;
    var m' := Copied(m, ps[h], ds);
    assert |m'.bufs.Keys| == |m'.bufs| && |m.bufs.Keys| == |m.bufs|;
  }

  // Copying a packet: the copy is a live packet of its own with the same bytes; every other packet
  // and every count stays right.
  lemma CopyKeeps(m: Mem, ps: Packets, h: nat, ds: seq<nat>)
    requires CopyCall(m, ps, h, ds)
    ensures ds != [] && Inv(Copied(m, ps[h], ds), With(ps, ds[0], ds))
  {
    CopyParts(m, ps, h, ds);
    CopiedNew(m, ps, h, ds);
    CopiedAllOk(m, ps[h], ds);
    CopiedFree(m, ps, h, ds);
    var m', qs := Copied(m, ps[h], ds), With(ps, ds[0], ds);
    hide CopyCall, PacketOk, AllOk, NoRepeats, FreeClean, KnownOk, Counted, Copied, Kept;
    forall k | k in qs ensures PacketOk(m'.bufs, k, qs[k]) {
      if k != ds[0] {
        CopiedOther(m, ps, h, ds, k);
        PacketSame(m.bufs, k, ps[k], m'.bufs);
      }
    }
    forall b | b in m'.bufs ensures Counted(m', qs, b) {
      assert b in m'.bufs.Keys;
      CopiedCounted(m, ps, h, ds, b);
    }
    Whole(m', qs);
  }

  lemma {:induction false} BytesCons(m: Mem, b: nat, c: seq<nat>)
    ensures Bytes(m, [b] + c) == Data(m, At(m.bufs, b)) + Bytes(m, c)
    ensures Length(m.bufs, [b] + c) == At(m.bufs, b).currentLength + Length(m.bufs, c)
  {
    assert ([b] + c)[1..] == c;
  }
}
