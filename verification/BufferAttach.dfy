// Attaching one packet's chain behind another packet's single buffer.
module BufferAttach {
  import opened BufferSpec
  import opened BufferFree
  import opened BufferAlloc
  import opened BufferCopy
  import opened BufferClone

  // What vlib_buffer_attach_clone's callers pass: two live packets, `head` of one buffer as its
  // ASSERT asks.
  ghost predicate AttachCall(m: Mem, ps: Packets, head: nat, tail: nat) {
    Inv(m, ps) && head in ps && tail in ps && head != tail && |ps[head]| == 1
  }

  // The head is in no other packet, and no count of the tail's chain is at its 8-bit limit.
  predicate AttachGood(m: Mem, head: nat, c: seq<nat>) {
    At(m.bufs, head).nAddRefs == 0 && forall i :: 0 <= i < |c| ==> At(m.bufs, c[i]).nAddRefs < MAX_U8
  }

  lemma AttachParts(m: Mem, ps: Packets, head: nat, tail: nat)
    requires AttachCall(m, ps, head, tail)
    ensures head in ps && tail in ps && ps[tail] != [] && Inv(m, ps)
    ensures AllOk(m) && NoRepeats(m.free) && FreeClean(m) && KnownOk(m) && PacketsOk(m, ps)
    ensures ps[head] == [head] && PacketOk(m.bufs, head, [head]) && head in m.bufs && head !in m.free
    ensures PacketOk(m.bufs, tail, ps[tail])
    ensures forall i :: 0 <= i < |ps[tail]| ==> ps[tail][i] in m.bufs && ps[tail][i] !in m.free
  {
    NotFree(m, ps, head, head);
    forall i | 0 <= i < |ps[tail]| ensures ps[tail][i] !in m.free { NotFree(m, ps, tail, ps[tail][i]); }
  }

  // An unshared head is in its own packet only.
  lemma HeadAlone(m: Mem, ps: Packets, head: nat, tail: nat, k: nat)
    requires AttachCall(m, ps, head, tail) && At(m.bufs, head).nAddRefs == 0 && k in ps && k != head
    ensures head !in ps[k]
  {
    AttachParts(m, ps, head, tail);
    hide Inv;
    if head in ps[k] { SharedKept(m, ps, head, k, head); }
  }

  lemma UsersAttached(ps: Packets, head: nat, c: seq<nat>, b: nat)
    requires head in ps && ps[head] == [head]
    ensures Users(With(ps, head, [head] + c), b)
            == if b in c then Users(ps, b) + {head} else Users(ps, b)
  {
  }

  lemma AttachedKept(m: Mem, head: nat, c: seq<nat>, b: nat)
    requires b in m.bufs && b != head && c != []
    ensures var m' := Attached(m, head, c);
            && b in m'.bufs && m'.bufs[b] == m.bufs[b].(nAddRefs := m'.bufs[b].nAddRefs)
            && m'.bufs[b].nAddRefs == if b in c then (m.bufs[b].nAddRefs + 1) % (MAX_U8 + 1)
                                      else m.bufs[b].nAddRefs
  {
    hide Attached;
    assert b in Attached(m, head, c).bufs.Keys;
  }

  lemma AttachedHead(m: Mem, head: nat, c: seq<nat>)
    requires head in m.bufs && head !in c && c != []
    ensures var m' := Attached(m, head, c);
            && head in m'.bufs && m'.bufs[head].nAddRefs == m.bufs[head].nAddRefs
            && Data(m', m'.bufs[head]) == Data(m, m.bufs[head])
  {
    hide Attached;
    assert head in Attached(m, head, c).bufs.Keys;
  }

  lemma UsersGrow(m: Mem, ps: Packets, head: nat, tail: nat, b: nat)
    requires AttachCall(m, ps, head, tail) && b in m.bufs && head !in ps[tail]
    ensures |Users(With(ps, head, [head] + ps[tail]), b)|
            == |Users(ps, b)| + if b in ps[tail] then 1 else 0
    ensures b !in ps[tail] ==> Users(With(ps, head, [head] + ps[tail]), b) == Users(ps, b)
    ensures b in ps[tail] ==> b !in m.free
  {
    AttachParts(m, ps, head, tail);
    hide Inv, AttachCall, PacketsOk, PacketOk;
    UsersAttached(ps, head, ps[tail], b);
    assert b in ps[tail] ==> head !in Users(ps, b);
  }

  lemma AttachedRefs(m: Mem, head: nat, c: seq<nat>, b: nat)
    requires b in m.bufs && head in m.bufs && head !in c && c != []
    ensures var m' := Attached(m, head, c);
            && m'.free == m.free
            && At(m'.bufs, b).nAddRefs
               == if b in c then (m.bufs[b].nAddRefs + 1) % (MAX_U8 + 1) else m.bufs[b].nAddRefs
  {
    hide Attached;
    if b == head { AttachedHead(m, head, c); } else { AttachedKept(m, head, c, b); }
  }

  lemma AttachedCounted(m: Mem, ps: Packets, head: nat, tail: nat, b: nat)
    requires AttachCall(m, ps, head, tail) && b in m.bufs && head !in ps[tail]
    ensures ps[tail] != []
    ensures Counted(Attached(m, head, ps[tail]), With(ps, head, [head] + ps[tail]), b)
       <==> (b in ps[tail] ==> m.bufs[b].nAddRefs < MAX_U8)
  {
    hide Inv, AttachCall, PacketsOk, PacketOk, Users, KnownOk, FreeClean, AllOk, NoRepeats, Attached;
    AttachParts(m, ps, head, tail);
    CountedOf(m, ps, b);
    UsersGrow(m, ps, head, tail, b);
    AttachedRefs(m, head, ps[tail], b);
  }

  lemma AttachedOther(m: Mem, ps: Packets, head: nat, tail: nat, k: nat)
    requires AttachCall(m, ps, head, tail) && At(m.bufs, head).nAddRefs == 0 && k in ps && k != head
    ensures ps[tail] != [] && Kept(m.bufs, ps[k], Attached(m, head, ps[tail]).bufs)
  {
    AttachParts(m, ps, head, tail);
    HeadAlone(m, ps, head, tail, k);
    assert PacketOk(m.bufs, k, ps[k]);
    hide AttachCall, Attached, PacketsOk, FreeClean, KnownOk, AllOk, NoRepeats, LengthCoherent;
    forall b | b in ps[k]
      ensures var m' := Attached(m, head, ps[tail]);
              b in m.bufs && b in m'.bufs && m'.bufs[b] == m.bufs[b].(nAddRefs := m'.bufs[b].nAddRefs)
    {
      AttachedKept(m, head, ps[tail], b);
    }
  }

  lemma AttachedChain(m: Mem, head: nat, c: seq<nat>)
    requires head !in c && c != [] && PacketOk(m.bufs, c[0], c)
    ensures PacketOk(Attached(m, head, c).bufs, c[0], c) && Length(Attached(m, head, c).bufs, c) == Length(m.bufs, c)
  {
    hide Attached, LengthCoherent, IsChain;
    var m' := Attached(m, head, c);
    forall b | b in c
      ensures b in m.bufs && b in m'.bufs && m'.bufs[b] == m.bufs[b].(nAddRefs := m'.bufs[b].nAddRefs)
    {
      ChainIn(m.bufs, c, b);
      assert b in m'.bufs.Keys;
    }
    PacketSame(m.bufs, c[0], c, m'.bufs);
    LengthSame(m.bufs, c, m'.bufs);
  }

  lemma ChainIn(bufs: map<nat, Buffer>, c: seq<nat>, b: nat)
    requires IsChain(bufs, c) && b in c
    ensures b in bufs
  {
  }

  // A buffer linked in front of a chain.
  lemma LinkedChain(bufs: map<nat, Buffer>, head: nat, c: seq<nat>)
    requires IsChain(bufs, c) && head in bufs && bufs[head].nextPresent && bufs[head].nextBuffer == c[0]
    ensures IsChain(bufs, [head] + c)
  {
    var e := [head] + c;
    forall i | 0 <= i < |e| ensures LinkAt(bufs, e, i) {
      if i > 0 { assert LinkAt(bufs, c, i - 1); }
    }
  }

  lemma AttachedNew(m: Mem, head: nat, c: seq<nat>)
    requires head in m.bufs && head !in c && c != [] && PacketOk(m.bufs, c[0], c)
    ensures PacketOk(Attached(m, head, c).bufs, head, [head] + c)
  {
    hide Attached, IsChain, Length;
    var m' := Attached(m, head, c);
    AttachedChain(m, head, c);
    assert head in m'.bufs.Keys;
    LinkedChain(m'.bufs, head, c);
    assert ([head] + c)[1..] == c && c == [c[0]] + c[1..];
    BytesCons(m, c[0], c[1..]);
  }

  lemma AttachedAllOk(m: Mem, head: nat, c: seq<nat>)
    requires AllOk(m) && c != []
    ensures AllOk(Attached(m, head, c))
  {
    hide Attached;
    var m' := Attached(m, head, c);
    forall b | b in m'.bufs ensures BufferOk(m', m'.bufs[b]) { assert b in m'.bufs.Keys; }
  }

  lemma AttachedFree(m: Mem, ps: Packets, head: nat, tail: nat)
    requires AttachCall(m, ps, head, tail)
    ensures ps[tail] != [] && FreeClean(Attached(m, head, ps[tail])) && KnownOk(Attached(m, head, ps[tail]))
  {
    AttachParts(m, ps, head, tail);
    hide Attached, AttachCall, PacketsOk, AllOk, NoRepeats;
    var m' := Attached(m, head, ps[tail]);
    assert |m'.bufs.Keys| == |m'.bufs| && |m.bufs.Keys| == |m.bufs|;
    assert forall b :: b in m.free ==> b != head && b !in ps[tail];
  }

  lemma OtherUser(m: Mem, ps: Packets, b: nat) returns (k: nat)
    requires Inv(m, ps) && b in ps && At(m.bufs, b).nAddRefs > 0
    ensures k in ps && k != b && b in ps[k]
  {
    Live(m, ps, b);
    CountedOf(m, ps, b);
    hide Inv;
    var us := Users(ps, b);
    assert |us - {b}| >= 1;
    k :| k in us - {b};
  }

  // Another packet through the head would change with it.
  lemma SharedHeadBreaks(m: Mem, ps: Packets, head: nat, tail: nat)
    requires AttachCall(m, ps, head, tail) && At(m.bufs, head).nAddRefs > 0
    ensures ps[tail] != []
    ensures !PacketsOk(Attached(m, head, ps[tail]), With(ps, head, [head] + ps[tail]))
  {
    hide Attached, AttachCall, Inv, PacketOk, PacketsOk, AllOk, NoRepeats, FreeClean, KnownOk, Initialized, BufferOk;
    AttachParts(m, ps, head, tail);
    var k := OtherUser(m, ps, head);
    Live(m, ps, k);
    var m', qs := Attached(m, head, ps[tail]), With(ps, head, [head] + ps[tail]);
    AttachedLink(m, head, ps[tail]);
    EndsThere(m.bufs, k, ps[k], head);
    if PacketsOk(m', qs) {
      PacketIn(m', qs, k);
      LastLink(m'.bufs, k, ps[k]);
    }
  }

  lemma LastLink(bufs: map<nat, Buffer>, h: nat, c: seq<nat>)
    requires PacketOk(bufs, h, c)
    ensures c != [] && !At(bufs, c[|c| - 1]).nextPresent
  {
    assert LinkAt(bufs, c, |c| - 1);
  }

  lemma AttachedLink(m: Mem, head: nat, c: seq<nat>)
    requires c != [] && head in m.bufs
    ensures var m' := Attached(m, head, c);
            head in m'.bufs && m'.bufs[head].nextPresent
  {
    hide Attached;
    assert head in Attached(m, head, c).bufs.Keys;
  }

  // A buffer with nothing behind it is the last of every chain through it.
  lemma EndsThere(bufs: map<nat, Buffer>, h: nat, c: seq<nat>, b: nat)
    requires PacketOk(bufs, h, c) && b in c && PacketOk(bufs, b, [b])
    ensures c[|c| - 1] == b
  {
    var i :| 0 <= i < |c| && c[i] == b;
    assert LinkAt(bufs, c, i) && LinkAt(bufs, [b], 0);
  }

  // Attaching keeps the ownership invariant, with the head's packet now ending in the tail's chain
  // and every other packet as it was, if and only if AttachGood holds.
  lemma AttachExact(m: Mem, ps: Packets, head: nat, tail: nat)
    requires AttachCall(m, ps, head, tail)
    ensures ps[tail] != []
    ensures Inv(Attached(m, head, ps[tail]), With(ps, head, [head] + ps[tail]))
       <==> AttachGood(m, head, ps[tail])
  {
    AttachParts(m, ps, head, tail);
    var c := ps[tail];
    var m', qs := Attached(m, head, c), With(ps, head, [head] + c);
    AttachedAllOk(m, head, c);
    AttachedFree(m, ps, head, tail);
    if At(m.bufs, head).nAddRefs > 0 {
      SharedHeadBreaks(m, ps, head, tail);
    } else {
      HeadAlone(m, ps, head, tail, tail);
      AttachedNew(m, head, c);
      hide AttachCall, Attached, PacketOk, PacketsOk, NoRepeats, AllOk, FreeClean, KnownOk, Counted, Kept;
      forall k | k in qs ensures PacketOk(m'.bufs, k, qs[k]) {
        if k != head {
          AttachedOther(m, ps, head, tail, k);
          PacketIn(m, ps, k);
          PacketSame(m.bufs, k, ps[k], m'.bufs);
        }
      }
      PacketsAll(m', qs);
      if AttachGood(m, head, c) {
        forall b | b in m'.bufs ensures Counted(m', qs, b) {
          assert b in m'.bufs.Keys;
          AttachedCounted(m, ps, head, tail, b);
        }
        Whole(m', qs);
      } else {
        var i :| 0 <= i < |c| && At(m.bufs, c[i]).nAddRefs >= MAX_U8;
        AttachedCounted(m, ps, head, tail, c[i]);
        assert c[i] in m'.bufs.Keys;
      }
    }
  }

  // The head's packet then holds its own bytes followed by the tail's.
  lemma {:induction false} AttachBytes(m: Mem, ps: Packets, head: nat, tail: nat)
    requires AttachCall(m, ps, head, tail) && AttachGood(m, head, ps[tail])
    ensures ps[tail] != []
    ensures Bytes(Attached(m, head, ps[tail]), [head] + ps[tail])
            == Bytes(m, ps[head]) + Bytes(m, ps[tail])
  {
    AttachParts(m, ps, head, tail);
    HeadAlone(m, ps, head, tail, tail);
    hide Attached, AttachCall, PacketsOk, PacketOk, NoRepeats, AllOk, FreeClean, KnownOk, AttachGood;
    AttachedBytes(m, head, ps[tail]);
  }

  lemma AttachedSame(m: Mem, head: nat, c: seq<nat>, i: nat)
    requires head !in c && i < |c| && c[i] in m.bufs
    ensures SameData(m, c, Attached(m, head, c), c, i)
  {
    hide Attached;
    assert c[i] in c;
    AttachedKept(m, head, c, c[i]);
  }

  lemma AttachedTail(m: Mem, head: nat, c: seq<nat>)
    requires head !in c && c != [] && forall i :: 0 <= i < |c| ==> c[i] in m.bufs
    ensures Bytes(Attached(m, head, c), c) == Bytes(m, c)
  {
    hide Attached, Bytes, SameData;
    forall i | 0 <= i < |c| ensures SameData(m, c, Attached(m, head, c), c, i) {
      AttachedSame(m, head, c, i);
    }
    BytesMatch(m, c, Attached(m, head, c), c);
  }

  lemma {:induction false} AttachedBytes(m: Mem, head: nat, c: seq<nat>)
    requires head in m.bufs && head !in c && c != [] && forall i :: 0 <= i < |c| ==> c[i] in m.bufs
    ensures Bytes(Attached(m, head, c), [head] + c) == Bytes(m, [head]) + Bytes(m, c)
  {
    hide Attached, Bytes, Data, Length;
    AttachedHead(m, head, c);
    AttachedTail(m, head, c);
    BytesCons(Attached(m, head, c), head, c);
    BytesSingle(m, head);
  }

  lemma BytesSingle(m: Mem, b: nat)
    ensures Bytes(m, [b]) == Data(m, At(m.bufs, b))
  {
    assert [b][1..] == [];
  }
}
