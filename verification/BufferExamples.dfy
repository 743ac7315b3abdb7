// Calls that break the ownership invariant, on a small memory.
module BufferExamples {
  import opened Base
  import opened BufferSpec
  import opened BufferFree
  import opened BufferAlloc
  import opened BufferClone
  import opened BufferAttach
  import opened BufferAppend
  import opened BufferExtend
  import opened BufferAppendExact

  // Buffer 1 links to buffer 2, which is a packet of its own too; buffer 3 is single.
  function Memory(): Mem {
    Mem(0, 1, 0,
        map[1 := Buffer(0, 0, true, true, false, 0, 2, 0, [0]),
            2 := Buffer(0, 0, false, false, false, 0, 0, 1, [0]),
            3 := Buffer(0, 0, false, false, false, 0, 0, 0, [0])],
        [], 3, map[1 := true, 2 := true, 3 := true], [])
  }

  function Alive(): Packets {
    map[1 := [1, 2], 2 := [2], 3 := [3]]
  }

  lemma ChainsAre()
    ensures PacketOk(Memory().bufs, 1, [1, 2])
    ensures PacketOk(Memory().bufs, 2, [2]) && PacketOk(Memory().bufs, 3, [3])
  {
    var bufs := Memory().bufs;
    assert LinkAt(bufs, [1, 2], 0) && LinkAt(bufs, [1, 2], 1) && LinkAt(bufs, [2], 0) && LinkAt(bufs, [3], 0);
    assert [1, 2][1..] == [2] && [2][1..] == [] && [3][1..] == [];
  }

  lemma PacketsAre()
    ensures PacketsOk(Memory(), Alive())
  {
    hide PacketOk, Memory;
    ChainsAre();
  }

  lemma UsersAre(b: nat)
    requires 1 <= b <= 3
    ensures Users(Alive(), b) == if b == 2 then {1, 2} else {b}
  {
  }

  lemma CountsAre(b: nat)
    requires b in Memory().bufs
    ensures Counted(Memory(), Alive(), b)
  {
    hide Users, Alive;
    UsersAre(b);
  }

  lemma ListIs()
    ensures NoRepeats(Memory().free) && FreeClean(Memory()) && KnownOk(Memory()) && AllOk(Memory())
  {
    var m := Memory();
    assert m.bufs.Keys == {1, 2, 3} && |m.bufs| == |m.bufs.Keys|;
  }

  lemma MemoryInv()
    ensures Inv(Memory(), Alive())
  {
    hide Memory, Alive, NoRepeats, FreeClean, KnownOk, AllOk, PacketsOk, Counted;
    PacketsAre();
    ListIs();
    forall b | b in Memory().bufs ensures Counted(Memory(), Alive(), b) { CountsAre(b); }
    Whole(Memory(), Alive());
  }

  lemma CloneCallIs()
    ensures CloneCall(Memory(), Alive() - {3}, 1, [3], 0)
  {
    hide Inv;
    MemoryInv();
    var ps := Alive() - {3};
    assert ps + Singles([3]) == Alive();
    assert Users(ps, 3) == {};
  }

  // The source's first buffer is unshared, as the call's ASSERT asks, but its tail is not: the tail's
  // count is overwritten, and the other packet through it is no longer counted.
  lemma CloneLosesCount()
    ensures var m, ps := Memory(), Alive() - {3};
            CloneCall(m, ps, 1, [3], 0) && 1 in ps && ps[1] != [] && !Inv(Cloned(m, ps[1], [3], 0), Clones(ps, 1, [3]))
  {
    hide Inv, CloneCall, Cloned, Clones;
    var m, ps := Memory(), Alive() - {3};
    CloneCallIs();
    CloneExact(m, ps, 1, [3], 0);
    assert m.bufs[ps[1][1]].nAddRefs == 1;
  }

  // The head has one buffer, as the call's ASSERT asks, but another packet ends in it: that packet
  // gets the tail as well.
  lemma AttachChangesOther()
    ensures var m, ps := Memory(), Alive();
            AttachCall(m, ps, 2, 3) && ps[3] != [] && !Inv(Attached(m, 2, ps[3]), With(ps, 2, [2] + ps[3]))
  {
    hide Inv, Attached;
    MemoryInv();
    AttachExact(Memory(), Alive(), 2, 3);
    assert Memory().bufs[2].nAddRefs == 1;
  }

  // Putting a byte behind packet 1 puts it behind packet 2 as well, which ends in the same buffer.
  lemma PutChangesOther(x: u8)
    ensures var m, ps := Memory(), Alive();
            PutCall(m, ps, 1, [x]) && Last(ps[1]) == 2 && !PutRight(m, ps, 1, [x], Put(m, 1, 2, [x]))
  {
    hide Inv, Put, PutRight;
    MemoryInv();
    PutExact(Memory(), Alive(), 1, [x]);
  }

  // A buffer chained behind packet 1 is chained behind packet 2 as well.
  lemma ChainChangesOther()
    ensures var m, ps := Memory(), Alive() - {3};
            ChainCall(m, ps, 1, 3) && Last(ps[1]) == 2 && !ChainRight(m, ps, 1, 3, Chained(m, 2, 3))
  {
    hide Inv, Chained, ChainRight;
    CloneCallIs();
    ChainExact(Memory(), Alive() - {3}, 1, 3);
  }

  // Bytes appended to packet 1, new buffers or none, change packet 2.
  lemma AppendChangesOther(x: u8)
    ensures var m, ps := Memory(), Alive();
            Inv(m, ps) && Sized(m) && !AppendDone(m, ps, 1, [x], AppendData(m, 1, Last(ps[1]), [x]))
  {
    hide Inv, AppendDone, AppendData, Fresh;
    MemoryInv();
    AppendExact(Memory(), Alive(), 1, [x]);
    assert Room(Memory(), Memory().bufs[2]) == 1;
  }
}
