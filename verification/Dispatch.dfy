// Speculative enqueue: buffers are written to the frame of a guessed next node, and moved to the
// right one afterwards where the guess was wrong.
module Dispatch {

  // A buffer index.
  newtype u32 = x: int | 0 <= x < 0x1_0000_0000

  const VLIB_FRAME_SIZE: nat := 256

  // ------------------------------------------------------------------------------------------
  // Plain dispatch: each buffer to its own next node, in order

  function One<T>(bi: T, next: nat, k: nat): seq<T> {
    if next == k then [bi] else []
  }

  // The buffers addressed to next node k.
  function Addressed(bis: seq<u32>, nexts: seq<nat>, k: nat): (r: seq<u32>)
    requires |bis| == |nexts|
  {
    if bis == [] then []
    else
      var i := |bis| - 1;
      Addressed(bis[..i], nexts[..i], k) + One(bis[i], nexts[i], k)
  }

  // Where in the input the buffers for k stand.
  function Places(nexts: seq<nat>, k: nat): (r: seq<nat>) {
    if nexts == [] then []
    else
      var i := |nexts| - 1;
      Places(nexts[..i], k) + One(i, nexts[i], k)
  }

  // Exactly the places addressed to k, each once, in input order.
  lemma {:induction false} PlacesRight(nexts: seq<nat>, k: nat)
    ensures var ps := Places(nexts, k);
            && (forall i :: i in ps <==> 0 <= i < |nexts| && nexts[i] == k)
            && (forall i, j :: 0 <= i < j < |ps| ==> ps[i] < ps[j])
  {
    if nexts != [] {
      var i := |nexts| - 1;
      PlacesRight(nexts[..i], k);
      var ps := Places(nexts[..i], k);
      forall j | 0 <= j < |ps| ensures ps[j] < i { assert ps[j] in ps; }
      forall x ensures x in Places(nexts, k) <==> 0 <= x < |nexts| && nexts[x] == k {
        assert x in Places(nexts, k) <==> x in ps || x in One(i, nexts[i], k);
        if 0 <= x < i { assert nexts[..i][x] == nexts[x]; }
      }
    }
  }

  // What k is sent is the buffers at its places.
  lemma {:induction false} AddressedPlaces(bis: seq<u32>, nexts: seq<nat>, k: nat)
    requires |bis| == |nexts|
    ensures |Addressed(bis, nexts, k)| == |Places(nexts, k)|
    ensures forall i :: 0 <= i < |Places(nexts, k)| ==>
              Places(nexts, k)[i] < |bis| && Addressed(bis, nexts, k)[i] == bis[Places(nexts, k)[i]]
  {
    if bis != [] {
      AddressedPlaces(bis[..|bis| - 1], nexts[..|bis| - 1], k);
    }
  }

  // All the next nodes below n together.
  ghost function Together(bis: seq<u32>, nexts: seq<nat>, n: nat): multiset<u32>
    requires |bis| == |nexts|
  {
    if n == 0 then multiset{} else Together(bis, nexts, n - 1) + multiset(Addressed(bis, nexts, n - 1))
  }

  lemma {:induction false} TogetherOne(bis: seq<u32>, nexts: seq<nat>, n: nat)
    requires |bis| == |nexts| > 0
    ensures var i := |bis| - 1;
            Together(bis, nexts, n)
            == Together(bis[..i], nexts[..i], n) + multiset(if nexts[i] < n then [bis[i]] else [])
    decreases n
  {
    hide Together, Addressed;
    var i := |bis| - 1;
    TogetherUnfold(bis, nexts, n);
    TogetherUnfold(bis[..i], nexts[..i], n);
    if n > 0 {
      TogetherOne(bis, nexts, n - 1);
      AddressedOne(bis, nexts, n - 1);
      Regroup(Together(bis[..i], nexts[..i], n - 1), multiset(if nexts[i] < n - 1 then [bis[i]] else []),
              multiset(Addressed(bis[..i], nexts[..i], n - 1)), multiset(if nexts[i] == n - 1 then [bis[i]] else []));
    }
  }

  lemma TogetherUnfold(bis: seq<u32>, nexts: seq<nat>, n: nat)
    requires |bis| == |nexts|
    ensures Together(bis, nexts, n)
            == if n == 0 then multiset{} else Together(bis, nexts, n - 1) + multiset(Addressed(bis, nexts, n - 1))
  {
  }

  lemma Regroup(a: multiset<u32>, b: multiset<u32>, c: multiset<u32>, d: multiset<u32>)
    ensures (a + b) + (c + d) == (a + c) + (b + d)
  {
  }

  lemma AddressedOne(bis: seq<u32>, nexts: seq<nat>, k: nat)
    requires |bis| == |nexts| > 0
    ensures var i := |bis| - 1;
            multiset(Addressed(bis, nexts, k))
            == multiset(Addressed(bis[..i], nexts[..i], k)) + multiset(if nexts[i] == k then [bis[i]] else [])
  {
  }

  lemma OneMore(bis: seq<u32>, i: nat)
    requires |bis| == i + 1
    ensures multiset(bis) == multiset(bis[..i]) + multiset([bis[i]])
  {
    assert bis == bis[..i] + [bis[i]];
  }

  // No buffer is lost or sent twice.
  lemma {:induction false} AllSent(bis: seq<u32>, nexts: seq<nat>, n: nat)
    requires |bis| == |nexts| && forall i :: 0 <= i < |nexts| ==> nexts[i] < n
    ensures Together(bis, nexts, n) == multiset(bis)
    decreases |bis|
  {
    hide Together, Addressed;
    if bis == [] {
      NoneSent(n);
      assert nexts == [];
    } else {
      var i := |bis| - 1;
      AllSent(bis[..i], nexts[..i], n);
      TogetherOne(bis, nexts, n);
      OneMore(bis, i);
    }
  }

  lemma {:induction false} NoneSent(n: nat)
    ensures Together([], [], n) == multiset{}
    decreases n
  {
    if n > 0 { NoneSent(n - 1); }
  }

  lemma AddressedSnoc(bis: seq<u32>, nexts: seq<nat>, i: nat, k: nat)
    requires i < |bis| == |nexts|
    ensures Addressed(bis[..i + 1], nexts[..i + 1], k)
            == Addressed(bis[..i], nexts[..i], k) + One(bis[i], nexts[i], k)
  {
    assert bis[..i + 1][..i] == bis[..i] && nexts[..i + 1][..i] == nexts[..i];
  }

  // Buffers for different next nodes do not follow each other anywhere.
  lemma Swapped(q: seq<u32>, bi: u32, bj: u32, a: nat, b: nat, k: nat)
    requires a != b
    ensures q + One(bj, b, k) + One(bi, a, k) == q + One(bi, a, k) + One(bj, b, k)
  {
  }

  // ------------------------------------------------------------------------------------------
  // Frames

  class NextFrames {
    const n: nat
    // For each next node: what full frames hold, and the slots of the open frame with how many of
    // them the frame itself counts.
    var flushed: seq<seq<u32>>
    var slots: seq<seq<u32>>
    var used: seq<nat>
    var cachedNext: nat

    ghost predicate Valid()
      reads this
    {
      && |flushed| == |slots| == |used| == n && cachedNext < n
      && forall k :: 0 <= k < n ==>
           |slots[k]| == VLIB_FRAME_SIZE && used[k] <= VLIB_FRAME_SIZE && |flushed[k]| % VLIB_FRAME_SIZE == 0
    }

    constructor (n: nat)
      requires 0 < n
      ensures Valid() && this.n == n && forall k :: 0 <= k < n ==> Queue(k) == []
    {
      this.n := n;
      flushed := seq(n, k => []);
      slots := seq(n, k => seq(VLIB_FRAME_SIZE, i => 0));
      used := seq(n, k => 0);
      cachedNext := 0;
    }

    // What next node k has been sent, if the first `count` slots of its open frame are.
    ghost function Sent(k: nat, count: nat): seq<u32>
      requires Valid() && k < n && count <= VLIB_FRAME_SIZE
      reads this
    {
      flushed[k] + slots[k][..count]
    }

    ghost function Queue(k: nat): seq<u32>
      requires Valid() && k < n
      reads this
    {
      Sent(k, used[k])
    }

    // The frame of `next` is open: the node's own cursor is at slot `at`, with `left` slots to go.
    ghost predicate Open(next: nat, at: nat, left: nat)
      requires Valid()
      reads this
    {
      next < n && at + left == VLIB_FRAME_SIZE && used[next] <= at
    }

    // What next node k has been sent while that frame is open.
    ghost function InFlight(k: nat, next: nat, at: nat): seq<u32>
      requires Valid() && k < n && at <= VLIB_FRAME_SIZE
      reads this
    {
      if k == next then Sent(k, at) else Queue(k)
    }

    // vlib_get_next_frame: a full frame is left to be dispatched and a new one opened.
    method GetNextFrame(next: nat) returns (at: nat, left: nat)
      requires Valid() && next < n
      modifies this`flushed, this`used
      ensures Valid() && Open(next, at, left) && 0 < left && at == used[next]
      ensures forall k :: 0 <= k < n ==> Queue(k) == old(Queue(k))
      ensures forall k :: 0 <= k < n && k != next ==> used[k] == old(used[k]) && flushed[k] == old(flushed[k])
    {
      if used[next] >= VLIB_FRAME_SIZE {
        flushed := flushed[next := flushed[next] + slots[next]];
        used := used[next := 0];
        assert slots[next] == slots[next][..VLIB_FRAME_SIZE];
      }
      at, left := used[next], VLIB_FRAME_SIZE - used[next];
    }

    // vlib_put_next_frame; its ASSERT wants no fewer vectors in the frame than before.
    method PutNextFrame(next: nat, left: nat)
      requires Valid() && next < n && left <= VLIB_FRAME_SIZE && used[next] <= VLIB_FRAME_SIZE - left
      modifies this`used, this`cachedNext
      ensures Valid()
      ensures forall k :: 0 <= k < n ==> Queue(k) == old(InFlight(k, next, VLIB_FRAME_SIZE - left))
      ensures used == old(used)[next := VLIB_FRAME_SIZE - left]
      ensures cachedNext == if left < VLIB_FRAME_SIZE then next else old(cachedNext)
    {
      used := used[next := VLIB_FRAME_SIZE - left];
      if used[next] > 0 {
        cachedNext := next;
      }
    }

    method Store(next: nat, at: nat, bi: u32)
      requires Valid() && next < n && at < VLIB_FRAME_SIZE && used[next] <= at
      modifies this`slots
      ensures Valid() && slots == old(slots)[next := old(slots)[next][at := bi]]
      ensures Sent(next, at + 1) == old(Sent(next, at)) + [bi]
      ensures forall k :: 0 <= k < n ==> Queue(k) == old(Queue(k))
    {
      slots := slots[next := slots[next][at := bi]];
      assert slots[next][..at + 1] == old(slots)[next][..at] + [bi];
      assert slots[next][..used[next]] == old(slots)[next][..used[next]];
    }

    // vlib_set_next_frame_buffer.
    method SetNextFrameBuffer(next: nat, bi: u32)
      requires Valid() && next < n
      modifies this`flushed, this`used, this`slots, this`cachedNext
      ensures Valid()
      ensures forall k :: 0 <= k < n ==> Queue(k) == old(Queue(k)) + One(bi, next, k)
      ensures forall k :: 0 <= k < n && k != next ==>
                flushed[k] == old(flushed[k]) && slots[k] == old(slots[k]) && used[k] == old(used[k])
    {
      var at, left := GetNextFrame(next);
      PutNextFrame(next, left - 1);
      slots := slots[next := slots[next][at := bi]];
      assert slots[next][..at + 1] == slots[next][..at] + [bi];
    }

    // ----------------------------------------------------------------------------------------
    // Fixing up a wrong guess. Each buffer has been written to the open frame of `next0`, and the
    // cursor is past it; the cursor may end up in another frame.

    // vlib_validate_buffer_enqueue_x1.
    method ValidateEnqueueX1(next0: nat, at0: nat, left0: nat, bi: u32, a: nat) returns (next: nat, at: nat, left: nat)
      requires Valid() && Open(next0, at0, left0) && used[next0] + 1 <= at0 && a < n
      requires slots[next0][at0 - 1] == bi
      modifies this`flushed, this`used, this`slots, this`cachedNext
      ensures Valid() && Open(next, at, left) && next == a
      ensures forall k :: 0 <= k < n ==> InFlight(k, next, at) == old(InFlight(k, next0, at0 - 1)) + One(bi, a, k)
    {
      next, at, left := next0, at0, left0;
      assert slots[next][..at] == slots[next][..at - 1] + [bi];
      assert Sent(next, at) == Sent(next, at - 1) + [bi];
      if a != next {
        PutNextFrame(next, left + 1);
        next := a;
        at, left := GetNextFrame(next);
        assert Sent(a, at) == Queue(a) == old(InFlight(a, next0, at0 - 1));
        Store(next, at, bi);
        at, left := at + 1, left - 1;
      }
      forall k | 0 <= k < n ensures InFlight(k, next, at) == old(InFlight(k, next0, at0 - 1)) + One(bi, a, k) {
        if k != a { assert InFlight(k, next, at) == old(InFlight(k, next0, at0 - 1)); }
      }
    }

    // The guess changes: the open frame is put back and another one opened.
    method Reopen(next0: nat, at0: nat, left0: nat, next: nat) returns (next': nat, at: nat, left: nat)
      requires Valid() && Open(next0, at0, left0) && next < n
      modifies this`flushed, this`used, this`cachedNext
      ensures Valid() && Open(next, at, left) && next' == next
      ensures forall k :: 0 <= k < n ==> InFlight(k, next, at) == old(InFlight(k, next0, at0))
    {
      PutNextFrame(next0, left0);
      next' := next;
      label put:
      at, left := GetNextFrame(next);
      forall k | 0 <= k < n ensures InFlight(k, next, at) == old(InFlight(k, next0, at0)) {
        assert InFlight(k, next, at) == Queue(k) == old@put(Queue(k));
      }
    }

    // Frames other than the open one are sent a buffer; the open one keeps what it has.
    method SendElsewhere(next: nat, at: nat, left: nat, bi: u32, a: nat)
      requires Valid() && Open(next, at, left) && a < n && a != next
      modifies this`flushed, this`used, this`slots, this`cachedNext
      ensures Valid() && Open(next, at, left) && slots[next] == old(slots[next]) && used[next] == old(used[next])
      ensures forall k :: 0 <= k < n ==> InFlight(k, next, at) == old(InFlight(k, next, at)) + One(bi, a, k)
      ensures flushed[next] == old(flushed[next])
    {
      SetNextFrameBuffer(a, bi);
    }

    // Both guesses wrong: "A B B or A B C".
    method SendBoth(next0: nat, at0: nat, left0: nat, bi: u32, bj: u32, a: nat, b: nat)
      returns (next: nat, at: nat, left: nat)
      requires Valid() && Open(next0, at0, left0) && a < n && b < n && a != next0 && b != next0
      modifies this`flushed, this`used, this`slots, this`cachedNext
      ensures Valid() && Open(next, at, left) && next == if a == b then b else next0
      ensures forall k :: 0 <= k < n ==>
                InFlight(k, next, at) == old(InFlight(k, next0, at0)) + One(bi, a, k) + One(bj, b, k)
    {
      hide One;
      next, at, left := next0, at0, left0;
      SendElsewhere(next, at, left, bi, a);
      SendElsewhere(next, at, left, bj, b);
      if a == b {
        next, at, left := Reopen(next, at, left, b);
      }
    }

    // vlib_validate_buffer_enqueue_x2.
    method ValidateEnqueueX2(next0: nat, at0: nat, left0: nat, bi: u32, bj: u32, a: nat, b: nat)
      returns (next: nat, at: nat, left: nat)
      requires Valid() && Open(next0, at0, left0) && used[next0] + 2 <= at0 && a < n && b < n
      requires slots[next0][at0 - 2] == bi && slots[next0][at0 - 1] == bj
      modifies this`flushed, this`used, this`slots, this`cachedNext
      ensures Valid() && Open(next, at, left) && next == if a == b then a else next0
      ensures forall k :: 0 <= k < n ==>
                InFlight(k, next, at) == old(InFlight(k, next0, at0 - 2)) + One(bi, a, k) + One(bj, b, k)
    {
      hide One;
      next, at, left := next0, at0, left0;
      if a == next && b == next {
        BothGuessed(next, at, bi, bj);
      } else if b == next {
        at, left := at - 1, left + 1;
        PutSecond(next, at, bj);
        SendElsewhere(next, at, left, bi, a);
        forall k | 0 <= k < n
          ensures InFlight(k, next, at) == old(InFlight(k, next0, at0 - 2)) + One(bi, a, k) + One(bj, b, k)
        {
          Swapped(old(InFlight(k, next0, at0 - 2)), bi, bj, a, b, k);
        }
      } else if a == next {
        at, left := at - 1, left + 1;
        FirstGuessed(next, at, bi);
        SendElsewhere(next, at, left, bj, b);
      } else {
        next, at, left := SendBoth(next, at - 2, left + 2, bi, bj, a, b);
      }
    }

    // "A A A": what the cursor has passed is right.
    lemma BothGuessed(next: nat, at: nat, bi: u32, bj: u32)
      requires Valid() && next < n && 2 <= at <= VLIB_FRAME_SIZE
      requires slots[next][at - 2] == bi && slots[next][at - 1] == bj
      ensures forall k :: 0 <= k < n ==>
                InFlight(k, next, at) == InFlight(k, next, at - 2) + One(bi, next, k) + One(bj, next, k)
    {
      assert slots[next][..at - 1] == slots[next][..at - 2] + [bi];
      assert slots[next][..at] == slots[next][..at - 1] + [bj];
    }

    // "A A B": the first of the two is right.
    lemma FirstGuessed(next: nat, at: nat, bi: u32)
      requires Valid() && next < n && 1 <= at <= VLIB_FRAME_SIZE && slots[next][at - 1] == bi
      ensures forall k :: 0 <= k < n ==> InFlight(k, next, at) == InFlight(k, next, at - 1) + One(bi, next, k)
    {
      assert slots[next][..at] == slots[next][..at - 1] + [bi];
    }

    // "A B A": the second takes the first one's slot.
    method PutSecond(next: nat, at: nat, bj: u32)
      requires Valid() && next < n && 1 <= at <= VLIB_FRAME_SIZE && used[next] < at
      modifies this`slots
      ensures Valid()
      ensures forall k :: 0 <= k < n ==> InFlight(k, next, at) == old(InFlight(k, next, at - 1)) + One(bj, next, k)
    {
      slots := slots[next := slots[next][at - 1 := bj]];
      assert slots[next][..at] == old(slots[next])[..at - 1] + [bj];
    }

    // vlib_validate_buffer_enqueue_x4, where some guess was wrong: one buffer, to the open frame or
    // elsewhere.
    method Redo(next: nat, at: nat, left: nat, bi: u32, a: nat) returns (at': nat, left': nat)
      requires Valid() && Open(next, at, left) && 0 < left && a < n
      modifies this`flushed, this`used, this`slots, this`cachedNext
      ensures Valid() && Open(next, at', left') && at' <= at + 1
      ensures forall k :: 0 <= k < n ==> InFlight(k, next, at') == old(InFlight(k, next, at)) + One(bi, a, k)
    {
      at', left' := at, left;
      if next == a {
        Store(next, at, bi);
        at', left' := at + 1, left - 1;
      } else {
        SendElsewhere(next, at, left, bi, a);
      }
    }

    // The four buffers before the cursor, and the packets each next node gets of them.
    ghost predicate Guessed(next: nat, at: nat, bis: seq<u32>)
      requires Valid() && next < n && at <= VLIB_FRAME_SIZE
      reads this
    {
      |bis| <= at && slots[next][at - |bis|..at] == bis
    }

    // ... all four of them.
    method RedoFour(next: nat, at0: nat, left0: nat, bis: seq<u32>, nexts: seq<nat>) returns (at: nat, left: nat)
      requires Valid() && Open(next, at0, left0) && 4 <= left0 && |bis| == |nexts| == 4
      requires forall i :: 0 <= i < 4 ==> nexts[i] < n
      modifies this`flushed, this`used, this`slots, this`cachedNext
      ensures Valid() && Open(next, at, left)
      ensures forall k :: 0 <= k < n ==> InFlight(k, next, at) == Plus(old(InFlight(k, next, at0)), bis, nexts, k)
    {
      hide One;
      at, left := Redo(next, at0, left0, bis[0], nexts[0]);
      at, left := Redo(next, at, left, bis[1], nexts[1]);
      at, left := Redo(next, at, left, bis[2], nexts[2]);
      at, left := Redo(next, at, left, bis[3], nexts[3]);
    }

    // vlib_validate_buffer_enqueue_x4.
    method ValidateEnqueueX4(next0: nat, at0: nat, left0: nat, bis: seq<u32>, nexts: seq<nat>)
      returns (next: nat, at: nat, left: nat)
      requires Valid() && Open(next0, at0, left0) && used[next0] + 4 <= at0 && |bis| == |nexts| == 4
      requires Guessed(next0, at0, bis) && forall i :: 0 <= i < 4 ==> nexts[i] < n
      modifies this`flushed, this`used, this`slots, this`cachedNext
      ensures Valid() && Open(next, at, left) && next == if nexts[2] == nexts[3] then nexts[3] else next0
      ensures forall k :: 0 <= k < n ==>
                InFlight(k, next, at) == old(InFlight(k, next0, at0 - 4)) + Addressed(bis, nexts, k)
    {
      next, at, left := next0, at0, left0;
      hide Addressed, Plus;
      if next != nexts[0] || next != nexts[1] || next != nexts[2] || next != nexts[3] {
        at, left := RedoFour(next, at - 4, left + 4, bis, nexts);
        if nexts[2] == nexts[3] {
          next, at, left := Reopen(next, at, left, nexts[3]);
        }
      } else {
        assert slots[next][..at] == slots[next][..at - 4] + bis;
        assert Sent(next, at) == Sent(next, at - 4) + bis;
      }
      forall k | 0 <= k < n
        ensures InFlight(k, next, at) == old(InFlight(k, next0, at0 - 4)) + Addressed(bis, nexts, k)
      {
        AddressedFour(bis, nexts, k, old(InFlight(k, next0, at0 - 4)));
        if nexts == [next0, next0, next0, next0] {
          AllGuessed(bis, nexts, next0, k);
          assert k != next0 ==> InFlight(k, next, at) == old(InFlight(k, next0, at0 - 4));
        }
      }
    }

    // ----------------------------------------------------------------------------------------
    // The dual/single loop

    // Each next node has been sent what it had and its share of the first i buffers.
    ghost predicate SoFar(was: seq<seq<u32>>, bis: seq<u32>, nexts: seq<nat>, i: nat, next: nat, at: nat)
      requires Valid() && |was| == n && i <= |bis| == |nexts| && at <= VLIB_FRAME_SIZE
      reads this
    {
      forall k :: 0 <= k < n ==> InFlight(k, next, at) == was[k] + Addressed(bis[..i], nexts[..i], k)
    }

    // Two buffers guessed, then put right.
    method Dual(next0: nat, at0: nat, left0: nat, bis: seq<u32>, nexts: seq<nat>, i: nat, ghost was: seq<seq<u32>>)
      returns (next: nat, at: nat, left: nat)
      requires Valid() && Open(next0, at0, left0) && 2 <= left0 && i + 2 <= |bis| == |nexts| && |was| == n
      requires (forall j :: 0 <= j < |nexts| ==> nexts[j] < n) && SoFar(was, bis, nexts, i, next0, at0)
      modifies this`flushed, this`used, this`slots, this`cachedNext
      ensures Valid() && Open(next, at, left) && SoFar(was, bis, nexts, i + 2, next, at)
    {
      Store(next0, at0, bis[i]);
      Store(next0, at0 + 1, bis[i + 1]);
      assert slots[next0][..at0] == old(slots[next0][..at0]);
      assert SoFar(was, bis, nexts, i, next0, at0);
      next, at, left := ValidateEnqueueX2(next0, at0 + 2, left0 - 2, bis[i], bis[i + 1], nexts[i], nexts[i + 1]);
      forall k | 0 <= k < n ensures InFlight(k, next, at) == was[k] + Addressed(bis[..i + 2], nexts[..i + 2], k) {
        AddressedSnoc(bis, nexts, i, k);
        AddressedSnoc(bis, nexts, i + 1, k);
        JoinedTwice(was[k], Addressed(bis[..i], nexts[..i], k), One(bis[i], nexts[i], k),
                    One(bis[i + 1], nexts[i + 1], k));
      }
    }

    // One buffer guessed, then put right.
    method Single(next0: nat, at0: nat, left0: nat, bis: seq<u32>, nexts: seq<nat>, i: nat, ghost was: seq<seq<u32>>)
      returns (next: nat, at: nat, left: nat)
      requires Valid() && Open(next0, at0, left0) && 1 <= left0 && i < |bis| == |nexts| && |was| == n
      requires (forall j :: 0 <= j < |nexts| ==> nexts[j] < n) && SoFar(was, bis, nexts, i, next0, at0)
      modifies this`flushed, this`used, this`slots, this`cachedNext
      ensures Valid() && Open(next, at, left) && SoFar(was, bis, nexts, i + 1, next, at)
    {
      Store(next0, at0, bis[i]);
      assert slots[next0][..at0] == old(slots[next0][..at0]);
      assert SoFar(was, bis, nexts, i, next0, at0);
      next, at, left := ValidateEnqueueX1(next0, at0 + 1, left0 - 1, bis[i], nexts[i]);
      forall k | 0 <= k < n ensures InFlight(k, next, at) == was[k] + Addressed(bis[..i + 1], nexts[..i + 1], k) {
        AddressedSnoc(bis, nexts, i, k);
        Joined(was[k], Addressed(bis[..i], nexts[..i], k), One(bis[i], nexts[i], k));
      }
    }

    // generic_buffer_node_inline; nexts is what its callbacks choose, buffer by buffer.
    method GenericBufferNode(bis: seq<u32>, nexts: seq<nat>) returns (count: nat)
      requires Valid() && |bis| == |nexts| && forall i :: 0 <= i < |nexts| ==> nexts[i] < n
      modifies this`flushed, this`used, this`slots, this`cachedNext
      ensures Valid() && count == |bis|
      ensures forall k :: 0 <= k < n ==> Queue(k) == old(Queue(k)) + Addressed(bis, nexts, k)
    {
      ghost var was := seq(n, k requires 0 <= k < n reads this requires Valid() => Queue(k));
      hide Addressed;
      var i: nat, next: nat := 0, cachedNext;
      assert forall k :: 0 <= k < n ==> Addressed(bis[..0], nexts[..0], k) == [] by { NoneAddressed(); }
      while i < |bis|
        invariant Valid() && 0 <= i <= |bis| && next < n
        invariant SoFar(was, bis, nexts, i, next, used[next])
        decreases |bis| - i
      {
        i, next := FrameLoop(bis, nexts, i, next, was);
      }
      assert bis[..|bis|] == bis && nexts[..|nexts|] == nexts;
      count := |bis|;
    }

    // ... its body: the dual loop and the single loop on one frame.
    method FrameLoop(bis: seq<u32>, nexts: seq<nat>, i0: nat, next0: nat, ghost was: seq<seq<u32>>)
      returns (i: nat, next: nat)
      requires Valid() && i0 < |bis| == |nexts| && next0 < n && |was| == n
      requires (forall j :: 0 <= j < |nexts| ==> nexts[j] < n) && SoFar(was, bis, nexts, i0, next0, used[next0])
      modifies this`flushed, this`used, this`slots, this`cachedNext
      ensures Valid() && i0 < i <= |bis| && next < n && SoFar(was, bis, nexts, i, next, used[next])
    {
      hide Addressed, SoFar;
      i, next := i0, next0;
      var at, left := OpenFrame(next, was, bis, nexts, i);
      while |bis| - i >= 4 && left >= 2
        invariant Valid() && Open(next, at, left) && i0 <= i <= |bis| && (i == i0 ==> 0 < left)
        invariant SoFar(was, bis, nexts, i, next, at)
        decreases |bis| - i
      {
        next, at, left := Dual(next, at, left, bis, nexts, i, was);
        i := i + 2;
      }
      while i < |bis| && left > 0
        invariant Valid() && Open(next, at, left) && i0 <= i <= |bis| && (i == i0 ==> 0 < left)
        invariant SoFar(was, bis, nexts, i, next, at)
        decreases |bis| - i
      {
        next, at, left := Single(next, at, left, bis, nexts, i, was);
        i := i + 1;
      }
      CloseFrame(next, at, left, was, bis, nexts, i);
    }

    method OpenFrame(next: nat, ghost was: seq<seq<u32>>, ghost bis: seq<u32>, ghost nexts: seq<nat>, ghost i: nat)
      returns (at: nat, left: nat)
      requires Valid() && next < n && |was| == n && i <= |bis| == |nexts|
      requires SoFar(was, bis, nexts, i, next, used[next])
      modifies this`flushed, this`used
      ensures Valid() && Open(next, at, left) && 0 < left && SoFar(was, bis, nexts, i, next, at)
    {
      at, left := GetNextFrame(next);
      forall k | 0 <= k < n ensures InFlight(k, next, at) == was[k] + Addressed(bis[..i], nexts[..i], k) {
        assert Queue(k) == old(Queue(k));
        assert InFlight(k, next, at) == Queue(k) && old(InFlight(k, next, used[next]) == Queue(k));
      }
    }

    method CloseFrame(next: nat, ghost at: nat, left: nat, ghost was: seq<seq<u32>>, ghost bis: seq<u32>,
                      ghost nexts: seq<nat>, ghost i: nat)
      requires Valid() && Open(next, at, left) && |was| == n && i <= |bis| == |nexts|
      requires SoFar(was, bis, nexts, i, next, at)
      modifies this`used, this`cachedNext
      ensures Valid() && SoFar(was, bis, nexts, i, next, used[next])
    {
      PutNextFrame(next, left);
      forall k | 0 <= k < n ensures InFlight(k, next, used[next]) == was[k] + Addressed(bis[..i], nexts[..i], k) {
        assert Queue(k) == old(InFlight(k, next, at)) && InFlight(k, next, used[next]) == Queue(k);
      }
    }
  }

  lemma NoneAddressed()
    ensures forall k :: Addressed([], [], k) == []
  {
  }

  lemma JoinedTwice(a: seq<u32>, b: seq<u32>, c: seq<u32>, d: seq<u32>)
    ensures a + ((b + c) + d) == ((a + b) + c) + d
  {
  }

  // q and then each of four buffers that is for k: what four single calls send.
  function Plus(q: seq<u32>, bis: seq<u32>, nexts: seq<nat>, k: nat): seq<u32>
    requires |bis| == |nexts| == 4
  {
    q + One(bis[0], nexts[0], k) + One(bis[1], nexts[1], k) + One(bis[2], nexts[2], k) + One(bis[3], nexts[3], k)
  }

  // Four buffers in one call are four calls with one each.
  lemma AddressedFour(bis: seq<u32>, nexts: seq<nat>, k: nat, q: seq<u32>)
    requires |bis| == |nexts| == 4
    ensures q + Addressed(bis, nexts, k) == Plus(q, bis, nexts, k)
  {
    assert bis[..4] == bis && nexts[..4] == nexts;
    assert Addressed(bis[..0], nexts[..0], k) == [];
    AddressedSnoc(bis, nexts, 0, k);
    AddressedSnoc(bis, nexts, 1, k);
    AddressedSnoc(bis, nexts, 2, k);
    AddressedSnoc(bis, nexts, 3, k);
    hide Addressed, One;
    FourAfter(q, One(bis[0], nexts[0], k), One(bis[1], nexts[1], k), One(bis[2], nexts[2], k),
              One(bis[3], nexts[3], k));
  }

  lemma AllGuessed(bis: seq<u32>, nexts: seq<nat>, next: nat, k: nat)
    requires |bis| == |nexts| == 4 && nexts == [next, next, next, next]
    ensures Addressed(bis, nexts, k) == if k == next then bis else []
  {
    AddressedFour(bis, nexts, k, []);
    hide Addressed;
    assert [] + Addressed(bis, nexts, k) == Addressed(bis, nexts, k);
  }

  lemma FourAfter(q: seq<u32>, a: seq<u32>, b: seq<u32>, c: seq<u32>, d: seq<u32>)
    ensures q + ([] + a + b + c + d) == q + a + b + c + d
  {
    assert [] + a == a;
    Joined(q, a + b + c, d);
    Joined(q, a + b, c);
    Joined(q, a, b);
  }

  lemma Joined(a: seq<u32>, b: seq<u32>, c: seq<u32>)
    ensures a + (b + c) == (a + b) + c
  {
  }
}
