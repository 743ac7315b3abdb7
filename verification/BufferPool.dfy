// The buffer functions of vlib in place, on one free list: each is proved to compute its function in
// BufferSpec.dfy.
module BufferPoolMemory {
  import opened Base
  import opened BufferSpec
  import opened BufferFree
  import opened BufferClone
  import opened BufferAppend
  import opened BufferExtend
  import opened BufferRuns
  import opened BufferPoolSteps

  class BufferPool {
    const pre: nat
    const dataBytes: nat
    const minEach: nat
    var bufs: map<nat, Buffer>
    var free: seq<nat>
    var nAlloc: nat
    var known: map<nat, bool>
    var supply: seq<seq<nat>>

    function Value(): Mem
      reads this
    {
      Mem(pre, dataBytes, minEach, bufs, free, nAlloc, known, supply)
    }

    constructor (pre: nat, dataBytes: nat, minEach: nat, supply: seq<seq<nat>>)
      ensures Value() == Mem(pre, dataBytes, minEach, map[], [], 0, map[], supply)
    {
      this.pre, this.dataBytes, this.minEach := pre, dataBytes, minEach;
      bufs, free, nAlloc, known, this.supply := map[], [], 0, map[], supply;
    }

    // ----------------------------------------------------------------------------------------
    // Freeing and allocating

    // vlib_buffer_add_to_free_list, with the template's fields.
    method AddToFreeList(b: nat)
      requires b in bufs
      modifies this`bufs, this`free
      ensures bufs == old(bufs)[b := Initialized(old(bufs)[b])] && free == old(free) + [b]
    {
      bufs := bufs[b := Initialized(bufs[b])];
      free := free + [b];
    }

    // vlib_buffer_free_inline for one packet: c is the chain its loop walks.
    method FreeOne(bi: nat, ghost c: seq<nat>)
      requires IsChain(bufs, c) && c[0] == bi
      modifies this`bufs, this`free, this`known
      ensures Value() == FreePacket(old(Value()), c)
    {
      hide IsChain, NoRepeats, FreePacket, Initialized;
      ChainNoRepeats(bufs, c);
      LinkIn(bufs, c, 0);
      ghost var was := Value();
      WalkedNone(was, c);
      var at, i, more := bi, 0, true;
      while more
        invariant 0 <= i <= |c| && (more <==> i < |c|) && (i < |c| ==> at == c[i])
        invariant Walked(was, c, i, bufs, free, known)
        decreases |c| - i
      {
        LinkIn(was.bufs, c, i);
        Unwalked(was, c, i, bufs, free, known);
        var nextPresent, next := bufs[at].nextPresent, bufs[at].nextBuffer;
        if bufs[at].nAddRefs > 0 {
          bufs := bufs[at := bufs[at].(nAddRefs := bufs[at].nAddRefs - 1)];
        } else {
          known := known[at := false];
          AddToFreeList(at);
        }
        WalkOne(was, c, i);
        at := next;
        more := nextPresent;
        i := i + 1;
      }
      WalkedAll(was, c, bufs, free, known);
    }

    // vlib_buffer_free.
    method Free(hs: seq<nat>, ghost ps: Packets)
      requires Inv(Value(), ps) && NoRepeats(hs) && forall h :: h in hs ==> h in ps
      modifies this`bufs, this`free, this`known
      ensures Value() == FreeAll(old(Value()), ps, hs).0
    {
      ghost var was := Value();
      hide Inv, FreePacket, NoRepeats;
      var i := 0;
      FreedNone(was, ps, hs);
      while i < |hs|
        invariant 0 <= i <= |hs| && Freed(was, ps, hs, i, Value())
      {
        FreedChain(was, ps, hs, i, Value());
        FreedOne(was, ps, hs, i, Value());
        FreeOne(hs[i], ps[hs[i]]);
        i := i + 1;
      }
      FreedEnd(was, ps, hs, Value());
    }

    // The next answer of physmem, asked for n buffers.
    method PhysmemAlloc(n: nat) returns (chunk: Option<seq<nat>>)
      modifies this`supply
      ensures supply == Rest(old(supply))
      ensures chunk == if old(supply) == [] || !FreshChunk(old(Value()), n, old(supply)[0]) then None
                       else Some(old(supply)[0])
      ensures chunk.Some? ==> FreshChunk(Value(), n, chunk.value) && |chunk.value| == n
    {
      if supply == [] {
        return None;
      }
      var answer := supply[0];
      var good := FreshChunk(Value(), n, answer);
      supply := supply[1..];
      return if good then Some(answer) else None;
    }

    // One chunk of new buffers goes on the free list.
    method AddChunk(chunk: seq<nat>)
      requires FreshChunk(Value(), |chunk|, chunk)
      modifies this`bufs, this`free, this`known, this`nAlloc
      ensures Value() == Grown(old(Value()), chunk).(supply := supply)
    {
      ghost var was := Value();
      nAlloc := nAlloc + |chunk|;
      hide Grown, FreshChunk, NewBuffer, GrownPart;
      GrownNone(was, chunk);
      GrownFields(was, chunk);
      var i := 0;
      while i < |chunk|
        invariant 0 <= i <= |chunk| && nAlloc == was.nAlloc + |chunk|
        invariant GrownPart(was, chunk, i, bufs, free, known)
      {
        GrownMore(was, chunk, i, bufs, free, known);
        free := free + [chunk[i]];
        known := known[chunk[i] := false];
        bufs := bufs[chunk[i] := NewBuffer(Value())];
        NewAlike(was, Value());
        i := i + 1;
      }
      GrownAll(was, chunk, bufs, free, known);
    }

    // fill_free_list.
    method FillFreeList(minFree: nat) returns (filled: nat)
      modifies this`bufs, this`free, this`known, this`nAlloc, this`supply
      ensures (Value(), filled) == BufferSpec.FillFreeList(old(Value()), minFree)
    {
      hide FreshChunk, Grown, FillFrom;
      var n: int := minFree - |free|;
      if n <= 0 {
        return minFree;
      }
      n := RoundUp(n, CHUNK);
      if n < minEach { n := minEach; }
      var remaining: nat := n;
      filled := 0;
      ghost var was := Value();
      while remaining > 0
        invariant 0 <= filled <= n && remaining == n - filled
        invariant var rest := FillFrom(Value(), remaining);
                  FillFrom(was, n) == (rest.0, filled + rest.1)
        decreases remaining
      {
        ghost var now := Value();
        FillOne(now, remaining);
        var k := Min(remaining, CHUNK);
        var chunk := PhysmemAlloc(k);
        if chunk == None {
          return;
        }
        ghost var before := Value();
        AddChunk(chunk.value);
        GrownSupply(now, before, chunk.value);
        filled := filled + k;
        remaining := remaining - k;
      }
      FillNone(Value());
    }

    // alloc_from_free_list; None where its ASSERT fails.
    method AllocFromFreeList(n: nat) returns (got: Option<seq<nat>>)
      modifies this`bufs, this`free, this`known, this`nAlloc, this`supply
      ensures (Value(), got) == Alloc(old(Value()), n)
    {
      var filled := FillFreeList(n);
      if filled == 0 {
        return Some([]);
      }
      var len := |free|;
      if len < n {
        return None;
      }
      var ds := TakeLast(n);
      got := Some(ds);
    }

    // ... the buffers taken off the end of the list.
    method TakeLast(n: nat) returns (ds: seq<nat>)
      requires n <= |free|
      modifies this`free, this`known
      ensures Value() == Taken(old(Value()), n) && ds == old(free)[|old(free)| - n..]
    {
      hide Marked;
      ds := free[|free| - n..];
      free := free[..|free| - n];
      ValidateAllocFree(ds);
    }

    // vlib_buffer_validate_alloc_free for buffers about to be handed out.
    method ValidateAllocFree(ds: seq<nat>)
      modifies this`known
      ensures known == Marked(old(known), ds, true)
    {
      var i := 0;
      while i < |ds|
        invariant 0 <= i <= |ds|
        invariant known == Marked(old(known), ds[..i], true)
      {
        assert ds[..i + 1] == ds[..i] + [ds[i]];
        known := known[ds[i] := true];
        i := i + 1;
      }
      assert ds[..|ds|] == ds;
    }

    // ----------------------------------------------------------------------------------------
    // Copying, cloning, attaching

    // vlib_buffer_copy of the packet h: the head of the copy, if there is one.
    method CopyPacket(h: nat, ghost ps: Packets) returns (head: Option<nat>, ok: bool)
      requires Inv(Value(), ps) && h in ps
      modifies this`bufs, this`free, this`known, this`nAlloc, this`supply
      ensures var o := CopyStep(old(Value()), ps, ps[h]);
              && Value() == o.m && ok == o.ok && head == if o.heads == [] then None else Some(o.heads[0])
    {
      ghost var was, c := Value(), ps[h];
      var n := CountBuffers(h, ps);
      var got := AllocFromFreeList(n);
      if got == None {
        return None, false;
      }
      var ds := got.value;
      if |ds| < n {
        return None, true;
      }
      CopyReady(was, ps, h);
      CopySegments(h, ds, c);
      head, ok := Some(ds[0]), true;
    }

    // ... its segments, one for one, into the buffers ds.
    method CopySegments(h: nat, ds: seq<nat>, ghost c: seq<nat>)
      requires Copying(Value(), c, ds) && h == c[0]
      modifies this`bufs
      ensures Value() == Copied(old(Value()), c, ds)
    {
      ghost var g := Value();
      hide Copied, CopiedSegment, Copying, CopiedPart;
      CopiedFirst(g, c, ds);
      CopyingParts(g, c, ds);
      bufs := bufs[ds[0] := CopiedSegment(bufs[ds[0]], bufs[h], pre, true, None)];
      var s, i := h, 1;
      while i < |ds|
        invariant 1 <= i <= |ds| && s == c[i - 1]
        invariant CopiedPart(g, c, ds, i, bufs)
      {
        CopyWalk(g, c, ds, i, bufs);
        CopiedSnoc(g, c, ds, i, bufs);
        var d := ds[i - 1];
        bufs := bufs[d := bufs[d].(nextBuffer := ds[i])];
        s := bufs[s].nextBuffer;
        bufs := bufs[ds[i] := CopiedSegment(bufs[ds[i]], bufs[s], pre, false, None)];
        i := i + 1;
      }
      CopiedAll(g, c, ds, bufs);
    }

    // The number of buffers in the packet h.
    method CountBuffers(h: nat, ghost ps: Packets) returns (n: nat)
      requires Inv(Value(), ps) && h in ps
      ensures n == |ps[h]|
    {
      ghost var c := ps[h];
      assert IsChain(bufs, c) && c[0] == h by { PacketIn(Value(), ps, h); }
      hide Inv;
      n := 1;
      var s := h;
      assert LinkAt(bufs, c, 0);
      while bufs[s].nextPresent
        invariant 1 <= n <= |c| && s == c[n - 1] && LinkAt(bufs, c, n - 1)
        decreases |c| - n
      {
        n := n + 1;
        s := bufs[s].nextBuffer;
        assert LinkAt(bufs, c, n - 1);
      }
    }

    // vlib_buffer_clone: the heads it returns.
    method ClonePacket(src: nat, n: nat, headEnd: nat, ghost ps: Packets) returns (heads: seq<nat>, ok: bool)
      requires Inv(Value(), ps) && src in ps && 0 < n <= MAX_U8
      modifies this`bufs, this`free, this`known, this`nAlloc, this`supply
      ensures var o := CloneStep(old(Value()), ps, src, n, headEnd);
              Value() == o.m && heads == o.heads && ok == o.ok
    {
      ghost var was := Value();
      HeadIn(was, ps, src);
      if bufs[src].currentLength <= headEnd + 2 * CACHE_LINE_BYTES {
        heads, ok := CloneByCopying(src, n, ps);
        return;
      }
      var got := AllocFromFreeList(n);
      if got == None {
        return [], false;
      }
      heads, ok := got.value, true;
      if heads == [] {
        heads := [src];
      } else {
        CloneReady(was, ps, src, n, headEnd);
        CloneShared(src, heads, headEnd, ps[src]);
      }
    }

    // ... its copy path.
    method CloneByCopying(src: nat, n: nat, ghost ps: Packets) returns (heads: seq<nat>, ok: bool)
      requires Inv(Value(), ps) && src in ps && 0 < n
      modifies this`bufs, this`free, this`known, this`nAlloc, this`supply
      ensures var o := CopiesStep(old(Value()), ps, ps[src], n - 1);
              Value() == o.m && heads == [src] + o.heads && ok == o.ok
    {
      ghost var was := Value();
      hide Inv, CopiesStep, CopiesDone;
      var copies: seq<nat> := [];
      var i := 1;
      NoneDone(was, ps, src);
      while i < n
        invariant 1 <= i <= n && CopiesDone(was, ps, src, i - 1, Value(), copies)
      {
        var d;
        d, ok := CopyOnceMore(src, was, ps, i - 1, copies);
        if d == None {
          StoppedShort(was, ps, ps[src], i, n - 1);
          return [src] + copies, ok;
        }
        copies := copies + [d.value];
        i := i + 1;
      }
      DoneIs(was, ps, src, n - 1, Value(), copies);
      heads, ok := [src] + copies, true;
    }

    // One copy more after k.
    method CopyOnceMore(src: nat, ghost was: Mem, ghost ps: Packets, ghost k: nat, ghost copies: seq<nat>)
      returns (d: Option<nat>, ok: bool)
      requires src in ps && CopiesDone(was, ps, src, k, Value(), copies)
      modifies this`bufs, this`free, this`known, this`nAlloc, this`supply
      ensures d.Some? ==> CopiesDone(was, ps, src, k + 1, Value(), copies + [d.value])
      ensures d.None? ==> var o := CopiesStep(was, ps, ps[src], k + 1);
                          o.m == Value() && o.heads == copies && o.ok == ok && |o.heads| < k + 1
    {
      hide Inv, CopyStep, CopiesStep;
      ghost var qs := CopiesStep(was, ps, ps[src], k).ps;
      CopiesSnoc(was, ps, ps[src], k);
      ghost var now := Value();
      d, ok := CopyPacket(src, qs);
      if d.Some? {
        CopyMade(now, qs, src);
        assert CopyStep(now, qs, qs[src]).heads == [d.value];
      } else {
        assert copies + [] == copies;
      }
    }

    // ... its shared path, with the buffers ds for the heads.
    method CloneShared(src: nat, ds: seq<nat>, headEnd: nat, ghost c: seq<nat>)
      requires Cloning(Value(), c, ds) && c[0] == src
      modifies this`bufs
      ensures Value() == Cloned(old(Value()), c, ds, headEnd)
    {
      hide Cloning, Cloned, Patched, CloneHead, Advanced, IsChain, NoRepeats;
      ghost var g := Value();
      CloningParts(g, c, ds);
      CloningDone(g, c, ds, headEnd);
      CloneHeads(src, ds, headEnd);
      CloningChain(g, c, ds, headEnd);
      bufs := bufs[src := Advanced(bufs[src], headEnd)];
      SetRefs(src, |ds| - 1, c);
    }

    method CloneHeads(src: nat, ds: seq<nat>, headEnd: nat)
      requires src in bufs && src !in ds && NoRepeats(ds) && forall b :: b in ds ==> b in bufs
      modifies this`bufs
      ensures bufs == Patched(old(bufs), ds, HeadOf(old(bufs)[src], pre, src, headEnd))
    {
      hide PatchedPart, NoRepeats, CloneHead;
      ghost var was, f := bufs, HeadOf(bufs[src], pre, src, headEnd);
      PatchedNone(was, ds, f);
      var i := 0;
      while i < |ds|
        invariant 0 <= i <= |ds| && PatchedPart(was, ds, f, i, bufs)
      {
        PatchedNext(was, ds, f, i, bufs);
        PatchedOther(was, ds, f, i, bufs, src);
        bufs := bufs[ds[i] := CloneHead(bufs[ds[i]], bufs[src], pre, src, headEnd)];
        i := i + 1;
      }
      PatchedAll(was, ds, f, bufs);
    }

    // The counts of a chain's buffers, all set.
    method SetRefs(head: nat, count: nat, ghost c: seq<nat>)
      requires IsChain(bufs, c) && c[0] == head && NoRepeats(c)
      modifies this`bufs
      ensures bufs == Patched(old(bufs), c, RefsOf(count))
    {
      hide PatchedPart, NoRepeats, IsChain;
      ghost var was := bufs;
      var s, k := head, 1;
      LinkIn(was, c, 0);
      PatchedNone(was, c, RefsOf(count));
      PatchedNext(was, c, RefsOf(count), 0, bufs);
      bufs := bufs[s := bufs[s].(nAddRefs := count)];
      while bufs[s].nextPresent
        invariant 1 <= k <= |c| && s == c[k - 1] && PatchedPart(was, c, RefsOf(count), k, bufs)
        invariant s in was && s in bufs && bufs[s] == was[s].(nAddRefs := count)
        decreases |c| - k
      {
        LinkIn(was, c, k - 1);
        LinkIn(was, c, k);
        s := bufs[s].nextBuffer;
        PatchedNext(was, c, RefsOf(count), k, bufs);
        bufs := bufs[s := bufs[s].(nAddRefs := count)];
        k := k + 1;
      }
      LinkIn(was, c, k - 1);
      PatchedAll(was, c, RefsOf(count), bufs);
    }

    // The counts of a chain's buffers, each one up in 8 bits.
    method AddRefs(head: nat, ghost c: seq<nat>)
      requires IsChain(bufs, c) && c[0] == head && NoRepeats(c)
      modifies this`bufs
      ensures bufs == Patched(old(bufs), c, OneMore)
    {
      hide PatchedPart, NoRepeats, IsChain;
      ghost var was := bufs;
      var s, more := head, true;
      ghost var k := 0;
      PatchedNone(was, c, OneMore);
      LinkIn(was, c, 0);
      while more
        invariant 0 <= k <= |c| && (more <==> k < |c|) && (more ==> s == c[k])
        invariant PatchedPart(was, c, OneMore, k, bufs)
        decreases |c| - k
      {
        LinkIn(was, c, k);
        PatchedNext(was, c, OneMore, k, bufs);
        bufs := bufs[s := bufs[s].(nAddRefs := (bufs[s].nAddRefs + 1) % (MAX_U8 + 1))];
        more := bufs[s].nextPresent;
        s := bufs[s].nextBuffer;
        k := k + 1;
      }
      PatchedAll(was, c, OneMore, bufs);
    }

    // vlib_buffer_attach_clone.
    method AttachClone(head: nat, tail: nat, ghost c: seq<nat>)
      requires IsChain(bufs, c) && c[0] == tail && head in bufs && head !in c
      modifies this`bufs
      ensures Value() == Attached(old(Value()), head, c)
    {
      hide IsChain, NoRepeats, Patched, Attached;
      ghost var g := Value();
      ChainNoRepeats(bufs, c);
      LinkIn(bufs, c, 0);
      AttachingDone(g, head, c);
      AttachingChain(g, head, c);
      var t := bufs[tail];
      bufs := bufs[head := LinkedHead(bufs[head], t, tail)];
      AddRefs(tail, c);
    }

    // ----------------------------------------------------------------------------------------
    // Appending and measuring

    // vlib_buffer_chain_init.
    method ChainInit(first: nat)
      requires first in bufs
      modifies this`bufs
      ensures Value() == Init(old(Value()), first)
    {
      var b := bufs[first].(totalRest := 0, currentLength := 0);
      bufs := bufs[first := b.(nextPresent := false, totalLengthValid := true)];
    }

    // vlib_buffer_chain_buffer.
    method ChainBuffer(last: nat, next: nat)
      requires last in bufs && next in bufs
      modifies this`bufs
      ensures Value() == Chained(old(Value()), last, next)
    {
      ghost var g := Value();
      bufs := bufs[last := bufs[last].(nextBuffer := next, nextPresent := true)];
      bufs := bufs[next := bufs[next].(currentLength := 0, nextPresent := false)];
      assert bufs == Chained(g, last, next).bufs;
    }

    // The copy behind the data of `last`, and vlib_buffer_chain_increase_length.
    method PutBytes(first: nat, last: nat, bytes: seq<u8>)
      requires first in bufs && last in bufs
      modifies this`bufs
      ensures Value() == Put(old(Value()), first, last, bytes)
    {
      hide Overwritten, Put;
      PutDone(Value(), first, last, bytes);
      var b := bufs[last];
      bufs := bufs[last := b.(mem := Overwritten(b.mem, pre + b.currentData + b.currentLength, bytes))];
      bufs := bufs[last := bufs[last].(currentLength := bufs[last].currentLength + |bytes|)];
      if first != last {
        bufs := bufs[first := bufs[first].(totalRest := bufs[first].totalRest + |bytes|)];
      }
    }

    // vlib_buffer_chain_append_data.
    method AppendData(first: nat, last: nat, data: seq<u8>) returns (copied: nat)
      requires first in bufs && last in bufs
      modifies this`bufs
      ensures copied == Min(|data|, Room(old(Value()), old(bufs)[last]))
      ensures Value() == Put(old(Value()), first, last, data[..copied])
    {
      copied := Min(|data|, Room(Value(), bufs[last]));
      PutBytes(first, last, data[..copied]);
    }

    // vlib_buffer_chain_append_data_with_alloc.
    method AppendDataWithAlloc(first: nat, last0: nat, data: seq<u8>, ghost ps: Packets)
      returns (copied: nat, last: nat)
      requires AppendCall(Value(), ps, first) && last0 == Last(ps[first])
      modifies this`bufs, this`free, this`known, this`nAlloc, this`supply
      ensures var a := BufferSpec.AppendData(old(Value()), first, last0, data);
              Value() == a.m && copied == a.copied && last == a.last
    {
      ghost var was := Value();
      ghost var added: seq<nat> := [];
      hide Appending, Room, AppendCall;
      copied, last := 0, last0;
      AppendingStart(was, ps, first, data);
      while copied < |data|
        invariant Appending(was, ps, first, data, Value(), copied, last, added)
        invariant copied <= |data|
        decreases |data| - copied
      {
        var d := MakeRoom(first, last, data, was, ps, copied, added);
        if d == None {
          return;
        }
        if d.value != last { added := added + [d.value]; }
        last := d.value;
        AppendingPut(was, ps, first, data, Value(), copied, last, added);
        AppendingIn(was, ps, first, data, Value(), copied, last, added);
        var len := Min(|data| - copied, Room(Value(), bufs[last]));
        PutBytes(first, last, data[copied..copied + len]);
        copied := copied + len;
      }
      AppendingEnd(was, ps, first, data, Value(), copied, last, added);
    }

    // The last buffer if it has room, else a new one behind it, if there is one.
    method MakeRoom(first: nat, last: nat, data: seq<u8>, ghost was: Mem, ghost ps: Packets, ghost copied: nat,
                    ghost added: seq<nat>) returns (d: Option<nat>)
      requires Appending(was, ps, first, data, Value(), copied, last, added) && copied < |data|
      modifies this`bufs, this`free, this`known, this`nAlloc, this`supply
      ensures d.Some? ==> d.value in bufs && Room(Value(), bufs[d.value]) != 0
      ensures d.Some? ==> Appending(was, ps, first, data, Value(), copied, d.value,
                                    if d.value != last then added + [d.value] else added)
      ensures d.None? ==> var a := BufferSpec.AppendData(was, first, Last(ps[first]), data);
                          a.m == Value() && a.copied == copied && a.last == last
    {
      hide Appending, Room;
      ghost var now := Value();
      AppendingIn(was, ps, first, data, now, copied, last, added);
      if Room(Value(), bufs[last]) != 0 {
        return Some(last);
      }
      AppendingAlloc(was, ps, first, data, now, copied, last, added);
      var got := AllocFromFreeList(1);
      if |got.value| != 1 {
        return None;
      }
      AppendingChained(was, ps, first, data, now, copied, last, added);
      ChainBuffer(last, got.value[0]);
      d := Some(got.value[0]);
    }

    // vlib_buffer_length_in_chain_slow_path.
    method LengthInChainSlowPath(h: nat, ghost c: seq<nat>) returns (l: nat)
      requires IsChain(bufs, c) && NoRepeats(c) && c[0] == h
      modifies this`bufs
      ensures l == old(bufs)[h].currentLength + Length(old(bufs), c[1..])
      ensures bufs == old(bufs)[h := old(bufs)[h].(totalRest := Length(old(bufs), c[1..]), totalLengthValid := true)]
    {
      var first, b := bufs[h].currentLength, h;
      l := 0;
      ghost var k := 1;
      assert LinkAt(bufs, c, 0);
      while bufs[b].nextPresent
        invariant 1 <= k <= |c| && b == c[k - 1] && LinkAt(bufs, c, k - 1)
        invariant l + Length(bufs, c[k..]) == Length(bufs, c[1..])
        decreases |c| - k
      {
        b := bufs[b].nextBuffer;
        l := l + bufs[b].currentLength;
        assert c[k..][1..] == c[k + 1..] && LinkAt(bufs, c, k);
        k := k + 1;
      }
      bufs := bufs[h := bufs[h].(totalRest := l, totalLengthValid := true)];
      l := l + first;
    }

    // vlib_buffer_length_in_chain.
    method LengthInChain(h: nat, ghost c: seq<nat>) returns (l: nat)
      requires IsChain(bufs, c) && c[0] == h
      modifies this`bufs
      ensures l == BufferSpec.LengthInChain(old(Value()), c) && Value() == Measured(old(Value()), c)
    {
      var b := bufs[h];
      l := b.currentLength + b.totalRest;
      if b.nextPresent && !b.totalLengthValid {
        ChainNoRepeats(bufs, c);
        l := LengthInChainSlowPath(h, c);
      }
    }

    // vlib_buffer_contents.
    method Contents(h: nat, ghost c: seq<nat>) returns (contents: seq<u8>)
      requires IsChain(bufs, c) && c[0] == h && AllOk(Value())
      ensures contents == Bytes(Value(), c)
    {
      var b, more := h, true;
      contents := [];
      ghost var k := 0;
      assert c != [];
      ContentsStart(Value(), c);
      hide Bytes, AllOk, IsChain, ContentsSoFar;
      while more
        invariant 0 <= k <= |c| && (more <==> k < |c|) && (more ==> b == c[k])
        invariant ContentsSoFar(Value(), c, k, contents)
        decreases |c| - k
      {
        ContentsNext(Value(), c, k, contents);
        var x := bufs[b];
        var from := pre + x.currentData;
        contents := contents + x.mem[from..from + x.currentLength];
        more, b := x.nextPresent, x.nextBuffer;
        k := k + 1;
      }
      ContentsEnd(Value(), c, contents);
    }
  }
}
