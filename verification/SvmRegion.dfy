// The page allocator in place: the bitmap is scanned, set and cleared bit by bit.
module SvmRegion {
  import opened Base
  import opened SvmPages

  class RootRegion {
    const overhead: nat
    const bitmap: array<bool>
    // Memory past the bitmap, read and written without a bounds check.
    var beyond: nat -> bool
    var regions: map<string, Region>

    ghost function Value(): Root
      reads this, bitmap
    {
      Root(overhead, bitmap[..], regions)
    }

    constructor (overhead: nat, size: nat, beyond: nat -> bool)
      ensures Value() == Root(overhead, seq(size, k => k < overhead), map[]) && fresh(bitmap)
      ensures this.beyond == beyond
    {
      this.overhead, this.beyond := overhead, beyond;
      bitmap := new bool[size](k => k < overhead);
      regions := map[];
      new;
      assert bitmap[..] == seq(size, k => k < overhead);
    }

    function GetBit(i: nat): (b: bool)
      reads this, bitmap
      ensures b == Bit(bitmap[..], beyond, i)
    {
      if i < bitmap.Length then bitmap[i] else beyond(i)
    }

    // The scan: on a set bit inside a candidate range it goes on from that bit.
    method FindRange(need: nat) returns (found: Option<nat>)
      ensures found == FirstFit(bitmap[..], beyond, need, 1)
    {
      var index := 1;
      while index < bitmap.Length
        invariant 1 <= index && FirstFit(bitmap[..], beyond, need, 1) == FirstFit(bitmap[..], beyond, need, index)
        decreases bitmap.Length - index
      {
        if !GetBit(index) {
          var i := 0;
          while i < need - 1 && !GetBit(index + i)
            invariant 0 <= i && (i == 0 || i <= need - 1)
            invariant forall k: nat :: index <= k < index + i ==> !Bit(bitmap[..], beyond, k)
          {
            i := i + 1;
          }
          if i >= need - 1 {
            return Some(index);
          }
          SkipTo(bitmap[..], beyond, need, index, index + i);
          index := index + i;
        } else {
          index := index + 1;
        }
      }
      found := None;
    }

    // clib_bitmap_set_no_check.
    method SetBit(i: nat, state: bool)
      modifies this`beyond, bitmap
      ensures bitmap[..] == Marked(old(bitmap[..]), i, 1, state)
      ensures forall k: nat :: beyond(k) == if k == i >= bitmap.Length then state else old(beyond)(k)
    {
      if i < bitmap.Length {
        bitmap[i] := state;
      } else {
        var was := beyond;
        beyond := (k: nat) => if k == i then state else was(k);
      }
    }

    method SetBits(from: nat, n: nat, state: bool)
      modifies this`beyond, bitmap
      ensures bitmap[..] == Marked(old(bitmap[..]), from, n, state) && Overwrites(old(beyond), from, n, state)
    {
      var i := 0;
      while i < n
        invariant 0 <= i <= n && bitmap[..] == Marked(old(bitmap[..]), from, i, state)
        invariant Overwrites(old(beyond), from, i, state)
      {
        SetBit(from + i, state);
        i := i + 1;
      }
    }

    // Past the bitmap, exactly the bits of the range have been written.
    ghost predicate Overwrites(was: nat -> bool, from: nat, n: nat, state: bool)
      reads this
    {
      forall k: nat :: beyond(k) == if from <= k < from + n && k >= bitmap.Length then state else was(k)
    }

    // svm_region_find_or_create: the first page of the region, or None where no range is found. Whether
    // the range is a good one is what CreateExact says.
    method FindOrCreate(name: string, pid: nat, need: nat) returns (base: Option<nat>)
      modifies this`regions, this`beyond, bitmap
      ensures Value() == Create(old(Value()), old(beyond), name, pid, need)
      ensures base == if name in regions then Some(regions[name].base) else None
      ensures if name in old(regions) || base == None then beyond == old(beyond)
              else Overwrites(old(beyond), base.value, need, true)
    {
      if name in regions {
        var g := regions[name];
        regions := regions[name := g.(clients := g.clients + [pid])];
        return Some(g.base);
      }
      var found := FindRange(need);
      if found == None {
        return None;
      }
      SetBits(found.value, need, true);
      regions := regions[name := Region(found.value, need, [pid])];
      base := found;
    }

    // svm_region_unmap.
    method UnmapRegion(name: string, pid: nat)
      modifies this`regions, this`beyond, bitmap
      ensures Value() == Unmap(old(Value()), name, pid)
      ensures if name !in old(regions) || name in regions then beyond == old(beyond)
              else Overwrites(old(beyond), old(regions)[name].base, old(regions)[name].pages, false)
    {
      if name !in regions {
        return;
      }
      var g := regions[name];
      var clients := RemoveClient(g.clients, pid);
      if |clients| == 0 {
        SetBits(g.base, g.pages, false);
        regions := regions - {name};
      } else {
        regions := regions[name := g.(clients := clients)];
      }
    }

    static method RemoveClient(clients: seq<nat>, pid: nat) returns (left: seq<nat>)
      ensures left == Without(clients, pid)
    {
      var i := 0;
      while i < |clients|
        invariant 0 <= i <= |clients| && pid !in clients[..i]
      {
        if clients[i] == pid {
          WithoutFirst(clients, pid, i);
          return clients[..i] + clients[i + 1..];
        }
        i := i + 1;
      }
      WithoutFirst(clients, pid, i);
      left := clients;
    }
  }

  // Removing a client takes out its first occurrence.
  lemma {:induction false} WithoutFirst(clients: seq<nat>, pid: nat, i: nat)
    requires i <= |clients| && pid !in clients[..i] && (i < |clients| ==> clients[i] == pid)
    ensures Without(clients, pid) == if i < |clients| then clients[..i] + clients[i + 1..] else clients
    decreases i
  {
    if i > 0 {
      assert clients[0] in clients[..i] && clients[1..][..i - 1] == clients[..i][1..];
      WithoutFirst(clients[1..], pid, i - 1);
      assert clients == [clients[0]] + clients[1..];
      assert i < |clients| ==> clients[1..][i..] == clients[i + 1..];
    }
  }

  // No range fits that starts at `index` or after it, but not after a set bit it would need.
  lemma {:induction false} SkipTo(bits: seq<bool>, beyond: nat -> bool, need: nat, index: nat, next: nat)
    requires index <= next < index + need - 1 && Bit(bits, beyond, next)
    ensures FirstFit(bits, beyond, need, index) == FirstFit(bits, beyond, need, next)
    decreases next - index
  {
    if index < next && index < |bits| {
      assert !LooksFree(bits, beyond, index, need);
      SkipTo(bits, beyond, need, index + 1, next);
    }
  }
}
