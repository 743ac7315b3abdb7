// The page allocator of the root region: a bitmap of the virtual address space, one bit a page.
module SvmPages {
  import opened Base

  // A mapped region: its first page, its pages, and the processes that map it.
  datatype Region = Region(base: nat, pages: nat, clients: seq<nat>)

  // The first `overhead` pages hold the root region itself.
  datatype Root = Root(overhead: nat, bits: seq<bool>, regions: map<string, Region>)

  // A bit read without a bounds check: past the bitmap, whatever memory holds.
  function Bit(bits: seq<bool>, beyond: nat -> bool, i: nat): bool {
    if i < |bits| then bits[i] else beyond(i)
  }

  // The pages the scan looks at before it takes `need` of them: all but the last one.
  predicate LooksFree(bits: seq<bool>, beyond: nat -> bool, index: nat, need: nat) {
    !Bit(bits, beyond, index) && forall k: nat :: index <= k < index + need - 1 ==> !Bit(bits, beyond, k)
  }

  // First fit: the first page from `index` on where they look free.
  function FirstFit(bits: seq<bool>, beyond: nat -> bool, need: nat, index: nat): (r: Option<nat>)
    decreases |bits| - index
  {
    if index >= |bits| then None
    else if LooksFree(bits, beyond, index, need) then Some(index)
    else FirstFit(bits, beyond, need, index + 1)
  }

  function Marked(bits: seq<bool>, from: nat, n: nat, state: bool): (r: seq<bool>)
    ensures |r| == |bits|
  {
    seq(|bits|, k requires 0 <= k < |bits| => if from <= k < from + n then state else bits[k])
  }

  // svm_region_find_or_create, as far as it concerns the root region.
  function Create(r: Root, beyond: nat -> bool, name: string, pid: nat, need: nat): Root {
    if name in r.regions then
      var g := r.regions[name];
      r.(regions := r.regions[name := g.(clients := g.clients + [pid])])
    else
      match FirstFit(r.bits, beyond, need, 1)
      case None => r
      case Some(i) => r.(bits := Marked(r.bits, i, need, true), regions := r.regions[name := Region(i, need, [pid])])
  }

  function Without(clients: seq<nat>, pid: nat): seq<nat> {
    if clients == [] then []
    else if clients[0] == pid then clients[1..]
    else [clients[0]] + Without(clients[1..], pid)
  }

  // svm_region_unmap.
  function Unmap(r: Root, name: string, pid: nat): Root {
    if name !in r.regions then r
    else
      var g := r.regions[name];
      var left := Without(g.clients, pid);
      if left == [] then r.(bits := Marked(r.bits, g.base, g.pages, false), regions := r.regions - {name})
      else r.(regions := r.regions[name := g.(clients := left)])
  }

  // ------------------------------------------------------------------------------------------

  predicate In(g: Region, k: nat) {
    g.base <= k < g.base + g.pages
  }

  ghost predicate RegionOk(r: Root, g: Region) {
    0 < g.pages && r.overhead <= g.base && g.base + g.pages <= |r.bits|
  }

  ghost predicate Apart(g: Region, h: Region) {
    g.base + g.pages <= h.base || h.base + h.pages <= g.base
  }

  // The regions are in bounds and disjoint, and exactly their pages and the overhead are taken.
  ghost predicate Inv(r: Root) {
    && 0 < r.overhead <= |r.bits|
    && (forall n :: n in r.regions ==> RegionOk(r, r.regions[n]))
    && (forall m, n :: m in r.regions && n in r.regions && m != n ==> Apart(r.regions[m], r.regions[n]))
    && forall k :: 0 <= k < |r.bits| ==> (r.bits[k] <==> Taken(r, k))
  }

  ghost predicate Taken(r: Root, k: nat) {
    k < r.overhead || exists n :: n in r.regions && In(r.regions[n], k)
  }

  // Nothing before the place found looks free, and that place does.
  lemma {:induction false} FirstFitIs(bits: seq<bool>, beyond: nat -> bool, need: nat, index: nat)
    ensures match FirstFit(bits, beyond, need, index)
            case None => forall j :: index <= j < |bits| ==> !LooksFree(bits, beyond, j, need)
            case Some(i) => index <= i < |bits| && LooksFree(bits, beyond, i, need)
                            && forall j :: index <= j < i ==> !LooksFree(bits, beyond, j, need)
    decreases |bits| - index
  {
    if index < |bits| && !LooksFree(bits, beyond, index, need) {
      FirstFitIs(bits, beyond, need, index + 1);
    }
  }

  // What the scan does not test: the range ends inside the bitmap, and its last page is free.
  predicate ReallyFits(bits: seq<bool>, index: nat, need: nat) {
    0 < need && index + need <= |bits| && !bits[index + need - 1]
  }

  lemma RangeFree(r: Root, beyond: nat -> bool, need: nat, i: nat)
    requires Inv(r) && FirstFit(r.bits, beyond, need, 1) == Some(i) && ReallyFits(r.bits, i, need)
    ensures forall k :: i <= k < i + need ==> !r.bits[k] && !Taken(r, k)
  {
    FirstFitIs(r.bits, beyond, need, 1);
    forall k | i <= k < i + need ensures !r.bits[k] {
      if k < i + need - 1 { assert !Bit(r.bits, beyond, k); }
    }
  }

  lemma RangeApart(r: Root, i: nat, need: nat, n: string, g: Region)
    requires Inv(r) && n in r.regions && g.base == i && g.pages == need && 0 < need
    requires forall k :: i <= k < i + need ==> !Taken(r, k)
    ensures Apart(r.regions[n], g)
  {
    var h := r.regions[n];
    assert RegionOk(r, h);
    var k := if h.base < i then i else h.base;
    assert In(h, k) ==> Taken(r, k);
  }

  lemma TakenWith(r: Root, name: string, g: Region, bits: seq<bool>, k: nat)
    requires name !in r.regions
    ensures Taken(r.(bits := bits, regions := r.regions[name := g]), k) <==> Taken(r, k) || In(g, k)
  {
    var r' := r.(bits := bits, regions := r.regions[name := g]);
    if n :| n in r.regions && In(r.regions[n], k) { assert n in r'.regions && In(r'.regions[n], k); }
    if In(g, k) { assert name in r'.regions && In(r'.regions[name], k); }
    if n :| n in r'.regions && In(r'.regions[n], k) { assert n != name ==> n in r.regions && In(r.regions[n], k); }
  }

  lemma NewFits(r: Root, beyond: nat -> bool, name: string, pid: nat, need: nat, i: nat)
    requires Inv(r) && name !in r.regions && 0 < need && FirstFit(r.bits, beyond, need, 1) == Some(i)
    requires ReallyFits(r.bits, i, need)
    ensures Inv(Create(r, beyond, name, pid, need))
  {
    var r', g := Create(r, beyond, name, pid, need), Region(i, need, [pid]);
    RangeFree(r, beyond, need, i);
    assert !Taken(r, i) && r.overhead <= i;
    forall n | n in r.regions ensures Apart(r.regions[n], g) && RegionOk(r', r.regions[n]) {
      RangeApart(r, i, need, n, g);
      assert RegionOk(r, r.regions[n]);
    }
    forall k | 0 <= k < |r'.bits| ensures r'.bits[k] <==> Taken(r', k) {
      TakenWith(r, name, g, r'.bits, k);
      assert r.bits[k] <==> Taken(r, k);
    }
    hide Taken;
    forall m, n | m in r'.regions && n in r'.regions && m != n ensures Apart(r'.regions[m], r'.regions[n]) {
      if m != name && n != name { assert Apart(r.regions[m], r.regions[n]); }
    }
  }

  // Creating a region keeps the bitmap and the regions right if and only if the range found ends
  // inside the bitmap and its last page is free.
  lemma CreateExact(r: Root, beyond: nat -> bool, name: string, pid: nat, need: nat, i: nat)
    requires Inv(r) && name !in r.regions && 0 < need && FirstFit(r.bits, beyond, need, 1) == Some(i)
    ensures Inv(Create(r, beyond, name, pid, need)) <==> ReallyFits(r.bits, i, need)
  {
    if ReallyFits(r.bits, i, need) {
      NewFits(r, beyond, name, pid, need, i);
    } else {
      FirstFitIs(r.bits, beyond, need, 1);
      var r' := Create(r, beyond, name, pid, need);
      var g := r'.regions[name];
      assert !r.bits[i] && !Taken(r, i);
      if RegionOk(r', g) {
        var k := i + need - 1;
        assert Taken(r, k);
        var n :| n in r.regions && In(r.regions[n], k);
        assert n in r'.regions && n != name && !Apart(r'.regions[n], g);
      }
    }
  }

  lemma AttachKeeps(r: Root, beyond: nat -> bool, name: string, pid: nat, need: nat)
    requires Inv(r) && name in r.regions
    ensures Inv(Create(r, beyond, name, pid, need)) && Create(r, beyond, name, pid, need).bits == r.bits
  {
    var g := r.regions[name];
    SameRanges(r, r.regions[name := g.(clients := g.clients + [pid])]);
  }

  // Who maps the regions does not matter to their pages.
  lemma SameRanges(r: Root, regions: map<string, Region>)
    requires Inv(r) && regions.Keys == r.regions.Keys
    requires forall n :: n in regions ==> regions[n].base == r.regions[n].base && regions[n].pages == r.regions[n].pages
    ensures Inv(r.(regions := regions))
  {
    var r' := r.(regions := regions);
    forall n | n in regions ensures RegionOk(r', regions[n]) { assert RegionOk(r, r.regions[n]); }
    forall m, n | m in regions && n in regions && m != n ensures Apart(regions[m], regions[n]) {
      assert Apart(r.regions[m], r.regions[n]);
    }
    forall k: nat ensures Taken(r, k) <==> Taken(r', k) {
      if n :| n in r.regions && In(r.regions[n], k) { assert In(regions[n], k); }
      if n :| n in regions && In(regions[n], k) { assert In(r.regions[n], k); }
    }
  }

  lemma DropKeeps(r: Root, name: string)
    requires Inv(r) && name in r.regions
    ensures var g := r.regions[name];
            Inv(r.(bits := Marked(r.bits, g.base, g.pages, false), regions := r.regions - {name}))
  {
    var g := r.regions[name];
    var r' := r.(bits := Marked(r.bits, g.base, g.pages, false), regions := r.regions - {name});
    assert RegionOk(r, g);
    forall k | 0 <= k < |r'.bits| ensures r'.bits[k] <==> Taken(r', k) {
      if n :| n in r.regions && In(r.regions[n], k) {
        if n != name { assert n in r'.regions && Apart(r.regions[n], g); }
      }
      if n :| n in r'.regions && In(r'.regions[n], k) {
        assert Apart(r.regions[n], g) && In(r.regions[n], k);
      }
    }
  }

  lemma UnmapKeeps(r: Root, name: string, pid: nat)
    requires Inv(r)
    ensures Inv(Unmap(r, name, pid))
  {
    if name in r.regions {
      var g := r.regions[name];
      if Without(g.clients, pid) == [] {
        DropKeeps(r, name);
      } else {
        SameRanges(r, r.regions[name := g.(clients := Without(g.clients, pid))]);
      }
    }
  }

  // Creating a region and unmapping it again leaves everything as it was.
  lemma CreateUnmap(r: Root, beyond: nat -> bool, name: string, pid: nat, need: nat)
    requires Inv(r) && name !in r.regions && 0 < need
    requires match FirstFit(r.bits, beyond, need, 1) case None => true case Some(i) => ReallyFits(r.bits, i, need)
    ensures Unmap(Create(r, beyond, name, pid, need), name, pid) == r
  {
    FirstFitIs(r.bits, beyond, need, 1);
    match FirstFit(r.bits, beyond, need, 1)
    case None =>
    case Some(i) =>
      var c := Create(r, beyond, name, pid, need);
      forall k | i <= k < i + need ensures !r.bits[k] {
        if k < i + need - 1 { assert !Bit(r.bits, beyond, k); }
      }
      assert Marked(c.bits, i, need, false) == r.bits;
      assert c.regions - {name} == r.regions;
  }

  // ------------------------------------------------------------------------------------------
  // Runs

  datatype Request =
    | Creating(name: string, pid: nat, need: nat, beyond: nat -> bool)
    | Unmapping(name: string, pid: nat)

  ghost predicate Allowed(r: Root, q: Request) {
    q.Creating? && q.name !in r.regions ==>
      0 < q.need && match FirstFit(r.bits, q.beyond, q.need, 1)
                    case None => true
                    case Some(i) => ReallyFits(r.bits, i, q.need)
  }

  function Step(r: Root, q: Request): Root {
    match q
    case Creating(name, pid, need, beyond) => Create(r, beyond, name, pid, need)
    case Unmapping(name, pid) => Unmap(r, name, pid)
  }

  ghost predicate Run(states: seq<Root>, qs: seq<Request>) {
    |states| == |qs| + 1
    && forall i :: 0 <= i < |qs| ==> Allowed(states[i], qs[i]) && states[i + 1] == Step(states[i], qs[i])
  }

  // Over any run from a root region with nothing but its overhead, live regions stay disjoint and in
  // bounds, and the bits set are exactly their pages and the overhead.
  lemma {:induction false} RunKeeps(states: seq<Root>, qs: seq<Request>, overhead: nat, size: nat)
    requires 0 < overhead <= size && Run(states, qs)
    requires states[0] == Root(overhead, seq(size, k => k < overhead), map[])
    ensures Inv(states[|qs|])
    decreases |qs|
  {
    var k := |qs|;
    if k > 0 {
      RunKeeps(states[..k], qs[..k - 1], overhead, size);
      StepKeeps(states[k - 1], qs[k - 1]);
    }
  }

  lemma StepKeeps(r: Root, q: Request)
    requires Inv(r) && Allowed(r, q)
    ensures Inv(Step(r, q))
  {
    match q
    case Creating(name, pid, need, beyond) =>
      if name in r.regions {
        AttachKeeps(r, beyond, name, pid, need);
      } else if FirstFit(r.bits, beyond, need, 1).Some? {
        NewFits(r, beyond, name, pid, need, FirstFit(r.bits, beyond, need, 1).value);
      }
    case Unmapping(name, pid) => UnmapKeeps(r, name, pid);
  }

  // The last free pages are fewer than those asked for: bits past the bitmap are set.
  lemma PastEnd()
    ensures var r := Root(1, [true, true, false], map["a" := Region(1, 1, [7])]);
            Inv(r) && !Inv(Create(r, i => false, "b", 8, 2))
  {
    var r := Root(1, [true, true, false], map["a" := Region(1, 1, [7])]);
    assert In(r.regions["a"], 1);
    assert LooksFree(r.bits, i => false, 2, 2) && !LooksFree(r.bits, i => false, 1, 2);
    assert FirstFit(r.bits, i => false, 2, 2) == Some(2);
    CreateExact(r, i => false, "b", 8, 2, 2);
  }

  // Three pages asked for with two free and the next one taken: the region overlaps its neighbour.
  lemma LastPageTaken(beyond: nat -> bool)
    ensures var r := Root(1, [true, false, false, true, true], map["a" := Region(3, 2, [7])]);
            Inv(r) && !Inv(Create(r, beyond, "b", 8, 3))
  {
    var r := Root(1, [true, false, false, true, true], map["a" := Region(3, 2, [7])]);
    assert In(r.regions["a"], 3) && In(r.regions["a"], 4);
    assert LooksFree(r.bits, beyond, 1, 3);
    assert FirstFit(r.bits, beyond, 3, 1) == Some(1);
    CreateExact(r, beyond, "b", 8, 3, 1);
  }
}
