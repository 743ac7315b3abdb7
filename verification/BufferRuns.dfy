// Runs over packet buffers: chains, shared tails and reference counts behave like private copies.
module BufferRuns {
  import opened Base
  import opened BufferSpec
  import opened BufferFree
  import opened BufferAlloc
  import opened BufferCopy
  import opened BufferClone
  import opened BufferAttach
  import opened BufferAppend
  import opened BufferExtend

  // A call on the live packets.
  datatype Request =
    | Allocate(n: nat)
    | Copy(h: nat)
    | Clone(src: nat, n: nat, headEnd: nat)
    | Attach(head: nat, tail: nat)
    | Restart(h: nat)
    | Append(h: nat, data: seq<u8>)
    | Measure(h: nat)
    | Release(h: nat)

  // What a call leaves: the heads it returned, the bytes it copied, and whether the ASSERT of
  // alloc_from_free_list held.
  datatype Outcome = Outcome(m: Mem, ps: Packets, heads: seq<nat>, copied: nat, ok: bool)

  function AllocStep(m: Mem, ps: Packets, n: nat): Outcome {
    var (g, got) := Alloc(m, n);
    match got
    case None => Outcome(g, ps, [], 0, false)
    case Some(ds) => Outcome(g, ps + Singles(ds), ds, 0, true)
  }

  // vlib_buffer_copy.
  function CopyStep(m: Mem, ps: Packets, c: seq<nat>): Outcome {
    var (g, got) := Alloc(m, |c|);
    match got
    case None => Outcome(g, ps, [], 0, false)
    case Some(ds) =>
      if |ds| != |c| || ds == [] then Outcome(g, ps, [], 0, true)
      else Outcome(Copied(g, c, ds), With(ps, ds[0], ds), [ds[0]], 0, true)
  }

  // vlib_buffer_clone's copy path after its first buffer: up to k copies.
  function CopiesStep(m: Mem, ps: Packets, c: seq<nat>, k: nat): Outcome
    decreases k
  {
    if k == 0 then
      Outcome(m, ps, [], 0, true)
    else
      var one := CopyStep(m, ps, c);
      if one.heads == [] then one
      else
        var rest := CopiesStep(one.m, one.ps, c, k - 1);
        rest.(heads := one.heads + rest.heads)
  }

  // The head of a packet this short is not worth sharing the rest for.
  predicate TooShort(b: Buffer, headEnd: nat) {
    b.currentLength <= headEnd + 2 * CACHE_LINE_BYTES
  }

  // vlib_buffer_clone.
  function CloneStep(m: Mem, ps: Packets, src: nat, n: nat, headEnd: nat): Outcome
    requires src in ps && 0 < n
  {
    var c := ps[src];
    if TooShort(At(m.bufs, src), headEnd) then
      var r := CopiesStep(m, ps, c, n - 1);
      r.(heads := [src] + r.heads)
    else
      var (g, got) := Alloc(m, n);
      match got
      case None => Outcome(g, ps, [], 0, false)
      case Some(ds) =>
        if ds == [] || c == [] then Outcome(g, ps, [src], 0, true)
        else Outcome(Cloned(g, c, ds, headEnd), Clones(ps, src, ds), ds, 0, true)
  }

  // The guard a caller can check; AllocExact, CloneExact, AttachExact and ChainExact say why.
  ghost predicate Allowed(m: Mem, ps: Packets, q: Request) {
    match q
    case Allocate(n) => true
    case Copy(h) => h in ps
    case Clone(src, n, headEnd) =>
      && src in ps && 0 < n <= MAX_U8 && At(m.bufs, src).nAddRefs == 0
      && (TooShort(At(m.bufs, src), headEnd)
          || forall i :: 0 <= i < |ps[src]| ==> At(m.bufs, ps[src][i]).nAddRefs == 0)
    case Attach(head, tail) =>
      && head in ps && tail in ps && head != tail && |ps[head]| == 1 && AttachGood(m, head, ps[tail])
    case Restart(h) => h in ps && |ps[h]| == 1 && At(m.bufs, h).nAddRefs == 0
    case Append(h, data) => h in ps && At(m.bufs, Last(ps[h])).nAddRefs == 0
    case Measure(h) => h in ps
    case Release(h) => h in ps
  }

  function AttachStep(m: Mem, ps: Packets, head: nat, tail: nat): Outcome
    requires head in ps && tail in ps
  {
    if ps[tail] == [] then Outcome(m, ps, [], 0, false)
    else Outcome(Attached(m, head, ps[tail]), With(ps, head, [head] + ps[tail]), [], 0, true)
  }

  // vlib_buffer_chain_init.
  function RestartStep(m: Mem, ps: Packets, h: nat): Outcome {
    if h in m.bufs then Outcome(Init(m, h), ps, [], 0, true) else Outcome(m, ps, [], 0, false)
  }

  function AppendStep(m: Mem, ps: Packets, h: nat, data: seq<u8>): Outcome
    requires h in ps
  {
    var a := AppendData(m, h, Last(ps[h]), data);
    Outcome(a.m, With(ps, h, ps[h] + a.added), [], a.copied, true)
  }

  function MeasureStep(m: Mem, ps: Packets, h: nat): Outcome
    requires h in ps
  {
    if ps[h] == [] || ps[h][0] !in m.bufs then Outcome(m, ps, [], 0, false)
    else Outcome(Measured(m, ps[h]), ps, [], 0, true)
  }

  function ReleaseStep(m: Mem, ps: Packets, h: nat): Outcome
    requires h in ps
  {
    Outcome(FreePacket(m, ps[h]), ps - {h}, [], 0, true)
  }

  function Step(m: Mem, ps: Packets, q: Request): Outcome
    requires Allowed(m, ps, q)
  {
    match q
    case Allocate(n) => AllocStep(m, ps, n)
    case Copy(h) => CopyStep(m, ps, ps[h])
    case Clone(src, n, headEnd) => CloneStep(m, ps, src, n, headEnd)
    case Attach(head, tail) => AttachStep(m, ps, head, tail)
    case Restart(h) => RestartStep(m, ps, h)
    case Append(h, data) => AppendStep(m, ps, h, data)
    case Measure(h) => MeasureStep(m, ps, h)
    case Release(h) => ReleaseStep(m, ps, h)
  }

  // ------------------------------------------------------------------------------------------
  // What a program sees: bytes by packet, each packet's its own

  type Seen = map<nat, seq<u8>>

  function View(m: Mem, ps: Packets): (v: Seen)
    ensures v.Keys == ps.Keys && forall h :: h in ps ==> v[h] == Bytes(m, ps[h])
  {
    map h | h in ps :: Bytes(m, ps[h])
  }

  // The bytes x for each of the heads.
  function Each(heads: seq<nat>, x: seq<u8>): Seen {
    map h | h in heads :: x
  }

  // The call on private bytes.
  function SeenStep(v: Seen, q: Request, heads: seq<nat>, copied: nat): Seen {
    match q
    case Allocate(n) => v + Each(heads, [])
    case Copy(h) => if h in v then v + Each(heads, v[h]) else v
    case Clone(src, n, headEnd) => if src in v then (v - {src}) + Each(heads, v[src]) else v
    case Attach(head, tail) => if head in v && tail in v then v[head := v[head] + v[tail]] else v
    case Restart(h) => if h in v then v[h := []] else v
    case Append(h, data) => if h in v && copied <= |data| then v[h := v[h] + data[..copied]] else v
    case Measure(h) => v
    case Release(h) => v - {h}
  }

  // The heads returned are new packets, all different; the source of a clone may be one of them.
  ghost predicate HeadsOk(v: Seen, q: Request, heads: seq<nat>) {
    && NoRepeats(heads)
    && (forall h :: h in heads ==> h !in v || (q.Clone? && h == q.src))
    && match q
       case Allocate(n) => heads == [] || |heads| == n
       case Copy(h) => |heads| <= 1
       case Clone(src, n, headEnd) => 1 <= |heads| <= n
       case _ => heads == []
  }

  ghost predicate Refines(m: Mem, ps: Packets, q: Request, o: Outcome) {
    && Inv(o.m, o.ps) && o.m.pre == m.pre && o.m.dataBytes == m.dataBytes
    && View(o.m, o.ps) == SeenStep(View(m, ps), q, o.heads, o.copied)
    && HeadsOk(View(m, ps), q, o.heads)
  }

  // ------------------------------------------------------------------------------------------

  // The packets ps, which a call left alone, are all there in qs and seen as before; the others in qs
  // are the heads, each with the bytes x.
  ghost predicate Grew(m: Mem, ps: Packets, g: Mem, qs: Packets, heads: seq<nat>, x: seq<u8>) {
    && (forall k :: k in qs <==> k in ps || k in heads)
    && (forall k :: k in ps ==> k !in heads && k in qs && qs[k] == ps[k] && Bytes(g, qs[k]) == Bytes(m, ps[k]))
    && (forall d :: d in heads ==> d in qs && Bytes(g, qs[d]) == x)
  }

  lemma SeenGrown(m: Mem, ps: Packets, g: Mem, qs: Packets, heads: seq<nat>, x: seq<u8>)
    requires Grew(m, ps, g, qs, heads, x)
    ensures View(g, qs) == View(m, ps) + Each(heads, x)
  {
    hide Bytes;
    var v, w := View(g, qs), View(m, ps) + Each(heads, x);
    assert forall k :: k in v <==> k in w;
    assert forall k :: k in v ==> v[k] == w[k];
  }

  // Buffers that did not change hold the bytes they held.
  lemma BuffersKept(m: Mem, ps: Packets, g: Mem)
    requires Inv(m, ps) && g.pre == m.pre && forall b :: b in m.bufs ==> b in g.bufs && g.bufs[b] == m.bufs[b]
    ensures forall k :: k in ps ==> Bytes(g, ps[k]) == Bytes(m, ps[k])
  {
    hide Inv;
    forall k | k in ps ensures Bytes(g, ps[k]) == Bytes(m, ps[k]) {
      forall b | b in ps[k] ensures SameBytes(m, g, b) { NotFree(m, ps, k, b); }
      ReadSame(m, g, ps[k]);
    }
  }

  lemma EmptyBytes(m: Mem, d: nat)
    requires d in m.bufs && m.bufs[d] == Initialized(m.bufs[d])
    ensures Bytes(m, [d]) == []
  {
    assert [d][1..] == [];
  }

  lemma HandedOutFacts(m: Mem, ps: Packets, n: nat, g: Mem, ds: seq<nat>)
    requires HandedOut(m, ps, n, g, ds)
    ensures (ds == [] || |ds| == n) && NoRepeats(ds) && forall d :: d in ds ==> d !in ps
    ensures g.pre == m.pre && g.dataBytes == m.dataBytes
    ensures forall b :: b in m.bufs ==> b in g.bufs && g.bufs[b] == m.bufs[b]
    ensures forall d :: d in ds ==> d in g.bufs && g.bufs[d] == Initialized(g.bufs[d])
  {
  }

  lemma AllocRefines(m: Mem, ps: Packets, n: nat)
    requires Inv(m, ps) && AllocStep(m, ps, n).ok
    ensures Refines(m, ps, Allocate(n), AllocStep(m, ps, n))
  {
    hide Inv, Alloc, HandedOut, NoRepeats, Bytes, Users, Initialized;
    AllocKeeps(m, ps, n);
    var (g, got) := Alloc(m, n);
    var ds := got.value;
    HandedOutFacts(m, ps, n, g, ds);
    BuffersKept(m, ps, g);
    forall d | d in ds ensures Bytes(g, [d]) == [] { EmptyBytes(g, d); }
    assert Grew(m, ps, g, ps + Singles(ds), ds, []);
    SeenGrown(m, ps, g, ps + Singles(ds), ds, []);
  }

  // ------------------------------------------------------------------------------------------

  // Allocation on the way to copying or cloning the packet h.
  lemma AllocBefore(m: Mem, ps: Packets, h: nat, n: nat)
    requires Inv(m, ps) && h in ps && Alloc(m, n).1.Some?
    ensures var (g, got) := Alloc(m, n);
            && HandedOut(m, ps, n, g, got.value) && Inv(g, ps + Singles(got.value))
            && (got.value == [] ==> Inv(g, ps) && Grew(m, ps, g, ps, [], Bytes(m, ps[h])))
            && (forall k :: k in ps ==> Bytes(g, ps[k]) == Bytes(m, ps[k]))
            && g.pre == m.pre && g.dataBytes == m.dataBytes
            && h in m.bufs && h in g.bufs && g.bufs[h] == m.bufs[h]
            && (got.value == [] || |got.value| == n)
            && ps[h] != [] && ps[h][0] == h
  {
    hide Inv, Alloc, HandedOut, NoRepeats, Bytes, Users, Initialized, Singles;
    AllocKeeps(m, ps, n);
    var (g, got) := Alloc(m, n);
    HandedOutFacts(m, ps, n, g, got.value);
    BuffersKept(m, ps, g);
    if got.value == [] { NoSingles(ps); }
    HeadIn(m, ps, h);
  }

  lemma HeadIn(m: Mem, ps: Packets, h: nat)
    requires Inv(m, ps) && h in ps
    ensures ps[h] != [] && ps[h][0] == h && h in m.bufs && h in ps[h]
  {
    PacketIn(m, ps, h);
  }

  lemma CopyCallIs(m: Mem, ps: Packets, h: nat, g: Mem, ds: seq<nat>)
    requires h in ps && HandedOut(m, ps, |ps[h]|, g, ds) && Inv(g, ps + Singles(ds)) && |ds| == |ps[h]|
    ensures CopyCall(g, ps, h, ds)
  {
    hide Inv, Users, Singles;
  }

  lemma CopyLeaves(g: Mem, ps: Packets, h: nat, ds: seq<nat>, k: nat)
    requires CopyCall(g, ps, h, ds) && k in ps
    ensures h in ps && |ds| == |ps[h]| && Bytes(Copied(g, ps[h], ds), ps[k]) == Bytes(g, ps[k])
  {
    CopiedOther(g, ps, h, ds, k);
    hide CopyCall, Copied, Bytes, Kept;
    KeptBytes(g, ps[k], Copied(g, ps[h], ds));
  }

  lemma GrewByOne(g: Mem, ps: Packets, m': Mem, d: nat, c: seq<nat>, x: seq<u8>)
    requires d !in ps && Bytes(m', c) == x && forall k :: k in ps ==> Bytes(m', ps[k]) == Bytes(g, ps[k])
    ensures Grew(g, ps, m', With(ps, d, c), [d], x)
  {
    hide Bytes;
  }

  lemma CopyGrew(g: Mem, ps: Packets, h: nat, ds: seq<nat>)
    requires CopyCall(g, ps, h, ds)
    ensures h in ps && ds != [] && |ds| == |ps[h]|
    ensures Grew(g, ps, Copied(g, ps[h], ds), With(ps, ds[0], ds), [ds[0]], Bytes(g, ps[h]))
  {
    assert h in ps && |ds| == |ps[h]| && ds != [] && ds[0] !in ps by {
      CopyParts(g, ps, h, ds);
      assert ds[0] in ds;
    }
    hide CopyCall, Copied, Bytes, Grew, SameData, Length;
    var m' := Copied(g, ps[h], ds);
    forall k | k in ps ensures Bytes(m', ps[k]) == Bytes(g, ps[k]) { CopyLeaves(g, ps, h, ds, k); }
    assert Bytes(m', ds) == Bytes(g, ps[h]) by { CopiedBytes(g, ps, h, ds); }
    GrewByOne(g, ps, m', ds[0], ds, Bytes(g, ps[h]));
  }

  lemma GrewOn(m: Mem, ps: Packets, g: Mem, qs: Packets, heads: seq<nat>, x: seq<u8>,
               g': Mem, qs': Packets, heads': seq<nat>)
    requires Grew(m, ps, g, qs, heads, x) && Grew(g, qs, g', qs', heads', x)
    ensures Grew(m, ps, g', qs', heads + heads', x)
  {
    hide Bytes;
  }

  lemma GrewFrom(m: Mem, g: Mem, ps: Packets, g': Mem, qs: Packets, heads: seq<nat>, x: seq<u8>)
    requires forall k :: k in ps ==> Bytes(g, ps[k]) == Bytes(m, ps[k])
    requires Grew(g, ps, g', qs, heads, x)
    ensures Grew(m, ps, g', qs, heads, x)
  {
    hide Bytes;
  }

  // One copy of the packet h, or none.
  lemma CopyStepKeeps(m: Mem, ps: Packets, h: nat)
    requires Inv(m, ps) && h in ps && CopyStep(m, ps, ps[h]).ok
    ensures var o := CopyStep(m, ps, ps[h]);
            && Inv(o.m, o.ps) && o.m.pre == m.pre && o.m.dataBytes == m.dataBytes && |o.heads| <= 1
            && Grew(m, ps, o.m, o.ps, o.heads, Bytes(m, ps[h]))
  {
    var (g, got) := Alloc(m, |ps[h]|);
    hide Inv, Alloc, HandedOut, Bytes, Copied, CopyCall, Grew, Singles;
    AllocBefore(m, ps, h, |ps[h]|);
    var ds := got.value;
    if ds != [] {
      CopyCallIs(m, ps, h, g, ds);
      CopyKeeps(g, ps, h, ds);
      CopyGrew(g, ps, h, ds);
      GrewFrom(m, g, ps, Copied(g, ps[h], ds), With(ps, ds[0], ds), [ds[0]], Bytes(m, ps[h]));
    }
  }

  lemma GrewHeads(m: Mem, ps: Packets, g: Mem, qs: Packets, heads: seq<nat>, x: seq<u8>, h: nat)
    requires Grew(m, ps, g, qs, heads, x) && h in ps
    ensures h in qs && qs[h] == ps[h] && Bytes(g, qs[h]) == Bytes(m, ps[h])
    ensures (forall k :: k in ps ==> k !in heads && k in qs) && forall d :: d in heads ==> d in qs && d !in ps
  {
  }

  ghost predicate CopiesMade(m: Mem, ps: Packets, k: nat, x: seq<u8>, o: Outcome) {
    && Inv(o.m, o.ps) && o.m.pre == m.pre && o.m.dataBytes == m.dataBytes
    && Grew(m, ps, o.m, o.ps, o.heads, x) && NoRepeats(o.heads) && |o.heads| <= k
  }

  lemma CopiesOn(m: Mem, ps: Packets, k: nat, x: seq<u8>, one: Outcome, rest: Outcome)
    requires CopiesMade(m, ps, 1, x, one) && CopiesMade(one.m, one.ps, k, x, rest)
    ensures CopiesMade(m, ps, k + 1, x, rest.(heads := one.heads + rest.heads))
  {
    hide Inv;
    forall d | d in one.heads ensures d !in rest.heads {}
    NoRepeatsJoin(one.heads, rest.heads);
    hide Grew;
    GrewOn(m, ps, one.m, one.ps, one.heads, x, rest.m, rest.ps, rest.heads);
  }

  lemma NoCopies(m: Mem, ps: Packets, x: seq<u8>)
    requires Inv(m, ps)
    ensures CopiesMade(m, ps, 0, x, Outcome(m, ps, [], 0, true))
  {
    hide Inv, Bytes;
  }

  lemma {:induction false} CopiesKeep(m: Mem, ps: Packets, h: nat, k: nat)
    requires Inv(m, ps) && h in ps && CopiesStep(m, ps, ps[h], k).ok
    ensures CopiesMade(m, ps, k, Bytes(m, ps[h]), CopiesStep(m, ps, ps[h], k))
    decreases k, 1
  {
    var one, x := CopyStep(m, ps, ps[h]), Bytes(m, ps[h]);
    assert one.heads != [] ==> one.ok;
    hide Inv, CopyStep, Bytes, Grew, CopiesMade;
    if k == 0 {
      NoCopies(m, ps, x);
    } else {
      CopyStepKeeps(m, ps, h);
      MadeIs(m, ps, x, one);
      if one.heads != [] {
        GrewHeads(m, ps, one.m, one.ps, one.heads, x, h);
        CopiesMore(m, ps, h, k, one, x);
      } else {
        FewerCopies(m, ps, k, x, one);
      }
    }
  }

  lemma {:induction false} CopiesMore(m: Mem, ps: Packets, h: nat, k: nat, one: Outcome, x: seq<u8>)
    requires h in ps && 0 < k && one == CopyStep(m, ps, ps[h]) && one.heads != [] && CopiesMade(m, ps, 1, x, one)
    requires h in one.ps && one.ps[h] == ps[h] && Bytes(one.m, one.ps[h]) == x && Inv(one.m, one.ps)
    requires CopiesStep(m, ps, ps[h], k).ok
    ensures CopiesMade(m, ps, k, x, CopiesStep(m, ps, ps[h], k))
    decreases k, 0
  {
    hide Inv, CopyStep, Bytes, Grew, CopiesMade;
    var rest := CopiesStep(one.m, one.ps, one.ps[h], k - 1);
    assert CopiesStep(m, ps, ps[h], k) == rest.(heads := one.heads + rest.heads);
    CopiesKeep(one.m, one.ps, h, k - 1);
    CopiesOn(m, ps, k - 1, x, one, rest);
  }

  lemma FewerCopies(m: Mem, ps: Packets, k: nat, x: seq<u8>, o: Outcome)
    requires CopiesMade(m, ps, 1, x, o) && 0 < k
    ensures CopiesMade(m, ps, k, x, o)
  {
  }

  lemma MadeIs(m: Mem, ps: Packets, x: seq<u8>, o: Outcome)
    requires Inv(o.m, o.ps) && o.m.pre == m.pre && o.m.dataBytes == m.dataBytes && |o.heads| <= 1
    requires Grew(m, ps, o.m, o.ps, o.heads, x)
    ensures CopiesMade(m, ps, 1, x, o)
  {
  }

  // ------------------------------------------------------------------------------------------

  lemma CopyRefines(m: Mem, ps: Packets, h: nat)
    requires Inv(m, ps) && h in ps && CopyStep(m, ps, ps[h]).ok
    ensures Refines(m, ps, Copy(h), CopyStep(m, ps, ps[h]))
  {
    hide Inv, CopyStep, Bytes, Grew;
    CopyStepKeeps(m, ps, h);
    var o := CopyStep(m, ps, ps[h]);
    GrewHeads(m, ps, o.m, o.ps, o.heads, Bytes(m, ps[h]), h);
    SeenGrown(m, ps, o.m, o.ps, o.heads, Bytes(m, ps[h]));
  }

  lemma SourceAgain(v: Seen, src: nat, heads: seq<nat>)
    requires src in v
    ensures (v - {src}) + Each([src] + heads, v[src]) == v + Each(heads, v[src])
  {
  }

  // The source among the heads, with copies or alone.
  lemma CloneCopies(m: Mem, ps: Packets, src: nat, n: nat, headEnd: nat, o: Outcome)
    requires Inv(o.m, o.ps) && o.m.pre == m.pre && o.m.dataBytes == m.dataBytes && src in ps
    requires Grew(m, ps, o.m, o.ps, o.heads, Bytes(m, ps[src])) && NoRepeats(o.heads) && |o.heads| < n
    ensures Refines(m, ps, Clone(src, n, headEnd), o.(heads := [src] + o.heads))
  {
    hide Inv, Bytes, Grew;
    GrewHeads(m, ps, o.m, o.ps, o.heads, Bytes(m, ps[src]), src);
    SeenGrown(m, ps, o.m, o.ps, o.heads, Bytes(m, ps[src]));
    SourceAgain(View(m, ps), src, o.heads);
    NoRepeatsJoin([src], o.heads);
  }

  lemma CloneCallIs(m: Mem, ps: Packets, src: nat, n: nat, headEnd: nat, g: Mem, ds: seq<nat>)
    requires src in ps && HandedOut(m, ps, n, g, ds) && Inv(g, ps + Singles(ds)) && ds != [] && n <= MAX_U8
    requires src in g.bufs && g.bufs[src].nAddRefs == 0 && !TooShort(g.bufs[src], headEnd)
    ensures CloneCall(g, ps, src, ds, headEnd)
  {
    hide Inv, Users, Singles;
  }

  lemma CloneLeaves(g: Mem, ps: Packets, src: nat, ds: seq<nat>, headEnd: nat, k: nat)
    requires CloneCall(g, ps, src, ds, headEnd) && k in ps && k != src
    requires forall i :: 0 <= i < |ps[src]| ==> At(g.bufs, ps[src][i]).nAddRefs == 0
    ensures ps[src] != [] && ds != [] && Bytes(Cloned(g, ps[src], ds, headEnd), ps[k]) == Bytes(g, ps[k])
  {
    ClonedOther(g, ps, src, ds, headEnd, k);
    assert ds != [];
    hide CloneCall, Cloned, Bytes, Kept;
    KeptBytes(g, ps[k], Cloned(g, ps[src], ds, headEnd));
  }

  lemma GrewByClones(g: Mem, ps: Packets, m': Mem, src: nat, ds: seq<nat>, x: seq<u8>)
    requires src in ps && forall d :: d in ds ==> d !in ps && Bytes(m', [d] + ps[src]) == x
    requires forall k :: k in ps && k != src ==> Bytes(m', ps[k]) == Bytes(g, ps[k])
    ensures Grew(g, ps - {src}, m', Clones(ps, src, ds), ds, x)
  {
    hide Bytes;
  }

  lemma CloneGrew(g: Mem, ps: Packets, src: nat, ds: seq<nat>, headEnd: nat)
    requires CloneCall(g, ps, src, ds, headEnd)
    requires forall i :: 0 <= i < |ps[src]| ==> At(g.bufs, ps[src][i]).nAddRefs == 0
    ensures ps[src] != [] && ds != []
    ensures Grew(g, ps - {src}, Cloned(g, ps[src], ds, headEnd), Clones(ps, src, ds), ds, Bytes(g, ps[src]))
  {
    assert ds != [] && src in ps && ps[src] != [] && forall d :: d in ds ==> d !in ps by {
      CloneParts(g, ps, src, ds, headEnd);
    }
    var m' := Cloned(g, ps[src], ds, headEnd);
    hide CloneCall, Cloned, Bytes, Clones, Grew;
    forall k | k in ps && k != src ensures Bytes(m', ps[k]) == Bytes(g, ps[k]) {
      CloneLeaves(g, ps, src, ds, headEnd, k);
    }
    forall d | d in ds ensures Bytes(m', [d] + ps[src]) == Bytes(g, ps[src]) {
      CloneBytes(g, ps, src, ds, headEnd, d);
    }
    GrewByClones(g, ps, m', src, ds, Bytes(g, ps[src]));
  }

  lemma SharedUnshared(m: Mem, ps: Packets, src: nat, g: Mem)
    requires Inv(m, ps) && src in ps && forall b :: b in m.bufs ==> b in g.bufs && g.bufs[b] == m.bufs[b]
    requires forall i :: 0 <= i < |ps[src]| ==> At(m.bufs, ps[src][i]).nAddRefs == 0
    ensures forall i :: 0 <= i < |ps[src]| ==> ps[src][i] in g.bufs && g.bufs[ps[src][i]].nAddRefs == 0
  {
    PacketIn(m, ps, src);
  }

  lemma CloneShares(m: Mem, ps: Packets, src: nat, n: nat, headEnd: nat)
    requires Inv(m, ps) && src in ps && 0 < n <= MAX_U8 && !TooShort(At(m.bufs, src), headEnd)
    requires forall i :: 0 <= i < |ps[src]| ==> At(m.bufs, ps[src][i]).nAddRefs == 0
    requires CloneStep(m, ps, src, n, headEnd).ok && Alloc(m, n).1 != Some([])
    ensures Refines(m, ps, Clone(src, n, headEnd), CloneStep(m, ps, src, n, headEnd))
  {
    var (g, got) := Alloc(m, n);
    hide Inv, Alloc, HandedOut, Bytes, Cloned, CloneCall, Grew, Singles, Clones, NoRepeats;
    AllocBefore(m, ps, src, n);
    var ds, c := got.value, ps[src];
    HandedOutFacts(m, ps, n, g, ds);
    SharedUnshared(m, ps, src, g);
    assert g.bufs[c[0]].nAddRefs == 0;
    CloneCallIs(m, ps, src, n, headEnd, g, ds);
    CloneExact(g, ps, src, ds, headEnd);
    CloneGrew(g, ps, src, ds, headEnd);
    var m', qs := Cloned(g, c, ds, headEnd), Clones(ps, src, ds);
    GrewFrom(m, g, ps - {src}, m', qs, ds, Bytes(m, c));
    SeenGrown(m, ps - {src}, m', qs, ds, Bytes(m, c));
    SeenWithout(m, ps, src);
  }

  lemma SeenWithout(m: Mem, ps: Packets, h: nat)
    ensures View(m, ps - {h}) == View(m, ps) - {h}
  {
    hide Bytes;
  }

  lemma CloneRefines(m: Mem, ps: Packets, src: nat, n: nat, headEnd: nat)
    requires Inv(m, ps) && Allowed(m, ps, Clone(src, n, headEnd)) && CloneStep(m, ps, src, n, headEnd).ok
    ensures Refines(m, ps, Clone(src, n, headEnd), CloneStep(m, ps, src, n, headEnd))
  {
    hide Inv, Alloc, Bytes, Grew, Refines, CopiesStep, HandedOut, Singles;
    var c := ps[src];
    if TooShort(At(m.bufs, src), headEnd) {
      CopiesKeep(m, ps, src, n - 1);
      CloneCopies(m, ps, src, n, headEnd, CopiesStep(m, ps, c, n - 1));
    } else if Alloc(m, n).1 == Some([]) {
      AllocBefore(m, ps, src, n);
      CloneCopies(m, ps, src, n, headEnd, Outcome(Alloc(m, n).0, ps, [], 0, true));
      assert [src] + [] == [src];
    } else {
      CloneShares(m, ps, src, n, headEnd);
    }
  }

  // ------------------------------------------------------------------------------------------

  // One packet's bytes became x; the others' are as they were.
  lemma SeenWith(m: Mem, ps: Packets, g: Mem, h: nat, c: seq<nat>, x: seq<u8>)
    requires h in ps && Bytes(g, c) == x && forall k :: k in ps && k != h ==> Bytes(g, ps[k]) == Bytes(m, ps[k])
    ensures View(g, With(ps, h, c)) == View(m, ps)[h := x]
  {
    hide Bytes;
  }

  lemma AttachSeen(m: Mem, ps: Packets, head: nat, tail: nat)
    requires AttachCall(m, ps, head, tail) && AttachGood(m, head, ps[tail])
    ensures ps[tail] != [] && head in View(m, ps) && tail in View(m, ps)
    ensures var m', v := Attached(m, head, ps[tail]), View(m, ps);
            View(m', With(ps, head, [head] + ps[tail])) == v[head := v[head] + v[tail]]
  {
    var c := ps[tail];
    assert head in ps && tail in ps && At(m.bufs, head).nAddRefs == 0;
    hide Inv, Bytes, Attached, Kept, AttachGood, AttachCall, View, With;
    AttachBytes(m, ps, head, tail);
    var m' := Attached(m, head, c);
    forall k | k in ps && k != head ensures Bytes(m', ps[k]) == Bytes(m, ps[k]) {
      AttachedOther(m, ps, head, tail, k);
      KeptBytes(m, ps[k], m');
    }
    SeenWith(m, ps, m', head, [head] + c, Bytes(m, ps[head]) + Bytes(m, c));
  }

  lemma AttachRefines(m: Mem, ps: Packets, head: nat, tail: nat)
    requires Inv(m, ps) && Allowed(m, ps, Attach(head, tail))
    ensures Refines(m, ps, Attach(head, tail), AttachStep(m, ps, head, tail))
  {
    assert head in ps && tail in ps && AttachCall(m, ps, head, tail);
    hide Inv, Attached, AttachGood, AttachCall, View, With, HeadsOk, Bytes;
    AttachExact(m, ps, head, tail);
    AttachSeen(m, ps, head, tail);
    NoHeads(View(m, ps), Attach(head, tail));
  }

  lemma RestartRefines(m: Mem, ps: Packets, h: nat)
    requires Inv(m, ps) && Allowed(m, ps, Restart(h))
    ensures Refines(m, ps, Restart(h), RestartStep(m, ps, h))
  {
    assert h in ps && ps[h] == [h] by { HeadIn(m, ps, h); }
    hide Inv, Bytes, View, With, HeadsOk;
    InitKeeps(m, ps, h);
    assert With(ps, h, ps[h]) == ps by { WithSame(ps, h); }
    SeenWith(m, ps, Init(m, h), h, ps[h], []);
    NoHeads(View(m, ps), Restart(h));
  }

  lemma WithSame(ps: Packets, h: nat)
    requires h in ps
    ensures With(ps, h, ps[h]) == ps
  {
  }

  lemma AppendLeaves(m: Mem, ps: Packets, h: nat, m': Mem, k: nat)
    requires AppendCall(m, ps, h) && Spared(m, ps, Last(ps[h]), m') && k in ps && k != h && m'.pre == m.pre
    ensures Bytes(m', ps[k]) == Bytes(m, ps[k])
  {
    AppendEnds(m, ps, h);
    forall b | b in ps[k] ensures SameBytes(m, m', b) { Apart(m, ps, h, k, b); }
    ReadSame(m, m', ps[k]);
  }

  lemma AppendRefines(m: Mem, ps: Packets, h: nat, data: seq<u8>)
    requires Inv(m, ps) && Sized(m) && Allowed(m, ps, Append(h, data))
    ensures Refines(m, ps, Append(h, data), AppendStep(m, ps, h, data))
  {
    hide Inv, Bytes, AppendData, Spared, Filled, Sized;
    AppendKeeps(m, ps, h, data);
    var a := AppendData(m, h, Last(ps[h]), data);
    forall k | k in ps && k != h ensures Bytes(a.m, ps[k]) == Bytes(m, ps[k]) { AppendLeaves(m, ps, h, a.m, k); }
    SeenWith(m, ps, a.m, h, ps[h] + a.added, Bytes(m, ps[h]) + data[..a.copied]);
  }

  lemma MeasureRefines(m: Mem, ps: Packets, h: nat)
    requires Inv(m, ps) && h in ps
    ensures Refines(m, ps, Measure(h), MeasureStep(m, ps, h))
  {
    hide Inv, Bytes, Measured;
    MeasuredKeeps(m, ps, h);
    MeasuredSize(m, ps[h]);
  }

  lemma MeasuredSize(m: Mem, c: seq<nat>)
    requires c != [] && c[0] in m.bufs
    ensures Measured(m, c).pre == m.pre && Measured(m, c).dataBytes == m.dataBytes
  {
  }

  lemma ReleaseSeen(m: Mem, ps: Packets, h: nat)
    requires Inv(m, ps) && h in ps
    ensures View(FreePacket(m, ps[h]), ps - {h}) == View(m, ps) - {h}
  {
    var m' := FreePacket(m, ps[h]);
    assert m'.pre == m.pre;
    hide Inv, Bytes, FreePacket, Kept, View;
    forall k | k in ps && k != h ensures Bytes(m', ps[k]) == Bytes(m, ps[k]) {
      FreeOther(m, ps, h, k);
      KeptBytes(m, ps[k], m');
    }
    SeenLess(m, ps, m', h);
  }

  lemma ReleaseRefines(m: Mem, ps: Packets, h: nat)
    requires Inv(m, ps) && h in ps
    ensures Refines(m, ps, Release(h), ReleaseStep(m, ps, h))
  {
    hide Inv, FreePacket, View, Bytes, HeadsOk;
    FreeKeeps(m, ps, h);
    FreeSizes(m, ps[h]);
    ReleaseSeen(m, ps, h);
    NoHeads(View(m, ps), Release(h));
  }

  lemma FreeSizes(m: Mem, c: seq<nat>)
    ensures FreePacket(m, c).pre == m.pre && FreePacket(m, c).dataBytes == m.dataBytes
  {
  }

  lemma NoHeads(v: Seen, q: Request)
    requires q.Attach? || q.Restart? || q.Append? || q.Measure? || q.Release?
    ensures HeadsOk(v, q, [])
  {
  }

  lemma SeenLess(m: Mem, ps: Packets, g: Mem, h: nat)
    requires forall k :: k in ps && k != h ==> Bytes(g, ps[k]) == Bytes(m, ps[k])
    ensures View(g, ps - {h}) == View(m, ps) - {h}
  {
    hide Bytes;
  }

  // Every allowed call does to the packets what it would do to private copies of their bytes, and
  // keeps the ownership invariant.
  lemma StepRefines(m: Mem, ps: Packets, q: Request)
    requires Inv(m, ps) && Sized(m) && Allowed(m, ps, q) && Step(m, ps, q).ok
    ensures Refines(m, ps, q, Step(m, ps, q))
  {
    hide Inv, Sized, Refines, View, AllocStep, CopyStep, CloneStep, AttachStep, RestartStep, AppendStep, MeasureStep,
         ReleaseStep;
    match q
    case Allocate(n) => AllocRefines(m, ps, n);
    case Copy(h) => CopyRefines(m, ps, h);
    case Clone(src, n, headEnd) => CloneRefines(m, ps, src, n, headEnd);
    case Attach(head, tail) => AttachRefines(m, ps, head, tail);
    case Restart(h) => RestartRefines(m, ps, h);
    case Append(h, data) => AppendRefines(m, ps, h, data);
    case Measure(h) => MeasureRefines(m, ps, h);
    case Release(h) => ReleaseRefines(m, ps, h);
  }

  // ------------------------------------------------------------------------------------------
  // Runs

  // A run of allowed calls from (m, ps), in none of which an ASSERT fails.
  ghost predicate Run(m: Mem, ps: Packets, qs: seq<Request>)
    decreases |qs|
  {
    qs == [] || (Allowed(m, ps, qs[0]) && var o := Step(m, ps, qs[0]); o.ok && Run(o.m, o.ps, qs[1..]))
  }

  function After(m: Mem, ps: Packets, qs: seq<Request>): (Mem, Packets)
    requires Run(m, ps, qs)
    decreases |qs|
  {
    if qs == [] then (m, ps)
    else
      var o := Step(m, ps, qs[0]);
      After(o.m, o.ps, qs[1..])
  }

  // The same run on private bytes, with the heads and counts the calls returned.
  function SeenAfter(m: Mem, ps: Packets, v: Seen, qs: seq<Request>): Seen
    requires Run(m, ps, qs)
    decreases |qs|
  {
    if qs == [] then v
    else
      var o := Step(m, ps, qs[0]);
      SeenAfter(o.m, o.ps, SeenStep(v, qs[0], o.heads, o.copied), qs[1..])
  }

  lemma {:induction false} RunRefines(m: Mem, ps: Packets, qs: seq<Request>)
    requires Inv(m, ps) && Sized(m) && Run(m, ps, qs)
    ensures var (g, rs) := After(m, ps, qs);
            Inv(g, rs) && View(g, rs) == SeenAfter(m, ps, View(m, ps), qs)
    decreases |qs|
  {
    hide Inv, Step, Sized, View, SeenStep, Allowed, HeadsOk;
    if qs != [] {
      var o := Step(m, ps, qs[0]);
      StepRefines(m, ps, qs[0]);
      SizedSame(m, o.m);
      RunRefines(o.m, o.ps, qs[1..]);
    }
  }

  // A free list before its first buffer.
  function Empty(pre: nat, dataBytes: nat, minEach: nat, supply: seq<seq<nat>>): Mem {
    Mem(pre, dataBytes, minEach, map[], [], 0, map[], supply)
  }

  // Whatever packets share, a run from the start leaves each with the bytes it would have alone;
  // counts, free list and debug table are right, and so is every packet's length.
  lemma {:induction false} RunsFromStart(pre: nat, dataBytes: nat, minEach: nat, supply: seq<seq<nat>>,
                                         qs: seq<Request>)
    requires 0 < dataBytes && pre + dataBytes < U16_RANGE && Run(Empty(pre, dataBytes, minEach, supply), map[], qs)
    ensures var m := Empty(pre, dataBytes, minEach, supply);
            var (g, rs) := After(m, map[], qs);
            && Inv(g, rs) && View(g, rs) == SeenAfter(m, map[], map[], qs)
            && forall h :: h in rs ==> rs[h] != [] && rs[h][0] in g.bufs
                                       && LengthInChain(g, rs[h]) == |SeenAfter(m, map[], map[], qs)[h]|
  {
    var m := Empty(pre, dataBytes, minEach, supply);
    assert Inv(m, map[]);
    assert View(m, map[]) == map[];
    hide Inv, View, Step, SeenStep, After, SeenAfter, Run, LengthInChain, Bytes;
    RunRefines(m, map[], qs);
    var (g, rs) := After(m, map[], qs);
    forall h | h in rs
      ensures rs[h] != [] && rs[h][0] in g.bufs && h in View(g, rs)
              && LengthInChain(g, rs[h]) == |View(g, rs)[h]|
    {
      LengthExact(g, rs, h);
      ViewAt(g, rs, h);
    }
  }

  lemma ViewAt(m: Mem, ps: Packets, h: nat)
    requires h in ps
    ensures h in View(m, ps) && View(m, ps)[h] == Bytes(m, ps[h])
  {
  }

  // ------------------------------------------------------------------------------------------
  // Conservation

  ghost function InUse(m: Mem, ps: Packets): set<nat> {
    set b | b in m.bufs && Users(ps, b) != {}
  }

  lemma FreeOrUsed(m: Mem, ps: Packets)
    requires Inv(m, ps)
    ensures Elems(m.free) + InUse(m, ps) == m.bufs.Keys && Elems(m.free) !! InUse(m, ps)
  {
    hide PacketsOk, AllOk, NoRepeats, KnownOk, Inv, Users, FreeListOk, Initialized;
    Parts(m, ps);
    forall b | b in m.bufs ensures b in Elems(m.free) <==> b !in InUse(m, ps) {
      CountedOf(m, ps, b);
    }
  }

  // n_alloc counts the free buffers and those in packets, no buffer is both, and the debug table
  // says which.
  lemma Conserved(m: Mem, ps: Packets)
    requires Inv(m, ps)
    ensures m.nAlloc == |m.free| + |InUse(m, ps)| && Elems(m.free) !! InUse(m, ps)
    ensures forall b :: b in m.bufs ==> b in m.known && (m.known[b] <==> b in InUse(m, ps))
  {
    FreeOrUsed(m, ps);
    Parts(m, ps);
    assert |m.bufs.Keys| == |m.bufs|;
    hide PacketsOk, AllOk, FreeClean, Inv, InUse, FreeListOk;
    ElemsSize(m.free);
    assert |Elems(m.free) + InUse(m, ps)| == |Elems(m.free)| + |InUse(m, ps)|;
    forall b | b in m.bufs ensures b in m.known && (m.known[b] <==> b in InUse(m, ps)) {
      assert b in m.bufs.Keys;
    }
  }

  // Freeing packets one after another, in the order given.
  function FreeAll(m: Mem, ps: Packets, hs: seq<nat>): (Mem, Packets)
    decreases |hs|
  {
    if hs == [] || hs[0] !in ps then (m, ps)
    else FreeAll(FreePacket(m, ps[hs[0]]), ps - {hs[0]}, hs[1..])
  }

  lemma {:induction false} FreeAllKeeps(m: Mem, ps: Packets, hs: seq<nat>)
    requires Inv(m, ps) && NoRepeats(hs) && forall h :: h in hs ==> h in ps
    ensures var (g, rs) := FreeAll(m, ps, hs);
            Inv(g, rs) && rs == ps - Elems(hs) && g.bufs.Keys == m.bufs.Keys
    decreases |hs|
  {
    hide Inv, FreePacket;
    if hs != [] {
      var h := hs[0];
      FreeKeeps(m, ps, h);
      FreeKeys(m, ps[h]);
      assert forall x :: x in hs[1..] ==> x in hs && x != h;
      FreeAllKeeps(FreePacket(m, ps[h]), ps - {h}, hs[1..]);
      assert Elems(hs) == {h} + Elems(hs[1..]);
      assert ps - Elems(hs) == (ps - {h}) - Elems(hs[1..]);
    } else {
      assert ps - Elems(hs) == ps;
    }
  }

  lemma FreeKeys(m: Mem, c: seq<nat>)
    ensures FreePacket(m, c).bufs.Keys == m.bufs.Keys
  {
  }

  // A buffer of the source or of a clone's head is in no other packet.
  lemma ClonedAlone(m: Mem, ps: Packets, src: nat, ds: seq<nat>, headEnd: nat, b: nat)
    requires CloneCall(m, ps, src, ds, headEnd) && (b in ds || b in ps[src])
    requires forall i :: 0 <= i < |ps[src]| ==> At(m.bufs, ps[src][i]).nAddRefs == 0
    ensures Users(ps - {src}, b) == {} && b in m.bufs
  {
    CloneParts(m, ps, src, ds, headEnd);
    assert forall d :: d in ds ==> Users(ps, d) == {};
    hide CloneCall, PacketsOk, AllOk, FreeClean, KnownOk, IsChain, NoRepeats;
    forall k | k in ps && k != src ensures b !in ps[k] {
      if b in ds {
        assert k !in Users(ps, b);
      } else if b in ps[k] {
        Elsewhere(m, ps, src, ds, headEnd, k, b);
      }
    }
  }

  lemma ClonesLess(ps: Packets, src: nat, ds: seq<nat>)
    requires src in ps && forall d :: d in ds ==> d !in ps
    ensures Clones(ps, src, ds) - Elems(ds) == ps - {src}
    ensures forall d :: d in ds ==> d in Clones(ps, src, ds)
  {
  }

  // After cloning over a shared tail, freeing all the clones, in any order, puts each clone's head
  // and each buffer of the source on the free list, exactly once.
  lemma ClonesFreed(m: Mem, ps: Packets, src: nat, ds: seq<nat>, headEnd: nat, order: seq<nat>, b: nat)
    requires CloneCall(m, ps, src, ds, headEnd)
    requires forall i :: 0 <= i < |ps[src]| ==> At(m.bufs, ps[src][i]).nAddRefs == 0
    requires NoRepeats(order) && Elems(order) == Elems(ds)
    requires b in ds || b in ps[src]
    ensures ps[src] != [] && ds != []
    ensures var (g, rs) := FreeAll(Cloned(m, ps[src], ds, headEnd), Clones(ps, src, ds), order);
            && Inv(g, rs) && rs == ps - {src} && NoRepeats(g.free) && b in g.free
  {
    assert src in ps && forall d :: d in ds ==> d !in ps;
    ClonesLess(ps, src, ds);
    forall d | d in order ensures d in ds { assert d in Elems(order); }
    hide Cloned, Clones, Inv, CloneCall, Elems, NoRepeats, Users;
    CloneExact(m, ps, src, ds, headEnd);
    ClonedAlone(m, ps, src, ds, headEnd, b);
    assert ds != [] && ps[src] != [] by { CloneSome(m, ps, src, ds, headEnd); }
    FreedToo(Cloned(m, ps[src], ds, headEnd), Clones(ps, src, ds), order, b);
  }

  lemma FreedToo(m: Mem, ps: Packets, hs: seq<nat>, b: nat)
    requires Inv(m, ps) && NoRepeats(hs) && (forall h :: h in hs ==> h in ps)
    requires b in m.bufs && Users(ps - Elems(hs), b) == {}
    ensures var (g, rs) := FreeAll(m, ps, hs);
            Inv(g, rs) && rs == ps - Elems(hs) && NoRepeats(g.free) && b in g.free
  {
    hide Inv, Elems, Users;
    FreeAllKeeps(m, ps, hs);
    var (g, rs) := FreeAll(m, ps, hs);
    assert b in g.bufs.Keys;
    CountedOf(g, rs, b);
    Parts(g, rs);
  }
}
