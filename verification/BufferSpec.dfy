// Packet buffers as values: chains, shared tails, reference counts and the free list of vlib.
module BufferSpec {
  import opened Base

  // A buffer's metadata, and its pre-data area followed by its data area.
  datatype Buffer = Buffer(
    currentData: int, currentLength: nat,
    nextPresent: bool, totalLengthValid: bool, extHdrValid: bool,
    totalRest: nat, nextBuffer: nat, nAddRefs: nat, mem: seq<u8>)

  // One free list and every buffer allocated for it. `known` is the debug table: true for buffers
  // handed out. Each refill asks for at least `minEach` buffers. `supply` is what physmem is going to
  // answer, request by request: a chunk of new buffers, or anything else where it fails.
  datatype Mem = Mem(pre: nat, dataBytes: nat, minEach: nat, bufs: map<nat, Buffer>, free: seq<nat>,
                     nAlloc: nat, known: map<nat, bool>, supply: seq<seq<nat>>)

  // Live packets: the chain of buffers of each head.
  type Packets = map<nat, seq<nat>>

  // The packets once h's chain is c.
  function With(ps: Packets, h: nat, c: seq<nat>): Packets {
    ps[h := c]
  }

  // What an index with no buffer behind it would read as; the invariant rules such indices out.
  const NO_BUFFER: Buffer := Buffer(0, 0, false, false, false, 0, 0, 0, [])

  function At(bufs: map<nat, Buffer>, b: nat): Buffer {
    if b in bufs then bufs[b] else NO_BUFFER
  }

  const CACHE_LINE_BYTES: nat := 64
  const MAX_U8: nat := 255

  // ------------------------------------------------------------------------------------------
  // Chains and their bytes

  ghost predicate BufferOk(m: Mem, b: Buffer) {
    |b.mem| == m.pre + m.dataBytes
    && 0 <= m.pre + b.currentData && m.pre + b.currentData + b.currentLength <= |b.mem|
  }

  ghost predicate AllOk(m: Mem) {
    forall i :: i in m.bufs ==> BufferOk(m, m.bufs[i])
  }

  // c follows the next-buffer links to their end.
  ghost predicate IsChain(bufs: map<nat, Buffer>, c: seq<nat>) {
    && c != [] && (forall i :: 0 <= i < |c| ==> c[i] in bufs)
    && forall i {:trigger LinkAt(bufs, c, i)} :: 0 <= i < |c| ==> LinkAt(bufs, c, i)
  }

  ghost predicate LinkAt(bufs: map<nat, Buffer>, c: seq<nat>, i: int) {
    0 <= i < |c| && c[i] in bufs
    && (bufs[c[i]].nextPresent <==> i + 1 < |c|)
    && (i + 1 < |c| ==> bufs[c[i]].nextBuffer == c[i + 1])
  }

  function Data(m: Mem, b: Buffer): (r: seq<u8>) {
    var from := m.pre + b.currentData;
    if 0 <= from <= from + b.currentLength <= |b.mem| then b.mem[from..from + b.currentLength] else []
  }

  // The bytes of a chain, and their number.
  function Bytes(m: Mem, c: seq<nat>): (r: seq<u8>) {
    if c == [] then [] else Data(m, At(m.bufs, c[0])) + Bytes(m, c[1..])
  }

  function Length(bufs: map<nat, Buffer>, c: seq<nat>): nat {
    if c == [] then 0 else At(bufs, c[0]).currentLength + Length(bufs, c[1..])
  }

  // The cached length of the rest of the chain, where the flags say it may be used, is right.
  ghost predicate LengthCoherent(bufs: map<nat, Buffer>, c: seq<nat>) {
    c != [] && (At(bufs, c[0]).totalLengthValid || |c| == 1 ==>
                  At(bufs, c[0]).totalRest == Length(bufs, c[1..]))
  }

  // ------------------------------------------------------------------------------------------
  // The ownership invariant

  // The live packets whose chain passes through buffer b.
  ghost function Users(ps: Packets, b: nat): set<nat> {
    set h | h in ps && b in ps[h]
  }

  ghost predicate PacketOk(bufs: map<nat, Buffer>, h: nat, c: seq<nat>) {
    IsChain(bufs, c) && c[0] == h && LengthCoherent(bufs, c)
  }

  ghost predicate PacketsOk(m: Mem, ps: Packets) {
    forall h :: h in ps ==> PacketOk(m.bufs, h, ps[h])
  }

  // A buffer is on the free list and in no packet, or in one packet more than it counts.
  ghost predicate Counted(m: Mem, ps: Packets, b: nat) {
    if b in m.free then Users(ps, b) == {} && At(m.bufs, b).nAddRefs == 0
    else |Users(ps, b)| == At(m.bufs, b).nAddRefs + 1
  }

  predicate NoRepeats(s: seq<nat>) {
    forall i, j :: 0 <= i < j < |s| ==> s[i] != s[j]
  }

  // Free buffers are as the template left them.
  ghost predicate FreeClean(m: Mem) {
    forall b :: b in m.free ==> b in m.bufs && m.bufs[b] == Initialized(m.bufs[b])
  }

  // The debug table agrees with the free list, and every buffer ever allocated is in the table.
  ghost predicate KnownOk(m: Mem) {
    m.nAlloc == |m.bufs| && m.known.Keys == m.bufs.Keys
    && forall b :: b in m.bufs ==> (m.known[b] <==> b !in m.free)
  }

  ghost predicate FreeListOk(m: Mem) {
    NoRepeats(m.free) && FreeClean(m) && KnownOk(m)
  }

  ghost predicate Inv(m: Mem, ps: Packets) {
    && AllOk(m) && FreeListOk(m) && PacketsOk(m, ps)
    && forall b :: b in m.bufs ==> Counted(m, ps, b)
  }

  // ------------------------------------------------------------------------------------------
  // Freeing

  // vlib_buffer_init_for_free_list: the fields the free list's template resets.
  function Initialized(b: Buffer): Buffer {
    b.(currentData := 0, currentLength := 0, nextPresent := false, totalLengthValid := false,
       extHdrValid := false, totalRest := 0, nAddRefs := 0)
  }

  // vlib_buffer_set_known_state for each of bs.
  function Marked(known: map<nat, bool>, bs: seq<nat>, state: bool): (r: map<nat, bool>)
    ensures r.Keys == known.Keys + Elems(bs)
    ensures forall b :: b in r ==> r[b] == if b in bs then state else known[b]
  {
    map b | b in known.Keys + Elems(bs) :: if b in bs then state else known[b]
  }

  // The buffers of c that nobody else uses.
  function Unshared(bufs: map<nat, Buffer>, c: seq<nat>): (r: seq<nat>)
    ensures forall b :: b in r <==> b in c && At(bufs, b).nAddRefs == 0
  {
    if c == [] then []
    else if At(bufs, c[0]).nAddRefs == 0 then [c[0]] + Unshared(bufs, c[1..])
    else Unshared(bufs, c[1..])
  }

  function Dropped(b: Buffer): Buffer {
    if b.nAddRefs > 0 then b.(nAddRefs := b.nAddRefs - 1) else Initialized(b)
  }

  // vlib_buffer_free_inline for the packet whose chain is c: one reference less for each buffer,
  // and back to the free list for those nobody else uses.
  function FreePacket(m: Mem, c: seq<nat>): Mem {
    var gone := Unshared(m.bufs, c);
    m.(bufs := map b | b in m.bufs :: if b in c then Dropped(m.bufs[b]) else m.bufs[b],
       free := m.free + gone,
       known := Marked(m.known, gone, false))
  }

  // ------------------------------------------------------------------------------------------
  // Allocating

  const CHUNK: nat := 16

  function RoundUp(n: nat, to: nat): nat
    requires 0 < to
  {
    (n + to - 1) / to * to
  }

  function NewBuffer(m: Mem): Buffer {
    Buffer(0, 0, false, false, false, 0, 0, 0, seq(m.pre + m.dataBytes, i => 0))
  }

  // An answer of physmem with the n new buffers asked for, numbered as it places them.
  predicate FreshChunk(m: Mem, n: nat, chunk: seq<nat>) {
    |chunk| == n && NoRepeats(chunk) && forall i :: 0 <= i < n ==> chunk[i] !in m.bufs
  }

  function Elems(s: seq<nat>): set<nat> {
    set x | x in s
  }

  function Grown(m: Mem, chunk: seq<nat>): (g: Mem)
    ensures g.bufs.Keys == m.bufs.Keys + Elems(chunk) && g.known.Keys == m.known.Keys + Elems(chunk)
  {
    m.(bufs := map b | b in m.bufs.Keys + Elems(chunk) ::
                 if b in m.bufs then m.bufs[b] else NewBuffer(m),
       free := m.free + chunk,
       nAlloc := m.nAlloc + |chunk|,
       supply := Rest(m.supply),
       known := Marked(m.known, chunk, false))
  }

  function Rest(supply: seq<seq<nat>>): seq<seq<nat>> {
    if supply == [] then [] else supply[1..]
  }

  // fill_free_list's loop: the buffers added, until `remaining` are or physmem fails.
  function FillFrom(m: Mem, remaining: nat): (r: (Mem, nat))
    decreases remaining
  {
    var n := Min(remaining, CHUNK);
    if remaining == 0 then
      (m, 0)
    else if m.supply == [] || !FreshChunk(m, n, m.supply[0]) then
      (m.(supply := Rest(m.supply)), 0)
    else
      var (g, k) := FillFrom(Grown(m, m.supply[0]), remaining - n);
      (g, n + k)
  }

  function Wanted(m: Mem, n: nat): nat {
    if n <= |m.free| then 0
    else
      var r := RoundUp(n - |m.free|, CHUNK);
      if r < m.minEach then m.minEach else r
  }

  // fill_free_list.
  function FillFreeList(m: Mem, n: nat): (Mem, nat) {
    if n <= |m.free| then (m, n) else FillFrom(m, Wanted(m, n))
  }

  function Taken(m: Mem, n: nat): Mem
    requires n <= |m.free|
  {
    var k := |m.free| - n;
    m.(free := m.free[..k], known := Marked(m.known, m.free[k..], true))
  }

  // alloc_from_free_list: the buffers handed out, or None where its ASSERT fails.
  function Alloc(m: Mem, n: nat): (Mem, Option<seq<nat>>) {
    var (g, filled) := FillFreeList(m, n);
    if filled == 0 then (g, Some([]))
    else if |g.free| < n then (g, None)
    else (Taken(g, n), Some(g.free[|g.free| - n..]))
  }

  // ------------------------------------------------------------------------------------------
  // Copying, cloning, attaching

  // `count` bytes copied from one buffer's memory to the same place in another's.
  function CopySpan(d: seq<u8>, s: seq<u8>, from: int, count: nat): (r: seq<u8>)
    ensures |r| == |d|
  {
    if 0 <= from && from + count <= |s| == |d|
    then d[..from] + s[from..from + count] + d[from + count..]
    else d
  }

  // vlib_buffer_copy for one segment: `first` also takes the cached length.
  function CopiedSegment(d: Buffer, s: Buffer, pre: nat, first: bool, next: Option<nat>): Buffer {
    d.(currentData := s.currentData, currentLength := s.currentLength,
       nextPresent := s.nextPresent, totalLengthValid := s.totalLengthValid, extHdrValid := false,
       totalRest := if first then s.totalRest else d.totalRest,
       nextBuffer := if next.Some? then next.value else d.nextBuffer,
       mem := CopySpan(d.mem, s.mem, pre + s.currentData, s.currentLength))
  }

  function IndexOf(s: seq<nat>, b: nat): (i: nat)
    requires b in s
    ensures i < |s| && s[i] == b
  {
    if s[0] == b then 0 else 1 + IndexOf(s[1..], b)
  }

  // What copying the chain c into the buffers ds, one for one, leaves in buffer b.
  function CopiedBuffer(m: Mem, c: seq<nat>, ds: seq<nat>, b: nat): Buffer
    requires |ds| == |c| && b in m.bufs
  {
    if b in ds then
      var i := IndexOf(ds, b);
      CopiedSegment(m.bufs[b], At(m.bufs, c[i]), m.pre, i == 0,
                    if i + 1 < |ds| then Some(ds[i + 1]) else None)
    else m.bufs[b]
  }

  function Copied(m: Mem, c: seq<nat>, ds: seq<nat>): (r: Mem)
    requires |ds| == |c|
    ensures r.bufs.Keys == m.bufs.Keys && r == m.(bufs := r.bufs)
    ensures forall b :: b in m.bufs ==> r.bufs[b] == CopiedBuffer(m, c, ds, b)
  {
    m.(bufs := map b | b in m.bufs :: CopiedBuffer(m, c, ds, b))
  }

  // vlib_buffer_advance, forwards.
  function Advanced(b: Buffer, l: nat): Buffer {
    b.(currentData := b.currentData + l,
       currentLength := if l <= b.currentLength then b.currentLength - l else 0)
  }

  // The head a clone gets: a copy of the first `headEnd` bytes, linked to the source.
  function CloneHead(d: Buffer, s: Buffer, pre: nat, src: nat, headEnd: nat): Buffer {
    d.(currentData := s.currentData, currentLength := headEnd,
       totalRest := s.totalRest + Advanced(s, headEnd).currentLength,
       nextPresent := true, totalLengthValid := s.totalLengthValid, extHdrValid := false,
       nextBuffer := src,
       mem := CopySpan(d.mem, s.mem, pre + s.currentData, headEnd))
  }

  // vlib_buffer_clone, shared path, for one buffer: heads ds in front of the chain c, whose
  // reference counts are set and whose first buffer skips the copied bytes.
  function ClonedBuffer(m: Mem, c: seq<nat>, ds: seq<nat>, headEnd: nat, b: nat): Buffer
    requires c != [] && ds != [] && b in m.bufs
  {
    var s := At(m.bufs, c[0]);
    if b in ds then CloneHead(m.bufs[b], s, m.pre, c[0], headEnd)
    else if b in c then (if b == c[0] then Advanced(s, headEnd) else m.bufs[b]).(nAddRefs := |ds| - 1)
    else m.bufs[b]
  }

  function Cloned(m: Mem, c: seq<nat>, ds: seq<nat>, headEnd: nat): (r: Mem)
    requires c != [] && ds != []
    ensures r.bufs.Keys == m.bufs.Keys && r == m.(bufs := r.bufs)
    ensures forall b :: b in m.bufs ==> r.bufs[b] == ClonedBuffer(m, c, ds, headEnd, b)
  {
    m.(bufs := map b | b in m.bufs :: ClonedBuffer(m, c, ds, headEnd, b))
  }

  // The buffer x as the head of a packet whose rest starts with the buffer `tail`, which is t.
  function LinkedHead(x: Buffer, t: Buffer, tail: nat): Buffer {
    x.(nextPresent := true, totalLengthValid := t.totalLengthValid, extHdrValid := false,
       nextBuffer := tail, totalRest := t.currentLength + t.totalRest)
  }

  // vlib_buffer_attach_clone for one buffer: the chain c behind the single buffer `head`; the
  // counts are 8-bit.
  function AttachedBuffer(m: Mem, head: nat, c: seq<nat>, b: nat): Buffer
    requires c != [] && b in m.bufs
  {
    var x := if b == head then LinkedHead(m.bufs[b], At(m.bufs, c[0]), c[0]) else m.bufs[b];
    if b in c then x.(nAddRefs := (x.nAddRefs + 1) % (MAX_U8 + 1)) else x
  }

  function Attached(m: Mem, head: nat, c: seq<nat>): (r: Mem)
    requires c != []
    ensures r.bufs.Keys == m.bufs.Keys && r == m.(bufs := r.bufs)
    ensures forall b :: b in m.bufs ==> r.bufs[b] == AttachedBuffer(m, head, c, b)
  {
    m.(bufs := map b | b in m.bufs :: AttachedBuffer(m, head, c, b))
  }

  // ------------------------------------------------------------------------------------------
  // Appending, and the length of a chain

  const U16_RANGE: int := 0x1_0000

  // vlib_buffer_chain_init.
  function Emptied(b: Buffer): Buffer {
    b.(totalRest := 0, currentLength := 0, nextPresent := false, totalLengthValid := true)
  }

  // Bytes that still fit in a buffer's data area, as a 16-bit word.
  function Room(m: Mem, b: Buffer): nat {
    (m.dataBytes - b.currentLength - b.currentData) % U16_RANGE
  }

  // `bytes` written into memory from `at` on.
  function Overwritten(d: seq<u8>, at: int, bytes: seq<u8>): (r: seq<u8>)
    ensures |r| == |d|
  {
    if 0 <= at && at + |bytes| <= |d| then d[..at] + bytes + d[at + |bytes|..] else d
  }

  // Copying `bytes` behind the data of `last` and vlib_buffer_chain_increase_length, for one buffer.
  function PutBuffer(m: Mem, first: nat, last: nat, bytes: seq<u8>, b: nat): Buffer
    requires b in m.bufs
  {
    var x := m.bufs[b];
    if b == last then
      x.(currentLength := x.currentLength + |bytes|,
         mem := Overwritten(x.mem, m.pre + x.currentData + x.currentLength, bytes))
    else if b == first then
      x.(totalRest := x.totalRest + |bytes|)
    else x
  }

  function Put(m: Mem, first: nat, last: nat, bytes: seq<u8>): (r: Mem)
    ensures r.bufs.Keys == m.bufs.Keys && r == m.(bufs := r.bufs)
    ensures forall b :: b in m.bufs ==> r.bufs[b] == PutBuffer(m, first, last, bytes, b)
  {
    m.(bufs := map b | b in m.bufs :: PutBuffer(m, first, last, bytes, b))
  }

  // vlib_buffer_chain_buffer: buffer `next` behind `last`, empty and with nothing behind it.
  function ChainedBuffer(m: Mem, last: nat, next: nat, b: nat): Buffer
    requires b in m.bufs
  {
    var x := if b == last then m.bufs[b].(nextBuffer := next, nextPresent := true) else m.bufs[b];
    if b == next then x.(currentLength := 0, nextPresent := false) else x
  }

  function Chained(m: Mem, last: nat, next: nat): (r: Mem)
    ensures r.bufs.Keys == m.bufs.Keys && r == m.(bufs := r.bufs)
    ensures forall b :: b in m.bufs ==> r.bufs[b] == ChainedBuffer(m, last, next, b)
  {
    m.(bufs := map b | b in m.bufs :: ChainedBuffer(m, last, next, b))
  }

  // What vlib_buffer_chain_append_data_with_alloc leaves: bytes copied, the chain's last buffer, and
  // the buffers it added to the chain.
  datatype Appended = Appended(m: Mem, copied: nat, last: nat, added: seq<nat>)

  function AppendData(m: Mem, first: nat, last: nat, data: seq<u8>): (r: Appended)
    decreases |data|, 1
  {
    if data == [] then
      Appended(m, 0, last, [])
    else if Room(m, At(m.bufs, last)) == 0 then
      var (g, got) := Alloc(m, 1);
      if got.Some? && |got.value| == 1 then
        var d := got.value[0];
        var r := AppendSome(Chained(g, last, d), first, d, data);
        r.(added := [d] + r.added)
      else
        Appended(g, 0, last, [])
    else
      AppendSome(m, first, last, data)
  }

  // ... its loop body from the copy on. A buffer with no room even when new would never end the loop.
  function AppendSome(m: Mem, first: nat, last: nat, data: seq<u8>): (r: Appended)
    requires data != []
    decreases |data|, 0
  {
    var len := Min(|data|, Room(m, At(m.bufs, last)));
    if len == 0 then
      Appended(m, 0, last, [])
    else
      var r := AppendData(Put(m, first, last, data[..len]), first, last, data[len..]);
      r.(copied := len + r.copied)
  }

  // vlib_buffer_length_in_chain: the cached length, or by its slow path the chain c added up and
  // cached.
  function LengthIsCached(b: Buffer): bool {
    !b.nextPresent || b.totalLengthValid
  }

  function Measured(m: Mem, c: seq<nat>): (r: Mem)
    requires c != [] && c[0] in m.bufs
  {
    if LengthIsCached(m.bufs[c[0]]) then m
    else m.(bufs := m.bufs[c[0] := m.bufs[c[0]].(totalRest := Length(m.bufs, c[1..]),
                                                 totalLengthValid := true)])
  }

  function LengthInChain(m: Mem, c: seq<nat>): nat
    requires c != [] && c[0] in m.bufs
  {
    var b := m.bufs[c[0]];
    if LengthIsCached(b) then b.currentLength + b.totalRest
    else b.currentLength + Length(m.bufs, c[1..])
  }
}
