// How many buffers a refill adds, and which, by what physmem is going to answer.
module BufferRefill {
  import opened Base
  import opened BufferSpec
  import opened BufferAlloc

  // What is asked of physmem at its answer i, when `total` buffers are wanted in all.
  function Asked(total: nat, i: nat): nat {
    if total <= i * CHUNK then 0 else Min(total - i * CHUNK, CHUNK)
  }

  // Its first j answers are what is asked for; `total` is reached by them, or the next one is not.
  ghost predicate Answers(m: Mem, total: nat, j: nat) {
    && (forall i :: 0 <= i < j ==> i * CHUNK < total && FreshOf(m, i, Asked(total, i)))
    && (total <= j * CHUNK || !FreshOf(m, j, Asked(total, j)))
  }

  function Joined(chunks: seq<seq<nat>>): seq<nat> {
    if chunks == [] then [] else chunks[0] + Joined(chunks[1..])
  }

  lemma AnswersNext(m: Mem, total: nat, j: nat)
    requires 0 < total && 0 < j && Answers(m, total, j)
    ensures m.supply != [] && FreshChunk(m, Min(total, CHUNK), m.supply[0])
    ensures Answers(Grown(m, m.supply[0]), total - Min(total, CHUNK), j - 1)
  {
    hide Grown;
    FreshOfFirst(m, Asked(total, 0));
    hide FreshOf, FreshChunk;
    var g, rest := Grown(m, m.supply[0]), total - Min(total, CHUNK);
    forall i | 0 <= i < j - 1 ensures i * CHUNK < rest && FreshOf(g, i, Asked(rest, i)) {
      assert (i + 1) * CHUNK < total && FreshOf(m, i + 1, Asked(total, i + 1));
      FreshOfNext(m, i, Asked(rest, i));
    }
    FreshOfNext(m, j - 1, Asked(rest, j - 1));
  }

  // The refill's loop takes in the good answers and stops.
  lemma {:induction false} FillAdds(m: Mem, total: nat, j: nat)
    requires Answers(m, total, j)
    ensures var (g, k) := FillFrom(m, total);
            && k == Min(total, j * CHUNK) && g.nAlloc == m.nAlloc + k
            && j <= |m.supply| && g.free == m.free + Joined(m.supply[..j]) && |Joined(m.supply[..j])| == k
            && g.supply == if total <= j * CHUNK then m.supply[j..] else Rest(m.supply[j..])
    decreases j
  {
    hide Answers, FreshOf, FreshChunk, Grown;
    if total == 0 || j == 0 {
      NoneTaken(m, total, j);
    } else {
      AnswersNext(m, total, j);
      var g, n := Grown(m, m.supply[0]), Min(total, CHUNK);
      GrownExtends(m, m.supply[0], n);
      GrownLists(m);
      FillAdds(g, total - n, j - 1);
      assert m.supply[..j] == [m.supply[0]] + g.supply[..j - 1] && g.supply[j - 1..] == m.supply[j..];
      assert m.free + (m.supply[0] + Joined(g.supply[..j - 1])) == g.free + Joined(g.supply[..j - 1]);
    }
  }

  lemma GrownLists(m: Mem)
    requires m.supply != []
    ensures var g := Grown(m, m.supply[0]);
            g.free == m.free + m.supply[0] && g.supply == m.supply[1..] && g.nAlloc == m.nAlloc + |m.supply[0]|
  {
  }

  lemma AnswersFirst(m: Mem, total: nat, j: nat)
    requires Answers(m, total, j)
    ensures if j > 0 then 0 < total && FreshOf(m, 0, Asked(total, 0))
            else total == 0 || !FreshOf(m, 0, Asked(total, 0))
  {
    assert j > 0 ==> 0 * CHUNK < total && FreshOf(m, 0, Asked(total, 0));
  }

  lemma NoneTaken(m: Mem, total: nat, j: nat)
    requires Answers(m, total, j) && (total == 0 || j == 0)
    ensures j == 0 && FillFrom(m, total) == (if total == 0 then m else m.(supply := Rest(m.supply)), 0)
    ensures m.supply[0..] == m.supply && m.free + Joined(m.supply[..0]) == m.free
  {
    AnswersFirst(m, total, j);
    FreshOfFirst(m, Asked(total, 0));
  }

  // A refill for n buffers, where fewer are free, adds the larger of the minimum for each refill and
  // the least multiple of 16 that is enough; or, when physmem's answers go bad after j good chunks,
  // those, if they are fewer. They go on the end of the free list in the order of the answers.
  lemma RefillExact(m: Mem, n: nat, least: nat, total: nat, j: nat)
    requires |m.free| < n && least % 16 == 0 && n - |m.free| <= least < n - |m.free| + 16
    requires total == (if least < m.minEach then m.minEach else least) && Answers(m, total, j)
    ensures var (g, k) := FillFreeList(m, n);
            && k == Min(total, 16 * j) && g.nAlloc == m.nAlloc + k && j <= |m.supply|
            && g.free == m.free + Joined(m.supply[..j]) && |g.free| == |m.free| + k
            && g.supply == if total <= 16 * j then m.supply[j..] else Rest(m.supply[j..])
  {
    hide Answers;
    FillAdds(m, total, j);
    LeastIs(n - |m.free|, least);
  }

  lemma LeastIs(need: nat, least: nat)
    requires least % 16 == 0 && need <= least < need + 16
    ensures RoundUp(need, CHUNK) == least
  {
  }

  // There is one such multiple, and one number of good answers.
  lemma LeastExists(need: nat) returns (least: nat)
    ensures least % 16 == 0 && need <= least < need + 16
  {
    least := (need + 15) / 16 * 16;
  }

  lemma {:induction false} AnswersExist(m: Mem, total: nat, i: nat) returns (j: nat)
    requires forall k :: 0 <= k < i ==> k * CHUNK < total && FreshOf(m, k, Asked(total, k))
    ensures Answers(m, total, j)
    decreases |m.supply| - i
  {
    if total <= i * CHUNK || !FreshOf(m, i, Asked(total, i)) {
      j := i;
    } else {
      j := AnswersExist(m, total, i + 1);
    }
  }

  // With enough free buffers nothing is asked of physmem.
  lemma NoRefill(m: Mem, n: nat)
    requires n <= |m.free|
    ensures FillFreeList(m, n) == (m, n)
  {
  }

  // One buffer wanted, none free, with the source's minimum of 256 and as many to come: all 256 are added.
  lemma RefillOfOne(m: Mem)
    requires m.free == [] && m.minEach == 256 && |m.supply| >= 16 && forall i :: 0 <= i < 16 ==> Fresh(m, i)
    ensures FillFreeList(m, 1).1 == 256 && FillFreeList(m, 1).0.nAlloc == m.nAlloc + 256
  {
    hide FreshOf;
    forall i | 0 <= i < 16 ensures FreshOf(m, i, Asked(256, i)) { assert Fresh(m, i); }
    RefillExact(m, 1, 16, 256, 16);
  }

  // A buffer that a refill adds is as the template leaves it, over memory set to zero; those there before
  // stay as they are.
  lemma {:induction false} RefillZeroes(m: Mem, total: nat, b: nat)
    requires b in FillFrom(m, total).0.bufs
    ensures var x := FillFrom(m, total).0.bufs[b];
            if b in m.bufs then x == m.bufs[b]
            else
              && x.currentData == x.currentLength == x.totalRest == x.nAddRefs == 0
              && !x.nextPresent && !x.totalLengthValid && !x.extHdrValid
              && |x.mem| == m.pre + m.dataBytes && forall i :: 0 <= i < |x.mem| ==> x.mem[i] == 0
    decreases total
  {
    hide FreshChunk;
    var n := Min(total, CHUNK);
    if total > 0 && m.supply != [] && FreshChunk(m, n, m.supply[0]) {
      RefillZeroes(Grown(m, m.supply[0]), total - n, b);
      GrownAt(m, m.supply[0], b);
    }
  }

  lemma GrownAt(m: Mem, chunk: seq<nat>, b: nat)
    ensures var g := Grown(m, chunk);
            && g.pre == m.pre && g.dataBytes == m.dataBytes
            && (b in m.bufs ==> b in g.bufs && g.bufs[b] == m.bufs[b])
            && (b in g.bufs && b !in m.bufs ==> g.bufs[b] == NewBuffer(m))
  {
    hide NewBuffer, Marked;
  }
}
