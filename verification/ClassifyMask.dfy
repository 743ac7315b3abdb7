// Trimming a classifier mask to the 16-byte vectors that matter.
module ClassifyMask {
  import opened Base

  const VECTOR: nat := 16

  // Byte k of what a mask, with `skip` vectors before it not looked at, stands for.
  function Denoted(skip: nat, mask: seq<u8>, k: nat): u8 {
    if skip * VECTOR <= k < skip * VECTOR + |mask| then mask[k - skip * VECTOR] else 0
  }

  // Two masks stand for the same bytes.
  ghost predicate Same(skip: nat, mask: seq<u8>, skip': nat, mask': seq<u8>) {
    forall k: nat :: Denoted(skip, mask, k) == Denoted(skip', mask', k)
  }

  predicate AllZero(mask: seq<u8>, from: nat, to: nat)
    requires to <= |mask|
  {
    forall i :: from <= i < to ==> mask[i] == 0
  }

  // Vector v of a mask has a bit set.
  predicate Significant(mask: seq<u8>, v: nat) {
    (v + 1) * VECTOR <= |mask| && !AllZero(mask, v * VECTOR, (v + 1) * VECTOR)
  }

  // A trimmed mask: whole vectors, the first and the last of them significant.
  ghost predicate Trimmed(count: nat, mask: seq<u8>) {
    |mask| == count * VECTOR && (count > 0 ==> Significant(mask, 0) && Significant(mask, count - 1))
  }

  // Vectors before the first byte that matters.
  method SkipZeros(mask: seq<u8>) returns (skip: nat)
    ensures skip * VECTOR <= |mask| && AllZero(mask, 0, skip * VECTOR)
    ensures AllZero(mask, 0, |mask|)
            || exists i :: skip * VECTOR <= i < (skip + 1) * VECTOR && i < |mask| && mask[i] != 0
    ensures AllZero(mask, 0, |mask|) ==> |mask| < (skip + 1) * VECTOR
  {
    var i := 0;
    while i < |mask|
      invariant 0 <= i <= |mask| && AllZero(mask, 0, i)
    {
      if mask[i] != 0 { break; }
      i := i + 1;
    }
    skip := i / VECTOR;
  }

  // Zeros up to a whole number of vectors.
  method Pad(mask: seq<u8>) returns (padded: seq<u8>)
    ensures mask <= padded && |padded| % VECTOR == 0 && |padded| < |mask| + VECTOR
    ensures AllZero(padded, |mask|, |padded|)
  {
    padded := mask;
    while |padded| % VECTOR != 0
      invariant mask <= padded && AllZero(padded, |mask|, |padded|)
      invariant (|padded| + VECTOR - 1) / VECTOR == (|mask| + VECTOR - 1) / VECTOR
      decreases (|mask| + VECTOR - 1) / VECTOR * VECTOR - |padded|
    {
      padded := padded + [0];
    }
  }

  // Vectors up to the last one that matters.
  method DropZeros(mask: seq<u8>) returns (count: nat)
    requires |mask| % VECTOR == 0
    ensures count * VECTOR <= |mask| && AllZero(mask, count * VECTOR, |mask|)
    ensures count > 0 ==> Significant(mask, count - 1)
  {
    count := |mask| / VECTOR;
    var i := count * VECTOR;
    while i > 0
      invariant i == count * VECTOR <= |mask| && AllZero(mask, i, |mask|)
    {
      if !AllZero(mask, i - VECTOR, i) { break; }
      count := count - 1;
      i := i - VECTOR;
    }
  }

  // The end of unformat_classify_mask, where some part of a mask has been given: the mask kept
  // stands for the same bytes, begins and ends with a vector that matters, and is empty only if no
  // byte does.
  method TrimMask(input: seq<u8>) returns (skip: nat, count: nat, mask: seq<u8>)
    ensures Same(skip, mask, 0, input) && Trimmed(count, mask)
    ensures count == 0 <==> AllZero(input, 0, |input|)
    ensures (skip + count) * VECTOR < |input| + VECTOR
  {
    skip := SkipZeros(input);
    mask := input[skip * VECTOR..];
    var padded := Pad(mask);
    count := DropZeros(padded);
    mask := padded[..count * VECTOR];
    KeptRight(input, skip, padded, count);
  }

  lemma KeptRight(input: seq<u8>, skip: nat, padded: seq<u8>, count: nat)
    requires skip * VECTOR <= |input| && AllZero(input, 0, skip * VECTOR)
    requires input[skip * VECTOR..] <= padded && AllZero(padded, |input| - skip * VECTOR, |padded|)
    requires AllZero(input, 0, |input|)
             || exists i :: skip * VECTOR <= i < (skip + 1) * VECTOR && i < |input| && input[i] != 0
    requires count * VECTOR <= |padded| && |padded| % VECTOR == 0 && AllZero(padded, count * VECTOR, |padded|)
    requires count > 0 ==> Significant(padded, count - 1)
    ensures Same(skip, padded[..count * VECTOR], 0, input) && Trimmed(count, padded[..count * VECTOR])
    ensures count == 0 <==> AllZero(input, 0, |input|)
  {
    var mask, s := padded[..count * VECTOR], skip * VECTOR;
    assert forall j :: 0 <= j < |input| - s ==> padded[j] == input[s..][j] == input[s + j];
    forall k: nat ensures Denoted(skip, mask, k) == Denoted(0, input, k) {
      if s <= k < |input| { assert padded[k - s] == input[k]; }
    }
    if AllZero(input, 0, |input|) {
      assert AllZero(padded, 0, |padded|);
    } else {
      var i :| s <= i < s + VECTOR && i < |input| && input[i] != 0;
      assert padded[i - s] != 0 && mask[i - s] != 0;
    }
    if count > 0 {
      var j :| (count - 1) * VECTOR <= j < count * VECTOR && padded[j] != 0;
      assert mask[j] != 0;
    }
  }

  // Trimming is canonical: masks that stand for the same bytes, some of them set, are trimmed to the
  // same vectors after the same skip.
  lemma TrimmedOnce(skip: nat, count: nat, mask: seq<u8>, skip': nat, count': nat, mask': seq<u8>)
    requires Trimmed(count, mask) && Trimmed(count', mask') && 0 < count
    requires Same(skip, mask, skip', mask')
    ensures skip == skip' && count == count' && mask == mask'
  {
    var i :| 0 <= i < VECTOR && mask[i] != 0;
    assert Denoted(skip, mask, skip * VECTOR + i) != 0;
    assert Denoted(skip', mask', skip * VECTOR + i) != 0;
    var i' :| 0 <= i' < VECTOR && mask'[i'] != 0;
    assert Denoted(skip', mask', skip' * VECTOR + i') != 0;
    assert Denoted(skip, mask, skip' * VECTOR + i') != 0;
    assert skip == skip';
    var j :| (count - 1) * VECTOR <= j < count * VECTOR && mask[j] != 0;
    assert Denoted(skip, mask, skip * VECTOR + j) != 0;
    assert Denoted(skip', mask', skip * VECTOR + j) != 0;
    var j' :| (count' - 1) * VECTOR <= j' < count' * VECTOR && mask'[j'] != 0;
    assert Denoted(skip', mask', skip' * VECTOR + j') != 0;
    assert Denoted(skip, mask, skip' * VECTOR + j') != 0;
    forall k | 0 <= k < |mask| ensures mask[k] == mask'[k] {
      assert Denoted(skip, mask, skip * VECTOR + k) == Denoted(skip', mask', skip * VECTOR + k);
    }
  }
}
