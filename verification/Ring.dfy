// Index arithmetic of a ring of n slots whose indices are unsigned 32-bit words.
module Ring {

  // Values an unsigned 32-bit word wraps at.
  const U32_RANGE: int := 0x1_0000_0000

  // Largest ring for which the index sums of the source stay inside 32 bits.
  const MAX_RING: nat := 0x8000_0000

  // The value a 32-bit word holds after the C expression x.
  function U32(x: int): (r: nat) {
    x % U32_RANGE
  }

  // The slot reached by adding at most one lap to a slot.
  function Wrap(x: nat, n: nat): (r: nat)
    requires x < 2 * n
    ensures r < n
  {
    if x < n then x else x - n
  }

  // Slots walked from `from` up to `to`.
  function Dist(n: nat, from: nat, to: nat): (r: nat)
    requires from < n && to < n
    ensures r < n && Wrap(from + r, n) == to
  {
    if to >= from then to - from else n + to - from
  }

  lemma U32Is(x: int)
    requires 0 <= x < U32_RANGE
    ensures U32(x) == x
  {
  }

  lemma WrapTwice(x: nat, y: nat, n: nat)
    requires x + y < 2 * n
    ensures Wrap(x, n) + y < 2 * n && Wrap(Wrap(x, n) + y, n) == Wrap(x + y, n)
  {
  }

  lemma ModOnce(x: nat, n: nat)
    requires x < 2 * n
    ensures x % n == Wrap(x, n)
  {
  }

  lemma ModTwice(n: nat)
    requires 0 < n
    ensures (2 * n) % n == 0
  {
  }
}
