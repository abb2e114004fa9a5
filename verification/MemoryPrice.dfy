/** The price of memory, appendix H.1 of the Ethereum Yellow Paper. */
module MemoryPrice {
  /** The total price of a memory of w words. */
  function CMem(w: nat): nat {
    3 * w + w * w / 512
  }

  lemma SquareMonotone(a: nat, b: nat)
    requires a <= b
    ensures a * a <= b * b
  {
  }

  lemma CMemMonotone(a: nat, b: nat)
    requires a <= b
    ensures CMem(a) <= CMem(b) && (a < b ==> CMem(a) < CMem(b))
  {
    SquareMonotone(a, b);
  }

  /** The price is 3 w and a 512th of w^2, rounded down. */
  lemma CMemIs(w: nat)
    ensures 512 * CMem(w) <= 1536 * w + w * w < 512 * CMem(w) + 512
  {
  }
}
