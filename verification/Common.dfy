/** What several parts of the kernel have in common. */
module Common {

  const PGSIZE: nat := 4096

  /** PGROUNDDOWN */
  function PageRoundDown(a: nat): nat
  {
    a - a % PGSIZE
  }

  /** PGROUNDUP */
  function PageRoundUp(a: nat): nat
  {
    (a + PGSIZE - 1) / PGSIZE * PGSIZE
  }

  function Pow2(n: nat): (r: nat)
    ensures r >= 1
  {
    if n == 0 then 1 else 2 * Pow2(n - 1)
  }

  lemma {:induction false} Pow2Monotone(a: nat, b: nat)
    requires a <= b
    ensures Pow2(a) <= Pow2(b)
    decreases b
  {
    if a < b { Pow2Monotone(a, b - 1); }
  }

  /** The ranges of `m` addresses from `a` on and of `n` addresses from `b` on meet. */
  predicate Overlap(a: nat, m: nat, b: nat, n: nat)
  {
    a < b + n && b < a + m
  }

  lemma Smaller(a: set<nat>, b: set<nat>)
    requires a <= b
    ensures |a| <= |b|
  {
    assert b == a + (b - a);
  }
}
