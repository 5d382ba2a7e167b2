/** Products, kept away from the proofs that only add them up. */
module Products {

  lemma MulMonotone(a: int, b: int, c: int)
    requires a <= b && 0 <= c
    ensures a * c <= b * c
  {
  }

  /** n times b, by addition. */
  function Times(n: nat, b: int): int {
    if n == 0 then 0 else Times(n - 1, b) + b
  }

  lemma {:induction false} TimesIs(n: nat, b: int)
    ensures Times(n, b) == n * b
  {
    if n > 0 {
      TimesIs(n - 1, b);
      assert (n - 1) * b + b == n * b;
    }
  }
}
