/** n equal real amounts added up, for durations. */
module Reals {
  function Repeated(n: nat, a: real): real {
    if n == 0 then 0.0 else Repeated(n - 1, a) + a
  }

  lemma {:induction false} RepeatedIsProduct(n: nat, a: real)
    ensures Repeated(n, a) == n as real * a
  {
    if n > 0 {
      RepeatedIsProduct(n - 1, a);
      assert n as real == (n - 1) as real + 1.0;
      assert ((n - 1) as real + 1.0) * a == (n - 1) as real * a + a;
    }
  }
}
