/** Quotients and remainders by a divisor that is not known. */
module Remainders {

  lemma {:induction false} MultipleBelow(a: int, b: int, n: nat)
    ensures a < b ==> a * n + n <= b * n
  {
    if n > 0 {
      MultipleBelow(a, b, n - 1);
      assert a * n == a * (n - 1) + a && b * n == b * (n - 1) + b;
    }
  }

  lemma {:induction false} WithinFirst(x: nat, n: nat)
    requires x < n
    ensures x / n == 0 && x % n == x
  {
    MultipleBelow(0, x / n, n);
  }

  lemma {:induction false} OnePeriodOn(x: nat, n: nat)
    requires n > 0
    ensures (x + n) / n == x / n + 1
    ensures (x + n) % n == x % n
  {
    var q, r := x / n, x % n;
    var q', r' := (x + n) / n, (x + n) % n;
    assert x == q * n + r && x + n == q' * n + r';
    assert (q + 1) * n == q * n + n;
    MultipleBelow(q', q + 1, n);
    MultipleBelow(q + 1, q', n);
  }
}
