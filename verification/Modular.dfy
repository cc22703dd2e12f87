/** Remainders: which slot of a ring an ever-growing index falls on. */
module Modular {
  lemma {:induction false} Monotone(a: nat, b: nat, n: nat)
    requires a <= b
    ensures a * n <= b * n
  {
  }

  lemma {:induction false} Gap(a: int, b: int, c: nat)
    requires a > b
    ensures a * c >= b * c + c
  {
    NotNegative(a - b - 1, c);
    assert (a - b - 1) * c == a * c - b * c - c;
  }

  lemma {:induction false} NotNegative(e: nat, c: nat)
    ensures e * c >= 0
  {
  }

  lemma {:induction false} ModUnique(q: int, x: int, c: nat)
    requires c > 0 && 0 <= x < c
    ensures (q * c + x) % c == x
  {
    var n := q * c + x;
    var d, m := n / c, n % c;
    assert n == d * c + m && 0 <= m < c;
    if q > d { Gap(q, d, c); } else if q < d { Gap(d, q, c); }
  }

  lemma {:induction false} ModTurn(i: nat, c: nat)
    requires c > 0
    ensures (i + c) % c == i % c
  {
    ModUnique(i / c + 1, i % c, c);
    assert (i / c + 1) * c + i % c == i + c;
  }

  /** Fewer than c apart, two indices never share a slot. */
  lemma {:induction false} ModApart(i: nat, j: nat, c: nat)
    requires i < j < i + c
    ensures i % c != j % c
  {
    if i % c + (j - i) < c {
      ModUnique(i / c, i % c + (j - i), c);
      assert i / c * c + (i % c + (j - i)) == j;
    } else {
      ModUnique(i / c + 1, i % c + (j - i) - c, c);
      assert (i / c + 1) * c + (i % c + (j - i) - c) == j;
    }
  }

  /** Every slot is hit once in any c consecutive indices. */
  lemma {:induction false} Representative(q: nat, i: nat, c: nat) returns (k: nat)
    requires i < c
    ensures q <= k < q + c && k % c == i
  {
    k := if q % c <= i then q - q % c + i else q - q % c + c + i;
    assert q / c * c == q - q % c;
    ModUnique(q / c, i, c);
    ModUnique(q / c + 1, i, c);
    assert (q / c + 1) * c == q / c * c + c;
  }
}
