/** Seat arithmetic: the facts about `%` that the trick rotation relies on.
    Dafny's `%` is Euclidean; for the positive player count used everywhere
    here it agrees with the floor remainder of the game's arithmetic. */
module Seats {

  lemma {:induction false} MulNonNegative(a: int, b: int)
    requires a >= 0 && b >= 0
    ensures a * b >= 0
    decreases a
  {
    if a > 0 {
      MulNonNegative(a - 1, b);
      assert a * b == (a - 1) * b + b;
    }
  }

  lemma MulSucc(n: int, k: int)
    ensures n * (k + 1) == n * k + n
  {
  }

  lemma MulAtLeast(d: int, n: int)
    requires d != 0 && n > 0
    ensures d * n >= n || d * n <= -n
  {
    if d > 0 {
      MulNonNegative(d - 1, n);
      assert d * n == (d - 1) * n + n;
    } else {
      MulNonNegative(-d - 1, n);
      assert d * n == -((-d - 1) * n) - n;
    }
  }

  /** A multiple of n strictly between -n and n is 0. */
  lemma SmallMultipleIsZero(d: int, n: int)
    requires n > 0 && -n < d * n < n
    ensures d == 0
  {
    if d != 0 {
      MulAtLeast(d, n);
      assert false;
    }
  }

  /** Quotient and remainder are the unique ones. */
  lemma DivModUnique(x: int, n: int, q: int, r: int)
    requires n > 0 && 0 <= r < n && x == q * n + r
    ensures x % n == r && x / n == q
  {
    var d := q - x / n;
    assert d * n == x % n - r;
    SmallMultipleIsZero(d, n);
  }

  lemma ModPlusModulus(x: int, n: int)
    requires n > 0
    ensures (x + n) % n == x % n
  {
    DivModUnique(x + n, n, x / n + 1, x % n);
  }

  lemma ModAddLeft(a: int, b: int, n: int)
    requires n > 0
    ensures (a % n + b) % n == (a + b) % n
  {
    DivModUnique(a + b, n, a / n + (a % n + b) / n, (a % n + b) % n);
  }

  lemma ModOfSmall(x: int, n: int)
    requires 0 <= x < n
    ensures x % n == x
  {
    DivModUnique(x, n, 0, x);
  }

  /** Stepping k seats on from seat w, taken modulo n, reaches seat x when
      w + k == x. */
  lemma StepsOnward(w: int, k: int, x: int, n: int)
    requires n > 0 && w + k == x
    ensures ((w + n) % n + k) % n == x % n
  {
    ModAddLeft(w + n, k, n);
    ModPlusModulus(x, n);
  }

  /** Stepping i seats and stepping j seats from the same seat, for two
      different step counts below n, lands on two different seats. */
  lemma StepsDistinct(n: nat, from: nat, i: nat, j: nat)
    requires i < n && j < n && i != j
    ensures (from + i) % n != (from + j) % n
  {
    var a, b := from + i, from + j;
    DivModUnique(a, n, a / n, a % n);
    DivModUnique(b, n, b / n, b % n);
    var d := a / n - b / n;
    assert i - j == d * n + (a % n - b % n);
    if a % n == b % n {
      SmallMultipleIsZero(d, n);
    }
  }

  /** Every seat p is reached from `from` in (p - from) % n steps. */
  lemma StepsTo(n: nat, from: nat, p: nat)
    requires p < n
    ensures 0 <= (p - from) % n < n
    ensures (from + (p - from) % n) % n == p
  {
    ModAddLeft(p - from, from, n);
    ModOfSmall(p, n);
  }
}
