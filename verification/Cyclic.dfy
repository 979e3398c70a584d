/**
 Quotient and remainder by repeated subtraction. They are the operators / and %
 on naturals (DivModNative); defined this way every fact about positions in a
 circular buffer is linear and follows by induction on the position.
 */
module Cyclic {

  function Mod(x: nat, n: nat): (r: nat)
    requires n > 0
    ensures r < n && r <= x
  {
    if x < n then x else Mod(x - n, n)
  }

  function Div(x: nat, n: nat): nat
    requires n > 0
  {
    if x < n then 0 else 1 + Div(x - n, n)
  }

  /** k times n. */
  function Times(n: nat, k: nat): nat {
    if k == 0 then 0 else Times(n, k - 1) + n
  }

  lemma {:induction false} DivModNative(x: nat, n: nat)
    requires n > 0
    ensures Mod(x, n) == x % n && Div(x, n) == x / n
  {
    if x >= n {
      DivModNative(x - n, n);
      NativeStep(x, n);
    }
  }

  lemma NativeStep(x: nat, n: nat)
    requires 0 < n <= x
    ensures x / n == (x - n) / n + 1 && x % n == (x - n) % n
  {
    var q, r := (x - n) / n, (x - n) % n;
    assert x == (q + 1) * n + r;
    var d := x / n - (q + 1);
    assert d * n == r - x % n;
    assert d >= 1 ==> d * n >= n;
    assert d <= -1 ==> d * n <= 0 - n;
  }

  /** Two positions less than a buffer apart never share a slot. */
  lemma {:induction false} ModDistinct(a: nat, b: nat, n: nat)
    requires a < b < a + n
    ensures Mod(a, n) != Mod(b, n)
  {
    if a >= n {
      ModDistinct(a - n, b - n, n);
    }
  }

  /** Moving forward without passing the end of the buffer. */
  lemma {:induction false} ModAdvance(a: nat, d: nat, n: nat)
    requires n > 0 && Mod(a, n) + d < n
    ensures Mod(a + d, n) == Mod(a, n) + d
  {
    if a >= n {
      ModAdvance(a - n, d, n);
    }
  }

  /** Reaching the end of the buffer exactly. */
  lemma {:induction false} ModEnd(a: nat, d: nat, n: nat)
    requires n > 0 && Mod(a, n) + d == n
    ensures Mod(a + d, n) == 0
  {
    if a >= n {
      ModEnd(a - n, d, n);
    }
  }

  lemma {:induction false} DivModSplit(x: nat, n: nat)
    requires n > 0
    ensures x == Times(n, Div(x, n)) + Mod(x, n)
  {
    if x >= n {
      DivModSplit(x - n, n);
    }
  }

  lemma {:induction false} ModTimes(n: nat, k: nat)
    requires n > 0
    ensures Mod(Times(n, k), n) == 0
  {
    if k > 0 {
      ModTimes(n, k - 1);
    }
  }

  lemma {:induction false} DivBelow(x: nat, n: nat, k: nat)
    requires n > 0 && x < Times(n, k)
    ensures Div(x, n) < k
  {
    if x >= n {
      DivBelow(x - n, n, k - 1);
    }
  }

  /** Adding a multiple of c keeps the remainder by c. */
  lemma {:induction false} ModPlusMultiple(x: nat, m: nat, c: nat)
    requires c > 0 && Mod(m, c) == 0
    ensures Mod(x + m, c) == Mod(x, c)
  {
    if m >= c {
      ModPlusMultiple(x, m - c, c);
    }
  }

  lemma {:induction false} ModMod(x: nat, n: nat, c: nat)
    requires n > 0 && c > 0 && Mod(n, c) == 0
    ensures Mod(Mod(x, n), c) == Mod(x, c)
  {
    if x >= n {
      ModMod(x - n, n, c);
      ModPlusMultiple(x - n, n, c);
    }
  }

  /** Between two multiples of c there is room for one more. */
  lemma {:induction false} MultiplesApart(a: nat, b: nat, c: nat)
    requires c > 0 && a < b && Mod(a, c) == 0 && Mod(b, c) == 0
    ensures a + c <= b
  {
    if a >= c {
      MultiplesApart(a - c, b - c, c);
    }
  }

  lemma {:induction false} ModFloor(x: nat, c: nat)
    requires c > 0
    ensures Mod(x - Mod(x, c), c) == 0
  {
    if x >= c {
      ModFloor(x - c, c);
    }
  }

  lemma {:induction false} FloorMonotone(x: nat, y: nat, c: nat)
    requires c > 0 && x <= y
    ensures x - Mod(x, c) <= y - Mod(y, c)
  {
    if x >= c {
      FloorMonotone(x - c, y - c, c);
    }
  }
}
