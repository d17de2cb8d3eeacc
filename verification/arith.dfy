/** Facts about integer division the solver does not find on its own. */
module IntArith {

  lemma MulLeft(b: int, x: int, y: int)
    requires b >= 0 && x <= y
    ensures b * x <= b * y
  {
    assert b * y - b * x == b * (y - x);
  }

  /** Quotient and remainder are the unique pair with `a == b * q + r` and `0 <= r < b`. */
  lemma DivModUnique(a: int, b: int, q: int, r: int)
    requires b > 0 && a == b * q + r && 0 <= r < b
    ensures a / b == q && a % b == r
  {
    var q', r' := a / b, a % b;
    assert a == b * q' + r' && 0 <= r' < b;
    if q' > q {
      assert b * (q + 1) == b * q + b;
      MulLeft(b, q + 1, q');
    } else if q' < q {
      assert b * (q' + 1) == b * q' + b;
      MulLeft(b, q' + 1, q);
    }
  }

  /** Negating a positive numerator's quotient gives the quotient rounded toward zero. */
  lemma NegatedQuotient(m: int, b: int)
    requires m > 0 && b > 0
    ensures 0 <= m / b <= m
    ensures (-(m / b)) * b >= -m && (-(m / b) - 1) * b < -m
  {
    var d, r := m / b, m % b;
    assert m == b * d + r && 0 <= r < b;
    MulLeft(b, 0, d);
    MulLeft(d, 1, b);
    assert (-d) * b == -(b * d);
    assert (-d - 1) * b == -(b * d) - b;
  }

  lemma DivBelow(a: nat, b: nat, k: nat)
    requires b > 0 && a <= b * k
    ensures 0 <= a / b <= k
  {
    DivModUnique(a, b, a / b, a % b);
    if a / b > k {
      MulLeft(b, k + 1, a / b);
    }
  }

  /** One step of a counter modulo n. */
  lemma ModSucc(n: nat, k: nat)
    requires n > 0
    ensures (k + 1) % n == if k % n + 1 == n then 0 else k % n + 1
  {
    var q, r := k / n, k % n;
    DivModUnique(k, n, q, r);
    if r + 1 == n {
      DivModUnique(k + 1, n, q + 1, 0);
    } else {
      DivModUnique(k + 1, n, q, r + 1);
    }
  }
}
