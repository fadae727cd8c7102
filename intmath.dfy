/**
 * Integer arithmetic as the Python source does it. Dafny's `/` is Euclidean;
 * Python's `int(x / y)` truncates the quotient toward zero instead, which
 * differs for negative dividends.
 */
module IntMath {

  function Abs(x: int): nat {
    if x < 0 then -x else x
  }

  /** Euclidean division of a non-negative number leaves it between two consecutive multiples. */
  lemma {:induction false} DivBracket(n: int, b: int)
    requires n >= 0 && b > 0
    ensures n / b >= 0
    ensures (n / b) * b <= n < (n / b + 1) * b
  {
    assert n == (n / b) * b + n % b;
    assert (n / b + 1) * b == (n / b) * b + b;
  }

  /**
   * `int(a / b)` for a positive divisor: the quotient truncated toward zero.
   * It is the integer of the dividend's sign whose multiple of `b` lies
   * within `b` of `a` without overshooting it.
   */
  function TruncDiv(a: int, b: int): (q: int)
    requires b > 0
    ensures a >= 0 ==> q >= 0
    ensures a <= 0 ==> q <= 0
    ensures Abs(q) * b <= Abs(a) < (Abs(q) + 1) * b
  {
    var n := Abs(a);
    var m := n / b;
    DivBracket(n, b);
    assert Abs(m) == m && Abs(-m) == m;
    if a >= 0 then m else -m
  }
}
