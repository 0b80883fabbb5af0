/** Facts about exact reals, and the maximum that both indexes divide their scores by. */
module Scoring {

  lemma SquareNonNegative(x: real)
    ensures 0.0 <= x * x
  {
  }

  lemma NonNegativeProduct(a: real, b: real)
    requires 0.0 <= a && 0.0 <= b
    ensures 0.0 <= a * b
  {
  }

  /** Multiplying by a positive number keeps the order. */
  lemma MulOrder(a: real, b: real, s: real)
    requires 0.0 < s
    ensures a < b <==> a * s < b * s
    ensures a == b <==> a * s == b * s
  {
    assert (b - a) * s == b * s - a * s;
  }

  lemma ScaleOrder(a: real, b: real, s: real)
    requires a <= b && 0.0 <= s
    ensures a * s <= b * s
  {
    assert (b - a) * s == b * s - a * s;
    NonNegativeProduct(b - a, s);
  }

  /** If y is not negative and its square covers that of z, y covers z. */
  lemma SquareOrder(y: real, z: real)
    requires 0.0 <= y && z * z <= y * y
    ensures z <= y
  {
    if 0.0 < z {
      assert (z - y) * (z + y) == z * z - y * y;
      MulOrder(0.0, z - y, z + y);
    }
  }

  lemma Quotient(x: real, d: real)
    requires 0.0 < d && -d <= x <= d
    ensures -1.0 <= x / d <= 1.0
    ensures x == d ==> x / d == 1.0
  {
    var q := x / d;
    assert q * d == x;
    MulOrder(1.0, q, d);
    MulOrder(q, -1.0, d);
  }

  lemma QuotientOrder(x: real, y: real, d: real)
    requires d != 0.0
    ensures 0.0 < d ==> (x / d < y / d <==> x < y)
    ensures d < 0.0 ==> (x / d < y / d <==> y < x)
  {
    var p, q := x / d, y / d;
    assert p * d == x && q * d == y;
    if 0.0 < d {
      MulOrder(p, q, d);
    } else {
      MulOrder(p, q, -d);
    }
  }

  lemma QuotientPlusOne(x: real, d: real)
    requires 0.0 < d
    ensures 1.0 + x / d == (x + d) / d && d / d == 1.0 && 0.0 / d == 0.0
  {
    var q, r := x / d, (x + d) / d;
    assert q * d == x && r * d == x + d;
    assert (1.0 + q) * d == d + q * d;
    MulOrder(1.0 + q, r, d);
  }

  /** Multiplying the members of a chain by a positive number keeps it. */
  lemma ScaleChain(s: real, u: real, v: real, k: real)
    requires 0.0 < s
    ensures 0.0 < u ==> 0.0 < s * u
    ensures u < k ==> s * u < s * k
    ensures u <= k ==> s * u <= s * k
    ensures u < v ==> s * u < s * v
    ensures v <= u ==> s * v <= s * u
  {
    MulOrder(0.0, u, s);
    MulOrder(u, k, s);
    MulOrder(u, v, s);
  }

  // ---------------------------------------------------------------- the largest score

  /** The largest value over a nonempty list of keys. */
  function MaxOver(m: map<string, real>, keys: seq<string>): (r: real)
    requires keys != [] && forall i :: 0 <= i < |keys| ==> keys[i] in m
    ensures forall i :: 0 <= i < |keys| ==> m[keys[i]] <= r
    ensures exists i :: 0 <= i < |keys| && m[keys[i]] == r
  {
    var last := m[keys[|keys| - 1]];
    if |keys| == 1 then last
    else
      var rest := MaxOver(m, keys[..|keys| - 1]);
      if last > rest then last else rest
  }

  function OrOne(x: real): real { if x == 0.0 then 1.0 else x }
}
