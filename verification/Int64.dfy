/** 64-bit arithmetic on unbounded numbers: wrapping, and division that truncates. */
module Int64 {

  const INT64_MAX := 0x7FFF_FFFF_FFFF_FFFF
  const INT64_MIN := -0x8000_0000_0000_0000
  const UINT64_RANGE := 0x1_0000_0000_0000_0000

  predicate FitsInt64(x: int) {
    INT64_MIN <= x <= INT64_MAX
  }

  /** Two's complement: the int64 a result that left the range becomes. */
  function Wrap64(x: int): (r: int)
    ensures FitsInt64(r) && (FitsInt64(x) ==> r == x)
  {
    (x - INT64_MIN) % UINT64_RANGE + INT64_MIN
  }

  /** C++ division: truncation toward zero. */
  function TruncDiv(a: int, b: int): int
    requires b > 0
  {
    if a >= 0 then a / b else -(-a / b)
  }

  // ----- wrapping at every step is wrapping once -----

  lemma {:induction false} ProductGrows(m: nat, d: nat)
    ensures m * d >= 0
  {
    if d > 0 {
      ProductGrows(m, d - 1);
      assert m * d == m * (d - 1) + m;
    }
  }

  lemma AtLeastOneMore(m: nat, q: int, q': int)
    requires q < q'
    ensures m * q + m <= m * q'
  {
    var d := q' - q - 1;
    ProductGrows(m, d);
    assert m * (q + 1 + d) == m * q + m + m * d;
  }

  lemma QuotientIs(x: int, m: nat, q: int, r: int)
    requires m > 0 && x == m * q + r && 0 <= r < m
    ensures x / m == q && x % m == r
  {
    if x / m < q {
      AtLeastOneMore(m, x / m, q);
    }
    if q < x / m {
      AtLeastOneMore(m, q, x / m);
    }
  }

  lemma ModShift(x: int, k: int)
    ensures (x + k * UINT64_RANGE) % UINT64_RANGE == x % UINT64_RANGE
  {
    QuotientIs(x + k * UINT64_RANGE, UINT64_RANGE, x / UINT64_RANGE + k, x % UINT64_RANGE);
  }

  lemma WrapShift(x: int, k: int)
    ensures Wrap64(x + k * UINT64_RANGE) == Wrap64(x)
  {
    ModShift(x - INT64_MIN, k);
  }

  /** How far a wrapped number is from the exact one. */
  lemma WrapDistance(x: int) returns (k: int)
    ensures x == Wrap64(x) + k * UINT64_RANGE
    ensures x > INT64_MAX ==> k >= 1
  {
    k := (x - INT64_MIN) / UINT64_RANGE;
  }

  lemma WrapStep(x: int, d: int)
    ensures Wrap64(Wrap64(x) * 10 + d) == Wrap64(x * 10 + d)
  {
    var k := WrapDistance(x);
    WrapShift(Wrap64(x) * 10 + d, k * 10);
  }

  lemma WrapNegated(x: int)
    ensures Wrap64(-Wrap64(x)) == Wrap64(-x)
  {
    var k := WrapDistance(x);
    WrapShift(-x, k);
  }

  // ----- dividing at every step is dividing once -----

  lemma Distribute(a: int, b: int, q: int, s: int)
    ensures a * (b * q + s) == (a * b) * q + a * s
  {
    assert a * (b * q + s) == a * (b * q) + a * s;
    assert a * (b * q) == (a * b) * q;
  }

  lemma DivTwice(x: nat, a: nat, b: nat)
    requires a > 0 && b > 0
    ensures a * b > 0 && x / a / b == x / (a * b)
  {
    var q, r := x / a, x % a;
    var q', r' := q / b, q % b;
    Distribute(a, b, q', r');
    assert x == a * q + r && q == b * q' + r';
    AtLeastOneMore(a, r', b);
    QuotientIs(x, a * b, q', a * r' + r);
  }

  lemma TruncDivNegated(y: nat, a: nat)
    requires a > 0
    ensures TruncDiv(0 - y, a) == 0 - y / a
  {
  }

  lemma TruncDivTwiceUp(y: nat, a: nat, b: nat)
    requires a > 0 && b > 0
    ensures a * b > 0 && TruncDiv(TruncDiv(y, a), b) == TruncDiv(y, a * b)
  {
    DivTwice(y, a, b);
  }

  lemma TruncDivTwiceDown(y: nat, a: nat, b: nat)
    requires a > 0 && b > 0
    ensures a * b > 0 && TruncDiv(TruncDiv(0 - y, a), b) == TruncDiv(0 - y, a * b)
  {
    DivTwice(y, a, b);
    TruncDivNegated(y, a);
    TruncDivNegated(y / a, b);
    TruncDivNegated(y, a * b);
  }

  lemma TruncDivTwice(x: int, a: nat, b: nat)
    requires a > 0 && b > 0
    ensures a * b > 0 && TruncDiv(TruncDiv(x, a), b) == TruncDiv(x, a * b)
  {
    if x >= 0 {
      TruncDivTwiceUp(x, a, b);
    } else {
      var y: nat := -x;
      assert x == 0 - y;
      TruncDivTwiceDown(y, a, b);
    }
  }

  lemma TruncDivSmall(x: int, a: nat)
    requires a > 0 && 0 - a < x < a
    ensures TruncDiv(x, a) == 0
  {
    QuotientIs(if x >= 0 then x else -x, a, 0, if x >= 0 then x else -x);
  }
}
