/** Small facts about real numbers that several modules share. */
module RealArithmetic {

  function Max(a: real, b: real): real {
    if a < b then b else a
  }

  function Min(a: real, b: real): real {
    if a < b then a else b
  }

  lemma QuotientIs(q: real, d: real, p: real)
    requires d != 0.0 && p == q * d
    ensures p / d == q
  {
  }

  lemma QuotientBack(a: real, d: real)
    requires d != 0.0
    ensures a / d * d == a
  {
  }

  lemma QuotientSwaps(a: real, b: real, c: real)
    requires c != 0.0
    ensures a * (b / c) == a / c * b
  {
    var q := b / c;
    assert b == q * c;
    var p := a / c;
    assert a == p * c;
    assert a * q == p * c * q;
    assert p * b == p * (q * c);
  }

  lemma NonNegativeQuotient(a: real, d: real)
    requires a >= 0.0 && d > 0.0
    ensures a / d >= 0.0
  {
  }
}
