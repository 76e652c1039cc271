/**
  The natural logarithm, as far as linear counting needs it: any function that
  turns products into sums and lies between the two tangent bounds.
 */
module Logarithm {

  ghost predicate LogProduct(ln: real -> real, x: real, y: real)
    requires x > 0.0 && y > 0.0
  {
    ln(x * y) == ln(x) + ln(y)
  }

  ghost predicate LogBounds(ln: real -> real, x: real)
    requires x > 0.0
  {
    1.0 - 1.0 / x <= ln(x) <= x - 1.0
  }

  /** Turns products into sums and touches x - 1 at one: only the natural logarithm does. */
  ghost predicate IsLn(ln: real -> real)
  {
    && (forall x: real, y: real | x > 0.0 && y > 0.0 :: LogProduct(ln, x, y))
    && (forall x: real | x > 0.0 :: LogBounds(ln, x))
  }

  lemma QuotientAtLeastOne(x: real, y: real) returns (q: real)
    requires 0.0 < x <= y
    ensures q >= 1.0 && x * q == y && 1.0 - 1.0 / q >= 0.0
  {
    q := y / x;
  }

  lemma LnMonotone(ln: real -> real, x: real, y: real)
    requires IsLn(ln) && 0.0 < x <= y
    ensures ln(x) <= ln(y)
  {
    var q := QuotientAtLeastOne(x, y);
    assert LogProduct(ln, x, q) && LogBounds(ln, q);
  }

  lemma LnAtMostTwice(ln: real -> real, r: real, s: real)
    requires IsLn(ln) && r > 0.0 && 0.0 < s <= r * r
    ensures ln(s) <= 2.0 * ln(r)
  {
    assert LogProduct(ln, r, r);
    LnMonotone(ln, s, r * r);
  }

  lemma QuotientAtLeast(r: real, s: real) returns (q: real)
    requires r > 0.0 && r * r <= s
    ensures q >= r && r * q == s
  {
    q := s / r;
  }

  lemma LnAtLeastTwice(ln: real -> real, r: real, s: real)
    requires IsLn(ln) && r > 0.0 && r * r <= s
    ensures ln(s) >= 2.0 * ln(r)
  {
    var q := QuotientAtLeast(r, s);
    assert LogProduct(ln, r, q);
    LnMonotone(ln, r, q);
  }

  /** By sixteen squarings of a number just above one. */
  lemma LnUpTo(ln: real -> real, x: real)
    requires IsLn(ln) && 0.0 < x <= 16384.0 / 1345.0
    ensures ln(x) <= 2.5
  {
    assert LogBounds(ln, 1.0000381469);
    LnAtMostTwice(ln, 1.0000381469, 1.000076295); LnAtMostTwice(ln, 1.000076295, 1.000152595);
    LnAtMostTwice(ln, 1.000152595, 1.000305213); LnAtMostTwice(ln, 1.000305213, 1.000610519);
    LnAtMostTwice(ln, 1.000610519, 1.00122141); LnAtMostTwice(ln, 1.00122141, 1.002444311);
    LnAtMostTwice(ln, 1.002444311, 1.004894596); LnAtMostTwice(ln, 1.004894596, 1.009813149);
    LnAtMostTwice(ln, 1.009813149, 1.019722595); LnAtMostTwice(ln, 1.019722595, 1.03983417);
    LnAtMostTwice(ln, 1.03983417, 1.081255101); LnAtMostTwice(ln, 1.081255101, 1.169112593);
    LnAtMostTwice(ln, 1.169112593, 1.366824255); LnAtMostTwice(ln, 1.366824255, 1.868208544);
    LnAtMostTwice(ln, 1.868208544, 3.490203163); LnAtMostTwice(ln, 3.490203163, 12.181518119);
    LnMonotone(ln, x, 12.181518119);
  }

  /** By fourteen squarings. */
  lemma LnFrom(ln: real -> real, x: real)
    requires IsLn(ln) && x >= 16384.0 / 1344.0
    ensures 16384.0 * ln(x) >= 40965.0
  {
    assert LogBounds(ln, 1.00015263);
    LnAtLeastTwice(ln, 1.00015263, 1.00030529); LnAtLeastTwice(ln, 1.00030529, 1.00061068);
    LnAtLeastTwice(ln, 1.00061068, 1.00122174); LnAtLeastTwice(ln, 1.00122174, 1.00244498);
    LnAtLeastTwice(ln, 1.00244498, 1.00489594); LnAtLeastTwice(ln, 1.00489594, 1.00981586);
    LnAtLeastTwice(ln, 1.00981586, 1.01972808); LnAtLeastTwice(ln, 1.01972808, 1.03984536);
    LnAtLeastTwice(ln, 1.03984536, 1.08127838); LnAtLeastTwice(ln, 1.08127838, 1.16916294);
    LnAtLeastTwice(ln, 1.16916294, 1.36694199); LnAtLeastTwice(ln, 1.36694199, 1.86853041);
    LnAtLeastTwice(ln, 1.86853041, 3.4914059); LnAtLeastTwice(ln, 3.4914059, 12.18991516);
    LnMonotone(ln, 12.18991516, x);
  }

  lemma LnOf16384(ln: real -> real)
    requires IsLn(ln)
    ensures ln(16384.0) >= 7.0
  {
    assert LogBounds(ln, 2.0);
    LnAtLeastTwice(ln, 2.0, 4.0);
    LnAtLeastTwice(ln, 4.0, 16.0);
    assert LogProduct(ln, 4.0, 2.0) && LogProduct(ln, 8.0, 16.0);
    LnAtLeastTwice(ln, 128.0, 16384.0);
  }
}
