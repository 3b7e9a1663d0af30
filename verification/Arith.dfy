/** Products, quotients and alignment. */
module Arith {
  lemma MulUpTo(a: nat, b: nat, c: nat)
    requires b <= c
    ensures a * b <= a * c
  {
  }

  lemma DivMul(a: nat, b: nat)
    requires a > 0
    ensures a * b / a == b
  {
    var q := a * b / a;
    assert a * b == a * q + a * b % a;
    assert a * (q + 1) == a * q + a;
    assert a * (b + 1) == a * b + a;
    if q < b {
      MulUpTo(a, q + 1, b);
    } else if q > b {
      MulUpTo(a, b + 1, q);
    }
  }

  function AlignStart(x: nat, align: nat): nat
    requires align > 0
  {
    align * (x / align)
  }

  function AlignEnd(x: nat, align: nat): nat
    requires align > 0
  {
    AlignStart(x + align - 1, align)
  }

  predicate Aligned(x: nat, align: nat)
    requires align > 0
  {
    AlignStart(x, align) == x
  }

  lemma AlignFacts(x: nat, align: nat)
    requires align > 0
    ensures AlignStart(x, align) <= x < AlignStart(x, align) + align
    ensures x <= AlignEnd(x, align) < x + align
    ensures Aligned(AlignStart(x, align), align) && Aligned(AlignEnd(x, align), align)
  {
    var y := x + align - 1;
    assert x == align * (x / align) + x % align;
    assert y == align * (y / align) + y % align;
    DivMul(align, x / align);
    DivMul(align, y / align);
  }

  /** A multiple of a multiple. */
  lemma AlignedTwice(x: nat, page: nat, unit: nat)
    requires unit > 0 && page > 0 && Aligned(page, unit) && Aligned(x, page)
    ensures Aligned(x, unit)
  {
    var k, q := page / unit, x / page;
    assert x == unit * (k * q) by {
      assert x == page * q && page == unit * k;
      assert unit * k * q == unit * (k * q);
    }
    DivMul(unit, k * q);
  }

  lemma MultiplesAreApart(p: nat, q: nat, align: nat)
    requires align > 0 && align * p < align * q + align
    ensures align * p <= align * q
  {
    assert align * (q + 1) == align * q + align;
    if p <= q {
      MulUpTo(align, p, q);
    } else {
      MulUpTo(align, q + 1, p);
    }
  }

  /** The least multiple that is not below x. */
  lemma AlignEndIsLeast(x: nat, y: nat, align: nat)
    requires align > 0 && Aligned(y, align) && x <= y
    ensures AlignEnd(x, align) <= y
  {
    AlignFacts(x, align);
    hide AlignEnd;
    MultiplesAreApart(AlignEnd(x, align) / align, y / align, align);
  }

  lemma MulAtLeast(k: int, b: int)
    requires k >= 1 && b > 0
    ensures k * b >= b
  {
  }

  lemma QuotientIs(a: int, b: int, q: int, r: int)
    requires b > 0 && a == q * b + r && 0 <= r < b
    ensures a / b == q && a % b == r
  {
    var p := a / b;
    assert a == p * b + a % b;
    assert (q - p) * b == q * b - p * b;
    assert (p - q) * b == p * b - q * b;
    if q > p {
      MulAtLeast(q - p, b);
    } else if q < p {
      MulAtLeast(p - q, b);
    }
  }
}
