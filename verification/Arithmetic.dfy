/** Division facts for a divisor that is not a literal. */
module Arithmetic {

  lemma QuotientIsUnique(x: int, w: int, q: int, r: int)
    requires 0 < w && 0 <= r < w && x == q * w + r
    ensures x / w == q && x % w == r
  {
    var d := x / w - q;
    assert d * w == r - x % w;
    assert d > 0 ==> d * w >= w;
    assert d < 0 ==> d * w <= -w;
  }

  lemma AddMultiple(x: int, w: int, k: int)
    requires 0 < w
    ensures (x + k * w) / w == x / w + k && (x + k * w) % w == x % w
  {
    assert (x / w + k) * w == x / w * w + k * w;
    QuotientIsUnique(x + k * w, w, x / w + k, x % w);
  }

  lemma MultipleIsDivisible(w: int, k: int)
    requires 0 < w
    ensures (k * w) % w == 0 && (k * w) / w == k
  {
    QuotientIsUnique(k * w, w, k, 0);
  }

  lemma SumOfMultiples(x: int, y: int, w: int)
    requires 0 < w && x % w == 0
    ensures (x + y) % w == y % w && (x + y) / w == x / w + y / w
  {
    AddMultiple(y, w, x / w);
  }

  lemma SmallQuotient(x: int, w: int)
    requires 0 <= x < w
    ensures x / w == 0 && x % w == x
  {
    QuotientIsUnique(x, w, 0, x);
  }

  lemma QuotientIsMonotone(x: int, y: int, w: int)
    requires 0 < w && x <= y
    ensures x / w <= y / w
  {
    var d := x / w - y / w;
    assert d * w == x - x % w - (y - y % w);
    assert d > 0 ==> d * w >= w;
  }

  lemma QuotientBound(x: int, w: int, k: int)
    requires 0 < w
    ensures x / w < k <==> x < k * w
  {
    if x < k * w {
      QuotientIsMonotone(x, k * w - 1, w);
      QuotientIsUnique(k * w - 1, w, k - 1, w - 1);
    } else {
      QuotientIsMonotone(k * w, x, w);
      MultipleIsDivisible(w, k);
    }
  }

  function Min(x: int, y: int): int { if x <= y then x else y }
}
