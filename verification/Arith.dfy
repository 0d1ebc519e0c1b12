/** Row-by-row addressing: facts about a * w + b with b below w. */
module Arith {
  lemma MulAtLeast(d: int, w: nat)
    requires d >= 1
    ensures d * w >= w
  {
  }

  /** Quotient and remainder are unique. */
  lemma QuotientUnique(q: int, m: nat, a: int, b: nat, w: nat)
    requires m < w && b < w && q * w + m == a * w + b
    ensures q == a && m == b
  {
    var d := q - a;
    assert d * w == q * w - a * w;
    if d >= 1 {
      MulAtLeast(d, w);
    } else if d <= -1 {
      MulAtLeast(-d, w);
    }
  }

  lemma DivModLaw(p: nat, w: nat)
    requires 0 < w
    ensures (p / w) * w + p % w == p && p % w < w && p / w >= 0
  {
  }

  lemma DivModOf(a: nat, w: nat, b: nat)
    requires b < w
    ensures (a * w + b) / w == a && (a * w + b) % w == b
  {
    var p := a * w + b;
    DivModLaw(p, w);
    QuotientUnique(p / w, p % w, a, b, w);
  }

  /** a * w + b addresses h rows of w exactly when a is below h. */
  lemma AreaBound(a: nat, b: nat, w: nat, h: nat)
    requires b < w
    ensures a < h ==> a * w + b < w * h
    ensures a >= h ==> a * w + b >= w * h
  {
    if a < h {
      MulAtLeast(h - a, w);
      assert (h - a) * w == w * h - a * w;
    } else {
      assert (a - h) * w == a * w - w * h && (a - h) * w >= 0;
    }
  }
}
