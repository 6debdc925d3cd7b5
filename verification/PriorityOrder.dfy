/** The order in which a node's kids are served when their weights differ. */
module PriorityOrder {
  import opened Frames

  /** Weights are 1 to 256, stored less one in a byte; adding the one back wraps around. */
  function Wrapped(weight: byte): int {
    (weight + 1) % 256
  }

  /** The comparison of the sort. A quotient by zero is infinite, or not a number. */
  predicate Less(wi: byte, bi: int, wk: byte, bk: int) {
    if bi == 0 && bk == 0 then Wrapped(wi) >= Wrapped(wk)
    else if bk == 0 then false
    else if Wrapped(wk) == 0 then Wrapped(wi) > 0
    else bi as real / bk as real <= Wrapped(wi) as real / Wrapped(wk) as real
  }

  /** What it is for: no more bytes per unit of weight; of those that have sent nothing,
      the heavier first. (RFC 7540, section 5.3.2) */
  predicate Ahead(wi: byte, bi: int, wk: byte, bk: int) {
    if bi == 0 && bk == 0 then wi >= wk else bi * (wk + 1) <= bk * (wi + 1)
  }

  lemma QuotientsCross(a: real, b: real, c: real, d: real)
    requires b > 0.0 && d > 0.0
    ensures a / b <= c / d <==> a * d <= c * b
  {
    var x, y := a / b, c / d;
    assert x * b == a && y * d == c;
    assert (y - x) * (b * d) == c * b - a * d;
  }

  lemma Product(a: int, b: int)
    ensures (a * b) as real == a as real * b as real
  {
  }

  lemma RatiosCross(a: int, b: int, c: int, d: int)
    requires b > 0 && d > 0
    ensures a as real / b as real <= c as real / d as real <==> a * d <= c * b
  {
    QuotientsCross(a as real, b as real, c as real, d as real);
    Product(a, d);
    Product(c, b);
  }

  /** The comparison does what it is for unless a weight is the largest, which wraps to zero. */
  lemma LessMeans(wi: byte, bi: nat, wk: byte, bk: nat)
    requires wi < 255 && wk < 255
    ensures Less(wi, bi, wk, bk) <==> Ahead(wi, bi, wk, bk)
  {
    if bk > 0 {
      RatiosCross(bi, bk, wi + 1, wk + 1);
      assert (wi + 1) * bk == bk * (wi + 1);
    } else if bi > 0 {
      assert bi * (wk + 1) > 0;
    }
  }

  /** Exactly then: with the largest weight on either side, some counts are compared wrongly. */
  lemma LessExactly(wi: byte, wk: byte)
    ensures (forall bi: nat, bk: nat :: Less(wi, bi, wk, bk) <==> Ahead(wi, bi, wk, bk)) <==> wi < 255 && wk < 255
  {
    if wi < 255 && wk < 255 {
      forall bi: nat, bk: nat ensures Less(wi, bi, wk, bk) <==> Ahead(wi, bi, wk, bk) {
        LessMeans(wi, bi, wk, bk);
      }
    } else if wi == 255 {
      assert !Less(wi, 1, wk, 1) && Ahead(wi, 1, wk, 1);
    } else {
      assert Less(wi, 1000, wk, 1) && !Ahead(wi, 1000, wk, 1);
    }
  }

  lemma AheadTotal(wi: byte, bi: nat, wk: byte, bk: nat)
    ensures Ahead(wi, bi, wk, bk) || Ahead(wk, bk, wi, bi)
  {
  }

  lemma AheadTrans(wi: byte, bi: nat, wk: byte, bk: nat, wm: byte, bm: nat)
    requires Ahead(wi, bi, wk, bk) && Ahead(wk, bk, wm, bm)
    ensures Ahead(wi, bi, wm, bm)
  {
    var x, y, z := wi + 1, wk + 1, wm + 1;
    if bi == 0 && bk == 0 && bm == 0 {
      return;
    }
    assert bi * y <= bk * x && bk * z <= bm * y;
    Chain(bi, bk, bm, x, y, z);
  }

  lemma Chain(a: nat, b: nat, c: nat, x: nat, y: nat, z: nat)
    requires x > 0 && y > 0 && z > 0 && a * y <= b * x && b * z <= c * y
    ensures a * z <= c * x
  {
    assert a * y * z <= b * x * z by { Scale(a * y, b * x, z); }
    assert b * z * x <= c * y * x by { Scale(b * z, c * y, x); }
    assert (a * z) * y <= (c * x) * y;
    if a * z > c * x {
      Scale(c * x + 1, a * z, y);
    }
  }

  lemma Scale(a: int, b: int, k: nat)
    requires a <= b
    ensures a * k <= b * k
  {
  }
}
