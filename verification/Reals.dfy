/** Squares, products and square roots of exact reals. */
module Reals {
  function Sq(x: real): real {
    x * x
  }

  /** `f` is the square root. */
  ghost predicate IsSqrt(f: real -> real) {
    forall v | v >= 0.0 :: f(v) >= 0.0 && Sq(f(v)) == v
  }

  function Prod(x: real, y: real): real {
    x * y
  }

  lemma ProdPos(x: real, y: real)
    requires (x > 0.0 && y > 0.0) || (x < 0.0 && y < 0.0)
    ensures Prod(x, y) > 0.0
  {
  }

  lemma Factor(a: real, b: real, c: real, w: real)
    requires a + b == w
    ensures Prod(a, c) + Prod(b, c) == Prod(w, c)
  {
    assert a * c + b * c == w * c;
  }

  lemma SqIsProd(x: real)
    ensures Sq(x) == Prod(x, x)
  {
  }

  lemma SqPos(x: real)
    ensures x != 0.0 ==> Sq(x) > 0.0
    ensures x == 0.0 ==> Sq(x) == 0.0
  {
    hide Sq, Prod;
    SqIsProd(x);
    if x == 0.0 { SqZero(); } else { ProdPos(x, x); }
  }

  lemma SqZero()
    ensures Sq(0.0) == 0.0
  {
  }

  lemma SqScaled(u: real, m: real)
    ensures Sq(u * m) == Prod(Sq(u), Sq(m))
  {
    assert (u * m) * (u * m) == (u * u) * (m * m);
  }

  lemma SqDifference(r: real, v: real)
    ensures Prod(v - r, v + r) == Sq(v) - Sq(r)
  {
  }

  lemma SqGrows(r: real, v: real)
    requires 0.0 <= r < v
    ensures Sq(r) < Sq(v)
  {
    hide Sq, Prod;
    ProdPos(v - r, v + r);
    SqDifference(r, v);
  }

  lemma One(w: real, d: real)
    requires d > 0.0 && Prod(w, d) == d
    ensures w == 1.0
  {
    hide Prod;
    ProdOne(d);
    if w > 1.0 {
      ProdPos(w - 1.0, d);
      Factor(w - 1.0, 1.0, d, w);
    } else if w < 1.0 {
      ProdPos(1.0 - w, d);
      Factor(1.0 - w, w, d, 1.0);
    }
  }

  lemma ProdOne(d: real)
    ensures Prod(1.0, d) == d
  {
  }

  /** Dividing a vector by its length gives length one. */
  lemma UnitVector(dx: real, dy: real, d: real)
    requires d > 0.0 && Sq(d) == Sq(dx) + Sq(dy)
    ensures Sq(dx / d) + Sq(dy / d) == 1.0
  {
    hide Sq, Prod;
    var u, v := dx / d, dy / d;
    assert u * d == dx && v * d == dy;
    SqScaled(u, d);
    SqScaled(v, d);
    assert Sq(u * d) == Sq(dx) && Sq(v * d) == Sq(dy);
    SqPos(d);
    Factor(Sq(u), Sq(v), Sq(d), Sq(u) + Sq(v));
    One(Sq(u) + Sq(v), Sq(d));
  }

  lemma RootUnique(sqrt: real -> real, v: real)
    requires IsSqrt(sqrt) && v >= 0.0
    ensures sqrt(Sq(v)) == v
  {
    hide Sq;
    SqPos(v);
    var r := sqrt(Sq(v));
    if r < v { SqGrows(r, v); }
    if v < r { SqGrows(v, r); }
  }

  /** Stretching a unit vector gives the length it is stretched to. */
  lemma Stretched(sqrt: real -> real, u: real, v: real, m: real)
    requires IsSqrt(sqrt) && m >= 0.0 && Sq(u) + Sq(v) == 1.0
    ensures sqrt(Sq(u * m) + Sq(v * m)) == m
  {
    hide Sq, Prod;
    SqScaled(u, m);
    SqScaled(v, m);
    Factor(Sq(u), Sq(v), Sq(m), 1.0);
    ProdOne(Sq(m));
    RootUnique(sqrt, m);
  }

  lemma StretchedBy(dx: real, d: real, m: real)
    requires d > 0.0
    ensures dx + 2.0 * ((dx / d) * ((m - d) / 2.0)) == (dx / d) * m
  {
    var u := dx / d;
    assert u * d == dx;
    assert u * ((m - d) / 2.0) == (u * m - u * d) / 2.0;
  }
}
