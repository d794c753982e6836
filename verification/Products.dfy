/** Products of reals behind a name, with the few facts the proofs need, one lemma each. */
module Products {

  function Prod(a: real, b: real): real {
    a * b
  }

  lemma ProdCommutes(a: real, b: real)
    ensures Prod(a, b) == Prod(b, a)
  {
  }

  lemma ProdUnits(a: real)
    ensures Prod(a, 0.0) == 0.0 && Prod(a, 1.0) == a
  {
  }

  lemma ProdAdds(a: real, x: real, y: real)
    ensures Prod(a, x + y) == Prod(a, x) + Prod(a, y)
    ensures Prod(a, x - y) == Prod(a, x) - Prod(a, y)
  {
  }

  lemma ProdPositive(a: real, b: real)
    requires a > 0.0
    ensures Prod(a, b) > 0.0 <==> b > 0.0
    ensures Prod(a, b) >= 0.0 <==> b >= 0.0
  {
  }

  /** Scaling by a positive factor keeps the order. */
  lemma ProdGrows(w: real, x: real, y: real)
    requires w > 0.0
    ensures Prod(w, x) <= Prod(w, y) <==> x <= y
    ensures Prod(w, x) < Prod(w, y) <==> x < y
  {
    ProdAdds(w, y, x);
    ProdPositive(w, y - x);
    ProdPositive(w, x - y);
    ProdAdds(w, x, y);
  }

  lemma ProdMonotone(a: real, b: real, x: real)
    requires a <= b && x >= 0.0
    ensures Prod(a, x) <= Prod(b, x)
  {
    ProdCommutes(a, x);
    ProdCommutes(b, x);
    if x > 0.0 {
      ProdGrows(x, a, b);
    }
  }

  lemma ProdQuotient(a: real, x: real)
    requires a > 0.0
    ensures Prod(a, x / a) == x
    ensures x >= 0.0 <==> x / a >= 0.0
    ensures x > 0.0 <==> x / a > 0.0
  {
    ProdPositive(a, x / a);
  }

  lemma QuotientCompare(x: real, a: real, q: real)
    requires a > 0.0
    ensures x / a <= q <==> x <= Prod(a, q)
  {
    ProdQuotient(a, x);
    ProdGrows(a, x / a, q);
  }

  lemma SquaresCompare(x: real, y: real)
    requires x >= 0.0 && y > 0.0
    ensures x <= y <==> Prod(x, x) <= Prod(y, y)
  {
    ProdCommutes(x, y);
    ProdGrows(y, x, y);
    if x > 0.0 {
      ProdGrows(x, x, y);
    } else {
      ProdPositive(y, y);
    }
  }
}
