/** Division and remainder facts the layout of an area rests on. */
module Arithmetic {

  lemma DivBounds(a: nat, b: nat)
    requires b > 0
    ensures (a / b) * b <= a < (a / b + 1) * b
  {
  }

  lemma MulMonotone(i: nat, j: nat, s: nat)
    requires i <= j
    ensures i * s <= j * s
  {
  }

  lemma OneMore(i: nat, s: nat)
    ensures (i + 1) * s == i * s + s
  {
  }

  lemma DivMod(a: nat, b: nat)
    requires b > 0
    ensures a == (a / b) * b + a % b && 0 <= a % b < b
  {
  }

  // k lies below the q-th multiple of w exactly when its quotient lies below q.
  lemma QuotientBelow(k: nat, w: nat, q: nat)
    requires w > 0
    ensures k / w < q <==> k < q * w
  {
    DivBounds(k, w);
    if k / w < q {
      MulMonotone(k / w + 1, q, w);
    } else {
      MulMonotone(q, k / w, w);
    }
  }

  lemma SumOfProducts(a: nat, b: nat, w: nat)
    ensures (a + b) * w == a * w + b * w
  {
  }

  lemma DivUnique(a: nat, b: nat, q: nat)
    requires b > 0
    requires q * b <= a < (q + 1) * b
    ensures a / b == q
  {
    DivBounds(a, b);
    if a / b < q {
      MulMonotone(a / b + 1, q, b);
    } else if a / b > q {
      MulMonotone(q + 1, a / b, b);
    }
  }

  lemma ModMul(k: nat, a: nat, w: nat)
    requires w > 0 && a % w == 0
    ensures (k * a) % w == 0
  {
    var q := a / w;
    assert a == q * w;
    assert k * a == (k * q) * w;
    MulMod(k * q, w);
  }

  lemma MulMod(q: nat, w: nat)
    requires w > 0
    ensures (q * w) % w == 0
  {
    DivUnique(q * w, w, q);
  }

  lemma ModAdd(a: int, b: int, w: nat)
    requires w > 0 && a % w == 0
    ensures (a + b) % w == b % w
  {
    var q := a / w;
    assert a + b == b + q * w;
    assert b == (b / w) * w + b % w;
    ModUnique(a + b, w, q + b / w, b % w);
  }

  lemma ModUnique(a: int, w: nat, q: int, r: nat)
    requires w > 0 && r < w && a == q * w + r
    ensures a % w == r && a / w == q
  {
    var p, t := a / w, a % w;
    QuotientUnique(w, p, t, q, r);
  }

  lemma QuotientUnique(w: nat, p: int, t: nat, q: int, r: nat)
    requires t < w && r < w
    requires p * w + t == q * w + r
    ensures p == q && t == r
  {
    assert (p - q) * w == p * w - q * w == r - t;
    assert (q - p) * w == q * w - p * w == t - r;
    if p > q {
      MulMonotone(1, p - q, w);
    } else if p < q {
      MulMonotone(1, q - p, w);
    }
  }
}
