/** Division of natural numbers by a variable, with the facts about it that the solver
    does not find by itself. */
module Division {

  lemma DivMod(x: int, m: int)
    requires m > 0
    ensures x == m * (x / m) + x % m && 0 <= x % m < m
  {
  }

  lemma MulSign(m: int, q: int)
    requires m > 0
    ensures if q < 0 then m * q <= -m else if q > 0 then m * q >= m else m * q == 0
  {
  }

  /** Quotient and remainder are the only ones. */
  lemma DivUnique(x: int, m: int, q: int, r: int)
    requires m > 0 && x == m * q + r && 0 <= r < m
    ensures x / m == q && x % m == r
  {
    DivMod(x, m);
    assert m * (x / m - q) == r - x % m;
    MulSign(m, x / m - q);
  }

  /** `x / m` on natural numbers. */
  function Div(x: nat, m: nat): (q: nat)
    requires m > 0
    ensures m * q <= x < m * q + m
  {
    DivMod(x, m);
    MulSign(m, x / m);
    x / m
  }

  /** Numbers at least `m` apart have different quotients. */
  lemma DivApart(x: nat, y: nat, m: nat)
    requires m > 0 && x + m <= y
    ensures Div(x, m) < Div(y, m)
  {
    var d := Div(y, m) - Div(x, m);
    assert m * d == m * Div(y, m) - m * Div(x, m);
    MulSign(m, d);
  }

  /** `x % m` on natural numbers. */
  function Mod(x: nat, m: nat): (r: nat)
    requires m > 0
    ensures r < m && x == m * Div(x, m) + r
  {
    DivMod(x, m);
    x % m
  }

  lemma ModIs(x: nat, m: nat, q: nat, r: nat)
    requires m > 0 && x == m * q + r && r < m
    ensures Mod(x, m) == r && Div(x, m) == q
  {
    DivUnique(x, m, q, r);
  }

  lemma ModBelow(x: nat, w: nat)
    requires w > 0
    ensures if x < w then x % w == x else x % w + w <= x
  {
    if x < w { DivUnique(x, w, 0, x); } else { DivMod(x, w); MulSign(w, x / w); }
  }

  lemma MulGrows(a: nat, m: nat)
    requires m > 0
    ensures a <= a * m
  {
  }

  lemma MulMonotone(k: nat, n: nat, m: nat)
    requires k <= n
    ensures k * m <= n * m
  {
  }
}
