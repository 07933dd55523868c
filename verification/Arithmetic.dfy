/**
  Products and quotients of unknowns, by name: the proofs need only a few laws of them.
 */
module Arithmetic {
  function Times(a: nat, b: nat): nat { a * b }

  function Quotient(n: nat, d: nat): nat
    requires 0 < d
  {
    n / d
  }

  function Remainder(n: nat, d: nat): (r: nat)
    requires 0 < d
    ensures r < d
  {
    n % d
  }

  lemma TimesMonotone(a: nat, b: nat, c: nat)
    requires a < b
    ensures Times(a, c) + c <= Times(b, c)
  {
    assert a * c + c == (a + 1) * c;
    assert (a + 1) * c <= b * c;
  }

  lemma DivMod(q: nat, r: nat, d: nat)
    requires r < d
    ensures Quotient(Times(q, d) + r, d) == q && Remainder(Times(q, d) + r, d) == r
  {
    var n := Times(q, d) + r;
    Split(n, d);
    if Quotient(n, d) < q {
      TimesMonotone(Quotient(n, d), q, d);
    } else if q < Quotient(n, d) {
      TimesMonotone(q, Quotient(n, d), d);
    }
  }

  lemma Split(n: nat, d: nat)
    requires 0 < d
    ensures n == Times(Quotient(n, d), d) + Remainder(n, d)
  {
  }
}
