/** Division and multiplication facts the solver needs spelled out. */
module Arithmetic {

  function Div(a: nat, b: nat): nat
    requires b > 0
  {
    a / b
  }

  lemma MulLess(x: nat, y: nat, z: nat)
    requires x < y && 0 < z
    ensures x * z < y * z
  {
    assert y * z - x * z == (y - x) * z;
  }

  lemma MulAtMost(x: nat, y: nat, z: nat)
    requires x <= y
    ensures x * z <= y * z
  {
    assert y * z - x * z == (y - x) * z;
  }

  lemma DivBelow(a: nat, b: nat)
    requires b > 0
    ensures Div(a, b) * b <= a < (Div(a, b) + 1) * b
  {
  }

  lemma DivMod(n: nat, q: nat, p: nat, m: nat)
    requires n == q * m + p && p < m
    ensures Div(n, m) == q && n % m == p
  {
    DivBelow(n, m);
    if q < Div(n, m) { MulAtMost(q + 1, Div(n, m), m); }
    if Div(n, m) < q { MulAtMost(Div(n, m) + 1, q, m); }
  }

  lemma Recompose(n: nat, m: nat) returns (q: nat, p: nat)
    requires 0 < m
    ensures q == Div(n, m) && p == n % m < m && n == q * m + p
  {
    q, p := Div(n, m), n % m;
  }

  lemma AddMultiple(a: nat, b: nat, d: nat)
    requires d > 0 && a % d == 0 && b % d == 0
    ensures (a + b) % d == 0
  {
    assert a + b == (a / d + b / d) * d;
    MultipleOf(a / d + b / d, d);
  }

  lemma MultipleOf(k: nat, d: nat)
    requires d > 0
    ensures k * d % d == 0
  {
    DivBelow(k * d, d);
    if Div(k * d, d) < k { MulAtMost(Div(k * d, d) + 1, k, d); }
    if k < Div(k * d, d) { MulAtMost(k + 1, Div(k * d, d), d); }
  }

  lemma OffsetOf(block: nat, off: nat, size: nat)
    requires off < size && block % size == 0
    ensures (block + off) % size == off
  {
    DivMod(block + off, block / size, off, size);
  }

  lemma MulNext(k: nat, m: nat)
    ensures (k + 1) * m == k * m + m
  {
  }

  lemma MulMultiple(k: nat, a: nat, d: nat)
    requires d > 0 && a % d == 0
    ensures k * a % d == 0
  {
    assert k * a == k * (a / d) * d;
    MultipleOf(k * (a / d), d);
  }
}
