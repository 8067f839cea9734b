/** Bits of natural numbers, and the exclusive or that the hash index uses. */
module Bits {
  import opened Arithmetic

  function Pow2(n: nat): (p: nat)
    ensures p > 0
  {
    if n == 0 then 1 else 2 * Pow2(n - 1)
  }

  /** Bit `i` of `x`. */
  function Bit(x: nat, i: nat): nat {
    Div(x, Pow2(i)) % 2
  }

  function Xor(a: nat, b: nat): nat
    decreases a
  {
    if a == 0 then b else (if a % 2 == b % 2 then 0 else 1) + 2 * Xor(a / 2, b / 2)
  }

  lemma XorHalf(a: nat, b: nat)
    ensures Xor(a, b) % 2 == (if a % 2 == b % 2 then 0 else 1) && Xor(a, b) / 2 == Xor(a / 2, b / 2)
  {
    if a == 0 {
      assert Xor(0, b / 2) == b / 2;
    } else {
      HalfOf(if a % 2 == b % 2 then 0 else 1, Xor(a / 2, b / 2));
    }
  }

  lemma HalfOf(low: nat, half: nat)
    requires low < 2
    ensures (low + 2 * half) / 2 == half && (low + 2 * half) % 2 == low
  {
  }

  /** Halving drops the lowest bit. */
  lemma BitNext(x: nat, i: nat)
    ensures Bit(x, i + 1) == Bit(x / 2, i)
  {
    var p := Pow2(i);
    var q, r := Recompose(x / 2, p);
    assert q * (2 * p) == 2 * (q * p);
    DivMod(x, q, 2 * r + x % 2, 2 * p);
  }

  lemma {:induction false} XorBit(a: nat, b: nat, i: nat)
    ensures Bit(Xor(a, b), i) == (Bit(a, i) + Bit(b, i)) % 2
  {
    if i == 0 {
      XorLowest(a, b);
    } else {
      BitNext(a, i - 1);
      BitNext(b, i - 1);
      BitNext(Xor(a, b), i - 1);
      assert Xor(a, b) / 2 == Xor(a / 2, b / 2) by { XorHalf(a, b); }
      XorBit(a / 2, b / 2, i - 1);
    }
  }

  lemma XorLowest(a: nat, b: nat)
    ensures Bit(Xor(a, b), 0) == (Bit(a, 0) + Bit(b, 0)) % 2
  {
    XorHalf(a, b);
  }

  lemma {:induction false} XorSwapped(a: nat, b: nat)
    ensures Xor(a, b) == Xor(b, a)
    decreases a + b
  {
    if a > 0 && b > 0 { XorSwapped(a / 2, b / 2); } else { XorZero(a + b); }
  }

  lemma {:induction false} XorZero(a: nat)
    ensures Xor(a, 0) == a
  {
    if a > 0 { XorZero(a / 2); }
  }

  /** Mixing in `b` twice changes nothing. */
  lemma {:induction false} XorTwice(a: nat, b: nat)
    ensures Xor(Xor(a, b), b) == a
    decreases a + b
  {
    if a + b > 0 {
      XorTwice(a / 2, b / 2);
      XorHalf(a, b);
      XorHalf(Xor(a, b), b);
    }
  }

  lemma {:induction false} XorBelow(a: nat, b: nat, n: nat)
    requires a < Pow2(n) && b < Pow2(n)
    ensures Xor(a, b) < Pow2(n)
  {
    if n > 0 {
      XorBelow(a / 2, b / 2, n - 1);
      XorHalf(a, b);
    }
  }

  /** The bits of `x` above the lowest `k`, and those of its lowest `n` bits. */
  lemma {:induction false} BitShifted(x: nat, k: nat, i: nat)
    ensures Bit(Div(x, Pow2(k)), i) == Bit(x, k + i)
    decreases k
  {
    if k > 0 {
      BitNext(x, k + i - 1);
      BitShifted(x / 2, k - 1, i);
      HalfTwice(x, k - 1);
    }
  }

  lemma HalfTwice(x: nat, k: nat)
    ensures Div(x, Pow2(k + 1)) == Div(x / 2, Pow2(k))
  {
    var p := Pow2(k);
    var q, r := Recompose(x / 2, p);
    assert q * (2 * p) == 2 * (q * p);
    DivMod(x, q, 2 * r + x % 2, 2 * p);
  }

  lemma {:induction false} BitLow(x: nat, n: nat, i: nat)
    requires i < n
    ensures Bit(x % Pow2(n), i) == Bit(x, i)
  {
    ModHalf(x, n - 1);
    if i > 0 {
      BitNext(x, i - 1);
      BitNext(x % Pow2(n), i - 1);
      BitLow(x / 2, n - 1, i - 1);
    }
  }

  lemma ModHalf(x: nat, n: nat)
    ensures x % Pow2(n + 1) / 2 == x / 2 % Pow2(n) && x % Pow2(n + 1) % 2 == x % 2
  {
    var p := Pow2(n);
    var q, r := Recompose(x / 2, p);
    assert q * (2 * p) == 2 * (q * p);
    DivMod(x, q, 2 * r + x % 2, 2 * p);
  }
}
