/** Bitwise operations on natural numbers. */
module Bits {

  /** Bitwise exclusive or. */
  function Xor(x: nat, y: nat): nat
    decreases x + y
  {
    if x == 0 && y == 0 then 0 else 2 * Xor(x / 2, y / 2) + (if x % 2 == y % 2 then 0 else 1)
  }

  /** Bitwise or. */
  function Or(x: nat, y: nat): nat
    decreases x + y
  {
    if x == 0 && y == 0 then 0 else 2 * Or(x / 2, y / 2) + (if x % 2 == 1 || y % 2 == 1 then 1 else 0)
  }

  lemma {:induction false} XorZero(x: nat, y: nat)
    ensures Xor(x, y) == 0 <==> x == y
    decreases x + y
  {
    if x != 0 || y != 0 { XorZero(x / 2, y / 2); }
  }

  lemma {:induction false} OrZero(x: nat, y: nat)
    ensures Or(x, y) == 0 <==> x == 0 && y == 0
    decreases x + y
  {
    if x != 0 || y != 0 { OrZero(x / 2, y / 2); }
  }

  function Pow2(k: nat): nat
  {
    if k == 0 then 1 else 2 * Pow2(k - 1)
  }

  lemma {:induction false} OrLeftZero(y: nat)
    ensures Or(0, y) == y
    decreases y
  {
    if y != 0 { OrLeftZero(y / 2); }
  }

  /** Or-ing in a value shifted past the bits already set adds it. */
  lemma {:induction false} OrShifted(x: nat, q: nat, k: nat)
    requires x < Pow2(k)
    ensures Or(x, Pow2(k) * q) == x + Pow2(k) * q
    decreases k
  {
    if k == 0 {
      OrLeftZero(q);
    } else {
      var half := Pow2(k - 1) * q;
      TwiceTimes(Pow2(k - 1), q);
      OrShifted(x / 2, q, k - 1);
      OrDoubled(x, half);
    }
  }

  lemma TwiceTimes(p: nat, q: nat)
    ensures 2 * p * q == 2 * (p * q)
  {
  }

  /** Or-ing in an even number leaves the last bit. */
  lemma OrDoubled(x: nat, half: nat)
    ensures Or(x, 2 * half) == 2 * Or(x / 2, half) + x % 2
  {
    assert 2 * half / 2 == half && 2 * half % 2 == 0;
  }
}
