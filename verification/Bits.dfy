/** The operations on words, bit by bit. */
module Bits {
  import opened Words

  function Bit(a: nat, k: nat): nat {
    a / Pow2(k) % 2
  }

  /** Halving moves every bit down by one. */
  lemma BitHalf(a: nat, k: nat)
    ensures Bit(a, k + 1) == Bit(a / 2, k) && Bit(a, 0) == a % 2
  {
    HalfTwice(a, Pow2(k));
  }

  lemma HalfTwice(a: nat, q: nat)
    requires q > 0
    ensures a / (2 * q) == (a / 2) / q
  {
    var h := a / 2;
    var r := h % q;
    assert h == q * (h / q) + r;
    assert a == (2 * q) * (h / q) + (2 * r + a % 2);
    RemainderUnique(a, 2 * q, h / q, 2 * r + a % 2);
  }

  lemma Glued(b: nat, r: nat, k: nat)
    requires b < 2
    ensures Bit(b + 2 * r, 0) == b && Bit(b + 2 * r, k + 1) == Bit(r, k)
  {
    BitHalf(b + 2 * r, k);
    assert (b + 2 * r) / 2 == r;
  }

  lemma HalfBelow(n: nat, a: nat)
    requires n > 0 && a < Pow2(n)
    ensures a / 2 < Pow2(n - 1)
  {
  }

  lemma {:induction false} AndOrBits(n: nat, a: nat, b: nat, k: nat)
    requires a < Pow2(n) && b < Pow2(n) && k < n
    ensures Bit(AndBits(n, a, b), k) == if Bit(a, k) == 1 && Bit(b, k) == 1 then 1 else 0
    ensures Bit(OrBits(n, a, b), k) == if Bit(a, k) == 1 || Bit(b, k) == 1 then 1 else 0
    decreases n
  {
    hide Bit, Pow2;
    HalfBelow(n, a);
    HalfBelow(n, b);
    var x, y := AndBits(n - 1, a / 2, b / 2), OrBits(n - 1, a / 2, b / 2);
    var both, either := if a % 2 == 1 && b % 2 == 1 then 1 else 0, if a % 2 + b % 2 > 0 then 1 else 0;
    if k == 0 {
      Glued(both, x, 0);
      Glued(either, y, 0);
      BitHalf(a, 0);
      BitHalf(b, 0);
    } else {
      Glued(both, x, k - 1);
      Glued(either, y, k - 1);
      BitHalf(a, k - 1);
      BitHalf(b, k - 1);
      AndOrBits(n - 1, a / 2, b / 2, k - 1);
    }
  }

  /** `&` and `|` on every bit. */
  lemma AndOrWord(a: Word, b: Word, k: nat)
    requires k < 32
    ensures Bit(And(a, b), k) == if Bit(a, k) == 1 && Bit(b, k) == 1 then 1 else 0
    ensures Bit(Or(a, b), k) == if Bit(a, k) == 1 || Bit(b, k) == 1 then 1 else 0
  {
    hide Bit;
    Pow2Of32();
    AndOrBits(32, a, b, k);
  }

  function Down(a: nat, n: nat): nat {
    ShrBound(a, Pow2(n));
    a / Pow2(n)
  }

  lemma {:induction false} ShiftedDown(a: nat, n: nat, k: nat)
    ensures Bit(Down(a, n), k) == Bit(a, k + n)
    decreases n
  {
    hide Bit;
    if n > 0 {
      HalfTwice(a, Pow2(n - 1));
      ShiftedDown(a / 2, n - 1, k);
      BitHalf(a, k + n - 1);
    }
  }

  lemma {:induction false} ShiftedUp(a: nat, n: nat, k: nat)
    ensures Bit(a * Pow2(n), k) == if k < n then 0 else Bit(a, k - n)
    decreases n
  {
    hide Bit;
    if n > 0 {
      var half := a * Pow2(n - 1);
      Doubled(a, Pow2(n - 1));
      Glued(0, half, if k > 0 then k - 1 else 0);
      if k > 0 { ShiftedUp(a, n - 1, k - 1); }
    }
  }

  lemma Doubled(a: nat, p: nat)
    ensures a * (2 * p) == 0 + 2 * (a * p)
  {
  }

  lemma {:induction false} Truncated(x: nat, m: nat, k: nat)
    requires k < m
    ensures Bit(x % Pow2(m), k) == Bit(x, k)
    decreases m
  {
    hide Bit;
    var q := Pow2(m - 1);
    ModTwice(x, q);
    Glued(x % 2, (x / 2) % q, if k > 0 then k - 1 else 0);
    if k > 0 {
      BitHalf(x, k - 1);
      Truncated(x / 2, m - 1, k - 1);
    } else {
      BitHalf(x, 0);
    }
  }

  /** Shifts move every bit and fill with zeros. */
  lemma ShiftWord(a: Word, n: nat, k: nat)
    requires k < 32
    ensures Bit(Shl(a, n), k) == if k < n then 0 else Bit(a, k - n)
    ensures Bit(Shr(a, n), k) == Bit(a, k + n)
  {
    hide Bit;
    Pow2Of32();
    WrapIsMod(a * Pow2(n));
    Truncated(a * Pow2(n), 32, k);
    ShiftedUp(a, n, k);
    ShiftedDown(a, n, k);
    assert Shr(a, n) == Down(a, n);
  }

  /** A word is determined by its bits. */
  lemma {:induction false} BitsDetermine(n: nat, a: nat, b: nat)
    requires a < Pow2(n) && b < Pow2(n) && forall k: nat :: k < n ==> Bit(a, k) == Bit(b, k)
    ensures a == b
    decreases n
  {
    hide Bit, Pow2;
    if n == 0 {
      OneLeft();
    } else {
      HalfBelow(n, a);
      HalfBelow(n, b);
      BitHalf(a, 0);
      BitHalf(b, 0);
      forall k: nat | k < n - 1 ensures Bit(a / 2, k) == Bit(b / 2, k) {
        BitHalf(a, k);
        BitHalf(b, k);
      }
      assert Bit(a, 0) == Bit(b, 0);
      BitsDetermine(n - 1, a / 2, b / 2);
    }
  }

  lemma OneLeft()
    ensures Pow2(0) == 1
  {
  }

  /** A signed value is the word's, in two's complement. */
  lemma SignedIs(w: Word)
    ensures -0x8000_0000 <= Signed(w) < 0x8000_0000 && Wrap(Signed(w)) == w
    ensures Signed(w) < 0 <==> Bit(w, 31) == 1
  {
    assert Pow2(31) == 0x8000_0000 by { Pow2Of32(); }
  }
}
