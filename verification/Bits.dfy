/** Bitwise operators on unsigned words, given digit by digit. */
module Bits {

  const TWO32 := 0x1_0000_0000

  function Pow2(k: nat): (p: nat)
    ensures p > 0
  {
    if k == 0 then 1 else 2 * Pow2(k - 1)
  }

  /** `a & b` */
  function And(a: nat, b: nat): nat
    decreases a
  {
    if a == 0 then 0 else (a % 2) * (b % 2) + 2 * And(a / 2, b / 2)
  }

  /** `a ^ b` */
  function Xor(a: nat, b: nat): nat
    decreases a + b
  {
    if a == 0 && b == 0 then 0 else (a + b) % 2 + 2 * Xor(a / 2, b / 2)
  }

  /** `w >> k` */
  function Shr(w: nat, k: nat): nat
    decreases k
  {
    if k == 0 then w else Shr(w / 2, k - 1)
  }

  predicate Bit(w: nat, k: nat) {
    Shr(w, k) % 2 == 1
  }

  /** Shifting right is dividing, so that bit `k` of `w` is the digit of weight 2^k. */
  lemma {:induction false} ShrIsDiv(w: nat, k: nat)
    ensures Shr(w, k) == w / Pow2(k)
    ensures Bit(w, k) <==> (w / Pow2(k)) % 2 == 1
    decreases k
  {
    if k > 0 {
      ShrIsDiv(w / 2, k - 1);
      DivTwice(w, Pow2(k - 1));
    }
  }

  lemma {:induction false} DivTwice(w: nat, p: nat)
    requires p > 0
    ensures w / 2 / p == w / (2 * p)
  {
    var q := w / 2 / p;
    var r := w / 2 - p * q;
    assert w == 2 * (p * q + r) + w % 2;
    assert w == (2 * p) * q + (2 * r + w % 2);
    DivUnique(w, 2 * p, q, 2 * r + w % 2);
  }

  lemma {:induction false} DivUnique(n: nat, p: nat, q: nat, r: nat)
    requires p > 0 && n == p * q + r && r < p
    ensures n / p == q
  {
    var d := n / p;
    assert p * (d - q) == r - n % p;
    SmallMultiple(p, d - q);
  }

  /** The two operators work bit by bit. */
  lemma {:induction false} AndIsBitwise(a: nat, b: nat, k: nat)
    ensures Bit(And(a, b), k) <==> Bit(a, k) && Bit(b, k)
    decreases k
  {
    hide And;
    AndSplits(a, b);
    if k > 0 {
      AndIsBitwise(a / 2, b / 2, k - 1);
    }
  }

  lemma {:induction false} AndSplits(a: nat, b: nat)
    ensures And(a, b) % 2 == (if a % 2 == 1 && b % 2 == 1 then 1 else 0)
    ensures And(a, b) / 2 == And(a / 2, b / 2)
  {
    var digit := OneDigit(a % 2, b % 2);
    if a != 0 {
      assert And(a, b) == digit + 2 * And(a / 2, b / 2);
    }
  }

  /** The product of two binary digits. */
  function OneDigit(x: nat, y: nat): (d: nat)
    requires x < 2 && y < 2
    ensures d == x * y && d == if x == 1 && y == 1 then 1 else 0
  {
    if x == 1 then y else 0
  }

  lemma {:induction false} XorIsBitwise(a: nat, b: nat, k: nat)
    ensures Bit(Xor(a, b), k) <==> Bit(a, k) != Bit(b, k)
    decreases k
  {
    hide Xor;
    XorSplits(a, b);
    if k > 0 {
      XorIsBitwise(a / 2, b / 2, k - 1);
    }
  }

  lemma {:induction false} XorSplits(a: nat, b: nat)
    ensures Xor(a, b) % 2 == (if a % 2 != b % 2 then 1 else 0)
    ensures Xor(a, b) / 2 == Xor(a / 2, b / 2)
  {
    var digit, rest := (a + b) % 2, Xor(a / 2, b / 2);
    OddSum(a, b);
    if a != 0 || b != 0 {
      assert Xor(a, b) == digit + 2 * rest;
    }
    TwoParts(digit, rest);
  }

  lemma {:induction false} OddSum(a: nat, b: nat)
    ensures (a + b) % 2 == if a % 2 != b % 2 then 1 else 0
  {
  }

  lemma {:induction false} TwoParts(digit: nat, rest: nat)
    requires digit < 2
    ensures (digit + 2 * rest) % 2 == digit && (digit + 2 * rest) / 2 == rest
  {
  }

  lemma {:induction false} ShrZero(k: nat)
    ensures Shr(0, k) == 0
    decreases k
  {
    if k > 0 {
      ShrZero(k - 1);
    }
  }

  /** Masking with one less than a power of two is the remainder. */
  lemma {:induction false} MaskIsMod(h: nat, k: nat)
    ensures And(h, Pow2(k) - 1) == h % Pow2(k)
    decreases k
  {
    var p := Pow2(k);
    if k == 0 {
      AndZero(h);
    } else if h != 0 {
      var half := Pow2(k - 1);
      assert (p - 1) % 2 == 1 && (p - 1) / 2 == half - 1;
      assert And(h, p - 1) == h % 2 + 2 * And(h / 2, half - 1);
      MaskIsMod(h / 2, k - 1);
      ModDouble(h, half);
    }
  }

  lemma {:induction false} AndZero(h: nat)
    ensures And(h, 0) == 0
    decreases h
  {
    if h != 0 {
      AndZero(h / 2);
    }
  }

  lemma {:induction false} ModDouble(h: nat, half: nat)
    requires half > 0
    ensures h % (2 * half) == h % 2 + 2 * ((h / 2) % half)
  {
    var q, r := (h / 2) / half, (h / 2) % half;
    assert h / 2 == half * q + r;
    assert h == (2 * half) * q + (h % 2 + 2 * r);
    assert h % 2 + 2 * r < 2 * half;
    ModUnique(h, 2 * half, q, h % 2 + 2 * r);
  }

  lemma {:induction false} ModUnique(n: nat, p: nat, q: nat, r: nat)
    requires p > 0 && n == p * q + r && r < p
    ensures n % p == r
  {
    var d := n / p - q;
    assert p * d == r - n % p by {
      assert p * d == p * (n / p) - p * q;
    }
    SmallMultiple(p, d);
  }

  lemma {:induction false} SmallMultiple(p: int, d: int)
    requires p > 0 && -p < p * d < p
    ensures d == 0
  {
  }

  /** Words that agree above bit 0 are those whose exclusive or vanishes there. */
  lemma {:induction false} XorAboveBitZero(a: nat, b: nat)
    ensures Xor(a, b) / 2 == 0 <==> a / 2 == b / 2
  {
    XorIsZero(a / 2, b / 2);
  }

  lemma {:induction false} XorIsZero(a: nat, b: nat)
    ensures Xor(a, b) == 0 <==> a == b
    decreases a + b
  {
    if a != 0 || b != 0 {
      XorIsZero(a / 2, b / 2);
    }
  }

  /** `1 & x & y` tests the low bit of both. */
  lemma {:induction false} LowBits(x: nat, y: nat)
    ensures And(And(1, x), y) == (x % 2) * (y % 2)
  {
    assert And(1, x) == x % 2;
  }
}
