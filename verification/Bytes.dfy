/** Bytes as they travel over the serial line. */
module Bytes {
  type byte = x: int | 0 <= x < 256

  function Pow2(n: nat): (p: nat)
    ensures p >= 1
  {
    if n == 0 then 1 else 2 * Pow2(n - 1)
  }

  lemma {:induction false} Pow2Monotone(n: nat, m: nat)
    requires n <= m
    ensures Pow2(n) <= Pow2(m)
    decreases m
  {
    if n < m { Pow2Monotone(n, m - 1); }
  }

  /** Bit `k` of a number. */
  predicate Bit(c: nat, k: nat)
  {
    c / Pow2(k) % 2 == 1
  }

  /** The lowest `n` bits of a number, least significant bit first. */
  function LowBits(c: nat, n: nat): (q: seq<bool>)
    ensures |q| == n
  {
    seq(n, k requires 0 <= k < n => Bit(c, k))
  }

  /** The bits of a byte, least significant bit first. */
  function Bits(c: byte): (q: seq<bool>)
    ensures |q| == 8
  {
    LowBits(c, 8)
  }

  lemma Powers()
    ensures Pow2(0) == 1 && Pow2(1) == 2 && Pow2(2) == 4 && Pow2(3) == 8
    ensures Pow2(4) == 16 && Pow2(5) == 32 && Pow2(6) == 64 && Pow2(7) == 128
  {
  }

  lemma BitValues(b: byte)
    ensures Bits(b) == [b % 2 == 1, b / 2 % 2 == 1, b / 4 % 2 == 1, b / 8 % 2 == 1,
                        b / 16 % 2 == 1, b / 32 % 2 == 1, b / 64 % 2 == 1, b / 128 % 2 == 1]
  {
    Powers();
    hide Pow2;
  }

  /** The number with these bits. */
  function Value(q: seq<bool>): nat
  {
    if q == [] then 0 else (if q[0] then 1 else 0) + 2 * Value(q[1..])
  }

  lemma DivTwice(c: nat, p: nat)
    requires p >= 1
    ensures c / (2 * p) == c / 2 / p
  {
    var q, r := c / 2 / p, c / 2 % p;
    assert c == 2 * (q * p + r) + c % 2;
    assert 0 <= 2 * r + c % 2 < 2 * p;
    assert c == q * (2 * p) + (2 * r + c % 2);
    DivIs(c, 2 * p, q, 2 * r + c % 2);
  }

  lemma MulAtLeast(d: int, p: int)
    requires d >= 1 && p > 0
    ensures d * p >= p
  {
  }

  lemma DivIs(c: int, p: int, q: int, r: int)
    requires p > 0 && 0 <= r < p && c == q * p + r
    ensures c / p == q
  {
    var d := c / p - q;
    assert d * p == r - c % p;
    if d >= 1 {
      MulAtLeast(d, p);
    } else if d <= -1 {
      MulAtLeast(-d, p);
    }
  }

  lemma LowBitsStep(c: nat, n: nat)
    requires n > 0
    ensures LowBits(c, n) == [c % 2 == 1] + LowBits(c / 2, n - 1)
  {
    forall k | 0 < k < n
      ensures Bit(c, k) == Bit(c / 2, k - 1)
    {
      DivTwice(c, Pow2(k - 1));
    }
  }

  lemma {:induction false} ValueOfLowBits(c: nat, n: nat)
    requires c < Pow2(n)
    ensures Value(LowBits(c, n)) == c
    decreases n
  {
    if n > 0 {
      ValueOfLowBits(c / 2, n - 1);
      LowBitsStep(c, n);
      assert LowBits(c, n)[1..] == LowBits(c / 2, n - 1);
    }
  }

  lemma {:induction false} LowBitsOfValue(q: seq<bool>)
    ensures Value(q) < Pow2(|q|)
    ensures LowBits(Value(q), |q|) == q
  {
    if q != [] {
      LowBitsOfValue(q[1..]);
      assert Value(q) / 2 == Value(q[1..]);
      LowBitsStep(Value(q), |q|);
      assert q == [q[0]] + q[1..];
    }
  }

  lemma ByteRange()
    ensures Pow2(8) == 256
  {
    assert Pow2(4) == 16;
  }

  lemma BitsInjective(c: byte, d: byte)
    requires Bits(c) == Bits(d)
    ensures c == d
  {
    ByteRange();
    ValueOfLowBits(c, 8);
    ValueOfLowBits(d, 8);
  }

  /** The byte with these bits. */
  function FromBits(q: seq<bool>): (c: byte)
    requires |q| == 8
    ensures Bits(c) == q
  {
    ByteRange();
    LowBitsOfValue(q);
    Value(q)
  }

  /** The bitwise or of two numbers. */
  function Or(a: nat, b: nat): nat
  {
    if a == 0 && b == 0 then 0 else (if a % 2 == 1 || b % 2 == 1 then 1 else 0) + 2 * Or(a / 2, b / 2)
  }

  lemma {:induction false} OrZero(b: nat)
    ensures Or(0, b) == b
  {
    if b > 0 {
      OrZero(b / 2);
    }
  }

  /** If one number is zero below bit `n` and the other is zero from there on, their or is their sum. */
  lemma {:induction false} OrIsSum(a: nat, b: nat, n: nat)
    requires a % Pow2(n) == 0 && b < Pow2(n)
    ensures Or(a, b) == a + b
    decreases n
  {
    if n == 0 {
      OrSymmetric(a, 0);
      OrZero(a);
    } else {
      var p, q := Pow2(n - 1), a / Pow2(n);
      assert a == q * (2 * p);
      assert a == 2 * (q * p);
      HalfMultiple(q, p);
      OrIsSum(a / 2, b / 2, n - 1);
    }
  }

  lemma HalfMultiple(q: nat, p: nat)
    requires p > 0
    ensures (q * p) % p == 0
  {
    DivIs(q * p, p, q, 0);
  }

  lemma {:induction false} OrSymmetric(a: nat, b: nat)
    ensures Or(a, b) == Or(b, a)
  {
    if a > 0 || b > 0 {
      OrSymmetric(a / 2, b / 2);
    }
  }
}
