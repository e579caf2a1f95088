/** The bit-smearing rounding of block sizes, on 64-bit words. */
module PowerOfTwo {
  const DATA_ALIGNMENT: nat := 4096
  const WORD: nat := 0x1_0000_0000_0000_0000

  function Pow2(k: nat): (p: nat)
    ensures p > 0
  {
    if k == 0 then 1 else 2 * Pow2(k - 1)
  }

  ghost predicate IsPow2(n: nat) {
    exists k: nat :: n == Pow2(k)
  }

  /** Bitwise or. */
  function Or(a: nat, b: nat): nat
  {
    if a == 0 then b
    else if b == 0 then a
    else 2 * Or(a / 2, b / 2) + (if a % 2 == 1 || b % 2 == 1 then 1 else 0)
  }

  function ShiftRight(v: nat, shift: nat): nat {
    Quotient(v, Pow2(shift))
  }

  function Quotient(v: nat, d: nat): nat
    requires d > 0
  {
    v / d
  }

  function Smear(v: nat, shift: nat): nat {
    Or(v, ShiftRight(v, shift))
  }

  function SmearAll(v: nat): nat {
    Smear(Smear(Smear(Smear(Smear(Smear(v, 1), 2), 4), 8), 16), 32)
  }

  function NextPowerOf2(v: nat): nat
  {
    if v <= DATA_ALIGNMENT then DATA_ALIGNMENT else (SmearAll(v - 1) + 1) % WORD
  }

  lemma Pow2Next(k: nat)
    ensures Pow2(0) == 1 && Pow2(k + 1) == 2 * Pow2(k)
  {
  }

  lemma Doubled(x: nat, y: nat)
    ensures 2 * (x * y) == 2 * x * y
  {
  }

  lemma {:induction false} Pow2Add(a: nat, b: nat)
    ensures Pow2(a + b) == Pow2(a) * Pow2(b)
  {
    hide Pow2;
    Pow2Next(0);
    if a > 0 {
      Pow2Add(a - 1, b);
      Pow2Next(a - 1);
      Pow2Next(a - 1 + b);
      Doubled(Pow2(a - 1), Pow2(b));
    }
  }

  lemma {:induction false} Pow2Monotone(a: nat, b: nat)
    requires a < b
    ensures 2 * Pow2(a) <= Pow2(b)
  {
    if a + 1 < b { Pow2Monotone(a, b - 1); }
  }

  /** Two different powers of two are at least a factor of two apart. */
  lemma Pow2Gap(a: nat, b: nat)
    requires IsPow2(a) && IsPow2(b) && a < b
    ensures 2 * a <= b
  {
    var i: nat :| a == Pow2(i);
    var j: nat :| b == Pow2(j);
    if j < i { Pow2Monotone(j, i); }
    if i < j { Pow2Monotone(i, j); }
  }

  lemma {:induction false} OrAtLeast(a: nat, b: nat)
    ensures Or(a, b) >= a && Or(a, b) >= b
  {
    if a != 0 && b != 0 { OrAtLeast(a / 2, b / 2); }
  }

  lemma {:induction false} OrBelow(a: nat, b: nat, n: nat)
    requires a < Pow2(n) && b < Pow2(n)
    ensures Or(a, b) < Pow2(n)
  {
    if a != 0 && b != 0 {
      assert n > 0;
      OrBelow(a / 2, b / 2, n - 1);
    }
  }

  /** Or, one bit at a time, also where an operand is zero. */
  lemma OrUnfold(a: nat, b: nat)
    ensures Or(a, b) == 2 * Or(a / 2, b / 2) + (if a % 2 == 1 || b % 2 == 1 then 1 else 0)
  {
  }

  lemma HalveSplit(hi: nat, m: nat)
    requires m > 0
    ensures hi * Pow2(m) == 2 * (hi * Pow2(m - 1))
  {
    var p := Pow2(m - 1);
    assert Pow2(m) == 2 * p;
    hide Pow2;
    assert hi * (2 * p) == 2 * (hi * p);
  }

  /** Or leaves the bits above position `m` of `a` in place when `b` has none. */
  lemma {:induction false} OrSplit(hi: nat, lo: nat, b: nat, m: nat)
    requires lo < Pow2(m) && b < Pow2(m)
    ensures Or(hi * Pow2(m) + lo, b) == hi * Pow2(m) + Or(lo, b)
  {
    hide Or, Pow2;
    Pow2Next(0);
    if m == 0 {
      OrZero(lo, b);
      OrZero(hi * Pow2(m) + lo, b);
    } else {
      HalfBelow(lo, m);
      HalfBelow(b, m);
      HalveSplit(hi, m);
      OrSplit(hi, lo / 2, b / 2, m - 1);
      OrOneBit(hi * Pow2(m - 1), lo, b);
    }
  }

  lemma OrZero(a: nat, b: nat)
    requires b == 0
    ensures Or(a, b) == a
  {
  }

  lemma HalfBelow(x: nat, m: nat)
    requires m > 0 && x < Pow2(m)
    ensures x / 2 < Pow2(m - 1)
  {
  }

  lemma OrOneBit(half: nat, lo: nat, b: nat)
    requires Or(half + lo / 2, b / 2) == half + Or(lo / 2, b / 2)
    ensures Or(2 * half + lo, b) == 2 * half + Or(lo, b)
  {
    hide Or;
    OrUnfold(2 * half + lo, b);
    OrUnfold(lo, b);
    assert (2 * half + lo) / 2 == half + lo / 2 && (2 * half + lo) % 2 == lo % 2;
  }

  /** The top `s` of the `n` bits of `v` are set. */
  predicate TopBits(v: nat, n: nat, s: nat)
  {
    v < Pow2(n) && (if s >= n then v == Pow2(n) - 1 else v >= Pow2(n) - Pow2(n - s))
  }

  lemma MulMono(a: nat, b: nat, c: nat)
    ensures a <= b ==> a * c <= b * c
  {
  }

  lemma DivideAtLeast(v: nat, d: nat, q: nat)
    requires d > 0 && v >= q * d
    ensures v / d >= q
  {
    MulMono(v / d + 1, q, d);
  }

  lemma DivideLess(v: nat, d: nat, q: nat)
    requires d > 0 && v < q * d
    ensures v / d < q
  {
    MulMono(q, v / d, d);
  }

  lemma DivideBelow(v: nat, s: nat, n: nat)
    requires v < Pow2(n) && s <= n
    ensures v / Pow2(s) < Pow2(n - s)
  {
    hide Pow2;
    Pow2Add(n - s, s);
    DivideLess(v, Pow2(s), Pow2(n - s));
  }

  /** `(2^a - 1) * 2^b` written without the product. */
  lemma OnesShifted(a: nat, b: nat)
    ensures (Pow2(a) - 1) * Pow2(b) == Pow2(a + b) - Pow2(b)
  {
    Pow2Add(a, b);
  }

  lemma OnesShiftedBy(a: nat, b: nat, c: nat)
    ensures (Pow2(a) - Pow2(b)) * Pow2(c) == Pow2(a + c) - Pow2(b + c)
  {
    Pow2Add(a, c);
    Pow2Add(b, c);
  }

  /** The shifted word keeps its leading ones, `s` places further down. */
  lemma ShiftedOnes(v: nat, n: nat, s: nat)
    requires 0 < s < n && TopBits(v, n, s)
    ensures v / Pow2(s) < Pow2(n - s)
    ensures v / Pow2(s) >= if 2 * s < n then Pow2(n - s) - Pow2(n - 2 * s) else Pow2(n - s) - 1
  {
    var m := n - s;
    DivideBelow(v, s, n);
    if 2 * s < n {
      OnesShiftedBy(m, m - s, s);
      Pow2Monotone(m - s, m);
      DivideAtLeast(v, Pow2(s), Pow2(m) - Pow2(m - s));
    } else {
      OnesShifted(m, s);
      if m < s { Pow2Monotone(m, s); }
      DivideAtLeast(v, Pow2(s), Pow2(m) - 1);
    }
  }

  /** Or-ing the low part in leaves the leading ones where they are. */
  lemma OrKeepsOnes(v: nat, n: nat, s: nat, b: nat)
    requires 0 < s < n && TopBits(v, n, s) && b < Pow2(n - s)
    ensures Or(v, b) >= Pow2(n) - Pow2(n - s) + b
  {
    hide Or, Pow2;
    var m := n - s;
    var hi, lo := v / Pow2(m), v % Pow2(m);
    assert v == hi * Pow2(m) + lo;
    OrSplit(hi, lo, b, m);
    OrAtLeast(lo, b);
    OnesShifted(s, m);
    DivideAtLeast(v, Pow2(m), Pow2(s) - 1);
    MulMono(Pow2(s) - 1, hi, Pow2(m));
  }

  /** One smearing step doubles the number of leading ones. */
  lemma SmearDoubles(v: nat, n: nat, s: nat)
    requires s > 0 && TopBits(v, n, s)
    ensures TopBits(Smear(v, s), n, 2 * s)
  {
    var b := v / Pow2(s);
    DivideSmaller(v, Pow2(s));
    OrBelow(v, b, n);
    OrAtLeast(v, b);
    if s < n {
      ShiftedOnes(v, n, s);
      OrKeepsOnes(v, n, s, b);
    }
  }

  lemma DivideSmaller(v: nat, d: nat)
    requires d > 0
    ensures v / d <= v
  {
    MulMono(1, d, v + 1);
    DivideLess(v, d, v + 1);
  }

  /** The number of bits of `v`. */
  function BitLength(v: nat): (n: nat)
    ensures v > 0 ==> n > 0 && Pow2(n - 1) <= v < Pow2(n)
  {
    if v == 0 then 0 else 1 + BitLength(v / 2)
  }

  lemma SmearAllFills(v: nat, n: nat)
    requires TopBits(v, n, 1) && n <= 64
    ensures SmearAll(v) == Pow2(n) - 1
  {
    hide Smear, Or, Pow2;
    var v1 := Smear(v, 1);
    SmearDoubles(v, n, 1);
    var v2 := Smear(v1, 2);
    SmearDoubles(v1, n, 2);
    var v4 := Smear(v2, 4);
    SmearDoubles(v2, n, 4);
    var v8 := Smear(v4, 8);
    SmearDoubles(v4, n, 8);
    var v16 := Smear(v8, 16);
    SmearDoubles(v8, n, 16);
    SmearDoubles(v16, n, 32);
  }

  /** A number of at most 64 bits, apart from 2^64 itself, has fewer than 65. */
  lemma BitLengthBounds(v: nat)
    requires 0 < v < WORD
    ensures BitLength(v) <= 64
    ensures v < WORD / 2 <==> BitLength(v) <= 63
  {
    hide Pow2;
    var n := BitLength(v);
    Pow2At64();
    if n - 1 > 64 { Pow2Monotone(64, n - 1); }
    if n - 1 == 64 { assert false; }
    if n < 63 { Pow2Monotone(n, 63); }
  }

  lemma NextPowerOf2Value(v: nat)
    requires DATA_ALIGNMENT < v < WORD
    ensures NextPowerOf2(v) == if v <= WORD / 2 then Pow2(BitLength(v - 1)) else 0
  {
    hide SmearAll, Pow2, BitLength;
    var n := BitLength(v - 1);
    BitLengthBounds(v - 1);
    assert TopBits(v - 1, n, 1) by { if n > 1 { Pow2Succ(n - 1); } Pow2Succ(0); }
    SmearAllFills(v - 1, n);
    Pow2At64();
    if n < 63 { Pow2Monotone(n, 63); }
  }

  lemma Pow2Succ(n: nat)
    ensures Pow2(n + 1) == 2 * Pow2(n) && Pow2(0) == 1
  {
  }

  /** For every argument up to 2^63 the result is the least power of two, at least one block, that holds `v`. */
  lemma NextPowerOf2IsLeast(v: nat)
    requires v <= WORD / 2
    ensures IsPow2(NextPowerOf2(v)) && NextPowerOf2(v) >= v && NextPowerOf2(v) >= DATA_ALIGNMENT
    ensures forall p: nat :: IsPow2(p) && p >= v && p >= DATA_ALIGNMENT ==> NextPowerOf2(v) <= p
    ensures NextPowerOf2(v) > DATA_ALIGNMENT ==> NextPowerOf2(v) < 2 * v
  {
    AlignmentIsPow2();
    hide SmearAll, Pow2, BitLength;
    if v > DATA_ALIGNMENT {
      var n := BitLength(v - 1);
      NextPowerOf2Value(v);
      Pow2Succ(n - 1);
      forall p: nat | IsPow2(p) && p >= v ensures NextPowerOf2(v) <= p {
        if p < Pow2(n) { Pow2Gap(p, Pow2(n)); }
      }
      if NextPowerOf2(v) < DATA_ALIGNMENT { Pow2Gap(NextPowerOf2(v), DATA_ALIGNMENT); }
    }
  }

  /** Above 2^63 the increment wraps to zero, so the rounding is right exactly up to 2^63. */
  lemma NextPowerOf2Wraps(v: nat)
    requires v < WORD
    ensures NextPowerOf2(v) >= v <==> v <= WORD / 2
    ensures v > WORD / 2 ==> NextPowerOf2(v) == 0
  {
    hide SmearAll, Pow2, BitLength;
    if v <= WORD / 2 { NextPowerOf2IsLeast(v); } else { NextPowerOf2Value(v); }
  }

  lemma AlignmentIsPow2()
    ensures IsPow2(DATA_ALIGNMENT)
  {
    assert Pow2(3) == 8;
    Pow2Add(3, 3);
    Pow2Add(6, 6);
    assert Pow2(12) == DATA_ALIGNMENT;
  }

  lemma Pow2At64()
    ensures Pow2(63) == WORD / 2 && Pow2(64) == WORD
  {
    hide Pow2;
    Pow2Succ(0); Pow2Succ(1); Pow2Succ(2); Pow2Succ(3);
    Pow2Add(4, 4);
    Pow2Add(8, 8);
    Pow2Add(16, 16);
    Pow2Add(32, 32);
    Pow2Succ(63);
  }

  /** A power of two at least as large as a block is a multiple of the block alignment. */
  lemma LargePow2Aligned(n: nat)
    requires IsPow2(n) && n >= DATA_ALIGNMENT
    ensures n % DATA_ALIGNMENT == 0
  {
    var k: nat :| n == Pow2(k);
    AlignmentIsPow2();
    assert Pow2(12) == DATA_ALIGNMENT by { assert Pow2(3) == 8; Pow2Add(3, 3); Pow2Add(6, 6); }
    if k < 12 { Pow2Monotone(k, 12); }
    Pow2Add(12, k - 12);
    assert n == DATA_ALIGNMENT * Pow2(k - 12);
  }
}
