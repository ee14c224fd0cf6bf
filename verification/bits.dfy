/**
  Unsigned 64-bit index arithmetic of the ring buffer: `size_t` with wrap-around, the
  bitwise AND, and why masking with `capacity - 1` is exact for a power of two.
 */
module Bits {

  const TWO64: int := 0x1_0000_0000_0000_0000

  type uint64 = x: int | 0 <= x < 0x1_0000_0000_0000_0000

  function Add64(a: uint64, b: uint64): uint64 {
    (a + b) % TWO64
  }

  function Sub64(a: uint64, b: uint64): uint64 {
    (a - b) % TWO64
  }

  lemma Sub64Cases(a: uint64, b: uint64)
    ensures Sub64(a, b) == if a >= b then a - b else a - b + TWO64
  {
  }

  function Pow2(k: nat): (p: nat)
    ensures p >= 1
  {
    if k == 0 then 1 else 2 * Pow2(k - 1)
  }

  ghost predicate IsPowerOfTwo(c: nat) {
    exists k: nat :: c == Pow2(k)
  }

  /** The `&` of two unsigned integers, bit by bit from the lowest one. */
  function BitAnd(x: nat, y: nat): (r: nat)
    ensures r <= x && r <= y
  {
    if x == 0 || y == 0 then 0
    else 2 * BitAnd(x / 2, y / 2) + (if x % 2 == 1 && y % 2 == 1 then 1 else 0)
  }

  predicate Bit(x: nat, k: nat) {
    if k == 0 then x % 2 == 1 else Bit(x / 2, k - 1)
  }

  lemma {:induction false} ZeroHasNoBit(k: nat)
    ensures !Bit(0, k)
  {
    if k > 0 {
      ZeroHasNoBit(k - 1);
    }
  }

  /** `BitAnd` is the bitwise AND: bit k of the result is the AND of the two bits k. */
  lemma {:induction false} BitAndIsBitwise(x: nat, y: nat, k: nat)
    ensures Bit(BitAnd(x, y), k) <==> Bit(x, k) && Bit(y, k)
  {
    if x == 0 || y == 0 {
      ZeroHasNoBit(k);
    } else if k > 0 {
      assert BitAnd(x, y) / 2 == BitAnd(x / 2, y / 2);
      BitAndIsBitwise(x / 2, y / 2, k - 1);
    }
  }

  lemma {:induction false} BitAndSelf(x: nat)
    ensures BitAnd(x, x) == x
  {
    if x > 0 {
      BitAndSelf(x / 2);
    }
  }

  lemma MultipleBound(m: int, d: int)
    requires m > 0
    ensures d >= 1 ==> m * d >= m
    ensures d <= -1 ==> m * d <= -m
  {
    if d >= 1 {
      assert m * d == m * (d - 1) + m;
      assert m * (d - 1) >= 0;
    } else if d <= -1 {
      assert m * d == -(m * (-d - 1)) - m;
      assert m * (-d - 1) >= 0;
    }
  }

  lemma DivModUnique(x: int, m: int, q: int, r: int)
    requires m > 0 && x == m * q + r && 0 <= r < m
    ensures x / m == q && x % m == r
  {
    var d := x / m - q;
    assert x == m * (x / m) + x % m;
    assert m * d == m * (x / m) - m * q;
    MultipleBound(m, d);
  }

  lemma RemainderOfDouble(x: nat, half: nat)
    requires half >= 1
    ensures x % (2 * half) == 2 * ((x / 2) % half) + x % 2
  {
    var q, r := (x / 2) / half, (x / 2) % half;
    assert x / 2 == half * q + r;
    assert (2 * half) * q == 2 * (half * q);
    DivModUnique(x, 2 * half, q, 2 * r + x % 2);
  }

  lemma HalfOfOdd(h: nat)
    requires h >= 1
    ensures (2 * h - 1) / 2 == h - 1 && (2 * h - 1) % 2 == 1
  {
  }

  /** `x & (2^k - 1)` is the remainder of x by 2^k. */
  lemma {:induction false} MaskIsRemainder(x: nat, k: nat)
    ensures BitAnd(x, Pow2(k) - 1) == x % Pow2(k)
  {
    if k == 0 {
      assert Pow2(0) == 1;
    } else if x == 0 {
      DivModUnique(0, Pow2(k), 0, 0);
    } else {
      MaskIsRemainder(x / 2, k - 1);
      MaskOfDouble(x, Pow2(k - 1));
    }
  }

  lemma MaskOfDouble(x: nat, half: nat)
    requires x > 0 && half >= 1 && BitAnd(x / 2, half - 1) == (x / 2) % half
    ensures BitAnd(x, 2 * half - 1) == x % (2 * half)
  {
    BitAndOfOddMask(x, half);
    RemainderOfDouble(x, half);
  }

  lemma BitAndOfOddMask(x: nat, half: nat)
    requires x > 0 && half >= 1
    ensures BitAnd(x, 2 * half - 1) == 2 * BitAnd(x / 2, half - 1) + x % 2
  {
    HalfOfOdd(half);
  }

  lemma DoublePowerOfTwo(d: nat)
    ensures IsPowerOfTwo(2 * d) <==> IsPowerOfTwo(d)
  {
    if IsPowerOfTwo(d) {
      var k: nat :| d == Pow2(k);
      assert 2 * d == Pow2(k + 1);
    }
    if IsPowerOfTwo(2 * d) {
      var k: nat :| 2 * d == Pow2(k);
      assert k > 0 && d == Pow2(k - 1);
    }
  }

  lemma Pow2Parity(k: nat)
    ensures Pow2(k) == 1 || Pow2(k) % 2 == 0
  {
  }

  lemma {:induction false} PowerOfTwoTest(c: nat)
    requires c >= 1
    ensures BitAnd(c, c - 1) == 0 <==> IsPowerOfTwo(c)
  {
    if c == 1 {
      assert Pow2(0) == 1;
    } else if c % 2 == 0 {
      assert (c - 1) / 2 == c / 2 - 1;
      PowerOfTwoTest(c / 2);
      DoublePowerOfTwo(c / 2);
    } else {
      BitAndSelf(c / 2);
      assert BitAnd(c, c - 1) == 2 * (c / 2);
      if IsPowerOfTwo(c) {
        var k: nat :| c == Pow2(k);
        Pow2Parity(k);
        assert false;
      }
    }
  }

  /** The constructor's test accepts the powers of two and, by wrap-around, also 0. */
  lemma ConstructorTest(c: uint64)
    ensures BitAnd(c, Sub64(c, 1)) == 0 <==> c == 0 || IsPowerOfTwo(c)
  {
    if c == 0 {
      assert BitAnd(0, Sub64(0, 1)) == 0;
    } else {
      Sub64Cases(c, 1);
      PowerOfTwoTest(c);
    }
  }

  /** `Cache` passes an `int`: as a `size_t` a negative capacity is never accepted. */
  lemma NegativeCapacityRejected(capacity: int)
    requires -0x8000_0000 <= capacity < 0
    ensures BitAnd(capacity % TWO64, Sub64(capacity % TWO64, 1)) != 0
  {
    var c: uint64 := capacity % TWO64;
    assert c == TWO64 + capacity;
    if IsPowerOfTwo(c) {
      var k: nat :| c == Pow2(k);
      Pow2Of63And64();
      if k <= 63 {
        Pow2Monotone(k, 63);
      } else {
        Pow2Monotone(64, k);
      }
    }
    ConstructorTest(c);
  }

  lemma {:induction false} Pow2Monotone(j: nat, k: nat)
    requires j <= k
    ensures Pow2(j) <= Pow2(k)
  {
    if j < k {
      Pow2Monotone(j, k - 1);
    }
  }

  lemma {:induction false} Pow2Sum(j: nat, k: nat)
    ensures Pow2(j + k) == Pow2(j) * Pow2(k)
  {
    if k > 0 {
      Pow2Sum(j, k - 1);
      assert Pow2(j) * (2 * Pow2(k - 1)) == 2 * (Pow2(j) * Pow2(k - 1));
    }
  }

  lemma Pow2Of63And64()
    ensures Pow2(63) == 0x8000_0000_0000_0000 && Pow2(64) == TWO64
  {
    assert Pow2(16) == 0x1_0000 by {
      Pow2Of8();
      Pow2Sum(8, 8);
    }
    assert Pow2(32) == 0x1_0000_0000 by {
      Pow2Sum(16, 16);
    }
    assert Pow2(64) == TWO64 by {
      Pow2Sum(32, 32);
    }
    assert Pow2(64) == 2 * Pow2(63);
  }

  lemma Pow2Of8()
    ensures Pow2(8) == 256
  {
    assert Pow2(2) == 4;
    Pow2Sum(2, 2);
    Pow2Sum(4, 4);
  }

  /** A power of two that fits in 64 bits divides 2^64. */
  lemma CapacityDividesWord(c: uint64) returns (n: nat)
    requires IsPowerOfTwo(c)
    ensures TWO64 == c * n && n >= 2
  {
    var k: nat :| c == Pow2(k);
    Pow2Of63And64();
    if k >= 64 {
      Pow2Monotone(64, k);
    }
    n := Pow2(64 - k);
    Pow2Sum(k, 64 - k);
  }

  /** The masked index of the code is the remainder by the capacity. */
  lemma MaskedIndex(x: uint64, c: uint64)
    requires IsPowerOfTwo(c)
    ensures BitAnd(x, Sub64(c, 1)) == x % c
  {
    var k: nat :| c == Pow2(k);
    assert Sub64(c, 1) == Pow2(k) - 1;
    MaskIsRemainder(x, k);
  }

  /** `(i + 1) & (capacity - 1)`. */
  function NextIndex(capacity: uint64, i: uint64): uint64 {
    BitAnd(Add64(i, 1), Sub64(capacity, 1))
  }

  /** `(tail - head) & (capacity - 1)`. */
  function IndexDistance(capacity: uint64, head: uint64, tail: uint64): uint64 {
    BitAnd(Sub64(tail, head), Sub64(capacity, 1))
  }

  lemma SuccessorRemainder(i: nat, c: nat)
    requires c >= 1
    ensures (i % c + 1) % c == (i + 1) % c
  {
    var q, r := i / c, i % c;
    assert i == c * q + r;
    if r + 1 < c {
      DivModUnique(i + 1, c, q, r + 1);
      DivModUnique(r + 1, c, 0, r + 1);
    } else {
      assert i + 1 == c * (q + 1) + 0;
      DivModUnique(i + 1, c, q + 1, 0);
      DivModUnique(c, c, 1, 0);
    }
  }

  /** Two counters less than a lap apart are equal when their remainders are. */
  lemma SameRemainderSameCounter(a: nat, b: nat, c: nat)
    requires a <= b < a + c && a % c == b % c
    ensures a == b
  {
    var d := b / c - a / c;
    assert a == c * (a / c) + a % c && b == c * (b / c) + b % c;
    assert b - a == c * d;
    MultipleBound(c, d);
  }

  /** For any number of laps, the masked increment is the successor modulo the capacity. */
  lemma MaskedSuccessor(i: nat, c: uint64)
    requires IsPowerOfTwo(c)
    ensures NextIndex(c, i % c) == (i + 1) % c < c
  {
    var n := CapacityDividesWord(c);
    assert c * n >= 2 * c;
    assert Add64(i % c, 1) == i % c + 1;
    MaskedIndex(i % c + 1, c);
    SuccessorRemainder(i, c);
  }

  /** The remainders of two counters differ by their difference and a whole number of laps. */
  lemma LapsApart(head: nat, tail: nat, c: nat) returns (laps: int)
    requires c >= 1
    ensures tail % c - head % c == c * laps + (tail - head)
  {
    laps := head / c - tail / c;
    assert c * laps == c * (head / c) - c * (tail / c);
  }

  lemma MultipleSum(c: int, a: int, b: int)
    ensures c * (a + b) == c * a + c * b
  {
  }

  /** For any number of laps, the masked wrapping difference is the exact queue length. */
  lemma MaskedDistance(head: nat, tail: nat, c: uint64)
    requires IsPowerOfTwo(c)
    requires head <= tail < head + c
    ensures IndexDistance(c, head % c, tail % c) == tail - head
  {
    var words := CapacityDividesWord(c);
    var laps := LapsApart(head, tail, c);
    var h: uint64, t: uint64 := head % c, tail % c;
    Sub64Cases(t, h);
    MaskedIndex(Sub64(t, h), c);
    MultipleSum(c, laps, words);
    DivModUnique(Sub64(t, h), c, if t >= h then laps else laps + words, tail - head);
  }

  /** With capacity 0 the mask has all bits set, so the full test of an empty queue passes. */
  lemma NextIndexOfNothing()
    ensures NextIndex(0, 0) == 1
  {
    assert BitAnd(1, TWO64 - 1) == 1;
  }
}
