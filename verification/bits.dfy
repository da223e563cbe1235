/** Python integers read as infinite two's-complement bit strings.

    The engine keeps every bitboard in a Python `int` and combines them with
    `&`, `|`, `^`, `~`, `<<`, `>>` and ordinary `+`/`-`.  This module gives
    those operators their Python meaning on Dafny's unbounded `int` and proves
    what each one does to a single bit.  Dafny's `/` and `%` by a positive
    divisor round towards minus infinity, which is exactly Python's `>>` and
    the reason `Has` below works for negative numbers too. */
module Bits {

  /** Bit `i` of `b` in infinite two's complement (`(b >> i) & 1 == 1` in Python). */
  predicate Has(b: int, i: nat)
    decreases i
  {
    if i == 0 then b % 2 == 1 else Has(b / 2, i - 1)
  }

  /** `2 ** k`, the board with only square `k` set. */
  function Pow2(k: nat): (p: nat)
    ensures p >= 1
    decreases k
  {
    if k == 0 then 1 else 2 * Pow2(k - 1)
  }

  /** Distance of `x` from the all-zeros or all-ones tail; halves with `x`. */
  function Mag(x: int): nat
  {
    if x >= 0 then x else -x - 1
  }

  lemma MagHalf(x: int)
    ensures Mag(x / 2) == Mag(x) / 2
  {}

  /** True when `x` is one of the two values whose bits are all equal. */
  predicate IsTail(x: int)
  {
    x == 0 || x == -1
  }

  /** Python's `a & b`. */
  function And(a: int, b: int): int
    decreases Mag(a) + Mag(b)
  {
    if IsTail(a) && IsTail(b) then
      (if a == -1 && b == -1 then -1 else 0)
    else
      MagHalf(a); MagHalf(b);
      2 * And(a / 2, b / 2) + (if a % 2 == 1 && b % 2 == 1 then 1 else 0)
  }

  /** Python's `a | b`. */
  function Or(a: int, b: int): int
    decreases Mag(a) + Mag(b)
  {
    if IsTail(a) && IsTail(b) then
      (if a == -1 || b == -1 then -1 else 0)
    else
      MagHalf(a); MagHalf(b);
      2 * Or(a / 2, b / 2) + (if a % 2 == 1 || b % 2 == 1 then 1 else 0)
  }

  /** Python's `a ^ b`. */
  function Xor(a: int, b: int): int
    decreases Mag(a) + Mag(b)
  {
    if IsTail(a) && IsTail(b) then
      (if a != b then -1 else 0)
    else
      MagHalf(a); MagHalf(b);
      2 * Xor(a / 2, b / 2) + (if a % 2 != b % 2 then 1 else 0)
  }

  /** Python's `~a`. */
  function Not(a: int): int
  {
    -a - 1
  }

  /** Python's `a << n`. */
  function Shl(a: int, n: nat): int
  {
    a * Pow2(n)
  }

  /** Python's `a >> n` (floor division, also for negative `a`). */
  function Shr(a: int, n: nat): int
  {
    a / Pow2(n)
  }

  /** `0 <= b < 2 ** n`. */
  predicate Fits(b: int, n: nat)
  {
    0 <= b < Pow2(n)
  }

  /** `1 << 64`, the first value outside an unsigned 64-bit word. */
  const Word: int := 0x1_0000_0000_0000_0000

  /** The value range of an unsigned 64-bit word. */
  predicate IsWord(b: int)
  {
    0 <= b < Word
  }

  /** No bit of `x` in `lo .. hi-1` is set. */
  predicate ZeroRange(x: int, lo: nat, hi: nat)
    decreases hi - lo
  {
    lo >= hi || (!Has(x, lo) && ZeroRange(x, lo + 1, hi))
  }

  // ---------------------------------------------------------------------
  // Single-bit facts

  lemma {:induction false} HasTail(x: int, i: nat)
    requires IsTail(x)
    ensures Has(x, i) == (x == -1)
    decreases i
  {
    if i > 0 { HasTail(x, i - 1); }
  }

  lemma {:induction false} HasAnd(a: int, b: int, i: nat)
    ensures Has(And(a, b), i) == (Has(a, i) && Has(b, i))
    decreases i
  {
    if IsTail(a) && IsTail(b) {
      HasTail(a, i); HasTail(b, i); HasTail(And(a, b), i);
    } else if i > 0 {
      HasAnd(a / 2, b / 2, i - 1);
    }
  }

  lemma {:induction false} HasOr(a: int, b: int, i: nat)
    ensures Has(Or(a, b), i) == (Has(a, i) || Has(b, i))
    decreases i
  {
    if IsTail(a) && IsTail(b) {
      HasTail(a, i); HasTail(b, i); HasTail(Or(a, b), i);
    } else if i > 0 {
      HasOr(a / 2, b / 2, i - 1);
    }
  }

  lemma {:induction false} HasXor(a: int, b: int, i: nat)
    ensures Has(Xor(a, b), i) == (Has(a, i) != Has(b, i))
    decreases i
  {
    if IsTail(a) && IsTail(b) {
      HasTail(a, i); HasTail(b, i); HasTail(Xor(a, b), i);
    } else if i > 0 {
      HasXor(a / 2, b / 2, i - 1);
    }
  }

  lemma {:induction false} HasNot(a: int, i: nat)
    ensures Has(Not(a), i) == !Has(a, i)
    decreases i
  {
    if i > 0 {
      assert Not(a) / 2 == Not(a / 2);
      HasNot(a / 2, i - 1);
    }
  }

  /** Splitting a number at bit `m`: the low `m` bits come from `lo`, the rest from `hi`. */
  lemma {:induction false} HasSplit(hi: int, lo: int, m: nat, i: nat)
    requires 0 <= lo < Pow2(m)
    ensures Has(hi * Pow2(m) + lo, i) == if i < m then Has(lo, i) else Has(hi, i - m)
    decreases m
  {
    if m > 0 {
      var p := Pow2(m - 1);
      var h := hi * p;
      assert hi * Pow2(m) == 2 * h by {
        assert Pow2(m) == 2 * p;
      }
      var x := hi * Pow2(m) + lo;
      assert x == 2 * (h + lo / 2) + lo % 2;
      assert x / 2 == h + lo / 2 && x % 2 == lo % 2;
      if i > 0 {
        HasSplit(hi, lo / 2, m - 1, i - 1);
      }
    }
  }

  lemma HasOne(i: nat)
    ensures Has(1, i) == (i == 0)
  {
    if i > 0 { HasTail(0, i - 1); }
  }

  lemma HasPow2(k: nat, i: nat)
    ensures Has(Pow2(k), i) == (i == k)
  {
    HasSplit(1, 0, k, i);
    if i < k { HasTail(0, i); } else { HasOne(i - k); }
  }

  lemma HasShl(a: int, n: nat, i: nat)
    ensures Has(Shl(a, n), i) == (n <= i && Has(a, i - n))
  {
    HasSplit(a, 0, n, i);
    if i < n { HasTail(0, i); }
  }

  lemma HasShr(a: int, n: nat, i: nat)
    ensures Has(Shr(a, n), i) == Has(a, i + n)
  {
    var p := Pow2(n);
    assert a == (a / p) * p + a % p;
    HasSplit(a / p, a % p, n, i + n);
  }

  /** A value below `2 ** n` has no bit at or above `n`. */
  lemma HighZero(b: int, n: nat, i: nat)
    requires Fits(b, n) && n <= i
    ensures !Has(b, i)
  {
    HasSplit(0, b, n, i);
    HasTail(0, i - n);
  }

  lemma HasMod(a: int, n: nat, i: nat)
    ensures Has(a % Pow2(n), i) == (i < n && Has(a, i))
  {
    var p := Pow2(n);
    assert a == (a / p) * p + a % p;
    HasSplit(a / p, a % p, n, i);
    if n <= i { HighZero(a % p, n, i); }
  }

  // ---------------------------------------------------------------------
  // From bits back to numbers

  /** Two numbers with the same bits are equal. */
  lemma {:induction false} Extensional(a: int, b: int)
    requires forall i: nat :: Has(a, i) == Has(b, i)
    ensures a == b
    decreases Mag(a) + Mag(b)
  {
    assert Has(a, 0) == Has(b, 0);
    if !(IsTail(a) && IsTail(b)) {
      forall i: nat
        ensures Has(a / 2, i) == Has(b / 2, i)
      {
        assert Has(a, i + 1) == Has(b, i + 1);
      }
      MagHalf(a); MagHalf(b);
      Extensional(a / 2, b / 2);
    }
  }

  lemma {:induction false} Pow2Above(k: nat)
    ensures k < Pow2(k)
    decreases k
  {
    if k > 0 { Pow2Above(k - 1); }
  }

  lemma {:induction false} Pow2Mono(j: nat, k: nat)
    requires j <= k
    ensures Pow2(j) <= Pow2(k)
    decreases k
  {
    if j < k { Pow2Mono(j, k - 1); }
  }

  lemma {:induction false} Pow2Add(a: nat, b: nat)
    ensures Pow2(a + b) == Pow2(a) * Pow2(b)
    decreases a
  {
    if a > 0 {
      Pow2Add(a - 1, b);
    }
  }

  lemma Pow2Succ(k: nat)
    ensures Pow2(k + 1) == 2 * Pow2(k)
  {}

  /** A single square below 64 is a word. */
  lemma Pow2IsWord(k: nat)
    requires k < 64
    ensures IsWord(Pow2(k))
  {
    Pow2Word();
    Pow2Strict(k, 64);
  }

  /** `1 << 8`, the first value outside a byte. */
  lemma Pow2Byte()
    ensures Pow2(8) == 256
  {}

  lemma Pow2Word()
    ensures Pow2(64) == Word
  {
    Pow2Byte();
    Pow2Add(8, 8);
    assert Pow2(16) == 0x1_0000;
    Pow2Add(16, 16);
    assert Pow2(32) == 0x1_0000_0000;
    Pow2Add(32, 32);
  }

  /** Far enough up, every bit of a number is its sign. */
  lemma {:induction false} SignBit(x: int, n: nat)
    requires Mag(x) < Pow2(n)
    ensures Has(x, n) == (x < 0)
    decreases n
  {
    if n > 0 {
      MagHalf(x);
      SignBit(x / 2, n - 1);
    }
  }

  /** A number with no bit at or above `n` lies in `0 .. 2 ** n - 1`. */
  lemma BitsFit(b: int, n: nat)
    requires forall i: nat :: n <= i ==> !Has(b, i)
    ensures Fits(b, n)
  {
    var top := Mag(b) + n;
    Pow2Above(top);
    Pow2Mono(Mag(b), top);
    SignBit(b, top);
    var q := Shr(b, n);
    forall i: nat
      ensures Has(q, i) == Has(0, i)
    {
      HasShr(b, n, i);
      HasTail(0, i);
    }
    Extensional(q, 0);
    assert b == q * Pow2(n) + b % Pow2(n);
  }

  lemma {:induction false} ZeroRangeHalf(x: int, lo: nat, hi: nat)
    requires 1 <= lo <= hi
    ensures ZeroRange(x, lo, hi) == ZeroRange(x / 2, lo - 1, hi - 1)
    decreases hi - lo
  {
    if lo < hi { ZeroRangeHalf(x, lo + 1, hi); }
  }

  /** `ZeroRange` as a quantified statement. */
  predicate NoneIn(x: int, lo: nat, hi: nat)
  {
    forall k: nat :: lo <= k < hi ==> !Has(x, k)
  }

  lemma {:induction false} ZeroRangeAll(x: int, lo: nat, hi: nat)
    ensures ZeroRange(x, lo, hi) == NoneIn(x, lo, hi)
    decreases hi - lo
  {
    if lo < hi {
      ZeroRangeAll(x, lo + 1, hi);
      if Has(x, lo) {
        assert !NoneIn(x, lo, hi);
      }
    }
  }

  /** Bits of `x - 1`: the borrow flips every bit up to the lowest set one. */
  lemma {:induction false} Decrement(x: int, j: nat)
    ensures Has(x - 1, j) == (Has(x, j) != ZeroRange(x, 0, j))
    decreases j
  {
    if j > 0 {
      ZeroRangeHalf(x, 1, j);
      if x % 2 == 1 {
        assert (x - 1) / 2 == x / 2;
      } else {
        assert (x - 1) / 2 == x / 2 - 1;
        Decrement(x / 2, j - 1);
      }
    }
  }

  /** Bits of `x - 2 ** k`: a borrow runs from bit `k` up to the first set bit of `x`. */
  lemma {:induction false} SubPower(x: int, k: nat, j: nat)
    ensures j < k ==> Has(x - Pow2(k), j) == Has(x, j)
    ensures k <= j ==> Has(x - Pow2(k), j) == (Has(x, j) != ZeroRange(x, k, j))
    decreases k
  {
    if k == 0 {
      Decrement(x, j);
    } else if j > 0 {
      assert (x - Pow2(k)) / 2 == x / 2 - Pow2(k - 1);
      SubPower(x / 2, k - 1, j - 1);
      if k <= j { ZeroRangeHalf(x, k, j); }
    }
  }

  /** The mask `2 ** n - 1` has exactly the bits below `n`. */
  lemma LowMask(n: nat, i: nat)
    ensures Has(Pow2(n) - 1, i) == (i < n)
  {
    Decrement(Pow2(n), i);
    HasPow2(n, i);
    ZeroRangeAll(Pow2(n), 0, i);
    if n < i {
      HasPow2(n, n);
    } else {
      forall k: nat | k < i
        ensures !Has(Pow2(n), k)
      {
        HasPow2(n, k);
      }
    }
  }

  /** `v & (2 ** n - 1)` keeps the low `n` bits: it is `v % 2 ** n`. */
  lemma MaskIsMod(v: int, n: nat)
    ensures And(v, Pow2(n) - 1) == v % Pow2(n)
  {
    forall i: nat
      ensures Has(And(v, Pow2(n) - 1), i) == Has(v % Pow2(n), i)
    {
      HasAnd(v, Pow2(n) - 1, i);
      LowMask(n, i);
      HasMod(v, n, i);
    }
    Extensional(And(v, Pow2(n) - 1), v % Pow2(n));
  }

  // ---------------------------------------------------------------------
  // The lowest set bit, `b & -b`

  /** Index of the lowest set bit of a non-zero number. */
  function Lowest(b: int): (l: nat)
    requires b != 0
    ensures Has(b, l)
    ensures forall j: nat :: j < l ==> !Has(b, j)
    decreases Mag(b)
  {
    if b % 2 == 1 then 0
    else
      MagHalf(b);
      1 + Lowest(b / 2)
  }

  /** `b & -b` isolates the lowest set bit. */
  lemma LowestIsolated(b: int)
    requires b != 0
    ensures And(b, -b) == Pow2(Lowest(b))
  {
    var l := Lowest(b);
    forall i: nat
      ensures Has(And(b, -b), i) == Has(Pow2(l), i)
    {
      HasAnd(b, -b, i);
      assert -b == Not(b - 1);
      HasNot(b - 1, i);
      Decrement(b, i);
      ZeroRangeAll(b, 0, i);
      HasPow2(l, i);
      assert Has(-b, i) == (Has(b, i) == ZeroRange(b, 0, i));
      if l < i {
        assert !NoneIn(b, 0, i);
      }
    }
    Extensional(And(b, -b), Pow2(l));
  }

  /** Clearing a set bit by `^` subtracts its value. */
  lemma XorSetBit(b: int, k: nat)
    requires Has(b, k)
    ensures Xor(b, Pow2(k)) == b - Pow2(k)
  {
    forall j: nat
      ensures Has(Xor(b, Pow2(k)), j) == Has(b - Pow2(k), j)
    {
      HasXor(b, Pow2(k), j);
      HasPow2(k, j);
      SubPower(b, k, j);
      if k < j {
        ZeroRangeAll(b, k, j);
      }
    }
    Extensional(Xor(b, Pow2(k)), b - Pow2(k));
  }

  /** `m & (1 << k)` is `1 << k` when bit `k` of `m` is set and 0 otherwise. */
  lemma AndPow2(m: int, k: nat)
    ensures And(m, Pow2(k)) == if Has(m, k) then Pow2(k) else 0
  {
    var want := if Has(m, k) then Pow2(k) else 0;
    forall i: nat
      ensures Has(And(m, Pow2(k)), i) == Has(want, i)
    {
      HasAnd(m, Pow2(k), i);
      HasPow2(k, i);
      HasTail(0, i);
    }
    Extensional(And(m, Pow2(k)), want);
  }

  /** `0xFF << 8 * r` holds exactly the eight bits whose index divided by 8 is `r`. */
  lemma HasByteAt(r: nat, i: nat)
    ensures Has(Shl(Pow2(8) - 1, 8 * r), i) == (i / 8 == r)
  {
    HasShl(Pow2(8) - 1, 8 * r, i);
    if 8 * r <= i {
      LowMask(8, i - 8 * r);
    }
  }

  /** A word has no bit at or above 64. */
  lemma WordHigh(b: int, i: nat)
    requires IsWord(b) && 64 <= i
    ensures !Has(b, i)
  {
    Pow2Word();
    HighZero(b, 64, i);
  }

  /** A number without bits at or above 64 is a word. */
  lemma WordByBits(b: int)
    requires forall i: nat :: 64 <= i ==> !Has(b, i)
    ensures IsWord(b)
  {
    Pow2Word();
    BitsFit(b, 64);
  }

  /** Placing an `n`-bit number above an `m`-bit one gives an `(m + n)`-bit number. */
  lemma SplitFits(hi: int, lo: int, m: nat, n: nat)
    requires Fits(hi, n) && Fits(lo, m)
    ensures Fits(hi * Pow2(m) + lo, m + n)
  {
    var x := hi * Pow2(m) + lo;
    forall i: nat | m + n <= i
      ensures !Has(x, i)
    {
      HasSplit(hi, lo, m, i);
      HighZero(hi, n, i - m);
    }
    BitsFit(x, m + n);
  }

  /** Distinct powers of two are ordered like their exponents. */
  lemma Pow2Strict(j: nat, k: nat)
    requires j < k
    ensures Pow2(j) < Pow2(k)
  {
    Pow2Mono(j + 1, k);
  }

  /** `&` is symmetric. */
  lemma AndComm(a: int, b: int)
    ensures And(a, b) == And(b, a)
  {
    forall i: nat
      ensures Has(And(a, b), i) == Has(And(b, a), i)
    {
      HasAnd(a, b, i);
      HasAnd(b, a, i);
    }
    Extensional(And(a, b), And(b, a));
  }

  /** `|` is symmetric. */
  lemma OrComm(a: int, b: int)
    ensures Or(a, b) == Or(b, a)
  {
    forall i: nat
      ensures Has(Or(a, b), i) == Has(Or(b, a), i)
    {
      HasOr(a, b, i);
      HasOr(b, a, i);
    }
    Extensional(Or(a, b), Or(b, a));
  }

  /** Shifting a single bit moves it; a right shift past bit 0 loses it. */
  lemma ShlPow2(k: nat, n: nat)
    ensures Shl(Pow2(k), n) == Pow2(k + n)
  {
    Pow2Add(k, n);
  }

  lemma ShrPow2(k: nat, n: nat)
    ensures Shr(Pow2(k), n) == if n <= k then Pow2(k - n) else 0
  {
    if n <= k {
      forall i: nat
        ensures Has(Shr(Pow2(k), n), i) == Has(Pow2(k - n), i)
      {
        HasShr(Pow2(k), n, i);
        HasPow2(k, i + n);
        HasPow2(k - n, i);
      }
      Extensional(Shr(Pow2(k), n), Pow2(k - n));
    } else {
      forall i: nat
        ensures !Has(Shr(Pow2(k), n), i)
      {
        HasShr(Pow2(k), n, i);
        HasPow2(k, i + n);
      }
      BitsFit(Shr(Pow2(k), n), 0);
    }
  }

  /** `|`, `&` and `^` of words are words. */
  lemma OrWord(a: int, b: int)
    requires IsWord(a) && IsWord(b)
    ensures IsWord(Or(a, b))
  {
    forall i: nat | 64 <= i
      ensures !Has(Or(a, b), i)
    {
      HasOr(a, b, i);
      WordHigh(a, i);
      WordHigh(b, i);
    }
    WordByBits(Or(a, b));
  }

  lemma AndWord(a: int, b: int)
    requires IsWord(a) || IsWord(b)
    ensures IsWord(And(a, b))
  {
    forall i: nat | 64 <= i
      ensures !Has(And(a, b), i)
    {
      HasAnd(a, b, i);
      if IsWord(a) { WordHigh(a, i); } else { WordHigh(b, i); }
    }
    WordByBits(And(a, b));
  }

  lemma XorWord(a: int, b: int)
    requires IsWord(a) && IsWord(b)
    ensures IsWord(Xor(a, b))
  {
    forall i: nat | 64 <= i
      ensures !Has(Xor(a, b), i)
    {
      HasXor(a, b, i);
      WordHigh(a, i);
      WordHigh(b, i);
    }
    WordByBits(Xor(a, b));
  }
}
