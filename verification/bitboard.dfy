/** The `BitBoard` value and its bit-level operations
    (`backend/core/engine/bitboard.py`).  Square `i` is bit `i` of the board. */
module BitBoards {
  import opened Wrappers
  import opened Bits
  import opened Pieces

  /** A board number with the piece (or aggregate) it belongs to, if any. */
  datatype BitBoard = BitBoard(board: int, boardType: Option<ColorChessPiece>)

  /** The class invariant every constructor and setter keeps: an unsigned 64-bit value. */
  predicate Valid(bb: BitBoard)
  {
    IsWord(bb.board)
  }

  /** `0xFFFF_FFFF_FFFF_FFFF`, the mask the constructor applies. */
  const WordMask: int := 0xFFFF_FFFF_FFFF_FFFF

  /** `BitBoard(board, board_type)`: accepts `-2**64 <= board < 2**64` and keeps
      the value modulo `2**64`. */
  function New(board: int, t: Option<ColorChessPiece>): (r: Result<BitBoard>)
    ensures r.Err? <==> !(-Word <= board < Word)
    ensures r.Ok? ==> r.value.board == board % Word && r.value.boardType == t
    ensures r.Ok? ==> Valid(r.value)
  {
    Pow2Word();
    MaskIsMod(board, 64);
    if !(-Word <= board < Word) then Err(ValueError)
    else Ok(BitBoard(And(board, WordMask), t))
  }

  /** On a value already in word range the constructor keeps it unchanged. */
  lemma NewWord(board: int, t: Option<ColorChessPiece>)
    requires IsWord(board)
    ensures New(board, t) == Ok(BitBoard(board, t))
  {
    var r := New(board, t);
    assert r.Ok? && r.value.board == board % Word;
    assert board % Word == board;
    assert r.value == BitBoard(board, t);
  }

  /** A negative value in range becomes its 64-bit two's-complement pattern. */
  lemma NewNegative(board: int, t: Option<ColorChessPiece>)
    requires -Word <= board < 0
    ensures New(board, t) == Ok(BitBoard(board + Word, t))
  {
    var r := New(board, t);
    assert r.Ok? && r.value.board == board % Word;
    assert board % Word == board + Word;
    assert r.value == BitBoard(board + Word, t);
  }

  /** `set_board`: accepts only `0 <= board < 2**64`. */
  function SetBoard(bb: BitBoard, board: int): (r: Result<BitBoard>)
    ensures r.Ok? <==> IsWord(board)
    ensures r.Ok? ==> r.value == bb.(board := board)
  {
    if !(0 <= board < Word) then Err(ValueError)
    else Ok(bb.(board := board))
  }

  /** Bits of `b | (1 << sq)`. */
  lemma SetBitBits(b: int, sq: nat)
    ensures forall i: nat :: Has(Or(b, Shl(1, sq)), i) == (i == sq || Has(b, i))
  {
    assert Shl(1, sq) == Pow2(sq);
    forall i: nat
      ensures Has(Or(b, Shl(1, sq)), i) == (i == sq || Has(b, i))
    {
      HasOr(b, Pow2(sq), i);
      HasPow2(sq, i);
    }
  }

  /** Bits of `b & ~(1 << sq)`. */
  lemma ClearBitBits(b: int, sq: nat)
    ensures forall i: nat :: Has(And(b, Not(Shl(1, sq))), i) == (i != sq && Has(b, i))
  {
    assert Shl(1, sq) == Pow2(sq);
    forall i: nat
      ensures Has(And(b, Not(Shl(1, sq))), i) == (i != sq && Has(b, i))
    {
      HasAnd(b, Not(Pow2(sq)), i);
      HasNot(Pow2(sq), i);
      HasPow2(sq, i);
    }
  }

  /** A number whose bits outside a word are all bits of a word is a word. */
  lemma KeepsWord(b: int, ref: int)
    requires IsWord(ref)
    requires forall i: nat :: Has(b, i) ==> Has(ref, i) || i < 64
    ensures IsWord(b)
  {
    forall i: nat | 64 <= i
      ensures !Has(b, i)
    {
      WordHigh(ref, i);
    }
    WordByBits(b);
  }

  /** `set_bit`: raises unless `0 <= sq < 64`; otherwise sets bit `sq` and nothing else. */
  function SetBit(bb: BitBoard, sq: int): (r: Result<BitBoard>)
    ensures r.Ok? <==> 0 <= sq < 64
    ensures r.Ok? ==> r.value.boardType == bb.boardType
    ensures r.Ok? ==> forall i: nat :: Has(r.value.board, i) == (i == sq || Has(bb.board, i))
    ensures r.Ok? && Valid(bb) ==> Valid(r.value)
  {
    if !(0 <= sq < 64) then Err(ValueError)
    else
      var b := Or(bb.board, Shl(1, sq));
      SetBitBits(bb.board, sq);
      assert Valid(bb) ==> IsWord(b) by {
        if Valid(bb) { KeepsWord(b, bb.board); }
      }
      Ok(bb.(board := b))
  }

  /** `clear_bit`: raises unless `0 <= sq < 64`; otherwise clears bit `sq` and nothing else. */
  function ClearBit(bb: BitBoard, sq: int): (r: Result<BitBoard>)
    ensures r.Ok? <==> 0 <= sq < 64
    ensures r.Ok? ==> r.value.boardType == bb.boardType
    ensures r.Ok? ==> forall i: nat :: Has(r.value.board, i) == (i != sq && Has(bb.board, i))
    ensures r.Ok? && Valid(bb) ==> Valid(r.value)
  {
    if !(0 <= sq < 64) then Err(ValueError)
    else
      var b := And(bb.board, Not(Shl(1, sq)));
      ClearBitBits(bb.board, sq);
      assert Valid(bb) ==> IsWord(b) by {
        if Valid(bb) { KeepsWord(b, bb.board); }
      }
      Ok(bb.(board := b))
  }

  // ---------------------------------------------------------------------
  // Serialisation

  /** `int(math.log2(p))` for a power of two (exact in floating point up to `2**63`). */
  function Log2(p: int): nat
    requires p >= 1
    decreases p
  {
    if p == 1 then 0 else 1 + Log2(p / 2)
  }

  lemma {:induction false} Log2Pow2(k: nat)
    ensures Log2(Pow2(k)) == k
    decreases k
  {
    if k > 0 { Log2Pow2(k - 1); }
  }

  /** A set bit is worth at least its place value. */
  lemma {:induction false} HasAtLeast(b: int, s: nat)
    requires b >= 0 && Has(b, s)
    ensures b >= Pow2(s)
    decreases s
  {
    if s > 0 { HasAtLeast(b / 2, s - 1); }
  }

  /** What one round of the serialisation loop leaves: every bit except the lowest. */
  lemma DropLowest(b: int, rest: int)
    requires b > 0 && rest == Xor(b, And(b, -b))
    ensures And(b, -b) == Pow2(Lowest(b))
    ensures rest == b - Pow2(Lowest(b)) >= 0
    ensures forall i: nat :: Has(rest, i) == (i != Lowest(b) && Has(b, i))
    ensures forall i: nat :: Has(rest, i) ==> Lowest(b) < i
  {
    var l := Lowest(b);
    LowestIsolated(b);
    XorSetBit(b, l);
    HasAtLeast(b, l);
    forall i: nat
      ensures Has(Xor(b, Pow2(l)), i) == (i != l && Has(b, i))
    {
      HasXor(b, Pow2(l), i);
      HasPow2(l, i);
    }
  }

  lemma NoBits()
    ensures forall i: nat :: !Has(0, i)
  {
    forall i: nat
      ensures !Has(0, i)
    {
      HasTail(0, i);
    }
  }

  /** `serialize_board`: the set squares, lowest first, each exactly once. */
  function Serialize(b: int): (r: seq<nat>)
    requires b >= 0
    ensures forall k :: 0 <= k < |r| ==> Has(b, r[k])
    ensures forall s: nat :: Has(b, s) ==> s in r
    ensures forall j, k :: 0 <= j < k < |r| ==> r[j] < r[k]
    decreases b
  {
    if b == 0 then
      NoBits();
      []
    else
      var square := And(b, -b);
      DropLowest(b, Xor(b, square));
      Log2Pow2(Lowest(b));
      [Log2(square)] + Serialize(Xor(b, square))
  }

  /** Number of set bits of a non-negative number. */
  function PopCount(b: nat): nat
  {
    if b == 0 then 0 else b % 2 + PopCount(b / 2)
  }

  lemma {:induction false} PopCountClear(b: int, s: nat)
    requires b >= 0 && Has(b, s)
    ensures b - Pow2(s) >= 0 && PopCount(b) == 1 + PopCount(b - Pow2(s))
    decreases s
  {
    HasAtLeast(b, s);
    var c := b - Pow2(s);
    if s > 0 {
      var p := Pow2(s - 1);
      assert c == 2 * (b / 2 - p) + b % 2;
      assert c / 2 == b / 2 - p && c % 2 == b % 2;
      PopCountClear(b / 2, s - 1);
      assert PopCount(c) == c % 2 + PopCount(c / 2);
    } else {
      assert c / 2 == b / 2 && c % 2 == 0;
      assert PopCount(c) == PopCount(c / 2);
    }
  }

  /** The serialisation lists as many squares as the board has set bits. */
  lemma {:induction false} SerializeLength(b: int)
    requires b >= 0
    ensures |Serialize(b)| == PopCount(b)
    decreases b
  {
    if b != 0 {
      DropLowest(b, Xor(b, And(b, -b)));
      PopCountClear(b, Lowest(b));
      SerializeLength(Xor(b, And(b, -b)));
    }
  }

  /** Bits of `b & (b - 1)`: the lowest set bit is dropped. */
  lemma ClearLowestBits(b: int, i: nat)
    requires b != 0
    ensures Has(And(b, b - 1), i) == (Has(b, i) && i != Lowest(b))
  {
    HasAnd(b, b - 1, i);
    Decrement(b, i);
    ZeroRangeAll(b, 0, i);
    if Has(b, i) && i > Lowest(b) {
      assert !NoneIn(b, 0, i);
    }
  }

  lemma PowerTest(b: int)
    requires b != 0
    ensures And(b, b - 1) == 0 <==> b == Pow2(Lowest(b))
  {
    var l := Lowest(b);
    if And(b, b - 1) == 0 {
      forall i: nat
        ensures Has(b, i) == Has(Pow2(l), i)
      {
        ClearLowestBits(b, i);
        HasTail(0, i);
        HasPow2(l, i);
      }
      Extensional(b, Pow2(l));
    }
    if b == Pow2(l) {
      forall i: nat
        ensures Has(And(b, b - 1), i) == Has(0, i)
      {
        ClearLowestBits(b, i);
        HasTail(0, i);
        HasPow2(l, i);
      }
      Extensional(And(b, b - 1), 0);
    }
  }

  /** `serialize_bit`: the index of the single set bit; raises on 0 or several bits. */
  function SerializeBit(bit: int): (r: Result<nat>)
    ensures r.Ok? ==> bit == Pow2(r.value)
    ensures forall k: nat :: bit == Pow2(k) ==> r == Ok(k)
  {
    if bit == 0 then Err(ValueError)
    else if And(bit, bit - 1) != 0 then
      PowerTest(bit);
      assert forall k: nat :: bit == Pow2(k) ==> k == Lowest(bit) by {
        forall k: nat | bit == Pow2(k)
          ensures k == Lowest(bit)
        {
          HasPow2(k, k);
          HasPow2(k, Lowest(bit));
        }
      }
      Err(ValueError)
    else
      PowerTest(bit);
      LowestIsolated(bit);
      Log2Pow2(Lowest(bit));
      assert forall k: nat :: bit == Pow2(k) ==> k == Lowest(bit) by {
        forall k: nat | bit == Pow2(k)
          ensures k == Lowest(bit)
        {
          HasPow2(k, k);
          HasPow2(k, Lowest(bit));
        }
      }
      Ok(Log2(And(bit, -bit)))
  }

  // ---------------------------------------------------------------------
  // Bit reversal and mirroring

  /** One line of `reverse_bits`: `(x & hi) >> k | (x & lo) << k`. */
  function SwapStep(x: int, hi: int, lo: int, k: nat): int
  {
    Or(Shr(And(x, hi), k), Shl(And(x, lo), k))
  }

  /** `reverse_bits`: the three swap steps of the source. */
  function ReverseBits(x: int): int
  {
    var y := SwapStep(x, 0xF0, 0x0F, 4);
    var z := SwapStep(y, 0xCC, 0x33, 2);
    SwapStep(z, 0xAA, 0x55, 1)
  }

  lemma SwapStepBits(x: int, hi: int, lo: int, k: nat, j: nat)
    ensures Has(SwapStep(x, hi, lo, k), j) ==
      ((Has(x, j + k) && Has(hi, j + k)) || (k <= j && Has(x, j - k) && Has(lo, j - k)))
  {
    HasOr(Shr(And(x, hi), k), Shl(And(x, lo), k), j);
    HasShr(And(x, hi), k, j);
    HasAnd(x, hi, j + k);
    HasShl(And(x, lo), k, j);
    if k <= j { HasAnd(x, lo, j - k); }
  }

  /** The masks of the first swap: high and low nibble. */
  lemma NibbleMasks(j: nat)
    ensures Has(0xF0, j) == (4 <= j < 8) && Has(0x0F, j) == (j < 4)
  {
    if j >= 8 {
      Pow2Byte();
      HighZero(0xF0, 8, j); HighZero(0x0F, 8, j);
    } else if j < 4 {
      if j == 0 {} else if j == 1 {} else if j == 2 {} else {}
    } else {
      if j == 4 {} else if j == 5 {} else if j == 6 {} else {}
    }
  }

  /** The masks of the second swap: alternate bit pairs. */
  lemma PairMasks(j: nat)
    ensures Has(0xCC, j) == (j < 8 && j % 4 >= 2) && Has(0x33, j) == (j < 8 && j % 4 < 2)
  {
    if j >= 8 {
      Pow2Byte();
      HighZero(0xCC, 8, j); HighZero(0x33, 8, j);
    } else if j < 4 {
      if j == 0 {} else if j == 1 {} else if j == 2 {} else {}
    } else {
      if j == 4 {} else if j == 5 {} else if j == 6 {} else {}
    }
  }

  /** The masks of the third swap: alternate bits. */
  lemma OddEvenMasks(j: nat)
    ensures Has(0xAA, j) == (j < 8 && j % 2 == 1) && Has(0x55, j) == (j < 8 && j % 2 == 0)
  {
    if j >= 8 {
      Pow2Byte();
      HighZero(0xAA, 8, j); HighZero(0x55, 8, j);
    } else if j < 4 {
      if j == 0 {} else if j == 1 {} else if j == 2 {} else {}
    } else {
      if j == 4 {} else if j == 5 {} else if j == 6 {} else {}
    }
  }

  /** The partner of bit `i` in a swap of `k`-bit groups. */
  function Partner(i: nat, k: nat): nat
    requires k in {1, 2, 4}
  {
    if i % (2 * k) >= k then i - k else i + k
  }

  lemma SwapNibbles(x: int)
    ensures forall i: nat :: Has(SwapStep(x, 0xF0, 0x0F, 4), i) == (i < 8 && Has(x, Partner(i, 4)))
  {
    forall i: nat
      ensures Has(SwapStep(x, 0xF0, 0x0F, 4), i) == (i < 8 && Has(x, Partner(i, 4)))
    {
      SwapStepBits(x, 0xF0, 0x0F, 4, i);
      NibbleMasks(i + 4);
      if 4 <= i { NibbleMasks(i - 4); }
      assert i < 8 ==> i % 8 == i;
    }
  }

  lemma SwapPairs(x: int)
    ensures forall i: nat :: Has(SwapStep(x, 0xCC, 0x33, 2), i) == (i < 8 && Has(x, Partner(i, 2)))
  {
    forall i: nat
      ensures Has(SwapStep(x, 0xCC, 0x33, 2), i) == (i < 8 && Has(x, Partner(i, 2)))
    {
      SwapStepBits(x, 0xCC, 0x33, 2, i);
      PairMasks(i + 2);
      assert (i + 2) % 4 >= 2 <==> i % 4 < 2;
      if 2 <= i {
        PairMasks(i - 2);
        assert (i - 2) % 4 < 2 <==> i % 4 >= 2;
      }
    }
  }

  lemma SwapOddEven(x: int)
    ensures forall i: nat :: Has(SwapStep(x, 0xAA, 0x55, 1), i) == (i < 8 && Has(x, Partner(i, 1)))
  {
    forall i: nat
      ensures Has(SwapStep(x, 0xAA, 0x55, 1), i) == (i < 8 && Has(x, Partner(i, 1)))
    {
      SwapStepBits(x, 0xAA, 0x55, 1, i);
      OddEvenMasks(i + 1);
      assert (i + 1) % 2 == 1 <==> i % 2 == 0;
      if 1 <= i {
        OddEvenMasks(i - 1);
        assert (i - 1) % 2 == 0 <==> i % 2 == 1;
      }
    }
  }

  /** Swapping nibbles, then pairs, then single bits sends bit `j` of a byte to `7 - j`. */
  lemma PartnersReverse(j: nat)
    requires j < 8
    ensures Partner(Partner(Partner(j, 1), 2), 4) == 7 - j
  {
    if j < 4 {
      if j < 2 {
        if j < 1 { assert j == 0; } else { assert j == 1; }
      } else {
        if j < 3 { assert j == 2; } else { assert j == 3; }
      }
    } else {
      if j < 6 {
        if j < 5 { assert j == 4; } else { assert j == 5; }
      } else {
        if j < 7 { assert j == 6; } else { assert j == 7; }
      }
    }
  }

  /** Three swap stages, each given by what it does to single bits, reverse a byte. */
  lemma ComposeSwaps(x: int, y: int, z: int, r: int, j: nat)
    requires forall i: nat :: Has(y, i) == (i < 8 && Has(x, Partner(i, 4)))
    requires forall i: nat :: Has(z, i) == (i < 8 && Has(y, Partner(i, 2)))
    requires forall i: nat :: Has(r, i) == (i < 8 && Has(z, Partner(i, 1)))
    ensures Has(r, j) == (j < 8 && Has(x, 7 - j))
  {
    if j < 8 {
      PartnersReverse(j);
      var j1 := Partner(j, 1);
      var j2 := Partner(j1, 2);
      assert j1 < 8 && j2 < 8;
    }
  }

  /** `reverse_bits` reverses the low byte: bit `j` of the result is bit `7 - j` of `x`,
      and nothing above bit 7 is set. */
  lemma ReverseBitsBits(x: int, j: nat)
    ensures Has(ReverseBits(x), j) == (j < 8 && Has(x, 7 - j))
  {
    var y := SwapStep(x, 0xF0, 0x0F, 4);
    var z := SwapStep(y, 0xCC, 0x33, 2);
    SwapNibbles(x);
    SwapPairs(y);
    SwapOddEven(z);
    ComposeSwaps(x, y, z, ReverseBits(x), j);
  }

  lemma ReverseBitsByte(x: int)
    ensures Fits(ReverseBits(x), 8)
  {
    forall i: nat | 8 <= i
      ensures !Has(ReverseBits(x), i)
    {
      ReverseBitsBits(x, i);
    }
    BitsFit(ReverseBits(x), 8);
  }

  /** Reversing a byte twice gives it back. */
  lemma ReverseBitsInvolution(x: int)
    requires 0 <= x < 256
    ensures ReverseBits(ReverseBits(x)) == x
  {
    Pow2Byte();
    forall j: nat
      ensures Has(ReverseBits(ReverseBits(x)), j) == Has(x, j)
    {
      ReverseBitsBits(ReverseBits(x), j);
      if j < 8 { ReverseBitsBits(x, 7 - j); } else { HighZero(x, 8, j); }
    }
    Extensional(ReverseBits(ReverseBits(x)), x);
  }

  /** The low byte of a number and the shift by one byte. */
  lemma ByteFacts(b: int)
    ensures Pow2(8) == 256 && Fits(b % 256, 8) && Shr(b, 8) == b / 256
  {
    Pow2Byte();
  }

  /** Where bit `i` sits inside its byte. */
  lemma ByteOf(i: int, q: int)
    requires 8 * q <= i < 8 * q + 8
    ensures i / 8 == q && i % 8 == i - 8 * q
  {}

  /** Where bit `i` of a byte-swapped `n`-byte number comes from. */
  function SwapIndex(n: nat, i: nat): (j: nat)
    requires i < 8 * n
    ensures j < 8 * n && j / 8 == n - 1 - i / 8 && j % 8 == i % 8
  {
    8 * (n - 1 - i / 8) + i % 8
  }

  /** numpy's `byteswap` as a loop: the low `n` bytes of `b` are pushed, lowest
      first, below the bytes already in `acc`. */
  function PushBytes(b: int, n: nat, acc: int): int
    decreases n
  {
    if n == 0 then acc else PushBytes(b / 256, n - 1, acc * 256 + b % 256)
  }

  lemma {:induction false} PushBytesBits(b: int, n: nat, acc: int, i: nat)
    ensures Has(PushBytes(b, n, acc), i) ==
      if i < 8 * n then Has(b, SwapIndex(n, i)) else Has(acc, i - 8 * n)
    decreases n
  {
    if n > 0 {
      ByteFacts(b);
      var acc' := acc * 256 + b % 256;
      var r := PushBytes(b / 256, n - 1, acc');
      assert PushBytes(b, n, acc) == r;
      PushBytesBits(b / 256, n - 1, acc', i);
      var m := 8 * (n - 1);
      if i < m {
        var k := SwapIndex(n - 1, i);
        assert k + 8 == SwapIndex(n, i);
        assert Has(r, i) == Has(b / 256, k);
        HasShr(b, 8, k);
      } else {
        assert Has(r, i) == Has(acc', i - m);
        HasSplit(acc, b % 256, 8, i - m);
        if i < 8 * n {
          ByteOf(i, n - 1);
          HasMod(b, 8, i - m);
          assert Has(r, i) == Has(b, i - m);
        } else {
          assert Has(r, i) == Has(acc, i - 8 * n);
        }
      }
    }
  }

  /** The low `n` bytes of `b` in reverse order. */
  function SwapBytes(b: int, n: nat): int
  {
    PushBytes(b, n, 0)
  }

  lemma SwapBytesBits(b: int, n: nat, i: nat)
    ensures Has(SwapBytes(b, n), i) == (i < 8 * n && Has(b, SwapIndex(n, i)))
  {
    PushBytesBits(b, n, 0, i);
    if 8 * n <= i { HasTail(0, i - 8 * n); }
  }

  /** `f` reverses the low byte of its argument and clears everything above it. */
  ghost predicate ReversesByte(f: int -> int)
  {
    forall x: int, j: nat :: Has(f(x), j) == (j < 8 && Has(x, 7 - j))
  }

  lemma ReverseBitsReverses()
    ensures ReversesByte(ReverseBits)
  {
    forall x: int, j: nat
      ensures Has(ReverseBits(x), j) == (j < 8 && Has(x, 7 - j))
    {
      ReverseBitsBits(x, j);
    }
  }

  /** The list comprehension of `mirror_horizontal`: `f` applied to each of the low `n`
      bytes of `b`, every byte staying in its place. */
  function MapBytes(f: int -> int, b: int, n: nat): int
    decreases n
  {
    if n == 0 then 0 else MapBytes(f, b / 256, n - 1) * 256 + f(b % 256)
  }

  lemma {:induction false} MapBytesBits(f: int -> int, b: int, n: nat, i: nat)
    requires ReversesByte(f)
    ensures Has(MapBytes(f, b, n), i) == (i < 8 * n && Has(b, FlipFile(i)))
    decreases n
  {
    if n == 0 {
      HasTail(0, i);
    } else {
      ByteFacts(b);
      var rest := MapBytes(f, b / 256, n - 1);
      var lo := f(b % 256);
      assert MapBytes(f, b, n) == rest * 256 + lo;
      forall k: nat | 8 <= k
        ensures !Has(lo, k)
      {}
      BitsFit(lo, 8);
      HasSplit(rest, lo, 8, i);
      if i < 8 {
        assert Has(MapBytes(f, b, n), i) == Has(b % 256, 7 - i);
        HasMod(b, 8, 7 - i);
        ByteOf(i, 0);
      } else {
        assert Has(MapBytes(f, b, n), i) == Has(rest, i - 8);
        MapBytesBits(f, b / 256, n - 1, i - 8);
        var k := FlipFile(i - 8);
        assert k + 8 == FlipFile(i);
        HasShr(b, 8, k);
      }
    }
  }

  /** The square in the same rank and the mirrored file. */
  function FlipFile(i: nat): (j: nat)
    ensures j / 8 == i / 8 && j % 8 == 7 - i % 8
  {
    8 * (i / 8) + 7 - i % 8
  }

  /** The square in the same file and the mirrored rank. */
  function FlipRank(i: nat): (j: nat)
    requires i < 64
    ensures j < 64 && j / 8 == 7 - i / 8 && j % 8 == i % 8
  {
    SwapIndex(8, i)
  }

  /** Vertical mirror of a word: rank `r` goes to rank `7 - r`, the file is kept. */
  function MirrorVerticalWord(b: int): (r: int)
    ensures IsWord(r)
    ensures forall i: nat :: Has(r, i) == (i < 64 && Has(b, FlipRank(i)))
  {
    var r := SwapBytes(b, 8);
    forall i: nat
      ensures Has(r, i) == (i < 64 && Has(b, FlipRank(i)))
    {
      SwapBytesBits(b, 8, i);
    }
    WordByBits(r);
    r
  }

  /** Horizontal mirror of a word: file `f` goes to file `7 - f`, the rank is kept. */
  function MirrorHorizontalWord(b: int): (r: int)
    ensures IsWord(r)
    ensures forall i: nat :: Has(r, i) == (i < 64 && Has(b, FlipFile(i)))
  {
    var r := MapBytes(ReverseBits, b, 8);
    ReverseBitsReverses();
    forall i: nat
      ensures Has(r, i) == (i < 64 && Has(b, FlipFile(i)))
    {
      MapBytesBits(ReverseBits, b, 8, i);
    }
    WordByBits(r);
    r
  }

  /** `mirror_vertical`: square `i` goes to square `i xor 56`. */
  function MirrorVertical(bb: BitBoard): (r: BitBoard)
    requires Valid(bb)
    ensures Valid(r) && r.boardType == bb.boardType
    ensures forall i: nat :: Has(r.board, i) == (i < 64 && Has(bb.board, FlipRank(i)))
  {
    var v := MirrorVerticalWord(bb.board);
    NewWord(v, bb.boardType);
    New(v, bb.boardType).value
  }

  /** `mirror_horizontal`: square `i` goes to square `i xor 7`. */
  function MirrorHorizontal(bb: BitBoard): (r: BitBoard)
    requires Valid(bb)
    ensures Valid(r) && r.boardType == bb.boardType
    ensures forall i: nat :: Has(r.board, i) == (i < 64 && Has(bb.board, FlipFile(i)))
  {
    var v := MirrorHorizontalWord(bb.board);
    NewWord(v, bb.boardType);
    New(v, bb.boardType).value
  }

  /** Flipping the rank and then the file sends a square to its opposite; each flip
      undoes itself. */
  lemma FlipsCompose(i: nat)
    requires i < 64
    ensures FlipRank(FlipFile(i)) == 63 - i
    ensures FlipRank(FlipRank(i)) == i && FlipFile(FlipFile(i)) == i
  {
    var f := FlipFile(i);
    var g := FlipRank(f);
    assert g == 8 * (g / 8) + g % 8;
    var h := FlipRank(i);
    assert FlipRank(h) == 8 * (FlipRank(h) / 8) + FlipRank(h) % 8;
    assert FlipFile(f) == 8 * (FlipFile(f) / 8) + FlipFile(f) % 8;
  }

  /** A square map `m` applied twice in the bit pattern of a word. */
  lemma ComposeMaps(b: int, v: int, r: int)
    requires forall i: nat :: Has(v, i) == (i < 64 && Has(b, FlipRank(i)))
    requires forall i: nat :: Has(r, i) == (i < 64 && Has(v, FlipFile(i)))
    ensures forall i: nat :: Has(r, i) == (i < 64 && Has(b, 63 - i))
  {
    forall i: nat | i < 64
      ensures Has(r, i) == Has(b, 63 - i)
    {
      FlipsCompose(i);
    }
  }

  /** `mirror`: vertical then horizontal, so square `i` goes to square `63 - i`. */
  function Mirror(bb: BitBoard): (r: BitBoard)
    requires Valid(bb)
    ensures Valid(r) && r.boardType == bb.boardType
    ensures forall i: nat :: Has(r.board, i) == (i < 64 && Has(bb.board, 63 - i))
  {
    var v := MirrorVertical(bb);
    var r := MirrorHorizontal(v);
    ComposeMaps(bb.board, v.board, r.board);
    r
  }

  /** A map that undoes itself, applied twice to a word, gives the word back. */
  lemma SelfInverse(b: int, v: int, w: int, rank: bool)
    requires IsWord(b)
    requires forall i: nat :: Has(v, i) == (i < 64 && Has(b, if rank then FlipRank(i) else FlipFile(i)))
    requires forall i: nat :: Has(w, i) == (i < 64 && Has(v, if rank then FlipRank(i) else FlipFile(i)))
    ensures w == b
  {
    forall i: nat
      ensures Has(w, i) == Has(b, i)
    {
      if i < 64 { FlipsCompose(i); } else { WordHigh(b, i); }
    }
    Extensional(w, b);
  }

  /** Each mirror undoes itself. */
  lemma MirrorVerticalInvolution(bb: BitBoard)
    requires Valid(bb)
    ensures MirrorVertical(MirrorVertical(bb)) == bb
  {
    var v := MirrorVertical(bb);
    SelfInverse(bb.board, v.board, MirrorVertical(v).board, true);
  }

  lemma MirrorHorizontalInvolution(bb: BitBoard)
    requires Valid(bb)
    ensures MirrorHorizontal(MirrorHorizontal(bb)) == bb
  {
    var v := MirrorHorizontal(bb);
    SelfInverse(bb.board, v.board, MirrorHorizontal(v).board, false);
  }

  lemma MirrorInvolution(bb: BitBoard)
    requires Valid(bb)
    ensures Mirror(Mirror(bb)) == bb
  {
    var v := Mirror(bb);
    var w := Mirror(v);
    forall i: nat
      ensures Has(w.board, i) == Has(bb.board, i)
    {
      if 64 <= i { WordHigh(bb.board, i); }
    }
    Extensional(w.board, bb.board);
  }

  /** `get_file` and `get_rank`. */
  function GetFile(sq: int): (f: int)
    ensures 0 <= sq < 64 ==> 0 <= f < 8
  {
    sq % 8
  }

  function GetRank(sq: int): (r: int)
    ensures 0 <= sq < 64 ==> 0 <= r < 8
  {
    sq / 8
  }

  /** File and rank determine the square. */
  lemma FileRankSquare(sq: int)
    ensures 8 * GetRank(sq) + GetFile(sq) == sq
  {}
}
