/** The line masks of `engine/bitboard.py`: whole files and ranks, the board's
    edge, and the diagonals, which the source builds by walking square by square
    from the origin until the walk reaches an edge or would wrap around. */
module Masks {
  import opened Wrappers
  import opened Bits
  import opened Squares
  import opened Directions
  import opened BitBoards

  /** `File.A`: one bit in every byte. */
  const FileA: int := 0x0101_0101_0101_0101

  /** `File` member number `f` (`A` is 0) and `Rank` member number `r` (`One` is 0). */
  function FileMask(f: nat): int
  {
    Shl(FileA, f)
  }

  function RankMask(r: nat): int
  {
    Shl(0xFF, 8 * r)
  }

  /** `b` repeated in each of the low `n` bytes. */
  function RepByte(b: int, n: nat): int
  {
    if n == 0 then 0 else RepByte(b, n - 1) * 256 + b
  }

  lemma {:induction false} RepByteBits(b: int, n: nat, i: nat)
    requires 0 <= b < 256
    ensures Has(RepByte(b, n), i) == (i < 8 * n && Has(b, i % 8))
  {
    if n == 0 {
      HighZero(0, 0, i);
    } else {
      Pow2Byte();
      HasSplit(RepByte(b, n - 1), b, 8, i);
      if i >= 8 {
        RepByteBits(b, n - 1, i - 8);
        assert (i - 8) % 8 == i % 8;
      }
    }
  }

  lemma FileABits(i: nat)
    ensures Has(FileA, i) == (i < 64 && i % 8 == 0)
  {
    assert RepByte(1, 8) == FileA;
    RepByteBits(1, 8, i);
    HasOne(i % 8);
  }

  /** File `f` holds the squares whose column is `f`. */
  lemma FileMaskBits(f: nat, i: nat)
    requires f < 8
    ensures Has(FileMask(f), i) == (i < 64 && i % 8 == f)
  {
    HasShl(FileA, f, i);
    if f <= i {
      FileABits(i - f);
    }
  }

  /** Rank `r` holds the squares whose row is `r`. */
  lemma RankMaskBits(r: nat, i: nat)
    ensures Has(RankMask(r), i) == (i / 8 == r)
  {
    Pow2Byte();
    HasByteAt(r, i);
  }

  /** The squares on rank 1, rank 8, file a or file h. */
  predicate OnEdge(sq: int)
  {
    sq / 8 == 0 || sq / 8 == 7 || sq % 8 == 0 || sq % 8 == 7
  }

  /** `Rank.One | Rank.Eight | File.A | File.H`. */
  function Edges(): int
  {
    Or(Or(Or(RankMask(0), RankMask(7)), FileMask(0)), FileMask(7))
  }

  lemma EdgesBits(i: nat)
    ensures Has(Edges(), i) == (i < 64 && OnEdge(i))
  {
    HasOr(Or(Or(RankMask(0), RankMask(7)), FileMask(0)), FileMask(7), i);
    HasOr(Or(RankMask(0), RankMask(7)), FileMask(0), i);
    HasOr(RankMask(0), RankMask(7), i);
    RankMaskBits(0, i);
    RankMaskBits(7, i);
    FileMaskBits(0, i);
    FileMaskBits(7, i);
  }

  /** The edge test of the walk, `current & edges == 0`, on the single bit `2 ** sq`. */
  lemma EdgeTest(sq: nat)
    requires sq < 64
    ensures (And(Pow2(sq), Edges()) != 0) == OnEdge(sq)
  {
    AndComm(Pow2(sq), Edges());
    AndPow2(Edges(), sq);
    EdgesBits(sq);
  }

  /** The square offsets of the four diagonal directions. */
  predicate DiagonalOffset(offset: int)
  {
    offset == 9 || offset == 7 || offset == -7 || offset == -9
  }

  /** The walk's offsets: a diagonal, or the centre `0`, which only ends when the
      origin is already on the edge. */
  predicate WalkOffset(sq: int, offset: int)
  {
    DiagonalOffset(offset) || (offset == 0 && OnEdge(sq))
  }

  /** The rank and file change of one step by a diagonal offset. */
  function RankStep(offset: int): int
  {
    if offset > 0 then 1 else -1
  }

  function FileStep(offset: int): int
  {
    if offset == 9 || offset == -7 then 1 else -1
  }

  /** `t` is reached from `c` by zero or more steps by `offset` that stay on the
      board: the ranks and files advance together, in the offset's two senses. */
  predicate OnRay(c: int, offset: int, t: int)
  {
    0 <= c < 64 && 0 <= t < 64 &&
    if offset == 0 then t == c
    else
      var k := if offset > 0 then t / 8 - c / 8 else c / 8 - t / 8;
      k >= 0 && t % 8 == c % 8 + (if FileStep(offset) == 1 then k else -k)
  }

  /** The walk's check that a step stayed on the board and did not wrap to the
      other side: the target exists and is at king distance at most one. */
  predicate StepOk(c: int, offset: int)
  {
    0 <= c + offset < 64 && Chebyshev(c, c + offset) <= 1
  }

  /** A diagonal step is accepted exactly when both the rank and the file can move. */
  lemma DiagonalStep(c: nat, offset: int)
    requires c < 64 && DiagonalOffset(offset)
    ensures StepOk(c, offset) <==>
      0 <= c / 8 + RankStep(offset) < 8 && 0 <= c % 8 + FileStep(offset) < 8
    ensures StepOk(c, offset) ==>
      (c + offset) / 8 == c / 8 + RankStep(offset) && (c + offset) % 8 == c % 8 + FileStep(offset)
  {
    var d := c + offset;
    var r, f := c / 8, c % 8;
    assert c == 8 * r + f;
    if 0 <= d < 64 {
      var dr, df := RankStep(offset), FileStep(offset);
      if 0 <= f + df < 8 {
        ByteOf(d, r + dr);
      } else {
        ByteOf(d, r + dr + df);
      }
    }
  }

  /** The step from `c` by `offset` stays on the board without wrapping: both the
      rank and the file have room to move (the centre offset never moves). */
  predicate CanStep(c: int, offset: int)
  {
    offset == 0 || (0 <= c / 8 + RankStep(offset) < 8 && 0 <= c % 8 + FileStep(offset) < 8)
  }

  /** When the step is refused, the ray holds nothing but its start. */
  lemma RayBlocked(c: nat, offset: int, t: nat)
    requires c < 64 && !CanStep(c, offset)
    ensures OnRay(c, offset, t) ==> t == c
  {
    if OnRay(c, offset, t) {
      assert t == 8 * (t / 8) + t % 8 && c == 8 * (c / 8) + c % 8;
    }
  }

  /** When the step is accepted, the ray is its start followed by the ray from the
      next square, and that square is the last one of the ray if it lies on the edge. */
  lemma RayAdvance(c: nat, offset: int, t: nat)
    requires c < 64 && DiagonalOffset(offset) && CanStep(c, offset)
    ensures OnRay(c, offset, t) <==> t == c || OnRay(c + offset, offset, t)
    ensures OnEdge(c + offset) && OnRay(c + offset, offset, t) ==> t == c + offset
  {
    DiagonalStep(c, offset);
    assert t == 8 * (t / 8) + t % 8 && c == 8 * (c / 8) + c % 8;
    var d := c + offset;
    assert d == 8 * (d / 8) + d % 8;
  }

  /** `current << offset` for a positive offset, `current >> abs(offset)` otherwise. */
  function Advance(current: int, offset: int): int
  {
    if offset > 0 then Shl(current, offset) else Shr(current, -offset)
  }

  /** The walk's bit moves by the offset and disappears below square 0. */
  lemma AdvanceBit(c: nat, offset: int)
    ensures Advance(Pow2(c), offset) == if c + offset >= 0 then Pow2(c + offset) else 0
  {
    if offset > 0 {
      ShlPow2(c, offset);
    } else {
      ShrPow2(c, -offset);
    }
  }

  /** The tests that end the walk after the shift from `current` to `next`: the bit
      wrapped to a square more than a king step away, passed bit 63 or fell off. */
  predicate Refused(current: int, next: int)
    requires SerializeBit(current).Ok? && (next != 0 ==> SerializeBit(next).Ok?)
  {
    (next != 0 && current != 0 &&
     Chebyshev(SerializeBit(current).value, SerializeBit(next).value) > 1) ||
    next > Pow2(63) || next == 0
  }

  /** The tests read on square numbers: `next` is the bit of `d`, or nothing when
      `d` is below square 0. */
  lemma RefusedSquares(c: nat, d: int, current: int, next: int)
    requires c < 64 && current == Pow2(c)
    requires next == if d >= 0 then Pow2(d) else 0
    ensures SerializeBit(current) == Ok(c) && (next != 0 ==> SerializeBit(next) == Ok(d))
    ensures Refused(current, next) <==> !(0 <= d < 64 && Chebyshev(c, d) <= 1)
  {
    assert SerializeBit(current) == Ok(c);
    if d >= 0 {
      assert SerializeBit(next) == Ok(d);
      if d < 63 {
        Pow2Strict(d, 63);
      } else if d > 63 {
        Pow2Strict(63, d);
      }
    }
  }

  /** On the bit of square `c` the tests refuse exactly the steps that cannot be taken. */
  lemma StopTest(c: nat, offset: int, current: int, next: int)
    requires c < 64 && WalkOffset(c, offset) && current == Pow2(c) && next == Advance(current, offset)
    ensures next == if c + offset >= 0 then Pow2(c + offset) else 0
    ensures SerializeBit(current) == Ok(c) && (next != 0 ==> SerializeBit(next) == Ok(c + offset))
    ensures Refused(current, next) <==> !CanStep(c, offset)
  {
    AdvanceBit(c, offset);
    var d := c + offset;
    RefusedSquares(c, d, current, next);
    if offset != 0 {
      DiagonalStep(c, offset);
    } else {
      assert Chebyshev(c, d) == 0;
    }
  }

  /** The tests of one turn of the loop on `current == 2 ** c`: stop at an edge once
      a step was taken, then shift and stop if the step is refused. The answer is
      the square the walk moves to. */
  function NextSquare(c: nat, offset: int, first: bool): (o: Option<nat>)
    requires c < 64 && WalkOffset(c, offset)
    ensures o.Some? <==> (first || !OnEdge(c)) && CanStep(c, offset)
    ensures o.Some? ==> o.value == c + offset < 64
  {
    var current := Pow2(c);
    EdgeTest(c);
    if And(current, Edges()) != 0 && !first then None
    else
      var next := Advance(current, offset);
      StopTest(c, offset, current, next);
      if Refused(current, next) then None
      else
        assert 0 <= c + offset < 64 by {
          if offset != 0 { DiagonalStep(c, offset); }
        }
        Some(c + offset)
  }

  /** Adding the bit of square `d` to the path. */
  lemma GrowPath(path: int, d: nat, next: int, grown: int)
    requires next == Pow2(d) && grown == Or(path, next)
    ensures forall t: nat :: Has(grown, t) <==> Has(path, t) || t == d
  {
    forall t: nat
      ensures Has(grown, t) <==> Has(path, t) || t == d
    {
      HasOr(path, next, t);
      HasPow2(d, t);
    }
  }

  /** The squares collected after an accepted step are the ray from the square
      before it. */
  lemma WalkAdvance(c: nat, d: nat, offset: int, path: int, grown: int, rest: int)
    requires c < 64 && WalkOffset(c, offset) && CanStep(c, offset) && d == c + offset && Has(path, c)
    requires forall t: nat :: Has(grown, t) <==> Has(path, t) || t == d
    requires forall t: nat :: Has(rest, t) <==> Has(grown, t) || ((false || !OnEdge(d)) && OnRay(d, offset, t))
    ensures forall t: nat :: Has(rest, t) <==> Has(path, t) || OnRay(c, offset, t)
  {
    forall t: nat
      ensures Has(rest, t) <==> Has(path, t) || OnRay(c, offset, t)
    {
      if offset != 0 {
        RayAdvance(c, offset, t);
      }
    }
  }

  /** The loop of `generate_diagonal_path_to_edge_of_board` from `current == 2 ** c`:
      `path` holds the squares so far and `first` says that no step was taken yet. */
  function WalkFrom(c: nat, path: int, offset: int, first: bool): (r: int)
    requires c < 64 && WalkOffset(c, offset) && Has(path, c)
    ensures forall t: nat :: Has(r, t) <==> Has(path, t) || ((first || !OnEdge(c)) && OnRay(c, offset, t))
    decreases if offset > 0 then 64 - c else c, if first then 1 else 0
  {
    match NextSquare(c, offset, first)
    case None =>
      assert forall t: nat :: (first || !OnEdge(c)) && OnRay(c, offset, t) ==> Has(path, t) by {
        forall t: nat | (first || !OnEdge(c)) && OnRay(c, offset, t)
          ensures Has(path, t)
        {
          RayBlocked(c, offset, t);
        }
      }
      path
    case Some(d) =>
      var grown := Or(path, Pow2(d));
      GrowPath(path, d, Pow2(d), grown);
      var rest := WalkFrom(d, grown, offset, false);
      WalkAdvance(c, d, offset, path, grown, rest);
      rest
  }

  /** `generate_diagonal_path_to_edge_of_board(origin, offset)`: the origin and every
      square the offset reaches from it before leaving the board. */
  function DiagonalPath(origin: nat, offset: int): (r: int)
    requires origin < 64 && WalkOffset(origin, offset)
    ensures forall t: nat :: Has(r, t) <==> OnRay(origin, offset, t)
    ensures IsWord(r)
  {
    HasPow2(origin, origin);
    var r := WalkFrom(origin, Pow2(origin), offset, true);
    assert forall t: nat :: Has(r, t) <==> OnRay(origin, offset, t) by {
      forall t: nat
        ensures Has(r, t) <==> OnRay(origin, offset, t)
      {
        HasPow2(origin, t);
      }
    }
    WordByBits(r);
    r
  }

  /** The squares of the whole line through `sq` along `d`, in both senses; the
      centre direction's line is the square alone. */
  predicate OnLine(sq: int, d: Direction, t: int)
  {
    0 <= sq < 64 && 0 <= t < 64 &&
    match d
    case N | S => t % 8 == sq % 8
    case E | W => t / 8 == sq / 8
    case NE | SW => t % 8 - sq % 8 == t / 8 - sq / 8
    case NW | SE => t % 8 - sq % 8 == sq / 8 - t / 8
    case C => t == sq
  }

  /** The directions the diagonal walk accepts from `sq`. */
  predicate DiagonalDirection(sq: int, d: Direction)
  {
    d in {NE, NW, SE, SW} || (d == C && OnEdge(sq))
  }

  /** The two opposite rays from a square make up its line. */
  lemma RaysMakeLine(sq: nat, d: Direction, t: nat)
    requires sq < 64 && DiagonalDirection(sq, d)
    ensures OnRay(sq, Step(d), t) || OnRay(sq, -Step(d), t) <==> OnLine(sq, d, t)
  {}

  /** `get_diagonal_mask`: the walks in the direction and in the opposite one. */
  function GetDiagonalMask(sq: nat, d: Direction): (r: int)
    requires sq < 64 && DiagonalDirection(sq, d)
    ensures forall t: nat :: Has(r, t) <==> OnLine(sq, d, t)
    ensures IsWord(r)
  {
    var ahead := DiagonalPath(sq, Step(d));
    var behind := DiagonalPath(sq, -Step(d));
    var r := Or(ahead, behind);
    assert forall t: nat :: Has(r, t) <==> OnLine(sq, d, t) by {
      forall t: nat
        ensures Has(r, t) <==> OnLine(sq, d, t)
      {
        HasOr(ahead, behind, t);
        RaysMakeLine(sq, d, t);
      }
    }
    WordByBits(r);
    r
  }

  /** `generate_mask`: the file for north and south, the rank for east and west,
      otherwise the diagonal through the square. */
  function GenerateMask(sq: nat, d: Direction): (r: int)
    requires sq < 64 && (d != C || OnEdge(sq))
    ensures forall t: nat :: Has(r, t) <==> OnLine(sq, d, t)
    ensures IsWord(r)
  {
    if d == N || d == S then
      var r := Shl(FileA, GetFile(sq));
      assert forall t: nat :: Has(r, t) <==> OnLine(sq, d, t) by {
        forall t: nat
          ensures Has(r, t) <==> OnLine(sq, d, t)
        {
          FileMaskBits(sq % 8, t);
        }
      }
      WordByBits(r);
      r
    else if d == E || d == W then
      var r := Shl(0xFF, 8 * GetRank(sq));
      assert forall t: nat :: Has(r, t) <==> OnLine(sq, d, t) by {
        forall t: nat
          ensures Has(r, t) <==> OnLine(sq, d, t)
        {
          RankMaskBits(sq / 8, t);
        }
      }
      WordByBits(r);
      r
    else
      GetDiagonalMask(sq, d)
  }

  /** Lines do not depend on the sense: a square's line along `d` and along the
      reverse direction are the same mask. */
  lemma GenerateMaskReverse(sq: nat, d: Direction)
    requires sq < 64 && (d != C || OnEdge(sq))
    ensures GenerateMask(sq, Reverse(d)) == GenerateMask(sq, d)
  {
    var a := GenerateMask(sq, d);
    var b := GenerateMask(sq, Reverse(d));
    forall t: nat
      ensures Has(a, t) == Has(b, t)
    {
      assert OnLine(sq, d, t) == OnLine(sq, Reverse(d), t);
    }
    Extensional(a, b);
  }

  /** Two squares lie on each other's line: `t` is in the mask of `sq` exactly
      when `sq` is in the mask of `t`. */
  lemma GenerateMaskSymmetric(sq: nat, t: nat, d: Direction)
    requires sq < 64 && t < 64 && d != C
    ensures Has(GenerateMask(sq, d), t) == Has(GenerateMask(t, d), sq)
  {
    assert OnLine(sq, d, t) == OnLine(t, d, sq);
  }

  /** Every mask holds its own square. */
  lemma GenerateMaskHoldsSquare(sq: nat, d: Direction)
    requires sq < 64 && (d != C || OnEdge(sq))
    ensures Has(GenerateMask(sq, d), sq)
  {
    assert OnLine(sq, d, sq);
  }
}
