/** Shift-and-mask attacks of the pieces that jump (`generate_pawn_attacks`,
    `generate_knight_attacks` and `generate_king_attacks` of
    `engine/move_generators.py`).

    Each attack set is a union of shifts of the piece board. Before a shift the
    pieces the shift would carry over an edge are masked away with the ranks and
    files they stand on; the lemmas below show that what is left is exactly the
    geometric move: so many ranks up or down and so many files left or right. */
module Leapers {
  import opened Wrappers
  import opened Bits
  import opened Squares
  import opened Pieces
  import opened BitBoards
  import opened Masks

  /** `(b & ~ex) << n` for a positive `n`, `(b & ~ex) >> -n` otherwise. */
  function Jump(b: int, ex: int, n: int): int
  {
    if n > 0 then Shl(And(b, Not(ex)), n) else Shr(And(b, Not(ex)), -n)
  }

  /** `t` lies `dr` ranks above and `df` files right of `s`, both on the board. */
  predicate Offset(s: int, t: int, dr: int, df: int)
  {
    0 <= s < 64 && 0 <= t < 64 && t / 8 == s / 8 + dr && t % 8 == s % 8 + df
  }

  /** `ex` holds exactly the squares that a jump of `dr` ranks and `df` files
      would carry off the board. */
  predicate Guards(ex: int, dr: int, df: int)
  {
    forall s: nat :: s < 64 ==> (Has(ex, s) <==> !(0 <= s / 8 + dr < 8 && 0 <= s % 8 + df < 8))
  }

  /** `ex` holds exactly the squares a jump of `df` files would carry over a side edge. */
  predicate FileGuards(ex: int, df: int)
  {
    forall s: nat :: s < 64 ==> (Has(ex, s) <==> !(0 <= s % 8 + df < 8))
  }

  lemma JumpBits(b: int, ex: int, n: int, t: nat)
    ensures Has(Jump(b, ex, n), t) == (0 <= t - n && Has(b, t - n) && !Has(ex, t - n))
  {
    if n > 0 {
      HasShl(And(b, Not(ex)), n, t);
      if n <= t {
        HasAnd(b, Not(ex), t - n);
        HasNot(ex, t - n);
      }
    } else {
      HasShr(And(b, Not(ex)), -n, t);
      HasAnd(b, Not(ex), t - n);
      HasNot(ex, t - n);
    }
  }

  /** Offsets add up: the target square number is the origin's plus `8 * dr + df`. */
  lemma OffsetSum(s: int, t: int, dr: int, df: int)
    requires 0 <= s < 64 && 0 <= t < 64
    ensures Offset(s, t, dr, df) <==>
      t == s + 8 * dr + df && 0 <= s / 8 + dr < 8 && 0 <= s % 8 + df < 8
  {
    if t == s + 8 * dr + df && 0 <= s / 8 + dr < 8 && 0 <= s % 8 + df < 8 {
      ByteOf(t, s / 8 + dr);
    }
  }

  /** A piece of `b` stands `dr` ranks below and `df` files left of `t`. */
  predicate Lands(b: int, t: int, dr: int, df: int)
  {
    var s := t - (8 * dr + df);
    0 <= s && Has(b, s) && Offset(s, t, dr, df)
  }

  /** A guarded jump lands every piece exactly `dr` ranks and `df` files away. */
  lemma GuardedJump(b: int, ex: int, dr: int, df: int, t: nat)
    requires IsWord(b) && Guards(ex, dr, df)
    ensures Has(Jump(b, ex, 8 * dr + df), t) <==> Lands(b, t, dr, df)
  {
    var n := 8 * dr + df;
    JumpBits(b, ex, n, t);
    if 0 <= t - n && Has(b, t - n) {
      var s := t - n;
      if s >= 64 {
        WordHigh(b, s);
      }
      if 0 <= s / 8 + dr < 8 && 0 <= s % 8 + df < 8 {
        ByteOf(t, s / 8 + dr);
      }
    }
  }

  /** The result of a guarded jump of a word is a word. */
  lemma GuardedJumpWord(b: int, ex: int, dr: int, df: int)
    requires IsWord(b) && Guards(ex, dr, df)
    ensures IsWord(Jump(b, ex, 8 * dr + df))
  {
    var j := Jump(b, ex, 8 * dr + df);
    forall t: nat | 64 <= t
      ensures !Has(j, t)
    {
      GuardedJump(b, ex, dr, df, t);
    }
    WordByBits(j);
  }

  /** A jump masked only against the side edges: the rank may leave the board. */
  lemma FileGuardedJump(b: int, ex: int, dr: int, df: int, t: nat)
    requires IsWord(b) && FileGuards(ex, df)
    ensures Has(Jump(b, ex, 8 * dr + df), t) <==>
      0 <= t - (8 * dr + df) && Has(b, t - (8 * dr + df)) && 0 <= (t - (8 * dr + df)) % 8 + df < 8
  {
    var n := 8 * dr + df;
    JumpBits(b, ex, n, t);
    if 0 <= t - n && Has(b, t - n) && t - n >= 64 {
      WordHigh(b, t - n);
    }
  }

  lemma Or3Bits(a: int, b: int, c: int, i: nat)
    ensures Has(Or(Or(a, b), c), i) == (Has(a, i) || Has(b, i) || Has(c, i))
  {
    HasOr(Or(a, b), c, i);
    HasOr(a, b, i);
  }

  // ---------------------------------------------------------------------
  // Pawns

  /** The rank a pawn of colour `c` attacks towards: up for White, down for Black. */
  function Forward(c: Color): int
  {
    if c == White then 1 else if c == Black then -1 else 0
  }

  /** A pawn of colour `c` on `s` attacks `t`: one rank forward, one file aside. */
  predicate PawnCapture(c: Color, s: int, t: int)
  {
    c != AnyColor && OnBoard(s) && OnBoard(t) &&
    t / 8 - s / 8 == Forward(c) && Abs(t % 8 - s % 8) == 1
  }

  lemma FileGuardsEdges()
    ensures FileGuards(FileMask(7), 1) && FileGuards(FileMask(0), -1)
  {
    forall s: nat | s < 64
      ensures Has(FileMask(7), s) <==> !(0 <= s % 8 + 1 < 8)
      ensures Has(FileMask(0), s) <==> !(0 <= s % 8 - 1 < 8)
    {
      FileMaskBits(7, s);
      FileMaskBits(0, s);
    }
  }

  /** Lines 155-160: the east and west captures, shifted as the colour says. */
  function PawnJumps(pawns: int, c: Color): (r: Option<int>)
    ensures r.Some? <==> c != AnyColor
  {
    match c
    case White =>
      var east := Jump(pawns, FileMask(7), 9);
      var west := Jump(pawns, FileMask(0), 7);
      Some(Or(east, west))
    case Black =>
      var east := Jump(pawns, FileMask(7), -7);
      var west := Jump(pawns, FileMask(0), -9);
      Some(Or(east, west))
    case AnyColor => None
  }

  /** The pawn one rank behind `t` and `df` files to its other side exists and
      the shift for that side keeps it: bit `t` of that side's shifted board. */
  predicate Side(pawns: int, c: Color, df: int, t: nat)
  {
    var s := t - (8 * Forward(c) + df);
    0 <= s && Has(pawns, s) && 0 <= s % 8 + df < 8
  }

  /** Bit `t` of the pawn attacks comes from one of the two shifted boards. */
  lemma PawnJumpsSides(pawns: int, c: Color, t: nat)
    requires IsWord(pawns) && c != AnyColor
    ensures Has(PawnJumps(pawns, c).value, t) <==> Side(pawns, c, 1, t) || Side(pawns, c, -1, t)
  {
    FileGuardsEdges();
    var dr := Forward(c);
    var east := Jump(pawns, FileMask(7), 8 * dr + 1);
    var west := Jump(pawns, FileMask(0), 8 * dr - 1);
    assert PawnJumps(pawns, c).value == Or(east, west);
    HasOr(east, west, t);
    FileGuardedJump(pawns, FileMask(7), dr, 1, t);
    FileGuardedJump(pawns, FileMask(0), dr, -1, t);
  }

  /** A pawn kept by one side's shift attacks `t`. */
  lemma SideCapture(pawns: int, c: Color, df: int, t: nat)
    requires IsWord(pawns) && c != AnyColor && (df == 1 || df == -1) && t < 64
    requires Side(pawns, c, df, t)
    ensures var s := t - (8 * Forward(c) + df);
      0 <= s < 64 && Has(pawns, s) && PawnCapture(c, s, t)
  {
    var dr := Forward(c);
    var s := t - (8 * dr + df);
    if s >= 64 {
      WordHigh(pawns, s);
    }
    ByteOf(t, s / 8 + dr);
    OffsetSum(s, t, dr, df);
  }

  /** A pawn attacking `t` is kept by the shift for its side. */
  lemma CaptureSide(pawns: int, c: Color, s: nat, t: nat)
    requires c != AnyColor && t < 64 && Has(pawns, s) && PawnCapture(c, s, t)
    ensures t % 8 - s % 8 == 1 || t % 8 - s % 8 == -1
    ensures Side(pawns, c, t % 8 - s % 8, t)
  {
    OffsetSum(s, t, Forward(c), t % 8 - s % 8);
  }

  /** On the board, the pawn attacks are the two diagonal forward squares of
      every pawn. */
  lemma PawnJumpsOnBoard(pawns: int, c: Color, t: nat)
    requires IsWord(pawns) && c != AnyColor && t < 64
    ensures Has(PawnJumps(pawns, c).value, t) <==> exists s: nat :: Has(pawns, s) && PawnCapture(c, s, t)
  {
    PawnJumpsSides(pawns, c, t);
    if Has(PawnJumps(pawns, c).value, t) {
      var df := if Side(pawns, c, 1, t) then 1 else -1;
      SideCapture(pawns, c, df, t);
      var s: nat := t - (8 * Forward(c) + df);
      assert Has(pawns, s) && PawnCapture(c, s, t);
    }
    if exists s: nat :: Has(pawns, s) && PawnCapture(c, s, t) {
      var s: nat :| Has(pawns, s) && PawnCapture(c, s, t);
      CaptureSide(pawns, c, s, t);
    }
  }

  /** Above the board, only a White pawn on the last rank leaves a bit. */
  lemma PawnJumpsAbove(pawns: int, c: Color, t: nat)
    requires IsWord(pawns) && c != AnyColor && 64 <= t
    ensures Has(PawnJumps(pawns, c).value, t) <==>
      c == White && ((Has(pawns, t - 9) && (t - 9) % 8 != 7) || (Has(pawns, t - 7) && (t - 7) % 8 != 0))
  {
    PawnJumpsSides(pawns, c, t);
    if c == Black {
      WordHigh(pawns, t + 7);
      WordHigh(pawns, t + 9);
    }
  }

  /** Bit by bit, the pawn attacks are the two diagonal forward squares of every
      pawn; only a white pawn on the last rank reaches past bit 63. */
  lemma PawnJumpsBits(pawns: int, c: Color, t: nat)
    requires IsWord(pawns) && c != AnyColor
    ensures t < 64 ==> (Has(PawnJumps(pawns, c).value, t) <==>
      exists s: nat :: Has(pawns, s) && PawnCapture(c, s, t))
    ensures 64 <= t ==> (Has(PawnJumps(pawns, c).value, t) <==>
      c == White && ((Has(pawns, t - 9) && (t - 9) % 8 != 7) || (Has(pawns, t - 7) && (t - 7) % 8 != 0)))
  {
    if t < 64 {
      PawnJumpsOnBoard(pawns, c, t);
    } else {
      PawnJumpsAbove(pawns, c, t);
    }
  }

  /** No pawn attack bit lies above bit 72, so the value is not negative. */
  lemma PawnJumpsNonNegative(pawns: int, c: Color)
    requires IsWord(pawns) && c != AnyColor
    ensures 0 <= PawnJumps(pawns, c).value
  {
    var a := PawnJumps(pawns, c).value;
    forall t: nat | 73 <= t
      ensures !Has(a, t)
    {
      PawnJumpsBits(pawns, c, t);
      WordHigh(pawns, t - 9);
      WordHigh(pawns, t - 7);
    }
    BitsFit(a, 73);
  }

  /** Without a white pawn on the last rank, no attack bit lies above bit 63. */
  lemma PawnJumpsHigh(pawns: int, c: Color, t: nat)
    requires IsWord(pawns) && c != AnyColor && 64 <= t
    requires !(c == White && exists s: nat :: 56 <= s < 64 && Has(pawns, s))
    ensures !Has(PawnJumps(pawns, c).value, t)
  {
    PawnJumpsBits(pawns, c, t);
    if c == White {
      assert !(t - 9 < 64 && Has(pawns, t - 9) && (t - 9) % 8 != 7);
      assert !(t - 7 < 64 && Has(pawns, t - 7) && (t - 7) % 8 != 0);
      if t - 9 >= 64 {
        WordHigh(pawns, t - 9);
      }
      if t - 7 >= 64 {
        WordHigh(pawns, t - 7);
      }
    }
  }

  /** The pawn attack value is never negative, and it leaves the word range
      exactly when a white pawn stands on the last rank. */
  lemma PawnJumpsRange(pawns: int, c: Color)
    requires IsWord(pawns) && c != AnyColor
    ensures 0 <= PawnJumps(pawns, c).value
    ensures IsWord(PawnJumps(pawns, c).value) <==>
      !(c == White && exists s: nat :: 56 <= s < 64 && Has(pawns, s))
  {
    var a := PawnJumps(pawns, c).value;
    PawnJumpsNonNegative(pawns, c);
    if c == White && exists s: nat :: 56 <= s < 64 && Has(pawns, s) {
      var s: nat :| 56 <= s < 64 && Has(pawns, s);
      var t := if s % 8 != 7 then s + 9 else s + 7;
      PawnJumpsBits(pawns, c, t);
      if IsWord(a) {
        WordHigh(a, t);
      }
    } else {
      forall t: nat | 64 <= t
        ensures !Has(a, t)
      {
        PawnJumpsHigh(pawns, c, t);
      }
      WordByBits(a);
    }
  }

  /** `generate_pawn_attacks`: the squares diagonally in front of the pawns. A board
      without a piece tag has no colour to read, a tag of no colour leaves the
      attack variables unbound, and a white pawn on the last rank shifts a bit
      past the 64-bit range, which the `BitBoard` constructor refuses. */
  function GeneratePawnAttacks(pawnBoard: BitBoard): (r: Result<BitBoard>)
    requires Valid(pawnBoard)
    ensures pawnBoard.boardType.None? ==> r == Err(AttributeError)
    ensures pawnBoard.boardType.Some? && ColorOf(pawnBoard.boardType.value) == AnyColor ==>
      r == Err(UnboundLocalError)
    ensures pawnBoard.boardType.Some? && ColorOf(pawnBoard.boardType.value) == White ==>
      (r.Err? <==> exists s: nat :: 56 <= s < 64 && Has(pawnBoard.board, s))
    ensures pawnBoard.boardType.Some? && ColorOf(pawnBoard.boardType.value) == Black ==> r.Ok?
    ensures r.Ok? ==> Valid(r.value) && r.value.boardType == None
    ensures r.Ok? ==> forall t: nat :: Has(r.value.board, t) <==>
      exists s: nat :: Has(pawnBoard.board, s) && PawnCapture(ColorOf(pawnBoard.boardType.value), s, t)
  {
    if pawnBoard.boardType.None? then Err(AttributeError)
    else
      var c := ColorOf(pawnBoard.boardType.value);
      match PawnJumps(pawnBoard.board, c)
      case None => Err(UnboundLocalError)
      case Some(attacks) =>
        PawnJumpsRange(pawnBoard.board, c);
        if IsWord(attacks) then
          assert forall t: nat :: Has(attacks, t) <==>
            exists s: nat :: Has(pawnBoard.board, s) && PawnCapture(c, s, t) by {
            forall t: nat
              ensures Has(attacks, t) <==>
                exists s: nat :: Has(pawnBoard.board, s) && PawnCapture(c, s, t)
            {
              PawnJumpsBits(pawnBoard.board, c, t);
              if 64 <= t {
                WordHigh(attacks, t);
              }
            }
          }
          NewWord(attacks, None);
          New(attacks, None)
        else
          New(attacks, None)
  }

  // ---------------------------------------------------------------------
  // Knights

  /** A knight's move: two squares one way and one square the other. */
  predicate KnightStep(s: int, t: int)
  {
    OnBoard(s) && OnBoard(t) &&
    var dr := t / 8 - s / 8;
    var df := t % 8 - s % 8;
    (Abs(dr) == 1 && Abs(df) == 2) || (Abs(dr) == 2 && Abs(df) == 1)
  }

  /** Lines 166-184: the eight jumps, each masked against the ranks and files it
      would carry a knight over. */
  function KnightJumps(knights: int): int
  {
    var nne := Jump(knights, Or(Or(RankMask(6), RankMask(7)), FileMask(7)), 17);
    var nee := Jump(knights, Or(Or(RankMask(7), FileMask(7)), FileMask(6)), 10);
    var nnw := Jump(knights, Or(Or(RankMask(6), RankMask(7)), FileMask(0)), 15);
    var nww := Jump(knights, Or(Or(RankMask(7), FileMask(0)), FileMask(1)), 6);
    var sse := Jump(knights, Or(Or(RankMask(0), RankMask(1)), FileMask(7)), -15);
    var see := Jump(knights, Or(Or(RankMask(0), FileMask(6)), FileMask(7)), -6);
    var ssw := Jump(knights, Or(Or(RankMask(0), RankMask(1)), FileMask(0)), -17);
    var sww := Jump(knights, Or(Or(RankMask(0), FileMask(0)), FileMask(1)), -10);
    Or(Or(Or(Or(Or(Or(Or(nne, nee), nnw), nww), sse), see), ssw), sww)
  }

  /** Each of the knight masks removes exactly the knights its jump would carry
      off the board. */
  lemma KnightGuardsNorth()
    ensures Guards(Or(Or(RankMask(6), RankMask(7)), FileMask(7)), 2, 1)
    ensures Guards(Or(Or(RankMask(7), FileMask(7)), FileMask(6)), 1, 2)
    ensures Guards(Or(Or(RankMask(6), RankMask(7)), FileMask(0)), 2, -1)
    ensures Guards(Or(Or(RankMask(7), FileMask(0)), FileMask(1)), 1, -2)
  {
    forall s: nat | s < 64
      ensures Has(Or(Or(RankMask(6), RankMask(7)), FileMask(7)), s) <==> !(0 <= s / 8 + 2 < 8 && 0 <= s % 8 + 1 < 8)
      ensures Has(Or(Or(RankMask(7), FileMask(7)), FileMask(6)), s) <==> !(0 <= s / 8 + 1 < 8 && 0 <= s % 8 + 2 < 8)
      ensures Has(Or(Or(RankMask(6), RankMask(7)), FileMask(0)), s) <==> !(0 <= s / 8 + 2 < 8 && 0 <= s % 8 - 1 < 8)
      ensures Has(Or(Or(RankMask(7), FileMask(0)), FileMask(1)), s) <==> !(0 <= s / 8 + 1 < 8 && 0 <= s % 8 - 2 < 8)
    {
      Or3Bits(RankMask(6), RankMask(7), FileMask(7), s);
      Or3Bits(RankMask(7), FileMask(7), FileMask(6), s);
      Or3Bits(RankMask(6), RankMask(7), FileMask(0), s);
      Or3Bits(RankMask(7), FileMask(0), FileMask(1), s);
      RankMaskBits(6, s);
      RankMaskBits(7, s);
      FileMaskBits(0, s);
      FileMaskBits(1, s);
      FileMaskBits(6, s);
      FileMaskBits(7, s);
    }
  }

  lemma KnightGuardsSouth()
    ensures Guards(Or(Or(RankMask(0), RankMask(1)), FileMask(7)), -2, 1)
    ensures Guards(Or(Or(RankMask(0), FileMask(6)), FileMask(7)), -1, 2)
    ensures Guards(Or(Or(RankMask(0), RankMask(1)), FileMask(0)), -2, -1)
    ensures Guards(Or(Or(RankMask(0), FileMask(0)), FileMask(1)), -1, -2)
  {
    forall s: nat | s < 64
      ensures Has(Or(Or(RankMask(0), RankMask(1)), FileMask(7)), s) <==> !(0 <= s / 8 - 2 < 8 && 0 <= s % 8 + 1 < 8)
      ensures Has(Or(Or(RankMask(0), FileMask(6)), FileMask(7)), s) <==> !(0 <= s / 8 - 1 < 8 && 0 <= s % 8 + 2 < 8)
      ensures Has(Or(Or(RankMask(0), RankMask(1)), FileMask(0)), s) <==> !(0 <= s / 8 - 2 < 8 && 0 <= s % 8 - 1 < 8)
      ensures Has(Or(Or(RankMask(0), FileMask(0)), FileMask(1)), s) <==> !(0 <= s / 8 - 1 < 8 && 0 <= s % 8 - 2 < 8)
    {
      Or3Bits(RankMask(0), RankMask(1), FileMask(7), s);
      Or3Bits(RankMask(0), FileMask(6), FileMask(7), s);
      Or3Bits(RankMask(0), RankMask(1), FileMask(0), s);
      Or3Bits(RankMask(0), FileMask(0), FileMask(1), s);
      RankMaskBits(0, s);
      RankMaskBits(1, s);
      FileMaskBits(0, s);
      FileMaskBits(1, s);
      FileMaskBits(6, s);
      FileMaskBits(7, s);
    }
  }

  /** The knight's move read as one of eight fixed offsets. */
  lemma KnightStepCases(s: int, t: int)
    requires OnBoard(s) && OnBoard(t)
    ensures KnightStep(s, t) <==>
      Offset(s, t, 2, 1) || Offset(s, t, 1, 2) || Offset(s, t, 2, -1) || Offset(s, t, 1, -2) ||
      Offset(s, t, -2, 1) || Offset(s, t, -1, 2) || Offset(s, t, -2, -1) || Offset(s, t, -1, -2)
  {}

  lemma Or8Bits(a: int, b: int, c: int, d: int, e: int, f: int, g: int, h: int, i: nat)
    ensures Has(Or(Or(Or(Or(Or(Or(Or(a, b), c), d), e), f), g), h), i) ==
      (Has(a, i) || Has(b, i) || Has(c, i) || Has(d, i) || Has(e, i) || Has(f, i) || Has(g, i) || Has(h, i))
  {
    Or3Bits(a, b, c, i);
    Or3Bits(Or(Or(a, b), c), d, e, i);
    Or3Bits(Or(Or(Or(Or(a, b), c), d), e), f, g, i);
    HasOr(Or(Or(Or(Or(Or(Or(a, b), c), d), e), f), g), h, i);
  }

  /** The piece that lands on `t` by a given offset is the one `8 * dr + df` below it. */
  lemma LandsAt(b: int, t: int, dr: int, df: int)
    ensures Lands(b, t, dr, df) <==> exists s: nat :: Has(b, s) && Offset(s, t, dr, df)
  {
    if exists s: nat :: Has(b, s) && Offset(s, t, dr, df) {
      var s: nat :| Has(b, s) && Offset(s, t, dr, df);
      OffsetSum(s, t, dr, df);
    }
  }

  /** Some knight of `b` attacks `t` exactly when one lands there by one of the
      eight offsets. */
  lemma KnightLands(b: int, t: nat)
    ensures (exists s: nat :: Has(b, s) && KnightStep(s, t)) <==>
      Lands(b, t, 2, 1) || Lands(b, t, 1, 2) || Lands(b, t, 2, -1) || Lands(b, t, 1, -2) ||
      Lands(b, t, -2, 1) || Lands(b, t, -1, 2) || Lands(b, t, -2, -1) || Lands(b, t, -1, -2)
  {
    LandsAt(b, t, 2, 1);
    LandsAt(b, t, 1, 2);
    LandsAt(b, t, 2, -1);
    LandsAt(b, t, 1, -2);
    LandsAt(b, t, -2, 1);
    LandsAt(b, t, -1, 2);
    LandsAt(b, t, -2, -1);
    LandsAt(b, t, -1, -2);
    forall s: nat | Has(b, s) && OnBoard(s) && OnBoard(t)
      ensures KnightStep(s, t) <==>
        Offset(s, t, 2, 1) || Offset(s, t, 1, 2) || Offset(s, t, 2, -1) || Offset(s, t, 1, -2) ||
        Offset(s, t, -2, 1) || Offset(s, t, -1, 2) || Offset(s, t, -2, -1) || Offset(s, t, -1, -2)
    {
      KnightStepCases(s, t);
    }
  }

  /** The knight jumps are exactly the knight's moves from every knight. */
  lemma KnightJumpsBits(knights: int, t: nat)
    requires IsWord(knights)
    ensures Has(KnightJumps(knights), t) <==> exists s: nat :: Has(knights, s) && KnightStep(s, t)
  {
    KnightGuardsNorth();
    KnightGuardsSouth();
    var nne := Jump(knights, Or(Or(RankMask(6), RankMask(7)), FileMask(7)), 17);
    var nee := Jump(knights, Or(Or(RankMask(7), FileMask(7)), FileMask(6)), 10);
    var nnw := Jump(knights, Or(Or(RankMask(6), RankMask(7)), FileMask(0)), 15);
    var nww := Jump(knights, Or(Or(RankMask(7), FileMask(0)), FileMask(1)), 6);
    var sse := Jump(knights, Or(Or(RankMask(0), RankMask(1)), FileMask(7)), -15);
    var see := Jump(knights, Or(Or(RankMask(0), FileMask(6)), FileMask(7)), -6);
    var ssw := Jump(knights, Or(Or(RankMask(0), RankMask(1)), FileMask(0)), -17);
    var sww := Jump(knights, Or(Or(RankMask(0), FileMask(0)), FileMask(1)), -10);
    Or8Bits(nne, nee, nnw, nww, sse, see, ssw, sww, t);
    GuardedJump(knights, Or(Or(RankMask(6), RankMask(7)), FileMask(7)), 2, 1, t);
    GuardedJump(knights, Or(Or(RankMask(7), FileMask(7)), FileMask(6)), 1, 2, t);
    GuardedJump(knights, Or(Or(RankMask(6), RankMask(7)), FileMask(0)), 2, -1, t);
    GuardedJump(knights, Or(Or(RankMask(7), FileMask(0)), FileMask(1)), 1, -2, t);
    GuardedJump(knights, Or(Or(RankMask(0), RankMask(1)), FileMask(7)), -2, 1, t);
    GuardedJump(knights, Or(Or(RankMask(0), FileMask(6)), FileMask(7)), -1, 2, t);
    GuardedJump(knights, Or(Or(RankMask(0), RankMask(1)), FileMask(0)), -2, -1, t);
    GuardedJump(knights, Or(Or(RankMask(0), FileMask(0)), FileMask(1)), -1, -2, t);
    KnightLands(knights, t);
  }

  /** The knight jump value is a word. */
  lemma KnightJumpsWord(knights: int)
    requires IsWord(knights)
    ensures IsWord(KnightJumps(knights))
  {
    var a := KnightJumps(knights);
    forall t: nat | 64 <= t
      ensures !Has(a, t)
    {
      KnightJumpsBits(knights, t);
    }
    WordByBits(a);
  }

  /** `generate_knight_attacks`: every square a knight of the board could jump to. */
  function GenerateKnightAttacks(knightBoard: BitBoard): (r: Result<BitBoard>)
    requires Valid(knightBoard)
    ensures r.Ok? && Valid(r.value) && r.value.boardType == None
    ensures forall t: nat :: Has(r.value.board, t) <==>
      exists s: nat :: Has(knightBoard.board, s) && KnightStep(s, t)
  {
    var attacks := KnightJumps(knightBoard.board);
    KnightJumpsWord(knightBoard.board);
    NewWord(attacks, None);
    assert forall t: nat :: Has(attacks, t) <==>
      exists s: nat :: Has(knightBoard.board, s) && KnightStep(s, t) by {
      forall t: nat
        ensures Has(attacks, t) <==> exists s: nat :: Has(knightBoard.board, s) && KnightStep(s, t)
      {
        KnightJumpsBits(knightBoard.board, t);
      }
    }
    New(attacks, None)
  }

  // ---------------------------------------------------------------------
  // Kings

  /** A king's step: the squares at Chebyshev distance one. */
  predicate KingStep(s: int, t: int)
  {
    Chebyshev(s, t) == 1
  }

  /** Lines 190-204: the four straight steps, then the diagonal steps taken from
      the north and south steps. */
  function KingJumps(king: int): int
  {
    var east := Jump(king, FileMask(7), 1);
    var west := Jump(king, FileMask(0), -1);
    var north := Jump(king, RankMask(7), 8);
    var south := Jump(king, RankMask(0), -8);
    var ne := Jump(north, FileMask(7), 1);
    var nw := Jump(north, FileMask(0), -1);
    var se := Jump(south, FileMask(7), 1);
    var sw := Jump(south, FileMask(0), -1);
    Or(Or(Or(Or(Or(Or(Or(east, west), north), south), ne), nw), se), sw)
  }

  lemma KingGuards()
    ensures Guards(FileMask(7), 0, 1) && Guards(FileMask(0), 0, -1)
    ensures Guards(RankMask(7), 1, 0) && Guards(RankMask(0), -1, 0)
  {
    forall s: nat | s < 64
      ensures Has(FileMask(7), s) <==> !(0 <= s / 8 + 0 < 8 && 0 <= s % 8 + 1 < 8)
      ensures Has(FileMask(0), s) <==> !(0 <= s / 8 + 0 < 8 && 0 <= s % 8 - 1 < 8)
      ensures Has(RankMask(7), s) <==> !(0 <= s / 8 + 1 < 8 && 0 <= s % 8 + 0 < 8)
      ensures Has(RankMask(0), s) <==> !(0 <= s / 8 - 1 < 8 && 0 <= s % 8 + 0 < 8)
    {
      FileMaskBits(7, s);
      FileMaskBits(0, s);
      RankMaskBits(7, s);
      RankMaskBits(0, s);
    }
  }

  /** The king's step read as one of eight fixed offsets. */
  lemma KingStepCases(s: int, t: int)
    requires OnBoard(s) && OnBoard(t)
    ensures KingStep(s, t) <==>
      Offset(s, t, 0, 1) || Offset(s, t, 0, -1) || Offset(s, t, 1, 0) || Offset(s, t, -1, 0) ||
      Offset(s, t, 1, 1) || Offset(s, t, 1, -1) || Offset(s, t, -1, 1) || Offset(s, t, -1, -1)
  {
    ChebyshevOne(s, t);
    if t / 8 == s / 8 && t % 8 == s % 8 {
      assert t == 8 * (t / 8) + t % 8 && s == 8 * (s / 8) + s % 8;
    }
  }

  lemma KingLands(b: int, t: nat)
    ensures (exists s: nat :: Has(b, s) && KingStep(s, t)) <==>
      Lands(b, t, 0, 1) || Lands(b, t, 0, -1) || Lands(b, t, 1, 0) || Lands(b, t, -1, 0) ||
      Lands(b, t, 1, 1) || Lands(b, t, 1, -1) || Lands(b, t, -1, 1) || Lands(b, t, -1, -1)
  {
    LandsAt(b, t, 0, 1);
    LandsAt(b, t, 0, -1);
    LandsAt(b, t, 1, 0);
    LandsAt(b, t, -1, 0);
    LandsAt(b, t, 1, 1);
    LandsAt(b, t, 1, -1);
    LandsAt(b, t, -1, 1);
    LandsAt(b, t, -1, -1);
    forall s: nat | Has(b, s)
      ensures KingStep(s, t) <==>
        Offset(s, t, 0, 1) || Offset(s, t, 0, -1) || Offset(s, t, 1, 0) || Offset(s, t, -1, 0) ||
        Offset(s, t, 1, 1) || Offset(s, t, 1, -1) || Offset(s, t, -1, 1) || Offset(s, t, -1, -1)
    {
      if OnBoard(s) && OnBoard(t) {
        KingStepCases(s, t);
      }
    }
  }

  /** A file step taken after a rank step lands where the combined offset does. */
  lemma LandsCompose(b: int, mid: int, t: int, dr: int, df: int)
    requires forall u: nat :: Has(mid, u) <==> Lands(b, u, dr, 0)
    ensures Lands(mid, t, 0, df) <==> Lands(b, t, dr, df)
  {
    var m := t - df;
    var s := m - 8 * dr;
    if Lands(b, t, dr, df) {
      OffsetSum(s, t, dr, df);
      ByteOf(m, s / 8 + dr);
      OffsetSum(s, m, dr, 0);
      OffsetSum(m, t, 0, df);
    }
    if Lands(mid, t, 0, df) {
      OffsetSum(m, t, 0, df);
      OffsetSum(s, m, dr, 0);
      OffsetSum(s, t, dr, df);
    }
  }

  /** The two diagonal king steps taken after the straight step of `dr` ranks. */
  lemma DiagonalSteps(king: int, ex: int, dr: int, t: nat)
    requires IsWord(king) && Guards(ex, dr, 0)
    ensures Has(Jump(Jump(king, ex, 8 * dr), FileMask(7), 1), t) <==> Lands(king, t, dr, 1)
    ensures Has(Jump(Jump(king, ex, 8 * dr), FileMask(0), -1), t) <==> Lands(king, t, dr, -1)
  {
    KingGuards();
    var mid := Jump(king, ex, 8 * dr);
    GuardedJumpWord(king, ex, dr, 0);
    forall u: nat
      ensures Has(mid, u) <==> Lands(king, u, dr, 0)
    {
      GuardedJump(king, ex, dr, 0, u);
    }
    GuardedJump(mid, FileMask(7), 0, 1, t);
    GuardedJump(mid, FileMask(0), 0, -1, t);
    LandsCompose(king, mid, t, dr, 1);
    LandsCompose(king, mid, t, dr, -1);
  }

  /** The union of eight boards, each holding the kings' targets by one offset. */
  lemma KingUnion(king: int, e: int, w: int, n: int, s: int, ne: int, nw: int, se: int, sw: int, t: nat)
    requires Has(e, t) <==> Lands(king, t, 0, 1)
    requires Has(w, t) <==> Lands(king, t, 0, -1)
    requires Has(n, t) <==> Lands(king, t, 1, 0)
    requires Has(s, t) <==> Lands(king, t, -1, 0)
    requires Has(ne, t) <==> Lands(king, t, 1, 1)
    requires Has(nw, t) <==> Lands(king, t, 1, -1)
    requires Has(se, t) <==> Lands(king, t, -1, 1)
    requires Has(sw, t) <==> Lands(king, t, -1, -1)
    ensures Has(Or(Or(Or(Or(Or(Or(Or(e, w), n), s), ne), nw), se), sw), t) <==>
      exists u: nat :: Has(king, u) && KingStep(u, t)
  {
    Or8Bits(e, w, n, s, ne, nw, se, sw, t);
    KingLands(king, t);
  }

  lemma KingJumpsBits(king: int, t: nat)
    requires IsWord(king)
    ensures Has(KingJumps(king), t) <==> exists s: nat :: Has(king, s) && KingStep(s, t)
  {
    KingGuards();
    var north := Jump(king, RankMask(7), 8);
    var south := Jump(king, RankMask(0), -8);
    GuardedJump(king, FileMask(7), 0, 1, t);
    GuardedJump(king, FileMask(0), 0, -1, t);
    GuardedJump(king, RankMask(7), 1, 0, t);
    GuardedJump(king, RankMask(0), -1, 0, t);
    DiagonalSteps(king, RankMask(7), 1, t);
    DiagonalSteps(king, RankMask(0), -1, t);
    KingUnion(king, Jump(king, FileMask(7), 1), Jump(king, FileMask(0), -1), north, south,
      Jump(north, FileMask(7), 1), Jump(north, FileMask(0), -1),
      Jump(south, FileMask(7), 1), Jump(south, FileMask(0), -1), t);
  }

  lemma KingJumpsWord(king: int)
    requires IsWord(king)
    ensures IsWord(KingJumps(king))
  {
    var a := KingJumps(king);
    forall t: nat | 64 <= t
      ensures !Has(a, t)
    {
      KingJumpsBits(king, t);
    }
    WordByBits(a);
  }

  /** `generate_king_attacks`: every square next to a king of the board. */
  function GenerateKingAttacks(kingBoard: BitBoard): (r: Result<BitBoard>)
    requires Valid(kingBoard)
    ensures r.Ok? && Valid(r.value) && r.value.boardType == None
    ensures forall t: nat :: Has(r.value.board, t) <==>
      exists s: nat :: Has(kingBoard.board, s) && KingStep(s, t)
  {
    var attacks := KingJumps(kingBoard.board);
    KingJumpsWord(kingBoard.board);
    NewWord(attacks, None);
    assert forall t: nat :: Has(attacks, t) <==>
      exists s: nat :: Has(kingBoard.board, s) && KingStep(s, t) by {
      forall t: nat
        ensures Has(attacks, t) <==> exists s: nat :: Has(kingBoard.board, s) && KingStep(s, t)
      {
        KingJumpsBits(kingBoard.board, t);
      }
    }
    New(attacks, None)
  }
}
