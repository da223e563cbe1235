/** Castling rules of `game/castling.py`: losing castling rights, moving the rook
    beside the king, and the castling targets a king may add to its moves.

    Castling rights are a four-bit integer. As the FEN parser fills it, bit 0 is
    White's short castle, bit 1 White's long castle, bit 3 Black's short castle
    and bit 2 Black's long castle. */
module Castling {
  import opened Wrappers
  import opened Bits
  import opened Squares
  import opened Pieces
  import opened BitBoards
  import opened State

  /** Bit `i` of a four-bit literal, read off its binary digits. */
  lemma NibbleBits(v: int, i: nat)
    requires 0 <= v < 16
    ensures Has(v, i) <==>
      ((i == 0 && v % 2 == 1) || (i == 1 && (v / 2) % 2 == 1) ||
       (i == 2 && (v / 4) % 2 == 1) || (i == 3 && v / 8 == 1))
  {
    if i >= 4 {
      assert Pow2(4) == 16;
      HighZero(v, 4, i);
    } else if i >= 2 {
      assert v / 2 / 2 == v / 4;
      if i == 3 {
        assert v / 4 / 2 == v / 8;
      }
    }
  }

  /** `castling_rights & m == 0` for a literal `m` of consecutive bits. */
  lemma AndRangeZero(x: int, m: int, lo: nat, n: nat)
    requires m == Shl(Pow2(n) - 1, lo)
    ensures (And(x, m) == 0) <==> NoneIn(x, lo, lo + n)
  {
    if And(x, m) == 0 {
      forall k: nat | lo <= k < lo + n
        ensures !Has(x, k)
      {
        HasAnd(x, m, k);
        HasShl(Pow2(n) - 1, lo, k);
        LowMask(n, k - lo);
        NoBits();
      }
    }
    if NoneIn(x, lo, lo + n) {
      forall k: nat
        ensures Has(And(x, m), k) == Has(0, k)
      {
        HasAnd(x, m, k);
        HasShl(Pow2(n) - 1, lo, k);
        if lo <= k {
          LowMask(n, k - lo);
        }
        NoBits();
      }
      Extensional(And(x, m), 0);
    }
  }

  /** `x & 1 == 1` tests bit 0. */
  lemma AndOne(x: int)
    ensures (And(x, 1) == 1) == Has(x, 0)
  {
    MaskIsMod(x, 1);
  }

  // ---------------------------------------------------------------------
  // Losing rights

  /** The rights bit a rook leaving square `square` takes away, if any. */
  function RookRightsMask(square: int, rights: int): int
  {
    if square == 0 then 13
    else if square == 7 then 14
    else if square == 56 then 7
    else if square == 63 then 11
    else rights
  }

  /** The corner a rook starts castling from, with the rights bit it carries. */
  predicate RookCorner(square: int, bit: nat)
  {
    (square == 0 && bit == 1) || (square == 7 && bit == 0) ||
    (square == 56 && bit == 3) || (square == 63 && bit == 2)
  }

  /** `update_castling_rights`: a king move keeps only the other side's two
      bits; a rook move from a corner clears that corner's bit; anything else
      changes nothing. Bits above the four rights bits are dropped whenever a
      mask is applied. */
  function UpdateCastlingRights(rights: int, piece: ColorChessPiece, square: int): (r: int)
    ensures TypeOf(piece) == King ==> forall i: nat :: Has(r, i) <==>
      Has(rights, i) && (if ColorOf(piece) == White then i == 2 || i == 3 else i == 0 || i == 1)
    ensures TypeOf(piece) == Rook && (square in {0, 7, 56, 63}) ==> forall i: nat :: Has(r, i) <==>
      Has(rights, i) && i < 4 && !RookCorner(square, i)
    ensures !(TypeOf(piece) == Rook && (square in {0, 7, 56, 63})) && TypeOf(piece) != King ==> r == rights
  {
    if TypeOf(piece) == King then
      var m := if ColorOf(piece) == White then 12 else 3;
      forall i: nat
        ensures Has(And(rights, m), i) <==>
          Has(rights, i) && (if ColorOf(piece) == White then i == 2 || i == 3 else i == 0 || i == 1)
      {
        HasAnd(rights, m, i);
        NibbleBits(m, i);
      }
      And(rights, m)
    else if TypeOf(piece) == Rook then
      var m := RookRightsMask(square, rights);
      if square in {0, 7, 56, 63} then
        forall i: nat
          ensures Has(And(rights, m), i) <==> Has(rights, i) && i < 4 && !RookCorner(square, i)
        {
          HasAnd(rights, m, i);
          NibbleBits(m, i);
        }
        And(rights, m)
      else
        forall i: nat
          ensures Has(And(rights, rights), i) == Has(rights, i)
        {
          HasAnd(rights, rights, i);
        }
        Extensional(And(rights, rights), rights);
        And(rights, m)
    else
      rights
  }

  /** Rights are never gained: every bit of the result was set before. */
  lemma RightsOnlyShrink(rights: int, piece: ColorChessPiece, square: int)
    ensures forall i: nat :: Has(UpdateCastlingRights(rights, piece, square), i) ==> Has(rights, i)
  {}

  // ---------------------------------------------------------------------
  // Moving the rook

  /** `get_castling_rook_squares`: the rook, its target and its origin for a
      king landing on `target`. Targets 6 and 62 are the short castles; any
      other target is read as a long castle. */
  function CastlingRookSquares(target: int): (r: (ColorChessPiece, int, int))
    ensures r.0 == (if target > 6 then BlackRook else WhiteRook)
    ensures IsReal(r.0) && TypeOf(r.0) == Rook
  {
    var rook := if target > 6 then BlackRook else WhiteRook;
    if target == 6 || target == 62 then (rook, target - 1, target + 1)
    else (rook, target + 1, target - 2)
  }

  /** For each of the four castling king moves the rook comes from the corner on
      the king's side and lands on the square the king crossed. */
  lemma CastlingRookCorners(home: int, target: int)
    requires (home == 4 && target in {2, 6}) || (home == 60 && target in {58, 62})
    ensures var (rook, rt, ro) := CastlingRookSquares(target);
      rook == (if home == 4 then WhiteRook else BlackRook) &&
      ro / 8 == home / 8 && ro % 8 == (if target > home then 7 else 0) &&
      rt == (home + target) / 2
  {}

  /** `handle_castling`: a king moving more than one square moves the rook too. */
  function HandleCastling(piece: ColorChessPiece, origin: int, target: int, locs: Locations): (r: Result<Locations>)
    requires Complete(locs)
    ensures !(TypeOf(piece) == King && Chebyshev(origin, target) > 1) ==> r == Ok(locs)
    ensures TypeOf(piece) == King && Chebyshev(origin, target) > 1 ==>
      var (rook, rt, ro) := CastlingRookSquares(target);
      (r.Ok? <==> OnBoard(rt) && OnBoard(ro)) &&
      (r.Ok? ==>
         Complete(r.value) &&
         (forall p :: p != rook ==> r.value[p] == locs[p]) &&
         (forall i: nat :: Has(r.value[rook].board, i) <==> (i == rt || Has(locs[rook].board, i)) && i != ro))
  {
    if TypeOf(piece) == King && Chebyshev(origin, target) > 1 then
      var (rook, rt, ro) := CastlingRookSquares(target);
      var placed :- SetBit(locs[rook], rt);
      var moved :- ClearBit(placed, ro);
      Ok(locs[rook := moved])
    else
      Ok(locs)
  }

  // ---------------------------------------------------------------------
  // Castling moves

  /** The short castle from the king's home rank starting at `home`: the king's
      three squares unattacked, the two between king and rook empty, the right held. */
  predicate ShortCastle(home: nat, rights: bool, enemy: int, collisions: int)
  {
    NoneIn(enemy, home + 4, home + 7) && rights && NoneIn(collisions, home + 5, home + 7)
  }

  /** The long castle: c, d and e unattacked, b, c and d empty, the right held. */
  predicate LongCastle(home: nat, rights: bool, enemy: int, collisions: int)
  {
    NoneIn(enemy, home + 2, home + 5) && rights && NoneIn(collisions, home + 1, home + 4)
  }

  /** The three tests of the short castle, as the source writes them. */
  lemma ShortTests(rights: int, enemy: int, collisions: int)
    ensures (And(enemy, 112) == 0 && And(And(rights, 3), 1) == 1 && And(collisions, 96) == 0)
      == ShortCastle(0, Has(rights, 0), enemy, collisions)
  {
    assert 112 == Shl(Pow2(3) - 1, 4);
    assert 96 == Shl(Pow2(2) - 1, 5);
    AndRangeZero(enemy, 112, 4, 3);
    AndRangeZero(collisions, 96, 5, 2);
    MaskedRight(rights);
  }

  /** The three tests of the long castle, as the source writes them. */
  lemma LongTests(rights: int, enemy: int, collisions: int)
    ensures (And(enemy, 28) == 0 && And(And(rights, 3), 1) == 1 && And(collisions, 14) == 0)
      == LongCastle(0, Has(rights, 0), enemy, collisions)
  {
    assert 28 == Shl(Pow2(3) - 1, 2);
    assert 14 == Shl(Pow2(3) - 1, 1);
    AndRangeZero(enemy, 28, 2, 3);
    AndRangeZero(collisions, 14, 1, 3);
    MaskedRight(rights);
  }

  /** `(rights & 0b11) & 0b01 == 0b01` reads bit 0 of the rights. */
  lemma MaskedRight(rights: int)
    ensures (And(And(rights, 3), 1) == 1) == Has(rights, 0)
  {
    AndOne(And(rights, 3));
    HasAnd(rights, 3, 0);
  }

  lemma OrZero(x: int)
    ensures Or(0, x) == x
  {
    forall i: nat
      ensures Has(Or(0, x), i) == Has(x, i)
    {
      HasOr(0, x, i);
      NoBits();
    }
    Extensional(Or(0, x), x);
  }

  /** The board built from the two verdicts holds g1 and c1 as they allow. */
  lemma CastleBoard(short: bool, long: bool, partial: int, moves: int)
    requires partial == if short then Or(0, 64) else 0
    requires moves == if long then Or(partial, 4) else partial
    ensures IsWord(moves)
    ensures forall i: nat :: Has(moves, i) <==> (i == 6 && short) || (i == 2 && long)
  {
    OrZero(64);
    assert Pow2(6) == 64 && Pow2(2) == 4;
    Pow2IsWord(6);
    Pow2IsWord(2);
    assert IsWord(0);
    OrWord(partial, 4);
    forall i: nat
      ensures Has(moves, i) <==> (i == 6 && short) || (i == 2 && long)
    {
      HasOr(partial, 4, i);
      HasPow2(6, i);
      HasPow2(2, i);
      NoBits();
    }
  }

  /** `__get_castle_moves`, on White's side of the board: g1 for the short and
      c1 for the long castle. Both test rights bit 0. */
  function CastleMoves(rights: int, enemy: int, collisions: int): (r: BitBoard)
    ensures Valid(r) && r.boardType == None
    ensures forall i: nat :: Has(r.board, i) <==>
      (i == 6 && ShortCastle(0, Has(rights, 0), enemy, collisions)) ||
      (i == 2 && LongCastle(0, Has(rights, 0), enemy, collisions))
  {
    var masked := And(rights, 3);
    var short := And(enemy, 112) == 0 && And(masked, 1) == 1 && And(collisions, 96) == 0;
    var long := And(enemy, 28) == 0 && And(masked, 1) == 1 && And(collisions, 14) == 0;
    var partial := if short then Or(0, 64) else 0;
    var moves := if long then Or(partial, 4) else partial;
    ShortTests(rights, enemy, collisions);
    LongTests(rights, enemy, collisions);
    CastleBoard(short, long, partial, moves);
    NewWord(moves, None);
    BitBoard(moves, None)
  }

  /** `get_castling_moves`: White reads its two rights bits directly; Black
      shifts its bits down and plays on the board mirrored top to bottom. No
      colour gives no board at all. */
  function GetCastlingMoves(color: Color, rights: int, enemyAttacks: BitBoard, collisions: BitBoard): (r: Option<BitBoard>)
    requires Valid(enemyAttacks) && Valid(collisions)
    ensures r.Some? <==> color != AnyColor
    ensures r.Some? ==> Valid(r.value) && r.value.boardType == None
    ensures color == White ==> forall i: nat :: Has(r.value.board, i) <==>
      (i == 6 && ShortCastle(0, Has(rights, 0), enemyAttacks.board, collisions.board)) ||
      (i == 2 && LongCastle(0, Has(rights, 0), enemyAttacks.board, collisions.board))
    ensures color == Black ==> forall i: nat :: Has(r.value.board, i) <==>
      (i == 62 && ShortCastle(56, Has(rights, 2), enemyAttacks.board, collisions.board)) ||
      (i == 58 && LongCastle(56, Has(rights, 2), enemyAttacks.board, collisions.board))
  {
    match color
    case White =>
      var m := And(rights, 3);
      assert Has(m, 0) == Has(rights, 0) by {
        HasAnd(rights, 3, 0);
      }
      Some(CastleMoves(m, enemyAttacks.board, collisions.board))
    case Black => Some(BlackCastleMoves(rights, enemyAttacks, collisions))
    case AnyColor => None
  }

  /** Black's castling: the rights shifted down by two, the attacks and
      occupancy mirrored onto White's side, the result mirrored back. */
  function BlackCastleMoves(rights: int, enemyAttacks: BitBoard, collisions: BitBoard): (r: BitBoard)
    requires Valid(enemyAttacks) && Valid(collisions)
    ensures Valid(r) && r.boardType == None
    ensures forall i: nat :: Has(r.board, i) <==>
      (i == 62 && ShortCastle(56, Has(rights, 2), enemyAttacks.board, collisions.board)) ||
      (i == 58 && LongCastle(56, Has(rights, 2), enemyAttacks.board, collisions.board))
  {
    var m := Shr(rights, 2);
    var enemy := MirrorVertical(enemyAttacks);
    var occupied := MirrorVertical(collisions);
    var moves := CastleMoves(m, enemy.board, occupied.board);
    var r := MirrorVertical(moves);
    BlackRight(rights, m);
    MirroredCastle(rights, enemyAttacks.board, collisions.board, m, enemy.board, occupied.board, moves.board, r.board);
    r
  }

  /** Black's short-castle right, bit 2, is bit 0 once shifted down by two. */
  lemma BlackRight(rights: int, m: int)
    requires m == Shr(rights, 2)
    ensures Has(m, 0) == Has(rights, 2)
  {
    HasShr(rights, 2, 0);
  }

  /** Castling computed on the mirrored board and mirrored back is Black's castling. */
  lemma MirroredCastle(rights: int, enemy: int, collisions: int, m: int, me: int, mc: int, moves: int, r: int)
    requires Has(m, 0) == Has(rights, 2)
    requires forall i: nat :: Has(me, i) == (i < 64 && Has(enemy, FlipRank(i)))
    requires forall i: nat :: Has(mc, i) == (i < 64 && Has(collisions, FlipRank(i)))
    requires forall i: nat :: Has(moves, i) <==>
      (i == 6 && ShortCastle(0, Has(m, 0), me, mc)) || (i == 2 && LongCastle(0, Has(m, 0), me, mc))
    requires forall i: nat :: Has(r, i) == (i < 64 && Has(moves, FlipRank(i)))
    ensures forall i: nat :: Has(r, i) <==>
      (i == 62 && ShortCastle(56, Has(rights, 2), enemy, collisions)) ||
      (i == 58 && LongCastle(56, Has(rights, 2), enemy, collisions))
  {
    var right := Has(m, 0);
    MirroredTests(right, enemy, collisions, me, mc);
    MirroredTargets(moves, r, ShortCastle(0, right, me, mc), LongCastle(0, right, me, mc));
  }

  /** Moving a test of empty squares along the board by `d` squares. */
  lemma NoneInShift(a: int, b: int, lo: nat, hi: nat, d: nat)
    requires forall k: nat :: lo <= k < hi ==> Has(a, k) == Has(b, k + d)
    ensures NoneIn(a, lo, hi) == NoneIn(b, lo + d, hi + d)
  {
    if !NoneIn(b, lo + d, hi + d) {
      var k: nat :| lo + d <= k < hi + d && Has(b, k);
      assert Has(a, k - d);
    }
  }

  /** The castling tests on the mirrored board are Black's tests on the real one. */
  lemma MirroredTests(right: bool, enemy: int, collisions: int, me: int, mc: int)
    requires forall i: nat :: Has(me, i) == (i < 64 && Has(enemy, FlipRank(i)))
    requires forall i: nat :: Has(mc, i) == (i < 64 && Has(collisions, FlipRank(i)))
    ensures ShortCastle(0, right, me, mc) == ShortCastle(56, right, enemy, collisions)
    ensures LongCastle(0, right, me, mc) == LongCastle(56, right, enemy, collisions)
  {
    RankOneShift(me, enemy);
    RankOneShift(mc, collisions);
    assert ShortCastle(0, right, me, mc) == ShortCastle(56, right, enemy, collisions) by {
      NoneInShift(me, enemy, 4, 7, 56);
      NoneInShift(mc, collisions, 5, 7, 56);
    }
    assert LongCastle(0, right, me, mc) == LongCastle(56, right, enemy, collisions) by {
      NoneInShift(me, enemy, 2, 5, 56);
      NoneInShift(mc, collisions, 1, 4, 56);
    }
  }

  /** The first rank of a mirrored board is the eighth rank of the original. */
  lemma RankOneShift(mirrored: int, b: int)
    requires forall i: nat :: Has(mirrored, i) == (i < 64 && Has(b, FlipRank(i)))
    ensures forall k: nat :: k < 8 ==> Has(mirrored, k) == Has(b, k + 56)
  {
    forall k: nat | k < 8
      ensures Has(mirrored, k) == Has(b, k + 56)
    {
      FirstRankFlip(k);
    }
  }

  /** The first rank mirrors onto the eighth. */
  lemma FirstRankFlip(k: nat)
    requires k < 8
    ensures FlipRank(k) == k + 56
  {
    var j := FlipRank(k);
    assert j == 8 * (j / 8) + j % 8;
  }

  /** Mirroring g1 and c1 gives g8 and c8. */
  lemma MirroredTargets(moves: int, r: int, short: bool, long: bool)
    requires forall i: nat :: Has(moves, i) <==> (i == 6 && short) || (i == 2 && long)
    requires forall i: nat :: Has(r, i) == (i < 64 && Has(moves, FlipRank(i)))
    ensures forall i: nat :: Has(r, i) <==> (i == 62 && short) || (i == 58 && long)
  {
    forall i: nat
      ensures Has(r, i) <==> (i == 62 && short) || (i == 58 && long)
    {
      if i < 64 {
        var j := FlipRank(i);
        assert j == 6 <==> i == 62;
        assert j == 2 <==> i == 58;
      }
    }
  }
}
