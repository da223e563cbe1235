/** The move generators of `engine/move_generators.py`: pseudo-legal moves of
    one piece board (pawn pushes and captures, king steps and castling, knight
    and slider moves) and the move list of the side to move. */
module Moves {
  import opened Wrappers
  import opened Bits
  import opened Squares
  import opened Pieces
  import opened BitBoards
  import opened State
  import opened Leapers
  import opened Attacks
  import opened Castling
  import opened PawnRules

  /** `a ^ (a & o)` (or `a ^ (o & a)`): the squares of `a` not in `o`. */
  lemma Without(a: int, o: int, m: int)
    requires m == And(a, o) || m == And(o, a)
    ensures forall t: nat :: Has(Xor(a, m), t) <==> Has(a, t) && !Has(o, t)
    ensures IsWord(a) ==> IsWord(Xor(a, m))
  {
    forall t: nat
      ensures Has(Xor(a, m), t) <==> Has(a, t) && !Has(o, t)
    {
      HasXor(a, m, t);
      HasAnd(a, o, t);
      HasAnd(o, a, t);
    }
    if IsWord(a) {
      AndWord(a, o);
      AndWord(o, a);
      XorWord(a, m);
    }
  }

  /** The first square `serialize_board` lists is the lowest set bit. */
  lemma SerializeFirst(b: int)
    requires b > 0
    ensures |Serialize(b)| > 0 && Serialize(b)[0] == Lowest(b)
  {
    var r := Serialize(b);
    var l := Lowest(b);
    assert l in r;
    var k :| 0 <= k < |r| && r[k] == l;
  }

  /** The aggregate board of the piece's own colour. */
  function OwnPieces(st: BoardState, p: ColorChessPiece): (b: BitBoard)
    requires WellFormed(st)
    ensures Valid(b) && b.boardType == Some(PieceGroup(ColorOf(p)))
    ensures Synced(st.pieceLocations) && ColorOf(p) != AnyColor ==>
      forall i: nat :: Has(b.board, i) <==> Occupied(st.pieceLocations, ColorOf(p), i)
  {
    Board(st, PieceGroup(ColorOf(p)))
  }

  // ---------------------------------------------------------------------
  // Knights and sliders

  /** `generate_sliding_and_knight_moves`: the attacked squares not holding a
      piece of the mover's colour. */
  function SlidingAndKnightMoves(pieceBoard: BitBoard, st: BoardState): (r: Result<BitBoard>)
    requires WellFormed(st) && Valid(pieceBoard) && pieceBoard.boardType.Some?
    ensures r.Err? <==>
      !IsReal(pieceBoard.boardType.value) ||
      (pieceBoard.boardType == Some(WhitePawn) && PawnOnLastRank(pieceBoard.board))
    ensures r.Ok? ==> Valid(r.value) && r.value.boardType == pieceBoard.boardType
    ensures r.Ok? ==> forall t: nat :: Has(r.value.board, t) <==>
      (exists s: nat :: Has(pieceBoard.board, s) &&
         AttackedFrom(pieceBoard.boardType.value, Board(st, AllPieces).board, s, t)) &&
      !Has(OwnPieces(st, pieceBoard.boardType.value).board, t)
  {
    var attacks :- GenerateAttacks(pieceBoard, Board(st, AllPieces));
    var own := OwnPieces(st, pieceBoard.boardType.value).board;
    var moves := Xor(attacks.board, And(attacks.board, own));
    Without(attacks.board, own, And(attacks.board, own));
    NewWord(moves, pieceBoard.boardType);
    New(moves, pieceBoard.boardType)
  }

  // ---------------------------------------------------------------------
  // Pawns

  /** A single push from `s` onto the empty square in front. */
  predicate SinglePush(c: Color, s: int, t: int, occupied: int)
  {
    OnBoard(t) && t == s + 8 * Forward(c) && !Has(occupied, t)
  }

  /** A double push from the start rank over an empty square onto an empty square. */
  predicate DoublePush(c: Color, s: int, t: int, occupied: int)
  {
    c != AnyColor && OnBoard(s) && s / 8 == (if c == White then 1 else 6) &&
    SinglePush(c, s, s + 8 * Forward(c), occupied) &&
    t == s + 16 * Forward(c) && !Has(occupied, t)
  }

  /** A pawn of colour `c` on `s` may capture on `t`: an enemy piece or the
      en-passant square stands there. */
  predicate PawnTake(c: Color, s: int, t: nat, enemy: int, enPassant: int)
  {
    PawnCapture(c, s, t) && (Has(enemy, t) || Has(enPassant, t))
  }

  /** The board `set_bit` builds on an empty board when `t` is on the board. */
  function PushBoard(t: int): (b: int)
    ensures IsWord(b)
    ensures forall i: nat :: Has(b, i) <==> OnBoard(t) && i == t
  {
    NoBits();
    if 0 <= t <= 63 then
      SetBit(BitBoard(0, None), t).value.board
    else
      NoBits();
      0
  }

  /** The push part of `generate_pawn_moves`: the single push if its square is
      empty, and then the double push from the start rank if its square is too. */
  function Pushes(c: Color, square: nat, occupied: int): (r: int)
    requires c != AnyColor && IsWord(occupied)
    ensures IsWord(r)
    ensures forall t: nat :: Has(r, t) <==>
      SinglePush(c, square, t, occupied) || DoublePush(c, square, t, occupied)
  {
    var (one, two) := PawnMovement(c, square).value;
    var single := PushBoard(one);
    var double := PushBoard(two);
    var pawnMoves := Xor(single, And(occupied, single));
    Without(single, occupied, And(occupied, single));
    if pawnMoves != 0 && IsPawnStartingRank(square, c).value then
      var doubleMoves := Xor(double, And(occupied, double));
      Without(double, occupied, And(occupied, double));
      OrWord(pawnMoves, doubleMoves);
      PushUnion(c, square, occupied, pawnMoves, doubleMoves);
      Or(pawnMoves, doubleMoves)
    else
      NoBits();
      NoDoublePush(c, square, occupied, pawnMoves);
      pawnMoves
  }

  lemma PushUnion(c: Color, square: nat, occupied: int, single: int, double: int)
    requires c != AnyColor && OnBoard(square) && square / 8 == (if c == White then 1 else 6)
    requires single != 0
    requires forall t: nat :: Has(single, t) <==> SinglePush(c, square, t, occupied)
    requires forall t: nat :: Has(double, t) <==>
      OnBoard(square + 16 * Forward(c)) && t == square + 16 * Forward(c) && !Has(occupied, t)
    ensures forall t: nat :: Has(Or(single, double), t) <==>
      SinglePush(c, square, t, occupied) || DoublePush(c, square, t, occupied)
  {
    var k := Lowest(single);
    assert SinglePush(c, square, k, occupied);
    forall t: nat
      ensures Has(Or(single, double), t) <==>
        SinglePush(c, square, t, occupied) || DoublePush(c, square, t, occupied)
    {
      HasOr(single, double, t);
    }
  }

  lemma NoDoublePush(c: Color, square: nat, occupied: int, single: int)
    requires c != AnyColor
    requires forall t: nat :: Has(single, t) <==> SinglePush(c, square, t, occupied)
    requires single == 0 || IsPawnStartingRank(square, c) == Ok(false)
    ensures forall t: nat :: !DoublePush(c, square, t, occupied)
  {
    NoBits();
  }

  /** `generate_pawn_moves`: captures onto enemy pieces or the en-passant
      square, plus the pushes of the first listed pawn; an empty board has no
      first square and raises `IndexError`. */
  function PawnMoves(pieceBoard: BitBoard, st: BoardState): (r: Result<BitBoard>)
    requires WellFormed(st) && Valid(pieceBoard)
    requires pieceBoard.boardType.Some? && TypeOf(pieceBoard.boardType.value) == Pawn
    ensures r.Err? <==>
      (pieceBoard.boardType == Some(WhitePawn) && PawnOnLastRank(pieceBoard.board)) || pieceBoard.board == 0
    ensures r.Err? && pieceBoard.board == 0 ==> r.error == IndexError
    ensures r.Ok? ==> Valid(r.value) && r.value.boardType == pieceBoard.boardType
    ensures r.Ok? ==>
      var c := ColorOf(pieceBoard.boardType.value);
      var enemy := Board(st, PieceGroup(Opposite(c).value)).board;
      var occupied := Board(st, AllPieces).board;
      var square := Lowest(pieceBoard.board);
      forall t: nat :: Has(r.value.board, t) <==>
        (exists s: nat :: Has(pieceBoard.board, s) && PawnTake(c, s, t, enemy, st.enPassantSquare.board)) ||
        SinglePush(c, square, t, occupied) || DoublePush(c, square, t, occupied)
  {
    var p := pieceBoard.boardType.value;
    var c := ColorOf(p);
    var collisions := Board(st, AllPieces);
    NoBits();
    assert pieceBoard.board == 0 ==> !PawnOnLastRank(pieceBoard.board);
    var attacks :- GenerateAttacks(pieceBoard, collisions);
    var opponent := Opposite(c).value;
    var enemy := Board(st, PieceGroup(opponent)).board;
    var captures := And(attacks.board, Or(enemy, st.enPassantSquare.board));
    var squares := Serialize(pieceBoard.board);
    if |squares| == 0 then
      assert pieceBoard.board == 0 by {
        if pieceBoard.board != 0 {
          SerializeFirst(pieceBoard.board);
        }
      }
      Err(IndexError)
    else
      SerializeFirst(pieceBoard.board);
      var square := squares[0];
      var pushes := Pushes(c, square, collisions.board);
      var moves := Or(captures, pushes);
      AndWord(attacks.board, Or(enemy, st.enPassantSquare.board));
      OrWord(captures, pushes);
      PawnMoveBits(pieceBoard, collisions.board, attacks.board, enemy, st.enPassantSquare.board, captures, pushes, square);
      NewWord(moves, pieceBoard.boardType);
      New(moves, pieceBoard.boardType)
  }

  lemma PawnMoveBits(pb: BitBoard, o: int, attacks: int, enemy: int, ep: int, captures: int, pushes: int, square: nat)
    requires pb.boardType.Some? && TypeOf(pb.boardType.value) == Pawn
    requires forall t: nat :: Has(attacks, t) <==>
      exists s: nat :: Has(pb.board, s) && AttackedFrom(pb.boardType.value, o, s, t)
    requires captures == And(attacks, Or(enemy, ep))
    requires forall t: nat :: Has(pushes, t) <==>
      SinglePush(ColorOf(pb.boardType.value), square, t, o) || DoublePush(ColorOf(pb.boardType.value), square, t, o)
    ensures var c := ColorOf(pb.boardType.value);
      forall t: nat :: Has(Or(captures, pushes), t) <==>
        (exists s: nat :: Has(pb.board, s) && PawnTake(c, s, t, enemy, ep)) ||
        SinglePush(c, square, t, o) || DoublePush(c, square, t, o)
  {
    var c := ColorOf(pb.boardType.value);
    forall t: nat
      ensures Has(Or(captures, pushes), t) <==>
        (exists s: nat :: Has(pb.board, s) && PawnTake(c, s, t, enemy, ep)) ||
        SinglePush(c, square, t, o) || DoublePush(c, square, t, o)
    {
      HasOr(captures, pushes, t);
      HasAnd(attacks, Or(enemy, ep), t);
      HasOr(enemy, ep, t);
      if Has(attacks, t) {
        var s: nat :| Has(pb.board, s) && AttackedFrom(pb.boardType.value, o, s, t);
        assert PawnCapture(c, s, t);
      }
      if exists s: nat :: Has(pb.board, s) && PawnTake(c, s, t, enemy, ep) {
        var s: nat :| Has(pb.board, s) && PawnTake(c, s, t, enemy, ep);
        assert AttackedFrom(pb.boardType.value, o, s, t);
      }
    }
  }

  // ---------------------------------------------------------------------
  // Kings

  /** No square in `lo..hi-1` is attacked by colour `c`. */
  ghost predicate Unattacked(st: BoardState, c: Color, lo: nat, hi: nat)
    requires WellFormed(st)
  {
    forall k: nat :: lo <= k < hi ==> !Attacked(st, c, k)
  }

  /** The king of colour `c` may castle onto `t`: the short castle onto g1/g8
      or the long one onto c1/c8, each needing the one right both sides test,
      an unattacked king path and an empty rook path. */
  ghost predicate CastleTarget(st: BoardState, c: Color, t: nat)
    requires WellFormed(st) && c != AnyColor
  {
    var home := if c == White then 0 else 56;
    var right := Has(st.castlingRights, if c == White then 0 else 2);
    var enemy := Opposite(c).value;
    var occupied := Board(st, AllPieces).board;
    right &&
    ((t == home + 6 && Unattacked(st, enemy, home + 4, home + 7) && NoneIn(occupied, home + 5, home + 7)) ||
     (t == home + 2 && Unattacked(st, enemy, home + 2, home + 5) && NoneIn(occupied, home + 1, home + 4)))
  }

  /** A king of colour `c` on `s` may step to `t`: a neighbouring square that
      holds no own piece and that the enemy does not attack. */
  ghost predicate KingTarget(st: BoardState, c: Color, s: nat, t: nat)
    requires WellFormed(st) && c != AnyColor
  {
    KingStep(s, t) && !Attacked(st, Opposite(c).value, t) &&
    !Has(Board(st, PieceGroup(c)).board, t)
  }

  /** `generate_king_moves`: king steps off own pieces and attacked squares,
      plus the castling moves. */
  function KingMoves(pieceBoard: BitBoard, st: BoardState): (r: Result<BitBoard>)
    requires WellFormed(st) && Valid(pieceBoard)
    requires pieceBoard.boardType.Some? && TypeOf(pieceBoard.boardType.value) == King
    ensures var c := ColorOf(pieceBoard.boardType.value);
      r.Err? <==> c == Black && PawnOnLastRank(Board(st, WhitePawn).board)
    ensures r.Ok? ==> Valid(r.value) && r.value.boardType == pieceBoard.boardType
    ensures r.Ok? ==>
      var c := ColorOf(pieceBoard.boardType.value);
      forall t: nat :: Has(r.value.board, t) <==>
        (exists s: nat :: Has(pieceBoard.board, s) && KingTarget(st, c, s, t)) || CastleTarget(st, c, t)
  {
    var p := pieceBoard.boardType.value;
    var c := ColorOf(p);
    var collisions := Board(st, AllPieces);
    var own := Board(st, PieceGroup(c)).board;
    var kingAttacks := GenerateAttacks(pieceBoard, collisions).value;
    var opponent := Opposite(c).value;
    var enemyAttacks :- AttacksByColor(st, opponent);
    var kingMoves := Xor(kingAttacks.board, And(Or(enemyAttacks.board, own), kingAttacks.board));
    var castle := GetCastlingMoves(c, st.castlingRights, enemyAttacks, collisions).value;
    var moves := Or(kingMoves, castle.board);
    Without(kingAttacks.board, Or(enemyAttacks.board, own), And(Or(enemyAttacks.board, own), kingAttacks.board));
    OrWord(kingMoves, castle.board);
    KingStepBits(st, c, pieceBoard, kingAttacks.board, enemyAttacks.board, kingMoves);
    CastleBits(st, c, enemyAttacks, castle);
    KingMoveUnion(st, c, pieceBoard, kingMoves, castle.board);
    NewWord(moves, pieceBoard.boardType);
    New(moves, pieceBoard.boardType)
  }

  lemma KingStepBits(st: BoardState, c: Color, pb: BitBoard, attacks: int, enemy: int, steps: int)
    requires WellFormed(st) && c != AnyColor
    requires pb.boardType.Some? && TypeOf(pb.boardType.value) == King
    requires forall t: nat :: Has(attacks, t) <==>
      exists s: nat :: Has(pb.board, s) && AttackedFrom(pb.boardType.value, Board(st, AllPieces).board, s, t)
    requires forall t: nat :: Has(enemy, t) <==> Attacked(st, Opposite(c).value, t)
    requires forall t: nat :: Has(steps, t) <==>
      Has(attacks, t) && !Has(Or(enemy, Board(st, PieceGroup(c)).board), t)
    ensures forall t: nat :: Has(steps, t) <==> exists s: nat :: Has(pb.board, s) && KingTarget(st, c, s, t)
  {
    var o := Board(st, AllPieces).board;
    var own := Board(st, PieceGroup(c)).board;
    forall t: nat
      ensures Has(steps, t) <==> exists s: nat :: Has(pb.board, s) && KingTarget(st, c, s, t)
    {
      HasOr(enemy, own, t);
      if Has(attacks, t) {
        var s: nat :| Has(pb.board, s) && AttackedFrom(pb.boardType.value, o, s, t);
        assert KingStep(s, t);
      }
      if exists s: nat :: Has(pb.board, s) && KingTarget(st, c, s, t) {
        var s: nat :| Has(pb.board, s) && KingTarget(st, c, s, t);
        assert AttackedFrom(pb.boardType.value, o, s, t);
      }
    }
  }

  /** The castling board of `get_castling_moves` is exactly the castling targets. */
  lemma CastleBits(st: BoardState, c: Color, enemy: BitBoard, castle: BitBoard)
    requires WellFormed(st) && c != AnyColor && Valid(enemy)
    requires forall t: nat :: Has(enemy.board, t) <==> Attacked(st, Opposite(c).value, t)
    requires GetCastlingMoves(c, st.castlingRights, enemy, Board(st, AllPieces)) == Some(castle)
    ensures forall t: nat :: Has(castle.board, t) <==> CastleTarget(st, c, t)
  {
    var home: nat := if c == White then 0 else 56;
    forall lo: nat, hi: nat
      ensures NoneIn(enemy.board, lo, hi) == Unattacked(st, Opposite(c).value, lo, hi)
    {
    }
    assert NoneIn(enemy.board, home + 4, home + 7) == Unattacked(st, Opposite(c).value, home + 4, home + 7);
    assert NoneIn(enemy.board, home + 2, home + 5) == Unattacked(st, Opposite(c).value, home + 2, home + 5);
  }

  lemma KingMoveUnion(st: BoardState, c: Color, pb: BitBoard, steps: int, castle: int)
    requires WellFormed(st) && c != AnyColor
    requires forall t: nat :: Has(steps, t) <==> exists s: nat :: Has(pb.board, s) && KingTarget(st, c, s, t)
    requires forall t: nat :: Has(castle, t) <==> CastleTarget(st, c, t)
    ensures forall t: nat :: Has(Or(steps, castle), t) <==>
      (exists s: nat :: Has(pb.board, s) && KingTarget(st, c, s, t)) || CastleTarget(st, c, t)
  {
    forall t: nat
      ensures Has(Or(steps, castle), t) <==>
        (exists s: nat :: Has(pb.board, s) && KingTarget(st, c, s, t)) || CastleTarget(st, c, t)
    {
      HasOr(steps, castle, t);
    }
  }

  // ---------------------------------------------------------------------
  // Dispatch and the move list

  /** `generate_moves`: pawn and king boards have their own generators, every
      other board goes to the knight and slider generator. */
  function GenerateMoves(pieceBoard: BitBoard, st: BoardState): (r: Result<BitBoard>)
    requires WellFormed(st) && Valid(pieceBoard)
    ensures pieceBoard.boardType.None? ==> r == Err(AttributeError)
    ensures pieceBoard.boardType.Some? && TypeOf(pieceBoard.boardType.value) == Pawn ==>
      (r.Err? <==>
        (pieceBoard.boardType == Some(WhitePawn) && PawnOnLastRank(pieceBoard.board)) || pieceBoard.board == 0)
    ensures pieceBoard.boardType.Some? && TypeOf(pieceBoard.boardType.value) == King ==>
      (r.Err? <==> ColorOf(pieceBoard.boardType.value) == Black && PawnOnLastRank(Board(st, WhitePawn).board))
    ensures pieceBoard.boardType.Some? && TypeOf(pieceBoard.boardType.value) != Pawn &&
            TypeOf(pieceBoard.boardType.value) != King ==>
      (r.Err? <==> !IsReal(pieceBoard.boardType.value))
    ensures r.Ok? ==> Valid(r.value) && r.value.boardType == pieceBoard.boardType
  {
    if pieceBoard.boardType.None? then Err(AttributeError)
    else
      match TypeOf(pieceBoard.boardType.value)
      case Pawn => PawnMoves(pieceBoard, st)
      case King => KingMoves(pieceBoard, st)
      case _ => SlidingAndKnightMoves(pieceBoard, st)
  }

  /** No generated move lands on a piece of the mover's own colour, except
      that a pawn may take on a square the enemy also holds or on the
      en-passant square. */
  lemma MovesAvoidOwn(pieceBoard: BitBoard, st: BoardState)
    requires WellFormed(st) && Valid(pieceBoard) && Synced(st.pieceLocations)
    requires GenerateMoves(pieceBoard, st).Ok?
    ensures var p := pieceBoard.boardType.value;
      forall t: nat :: Has(GenerateMoves(pieceBoard, st).value.board, t) ==>
        !Has(OwnPieces(st, p).board, t) ||
        (TypeOf(p) == Pawn &&
         (Has(Board(st, PieceGroup(Opposite(ColorOf(p)).value)).board, t) || Has(st.enPassantSquare.board, t)))
  {
    var p := pieceBoard.boardType.value;
    var c := ColorOf(p);
    var r := GenerateMoves(pieceBoard, st).value;
    OwnInOccupied(st, c);
    match TypeOf(p)
    case Pawn =>
      assert r == PawnMoves(pieceBoard, st).value;
      PawnAvoidsOwn(st, c, pieceBoard, r.board);
    case King =>
      assert r == KingMoves(pieceBoard, st).value;
      KingAvoidsOwn(st, c, pieceBoard, r.board);
    case _ =>
  }

  lemma PawnAvoidsOwn(st: BoardState, c: Color, pb: BitBoard, moves: int)
    requires WellFormed(st) && c != AnyColor && pb.board != 0
    requires forall t: nat :: Has(moves, t) <==>
      (exists s: nat :: Has(pb.board, s) &&
         PawnTake(c, s, t, Board(st, PieceGroup(Opposite(c).value)).board, st.enPassantSquare.board)) ||
      SinglePush(c, Lowest(pb.board), t, Board(st, AllPieces).board) ||
      DoublePush(c, Lowest(pb.board), t, Board(st, AllPieces).board)
    ensures (forall t: nat :: Has(Board(st, PieceGroup(c)).board, t) ==> Has(Board(st, AllPieces).board, t)) ==>
      forall t: nat :: Has(moves, t) ==>
        !Has(Board(st, PieceGroup(c)).board, t) ||
        Has(Board(st, PieceGroup(Opposite(c).value)).board, t) || Has(st.enPassantSquare.board, t)
  {
  }

  /** In a synchronised position every own piece is in the all-pieces board. */
  lemma OwnInOccupied(st: BoardState, c: Color)
    requires WellFormed(st)
    ensures Synced(st.pieceLocations) ==>
      forall t: nat :: Has(Board(st, PieceGroup(c)).board, t) ==> Has(Board(st, AllPieces).board, t)
  {
    assert c == AnyColor ==> PieceGroup(c) == AllPieces;
  }

  lemma KingAvoidsOwn(st: BoardState, c: Color, pb: BitBoard, moves: int)
    requires WellFormed(st) && c != AnyColor
    requires forall t: nat :: Has(moves, t) <==>
      (exists s: nat :: Has(pb.board, s) && KingTarget(st, c, s, t)) || CastleTarget(st, c, t)
    ensures (forall t: nat :: Has(Board(st, PieceGroup(c)).board, t) ==> Has(Board(st, AllPieces).board, t)) ==>
      forall t: nat :: Has(moves, t) ==> !Has(Board(st, PieceGroup(c)).board, t)
  {
    forall t: nat | Has(moves, t) && (forall u: nat :: Has(Board(st, PieceGroup(c)).board, u) ==> Has(Board(st, AllPieces).board, u))
      ensures !Has(Board(st, PieceGroup(c)).board, t)
    {
      if CastleTarget(st, c, t) {
        assert !Has(Board(st, AllPieces).board, t);
      }
    }
  }

  /** A single-square board of piece `p` on square `s`, as `BitBoard(1 << s, p)`. */
  function SquareBoard(p: ColorChessPiece, s: nat): (b: BitBoard)
    requires s < 64
    ensures Valid(b) && b.boardType == Some(p)
    ensures forall i: nat :: Has(b.board, i) <==> i == s
  {
    ShlPow2(0, s);
    Pow2IsWord(s);
    forall i: nat
      ensures Has(Shl(1, s), i) <==> i == s
    {
      HasPow2(s, i);
    }
    NewWord(Shl(1, s), Some(p));
    New(Shl(1, s), Some(p)).value
  }

  /** The moves of piece `p` standing alone on square `s`. */
  function MovesFrom(st: BoardState, p: ColorChessPiece, s: nat): Result<BitBoard>
    requires WellFormed(st) && s < 64
  {
    GenerateMoves(SquareBoard(p, s), st)
  }

  /** The serialised moves of piece `p` alone on square `s`. */
  function Targets(st: BoardState, p: ColorChessPiece, s: nat): (r: Result<seq<nat>>)
    requires WellFormed(st) && s < 64
    ensures r.Err? <==> MovesFrom(st, p, s).Err?
    ensures r.Ok? ==> r.value == Serialize(MovesFrom(st, p, s).value.board)
  {
    var m :- MovesFrom(st, p, s);
    Ok(Serialize(m.board))
  }

  /** One entry of the move list: the target squares, the piece and its square. */
  type MoveEntry = (seq<nat>, ColorChessPiece, nat)

  /** The (piece, square) pairs the list is built from: every square of every
      piece of `ps`, piece by piece and lowest square first. */
  function Placements(st: BoardState, ps: seq<ColorChessPiece>): (r: seq<(ColorChessPiece, nat)>)
    requires WellFormed(st)
    ensures forall p, s: nat :: (p, s) in r <==> p in ps && Has(Board(st, p).board, s)
    ensures forall k :: 0 <= k < |r| ==> r[k].1 < 64
    decreases |ps|
  {
    if ps == [] then []
    else
      var b := Board(st, ps[0]);
      OnBoardSquares(b);
      var squares := Serialize(b.board);
      var here := seq(|squares|, k requires 0 <= k < |squares| => (ps[0], squares[k]));
      var rest := Placements(st, ps[1..]);
      assert forall p, s: nat :: (p, s) in here <==> p == ps[0] && Has(b.board, s) by {
        forall p, s: nat | p == ps[0] && Has(b.board, s)
          ensures (p, s) in here
        {
          var k :| 0 <= k < |squares| && squares[k] == s;
          assert here[k] == (p, s);
        }
      }
      here + rest
  }

  /** Squares of a 64-bit board are below 64. */
  lemma OnBoardSquares(b: BitBoard)
    requires Valid(b)
    ensures forall s: nat :: Has(b.board, s) ==> s < 64
  {
    forall s: nat | Has(b.board, s)
      ensures s < 64
    {
      if s >= 64 {
        WordHigh(b.board, s);
      }
    }
  }

  /** Builds one entry per pair, in order; the first failing pair's error wins. */
  function Collect(targets: (ColorChessPiece, nat) -> Result<seq<nat>>, pairs: seq<(ColorChessPiece, nat)>): (r: Result<seq<MoveEntry>>)
    ensures r.Err? <==> exists pair :: pair in pairs && targets(pair.0, pair.1).Err?
    ensures r.Ok? ==> forall e :: e in r.value <==>
      exists pair :: pair in pairs && e == (targets(pair.0, pair.1).value, pair.0, pair.1)
    ensures r.Ok? ==> |r.value| == |pairs|
    decreases |pairs|
  {
    if pairs == [] then Ok([])
    else
      var moves :- targets(pairs[0].0, pairs[0].1);
      var rest :- Collect(targets, pairs[1..]);
      assert forall pair :: pair in pairs <==> pair == pairs[0] || pair in pairs[1..];
      Ok([(moves, pairs[0].0, pairs[0].1)] + rest)
  }

  /** `generate_all_moves`: for each piece of the side to move, in enum order,
      and each of its squares, lowest first, the serialised moves of that
      piece alone on that square; any failing generator fails the whole list. */
  function GenerateAllMoves(st: BoardState): (r: Result<seq<MoveEntry>>)
    requires WellFormed(st)
    ensures r.Err? <==> exists p, s: nat ::
      IsReal(p) && ColorOf(p) == ToMove(st) && Has(Board(st, p).board, s) && s < 64 && Targets(st, p, s).Err?
    ensures r.Ok? ==> forall e :: e in r.value ==>
      IsReal(e.1) && ColorOf(e.1) == ToMove(st) && Has(Board(st, e.1).board, e.2) && e.2 < 64 &&
      Targets(st, e.1, e.2) == Ok(e.0)
    ensures r.Ok? ==> forall p, s: nat :: IsReal(p) && ColorOf(p) == ToMove(st) && Has(Board(st, p).board, s) ==>
      s < 64 && Targets(st, p, s).Ok? && (Targets(st, p, s).value, p, s) in r.value
  {
    var pairs := Placements(st, PiecesByColor(ToMove(st)));
    var targets := (p: ColorChessPiece, s: nat) => if s < 64 then Targets(st, p, s) else Err(IndexError);
    Collect(targets, pairs)
  }
}
