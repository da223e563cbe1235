/** The game logic of `backend/core/game/chess_board.py`: the piece on a square,
    the check test, the legality filter, applying a validated move and
    classifying the position. Each method of `ChessBoard` reads only the
    position the board holds, so each becomes a function of a `BoardState`. */
module Game {
  import opened Wrappers
  import opened Bits
  import opened Squares
  import opened Pieces
  import opened BitBoards
  import opened State
  import opened Attacks
  import opened Castling
  import opened PawnRules
  import opened Moves

  // ---------------------------------------------------------------------
  // Bit tests

  /** `board & (1 << square) != 0` tests bit `square`. */
  lemma BitTest(b: int, square: nat)
    ensures (And(b, Shl(1, square)) != 0) == Has(b, square)
  {
    ShlPow2(0, square);
    AndPow2(b, square);
    HasPow2(square, square);
    NoBits();
  }

  /** Two boards share a square exactly when their intersection is non-zero. */
  lemma AndNonZero(a: int, b: int)
    ensures (And(a, b) != 0) <==> exists t: nat :: Has(a, t) && Has(b, t)
  {
    NoBits();
    forall t: nat
      ensures Has(And(a, b), t) == (Has(a, t) && Has(b, t))
    {
      HasAnd(a, b, t);
    }
    if And(a, b) != 0 {
      if forall t: nat :: !Has(And(a, b), t) {
        Extensional(And(a, b), 0);
        assert false;
      }
      var t: nat :| Has(And(a, b), t);
      assert Has(a, t) && Has(b, t);
      assert exists t: nat :: Has(a, t) && Has(b, t);
    } else {
      assert forall t: nat :: !Has(And(a, b), t);
    }
  }

  // ---------------------------------------------------------------------
  // The piece on a square

  /** The position, at or after `k`, of the first real piece of `ps` whose
      board holds `square`. */
  function FirstOn(st: BoardState, square: nat, ps: seq<ColorChessPiece>, k: nat): (r: Option<nat>)
    requires WellFormed(st) && k <= |ps|
    ensures r.Some? ==> k <= r.value < |ps| && IsReal(ps[r.value]) && Has(Board(st, ps[r.value]).board, square)
    ensures r.Some? ==> forall i :: k <= i < r.value && IsReal(ps[i]) ==> !Has(Board(st, ps[i]).board, square)
    ensures r.None? <==> forall i :: k <= i < |ps| && IsReal(ps[i]) ==> !Has(Board(st, ps[i]).board, square)
    decreases |ps| - k
  {
    if k == |ps| then None
    else
      var b := Board(st, ps[k]).board;
      BitTest(b, square);
      if TypeOf(ps[k]) != AnyType && And(b, Shl(1, square)) != 0 then Some(k)
      else FirstOn(st, square, ps, k + 1)
  }

  /** Enum positions and `Order` agree both ways. */
  lemma IndexOfOrder()
    ensures forall i :: 0 <= i < |Order| ==> Index(Order[i]) == i
  {}

  /** `get_piece_on_square`: the first real piece, in enum order, standing on
      `square`. A negative square makes the shift `1 << square` raise. */
  function GetPieceOnSquare(st: BoardState, square: int): (r: Result<Option<ColorChessPiece>>)
    requires WellFormed(st)
    ensures r.Err? <==> square < 0
    ensures r.Err? ==> r.error == ValueError
    ensures r.Ok? ==> (r.value.None? <==> forall q :: IsReal(q) ==> !Has(Board(st, q).board, square))
    ensures r.Ok? && r.value.Some? ==>
      var p := r.value.value;
      IsReal(p) && Has(Board(st, p).board, square) &&
      forall q :: IsReal(q) && Index(q) < Index(p) ==> !Has(Board(st, q).board, square)
    ensures square >= 64 ==> r == Ok(None)
  {
    if square < 0 then Err(ValueError)
    else
      OffBoardEmpty(st, square);
      var j := FirstOn(st, square, Order, 0);
      var r := if j.None? then None else Some(Order[j.value]);
      FirstInOrder(st, square, j, r);
      Ok(r)
  }

  lemma FirstInOrder(st: BoardState, square: nat, j: Option<nat>, r: Option<ColorChessPiece>)
    requires WellFormed(st) && j == FirstOn(st, square, Order, 0)
    requires r == if j.None? then None else Some(Order[j.value])
    ensures r.None? <==> forall q :: IsReal(q) ==> !Has(Board(st, q).board, square)
    ensures r.Some? ==>
      IsReal(r.value) && Has(Board(st, r.value).board, square) &&
      forall q :: IsReal(q) && Index(q) < Index(r.value) ==> !Has(Board(st, q).board, square)
  {
    IndexOfOrder();
    if r.None? {
      forall q | IsReal(q)
        ensures !Has(Board(st, q).board, square)
      {
        assert Order[Index(q)] == q;
      }
    } else {
      var p := r.value;
      assert Index(p) == j.value;
      forall q | IsReal(q) && Index(q) < Index(p)
        ensures !Has(Board(st, q).board, square)
      {
        assert Order[Index(q)] == q;
      }
    }
  }

  /** No board of a well-formed position holds a square beyond 63. */
  lemma OffBoardEmpty(st: BoardState, square: nat)
    requires WellFormed(st)
    ensures square >= 64 ==> forall q :: !Has(Board(st, q).board, square)
  {
    if square >= 64 {
      forall q
        ensures !Has(Board(st, q).board, square)
      {
        WordHigh(Board(st, q).board, square);
      }
    }
  }

  /** A square holding a piece is on the board. */
  lemma OccupiedOnBoard(st: BoardState, square: int)
    requires WellFormed(st)
    ensures GetPieceOnSquare(st, square).Ok? && GetPieceOnSquare(st, square).value.Some? ==> 0 <= square < 64
  {
  }

  // ---------------------------------------------------------------------
  // Check

  /** `__is_king_in_check`: the king of `color` stands on a square the other
      colour attacks. Looking up the king of `AnyColor` raises. */
  function IsKingInCheck(st: BoardState, color: Color): (r: Result<bool>)
    requires WellFormed(st)
    ensures color == AnyColor ==> r == Err(ValueError)
    ensures color != AnyColor ==> (r.Err? <==> color == Black && PawnOnLastRank(Board(st, WhitePawn).board))
    ensures r.Ok? ==> (r.value <==> exists t: nat ::
      Has(Board(st, Make(color, King)).board, t) && Attacked(st, Opposite(color).value, t))
  {
    var king :- PieceByType(color, King);
    var attacks :- AttacksByColor(st, Opposite(color).value);
    AndNonZero(attacks.board, Board(st, king).board);
    Ok(And(attacks.board, Board(st, king).board) != 0)
  }

  /** The king of colour `c` stands on no square the other colour attacks. */
  ghost predicate KingSafe(st: BoardState, c: Color)
    requires WellFormed(st) && c != AnyColor
  {
    forall t: nat :: Has(Board(st, Make(c, King)).board, t) ==> !Attacked(st, Opposite(c).value, t)
  }

  // ---------------------------------------------------------------------
  // The legality filter

  /** The board edits of one simulated candidate: the occupant (if any) loses
      `move`, then the piece leaves `square` and lands on `move`. */
  function SimulatedBoards(locs: Locations, piece: ColorChessPiece, occupant: Option<ColorChessPiece>,
                           square: nat, move: nat): (r: Result<Locations>)
    requires Complete(locs)
    ensures r.Ok? <==> square < 64 && move < 64
    ensures r.Ok? ==> Complete(r.value)
    ensures r.Ok? ==> forall i: nat ::
      Has(r.value[piece].board, i) <==> i == move || (Has(locs[piece].board, i) && i != square)
    ensures r.Ok? ==> forall p :: p != piece ==> forall i: nat ::
      Has(r.value[p].board, i) <==> Has(locs[p].board, i) && !(i == move && occupant == Some(p))
  {
    var locs1 :- if occupant.Some? then
        var taken :- ClearBit(locs[occupant.value], move);
        Replaced(locs, occupant.value, taken);
        Ok(locs[occupant.value := taken])
      else Ok(locs);
    var lifted :- ClearBit(locs1[piece], square);
    var placed :- SetBit(lifted, move);
    Replaced(locs1, piece, placed);
    Ok(locs1[piece := placed])
  }

  /** The simulation `_validate_moves` runs for one candidate: the occupant of
      `move` (if any) loses that square, the piece leaves `square` and lands on
      `move`, the aggregates are recomputed and the turn passes. Nothing else
      happens: no en-passant victim is removed and no castling rook moves. */
  function Simulate(st: BoardState, piece: ColorChessPiece, square: nat, move: nat): (r: Result<BoardState>)
    requires WellFormed(st)
    ensures r.Ok? <==> square < 64 && move < 64
    ensures r.Ok? ==> WellFormed(r.value) && Synced(r.value.pieceLocations)
    ensures r.Ok? ==> r.value == st.(pieceLocations := r.value.pieceLocations, isWhitesTurn := !st.isWhitesTurn)
    ensures r.Ok? && IsReal(piece) ==> forall i: nat ::
      Has(r.value.pieceLocations[piece].board, i) <==> i == move || (Has(Board(st, piece).board, i) && i != square)
    ensures r.Ok? ==> forall p :: IsReal(p) && p != piece ==> forall i: nat ::
      Has(r.value.pieceLocations[p].board, i) <==>
        Has(Board(st, p).board, i) && !(i == move && GetPieceOnSquare(st, move) == Ok(Some(p)))
  {
    var occupant := GetPieceOnSquare(st, move).value;
    var locs :- SimulatedBoards(st.pieceLocations, piece, occupant, square, move);
    Ok(st.(pieceLocations := UpdateAllPieces(locs), isWhitesTurn := !st.isWhitesTurn))
  }

  /** One step of the filter: simulate the candidate and keep it when the
      mover's king is then not attacked. */
  function Legal(st: BoardState, piece: ColorChessPiece, square: nat, move: nat): (r: Result<bool>)
    requires WellFormed(st)
    ensures r.Err? <==>
      !(square < 64 && move < 64) || ColorOf(piece) == AnyColor ||
      (ColorOf(piece) == Black && PawnOnLastRank(Board(Simulate(st, piece, square, move).value, WhitePawn).board))
    ensures r.Ok? ==>
      Simulate(st, piece, square, move).Ok? && ColorOf(piece) != AnyColor &&
      (r.value <==> KingSafe(Simulate(st, piece, square, move).value, ColorOf(piece)))
  {
    var sim :- Simulate(st, piece, square, move);
    var check :- IsKingInCheck(sim, ColorOf(piece));
    Ok(!check)
  }

  /** The elements of `candidates`, in order, for which `keep` holds; the
      first failing test fails the whole filter. */
  function Filter(keep: nat -> Result<bool>, candidates: seq<nat>): (r: Result<seq<nat>>)
    ensures r.Err? <==> exists m :: m in candidates && keep(m).Err?
    ensures r.Ok? ==> forall m :: m in r.value <==> m in candidates && keep(m) == Ok(true)
    ensures r.Ok? ==> |r.value| <= |candidates|
    decreases |candidates|
  {
    if candidates == [] then Ok([])
    else
      var first :- keep(candidates[0]);
      var rest :- Filter(keep, candidates[1..]);
      assert forall m :: m in candidates <==> m == candidates[0] || m in candidates[1..];
      Ok(if first then [candidates[0]] + rest else rest)
  }

  /** `_validate_moves`: the candidates, in order, that leave the mover's king
      unattacked. */
  function ValidateMoves(st: BoardState, candidates: seq<nat>, piece: ColorChessPiece, square: nat): (r: Result<seq<nat>>)
    requires WellFormed(st)
    ensures r.Err? <==> exists m :: m in candidates && Legal(st, piece, square, m).Err?
    ensures r.Ok? ==> forall m :: m in r.value <==> m in candidates && Legal(st, piece, square, m) == Ok(true)
    ensures r.Ok? ==> |r.value| <= |candidates|
  {
    Filter((m: nat) => Legal(st, piece, square, m), candidates)
  }

  /** `get_moves`: the legal moves of the piece on `square`; an empty square
      has none. */
  function GetMoves(st: BoardState, square: int): (r: Result<seq<nat>>)
    requires WellFormed(st)
    ensures square < 0 ==> r == Err(ValueError)
    ensures square >= 0 && GetPieceOnSquare(st, square).value.None? ==> r == Ok([])
    ensures r.Err? <==>
      square < 0 ||
      (exists p :: 0 <= square < 64 && GetPieceOnSquare(st, square) == Ok(Some(p)) &&
        (Targets(st, p, square).Err? || ValidateMoves(st, Targets(st, p, square).value, p, square).Err?))
    ensures r.Ok? ==> forall m :: m in r.value <==>
      exists p :: 0 <= square < 64 && GetPieceOnSquare(st, square) == Ok(Some(p)) &&
        Targets(st, p, square).Ok? && m in Targets(st, p, square).value && Legal(st, p, square, m) == Ok(true)
  {
    var occupant :- GetPieceOnSquare(st, square);
    if occupant.None? then Ok([])
    else
      OccupiedOnBoard(st, square);
      var candidates :- Targets(st, occupant.value, square);
      ValidateMoves(st, candidates, occupant.value, square)
  }

  /** `__validate_move`: the mover must be the side to move and the target one
      of its legal moves. With no piece, reading its colour raises. */
  function ValidateMove(st: BoardState, origin: int, target: int, piece: Option<ColorChessPiece>): (r: Result<()>)
    requires WellFormed(st)
    ensures piece.None? ==> r == Err(AttributeError)
    ensures piece.Some? && (ColorOf(piece.value) == White) != st.isWhitesTurn ==> r == Err(ValueError)
    ensures piece.Some? && (ColorOf(piece.value) == White) == st.isWhitesTurn ==>
      (r.Ok? <==> GetMoves(st, origin).Ok? && target in GetMoves(st, origin).value)
  {
    if piece.None? then Err(AttributeError)
    else if (ColorOf(piece.value) == White) != st.isWhitesTurn then Err(ValueError)
    else
      var moves :- GetMoves(st, origin);
      if target in moves then Ok(()) else Err(ValueError)
  }

  /** Every move `get_moves` returns is a pseudo-legal move of the piece on the
      square, lies on the board, and leaves the mover's king unattacked once
      simulated. */
  lemma GetMovesSound(st: BoardState, square: int, m: nat)
    requires WellFormed(st)
    requires GetMoves(st, square).Ok? && m in GetMoves(st, square).value
    ensures 0 <= square < 64 && m < 64
    ensures var p := GetPieceOnSquare(st, square).value.value;
      IsReal(p) && MovesFrom(st, p, square).Ok? && Has(MovesFrom(st, p, square).value.board, m) &&
      Simulate(st, p, square, m).Ok? && KingSafe(Simulate(st, p, square, m).value, ColorOf(p))
  {
    var p :| 0 <= square < 64 && GetPieceOnSquare(st, square) == Ok(Some(p)) &&
      Targets(st, p, square).Ok? && m in Targets(st, p, square).value && Legal(st, p, square, m) == Ok(true);
  }

  // ---------------------------------------------------------------------
  // Applying a move

  /** `__handle_capture`: capturing a rook applies the corner rule to the
      rights; the captured piece loses the target square. */
  function HandleCapture(enemy: ColorChessPiece, target: int, rights: int, locs: Locations): (r: Result<(int, Locations)>)
    requires Complete(locs)
    ensures r.Ok? <==> 0 <= target < 64
    ensures r.Ok? ==> forall i: nat :: Has(r.value.0, i) ==> Has(rights, i)
    ensures r.Ok? && TypeOf(enemy) != Rook ==> r.value.0 == rights
    ensures r.Ok? && TypeOf(enemy) == Rook && target !in {0, 7, 56, 63} ==> r.value.0 == rights
    ensures r.Ok? && TypeOf(enemy) == Rook ==> r.value.0 == UpdateCastlingRights(rights, enemy, target)
    ensures r.Ok? && TypeOf(enemy) == Rook && target in {0, 7, 56, 63} ==>
      forall i: nat :: Has(r.value.0, i) <==> Has(rights, i) && i < 4 && !RookCorner(target, i)
    ensures r.Ok? ==> Complete(r.value.1) && (forall p :: p != enemy ==> r.value.1[p] == locs[p])
    ensures r.Ok? ==> forall i: nat :: Has(r.value.1[enemy].board, i) <==> Has(locs[enemy].board, i) && i != target
  {
    var updated := if TypeOf(enemy) == Rook then UpdateCastlingRights(rights, enemy, target) else rights;
    RightsOnlyShrink(rights, enemy, target);
    var cleared :- ClearBit(locs[enemy], target);
    Replaced(locs, enemy, cleared);
    Ok((updated, locs[enemy := cleared]))
  }

  /** The board edits of a move, up to the capture: the piece leaves `origin`
      and lands on `target`, a castling king brings its rook, and the pawn
      handler runs. */
  function MovedBoards(st: BoardState, piece: ColorChessPiece, origin: int, target: int): (r: Result<PawnOutcome>)
    requires WellFormed(st)
    ensures r.Ok? ==> 0 <= origin < 64 && 0 <= target < 64
    ensures !(0 <= origin < 64 && 0 <= target < 64) ==> r == Err(ValueError)
    ensures r.Ok? ==> Complete(r.value.locations)
    ensures r.Ok? ==> r.value.fiftyMoveRule == (if TypeOf(piece) == Pawn then 0 else st.fiftyMoveRule + 1)
    ensures r.Ok? && TypeOf(piece) != Pawn ==> r.value.enPassant == 0
    ensures r.Ok? && TypeOf(piece) == Pawn ==> HandleEnPassant(origin, target, ColorOf(piece)) == Ok(r.value.enPassant)
    ensures r.Ok? ==> r.value.enPassant >= 0
    ensures r.Ok? && TypeOf(piece) != Pawn ==> forall i: nat ::
      Has(r.value.locations[piece].board, i) <==> i == target || (Has(Board(st, piece).board, i) && i != origin)
  {
    var lifted :- ClearBit(st.pieceLocations[piece], origin);
    var placed :- SetBit(lifted, target);
    Replaced(st.pieceLocations, piece, placed);
    var locs := st.pieceLocations[piece := placed];
    var castled :- HandleCastling(piece, origin, target, locs);
    assert TypeOf(piece) != Pawn ==> castled[piece] == placed;
    HandlePawnMovement(st, piece, origin, target, castled)
  }

  /** A king moving more than one square castles and brings its rook. */
  predicate Castles(piece: ColorChessPiece, origin: int, target: int)
  {
    TypeOf(piece) == King && Chebyshev(origin, target) > 1
  }

  /** The boards the first steps of a move may edit: the mover's, the rook of a
      castling king, and for a pawn the queen of its colour and the enemy pawn. */
  predicate MoveEdits(piece: ColorChessPiece, origin: int, target: int, q: ColorChessPiece)
  {
    q == piece ||
    (Castles(piece, origin, target) && q == CastlingRookSquares(target).0) ||
    (TypeOf(piece) == Pawn && ColorOf(piece) != AnyColor &&
     (q == Make(ColorOf(piece), Queen) || q == Make(Opposite(ColorOf(piece)).value, Pawn)))
  }

  /** The boards `MovedBoards` hands to the pawn handler: the piece moved and
      the castling rook moved. */
  lemma MovedBoardsSteps(st: BoardState, piece: ColorChessPiece, origin: int, target: int)
      returns (castled: Locations)
    requires WellFormed(st) && MovedBoards(st, piece, origin, target).Ok?
    ensures Complete(castled)
    ensures MovedBoards(st, piece, origin, target) == HandlePawnMovement(st, piece, origin, target, castled)
    ensures forall q :: q != piece && !(Castles(piece, origin, target) && q == CastlingRookSquares(target).0) ==>
      castled[q] == st.pieceLocations[q]
    ensures !Castles(piece, origin, target) ==>
      forall i: nat :: Has(castled[piece].board, i) <==> i == target || (Has(Board(st, piece).board, i) && i != origin)
    ensures Castles(piece, origin, target) ==>
      var (rook, rt, ro) := CastlingRookSquares(target);
      forall i: nat :: Has(castled[rook].board, i) <==> (i == rt || Has(Board(st, rook).board, i)) && i != ro
  {
    var lifted := ClearBit(st.pieceLocations[piece], origin).value;
    var placed := SetBit(lifted, target).value;
    Replaced(st.pieceLocations, piece, placed);
    var locs := st.pieceLocations[piece := placed];
    castled := HandleCastling(piece, origin, target, locs).value;
    if Castles(piece, origin, target) {
      assert CastlingRookSquares(target).0 != piece;
    }
  }

  /** Every board outside the ones the move edits comes through unchanged. */
  lemma MovedBoardsFrame(st: BoardState, piece: ColorChessPiece, origin: int, target: int)
    requires WellFormed(st) && MovedBoards(st, piece, origin, target).Ok?
    ensures forall q :: !MoveEdits(piece, origin, target, q) ==>
      MovedBoards(st, piece, origin, target).value.locations[q] == st.pieceLocations[q]
  {
    var castled := MovedBoardsSteps(st, piece, origin, target);
  }

  /** A castling king's rook leaves its corner for the square the king crossed. */
  lemma MovedBoardsCastling(st: BoardState, piece: ColorChessPiece, origin: int, target: int)
    requires WellFormed(st) && MovedBoards(st, piece, origin, target).Ok?
    requires Castles(piece, origin, target)
    ensures var (rook, rt, ro) := CastlingRookSquares(target);
      forall i: nat :: Has(MovedBoards(st, piece, origin, target).value.locations[rook].board, i) <==>
        (i == rt || Has(Board(st, rook).board, i)) && i != ro
  {
    var castled := MovedBoardsSteps(st, piece, origin, target);
  }

  /** A pawn leaves its origin for the target, and leaves the target again
      when it promotes there. */
  lemma MovedBoardsPawn(st: BoardState, piece: ColorChessPiece, origin: int, target: int)
    requires WellFormed(st) && MovedBoards(st, piece, origin, target).Ok?
    requires TypeOf(piece) == Pawn
    ensures ColorOf(piece) != AnyColor
    ensures forall i: nat :: Has(MovedBoards(st, piece, origin, target).value.locations[piece].board, i) <==>
      (i == target || (Has(Board(st, piece).board, i) && i != origin)) && !(LastRank(ColorOf(piece), target) && i == target)
  {
    var castled := MovedBoardsSteps(st, piece, origin, target);
    assert piece == Make(ColorOf(piece), Pawn);
  }

  /** A pawn reaching its last rank becomes a queen of its colour there; on
      any other rank the queens stay where they were. */
  lemma MovedBoardsPromotion(st: BoardState, piece: ColorChessPiece, origin: int, target: int)
    requires WellFormed(st) && MovedBoards(st, piece, origin, target).Ok?
    requires TypeOf(piece) == Pawn
    ensures ColorOf(piece) != AnyColor
    ensures var r := MovedBoards(st, piece, origin, target).value.locations;
      var queen := Make(ColorOf(piece), Queen);
      (LastRank(ColorOf(piece), target) ==>
        forall i: nat :: Has(r[queen].board, i) <==> Has(Board(st, queen).board, i) || i == target) &&
      (!LastRank(ColorOf(piece), target) ==> r[queen] == st.pieceLocations[queen])
  {
    var castled := MovedBoardsSteps(st, piece, origin, target);
    var queen := Make(ColorOf(piece), Queen);
    assert queen != piece && !Castles(piece, origin, target);
    assert castled[queen] == st.pieceLocations[queen];
  }

  /** A pawn landing on the en-passant square removes the enemy pawn behind it;
      any other pawn move leaves the enemy pawns alone. */
  lemma MovedBoardsEnPassant(st: BoardState, piece: ColorChessPiece, origin: int, target: int)
    requires WellFormed(st) && MovedBoards(st, piece, origin, target).Ok?
    requires TypeOf(piece) == Pawn
    ensures ColorOf(piece) != AnyColor
    ensures var r := MovedBoards(st, piece, origin, target).value.locations;
      var c := ColorOf(piece);
      var victim := Make(Opposite(c).value, Pawn);
      (target == BitLength(st.enPassantSquare.board) - 1 ==>
        forall i: nat :: Has(r[victim].board, i) <==>
          Has(Board(st, victim).board, i) && i != VictimSquare(st.enPassantSquare, c)) &&
      (target != BitLength(st.enPassantSquare.board) - 1 ==> r[victim] == st.pieceLocations[victim])
  {
    var castled := MovedBoardsSteps(st, piece, origin, target);
    assert Make(Opposite(ColorOf(piece)).value, Pawn) != piece;
  }

  /** `BitBoard(en_passant_square)`: the constructor range-checks the value. */
  function EnPassantBoard(x: int): (r: Result<BitBoard>)
    requires x >= 0
    ensures r.Ok? <==> x < Word
    ensures r.Ok? ==> Valid(r.value) && r.value.board == x && r.value.boardType == None
  {
    assert x < Word ==> x % Word == x;
    New(x, None)
  }

  /** Lines 74-79 of `_generate_move_board_state`: the piece that stood on the
      target in the position before the move is taken. */
  function TakeOccupant(st: BoardState, target: int, rights: int, locs: Locations): (r: (int, Locations))
    requires WellFormed(st) && 0 <= target < 64 && Complete(locs)
    ensures Complete(r.1)
    ensures forall i: nat :: Has(r.0, i) ==> Has(rights, i)
    ensures forall e :: GetPieceOnSquare(st, target) == Ok(Some(e)) ==>
      forall i: nat :: Has(r.1[e].board, i) <==> Has(locs[e].board, i) && i != target
    ensures forall e :: GetPieceOnSquare(st, target) == Ok(Some(e)) ==>
      r.0 == if TypeOf(e) == Rook then UpdateCastlingRights(rights, e, target) else rights
    ensures forall p :: GetPieceOnSquare(st, target) != Ok(Some(p)) ==> r.1[p] == locs[p]
    ensures GetPieceOnSquare(st, target).value.None? ==> r == (rights, locs)
  {
    var enemy := GetPieceOnSquare(st, target).value;
    if enemy.Some? then HandleCapture(enemy.value, target, rights, locs).value
    else (rights, locs)
  }

  /** The rest of `_generate_move_board_state` once the move is validated:
      move the piece, update the rights, castle, run the pawn handler, take the
      piece that stood on the target, recompute the aggregates and pass the
      turn. The move number advances after White's move. */
  function ApplyMove(st: BoardState, piece: ColorChessPiece, origin: int, target: int): (r: Result<BoardState>)
    requires WellFormed(st)
    ensures !(0 <= origin < 64 && 0 <= target < 64) ==> r == Err(ValueError)
    ensures r.Ok? ==> WellFormed(r.value)
  {
    var moved :- MovedBoards(st, piece, origin, target);
    FinishMove(st, piece, origin, target, moved)
  }

  /** The bookkeeping of a move: the turn passes, the move number advances
      after White's move and rights are only lost. */
  lemma ApplyMoveCounters(st: BoardState, piece: ColorChessPiece, origin: int, target: int)
    requires WellFormed(st) && ApplyMove(st, piece, origin, target).Ok?
    ensures 0 <= origin < 64 && 0 <= target < 64
    ensures var r := ApplyMove(st, piece, origin, target).value;
      r.isWhitesTurn == !st.isWhitesTurn &&
      r.moveNumber == (if st.isWhitesTurn then st.moveNumber + 1 else st.moveNumber) &&
      (forall i: nat :: Has(r.castlingRights, i) ==> Has(st.castlingRights, i))
  {
    var moved := MovedBoards(st, piece, origin, target).value;
    assert ApplyMove(st, piece, origin, target) == FinishMove(st, piece, origin, target, moved);
  }

  /** Only a pawn move can mark an en-passant square, the one the pawn
      handler computes. */
  lemma ApplyMoveEnPassant(st: BoardState, piece: ColorChessPiece, origin: int, target: int)
    requires WellFormed(st) && ApplyMove(st, piece, origin, target).Ok?
    ensures 0 <= origin < 64 && 0 <= target < 64
    ensures TypeOf(piece) != Pawn ==> ApplyMove(st, piece, origin, target).value.enPassantSquare.board == 0
    ensures TypeOf(piece) == Pawn ==>
      HandleEnPassant(origin, target, ColorOf(piece)) == Ok(ApplyMove(st, piece, origin, target).value.enPassantSquare.board)
  {
    var moved := MovedBoards(st, piece, origin, target).value;
    assert ApplyMove(st, piece, origin, target) == FinishMove(st, piece, origin, target, moved);
  }

  /** After a move the piece that stood on the target has lost that square, and
      a piece other than a pawn has left its origin for the target. */
  lemma ApplyMoveBoards(st: BoardState, piece: ColorChessPiece, origin: int, target: int)
    requires WellFormed(st) && ApplyMove(st, piece, origin, target).Ok?
    ensures var r := ApplyMove(st, piece, origin, target).value;
      WellFormed(r) && Synced(r.pieceLocations) &&
      (forall e :: GetPieceOnSquare(st, target) == Ok(Some(e)) ==> !Has(r.pieceLocations[e].board, target)) &&
      (IsReal(piece) && TypeOf(piece) != Pawn && GetPieceOnSquare(st, target) != Ok(Some(piece)) ==>
        forall i: nat :: Has(r.pieceLocations[piece].board, i) <==> i == target || (Has(Board(st, piece).board, i) && i != origin))
  {
    var moved := MovedBoards(st, piece, origin, target).value;
    assert ApplyMove(st, piece, origin, target) == FinishMove(st, piece, origin, target, moved);
  }

  /** A move is finished on the boards `MovedBoards` produces. */
  lemma ApplyMoveSteps(st: BoardState, piece: ColorChessPiece, origin: int, target: int) returns (moved: PawnOutcome)
    requires WellFormed(st) && ApplyMove(st, piece, origin, target).Ok?
    ensures 0 <= origin < 64 && 0 <= target < 64
    ensures MovedBoards(st, piece, origin, target) == Ok(moved)
    ensures Complete(moved.locations) && moved.enPassant >= 0
    ensures ApplyMove(st, piece, origin, target) == FinishMove(st, piece, origin, target, moved)
  {
    moved := MovedBoards(st, piece, origin, target).value;
  }

  /** Every real board the move does not edit comes through unchanged, except
      that the piece standing on the target loses that square. */
  lemma ApplyMoveFrame(st: BoardState, piece: ColorChessPiece, origin: int, target: int)
    requires WellFormed(st) && ApplyMove(st, piece, origin, target).Ok?
    ensures var r := ApplyMove(st, piece, origin, target).value;
      forall q :: IsReal(q) && !MoveEdits(piece, origin, target, q) ==>
        (GetPieceOnSquare(st, target) != Ok(Some(q)) ==> r.pieceLocations[q] == st.pieceLocations[q]) &&
        (GetPieceOnSquare(st, target) == Ok(Some(q)) ==>
          forall i: nat :: Has(r.pieceLocations[q].board, i) <==> Has(Board(st, q).board, i) && i != target)
  {
    var moved := ApplyMoveSteps(st, piece, origin, target);
    MovedBoardsFrame(st, piece, origin, target);
  }

  /** Castling moves the rook from its corner to the square the king crossed. */
  lemma ApplyMoveCastling(st: BoardState, piece: ColorChessPiece, origin: int, target: int)
    requires WellFormed(st) && ApplyMove(st, piece, origin, target).Ok?
    requires Castles(piece, origin, target)
    ensures var r := ApplyMove(st, piece, origin, target).value;
      var (rook, rt, ro) := CastlingRookSquares(target);
      GetPieceOnSquare(st, target) != Ok(Some(rook)) ==>
        forall i: nat :: Has(r.pieceLocations[rook].board, i) <==> (i == rt || Has(Board(st, rook).board, i)) && i != ro
  {
    var moved := ApplyMoveSteps(st, piece, origin, target);
    MovedBoardsCastling(st, piece, origin, target);
  }

  /** A pawn move: the pawn goes from origin to target, turning into a queen of
      its colour on the last rank. */
  lemma ApplyMovePawn(st: BoardState, piece: ColorChessPiece, origin: int, target: int)
    requires WellFormed(st) && ApplyMove(st, piece, origin, target).Ok?
    requires TypeOf(piece) == Pawn
    ensures ColorOf(piece) != AnyColor
    ensures var r := ApplyMove(st, piece, origin, target).value;
      var c := ColorOf(piece);
      var queen := Make(c, Queen);
      (GetPieceOnSquare(st, target) != Ok(Some(piece)) ==>
        forall i: nat :: Has(r.pieceLocations[piece].board, i) <==>
          (i == target || (Has(Board(st, piece).board, i) && i != origin)) && !(LastRank(c, target) && i == target)) &&
      (GetPieceOnSquare(st, target) != Ok(Some(queen)) && LastRank(c, target) ==>
        forall i: nat :: Has(r.pieceLocations[queen].board, i) <==> Has(Board(st, queen).board, i) || i == target)
  {
    var moved := ApplyMoveSteps(st, piece, origin, target);
    MovedBoardsPawn(st, piece, origin, target);
    MovedBoardsPromotion(st, piece, origin, target);
  }

  /** A pawn landing on the en-passant square removes the enemy pawn behind it. */
  lemma ApplyMoveEnPassantCapture(st: BoardState, piece: ColorChessPiece, origin: int, target: int)
    requires WellFormed(st) && ApplyMove(st, piece, origin, target).Ok?
    requires TypeOf(piece) == Pawn && target == BitLength(st.enPassantSquare.board) - 1
    ensures ColorOf(piece) != AnyColor
    ensures var r := ApplyMove(st, piece, origin, target).value;
      var c := ColorOf(piece);
      var victim := Make(Opposite(c).value, Pawn);
      GetPieceOnSquare(st, target) != Ok(Some(victim)) ==>
        forall i: nat :: Has(r.pieceLocations[victim].board, i) <==>
          Has(Board(st, victim).board, i) && i != VictimSquare(st.enPassantSquare, c)
  {
    var moved := ApplyMoveSteps(st, piece, origin, target);
    MovedBoardsEnPassant(st, piece, origin, target);
  }

  /** The rights after a move: the mover's update, then the corner rule for a
      rook taken on the target. A king move drops both rights of its side. */
  lemma ApplyMoveRights(st: BoardState, piece: ColorChessPiece, origin: int, target: int)
    requires WellFormed(st) && ApplyMove(st, piece, origin, target).Ok?
    ensures 0 <= target < 64
    ensures var r := ApplyMove(st, piece, origin, target).value;
      var rights := UpdateCastlingRights(st.castlingRights, piece, origin);
      (GetPieceOnSquare(st, target) == Ok(None) ==> r.castlingRights == rights) &&
      (forall e :: GetPieceOnSquare(st, target) == Ok(Some(e)) ==>
        r.castlingRights == if TypeOf(e) == Rook then UpdateCastlingRights(rights, e, target) else rights)
    ensures var r := ApplyMove(st, piece, origin, target).value;
      TypeOf(piece) == King ==>
        (ColorOf(piece) == White ==> !Has(r.castlingRights, 0) && !Has(r.castlingRights, 1)) &&
        (ColorOf(piece) == Black ==> !Has(r.castlingRights, 2) && !Has(r.castlingRights, 3))
  {
    var moved := ApplyMoveSteps(st, piece, origin, target);
    var rights := UpdateCastlingRights(st.castlingRights, piece, origin);
    var r := ApplyMove(st, piece, origin, target).value;
    forall i: nat | Has(r.castlingRights, i)
      ensures Has(rights, i)
    {
      var e := GetPieceOnSquare(st, target).value;
      if e.Some? && TypeOf(e.value) == Rook {
        RightsOnlyShrink(rights, e.value, target);
      }
    }
  }

  /** Lines 61-63 and 73-94 of `_generate_move_board_state`, given the boards
      after the piece, the castling rook and the pawn handler have moved. */
  function FinishMove(st: BoardState, piece: ColorChessPiece, origin: int, target: int, moved: PawnOutcome): (r: Result<BoardState>)
    requires WellFormed(st) && 0 <= target < 64 && Complete(moved.locations) && moved.enPassant >= 0
    ensures r.Ok? <==> moved.enPassant < Word
    ensures r.Ok? ==> WellFormed(r.value) && Synced(r.value.pieceLocations)
    ensures r.Ok? ==> r.value.isWhitesTurn == !st.isWhitesTurn
    ensures r.Ok? ==> r.value.moveNumber == if st.isWhitesTurn then st.moveNumber + 1 else st.moveNumber
    ensures r.Ok? ==> forall i: nat :: Has(r.value.castlingRights, i) ==> Has(st.castlingRights, i)
    ensures r.Ok? ==>
      r.value.fiftyMoveRule == if GetPieceOnSquare(st, target).value.Some? then 0 else moved.fiftyMoveRule
    ensures r.Ok? ==> r.value.enPassantSquare.board == moved.enPassant
    ensures r.Ok? ==> forall e :: GetPieceOnSquare(st, target) == Ok(Some(e)) ==>
      forall i: nat :: Has(r.value.pieceLocations[e].board, i) <==> Has(moved.locations[e].board, i) && i != target
    ensures r.Ok? ==> forall q :: IsReal(q) && GetPieceOnSquare(st, target) != Ok(Some(q)) ==>
      r.value.pieceLocations[q] == moved.locations[q]
    ensures r.Ok? ==>
      var rights := UpdateCastlingRights(st.castlingRights, piece, origin);
      (GetPieceOnSquare(st, target) == Ok(None) ==> r.value.castlingRights == rights) &&
      (forall e :: GetPieceOnSquare(st, target) == Ok(Some(e)) ==>
        r.value.castlingRights == if TypeOf(e) == Rook then UpdateCastlingRights(rights, e, target) else rights)
  {
    var rights := UpdateCastlingRights(st.castlingRights, piece, origin);
    RightsOnlyShrink(st.castlingRights, piece, origin);
    var captured := TakeOccupant(st, target, rights, moved.locations);
    var fifty := if GetPieceOnSquare(st, target).value.Some? then 0 else moved.fiftyMoveRule;
    var ep :- EnPassantBoard(moved.enPassant);
    Ok(BoardState(UpdateAllPieces(captured.1), !st.isWhitesTurn, ep, fifty,
                  if st.isWhitesTurn then st.moveNumber + 1 else st.moveNumber, captured.0))
  }

  /** `_generate_move_board_state`: find the piece, validate the move, apply it. */
  function GenerateMoveBoardState(st: BoardState, origin: int, target: int): (r: Result<BoardState>)
    requires WellFormed(st)
    ensures origin < 0 ==> r == Err(ValueError)
    ensures origin >= 0 && ValidateMove(st, origin, target, GetPieceOnSquare(st, origin).value).Err? ==> r.Err?
    ensures r.Ok? ==> exists p ::
      GetPieceOnSquare(st, origin) == Ok(Some(p)) && ColorOf(p) == ToMove(st) &&
      GetMoves(st, origin).Ok? && target in GetMoves(st, origin).value &&
      r == ApplyMove(st, p, origin, target)
  {
    var piece :- GetPieceOnSquare(st, origin);
    var valid :- ValidateMove(st, origin, target, piece);
    ApplyMove(st, piece.value, origin, target)
  }

  // ---------------------------------------------------------------------
  // Game status

  /** Concatenation, in order, of the lists `f` gives for the entries; the
      first failing entry fails the whole. */
  function Flatten(f: MoveEntry -> Result<seq<nat>>, entries: seq<MoveEntry>): (r: Result<seq<nat>>)
    ensures r.Err? <==> exists e :: e in entries && f(e).Err?
    ensures r.Ok? ==> forall m :: m in r.value <==> exists e :: e in entries && m in f(e).value
    decreases |entries|
  {
    if entries == [] then Ok([])
    else
      var first :- f(entries[0]);
      var rest :- Flatten(f, entries[1..]);
      assert forall e :: e in entries <==> e == entries[0] || e in entries[1..];
      Ok(first + rest)
  }

  /** `m` is a move of the piece `p` of the side to move standing on `s` that
      `get_moves` would return. */
  ghost predicate IsLegalMove(st: BoardState, p: ColorChessPiece, s: nat, m: nat)
    requires WellFormed(st)
  {
    IsReal(p) && ColorOf(p) == ToMove(st) && Has(Board(st, p).board, s) && s < 64 &&
    Targets(st, p, s).Ok? && m in Targets(st, p, s).value && Legal(st, p, s, m) == Ok(true)
  }

  /** The side to move has a move that `get_moves` would return. */
  ghost predicate HasLegalMove(st: BoardState)
    requires WellFormed(st)
  {
    exists p, s: nat, m: nat :: IsLegalMove(st, p, s, m)
  }

  /** `check_game_status`: no legal move is checkmate when the king is attacked
      and stalemate otherwise; with a legal move, fifty or more reversible
      half-moves is a draw. */
  function CheckGameStatus(st: BoardState): (r: Result<GameStatus>)
    requires WellFormed(st)
    ensures r.Err? <==>
      GenerateAllMoves(st).Err? ||
      (exists e :: e in GenerateAllMoves(st).value && ValidateMoves(st, e.0, e.1, e.2).Err?) ||
      (!HasLegalMove(st) && IsKingInCheck(st, ToMove(st)).Err?)
    ensures r.Ok? ==> r.value in {Checkmate, Stalemate, Draw50Move, Ongoing}
    ensures r.Ok? ==> ((r.value == Checkmate || r.value == Stalemate) <==> !HasLegalMove(st))
    ensures r.Ok? ==> (r.value == Checkmate <==> !HasLegalMove(st) && !KingSafe(st, ToMove(st)))
    ensures r.Ok? ==> (r.value == Draw50Move <==> HasLegalMove(st) && st.fiftyMoveRule >= 50)
  {
    var entries :- GenerateAllMoves(st);
    var all :- Flatten((e: MoveEntry) => ValidateMoves(st, e.0, e.1, e.2), entries);
    NoMovesIff(st, entries, all);
    if |all| == 0 then
      var check :- IsKingInCheck(st, ToMove(st));
      Ok(if check then Checkmate else Stalemate)
    else if st.fiftyMoveRule >= 50 then Ok(Draw50Move)
    else Ok(Ongoing)
  }

  /** The flattened list of validated moves is empty exactly when the side to
      move has no legal move. */
  lemma NoMovesIff(st: BoardState, entries: seq<MoveEntry>, all: seq<nat>)
    requires WellFormed(st) && GenerateAllMoves(st) == Ok(entries)
    requires Flatten((e: MoveEntry) => ValidateMoves(st, e.0, e.1, e.2), entries) == Ok(all)
    ensures |all| == 0 <==> !HasLegalMove(st)
  {
    if HasLegalMove(st) {
      var p, s: nat, m: nat :| IsLegalMove(st, p, s, m);
      LegalMoveListed(st, entries, all, p, s, m);
    }
    if |all| > 0 {
      ListedMoveLegal(st, entries, all);
    }
  }

  /** A legal move of a piece of the side to move appears in the flattened list. */
  lemma LegalMoveListed(st: BoardState, entries: seq<MoveEntry>, all: seq<nat>, p: ColorChessPiece, s: nat, m: nat)
    requires WellFormed(st) && GenerateAllMoves(st) == Ok(entries)
    requires Flatten((e: MoveEntry) => ValidateMoves(st, e.0, e.1, e.2), entries) == Ok(all)
    requires IsLegalMove(st, p, s, m)
    ensures m in all
  {
    var f := (e: MoveEntry) => ValidateMoves(st, e.0, e.1, e.2);
    var e := (Targets(st, p, s).value, p, s);
    EntryListed(st, entries, p, s);
    assert m in f(e).value;
  }

  /** The entry of a piece of the side to move is in the move list. */
  lemma EntryListed(st: BoardState, entries: seq<MoveEntry>, p: ColorChessPiece, s: nat)
    requires WellFormed(st) && GenerateAllMoves(st) == Ok(entries)
    requires IsReal(p) && ColorOf(p) == ToMove(st) && Has(Board(st, p).board, s)
    ensures s < 64 && Targets(st, p, s).Ok? && (Targets(st, p, s).value, p, s) in entries
  {}

  lemma ListedMoveLegal(st: BoardState, entries: seq<MoveEntry>, all: seq<nat>)
    requires WellFormed(st) && GenerateAllMoves(st) == Ok(entries)
    requires Flatten((e: MoveEntry) => ValidateMoves(st, e.0, e.1, e.2), entries) == Ok(all)
    requires |all| > 0
    ensures HasLegalMove(st)
  {
    var f := (e: MoveEntry) => ValidateMoves(st, e.0, e.1, e.2);
    var m := all[0];
    assert m in all;
    var e :| e in entries && m in f(e).value;
    EntryMoveLegal(st, e, m);
  }

  /** A move the filter keeps for a listed entry is a legal move. */
  lemma EntryMoveLegal(st: BoardState, e: MoveEntry, m: nat)
    requires WellFormed(st)
    requires IsReal(e.1) && ColorOf(e.1) == ToMove(st) && Has(Board(st, e.1).board, e.2) && e.2 < 64
    requires Targets(st, e.1, e.2) == Ok(e.0)
    requires ValidateMoves(st, e.0, e.1, e.2).Ok? && m in ValidateMoves(st, e.0, e.1, e.2).value
    ensures HasLegalMove(st)
  {
    assert IsLegalMove(st, e.1, e.2, m);
  }
}
