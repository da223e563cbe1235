/** Pawn side effects of a move (`game/pawn.py`): the en-passant square a double
    push leaves behind, the capture that square allows, queen promotion, and the
    push offsets used by the move generator. */
module PawnRules {
  import opened Wrappers
  import opened Bits
  import opened Squares
  import opened Pieces
  import opened BitBoards
  import opened Masks
  import opened State
  import opened Leapers

  /** Python's `int.bit_length()` of a non-negative number. */
  function BitLength(b: nat): (n: nat)
    ensures n == 0 <==> b == 0
    ensures n > 0 ==> Has(b, n - 1)
    ensures forall j: nat :: n <= j ==> !Has(b, j)
    decreases b
  {
    if b == 0 then
      NoBits();
      0
    else
      var n := 1 + BitLength(b / 2);
      forall j: nat | n <= j
        ensures !Has(b, j)
      {
        assert Has(b, j) == Has(b / 2, j - 1);
      }
      if b / 2 == 0 then
        n
      else
        assert Has(b, n - 1) == Has(b / 2, n - 2);
        n
  }

  /** The bit length of a one-square board is one past its square. */
  lemma BitLengthPow2(e: nat)
    ensures BitLength(Pow2(e)) == e + 1
  {
    var n := BitLength(Pow2(e));
    HasPow2(e, n - 1);
    HasPow2(e, e);
  }

  /** `1 << t & rank != 0` tests whether square `t` lies on that rank. */
  lemma OnRankTest(t: nat, r: nat)
    ensures (And(Shl(1, t), RankMask(r)) != 0) == (t / 8 == r)
  {
    ShlPow2(0, t);
    AndComm(Pow2(t), RankMask(r));
    AndPow2(RankMask(r), t);
    RankMaskBits(r, t);
  }

  // ---------------------------------------------------------------------
  // Push offsets and the start rank

  /** `pawn_movement`: the single- and double-push targets; no colour, no pushes. */
  function PawnMovement(color: Color, square: int): (r: Option<(int, int)>)
    ensures r.Some? <==> color != AnyColor
    ensures r.Some? ==> r.value.0 - square == 8 * Forward(color) && r.value.1 - square == 16 * Forward(color)
  {
    match color
    case White => Some((square + 8, square + 16))
    case Black => Some((square - 8, square - 16))
    case AnyColor => None
  }

  /** A push stays on its file and moves one rank (two ranks) towards the enemy. */
  lemma PushGeometry(color: Color, square: int)
    requires color != AnyColor && OnBoard(square)
    ensures var (single, double) := PawnMovement(color, square).value;
      (OnBoard(single) ==> single % 8 == square % 8 && single / 8 == square / 8 + Forward(color)) &&
      (OnBoard(double) ==> double % 8 == square % 8 && double / 8 == square / 8 + 2 * Forward(color))
  {}

  /** `is_pawn_starting_rank`: the second rank for White, the seventh for Black.
      With no colour the local is never bound. */
  function IsPawnStartingRank(origin: int, color: Color): (r: Result<bool>)
    ensures r.Err? <==> color == AnyColor
    ensures r.Err? ==> r.error == UnboundLocalError
    ensures r.Ok? ==> (r.value <==> OnBoard(origin) && origin / 8 == (if color == White then 1 else 6))
  {
    match color
    case White => Ok(8 <= origin <= 15)
    case Black => Ok(48 <= origin <= 55)
    case AnyColor => Err(UnboundLocalError)
  }

  // ---------------------------------------------------------------------
  // En passant

  /** `handle_en_passant`: a move of exactly sixteen squares leaves the square
      behind the target (for White, ahead of it for Black) as the en-passant
      square; a negative shift raises. */
  function HandleEnPassant(origin: int, target: int, color: Color): (r: Result<int>)
    ensures Abs(origin - target) != 16 ==> r == Ok(0)
    ensures r.Ok? ==> r.value >= 0 && (r.value == 0 || exists s: nat :: r.value == Pow2(s))
    ensures Abs(origin - target) == 16 && color == White ==>
      (r.Err? <==> target < 8) && (r.Ok? ==> forall i: nat :: Has(r.value, i) <==> i + 8 == target)
    ensures Abs(origin - target) == 16 && color != White ==>
      (r.Err? <==> target < -8) && (r.Ok? ==> forall i: nat :: Has(r.value, i) <==> i == target + 8)
  {
    if Abs(origin - target) == 16 then
      var shift := if color == White then target - 8 else target + 8;
      if shift < 0 then Err(ValueError)
      else
        ShlPow2(0, shift);
        forall i: nat
          ensures Has(Shl(1, shift), i) <==> i == shift
        {
          HasPow2(shift, i);
        }
        Ok(Shl(1, shift))
    else
      Ok(0)
  }

  /** A double push from the start rank marks exactly the square it passed over. */
  lemma DoublePushSkips(color: Color, origin: int)
    requires color != AnyColor && IsPawnStartingRank(origin, color) == Ok(true)
    ensures var (single, double) := PawnMovement(color, origin).value;
      OnBoard(single) && OnBoard(double) &&
      HandleEnPassant(origin, double, color) == Ok(Pow2(single))
  {
    var (single, double) := PawnMovement(color, origin).value;
    var r := HandleEnPassant(origin, double, color);
    forall i: nat
      ensures Has(r.value, i) == Has(Pow2(single), i)
    {
      HasPow2(single, i);
    }
    Extensional(r.value, Pow2(single));
  }

  /** The square whose pawn an en-passant capture removes: one rank behind the
      en-passant square from the capturer's side. */
  function VictimSquare(ep: BitBoard, color: Color): int
    requires Valid(ep)
  {
    BitLength(ep.board) - 1 + (if color == White then -8 else 8)
  }

  /** `handle_en_passant_capture`: a pawn landing on the en-passant square
      removes the enemy pawn beside it. */
  function HandleEnPassantCapture(st: BoardState, target: int, color: Color, locs: Locations): (r: Result<Locations>)
    requires Valid(st.enPassantSquare) && Complete(locs)
    ensures target != BitLength(st.enPassantSquare.board) - 1 ==> r == Ok(locs)
    ensures target == BitLength(st.enPassantSquare.board) - 1 ==>
      (r.Err? <==> color == AnyColor || !OnBoard(VictimSquare(st.enPassantSquare, color)))
    ensures r.Ok? && color != AnyColor && target == BitLength(st.enPassantSquare.board) - 1 ==>
      var victim := Make(Opposite(color).value, Pawn);
      Complete(r.value) &&
      (forall p :: p != victim ==> r.value[p] == locs[p]) &&
      (forall i: nat :: Has(r.value[victim].board, i) <==>
        Has(locs[victim].board, i) && i != VictimSquare(st.enPassantSquare, color))
  {
    var epTarget := BitLength(st.enPassantSquare.board) - 1;
    var direction := if color == White then -8 else 8;
    var captureSquare := epTarget + direction;
    if target == epTarget then
      var opponent :- Opposite(color);
      var capturedPawn := PieceByType(opponent, Pawn).value;
      var cleared :- ClearBit(locs[capturedPawn], captureSquare);
      Ok(locs[capturedPawn := cleared])
    else
      Ok(locs)
  }

  /** After a double push, a capture onto the marked square removes exactly the
      pawn that made the push. */
  lemma EnPassantRoundTrip(st: BoardState, color: Color, origin: int, locs: Locations)
    requires Valid(st.enPassantSquare) && Complete(locs)
    requires color != AnyColor && IsPawnStartingRank(origin, color) == Ok(true)
    requires st.enPassantSquare.board == HandleEnPassant(origin, PawnMovement(color, origin).value.1, color).value
    ensures var (single, double) := PawnMovement(color, origin).value;
      var capturer := Opposite(color).value;
      HandleEnPassantCapture(st, single, capturer, locs).Ok? &&
      VictimSquare(st.enPassantSquare, capturer) == double &&
      Make(Opposite(capturer).value, Pawn) == Make(color, Pawn)
  {
    var (single, double) := PawnMovement(color, origin).value;
    DoublePushSkips(color, origin);
    BitLengthPow2(single);
  }

  // ---------------------------------------------------------------------
  // Promotion

  /** Square `t` is the last rank for a pawn of colour `c`. */
  predicate LastRank(c: Color, t: int)
  {
    OnBoard(t) && ((c == White && t / 8 == 7) || (c == Black && t / 8 == 0))
  }

  /** `pawn_promotion`: a pawn reaching its last rank becomes a queen. The shift
      `1 << target` raises for a negative target. */
  function PawnPromotion(target: int, locs: Locations, color: Color): (r: Result<Locations>)
    requires Complete(locs)
    ensures color == AnyColor ==> r == Ok(locs)
    ensures color != AnyColor ==> (r.Err? <==> target < 0)
    ensures r.Ok? && !LastRank(color, target) ==> r == Ok(locs)
    ensures r.Ok? && LastRank(color, target) ==>
      var pawn := Make(color, Pawn);
      var queen := Make(color, Queen);
      Complete(r.value) &&
      (forall p :: p != pawn && p != queen ==> r.value[p] == locs[p]) &&
      (forall i: nat :: Has(r.value[pawn].board, i) <==> Has(locs[pawn].board, i) && i != target) &&
      (forall i: nat :: Has(r.value[queen].board, i) <==> Has(locs[queen].board, i) || i == target)
  {
    if color == AnyColor then Ok(locs)
    else if target < 0 then Err(ValueError)
    else
      OnRankTest(target, 7);
      OnRankTest(target, 0);
      if (color == White && And(Shl(1, target), RankMask(7)) != 0) ||
         (color == Black && And(Shl(1, target), RankMask(0)) != 0)
      then
        var pawn := Make(color, Pawn);
        var queen := Make(color, Queen);
        var pawns := ClearBit(locs[pawn], target).value;
        var queens := SetBit(locs[queen], target).value;
        Replaced(locs, pawn, pawns);
        Replaced(locs[pawn := pawns], queen, queens);
        Ok(locs[pawn := pawns][queen := queens])
      else
        Ok(locs)
  }

  // ---------------------------------------------------------------------
  // The pawn handler

  /** What the pawn handler hands back: the new en-passant board value, the
      new fifty-move counter and the piece boards after its side effects. */
  datatype PawnOutcome = PawnOutcome(enPassant: int, fiftyMoveRule: int, locations: Locations)

  /** Lines 17-21 of `handle_pawn_movement`, for a pawn of colour `color`: mark
      the en-passant square, promote, then perform an en-passant capture. */
  function PawnSideEffects(st: BoardState, color: Color, origin: int, target: int, locs: Locations): (r: Result<PawnOutcome>)
    requires Valid(st.enPassantSquare) && Complete(locs) && color != AnyColor
    ensures r.Ok? ==>
      r.value.fiftyMoveRule == 0 &&
      HandleEnPassant(origin, target, color) == Ok(r.value.enPassant) &&
      Complete(r.value.locations) &&
      (forall p :: p != Make(color, Pawn) && p != Make(color, Queen) && p != Make(Opposite(color).value, Pawn) ==>
        r.value.locations[p] == locs[p])
    ensures r.Ok? ==>
      var pawn := Make(color, Pawn);
      var queen := Make(color, Queen);
      (LastRank(color, target) ==>
        (forall i: nat :: Has(r.value.locations[pawn].board, i) <==> Has(locs[pawn].board, i) && i != target) &&
        (forall i: nat :: Has(r.value.locations[queen].board, i) <==> Has(locs[queen].board, i) || i == target)) &&
      (!LastRank(color, target) ==>
        r.value.locations[pawn] == locs[pawn] && r.value.locations[queen] == locs[queen])
    ensures r.Ok? ==>
      var victim := Make(Opposite(color).value, Pawn);
      (target == BitLength(st.enPassantSquare.board) - 1 ==>
        forall i: nat :: Has(r.value.locations[victim].board, i) <==>
          Has(locs[victim].board, i) && i != VictimSquare(st.enPassantSquare, color)) &&
      (target != BitLength(st.enPassantSquare.board) - 1 ==> r.value.locations[victim] == locs[victim])
    ensures 0 <= target < 64 && Abs(origin - target) != 16 && target != BitLength(st.enPassantSquare.board) - 1 ==>
      r.Ok?
  {
    var victim := Make(Opposite(color).value, Pawn);
    assert victim != Make(color, Pawn) && victim != Make(color, Queen);
    var enPassant :- HandleEnPassant(origin, target, color);
    var promoted :- PawnPromotion(target, locs, color);
    assert promoted[victim] == locs[victim];
    var captured :- HandleEnPassantCapture(st, target, color, promoted);
    assert captured[Make(color, Pawn)] == promoted[Make(color, Pawn)];
    assert captured[Make(color, Queen)] == promoted[Make(color, Queen)];
    Ok(PawnOutcome(enPassant, 0, captured))
  }

  /** `handle_pawn_movement`: a non-pawn move only advances the fifty-move
      counter; a pawn move resets it, marks the en-passant square, promotes
      and performs an en-passant capture, in that order. */
  function HandlePawnMovement(st: BoardState, piece: ColorChessPiece, origin: int, target: int, locs: Locations): (r: Result<PawnOutcome>)
    requires Valid(st.enPassantSquare) && Complete(locs)
    ensures TypeOf(piece) != Pawn ==> r == Ok(PawnOutcome(0, st.fiftyMoveRule + 1, locs))
    ensures TypeOf(piece) == Pawn ==> ColorOf(piece) != AnyColor && piece == Make(ColorOf(piece), Pawn)
    ensures TypeOf(piece) == Pawn && r.Ok? ==>
      var c := ColorOf(piece);
      r.value.fiftyMoveRule == 0 &&
      HandleEnPassant(origin, target, c) == Ok(r.value.enPassant) &&
      Complete(r.value.locations) &&
      (forall p :: p != Make(c, Pawn) && p != Make(c, Queen) && p != Make(Opposite(c).value, Pawn) ==>
        r.value.locations[p] == locs[p])
    ensures TypeOf(piece) == Pawn && r.Ok? ==>
      var c := ColorOf(piece);
      var pawn := Make(c, Pawn);
      var queen := Make(c, Queen);
      (LastRank(c, target) ==>
        (forall i: nat :: Has(r.value.locations[pawn].board, i) <==> Has(locs[pawn].board, i) && i != target) &&
        (forall i: nat :: Has(r.value.locations[queen].board, i) <==> Has(locs[queen].board, i) || i == target)) &&
      (!LastRank(c, target) ==>
        r.value.locations[pawn] == locs[pawn] && r.value.locations[queen] == locs[queen])
    ensures TypeOf(piece) == Pawn && r.Ok? ==>
      var c := ColorOf(piece);
      var victim := Make(Opposite(c).value, Pawn);
      (target == BitLength(st.enPassantSquare.board) - 1 ==>
        forall i: nat :: Has(r.value.locations[victim].board, i) <==>
          Has(locs[victim].board, i) && i != VictimSquare(st.enPassantSquare, c)) &&
      (target != BitLength(st.enPassantSquare.board) - 1 ==> r.value.locations[victim] == locs[victim])
    ensures TypeOf(piece) == Pawn && 0 <= target < 64 && Abs(origin - target) != 16 &&
            target != BitLength(st.enPassantSquare.board) - 1 ==>
              r.Ok?
  {
    if TypeOf(piece) != Pawn then
      Ok(PawnOutcome(0, st.fiftyMoveRule + 1, locs))
    else
      PawnSideEffects(st, ColorOf(piece), origin, target, locs)
  }
}
