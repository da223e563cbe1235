/** The attack dispatcher and the attack union of one side
    (`generate_attacks` and `generate_attacks_by_color` of
    `engine/move_generators.py`). */
module Attacks {
  import opened Wrappers
  import opened Bits
  import opened Pieces
  import opened Directions
  import opened BitBoards
  import opened State
  import opened Sliding
  import opened Leapers

  /** A piece `p` on square `s` attacks `t` when the occupancy is `o`. */
  ghost predicate AttackedFrom(p: ColorChessPiece, o: int, s: nat, t: nat)
  {
    match TypeOf(p)
    case Pawn => PawnCapture(ColorOf(p), s, t)
    case Knight => KnightStep(s, t)
    case King => KingStep(s, t)
    case Bishop | Rook | Queen => SeenAlong(o, s, GetDirections(p).value, t)
    case AnyType => false
  }

  /** A white pawn stands on the last rank, where its attacks overflow the word. */
  predicate PawnOnLastRank(b: int)
  {
    exists s: nat :: 56 <= s < 64 && Has(b, s)
  }

  /** `generate_attacks`: the squares the pieces of `pieceBoard` attack. The
      collisions board must be the all-pieces board, and the piece board must be
      tagged with a real piece. */
  function GenerateAttacks(pieceBoard: BitBoard, collisions: BitBoard): (r: Result<BitBoard>)
    requires Valid(pieceBoard) && Valid(collisions)
    ensures collisions.boardType != Some(AllPieces) ==> r == Err(ValueError)
    ensures collisions.boardType == Some(AllPieces) && pieceBoard.boardType.None? ==>
      r == Err(AttributeError)
    ensures collisions.boardType == Some(AllPieces) && pieceBoard.boardType.Some? ==>
      var p := pieceBoard.boardType.value;
      (r.Err? <==> !IsReal(p) || (p == WhitePawn && PawnOnLastRank(pieceBoard.board))) &&
      (r.Err? ==> r.error == ValueError)
    ensures r.Ok? ==> Valid(r.value) && r.value.boardType == None
    ensures r.Ok? ==> forall t: nat :: Has(r.value.board, t) <==>
      exists s: nat :: Has(pieceBoard.board, s) &&
        AttackedFrom(pieceBoard.boardType.value, collisions.board, s, t)
  {
    if collisions.boardType != Some(AllPieces) then Err(ValueError)
    else if pieceBoard.boardType.None? then Err(AttributeError)
    else
      var p := pieceBoard.boardType.value;
      match TypeOf(p)
      case Pawn =>
        var r := GeneratePawnAttacks(pieceBoard);
        if r.Ok? then PawnBridge(pieceBoard, collisions.board, r.value); r else r
      case Knight =>
        var r := GenerateKnightAttacks(pieceBoard);
        KnightBridge(pieceBoard, collisions.board, r.value);
        r
      case King =>
        var r := GenerateKingAttacks(pieceBoard);
        KingBridge(pieceBoard, collisions.board, r.value);
        r
      case Bishop | Rook | Queen =>
        var r := GetSlidingAttacks(collisions, pieceBoard);
        SliderBridge(pieceBoard, collisions.board, r.value);
        r
      case AnyType => Err(ValueError)
  }

  lemma PawnBridge(pb: BitBoard, o: int, r: BitBoard)
    requires pb.boardType.Some? && TypeOf(pb.boardType.value) == Pawn
    requires forall t: nat :: Has(r.board, t) <==>
      exists s: nat :: Has(pb.board, s) && PawnCapture(ColorOf(pb.boardType.value), s, t)
    ensures forall t: nat :: Has(r.board, t) <==>
      exists s: nat :: Has(pb.board, s) && AttackedFrom(pb.boardType.value, o, s, t)
  {
    assert forall s: nat, t: nat ::
      AttackedFrom(pb.boardType.value, o, s, t) == PawnCapture(ColorOf(pb.boardType.value), s, t);
  }

  lemma KnightBridge(pb: BitBoard, o: int, r: BitBoard)
    requires pb.boardType.Some? && TypeOf(pb.boardType.value) == Knight
    requires forall t: nat :: Has(r.board, t) <==> exists s: nat :: Has(pb.board, s) && KnightStep(s, t)
    ensures forall t: nat :: Has(r.board, t) <==>
      exists s: nat :: Has(pb.board, s) && AttackedFrom(pb.boardType.value, o, s, t)
  {
    assert forall s: nat, t: nat :: AttackedFrom(pb.boardType.value, o, s, t) == KnightStep(s, t);
  }

  lemma KingBridge(pb: BitBoard, o: int, r: BitBoard)
    requires pb.boardType.Some? && TypeOf(pb.boardType.value) == King
    requires forall t: nat :: Has(r.board, t) <==> exists s: nat :: Has(pb.board, s) && KingStep(s, t)
    ensures forall t: nat :: Has(r.board, t) <==>
      exists s: nat :: Has(pb.board, s) && AttackedFrom(pb.boardType.value, o, s, t)
  {
    assert forall s: nat, t: nat :: AttackedFrom(pb.boardType.value, o, s, t) == KingStep(s, t);
  }

  lemma SliderBridge(pb: BitBoard, o: int, r: BitBoard)
    requires pb.boardType.Some? && TypeOf(pb.boardType.value) in {Bishop, Rook, Queen}
    requires forall t: nat :: Has(r.board, t) <==>
      exists s: nat :: Has(pb.board, s) && SeenAlong(o, s, DirectionsOf(pb.boardType).value, t)
    ensures forall t: nat :: Has(r.board, t) <==>
      exists s: nat :: Has(pb.board, s) && AttackedFrom(pb.boardType.value, o, s, t)
  {
    assert forall s: nat, t: nat ::
      AttackedFrom(pb.boardType.value, o, s, t) == SeenAlong(o, s, DirectionsOf(pb.boardType).value, t);
  }

  /** The board of piece `p` in a well-formed position. */
  function Board(st: BoardState, p: ColorChessPiece): (b: BitBoard)
    requires WellFormed(st)
    ensures Valid(b) && b.boardType == Some(p)
  {
    st.pieceLocations[p]
  }

  /** Some piece of kind `p` attacks `t` in the position. */
  ghost predicate AttackedBy(st: BoardState, p: ColorChessPiece, t: nat)
    requires WellFormed(st)
  {
    exists s: nat :: Has(Board(st, p).board, s) && AttackedFrom(p, Board(st, AllPieces).board, s, t)
  }

  /** The union, in the order of `ps`, of the attacks of the given real pieces. */
  function AttackUnion(st: BoardState, ps: seq<ColorChessPiece>): (r: Result<int>)
    requires WellFormed(st)
    requires forall p :: p in ps ==> IsReal(p)
    ensures r.Err? <==> WhitePawn in ps && PawnOnLastRank(Board(st, WhitePawn).board)
    ensures r.Ok? ==> IsWord(r.value)
    ensures r.Ok? ==> forall t: nat :: Has(r.value, t) <==> exists p :: p in ps && AttackedBy(st, p, t)
    decreases |ps|
  {
    if ps == [] then
      NoBits();
      Ok(0)
    else
      var p := ps[|ps| - 1];
      assert ps == ps[..|ps| - 1] + [p];
      var acc :- AttackUnion(st, ps[..|ps| - 1]);
      var a :- GenerateAttacks(Board(st, p), Board(st, AllPieces));
      OrWord(acc, a.board);
      forall t: nat
        ensures Has(Or(acc, a.board), t) <==> exists q :: q in ps && AttackedBy(st, q, t)
      {
        HasOr(acc, a.board, t);
      }
      Ok(Or(acc, a.board))
  }

  /** Some piece of colour `c` attacks `t`. */
  ghost predicate Attacked(st: BoardState, c: Color, t: nat)
    requires WellFormed(st)
  {
    exists p :: IsReal(p) && ColorOf(p) == c && AttackedBy(st, p, t)
  }

  /** `generate_attacks_by_color`: every square a piece of colour `c` attacks.
      Only a white pawn on the last rank makes it fail. */
  function AttacksByColor(st: BoardState, c: Color): (r: Result<BitBoard>)
    requires WellFormed(st)
    ensures r.Err? <==> c == White && PawnOnLastRank(Board(st, WhitePawn).board)
    ensures r.Ok? ==> Valid(r.value) && r.value.boardType == None
    ensures r.Ok? ==> forall t: nat :: Has(r.value.board, t) <==> Attacked(st, c, t)
  {
    var ps := PiecesByColor(c);
    var attacks :- AttackUnion(st, ps);
    NewWord(attacks, None);
    New(attacks, None)
  }
}
