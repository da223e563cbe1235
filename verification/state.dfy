/** The immutable position record `BoardState` (`game/board_state.py`), the game
    status enumeration, and the aggregate boards a position keeps beside the
    twelve piece boards (`__update_all_pieces` of `backend/core/game/chess_board.py`). */
module State {
  import opened Wrappers
  import opened Bits
  import opened Pieces
  import opened BitBoards

  /** `GameStatus`; the last two members are declared but never produced. */
  datatype GameStatus =
    | Ongoing
    | Checkmate
    | Stalemate
    | Draw50Move
    | DrawInsufficientMaterial
    | DrawRepetition

  /** `piece_locations`: one board per `ColorChessPiece` key. */
  type Locations = map<ColorChessPiece, BitBoard>

  datatype BoardState = BoardState(
    pieceLocations: Locations,
    isWhitesTurn: bool,
    enPassantSquare: BitBoard,
    fiftyMoveRule: int,
    moveNumber: int,
    castlingRights: int)

  /** Every one of the fifteen keys holds a 64-bit board tagged with its own key,
      as the FEN parser builds them and every update keeps them. */
  predicate Complete(locs: Locations)
  {
    forall p :: p in locs && Valid(locs[p]) && locs[p].boardType == Some(p)
  }

  predicate WellFormed(st: BoardState)
  {
    Complete(st.pieceLocations) && Valid(st.enPassantSquare)
  }

  /** Replacing one board by a valid board with the same tag keeps the map complete. */
  lemma Replaced(locs: Locations, p: ColorChessPiece, b: BitBoard)
    requires Complete(locs) && Valid(b) && b.boardType == Some(p)
    ensures Complete(locs[p := b])
    ensures forall q :: q != p ==> locs[p := b][q] == locs[q]
  {}

  /** The colour whose turn it is. */
  function ToMove(st: BoardState): Color
  {
    if st.isWhitesTurn then White else Black
  }

  /** Some real piece of colour `c` stands on square `i`. */
  ghost predicate Occupied(locs: Locations, c: Color, i: nat)
    requires Complete(locs)
  {
    exists p :: IsReal(p) && ColorOf(p) == c && Has(locs[p].board, i)
  }

  /** The union of the boards of the real pieces of colour `c` among `ps`,
      in the order of `ps`. */
  function GroupUnion(locs: Locations, c: Color, ps: seq<ColorChessPiece>): (r: int)
    requires Complete(locs)
    ensures IsWord(r)
    ensures forall i: nat :: Has(r, i) <==>
      exists p :: p in ps && IsReal(p) && ColorOf(p) == c && Has(locs[p].board, i)
    decreases |ps|
  {
    if ps == [] then
      NoBits();
      0
    else
      var acc := GroupUnion(locs, c, ps[..|ps| - 1]);
      var p := ps[|ps| - 1];
      assert ps == ps[..|ps| - 1] + [p];
      if ColorOf(p) == c && TypeOf(p) != AnyType then
        OrWord(acc, locs[p].board);
        forall i: nat
          ensures Has(Or(acc, locs[p].board), i) <==>
            exists q :: q in ps && IsReal(q) && ColorOf(q) == c && Has(locs[q].board, i)
        {
          HasOr(acc, locs[p].board, i);
        }
        Or(acc, locs[p].board)
      else
        acc
  }

  /** `__update_pieces`: the board of every real piece of the group's colour. */
  function UpdatePieces(group: ColorChessPiece, locs: Locations): (r: BitBoard)
    requires Complete(locs)
    ensures Valid(r) && r.boardType == Some(group)
    ensures forall i: nat :: Has(r.board, i) <==> Occupied(locs, ColorOf(group), i)
  {
    var u := GroupUnion(locs, ColorOf(group), Order);
    forall i: nat
      ensures Has(u, i) <==> Occupied(locs, ColorOf(group), i)
    {
      if Occupied(locs, ColorOf(group), i) {
        var p :| IsReal(p) && ColorOf(p) == ColorOf(group) && Has(locs[p].board, i);
        assert Order[Index(p)] == p;
      }
    }
    NewWord(u, Some(group));
    New(u, Some(group)).value
  }

  /** The order the pieces are visited in does not matter: any list holding
      every real piece gives the same colour board. */
  lemma UpdatePiecesAnyOrder(group: ColorChessPiece, locs: Locations, ps: seq<ColorChessPiece>)
    requires Complete(locs)
    requires forall p :: IsReal(p) ==> p in ps
    ensures GroupUnion(locs, ColorOf(group), ps) == UpdatePieces(group, locs).board
  {
    var u := GroupUnion(locs, ColorOf(group), ps);
    var v := UpdatePieces(group, locs).board;
    forall i: nat
      ensures Has(u, i) == Has(v, i)
    {
      if Occupied(locs, ColorOf(group), i) {
        var p :| IsReal(p) && ColorOf(p) == ColorOf(group) && Has(locs[p].board, i);
        assert p in ps;
      }
    }
    Extensional(u, v);
  }

  /** The map with the two colour boards replaced and the board of all
      pieces set to their union. */
  function WithAggregates(locs: Locations, white: BitBoard, black: BitBoard): (r: Locations)
    requires Complete(locs)
    requires Valid(white) && white.boardType == Some(WhitePieces)
    requires Valid(black) && black.boardType == Some(BlackPieces)
    ensures Complete(r)
    ensures forall p :: IsReal(p) ==> r[p] == locs[p]
    ensures r[WhitePieces] == white && r[BlackPieces] == black
    ensures forall i: nat :: Has(r[AllPieces].board, i) <==> Has(white.board, i) || Has(black.board, i)
  {
    OrWord(white.board, black.board);
    var all := BitBoard(Or(white.board, black.board), Some(AllPieces));
    forall i: nat
      ensures Has(all.board, i) <==> Has(white.board, i) || Has(black.board, i)
    {
      HasOr(white.board, black.board, i);
    }
    locs[WhitePieces := white][BlackPieces := black][AllPieces := all]
  }

  /** `__update_all_pieces`: recompute the two colour boards and their union. */
  function UpdateAllPieces(locs: Locations): (r: Locations)
    requires Complete(locs)
    ensures Complete(r)
    ensures forall p :: IsReal(p) ==> r[p] == locs[p]
    ensures Synced(r)
  {
    WithAggregates(locs, UpdatePieces(WhitePieces, locs), UpdatePieces(BlackPieces, locs))
  }

  /** The three aggregate boards agree with the twelve piece boards. */
  ghost predicate Synced(locs: Locations)
    requires Complete(locs)
  {
    (forall i: nat :: Has(locs[WhitePieces].board, i) <==> Occupied(locs, White, i)) &&
    (forall i: nat :: Has(locs[BlackPieces].board, i) <==> Occupied(locs, Black, i)) &&
    (forall i: nat :: Has(locs[AllPieces].board, i) <==>
      Has(locs[WhitePieces].board, i) || Has(locs[BlackPieces].board, i))
  }

  /** Recomputing the aggregates of a synchronised position changes nothing. */
  lemma UpdateAllPiecesIdempotent(locs: Locations)
    requires Complete(locs) && Synced(locs)
    ensures UpdateAllPieces(locs) == locs
  {
    var r := UpdateAllPieces(locs);
    forall p
      ensures r[p] == locs[p]
    {
      if !IsReal(p) {
        assert r[p].boardType == locs[p].boardType;
        Extensional(r[p].board, locs[p].board);
      }
    }
    assert r.Keys == locs.Keys;
  }
}
