/** A game in progress (`backend/core/game/chess_board.py`, class `ChessBoard`):
    the current position and the PGN text of the moves played so far. Making a
    move replaces the position and appends one fragment to the text. */
module Play {
  import opened Wrappers
  import opened Bits
  import opened Pieces
  import opened State
  import opened Attacks
  import opened Game
  import opened Numerals
  import opened Pgn
  import opened Fen

  datatype ChessGame = ChessGame(state: BoardState, pgn: string)

  /** The placement field of the start position. */
  const StartPlacement: string := "rnbqkbnr/pppppppp/8/8/8/8/PPPPPPPP/RNBQKBNR"

  /** The record `board_from_fen` reads when it is given no text: the start
      placement, White to move, all four rights, no en-passant square. */
  const StartFen: string := StartPlacement + " w KQkq - 0 1"

  /** The record the constructor reads: the given text, or the start record
      when the text is empty. */
  function ChosenFen(fen: string): (r: string)
    ensures fen != "" ==> r == fen
    ensures fen == "" ==> r == StartFen
  {
    if fen == "" then StartFen else fen
  }

  /** `ChessBoard(fen=..., pgn=...)`: the position read from the record and the
      game text as given. */
  function Open(fen: string, pgn: string): (r: Result<ChessGame>)
    ensures r.Err? <==> BoardFromFen(ChosenFen(fen)).Err?
    ensures r.Ok? ==> BoardFromFen(ChosenFen(fen)) == Ok(r.value.state)
    ensures r.Ok? ==> WellFormed(r.value.state) && r.value.pgn == pgn
  {
    var read := BoardFromFen(ChosenFen(fen));
    if read.Err? then Err(read.error) else Ok(ChessGame(read.value, pgn))
  }

  /** The dash `get_new_pgn` writes before the first fragment of a game that
      opens with Black to move. The source file holds the UTF-8 bytes of an em
      dash read back as Windows-1252, so the text is these three characters. */
  const BlackStartDash: string := "\U{00E2}\U{20AC}\U{201D}"

  /** The game text is empty and the position after the move has White to move:
      the first move recorded was Black's. */
  predicate BlackStart(pgn: string, newState: BoardState)
  {
    newState.isWhitesTurn && pgn == ""
  }

  /** The text that opens a game whose first recorded move is Black's. */
  function Header(newState: BoardState): (h: string)
    ensures |h| > 0 && h[|h| - 1] == ' '
  {
    IntToString(newState.moveNumber) + ". " + BlackStartDash + " "
  }

  /** The text before the new fragment: the old text, or the header. */
  function Before(pgn: string, newState: BoardState): string
  {
    if BlackStart(pgn, newState) then Header(newState) else pgn
  }

  /** The new game text: the fragment after the old text, or after the header. */
  function AppendFragment(pgn: string, newState: BoardState, fragment: string): (r: string)
    ensures |Before(pgn, newState)| <= |r|
    ensures r[..|Before(pgn, newState)|] == Before(pgn, newState)
    ensures r[|Before(pgn, newState)|..] == fragment
    ensures !BlackStart(pgn, newState) ==> r[..|pgn|] == pgn
  {
    Before(pgn, newState) + fragment
  }

  /** What `get_new_pgn` reads before it writes: the piece on the origin and
      whether the target is occupied, both in the position before the move;
      check and status in the position after it. */
  datatype MoveFacts = MoveFacts(piece: Option<ColorChessPiece>, isCapture: bool, isCheck: bool, status: GameStatus)

  /** The four facts, read in the source's order, with the errors each read raises. */
  function ReadFacts(st: BoardState, origin: int, target: int, newState: BoardState): (r: Result<MoveFacts>)
    requires WellFormed(st) && WellFormed(newState)
    ensures r.Err? <==>
      (origin < 0 || target < 0 || IsKingInCheck(newState, ToMove(newState)).Err? || CheckGameStatus(newState).Err?)
    ensures origin < 0 || target < 0 ==> r == Err(ValueError)
    ensures r.Ok? ==> r.value.piece == GetPieceOnSquare(st, origin).value
    ensures r.Ok? ==> (r.value.isCapture <==> exists q :: IsReal(q) && Has(Board(st, q).board, target))
    ensures r.Ok? ==> IsKingInCheck(newState, ToMove(newState)) == Ok(r.value.isCheck)
    ensures r.Ok? ==> CheckGameStatus(newState) == Ok(r.value.status)
  {
    var piece :- GetPieceOnSquare(st, origin);
    var occupant :- GetPieceOnSquare(st, target);
    var isCheck :- IsKingInCheck(newState, if newState.isWhitesTurn then White else Black);
    var status :- CheckGameStatus(newState);
    Ok(MoveFacts(piece, occupant.Some?, isCheck, status))
  }

  /** `get_new_pgn`: the game text after the move from `origin` to `target`
      that led to `newState`. With no piece on the origin the writer fails on
      `None.piece_type`, an `AttributeError`. */
  function GetNewPgn(game: ChessGame, origin: int, target: int, newState: BoardState): (r: Result<string>)
    requires WellFormed(game.state) && WellFormed(newState)
    ensures ReadFacts(game.state, origin, target, newState).Err? ==> r.Err?
    ensures (ReadFacts(game.state, origin, target, newState).Ok? &&
             ReadFacts(game.state, origin, target, newState).value.piece.None?) ==> r == Err(AttributeError)
    ensures r.Ok? ==> (ReadFacts(game.state, origin, target, newState).Ok? &&
                       ReadFacts(game.state, origin, target, newState).value.piece.Some?)
    ensures r.Ok? ==> (|Before(game.pgn, newState)| <= |r.value| &&
                       r.value[..|Before(game.pgn, newState)|] == Before(game.pgn, newState))
    ensures r.Ok? ==>
      var f := ReadFacts(game.state, origin, target, newState).value;
      Parse(r.value[|Before(game.pgn, newState)|..]) ==
        Some(Meaning(origin, target, newState, f.isCheck, f.piece.value, f.isCapture, f.status))
  {
    var facts :- ReadFacts(game.state, origin, target, newState);
    if facts.piece.None? then Err(AttributeError)
    else
      var fragment :- ConvertMovePgn(origin, target, newState, facts.isCheck, facts.piece.value,
                                     facts.isCapture, facts.status);
      ConvertMovePgnParses(origin, target, newState, facts.isCheck, facts.piece.value,
                           facts.isCapture, facts.status);
      Ok(AppendFragment(game.pgn, newState, fragment))
  }

  /** A position the move generator produces is well formed and hands the
      turn to the other side. */
  lemma Generated(st: BoardState, origin: int, target: int)
    requires WellFormed(st) && GenerateMoveBoardState(st, origin, target).Ok?
    ensures WellFormed(GenerateMoveBoardState(st, origin, target).value)
    ensures GenerateMoveBoardState(st, origin, target).value.isWhitesTurn == !st.isWhitesTurn
  {
    var p :| GetPieceOnSquare(st, origin) == Ok(Some(p)) && ColorOf(p) == ToMove(st) &&
      GetMoves(st, origin).Ok? && target in GetMoves(st, origin).value &&
      GenerateMoveBoardState(st, origin, target) == ApplyMove(st, p, origin, target);
    ApplyMoveCounters(st, p, origin, target);
  }

  /** The game text can be updated for the move that led to `next`. */
  predicate Writes(game: ChessGame, origin: int, target: int, next: BoardState)
  {
    WellFormed(game.state) && WellFormed(next) && GetNewPgn(game, origin, target, next).Ok?
  }

  /** `move_piece`: the position after the move and the text with its fragment.
      An illegal move or a failing text update leaves the game as it was. */
  function MovePiece(game: ChessGame, origin: int, target: int): (r: Result<ChessGame>)
    requires WellFormed(game.state)
    ensures GenerateMoveBoardState(game.state, origin, target).Err? ==> r.Err?
    ensures r.Ok? <==>
      GenerateMoveBoardState(game.state, origin, target).Ok? &&
      Writes(game, origin, target, GenerateMoveBoardState(game.state, origin, target).value)
    ensures r.Ok? ==> GenerateMoveBoardState(game.state, origin, target) == Ok(r.value.state)
    ensures r.Ok? ==> WellFormed(r.value.state)
    ensures r.Ok? ==> GetNewPgn(game, origin, target, r.value.state) == Ok(r.value.pgn)
    ensures r.Ok? ==> r.value.state.isWhitesTurn == !game.state.isWhitesTurn
    ensures r.Ok? ==> (|Before(game.pgn, r.value.state)| <= |r.value.pgn| &&
                       r.value.pgn[..|Before(game.pgn, r.value.state)|] == Before(game.pgn, r.value.state))
  {
    var next :- GenerateMoveBoardState(game.state, origin, target);
    Generated(game.state, origin, target);
    var pgn :- GetNewPgn(game, origin, target, next);
    Ok(ChessGame(next, pgn))
  }
}
