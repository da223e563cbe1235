# ChessInsights chess rules in Dafny

This project models the rules engine of ChessInsights, a Python chess application.

Positions are held as bitboards: 64-bit integers with one bit per square, square 0 = a1 … square 63 = h8. There are fifteen boards:
- one per coloured piece;
- one for all white pieces, one for all black pieces, one for all pieces.

A `BoardState` holds, in addition to the boards:
- the side to move;
- an en-passant board;
- the fifty-move counter;
- the move number;
- a four-bit castling-rights integer.

The model covers the whole path a move takes:
- reading a position from a FEN record;
- generating attacks for pawns, knights and kings (shift and mask) and for sliders (the "o − 2r" line trick on the board and on its mirror image);
- pseudo-legal moves per piece, including pushes, en passant and castling;
- filtering the moves that leave the mover's king attacked;
- applying a move: castling rook, pawn handler, capture, recomputed aggregates and counters;
- the game status: checkmate, stalemate, fifty-move draw;
- writing the PGN fragment of the move and appending it to the game text.

Python integers are unbounded. The model therefore works on Dafny `int`, with the bitwise operators defined on the two's-complement reading of integers (module `Bits`).
- Each place where the source builds a `BitBoard(...)` checks the range `-(2^64) <= v < 2^64` and masks with `2^64 - 1`, exactly as `BitBoard.__init__` does.
- `set_bit`, `clear_bit` and `set_board` check their arguments the way the source does.

The castling-rights integer is used with the bit meanings each function of the source gives it, and they differ:
- the FEN reader and the king and rook updates use bit 0 for White short castling;
- the castle-move generator tests bit 0 for both of White's castlings and bit 2 for both of Black's;
- the FEN castling printer uses yet another assignment (see Findings).

The model keeps each function's own reading.

Every exception the source raises on a reachable path becomes an `Err` of a `Result`:
- `ValueError`, `KeyError` and `IndexError`;
- the `AttributeError` of reading a field of `None`;
- the `UnboundLocalError` of `is_pawn_starting_rank` when given no colour.

States are immutable values. The source's `copy()` followed by in-place `set_bit`/`clear_bit` is modelled as building a new map.

The modules follow the source files:

| module | file |
|---|---|
| `Wrappers`, `Bits` | error values; Python's integer bitwise operators |
| `Pieces` | `util/enum_chess_piece_type.py` |
| `Squares` | `util/enum_square.py` |
| `Directions` | `backend/core/util/enum_ray_direction.py` |
| `BitBoards`, `Masks` | `backend/core/engine/bitboard.py` |
| `Sliding`, `Leapers`, `Attacks`, `Moves` | `backend/core/engine/move_generators.py` |
| `Castling` | `game/castling.py` |
| `PawnRules` | `game/pawn.py` |
| `State`, `Game`, `Play` | `game/board_state.py`, `backend/core/game/chess_board.py` |
| `Numerals`, `Text` | the `int()`, `str()`, `split` and `join` behaviour the FEN and PGN code relies on |
| `Fen` | `util/fen.py` |
| `Pgn` | `util/pgn.py` |

## Model

| member | source | states |
|---|---|---|
| Pieces.Opposite | src/chess_insights/util/enum_chess_piece_type.py:20-27 | White and Black swap; the `ANY` colour has no opposite and raises `ValueError` |
| Pieces.OppositeInvolution | src/chess_insights/util/enum_chess_piece_type.py:20-27 | the opposite of the opposite of a real colour is that colour |
| Pieces.PieceGroup | src/chess_insights/util/enum_chess_piece_type.py:29-38 | each colour maps to its aggregate board: type `ANY`, same colour |
| Pieces.Index | src/chess_insights/util/enum_chess_piece_type.py:49-66 | every piece has a position in the enum's iteration order, and the order lists it there |
| Pieces.PieceByType | src/chess_insights/util/enum_chess_piece_type.py:40-46 | finds the one piece of that colour and type; `ValueError` exactly when none exists |
| Pieces.PieceByFen | src/chess_insights/util/enum_chess_piece_type.py:81-85 | returns the first piece in enum order whose letter is the character; `ValueError` exactly when no piece has it |
| Pieces.FenRoundTrip | src/chess_insights/util/enum_chess_piece_type.py:49-85 | a real piece's letter reads back as that piece; the three aggregates share '_', which reads back as `ALL_PIECES` |
| Pieces.PiecesByColor | src/chess_insights/util/enum_chess_piece_type.py:88-90 | exactly the real pieces of the colour, in enum order |
| Squares.Name | src/chess_insights/util/enum_square.py:4-75 | a square's name is a file letter a-h followed by a rank digit 1-8 |
| Squares.SquareOf | src/chess_insights/util/enum_square.py:4-75 | `Square[name]` gives a square on the board, or `KeyError` |
| Squares.NameRoundTrip | src/chess_insights/util/enum_square.py:4-75 | looking up a square's name gives the square back |
| Squares.SquareOfRoundTrip | src/chess_insights/util/enum_square.py:4-75 | naming a looked-up square gives the name back |
| Squares.NameInjective | src/chess_insights/util/enum_square.py:4-75 | distinct squares have distinct names |
| Squares.Chebyshev | src/chess_insights/util/enum_square.py:78-87 | -1 when either square is off the board, else the larger of the file and rank distances |
| Squares.ChebyshevMetric | src/chess_insights/util/enum_square.py:78-87 | on the board the distance is symmetric, between 0 and 7, and 0 only for equal squares |
| Squares.ChebyshevOne | src/chess_insights/util/enum_square.py:78-87 | distance 1 is exactly a king step |
| Squares.CastlingDistance | src/chess_insights/game/castling.py:33-34 | the four castling king moves are at distance 2 |
| Directions.StepTable | src/chess_insights/backend/core/util/enum_ray_direction.py:7-16 | opposite directions have opposite square offsets; only `C` has offset 0 |
| Directions.SameRankByteMeaning | src/chess_insights/backend/core/util/enum_ray_direction.py:33-37 | the rank-byte test holds exactly when both squares share a rank; a negative square makes the shift raise |
| Directions.FromSquares | src/chess_insights/backend/core/util/enum_ray_direction.py:19-37 | the first of the 8, 9 and 7 divisibility rules decides the direction; otherwise E or W within one rank, else `C` |
| Directions.FromSquaresPriority | src/chess_insights/backend/core/util/enum_ray_direction.py:26-31 | the rule order matters: a1→h8 is NE, a1→a8 is N, h8→a1 is SW |
| Directions.GetDirections | src/chess_insights/backend/core/util/enum_ray_direction.py:40-48 | bishops get the diagonals, rooks the lines, queens both; other pieces raise `ValueError` |
| BitBoards.New | src/chess_insights/backend/core/engine/bitboard.py:11-16 | the constructor accepts exactly `-(2^64) <= v < 2^64` and keeps `v mod 2^64` |
| BitBoards.NewWord | src/chess_insights/backend/core/engine/bitboard.py:11-16 | a value already in 64 bits is kept as it is |
| BitBoards.NewNegative | src/chess_insights/backend/core/engine/bitboard.py:11-16 | a negative value in range wraps to `v + 2^64` |
| BitBoards.SetBoard | src/chess_insights/backend/core/engine/bitboard.py:18-21 | replaces the value exactly when it fits in 64 unsigned bits |
| BitBoards.SetBit | src/chess_insights/backend/core/engine/bitboard.py:23-27 | for squares 0-63, adds exactly that square and keeps the type; otherwise `ValueError` |
| BitBoards.ClearBit | src/chess_insights/backend/core/engine/bitboard.py:29-33 | for squares 0-63, removes exactly that square and keeps the type; otherwise `ValueError` |
| BitBoards.Serialize | src/chess_insights/backend/core/engine/bitboard.py:35-42 | lists exactly the set squares, in strictly increasing order |
| BitBoards.SerializeLength | src/chess_insights/backend/core/engine/bitboard.py:35-42 | the list is as long as the board's population count |
| BitBoards.PowerTest | src/chess_insights/backend/core/engine/bitboard.py:65-66 | `b & (b-1) == 0` holds exactly for a power of two |
| BitBoards.SerializeBit | src/chess_insights/backend/core/engine/bitboard.py:62-69 | returns k exactly for the input `2^k`; any other input raises |
| BitBoards.ReverseBitsBits | src/chess_insights/backend/core/engine/bitboard.py:72-76 | the three swaps put bit `7-j` of the byte at position j |
| BitBoards.ReverseBitsByte | src/chess_insights/backend/core/engine/bitboard.py:72-76 | the result is a byte |
| BitBoards.ReverseBitsInvolution | src/chess_insights/backend/core/engine/bitboard.py:72-76 | reversing a byte twice gives it back |
| BitBoards.MirrorVertical | src/chess_insights/backend/core/engine/bitboard.py:47-49 | the byte swap sends rank r to rank 7-r and keeps files and type |
| BitBoards.MirrorHorizontal | src/chess_insights/backend/core/engine/bitboard.py:51-59 | reversing each byte sends file f to file 7-f and keeps ranks and type |
| BitBoards.Mirror | src/chess_insights/backend/core/engine/bitboard.py:44-45 | the two mirrors together send square i to 63-i |
| BitBoards.MirrorVerticalInvolution | src/chess_insights/backend/core/engine/bitboard.py:47-49 | mirroring top to bottom twice is the identity |
| BitBoards.MirrorHorizontalInvolution | src/chess_insights/backend/core/engine/bitboard.py:51-59 | mirroring left to right twice is the identity |
| BitBoards.MirrorInvolution | src/chess_insights/backend/core/engine/bitboard.py:44-45 | the full mirror is its own inverse |
| BitBoards.GetFile | src/chess_insights/backend/core/engine/bitboard.py:117-118 | the file of a board square is 0-7 |
| BitBoards.GetRank | src/chess_insights/backend/core/engine/bitboard.py:121-122 | the rank of a board square is 0-7 |
| BitBoards.FileRankSquare | src/chess_insights/backend/core/engine/bitboard.py:117-122 | the square is recovered as `8*rank + file` |
| Masks.FileMaskBits | src/chess_insights/backend/core/engine/bitboard.py:80-81 | the shifted file mask holds exactly the 8 squares of that file |
| Masks.RankMaskBits | src/chess_insights/backend/core/engine/bitboard.py:82-83 | the shifted rank mask holds exactly the squares of that rank |
| Masks.EdgesBits | src/chess_insights/backend/core/engine/bitboard.py:96 | the edge mask holds exactly the squares on rank 1, rank 8, file a or file h |
| Masks.NextSquare | src/chess_insights/backend/core/engine/bitboard.py:100-111 | the walk takes another step exactly when it is on its first step or off the edge, and the step is one diagonal square on the board |
| Masks.DiagonalPath | src/chess_insights/backend/core/engine/bitboard.py:93-114 | the walk marks exactly the origin and the diagonal ray from it to the board edge |
| Masks.RaysMakeLine | src/chess_insights/backend/core/engine/bitboard.py:88-90 | the rays in both senses make up the whole diagonal through the square |
| Masks.GetDiagonalMask | src/chess_insights/backend/core/engine/bitboard.py:88-90 | the OR of the two walks is the full diagonal line through the square |
| Masks.GenerateMask | src/chess_insights/backend/core/engine/bitboard.py:79-85 | the mask is the full file, rank or diagonal line through the square in that direction |
| Masks.GenerateMaskReverse | src/chess_insights/backend/core/engine/bitboard.py:79-85 | a direction and its reverse give the same mask |
| Masks.GenerateMaskSymmetric | src/chess_insights/backend/core/engine/bitboard.py:79-85 | t is on s's line exactly when s is on t's line |
| Masks.GenerateMaskHoldsSquare | src/chess_insights/backend/core/engine/bitboard.py:79-85 | the line holds its own square |
| Sliding.LineAttacks | src/chess_insights/backend/core/engine/move_generators.py:137-145 | the two difference paths, masked to the line, mark exactly the squares the slider sees along it, up to and including the first blocker each way |
| Sliding.GenerateSlidingAttacks | src/chess_insights/backend/core/engine/move_generators.py:126-147 | the union over squares and directions is exactly what any listed slider sees in any listed direction |
| Sliding.DirectionsOf | src/chess_insights/backend/core/engine/move_generators.py:120 | sliders get their directions; other board types raise |
| Sliding.GetSlidingAttacks | src/chess_insights/backend/core/engine/move_generators.py:118-123 | a slider board attacks exactly the squares its pieces see along their directions |
| Sliding.SeesSymmetric | src/chess_insights/backend/core/engine/move_generators.py:126-147 | sight along a line is symmetric between the two squares |
| Sliding.SeesOnEmptyLine | src/chess_insights/backend/core/engine/move_generators.py:126-147 | on an empty line a slider sees every other square of the line |
| Sliding.SeesStopsAtBlocker | src/chess_insights/backend/core/engine/move_generators.py:126-147 | nothing beyond the first occupied square is seen |
| Leapers.PawnJumpsBits | src/chess_insights/backend/core/engine/move_generators.py:155-160 | the shifted boards mark exactly the diagonal forward squares of each pawn, plus the bits a White pawn on rank 8 pushes above bit 63 |
| Leapers.PawnJumpsRange | src/chess_insights/backend/core/engine/move_generators.py:155-162 | the pawn attacks fit in 64 bits unless a White pawn stands on rank 8 |
| Leapers.GeneratePawnAttacks | src/chess_insights/backend/core/engine/move_generators.py:150-162 | exactly the diagonal forward squares; fails exactly when a White pawn stands on rank 8 (the shift overflows 64 bits); `UnboundLocalError` without a colour; `AttributeError` without a type |
| Leapers.KnightStepCases | src/chess_insights/backend/core/engine/move_generators.py:176-183 | a knight step is exactly one of the eight offsets that stays on the board |
| Leapers.KnightJumpsBits | src/chess_insights/backend/core/engine/move_generators.py:176-184 | the eight guarded shifts mark exactly the knight steps from the board's squares |
| Leapers.GenerateKnightAttacks | src/chess_insights/backend/core/engine/move_generators.py:165-186 | attacks are exactly the knight steps from the board's squares |
| Leapers.KingStepCases | src/chess_insights/backend/core/engine/move_generators.py:196-203 | a king step is exactly one of the eight neighbours on the board |
| Leapers.KingJumpsBits | src/chess_insights/backend/core/engine/move_generators.py:196-204 | the guarded shifts, diagonals built from the vertical ones, mark exactly the king steps |
| Leapers.GenerateKingAttacks | src/chess_insights/backend/core/engine/move_generators.py:189-206 | attacks are exactly the king steps from the board's squares |
| Attacks.GenerateAttacks | src/chess_insights/backend/core/engine/move_generators.py:37-54 | `ValueError` unless the collisions board is `ALL_PIECES` or for an aggregate piece type; otherwise exactly the squares the pieces attack under the piece's rule |
| Attacks.Board | src/chess_insights/game/board_state.py:9 | every piece's board in a position is a valid board tagged with that piece |
| Attacks.AttackUnion | src/chess_insights/backend/core/engine/move_generators.py:57-65 | the OR over the listed pieces is exactly the squares some listed piece attacks; it fails only for an overflowing White pawn |
| Attacks.AttacksByColor | src/chess_insights/backend/core/engine/move_generators.py:57-65 | exactly the squares the colour attacks, untyped |
| Castling.UpdateCastlingRights | src/chess_insights/game/castling.py:6-24 | a king move keeps only the other colour's bits; a rook on a corner clears that corner's bit; anything else keeps the rights |
| Castling.RightsOnlyShrink | src/chess_insights/game/castling.py:6-24 | updating never grants a right |
| Castling.CastlingRookSquares | src/chess_insights/game/castling.py:40-55 | the rook is Black's exactly when the target is above square 6, otherwise White's; its squares for the four castles are stated by Castling.CastlingRookCorners |
| Castling.CastlingRookCorners | src/chess_insights/game/castling.py:40-55 | for each castling king move, the rook comes from the corner on that side and lands on the square the king crossed |
| Castling.HandleCastling | src/chess_insights/game/castling.py:27-37 | a king move of distance over 1 moves that rook and leaves every other board alone; other moves change nothing |
| Castling.CastleMoves | src/chess_insights/game/castling.py:78-100 | g1 when the short path is free and unattacked, c1 likewise for long; both tests read bit 0 of the rights |
| Castling.GetCastlingMoves | src/chess_insights/game/castling.py:58-75 | White castles on rank 1 from bit 0; Black castles on rank 8 from bit 2 through the mirrored board; no colour returns nothing |
| Castling.BlackCastleMoves | src/chess_insights/game/castling.py:71-75 | mirroring, testing and mirroring back gives g8/c8 under the rank-8 path conditions |
| PawnRules.PawnMovement | src/chess_insights/game/pawn.py:59-65 | single and double push squares are one and two ranks forward; no colour gives nothing |
| PawnRules.PushGeometry | src/chess_insights/game/pawn.py:59-65 | a push square on the board keeps the file and moves one or two ranks forward |
| PawnRules.IsPawnStartingRank | src/chess_insights/game/pawn.py:68-76 | true exactly on rank 2 for White and rank 7 for Black; no colour raises `UnboundLocalError` |
| PawnRules.BitLength | src/chess_insights/game/pawn.py:37 | `int.bit_length`: 0 only for 0, else one past the highest set bit |
| PawnRules.HandleEnPassant | src/chess_insights/game/pawn.py:24-28 | a two-rank move marks the square behind the target; any other move gives 0 |
| PawnRules.DoublePushSkips | src/chess_insights/game/pawn.py:24-28 | a double push from the start rank marks exactly the skipped square |
| PawnRules.HandleEnPassantCapture | src/chess_insights/game/pawn.py:31-44 | landing on the marked square removes the enemy pawn behind it and touches nothing else; otherwise nothing changes |
| PawnRules.EnPassantRoundTrip | src/chess_insights/game/pawn.py:24-44 | after a double push, the enemy capturing on the marked square removes exactly the pushed pawn |
| PawnRules.PawnPromotion | src/chess_insights/game/pawn.py:47-56 | on the last rank the pawn becomes a queen of its colour; elsewhere nothing changes |
| PawnRules.PawnSideEffects | src/chess_insights/game/pawn.py:17-21 | a pawn move returns the en-passant square and 0; on the last rank the pawn leaves the target and a queen of its colour takes it; landing on the en-passant square removes the enemy pawn behind it; every other board is unchanged |
| PawnRules.HandlePawnMovement | src/chess_insights/game/pawn.py:7-21 | a non-pawn move returns no en-passant square and counter+1 and touches no board; a pawn move has the promotion, en-passant capture and frame effects of PawnSideEffects |
| Moves.OwnPieces | src/chess_insights/backend/core/engine/move_generators.py:71 | the board tagged with the mover's colour group; in a synced position it holds exactly the squares that colour's pieces occupy |
| Moves.SlidingAndKnightMoves | src/chess_insights/backend/core/engine/move_generators.py:68-74 | exactly the attacked squares without the mover's own pieces |
| Moves.Pushes | src/chess_insights/backend/core/engine/move_generators.py:84-97 | a single push to an empty square, and a double push only from the start rank with both squares empty |
| Moves.PawnMoves | src/chess_insights/backend/core/engine/move_generators.py:77-101 | diagonal captures onto enemy pieces or the en-passant square, plus the pushes; an empty board raises `IndexError` |
| Moves.KingMoves | src/chess_insights/backend/core/engine/move_generators.py:104-115 | king steps to squares neither own nor attacked, plus the castling targets |
| Moves.GenerateMoves | src/chess_insights/backend/core/engine/move_generators.py:27-34 | dispatches on piece type; lists each error the three generators raise |
| Moves.MovesAvoidOwn | src/chess_insights/backend/core/engine/move_generators.py:68-115 | with consistent aggregates, no move lands on an own piece, except a pawn capture onto a square the enemy also holds or onto the en-passant square |
| Moves.SquareBoard | src/chess_insights/backend/core/engine/move_generators.py:19 | `BitBoard(1 << square, type)` holds exactly that square |
| Moves.Targets | src/chess_insights/backend/core/engine/move_generators.py:19 | the serialised moves of one piece on one square |
| Moves.Placements | src/chess_insights/backend/core/engine/move_generators.py:21-23 | exactly the (piece, square) pairs of the listed pieces, all on the board |
| Moves.GenerateAllMoves | src/chess_insights/backend/core/engine/move_generators.py:11-24 | one entry per piece of the side to move and square it stands on, holding that piece's targets; it fails exactly when one of them fails |
| State.GroupUnion | src/chess_insights/backend/core/game/chess_board.py:251-254 | the OR over the real pieces of a colour holds exactly the squares one of them occupies |
| State.UpdatePieces | src/chess_insights/backend/core/game/chess_board.py:246-256 | the colour's aggregate holds exactly the squares its real pieces occupy |
| State.UpdatePiecesAnyOrder | src/chess_insights/backend/core/game/chess_board.py:246-256 | the OR does not depend on the order the pieces are visited in: any list holding every real piece gives the same board |
| State.WithAggregates | src/chess_insights/backend/core/game/chess_board.py:235-244 | installs the two colour boards and their OR; real boards unchanged |
| State.UpdateAllPieces | src/chess_insights/backend/core/game/chess_board.py:231-244 | the three aggregates agree with the real boards afterwards; real boards unchanged |
| State.UpdateAllPiecesIdempotent | src/chess_insights/backend/core/game/chess_board.py:231-256 | recomputing aggregates that already agree changes nothing |
| Game.GetPieceOnSquare | src/chess_insights/backend/core/game/chess_board.py:126-134 | the first real piece in enum order occupying the square; none exactly when no real piece does; a negative square raises `ValueError` |
| Game.IsKingInCheck | src/chess_insights/backend/core/game/chess_board.py:204-213 | true exactly when a king square of the colour is attacked by the other colour |
| Game.SimulatedBoards | src/chess_insights/backend/core/game/chess_board.py:163-177 | the mover goes from square to move; the occupant of the move square loses it; every other board is kept |
| Game.Simulate | src/chess_insights/backend/core/game/chess_board.py:163-183 | the trial position differs only in the boards, with synced aggregates, and in the turn |
| Game.Legal | src/chess_insights/backend/core/game/chess_board.py:185-187 | a move is kept exactly when the mover's king is safe in the trial position |
| Game.ValidateMoves | src/chess_insights/backend/core/game/chess_board.py:155-189 | keeps exactly the candidates that leave the king safe; never more than given |
| Game.GetMoves | src/chess_insights/backend/core/game/chess_board.py:110-124 | an empty square gives []; otherwise exactly the generated targets that are legal; it fails exactly for a negative square or when generating or testing the occupant's moves fails |
| Game.GetMovesSound | src/chess_insights/backend/core/game/chess_board.py:110-124 | every listed move is on the board, generated for the piece, and leaves its king safe |
| Game.ValidateMove | src/chess_insights/backend/core/game/chess_board.py:191-202 | no piece raises `AttributeError`; the wrong side raises `ValueError`; otherwise accepted exactly when the target is among the moves |
| Game.HandleCapture | src/chess_insights/backend/core/game/chess_board.py:215-229 | removes the captured piece from the target and leaves the other boards alone; a rook captured on a corner loses exactly that corner's right; any other capture, a rook off a corner included, keeps the rights unchanged |
| Game.MovedBoards | src/chess_insights/backend/core/game/chess_board.py:56-71 | a non-pawn piece leaves its origin for the target; the pawn handler sets the en-passant value and the fifty counter: 0 after a pawn move, else +1 |
| Game.MovedBoardsFrame | src/chess_insights/backend/core/game/chess_board.py:56-71 | every board other than the mover's, the castling rook's, and for a pawn its queen's and the enemy pawn's, is unchanged |
| Game.MovedBoardsCastling | src/chess_insights/backend/core/game/chess_board.py:65-66 | a castling king's rook leaves its corner square for the square beside the king |
| Game.MovedBoardsPawn | src/chess_insights/backend/core/game/chess_board.py:56-71 | a pawn leaves its origin and lands on the target, unless it promotes there |
| Game.MovedBoardsPromotion | src/chess_insights/backend/core/game/chess_board.py:68-71 | a pawn reaching its last rank adds a queen of its colour on the target; otherwise the queens do not move |
| Game.MovedBoardsEnPassant | src/chess_insights/backend/core/game/chess_board.py:68-71 | a pawn landing on the en-passant square removes the enemy pawn behind it; otherwise the enemy pawns do not move |
| Game.EnPassantBoard | src/chess_insights/backend/core/game/chess_board.py:89 | the en-passant value becomes an untyped board when it fits in 64 bits |
| Game.TakeOccupant | src/chess_insights/backend/core/game/chess_board.py:73-79 | the captured piece loses exactly the target square and no other board changes; a captured rook applies the corner rule to the rights, any other capture keeps them; an empty target changes nothing |
| Game.FinishMove | src/chess_insights/backend/core/game/chess_board.py:60-95 | turn flips; move number +1 after White's move; fifty counter 0 after a capture; the rights are the mover's update followed by the corner rule for a captured rook; the occupant loses the target and every other real board is kept; aggregates synced |
| Game.ApplyMove | src/chess_insights/backend/core/game/chess_board.py:50-95 | off-board squares raise `ValueError`; a result is a well-formed position |
| Game.ApplyMoveCounters | src/chess_insights/backend/core/game/chess_board.py:85-93 | after a move the turn flips, the move number grows only after White's move, and no castling right appears |
| Game.ApplyMoveEnPassant | src/chess_insights/backend/core/game/chess_board.py:68-71 | only a pawn move marks an en-passant square: the one `handle_en_passant` computes |
| Game.ApplyMoveBoards | src/chess_insights/backend/core/game/chess_board.py:56-82 | a captured piece loses the target; a non-pawn mover occupies the target instead of its origin; aggregates synced |
| Game.ApplyMoveFrame | src/chess_insights/backend/core/game/chess_board.py:56-82 | every real board the move does not edit is unchanged, except that the piece on the target loses that square |
| Game.ApplyMoveCastling | src/chess_insights/backend/core/game/chess_board.py:65-66 | castling moves the rook from its corner to the square the king crossed |
| Game.ApplyMovePawn | src/chess_insights/backend/core/game/chess_board.py:56-71 | a pawn goes from origin to target; on its last rank it is replaced there by a queen of its colour |
| Game.ApplyMoveEnPassantCapture | src/chess_insights/backend/core/game/chess_board.py:68-71 | a pawn landing on the en-passant square removes the enemy pawn behind it |
| Game.ApplyMoveRights | src/chess_insights/backend/core/game/chess_board.py:60-63 | the rights are the mover's update, then the corner rule for a captured rook; a king move drops both rights of its side |
| Game.GenerateMoveBoardState | src/chess_insights/backend/core/game/chess_board.py:42-95 | a result comes from a piece of the side to move whose listed moves include the target, and is that move applied |
| Game.Flatten | src/chess_insights/backend/core/game/chess_board.py:142-145 | the concatenation of the validated lists holds exactly the moves of some entry |
| Game.CheckGameStatus | src/chess_insights/backend/core/game/chess_board.py:136-153 | checkmate/stalemate exactly when no legal move exists, checkmate when the king is also attacked; 50-move draw when moves exist and the counter is at least 50; otherwise ongoing; it fails exactly when generating or validating some move fails, or when there is no legal move and the check test fails |
| Game.NoMovesIff | src/chess_insights/backend/core/game/chess_board.py:141-149 | the flattened list is empty exactly when the side to move has no legal move |
| Game.LegalMoveListed | src/chess_insights/backend/core/game/chess_board.py:141-145 | every legal move of the side to move appears in the flattened list |
| Game.ListedMoveLegal | src/chess_insights/backend/core/game/chess_board.py:141-145 | a non-empty list means some legal move exists |
| Pgn.PieceLetter | src/chess_insights/util/pgn.py:20 | the upper-case letter of the piece; empty exactly for pawns |
| Pgn.MoveNotation | src/chess_insights/util/pgn.py:16-23 | castling, piece move or pawn capture text; an off-board square raises `ValueError` |
| Pgn.ConvertMovePgn | src/chess_insights/util/pgn.py:7-33 | the fragment fails exactly when a named square is off the board, and always ends in a space |
| Pgn.ParseMarker | src/chess_insights/util/pgn.py:25-31 | reads the result or check marker off the end of a fragment; the text it leaves is a prefix of the fragment |
| Pgn.MarkerRoundTrip | src/chess_insights/util/pgn.py:25-31 | the marker written for a status reads back as that status's marker |
| Pgn.PrefixRoundTrip | src/chess_insights/util/pgn.py:15 | the move-number prefix reads back: the number after White's move, none after Black's |
| Pgn.NotationRoundTrip | src/chess_insights/util/pgn.py:16-23 | the move text reads back as castle side, piece, capture flag and target |
| Pgn.FragmentParses | src/chess_insights/util/pgn.py:15-33 | prefix, move text and marker read back together |
| Pgn.ConvertMovePgnParses | src/chess_insights/util/pgn.py:7-33 | every fragment written parses back to the move's number, notation and status marker |
| Numerals.NatToString | src/chess_insights/util/pgn.py:15 | `str(n)` is a canonical digit string, one digit exactly below 10 |
| Numerals.NatToStringValue | src/chess_insights/util/pgn.py:15 | the digits of `str(n)` have value n |
| Numerals.ValueToString | src/chess_insights/util/pgn.py:15 | writing a canonical digit string's value gives it back |
| Numerals.IntToString | src/chess_insights/backend/core/game/chess_board.py:108 | `str(i)` has a minus sign exactly for negative i, then canonical digits |
| Numerals.Strip | src/chess_insights/util/fen.py:62-63 | the result is no longer than the text and neither starts nor ends with white space |
| Numerals.StripOuter | src/chess_insights/util/fen.py:62-63 | `strip()` returns a slice of the text with only white space before and after it, so only outer white space is removed |
| Numerals.ParseNumeral | src/chess_insights/util/fen.py:62-63 | an optionally signed digit string gives its value; anything else raises `ValueError` |
| Numerals.ParseInt | src/chess_insights/util/fen.py:62-63 | `int(s)` succeeds exactly when the stripped text is a signed decimal numeral |
| Numerals.ParseIntToString | src/chess_insights/util/fen.py:62-63 | `int(str(i)) == i` |
| Numerals.ToStringParseInt | src/chess_insights/util/fen.py:62-63 | `str(int(s)) == s` for text `str` itself writes |
| Text.FirstIndex | src/chess_insights/util/fen.py:12-13 | the first position of the character, or none when absent |
| Text.SplitN | src/chess_insights/util/fen.py:12-13 | `split(sep, n)` gives between 1 and n+1 parts; no part before the last holds `sep`, and with fewer than n+1 parts the last holds none either |
| Text.SplitJoin | src/chess_insights/util/fen.py:12-13 | joining the parts with the separator gives the text back |
| Text.SplitCount | src/chess_insights/util/fen.py:11-15 | there are n+1 parts exactly when the text holds at least n separators |
| Fen.FenToCastlingRights | src/chess_insights/util/fen.py:69-79 | bit 0 ⇔ 'K', bit 1 ⇔ 'Q', bit 2 ⇔ 'q', bit 3 ⇔ 'k' appears in the field |
| Fen.CastlingRightsToFen | src/chess_insights/util/fen.py:82-95 | "-" exactly when no low bit is set; otherwise K from bit 2, Q from bit 3, k from bit 0, q from bit 1, in that order |
| Fen.CastlingRightsToFenIntended | src/chess_insights/util/fen.py:82-95 | the printer with the reader's bit assignment: "-" exactly for no rights, else the letters KQkq of the set bits |
| Fen.IntendedRoundTrip | src/chess_insights/util/fen.py:69-95 | reading what the intended printer writes gives the rights back, for every 4-bit value |
| Fen.AsWrittenRoundTrip | src/chess_insights/util/fen.py:69-95 | reading what the source printer writes gives the rights back only for 0 and 15 |
| Fen.WhiteShortPrintsAsBlack | src/chess_insights/util/fen.py:82-95 | White's short-castling right alone prints as "k", which reads back as Black's |
| Fen.EmptyBoards | src/chess_insights/util/fen.py:18-20 | fifteen empty boards, each tagged with its piece |
| Fen.PlaceFrom | src/chess_insights/util/fen.py:33-42 | the walk fails with `ValueError` exactly when some later character is an unknown letter or falls off the board; otherwise each board gains exactly the squares its letters name |
| Fen.Placement | src/chess_insights/util/fen.py:33-42 | the placement field fails exactly at a bad character; each real board holds exactly the squares its letter is placed on; the colour aggregates stay empty |
| Fen.AggregateOf | src/chess_insights/util/fen.py:44-55 | the sums become the colour boards and their OR; a sum of 2^64 or more raises `ValueError` |
| Fen.Aggregate | src/chess_insights/util/fen.py:44-55 | the colour boards are the arithmetic sums over the pieces of that colour |
| Fen.AddDisjoint | src/chess_insights/util/fen.py:45-48 | a sum of boards with no common square equals their OR |
| Fen.SumIsUnion | src/chess_insights/util/fen.py:45-48 | with no square occupied twice, the colour sum is the OR of the colour's boards |
| Fen.SumsAreUnions | src/chess_insights/util/fen.py:44-48 | both colour sums are unions when the placement is disjoint |
| Fen.AggregateIsUpdate | src/chess_insights/util/fen.py:44-55 | on a disjoint placement, the reader's aggregates are those `__update_all_pieces` computes |
| Fen.EnPassantField | src/chess_insights/util/fen.py:28-31 | "-" gives an empty board; a square name gives exactly that square; any other text raises `KeyError` |
| Fen.Fields | src/chess_insights/util/fen.py:11-15 | six fields exactly when the record holds five spaces, and they join back to the record; only the last field can hold a space |
| Fen.Assemble | src/chess_insights/util/fen.py:17-65 | each field sets its part of the state; the error is the first failing step's, `KeyError` for the en-passant field |
| Fen.BoardFromFen | src/chess_insights/util/fen.py:9-65 | fewer than five spaces raise `ValueError`; otherwise the six fields are read in order |
| Fen.FenPieces | src/chess_insights/util/fen.py:33-42 | every real board of a read position holds exactly the squares the placement field gives that letter |
| Fen.FenSynced | src/chess_insights/util/fen.py:44-55 | a read position whose placement puts no two pieces on one square has consistent aggregates |
| Play.ChosenFen | src/chess_insights/backend/core/game/chess_board.py:25-26 | an empty text selects the start record |
| Play.Open | src/chess_insights/backend/core/game/chess_board.py:21-27 | a new game holds the position read from the record and the given text; a bad record raises |
| Play.Header | src/chess_insights/backend/core/game/chess_board.py:108 | the header of a game opening with Black ends in a space |
| Play.AppendFragment | src/chess_insights/backend/core/game/chess_board.py:107-108 | the new text is the old text, or the header when Black moved first, followed by the fragment |
| Play.ReadFacts | src/chess_insights/backend/core/game/chess_board.py:99-106 | piece and capture come from the position before the move; check and status from the position after it; each read's error propagates |
| Play.GetNewPgn | src/chess_insights/backend/core/game/chess_board.py:97-108 | the new text extends the old; its last fragment parses back to the move; an empty origin raises `AttributeError` |
| Play.Generated | src/chess_insights/backend/core/game/chess_board.py:42-95 | a generated position is well formed and hands the turn over |
| Play.MovePiece | src/chess_insights/backend/core/game/chess_board.py:33-40 | a move succeeds exactly when it is legal and the text can be written; the game then holds the new position, with the turn flipped, and the text `get_new_pgn` gives, which extends the old |

## Left out

- The web layer, the engine wrapper and the JavaScript front end are not modelled: they are callers of the rules, not rules.
- The earlier copies of the board, bitboard, move-generator and piece modules under other package paths are not modelled. The core here is the `backend/core` board with the `game` and `util` helpers it imports.
- numpy is not modelled as such. `mirror_vertical` is a byte swap of the 64-bit word and `mirror_horizontal` reverses the bits of each byte, as the numpy calls compute them on a little-endian machine.
- `BoardState.copy` and dictionary aliasing are not modelled: positions are immutable values, so each copy is a new value. A shallow copy whose `set_bit` leaked into the original would not be seen.
- Mutation is not modelled with `modifies` or `old`: each in-place update is a function from the old boards to the new ones.
- `DRAW_REPETITION` and `DRAW_INSUFFICIENT_MATERIAL` are listed in the status enum and printed by the PGN writer, but nothing produces them. The model prints them and never produces them either.
- Promotion always makes a queen: the source has no other choice.
- Numerals.ParseInt: does not model `int()`'s underscores between digits, non-ASCII white space or non-ASCII Unicode digits. It accepts only ASCII signed decimal numerals, so records using those forms are reported as errors.
- Numerals.Strip: strips only ASCII white space.
- Numerals.ParseNumeral: like Numerals.ParseInt, it reads only ASCII signed decimal numerals, without underscores or other Unicode decimal digits.
- Fen.PlaceFrom: treats only the ASCII digits 0-9 as skip counts, as Fen.Placement below explains.
- Fen.Placement: like Fen.PlaceFrom and Fen.Step, it treats only the ASCII digits 0-9 as skip counts. `str.isdigit()` and `int()` in fen.py lines 37-38 also accept other Unicode decimal digits, such as U+0668. The model reads those as piece letters, so it reports `ValueError` where the source skips squares.
- Masks.GenerateMask: requires a square below 64, and for direction C a square on the edge. For C the offset is 0, so from an inner square the walk of `generate_diagonal_path_to_edge_of_board` (bitboard.py lines 93-114) never reaches an edge and never ends. Squares of 64 or more lie off the board. No caller passes either input: every square comes from a board, and Directions.GetDirections never yields C.
- Fen.FenSynced: states that a read position's aggregates agree with its boards only when no square is named twice. The source adds the boards, so overlapping placements give sums that are not unions, and the model keeps those sums.
- Game.ApplyMove: its own contract states only the error case and well-formedness. Its effects are stated by lemmas about it: the counters by Game.ApplyMoveCounters, the en-passant square by Game.ApplyMoveEnPassant, the rights by Game.ApplyMoveRights, and the boards by Game.ApplyMoveBoards, Game.ApplyMoveFrame, Game.ApplyMoveCastling, Game.ApplyMovePawn and Game.ApplyMoveEnPassantCapture. The board lemmas state each edited board only when its piece is not the one standing on the target; that piece's board is covered by the capture clauses instead. The fifty-move counter is stated on Game.MovedBoards (pawn → 0, else +1) and Game.FinishMove (capture → 0).
- Game.GenerateMoveBoardState: states that a result is a validated move applied, and that a failed validation fails. It does not enumerate the rarer errors raised while applying a validated move, for example a castling rook square off the board.
- Play.GetNewPgn: does not enumerate the errors of writing the fragment, beyond the missing piece. Those errors are the ones Pgn.ConvertMovePgn lists.
- Play.Open: the default argument `fen=None` is modelled as the empty string. Both select the start record.
- Two behaviours of the code differ from the FEN standard; the model follows the code:
  - the move number grows after White's move, where FEN's full-move number grows after Black's (chess_board.py lines 90-91);
  - the reader splits with a limit of five, so a record with extra spaces keeps them in the last field instead of being refused.
- `fen_from_board` is not part of this model. It is not in the fen.py modelled here, although api/app.py and the unit tests of the FEN module call it. So the full-record round trip FEN → board → FEN that those tests assert is not stated. Only the castling field's printer is present, and its round trip is stated under Findings.
- `File` and `Rank` masks: enum_file_and_rank.py is not part of this model. Masks.FileMask and Masks.RankMask assume that its members are the integer masks `0x0101010101010101 << f` for file f (A is 0) and `0xFF << 8r` for rank r (One is 0). pawn.py line 51 and bitboard.py line 96 combine those values with plain integers through `&` and `|`.

## Findings

| source | as written | input that shows it | evidently intended | confidence | as-written member | corrected member |
|---|---|---|---|---|---|---|
| src/chess_insights/util/fen.py:82-95 | `castling_rights_to_fen` prints K for bit 2, Q for bit 3, k for bit 0 and q for bit 1. `fen_to_castling_rights` (lines 69-79) reads K into bit 0, Q into bit 1, q into bit 2 and k into bit 3. | rights `1` (White short only) prints "k"; "k" reads back as `8` (Black short only). | the printer uses the reader's assignment, so printing then reading gives every 4-bit value back | not executed | Fen.CastlingRightsToFen (Fen.AsWrittenRoundTrip, Fen.WhiteShortPrintsAsBlack) | Fen.CastlingRightsToFenIntended (Fen.IntendedRoundTrip) |
