/** Piece types, colours and the fifteen board keys of
    `util/enum_chess_piece_type.py`. */
module Pieces {
  import opened Wrappers

  datatype PieceType = AnyType | Pawn | Knight | Bishop | Rook | Queen | King

  datatype Color = AnyColor | White | Black

  /** `ColorChessPiece`: three aggregate boards followed by the twelve pieces. */
  datatype ColorChessPiece =
    | AllPieces | WhitePieces | BlackPieces
    | WhitePawn | WhiteKnight | WhiteBishop | WhiteRook | WhiteQueen | WhiteKing
    | BlackPawn | BlackKnight | BlackBishop | BlackRook | BlackQueen | BlackKing

  /** Enum declaration order, the order every `for piece in ColorChessPiece` visits. */
  const Order: seq<ColorChessPiece> :=
    [AllPieces, WhitePieces, BlackPieces,
     WhitePawn, WhiteKnight, WhiteBishop, WhiteRook, WhiteQueen, WhiteKing,
     BlackPawn, BlackKnight, BlackBishop, BlackRook, BlackQueen, BlackKing]

  function TypeOf(p: ColorChessPiece): PieceType
  {
    match p
    case AllPieces | WhitePieces | BlackPieces => AnyType
    case WhitePawn | BlackPawn => Pawn
    case WhiteKnight | BlackKnight => Knight
    case WhiteBishop | BlackBishop => Bishop
    case WhiteRook | BlackRook => Rook
    case WhiteQueen | BlackQueen => Queen
    case WhiteKing | BlackKing => King
  }

  function ColorOf(p: ColorChessPiece): Color
  {
    match p
    case AllPieces => AnyColor
    case WhitePieces | WhitePawn | WhiteKnight | WhiteBishop | WhiteRook | WhiteQueen | WhiteKing => White
    case BlackPieces | BlackPawn | BlackKnight | BlackBishop | BlackRook | BlackQueen | BlackKing => Black
  }

  /** The FEN letter; the aggregates all carry '_'. */
  function Fen(p: ColorChessPiece): char
  {
    match p
    case AllPieces | WhitePieces | BlackPieces => '_'
    case WhitePawn => 'P'
    case WhiteKnight => 'N'
    case WhiteBishop => 'B'
    case WhiteRook => 'R'
    case WhiteQueen => 'Q'
    case WhiteKing => 'K'
    case BlackPawn => 'p'
    case BlackKnight => 'n'
    case BlackBishop => 'b'
    case BlackRook => 'r'
    case BlackQueen => 'q'
    case BlackKing => 'k'
  }

  /** A real piece, as opposed to one of the three aggregate boards. */
  predicate IsReal(p: ColorChessPiece)
  {
    TypeOf(p) != AnyType
  }

  /** `Color.opposite`: swaps the two colours; `ANY` has no opposite. */
  function Opposite(c: Color): (r: Result<Color>)
    ensures r.Err? <==> c == AnyColor
    ensures r.Ok? ==> r.value != AnyColor && r.value != c
  {
    match c
    case White => Ok(Black)
    case Black => Ok(White)
    case AnyColor => Err(ValueError)
  }

  lemma OppositeInvolution(c: Color)
    requires c != AnyColor
    ensures Opposite(c).Ok? && Opposite(Opposite(c).value) == Ok(c)
  {}

  /** `Color.get_piece_group`: the aggregate board holding every piece of that colour. */
  function PieceGroup(c: Color): (r: ColorChessPiece)
    ensures TypeOf(r) == AnyType && ColorOf(r) == c
  {
    match c
    case White => WhitePieces
    case Black => BlackPieces
    case AnyColor => AllPieces
  }

  /** Position of `p` in enum declaration order. */
  function Index(p: ColorChessPiece): (i: nat)
    ensures i < |Order| && Order[i] == p
  {
    match p
    case AllPieces => 0
    case WhitePieces => 1
    case BlackPieces => 2
    case WhitePawn => 3
    case WhiteKnight => 4
    case WhiteBishop => 5
    case WhiteRook => 6
    case WhiteQueen => 7
    case WhiteKing => 8
    case BlackPawn => 9
    case BlackKnight => 10
    case BlackBishop => 11
    case BlackRook => 12
    case BlackQueen => 13
    case BlackKing => 14
  }

  /** The piece of colour `c` and type `t` among the twelve real pieces. */
  function Make(c: Color, t: PieceType): (p: ColorChessPiece)
    requires c != AnyColor && t != AnyType
    ensures IsReal(p) && ColorOf(p) == c && TypeOf(p) == t
  {
    match (c, t)
    case (White, Pawn) => WhitePawn
    case (White, Knight) => WhiteKnight
    case (White, Bishop) => WhiteBishop
    case (White, Rook) => WhiteRook
    case (White, Queen) => WhiteQueen
    case (White, King) => WhiteKing
    case (Black, Pawn) => BlackPawn
    case (Black, Knight) => BlackKnight
    case (Black, Bishop) => BlackBishop
    case (Black, Rook) => BlackRook
    case (Black, Queen) => BlackQueen
    case (Black, King) => BlackKing
  }

  /** `Color.get_color_piece_by_type`: the member whose type is `t` and colour is `c`.
      At most one member matches, so the first match of the search is the only one. */
  function PieceByType(c: Color, t: PieceType): (r: Result<ColorChessPiece>)
    ensures r.Ok? ==> TypeOf(r.value) == t && ColorOf(r.value) == c
    ensures r.Ok? ==> forall p :: TypeOf(p) == t && ColorOf(p) == c ==> p == r.value
    ensures r.Err? <==> forall p :: !(TypeOf(p) == t && ColorOf(p) == c)
  {
    if t == AnyType then Ok(PieceGroup(c))
    else if c == AnyColor then Err(ValueError)
    else Ok(Make(c, t))
  }

  /** `get_chess_piece_by_fen`: the first member in enum order carrying that letter. */
  function PieceByFen(ch: char): (r: Result<ColorChessPiece>)
    ensures r.Ok? ==> Fen(r.value) == ch
    ensures r.Ok? ==> forall p :: Fen(p) == ch ==> Index(r.value) <= Index(p)
    ensures r.Err? <==> forall p :: Fen(p) != ch
  {
    match ch
    case '_' => Ok(AllPieces)
    case 'P' => Ok(WhitePawn)
    case 'N' => Ok(WhiteKnight)
    case 'B' => Ok(WhiteBishop)
    case 'R' => Ok(WhiteRook)
    case 'Q' => Ok(WhiteQueen)
    case 'K' => Ok(WhiteKing)
    case 'p' => Ok(BlackPawn)
    case 'n' => Ok(BlackKnight)
    case 'b' => Ok(BlackBishop)
    case 'r' => Ok(BlackRook)
    case 'q' => Ok(BlackQueen)
    case 'k' => Ok(BlackKing)
    case _ => Err(ValueError)
  }

  /** Every real piece is recovered from its FEN letter; '_' names the all-pieces board. */
  lemma FenRoundTrip(p: ColorChessPiece)
    ensures IsReal(p) ==> PieceByFen(Fen(p)) == Ok(p)
    ensures !IsReal(p) ==> PieceByFen(Fen(p)) == Ok(AllPieces)
  {}

  /** `get_pieces_by_color`: the real pieces of colour `c`, in enum order. */
  function PiecesByColor(c: Color): (r: seq<ColorChessPiece>)
    ensures forall p :: p in r <==> ColorOf(p) == c && IsReal(p)
    ensures forall i, j :: 0 <= i < j < |r| ==> Index(r[i]) < Index(r[j])
  {
    match c
    case White => [WhitePawn, WhiteKnight, WhiteBishop, WhiteRook, WhiteQueen, WhiteKing]
    case Black => [BlackPawn, BlackKnight, BlackBishop, BlackRook, BlackQueen, BlackKing]
    case AnyColor => []
  }
}
