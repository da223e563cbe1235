/** Reading a position from Forsyth-Edwards Notation (`util/fen.py`): the six
    space-separated fields, the piece placement walked square by square from
    a8, the castling-rights letters and their (not inverse) printer. */
module Fen {
  import opened Wrappers
  import opened Bits
  import opened Pieces
  import opened Squares
  import opened BitBoards
  import opened State
  import opened Numerals
  import opened Text

  // ---------------------------------------------------------------------
  // Castling rights

  /** `rights |= 1 << k` when `present`. */
  function AddRight(r: int, present: bool, k: nat): (s: int)
    requires Fits(r, 4) && k < 4
    ensures Fits(s, 4)
    ensures forall i: nat :: Has(s, i) <==> Has(r, i) || (present && i == k)
  {
    if present then
      forall i: nat
        ensures Has(Or(r, Pow2(k)), i) <==> Has(r, i) || i == k
      {
        HasOr(r, Pow2(k), i);
        HasPow2(k, i);
      }
      forall i: nat | 4 <= i
        ensures !Has(Or(r, Pow2(k)), i)
      {
        HighZero(r, 4, i);
      }
      BitsFit(Or(r, Pow2(k)), 4);
      Or(r, Pow2(k))
    else r
  }

  /** `fen_to_castling_rights`: 'K' sets bit 0, 'Q' bit 1, 'k' bit 3 and 'q' bit 2,
      wherever the letters stand in the field. */
  function FenToCastlingRights(field: string): (r: int)
    ensures Fits(r, 4)
    ensures Has(r, 0) <==> 'K' in field
    ensures Has(r, 1) <==> 'Q' in field
    ensures Has(r, 2) <==> 'q' in field
    ensures Has(r, 3) <==> 'k' in field
  {
    assert Fits(0, 4) by { NoBits(); BitsFit(0, 4); }
    NoBits();
    assert Pow2(0) == 1 && Pow2(1) == 2 && Pow2(2) == 4 && Pow2(3) == 8;
    var r := AddRight(0, 'K' in field, 0);
    var r := AddRight(r, 'Q' in field, 1);
    var r := AddRight(r, 'k' in field, 3);
    AddRight(r, 'q' in field, 2)
  }

  /** `castling_rights & (1 << k)` is non-zero exactly when bit `k` is set. */
  lemma TestRight(x: int, k: nat)
    ensures (And(x, Pow2(k)) != 0) == Has(x, k)
  {
    AndPow2(x, k);
  }

  /** `castling_rights_to_fen`: 'K' for bit 2, 'Q' for bit 3, 'k' for bit 0 and
      'q' for bit 1, in that order; '-' when none is set. */
  function CastlingRightsToFen(x: int): (s: string)
    ensures s == "-" <==> !Has(x, 0) && !Has(x, 1) && !Has(x, 2) && !Has(x, 3)
    ensures s != "-" ==> s == (if Has(x, 2) then "K" else "") + (if Has(x, 3) then "Q" else "") +
                              (if Has(x, 0) then "k" else "") + (if Has(x, 1) then "q" else "")
  {
    assert Pow2(0) == 1 && Pow2(1) == 2 && Pow2(2) == 4 && Pow2(3) == 8;
    TestRight(x, 0); TestRight(x, 1); TestRight(x, 2); TestRight(x, 3);
    PrintedLetters(Has(x, 2), Has(x, 3), Has(x, 0), Has(x, 1));
    var letters := (if And(x, 4) != 0 then "K" else "") + (if And(x, 8) != 0 then "Q" else "") +
                   (if And(x, 1) != 0 then "k" else "") + (if And(x, 2) != 0 then "q" else "");
    if letters != [] then letters else "-"
  }

  /** The printer as the parser would need it: 'K' for bit 0, 'Q' for bit 1,
      'k' for bit 3 and 'q' for bit 2. */
  function CastlingRightsToFenIntended(x: int): (s: string)
    ensures s == "-" <==> !Has(x, 0) && !Has(x, 1) && !Has(x, 2) && !Has(x, 3)
  {
    PrintedLetters(Has(x, 0), Has(x, 1), Has(x, 3), Has(x, 2));
    var letters := (if Has(x, 0) then "K" else "") + (if Has(x, 1) then "Q" else "") +
                   (if Has(x, 3) then "k" else "") + (if Has(x, 2) then "q" else "");
    if letters != [] then letters else "-"
  }

  /** The letters a printed rights field contains. */
  lemma PrintedLetters(a: bool, b: bool, c: bool, d: bool)
    ensures var s := (if a then "K" else "") + (if b then "Q" else "") + (if c then "k" else "") + (if d then "q" else "");
      (s == [] <==> !a && !b && !c && !d) && s != "-" &&
      ('K' in s <==> a) && ('Q' in s <==> b) && ('k' in s <==> c) && ('q' in s <==> d) &&
      ('K' in (if s != [] then s else "-") <==> a) && ('Q' in (if s != [] then s else "-") <==> b) &&
      ('k' in (if s != [] then s else "-") <==> c) && ('q' in (if s != [] then s else "-") <==> d)
  {
    var s1 := if a then "K" else "";
    var s2 := if b then "Q" else "";
    var s3 := if c then "k" else "";
    var s4 := if d then "q" else "";
    var s := s1 + s2 + s3 + s4;
    forall ch
      ensures ch in s <==> ch in s1 || ch in s2 || ch in s3 || ch in s4
    {
      assert s == s1 + (s2 + (s3 + s4));
    }
    assert '-' !in s;
  }

  /** Two rights values below 16 with the same four low bits are equal. */
  lemma SameRights(x: int, y: int)
    requires Fits(x, 4) && Fits(y, 4)
    requires forall i: nat :: i < 4 ==> Has(x, i) == Has(y, i)
    ensures x == y
  {
    forall i: nat
      ensures Has(x, i) == Has(y, i)
    {
      if 4 <= i { HighZero(x, 4, i); HighZero(y, 4, i); }
    }
    Extensional(x, y);
  }

  /** The intended printer and the parser are inverse on every rights value. */
  lemma IntendedRoundTrip(x: int)
    requires Fits(x, 4)
    ensures FenToCastlingRights(CastlingRightsToFenIntended(x)) == x
  {
    var y := FenToCastlingRights(CastlingRightsToFenIntended(x));
    PrintedLetters(Has(x, 0), Has(x, 1), Has(x, 3), Has(x, 2));
    SameRights(y, x);
  }

  /** The printer as written sends bit 2 to bit 0, 3 to 1, 0 to 3 and 1 to 2
      through the parser, so a rights value survives the round trip only when
      all four bits agree. */
  lemma AsWrittenRoundTrip(x: int)
    requires Fits(x, 4)
    ensures FenToCastlingRights(CastlingRightsToFen(x)) == x <==> x == 0 || x == 15
  {
    var y := FenToCastlingRights(CastlingRightsToFen(x));
    PrintedLetters(Has(x, 2), Has(x, 3), Has(x, 0), Has(x, 1));
    assert Has(y, 0) == Has(x, 2) && Has(y, 1) == Has(x, 3) && Has(y, 2) == Has(x, 1) && Has(y, 3) == Has(x, 0);
    assert Fits(0, 4) && Fits(15, 4);
    assert !Has(0, 0) && !Has(0, 1) && !Has(0, 2) && !Has(0, 3);
    assert Has(15, 0) && Has(15, 1) && Has(15, 2) && Has(15, 3);
    if x == 0 || x == 15 {
      SameRights(y, x);
    }
    if y == x {
      if Has(x, 0) { SameRights(x, 15); } else { SameRights(x, 0); }
    }
  }

  /** White's short-castling right alone prints as Black's. */
  lemma WhiteShortPrintsAsBlack()
    ensures CastlingRightsToFen(1) == "k"
    ensures FenToCastlingRights("k") == 8
  {
    assert Has(1, 0) && !Has(1, 1) && !Has(1, 2) && !Has(1, 3);
    var y := FenToCastlingRights("k");
    assert Fits(8, 4);
    assert !Has(8, 0) && !Has(8, 1) && !Has(8, 2) && Has(8, 3);
    SameRights(y, 8);
  }

  // ---------------------------------------------------------------------
  // Piece placement

  /** A placement character that names a piece rather than moving the cursor. */
  predicate Places(c: char)
  {
    c != '/' && !IsDigit(c)
  }

  /** How far one placement character moves the cursor: '/' drops to the
      start of the rank below, a digit skips that many squares, a piece
      letter advances by one. */
  function Step(c: char): int
  {
    if c == '/' then -16 else if IsDigit(c) then DigitValue(c) else 1
  }

  /** The square the cursor holds before character `k` is read; it starts on a8. */
  function Cursor(position: string, k: nat): int
    requires k <= |position|
  {
    if k == 0 then 56 else Cursor(position, k - 1) + Step(position[k - 1])
  }

  /** Character `k` puts piece `p` on square `sq`. */
  predicate PlacesOn(position: string, k: nat, p: ColorChessPiece, sq: int)
    requires k < |position|
  {
    Places(position[k]) && PieceByFen(position[k]) == Ok(p) && Cursor(position, k) == sq
  }

  /** Character `k` makes the parser fail: no piece has that letter, or the
      cursor has left the board. */
  predicate BadAt(position: string, k: nat)
    requires k < |position|
  {
    Places(position[k]) && (PieceByFen(position[k]).Err? || !OnBoard(Cursor(position, k)))
  }

  /** The placement loop from character `i` on, with the cursor on `square`. */
  function PlaceFrom(position: string, i: nat, square: int, locs: Locations): (r: Result<Locations>)
    requires i <= |position| && square == Cursor(position, i) && Complete(locs)
    ensures r.Err? <==> exists k :: i <= k < |position| && BadAt(position, k)
    ensures r.Err? ==> r.error == ValueError
    ensures r.Ok? ==> Complete(r.value)
    ensures r.Ok? ==> forall p, j: nat :: Has(r.value[p].board, j) <==>
      Has(locs[p].board, j) || exists k :: i <= k < |position| && PlacesOn(position, k, p, j)
    decreases |position| - i
  {
    if i == |position| then Ok(locs)
    else
      var c := position[i];
      if c == '/' then PlaceFrom(position, i + 1, square - 16, locs)
      else if IsDigit(c) then PlaceFrom(position, i + 1, square + DigitValue(c), locs)
      else
        var found := PieceByFen(c);
        if found.Err? then
          assert BadAt(position, i);
          Err(ValueError)
        else
        var piece := found.value;
        var marked := SetBit(locs[piece], square);
        if marked.Err? then
          assert BadAt(position, i);
          Err(ValueError)
        else
        var b := marked.value;
        Replaced(locs, piece, b);
        var r := PlaceFrom(position, i + 1, square + 1, locs[piece := b]);
        PlacedHere(position, i, square, piece, locs, b, r);
        r
  }

  /** The step of `PlaceFrom` that puts a piece on the cursor square. */
  lemma PlacedHere(position: string, i: nat, square: int, piece: ColorChessPiece,
                   locs: Locations, b: BitBoard, r: Result<Locations>)
    requires i < |position| && square == Cursor(position, i) && Places(position[i])
    requires PieceByFen(position[i]) == Ok(piece) && Complete(locs)
    requires forall j: nat :: Has(b.board, j) == (j == square || Has(locs[piece].board, j))
    requires r.Ok? ==> Complete(r.value)
    requires r.Ok? ==> forall p, j: nat :: Has(r.value[p].board, j) <==>
      Has(locs[piece := b][p].board, j) || exists k :: i + 1 <= k < |position| && PlacesOn(position, k, p, j)
    ensures r.Ok? ==> forall p, j: nat :: Has(r.value[p].board, j) <==>
      Has(locs[p].board, j) || exists k :: i <= k < |position| && PlacesOn(position, k, p, j)
  {
    if r.Ok? {
      forall p, j: nat
        ensures Has(r.value[p].board, j) <==>
          Has(locs[p].board, j) || exists k :: i <= k < |position| && PlacesOn(position, k, p, j)
      {
        assert PlacesOn(position, i, p, j) <==> p == piece && j == square;
      }
    }
  }

  /** The fifteen empty boards the parser starts from, each tagged with its key. */
  function EmptyBoards(): (r: Locations)
    ensures Complete(r)
    ensures forall p :: r[p].board == 0
  {
    assert forall p :: p in Order by {
      forall p ensures p in Order { assert Order[Index(p)] == p; }
    }
    map p | p in Order :: BitBoard(0, Some(p))
  }

  /** The piece placement field read onto empty boards. */
  function Placement(position: string): (r: Result<Locations>)
    ensures r.Err? <==> exists k :: 0 <= k < |position| && BadAt(position, k)
    ensures r.Err? ==> r.error == ValueError
    ensures r.Ok? ==> Complete(r.value)
    ensures r.Ok? ==> forall p, j: nat :: IsReal(p) ==>
      (Has(r.value[p].board, j) <==> exists k :: 0 <= k < |position| && PlacesOn(position, k, p, j))
    ensures r.Ok? ==> r.value[WhitePieces].board == 0 && r.value[BlackPieces].board == 0
  {
    var r := PlaceFrom(position, 0, 56, EmptyBoards());
    NoBits();
    GroupBoardUntouched(position, r, WhitePieces);
    GroupBoardUntouched(position, r, BlackPieces);
    r
  }

  /** No letter names a colour board: '_' finds the board of all pieces first. */
  lemma GroupBoardUntouched(position: string, r: Result<Locations>, g: ColorChessPiece)
    requires g == WhitePieces || g == BlackPieces
    requires r.Ok? ==> Complete(r.value)
    requires r.Ok? ==> forall j: nat :: Has(r.value[g].board, j) ==>
      exists k :: 0 <= k < |position| && PlacesOn(position, k, g, j)
    ensures r.Ok? ==> r.value[g].board == 0
  {
    if r.Ok? {
      var locs := r.value;
      forall j: nat
        ensures Has(locs[g].board, j) == Has(0, j)
      {
        NoBits();
      }
      Extensional(locs[g].board, 0);
    }
  }

  // ---------------------------------------------------------------------
  // Aggregate boards

  /** `sum(bitboard.board for piece ... if piece.color == c)` over the keys `ps`. */
  function ColorSum(locs: Locations, c: Color, ps: seq<ColorChessPiece>): nat
    requires Complete(locs)
    decreases |ps|
  {
    if ps == [] then 0
    else ColorSum(locs, c, ps[..|ps| - 1]) + (if ColorOf(ps[|ps| - 1]) == c then locs[ps[|ps| - 1]].board else 0)
  }

  /** The three aggregate boards from the two colour sums, each of which must
      stay below `2 ** 64`. */
  function AggregateOf(locs: Locations, whiteSum: nat, blackSum: nat): (r: Result<Locations>)
    requires Complete(locs)
    ensures r.Err? <==> whiteSum >= Word || blackSum >= Word
    ensures r.Err? ==> r.error == ValueError
    ensures r.Ok? ==> r.value == WithAggregates(locs,
      BitBoard(whiteSum, Some(WhitePieces)), BitBoard(blackSum, Some(BlackPieces)))
  {
    var white :- New(whiteSum, Some(WhitePieces));
    var black :- New(blackSum, Some(BlackPieces));
    NewWord(whiteSum, Some(WhitePieces));
    NewWord(blackSum, Some(BlackPieces));
    Ok(WithAggregates(locs, white, black))
  }

  /** The aggregate boards as the parser builds them: each colour board is the
      arithmetic sum of the boards of that colour. */
  function Aggregate(locs: Locations): (r: Result<Locations>)
    requires Complete(locs)
    ensures r.Err? <==> ColorSum(locs, White, Order) >= Word || ColorSum(locs, Black, Order) >= Word
    ensures r.Err? ==> r.error == ValueError
    ensures r.Ok? ==> r.value == WithAggregates(locs,
      BitBoard(ColorSum(locs, White, Order), Some(WhitePieces)),
      BitBoard(ColorSum(locs, Black, Order), Some(BlackPieces)))
  {
    AggregateOf(locs, ColorSum(locs, White, Order), ColorSum(locs, Black, Order))
  }

  /** Adding two boards without a common square is taking their union. */
  lemma {:induction false} AddDisjoint(a: nat, b: nat)
    requires forall i: nat :: !(Has(a, i) && Has(b, i))
    ensures a + b == Or(a, b)
    decreases a + b
  {
    if !(a == 0 && b == 0) {
      assert !(Has(a, 0) && Has(b, 0));
      forall i: nat
        ensures !(Has(a / 2, i) && Has(b / 2, i))
      {
        assert !(Has(a, i + 1) && Has(b, i + 1));
      }
      AddDisjoint(a / 2, b / 2);
    }
  }

  /** No square holds two different pieces. */
  ghost predicate Disjoint(locs: Locations)
    requires Complete(locs)
  {
    forall p, q, i: nat :: IsReal(p) && IsReal(q) && p != q && Has(locs[p].board, i) ==> !Has(locs[q].board, i)
  }

  /** Without shared squares, and with empty colour boards, the parser's sum is
      the engine's union. */
  lemma {:induction false} SumIsUnion(locs: Locations, c: Color, ps: seq<ColorChessPiece>)
    requires Complete(locs) && Disjoint(locs)
    requires forall i, j :: 0 <= i < j < |ps| ==> ps[i] != ps[j]
    requires forall k :: 0 <= k < |ps| && !IsReal(ps[k]) && ColorOf(ps[k]) == c ==> locs[ps[k]].board == 0
    ensures ColorSum(locs, c, ps) == GroupUnion(locs, c, ps)
    decreases |ps|
  {
    if ps != [] {
      var front := ps[..|ps| - 1];
      var p := ps[|ps| - 1];
      SumIsUnion(locs, c, front);
      if ColorOf(p) == c && IsReal(p) {
        var u := GroupUnion(locs, c, front);
        forall i: nat
          ensures !(Has(u, i) && Has(locs[p].board, i))
        {
          if Has(u, i) {
            var q :| q in front && IsReal(q) && ColorOf(q) == c && Has(locs[q].board, i);
            var m :| 0 <= m < |front| && front[m] == q;
            assert ps[m] == q;
          }
        }
        AddDisjoint(u, locs[p].board);
      }
    }
  }

  /** `for piece in ColorChessPiece` visits every key once. */
  lemma OrderDistinct()
    ensures forall i, j :: 0 <= i < j < |Order| ==> Order[i] != Order[j]
  {
    forall i | 0 <= i < |Order|
      ensures Index(Order[i]) == i
    {}
  }

  /** Both colour sums are unions when no square is shared. */
  lemma SumsAreUnions(locs: Locations)
    requires Complete(locs) && Disjoint(locs)
    requires locs[WhitePieces].board == 0 && locs[BlackPieces].board == 0
    ensures ColorSum(locs, White, Order) == GroupUnion(locs, White, Order)
    ensures ColorSum(locs, Black, Order) == GroupUnion(locs, Black, Order)
  {
    OrderDistinct();
    SumIsUnion(locs, White, Order);
    SumIsUnion(locs, Black, Order);
  }

  /** On a placement without shared squares the parser's aggregates are exactly
      the ones `__update_all_pieces` recomputes. */
  lemma AggregateIsUpdate(locs: Locations)
    requires Complete(locs) && Disjoint(locs)
    requires locs[WhitePieces].board == 0 && locs[BlackPieces].board == 0
    ensures Aggregate(locs) == Ok(UpdateAllPieces(locs))
  {
    SumsAreUnions(locs);
    assert forall p :: IsReal(p) ==> Order[Index(p)] == p;
    UpdatePiecesAnyOrder(WhitePieces, locs, Order);
    UpdatePiecesAnyOrder(BlackPieces, locs, Order);
  }

  // ---------------------------------------------------------------------
  // The record

  /** The en-passant field: '-' is the empty board, anything else must name
      a square (`Square[name]`, a `KeyError` otherwise). */
  function EnPassantField(field: string): (r: Result<BitBoard>)
    ensures field == "-" ==> r == Ok(BitBoard(0, None))
    ensures field != "-" ==> (r.Err? <==> SquareOf(field).Err?)
    ensures r.Err? ==> r.error == KeyError
    ensures r.Ok? ==> Valid(r.value) && r.value.boardType == None
    ensures r.Ok? && field != "-" ==> forall i: nat :: Has(r.value.board, i) <==> i == SquareOf(field).value
  {
    NoBits();
    assert Valid(BitBoard(0, None));
    if field == "-" then Ok(BitBoard(0, None))
    else
      var sq :- SquareOf(field);
      SetBit(BitBoard(0, None), sq)
  }

  /** The six fields of a record: `fen.split(" ", 5)`. Only the last field can
      hold a space: any beyond the fifth stay in it. */
  function Fields(fen: string): (f: seq<string>)
    ensures 1 <= |f| <= 6
    ensures |f| == 6 <==> Count(fen, ' ') >= 5
    ensures |f| == 6 ==> Join(f, ' ') == fen
    ensures forall i :: 0 <= i < |f| - 1 ==> ' ' !in f[i]
    ensures |f| < 6 ==> ' ' !in f[|f| - 1]
  {
    SplitCount(fen, ' ', 5);
    SplitJoin(fen, ' ', 5);
    SplitN(fen, ' ', 5)
  }

  /** The record from its six fields, in the order the parser reads them:
      turn, castling rights, en-passant square, placement, the aggregate
      sums, then the two counters. */
  function Assemble(f: seq<string>): (r: Result<BoardState>)
    requires |f| == 6
    ensures r.Err? <==>
      (EnPassantField(f[3]).Err? || Placement(f[0]).Err? || Aggregate(Placement(f[0]).value).Err? ||
       !IsNumeral(Strip(f[4])) || !IsNumeral(Strip(f[5])))
    ensures r.Err? ==> r.error == (if EnPassantField(f[3]).Err? then KeyError else ValueError)
    ensures r.Ok? ==> WellFormed(r.value)
    ensures r.Ok? ==> r.value.isWhitesTurn == (f[1] == "w")
    ensures r.Ok? ==> r.value.castlingRights == FenToCastlingRights(f[2])
    ensures r.Ok? ==> EnPassantField(f[3]) == Ok(r.value.enPassantSquare)
    ensures r.Ok? ==> ParseInt(f[4]) == Ok(r.value.fiftyMoveRule)
    ensures r.Ok? ==> ParseInt(f[5]) == Ok(r.value.moveNumber)
    ensures r.Ok? ==> Placement(f[0]).Ok?
    ensures r.Ok? ==> Aggregate(Placement(f[0]).value) == Ok(r.value.pieceLocations)
  {
    var isWhitesTurn := f[1] == "w";
    var rights := FenToCastlingRights(f[2]);
    var ep :- EnPassantField(f[3]);
    var placed :- Placement(f[0]);
    var locs :- Aggregate(placed);
    var fifty :- ParseInt(f[4]);
    var number :- ParseInt(f[5]);
    Ok(BoardState(locs, isWhitesTurn, ep, fifty, number, rights))
  }

  /** `board_from_fen`: fewer than six fields is a `ValueError`. */
  function BoardFromFen(fen: string): (r: Result<BoardState>)
    ensures Count(fen, ' ') < 5 ==> r == Err(ValueError)
    ensures Count(fen, ' ') >= 5 ==> r == Assemble(Fields(fen))
  {
    var f := Fields(fen);
    if |f| != 6 then Err(ValueError) else Assemble(f)
  }

  /** Each piece board of a parsed record holds exactly the squares the
      placement field puts that piece on. */
  lemma FenPieces(fen: string)
    requires BoardFromFen(fen).Ok?
    ensures Count(fen, ' ') >= 5
    ensures forall p, j: nat :: IsReal(p) ==>
      (Has(BoardFromFen(fen).value.pieceLocations[p].board, j) <==>
       exists k :: 0 <= k < |Fields(fen)[0]| && PlacesOn(Fields(fen)[0], k, p, j))
  {
    var position := Fields(fen)[0];
    var placed := Placement(position).value;
    assert forall p :: IsReal(p) ==> BoardFromFen(fen).value.pieceLocations[p] == placed[p];
  }

  /** When no square of the placement holds two pieces, a parsed record's
      aggregate boards agree with its piece boards. */
  lemma FenSynced(fen: string)
    requires BoardFromFen(fen).Ok?
    requires Disjoint(BoardFromFen(fen).value.pieceLocations)
    ensures Synced(BoardFromFen(fen).value.pieceLocations)
  {
    var locs := BoardFromFen(fen).value.pieceLocations;
    var placed := Placement(Fields(fen)[0]).value;
    assert forall p :: IsReal(p) ==> locs[p] == placed[p];
    assert Disjoint(placed);
    AggregateIsUpdate(placed);
  }
}
