/** The move-text fragment `convert_move_pgn` (`util/pgn.py`) appends to a
    game's PGN, together with a reader for such fragments that recovers what
    the fragment says about the move. */
module Pgn {
  import opened Wrappers
  import opened Pieces
  import opened Squares
  import opened State
  import opened Numerals
  import opened Text

  /** `str.capitalize` on a one-character string: a lower-case ASCII letter
      becomes upper case, anything else is kept. */
  function Capitalize(c: char): (u: char)
    ensures 'a' <= c <= 'z' ==> u as int == c as int - 32
    ensures !('a' <= c <= 'z') ==> u == c
  {
    if 'a' <= c <= 'z' then (c as int - 32) as char else c
  }

  /** The letter printed before a piece move; a pawn prints none. */
  function PieceLetter(p: ColorChessPiece): (s: string)
    ensures |s| == 0 <==> TypeOf(p) == Pawn
    ensures |s| == 1 ==> s[0] == Capitalize(Fen(p)) && !('a' <= s[0] <= 'z')
  {
    var c := Capitalize(Fen(p));
    if c != 'P' then [c] else []
  }

  /** The move number and its dot before a White move (the new state has
      Black to move), a single space before a Black move. */
  function MovePrefix(st: BoardState): string
  {
    if !st.isWhitesTurn then IntToString(st.moveNumber) + ". " else " "
  }

  /** The statuses that print as a drawn result. */
  predicate IsDrawStatus(status: GameStatus)
  {
    status == Draw50Move || status == Stalemate || status == DrawRepetition || status == DrawInsufficientMaterial
  }

  /** The result or check marker after the move. */
  function ResultSuffix(status: GameStatus, piece: ColorChessPiece, isCheck: bool): string
  {
    if IsDrawStatus(status) then " 1/2-1/2"
    else if status == Checkmate then (if ColorOf(piece) == White then "# 1-0" else "# 0-1")
    else if isCheck then "+"
    else ""
  }

  /** A king moving two squares is a castle; `Square(n)` raises `ValueError`
      for a number outside 0..63. */
  function MoveNotation(origin: int, target: int, piece: ColorChessPiece, isCapture: bool): (r: Result<string>)
    ensures r.Err? <==>
      !(TypeOf(piece) == King && Chebyshev(origin, target) == 2) &&
      (!OnBoard(target) || (TypeOf(piece) == Pawn && isCapture && !OnBoard(origin)))
    ensures r.Err? ==> r.error == ValueError
  {
    if TypeOf(piece) == King && Chebyshev(origin, target) == 2 then
      Ok(if Name(target)[0] == 'g' then "0-0" else "0-0-0")
    else if !OnBoard(target) then Err(ValueError)
    else if TypeOf(piece) == Pawn && isCapture then
      if !OnBoard(origin) then Err(ValueError) else Ok([Name(origin)[0]] + "x" + Name(target))
    else
      Ok(PieceLetter(piece) + (if isCapture then "x" else "") + Name(target))
  }

  /** `convert_move_pgn`: prefix, move notation, result marker and a closing space. */
  function ConvertMovePgn(origin: int, target: int, newState: BoardState, isCheck: bool,
                          piece: ColorChessPiece, isCapture: bool, status: GameStatus): (r: Result<string>)
    ensures r.Err? <==>
      !(TypeOf(piece) == King && Chebyshev(origin, target) == 2) &&
      (!OnBoard(target) || (TypeOf(piece) == Pawn && isCapture && !OnBoard(origin)))
    ensures r.Err? ==> r.error == ValueError
    ensures r.Ok? ==> |r.value| > 0 && r.value[|r.value| - 1] == ' '
  {
    var notation :- MoveNotation(origin, target, piece, isCapture);
    Ok(MovePrefix(newState) + notation + ResultSuffix(status, piece, isCheck) + " ")
  }

  // ---------------------------------------------------------------------
  // Reading a fragment back

  datatype Notation =
    | ShortCastle
    | LongCastle
      /** The piece letter (none for a pawn), the origin file of a pawn
          capture, the capture mark and the target square. */
    | Move(letter: Option<char>, fromFile: Option<int>, capture: bool, target: int)

  datatype Marker = NoMarker | CheckMarker | MateMarker(whiteWins: bool) | DrawMarker

  /** What a fragment says: the move number when it opens a full move, the
      move, and the result or check marker. */
  datatype Fragment = Fragment(moveNumber: Option<int>, notation: Notation, marker: Marker)

  /** What a fragment written for these arguments means, in chess terms. */
  function Meaning(origin: int, target: int, newState: BoardState, isCheck: bool,
                   piece: ColorChessPiece, isCapture: bool, status: GameStatus): Fragment
  {
    Fragment(if newState.isWhitesTurn then None else Some(newState.moveNumber),
             NotationOf(origin, target, piece, isCapture),
             MarkerOf(status, piece, isCheck))
  }

  /** A king moving two squares castles towards the g-file (short) or the
      c-file (long); any other move names its piece (no letter for a pawn),
      the origin file of a pawn capture, the capture and the target. */
  function NotationOf(origin: int, target: int, piece: ColorChessPiece, isCapture: bool): Notation
  {
    if TypeOf(piece) == King && Chebyshev(origin, target) == 2 then
      (if target % 8 == 6 then ShortCastle else LongCastle)
    else
      Move(if TypeOf(piece) == Pawn then None else Some(Capitalize(Fen(piece))),
           if TypeOf(piece) == Pawn && isCapture then Some(origin % 8) else None,
           isCapture, target)
  }

  /** A drawn result, the winner of a checkmate (the side that moved), or check. */
  function MarkerOf(status: GameStatus, piece: ColorChessPiece, isCheck: bool): Marker
  {
    if IsDrawStatus(status) then DrawMarker
    else if status == Checkmate then MateMarker(ColorOf(piece) == White)
    else if isCheck then CheckMarker
    else NoMarker
  }

  predicate HasSuffix(s: string, suffix: string)
  {
    |suffix| <= |s| && s[|s| - |suffix|..] == suffix
  }

  /** Split off a trailing result or check marker. */
  function ParseMarker(s: string): (r: (string, Marker))
    ensures |r.0| <= |s| && r.0 == s[..|r.0|]
  {
    if HasSuffix(s, " 1/2-1/2") then (s[..|s| - 8], DrawMarker)
    else if HasSuffix(s, "# 1-0") then (s[..|s| - 5], MateMarker(true))
    else if HasSuffix(s, "# 0-1") then (s[..|s| - 5], MateMarker(false))
    else if HasSuffix(s, "+") then (s[..|s| - 1], CheckMarker)
    else (s, NoMarker)
  }

  /** Split off the opening space, or the move number and its dot and space. */
  function ParsePrefix(s: string): Option<(Option<int>, string)>
  {
    if |s| > 0 && s[0] == ' ' then Some((None, s[1..]))
    else
      match FirstIndex(s, '.')
      case None => None
      case Some(k) =>
        if k + 1 < |s| && s[k + 1] == ' ' && ParseNumeral(s[..k]).Ok? then
          Some((Some(ParseNumeral(s[..k]).value), s[k + 2..]))
        else None
  }

  /** Read a castle, or an optional letter or file, an optional 'x' and a square name. */
  function ParseNotation(s: string): Option<Notation>
  {
    if s == "0-0" then Some(ShortCastle)
    else if s == "0-0-0" then Some(LongCastle)
    else if |s| < 2 || SquareOf(s[|s| - 2..]).Err? then None
    else
      var target := SquareOf(s[|s| - 2..]).value;
      var head := s[..|s| - 2];
      var capture := |head| > 0 && head[|head| - 1] == 'x';
      var lead := if capture then head[..|head| - 1] else head;
      if |lead| == 0 then Some(Move(None, None, capture, target))
      else if |lead| == 1 && 'a' <= lead[0] <= 'h' then Some(Move(None, Some(lead[0] as int - 'a' as int), capture, target))
      else if |lead| == 1 then Some(Move(Some(lead[0]), None, capture, target))
      else None
  }

  /** Read a whole fragment: prefix, notation, marker and the closing space. */
  function Parse(s: string): Option<Fragment>
  {
    if |s| == 0 || s[|s| - 1] != ' ' then None
    else
      var (rest, marker) := ParseMarker(s[..|s| - 1]);
      match ParsePrefix(rest)
      case None => None
      case Some((number, body)) =>
        match ParseNotation(body)
        case None => None
        case Some(notation) => Some(Fragment(number, notation, marker))
  }

  // ---------------------------------------------------------------------
  // The fragment says what the move was

  /** None of the characters that open a result or check marker. */
  predicate Unmarked(s: string)
  {
    forall k :: 0 <= k < |s| ==> s[k] != '/' && s[k] != '#' && s[k] != '+'
  }

  lemma MarkerRoundTrip(s: string, status: GameStatus, piece: ColorChessPiece, isCheck: bool)
    requires Unmarked(s)
    ensures ParseMarker(s + ResultSuffix(status, piece, isCheck)) == (s, MarkerOf(status, piece, isCheck))
  {
    var suffix := ResultSuffix(status, piece, isCheck);
    if suffix == "" {
      assert s + suffix == s;
      UnmarkedKept(s);
    } else {
      SuffixRead(s, suffix);
    }
  }

  /** Text without marker characters carries no marker. */
  lemma UnmarkedKept(t: string)
    requires Unmarked(t)
    ensures ParseMarker(t) == (t, NoMarker)
  {
    if |t| >= 1 { assert t[|t| - 1] != '+'; assert t[|t| - 1..] != "+"; }
    if |t| >= 5 { assert t[|t| - 5] != '#'; assert t[|t| - 5..] != "# 1-0" && t[|t| - 5..] != "# 0-1"; }
    if |t| >= 8 { assert t[|t| - 2] != '/'; assert t[|t| - 8..][6] == t[|t| - 2]; }
  }

  /** Each of the four markers is recognised after any text. */
  lemma SuffixRead(s: string, suffix: string)
    requires suffix == "+" || suffix == "# 1-0" || suffix == "# 0-1" || suffix == " 1/2-1/2"
    ensures ParseMarker(s + suffix) == (s,
      if suffix == "+" then CheckMarker
      else if suffix == "# 1-0" then MateMarker(true)
      else if suffix == "# 0-1" then MateMarker(false)
      else DrawMarker)
  {
    var t := s + suffix;
    assert t[..|s|] == s;
    assert t[|t| - |suffix|..] == suffix;
    if |t| >= 8 { assert t[|t| - 8..][7] == t[|t| - 1] == suffix[|suffix| - 1]; }
    if |t| >= 5 { assert t[|t| - 5..][4] == t[|t| - 1]; }
  }

  /** The opening of a fragment reads back as the move number exactly when
      Black is to move in the new state. */
  lemma PrefixRoundTrip(st: BoardState, body: string)
    requires |body| > 0 && body[0] != ' '
    ensures ParsePrefix(MovePrefix(st) + body) ==
      Some((if st.isWhitesTurn then None else Some(st.moveNumber), body))
  {
    var s := MovePrefix(st) + body;
    if st.isWhitesTurn {
      assert s[1..] == body;
    } else {
      var num := IntToString(st.moveNumber);
      IntToStringChars(st.moveNumber);
      assert s == num + (". " + body);
      assert s[|num|] == '.' && s[0] != ' ';
      var k := FirstIndex(s, '.').value;
      assert k == |num|;
      assert s[..k] == num && s[k + 2..] == body;
      ParseNumeralToString(st.moveNumber);
    }
  }

  lemma UnmarkedConcat(a: string, b: string)
    requires Unmarked(a) && Unmarked(b)
    ensures Unmarked(a + b)
  {
    forall k | 0 <= k < |a + b|
      ensures (a + b)[k] != '/' && (a + b)[k] != '#' && (a + b)[k] != '+'
    {
      if k >= |a| { assert (a + b)[k] == b[k - |a|]; }
    }
  }

  lemma PrefixUnmarked(st: BoardState)
    ensures Unmarked(MovePrefix(st))
  {
    if !st.isWhitesTurn {
      IntToStringChars(st.moveNumber);
      UnmarkedConcat(IntToString(st.moveNumber), ". ");
    }
  }

  /** An optional letter or file, an optional 'x' and a square name read back
      as those three parts. */
  lemma MoveTextParses(lead: string, mark: string, name: string)
    requires |lead| <= 1 && (mark == "" || mark == "x") && SquareOf(name).Ok?
    requires |lead| == 1 ==> lead[0] != 'x'
    ensures ParseNotation(lead + mark + name) == Some(Move(
      if |lead| == 1 && !('a' <= lead[0] <= 'h') then Some(lead[0]) else None,
      if |lead| == 1 && 'a' <= lead[0] <= 'h' then Some(lead[0] as int - 'a' as int) else None,
      mark == "x", SquareOf(name).value))
  {
    var body := lead + mark + name;
    assert body[|body| - 2..] == name;
    var head := body[..|body| - 2];
    assert head == lead + mark;
    assert |body| == 3 ==> body[1] == name[0];
    assert |body| <= 4 && "0-0"[1] == '-';
    var capture := |head| > 0 && head[|head| - 1] == 'x';
    var rest := if capture then head[..|head| - 1] else head;
    if mark == "x" {
      assert capture && rest == lead;
    } else {
      assert head == lead;
      assert !capture && rest == lead;
    }
  }

  /** Such a move text starts with a non-space and has no marker characters. */
  lemma MoveTextPlain(lead: string, mark: string, name: string)
    requires |lead| <= 1 && (mark == "" || mark == "x") && SquareOf(name).Ok?
    requires |lead| == 1 ==> lead[0] != ' ' && Unmarked(lead)
    ensures var body := lead + mark + name;
      |body| > 0 && body[0] != ' ' && Unmarked(body)
  {
    var body := lead + mark + name;
    assert Unmarked(mark) && Unmarked(name);
    UnmarkedConcat(lead, mark);
    UnmarkedConcat(lead + mark, name);
    if |lead| > 0 { assert body[0] == lead[0]; }
    else if mark == "x" { assert body[0] == 'x'; }
    else { assert body[0] == name[0]; }
  }

  /** The notation names what `NotationOf` says and carries no marker characters. */
  lemma NotationRoundTrip(origin: int, target: int, piece: ColorChessPiece, isCapture: bool)
    requires MoveNotation(origin, target, piece, isCapture).Ok?
    ensures var body := MoveNotation(origin, target, piece, isCapture).value;
      |body| > 0 && body[0] != ' ' && Unmarked(body) &&
      ParseNotation(body) == Some(NotationOf(origin, target, piece, isCapture))
  {
    if TypeOf(piece) == King && Chebyshev(origin, target) == 2 {
      assert Name(target)[0] == 'g' <==> target % 8 == 6;
    } else {
      NameRoundTrip(target);
      var lead := if TypeOf(piece) == Pawn && isCapture then [Name(origin)[0]] else PieceLetter(piece);
      var mark := if isCapture then "x" else "";
      MoveTextParses(lead, mark, Name(target));
      MoveTextPlain(lead, mark, Name(target));
    }
  }

  /** Prefix, notation, marker and the closing space read back part by part. */
  lemma FragmentParses(prefix: string, body: string, suffix: string, number: Option<int>,
                       notation: Notation, marker: Marker)
    requires Unmarked(prefix) && Unmarked(body)
    requires ParsePrefix(prefix + body) == Some((number, body))
    requires ParseNotation(body) == Some(notation)
    requires ParseMarker(prefix + body + suffix) == (prefix + body, marker)
    ensures Parse(prefix + body + suffix + " ") == Some(Fragment(number, notation, marker))
  {
    var s := prefix + body + suffix + " ";
    assert s[..|s| - 1] == prefix + body + suffix;
  }

  /** A fragment reads back as what it was written to say: the move number
      when White moved, the castle side, the piece letter, the origin file of a
      pawn capture, the capture, the target square and the result marker. */
  lemma ConvertMovePgnParses(origin: int, target: int, newState: BoardState, isCheck: bool,
                             piece: ColorChessPiece, isCapture: bool, status: GameStatus)
    requires ConvertMovePgn(origin, target, newState, isCheck, piece, isCapture, status).Ok?
    ensures Parse(ConvertMovePgn(origin, target, newState, isCheck, piece, isCapture, status).value) ==
      Some(Meaning(origin, target, newState, isCheck, piece, isCapture, status))
  {
    var body := MoveNotation(origin, target, piece, isCapture).value;
    var prefix := MovePrefix(newState);
    NotationRoundTrip(origin, target, piece, isCapture);
    PrefixRoundTrip(newState, body);
    PrefixUnmarked(newState);
    UnmarkedConcat(prefix, body);
    MarkerRoundTrip(prefix + body, status, piece, isCheck);
    FragmentParses(prefix, body, ResultSuffix(status, piece, isCheck),
                   if newState.isWhitesTurn then None else Some(newState.moveNumber),
                   NotationOf(origin, target, piece, isCapture), MarkerOf(status, piece, isCheck));
  }
}
