/** Ray directions and their square steps (`backend/core/util/enum_ray_direction.py`). */
module Directions {
  import opened Wrappers
  import opened Bits
  import opened Pieces

  datatype Direction = N | S | E | W | NE | NW | SE | SW | C

  /** The change in square number for one step in direction `d`. */
  function Step(d: Direction): int
  {
    match d
    case N => 8
    case S => -8
    case E => 1
    case W => -1
    case NE => 9
    case NW => 7
    case SE => -7
    case SW => -9
    case C => 0
  }

  /** The direction pointing the other way. */
  function Reverse(d: Direction): Direction
  {
    match d
    case N => S
    case S => N
    case E => W
    case W => E
    case NE => SW
    case SW => NE
    case NW => SE
    case SE => NW
    case C => C
  }

  lemma StepTable(d: Direction)
    ensures Step(Reverse(d)) == -Step(d)
    ensures Reverse(Reverse(d)) == d
    ensures Step(d) == 0 <==> d == C
  {}

  /** Python's `x << n`, which raises `ValueError` for a negative count. */
  function ShiftLeft(x: int, n: int): Result<int>
  {
    if n < 0 then Err(ValueError) else Ok(Shl(x, n))
  }

  /** `(0xFF << 8 * (origin // 8)) & (1 << target) != 0`: the target lies in the origin's rank. */
  function SameRankByte(origin: int, target: int): Result<bool>
  {
    var rankMask :- ShiftLeft(Pow2(8) - 1, (origin / 8) * 8);
    var targetBit :- ShiftLeft(1, target);
    Ok(And(rankMask, targetBit) != 0)
  }

  lemma SameRankByteMeaning(origin: int, target: int)
    ensures SameRankByte(origin, target).Err? <==> origin < 0 || target < 0
    ensures SameRankByte(origin, target).Ok? ==>
      SameRankByte(origin, target).value == (target / 8 == origin / 8)
  {
    if origin >= 0 && target >= 0 {
      var m := Shl(Pow2(8) - 1, (origin / 8) * 8);
      assert Shl(1, target) == Pow2(target);
      AndPow2(m, target);
      HasByteAt(origin / 8, target);
    }
  }

  /** `Direction.from_squares`: the first of the 8, 9 and 7 divisibility rules that
      fits the difference, else east or west inside one rank, else `C`. */
  function FromSquares(origin: int, target: int): (r: Result<Direction>)
    ensures target == origin ==> r == Ok(C)
    ensures target != origin && (target - origin) % 8 == 0 ==> r == Ok(if target > origin then N else S)
    ensures target != origin && (target - origin) % 8 != 0 && (target - origin) % 9 == 0 ==>
      r == Ok(if target > origin then NE else SW)
    ensures (target != origin && (target - origin) % 8 != 0 && (target - origin) % 9 != 0 &&
             (target - origin) % 7 == 0) ==> r == Ok(if target > origin then NW else SE)
    ensures (target - origin) % 8 != 0 && (target - origin) % 9 != 0 && (target - origin) % 7 != 0 ==>
      (r.Err? <==> origin < 0 || target < 0) &&
      (r.Ok? ==> r.value == if target / 8 != origin / 8 then C else if target > origin then E else W)
  {
    // The guard `63 < x < 0` of the source can never hold, so it raises nothing.
    var diff := target - origin;
    if diff == 0 then Ok(C)
    else if diff % 8 == 0 then Ok(if diff > 0 then N else S)
    else if diff % 9 == 0 then Ok(if diff > 0 then NE else SW)
    else if diff % 7 == 0 then Ok(if diff > 0 then NW else SE)
    else
      SameRankByteMeaning(origin, target);
      var inRank :- SameRankByte(origin, target);
      if diff > 0 then Ok(if inRank then E else C)
      else Ok(if inRank then W else C)
  }

  /** The priority of the rules: +63 is divisible by both 9 and 7 and gives NE; +56 gives N. */
  lemma FromSquaresPriority()
    ensures FromSquares(0, 63) == Ok(NE)
    ensures FromSquares(0, 56) == Ok(N)
    ensures FromSquares(63, 0) == Ok(SW)
  {}

  /** `Direction.get_directions`: the two ray pairs a slider scans; other pieces raise. */
  function GetDirections(p: ColorChessPiece): (r: Result<seq<Direction>>)
    ensures r.Ok? <==> TypeOf(p) in {Bishop, Rook, Queen}
    ensures r.Ok? ==> (NE in r.value <==> TypeOf(p) != Rook) && (N in r.value <==> TypeOf(p) != Bishop)
    ensures r.Ok? ==> (NW in r.value <==> TypeOf(p) != Rook) && (E in r.value <==> TypeOf(p) != Bishop)
    ensures r.Ok? ==> forall d :: d in r.value ==> d in [NE, NW, N, E]
  {
    if p == WhiteBishop || p == BlackBishop then Ok([NE, NW])
    else if p == WhiteRook || p == BlackRook then Ok([N, E])
    else if p == WhiteQueen || p == BlackQueen then Ok([NE, NW, N, E])
    else Err(ValueError)
  }
}
