/** Square numbering and Chebyshev distance (`util/enum_square.py`).
    Square `a1` is 0 and `h8` is 63: the rank index is the major index. */
module Squares {
  import opened Wrappers

  predicate OnBoard(sq: int)
  {
    0 <= sq < 64
  }

  /** `Square(sq).name`: the file letter followed by the rank digit. */
  function Name(sq: int): (n: string)
    requires OnBoard(sq)
    ensures |n| == 2 && 'a' <= n[0] <= 'h' && '1' <= n[1] <= '8'
  {
    [(('a' as int) + sq % 8) as char, (('1' as int) + sq / 8) as char]
  }

  /** `Square[name]`: the enum member called `name`; a missing name is a `KeyError`. */
  function SquareOf(name: string): (r: Result<int>)
    ensures r.Ok? ==> OnBoard(r.value)
  {
    if |name| == 2 && 'a' <= name[0] <= 'h' && '1' <= name[1] <= '8' then
      Ok(8 * (name[1] as int - '1' as int) + (name[0] as int - 'a' as int))
    else
      Err(KeyError)
  }

  /** The 64 names and the numbers 0..63 are in one-to-one correspondence. */
  lemma NameRoundTrip(sq: int)
    requires OnBoard(sq)
    ensures SquareOf(Name(sq)) == Ok(sq)
  {}

  lemma SquareOfRoundTrip(name: string)
    requires SquareOf(name).Ok?
    ensures Name(SquareOf(name).value) == name
  {
    var sq := SquareOf(name).value;
    assert sq % 8 == name[0] as int - 'a' as int;
    assert sq / 8 == name[1] as int - '1' as int;
  }

  lemma NameInjective(a: int, b: int)
    requires OnBoard(a) && OnBoard(b) && Name(a) == Name(b)
    ensures a == b
  {
    NameRoundTrip(a);
    NameRoundTrip(b);
  }

  function Abs(x: int): nat
  {
    if x < 0 then -x else x
  }

  function Max(a: int, b: int): int
  {
    if a < b then b else a
  }

  /** `chebyshev_distance`: -1 off the board, otherwise the king-move distance,
      read from the characters of the two square names. */
  function Chebyshev(origin: int, target: int): (d: int)
    ensures d == -1 <==> !(OnBoard(origin) && OnBoard(target))
    ensures d != -1 ==> d == Max(Abs(origin % 8 - target % 8), Abs(origin / 8 - target / 8))
  {
    if target < 0 || origin < 0 || target > 63 || origin > 63 then -1
    else
      var o := Name(origin);
      var t := Name(target);
      Max(Abs(o[0] as int - t[0] as int), Abs(o[1] as int - t[1] as int))
  }

  lemma ChebyshevMetric(a: int, b: int)
    requires OnBoard(a) && OnBoard(b)
    ensures Chebyshev(a, b) == Chebyshev(b, a)
    ensures 0 <= Chebyshev(a, b) <= 7
    ensures Chebyshev(a, b) == 0 <==> a == b
  {
    if Chebyshev(a, b) == 0 {
      assert a == 8 * (a / 8) + a % 8 && b == 8 * (b / 8) + b % 8;
    }
  }

  /** Distance 1 means a king step: a different square at most one file and one rank away. */
  lemma ChebyshevOne(a: int, b: int)
    requires OnBoard(a) && OnBoard(b)
    ensures Chebyshev(a, b) == 1 <==>
      a != b && Abs(a % 8 - b % 8) <= 1 && Abs(a / 8 - b / 8) <= 1
  {
    ChebyshevMetric(a, b);
  }

  /** The two castling king moves on either back rank are at distance 2. */
  lemma CastlingDistance()
    ensures Chebyshev(4, 6) == 2 && Chebyshev(4, 2) == 2
    ensures Chebyshev(60, 62) == 2 && Chebyshev(60, 58) == 2
  {}
}
