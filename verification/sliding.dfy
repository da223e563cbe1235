/** Sliding attacks by subtraction (`generate_sliding_attacks` of
    `engine/move_generators.py`).

    For a slider on square `s` and a line mask `m` through it, `(o & m) - 2 * 2**s`
    flips the bits of `o & m` above `s` up to and including the first occupied one;
    the same on the mirrored board flips the bits below `s` down to the first
    occupied one. The exclusive or of the two leaves exactly the flipped bits, and
    masking with `m` keeps the squares of the line: the squares the slider sees. */
module Sliding {
  import opened Wrappers
  import opened Bits
  import opened Pieces
  import opened Directions
  import opened BitBoards
  import opened Masks

  /** `u` lies strictly between `a` and `b`. */
  predicate Between(a: int, u: int, b: int)
  {
    (a < u < b) || (b < u < a)
  }

  /** From `s` along the line `d`, the square `t` is visible over the occupancy `o`:
      it is on the line, it is not `s`, and no occupied square of the line lies
      strictly between the two. The nearest occupied square in each sense is
      itself visible, which is how captures are generated. */
  ghost predicate Sees(o: int, s: int, d: Direction, t: int)
  {
    OnLine(s, d, t) && t != s &&
    forall u: nat :: Between(s, u, t) && OnLine(s, d, u) ==> !Has(o, u)
  }

  /** Bits of `x - 2 ** (s + 1)`: unchanged up to `s`, flipped above it up to and
      including the first set bit. */
  lemma PositiveBits(x: int, s: nat, t: nat)
    ensures t <= s ==> Has(x - Pow2(s + 1), t) == Has(x, t)
    ensures s < t ==> Has(x - Pow2(s + 1), t) == (Has(x, t) != NoneIn(x, s + 1, t))
  {
    SubPower(x, s + 1, t);
    ZeroRangeAll(x, s + 1, t);
  }

  /** The same subtraction on the mirrored word `y`, read back at the mirrored
      position: unchanged from `s` up, flipped below it down to the first set bit. */
  lemma NegativeBits(x: int, y: int, s: nat, t: nat)
    requires s < 64 && t < 64
    requires forall i: nat :: Has(y, i) == (i < 64 && Has(x, 63 - i))
    ensures s <= t ==> Has(y - Pow2(64 - s), 63 - t) == Has(x, t)
    ensures t < s ==> Has(y - Pow2(64 - s), 63 - t) == (Has(x, t) != NoneIn(x, t + 1, s))
  {
    var i := 63 - t;
    SubPower(y, 64 - s, i);
    ZeroRangeAll(y, 64 - s, i);
    if t < s {
      if NoneIn(y, 64 - s, i) {
        forall k: nat | t + 1 <= k < s
          ensures !Has(x, k)
        {
          assert !Has(y, 63 - k);
        }
      } else {
        var j: nat :| 64 - s <= j < i && Has(y, j);
        assert Has(x, 63 - j);
      }
    }
  }

  /** The two subtractions combined: the path holds the squares other than `s` with
      nothing of `x` strictly between them and `s`. */
  lemma PathBits(x: int, pos: int, y: int, z: int, zw: int, neg: int, s: nat, t: nat)
    requires s < 64 && t < 64
    requires pos == x - Pow2(s + 1) && z == y - Pow2(64 - s)
    requires forall i: nat :: Has(y, i) == (i < 64 && Has(x, 63 - i))
    requires forall i: nat :: Has(zw, i) == (i < 64 && Has(z, i))
    requires forall i: nat :: Has(neg, i) == (i < 64 && Has(zw, 63 - i))
    ensures Has(Xor(pos, neg), t) ==
      (t != s && if s < t then NoneIn(x, s + 1, t) else NoneIn(x, t + 1, s))
  {
    HasXor(pos, neg, t);
    PositiveBits(x, s, t);
    NegativeBits(x, y, s, t);
  }

  /** Nothing of `o & m` strictly between `s` and `t` means no occupied square of the
      line strictly between them. */
  lemma ClearBetween(o: int, m: int, x: int, s: nat, d: Direction, t: nat)
    requires s < 64 && t < 64 && s != t
    requires forall i: nat :: Has(m, i) <==> OnLine(s, d, i)
    requires forall i: nat :: Has(x, i) == (Has(o, i) && Has(m, i))
    ensures (if s < t then NoneIn(x, s + 1, t) else NoneIn(x, t + 1, s)) <==>
      forall u: nat :: Between(s, u, t) && OnLine(s, d, u) ==> !Has(o, u)
  {
    if s < t {
      if NoneIn(x, s + 1, t) {
        forall u: nat | Between(s, u, t) && OnLine(s, d, u)
          ensures !Has(o, u)
        {
          assert !Has(x, u);
        }
      }
    } else {
      if NoneIn(x, t + 1, s) {
        forall u: nat | Between(s, u, t) && OnLine(s, d, u)
          ensures !Has(o, u)
        {
          assert !Has(x, u);
        }
      }
    }
  }

  /** A mirrored single square is the single opposite square. */
  lemma MirrorBit(s: nat, v: int)
    requires s < 64
    requires forall i: nat :: Has(v, i) == (i < 64 && Has(Pow2(s), 63 - i))
    ensures v == Pow2(63 - s)
  {
    forall i: nat
      ensures Has(v, i) == Has(Pow2(63 - s), i)
    {
      HasPow2(63 - s, i);
      if i < 64 { HasPow2(s, 63 - i); }
    }
    Extensional(v, Pow2(63 - s));
  }

  /** The bits of the mirrored occupancy masked by the mirrored line. */
  lemma MirroredAnd(o: int, m: int, x: int, mo: int, mm: int, y: int)
    requires forall i: nat :: Has(x, i) == (Has(o, i) && Has(m, i))
    requires forall i: nat :: Has(mo, i) == (i < 64 && Has(o, 63 - i))
    requires forall i: nat :: Has(mm, i) == (i < 64 && Has(m, 63 - i))
    requires y == And(mo, mm)
    ensures forall i: nat :: Has(y, i) == (i < 64 && Has(x, 63 - i))
    ensures IsWord(y)
  {
    forall i: nat
      ensures Has(y, i) == (i < 64 && Has(x, 63 - i))
    {
      HasAnd(mo, mm, i);
    }
    WordByBits(y);
  }

  /** The constructor keeps the low 64 bits of the negative-side difference. */
  lemma KeepLowWord(y: int, s: nat, z: int)
    requires s < 64 && IsWord(y) && z == y - Pow2(64 - s)
    ensures New(z, None).Ok?
    ensures forall i: nat :: Has(New(z, None).value.board, i) == (i < 64 && Has(z, i))
  {
    Pow2Word();
    Pow2Mono(64 - s, 64);
    forall i: nat
      ensures Has(z % Word, i) == (i < 64 && Has(z, i))
    {
      HasMod(z, 64, i);
    }
  }

  /** One turn of the inner loop of `generate_sliding_attacks`: the squares seen from
      `s` along the line `d`. */
  function LineAttacks(collisions: BitBoard, s: nat, d: Direction): (r: int)
    requires Valid(collisions) && s < 64 && d != C
    ensures IsWord(r)
    ensures forall t: nat :: Has(r, t) <==> Sees(collisions.board, s, d, t)
  {
    var o := collisions.board;
    var mirroredCollisions := Mirror(collisions);
    var bitSquare := Shl(1, s);
    Pow2IsWord(s);
    NewWord(bitSquare, None);
    var squareBoard := New(bitSquare, None).value;
    assert squareBoard.board == Pow2(s);
    var mirroredSquare := Mirror(squareBoard);
    var mask := GenerateMask(s, d);
    NewWord(mask, None);
    var maskBoard := New(mask, None).value;
    assert maskBoard.board == mask;
    var mirroredMask := Mirror(maskBoard);
    var x := And(o, mask);
    var positive := x - 2 * bitSquare;
    var y := And(mirroredCollisions.board, mirroredMask.board);
    var z := y - 2 * mirroredSquare.board;
    assert forall i: nat :: Has(x, i) == (Has(o, i) && Has(mask, i)) by {
      forall i: nat
        ensures Has(x, i) == (Has(o, i) && Has(mask, i))
      {
        HasAnd(o, mask, i);
      }
    }
    MirroredAnd(o, mask, x, mirroredCollisions.board, mirroredMask.board, y);
    MirrorBit(s, mirroredSquare.board);
    Pow2Succ(s);
    Pow2Succ(63 - s);
    KeepLowWord(y, s, z);
    var lowWord := New(z, None).value;
    var negative := Mirror(lowWord);
    var path := Xor(positive, negative.board);
    var r := And(path, mask);
    LineAttacksBits(o, mask, x, positive, y, z, lowWord.board, negative.board, path, r, s, d);
    r
  }

  /** The per-square reading of one turn, on plain values. */
  lemma LineAttacksBits(o: int, m: int, x: int, pos: int, y: int, z: int, zw: int, neg: int,
                        path: int, r: int, s: nat, d: Direction)
    requires s < 64 && d != C
    requires IsWord(m) && forall i: nat :: Has(m, i) <==> OnLine(s, d, i)
    requires forall i: nat :: Has(x, i) == (Has(o, i) && Has(m, i))
    requires pos == x - Pow2(s + 1) && z == y - Pow2(64 - s)
    requires forall i: nat :: Has(y, i) == (i < 64 && Has(x, 63 - i))
    requires forall i: nat :: Has(zw, i) == (i < 64 && Has(z, i))
    requires forall i: nat :: Has(neg, i) == (i < 64 && Has(zw, 63 - i))
    requires path == Xor(pos, neg) && r == And(path, m)
    ensures IsWord(r)
    ensures forall t: nat :: Has(r, t) <==> Sees(o, s, d, t)
  {
    forall t: nat
      ensures Has(r, t) <==> Sees(o, s, d, t)
    {
      HasAnd(path, m, t);
      if t < 64 {
        PathBits(x, pos, y, z, zw, neg, s, t);
        if t != s { ClearBetween(o, m, x, s, d, t); }
      } else {
        WordHigh(m, t);
      }
    }
    forall t: nat | 64 <= t
      ensures !Has(r, t)
    {
      HasAnd(path, m, t);
      WordHigh(m, t);
    }
    WordByBits(r);
  }

  /** `t` is seen from `s` along one of `dirs`. */
  ghost predicate SeenAlong(o: int, s: int, dirs: seq<Direction>, t: int)
  {
    exists d :: d in dirs && Sees(o, s, d, t)
  }

  /** `t` is seen from one of `squares` along one of `dirs`. */
  ghost predicate SeenFrom(o: int, squares: seq<nat>, dirs: seq<Direction>, t: int)
  {
    exists s :: s in squares && SeenAlong(o, s, dirs, t)
  }

  /** The inner loop over the directions for the square `s`, adding to `acc`. */
  function DirectionsLoop(collisions: BitBoard, s: nat, dirs: seq<Direction>, acc: int): (r: int)
    requires Valid(collisions) && s < 64 && C !in dirs
    ensures IsWord(acc) ==> IsWord(r)
    ensures forall t: nat :: Has(r, t) <==> Has(acc, t) || SeenAlong(collisions.board, s, dirs, t)
    decreases |dirs|
  {
    if |dirs| == 0 then acc
    else
      var line := LineAttacks(collisions, s, dirs[0]);
      var next := Or(acc, line);
      assert IsWord(acc) ==> IsWord(next) by {
        if IsWord(acc) { OrWord(acc, line); }
      }
      var r := DirectionsLoop(collisions, s, dirs[1..], next);
      assert forall t: nat :: Has(r, t) <==> Has(acc, t) || SeenAlong(collisions.board, s, dirs, t) by {
        forall t: nat
          ensures Has(r, t) <==> Has(acc, t) || SeenAlong(collisions.board, s, dirs, t)
        {
          HasOr(acc, line, t);
          assert forall d :: d in dirs <==> d == dirs[0] || d in dirs[1..];
        }
      }
      r
  }

  /** The outer loop over the slider squares. */
  function SquaresLoop(collisions: BitBoard, squares: seq<nat>, dirs: seq<Direction>, acc: int): (r: int)
    requires Valid(collisions) && C !in dirs
    requires forall k :: 0 <= k < |squares| ==> squares[k] < 64
    ensures IsWord(acc) ==> IsWord(r)
    ensures forall t: nat :: Has(r, t) <==> Has(acc, t) || SeenFrom(collisions.board, squares, dirs, t)
    decreases |squares|
  {
    if |squares| == 0 then acc
    else
      var next := DirectionsLoop(collisions, squares[0], dirs, acc);
      var r := SquaresLoop(collisions, squares[1..], dirs, next);
      assert forall t: nat :: Has(r, t) <==> Has(acc, t) || SeenFrom(collisions.board, squares, dirs, t) by {
        forall t: nat
          ensures Has(r, t) <==> Has(acc, t) || SeenFrom(collisions.board, squares, dirs, t)
        {
          assert forall s :: s in squares <==> s == squares[0] || s in squares[1..];
        }
      }
      r
  }

  /** `generate_sliding_attacks`: every square seen from one of `squares` along one
      of `dirs`, in a board without piece type. The mirrored collisions the source
      computes once before the loops are recomputed in each turn here. */
  function GenerateSlidingAttacks(collisions: BitBoard, squares: seq<nat>, dirs: seq<Direction>): (r: BitBoard)
    requires Valid(collisions) && C !in dirs
    requires forall k :: 0 <= k < |squares| ==> squares[k] < 64
    ensures Valid(r) && r.boardType == None
    ensures forall t: nat :: Has(r.board, t) <==> SeenFrom(collisions.board, squares, dirs, t)
  {
    var attacks := SquaresLoop(collisions, squares, dirs, 0);
    assert forall t: nat :: !Has(0, t) by {
      forall t: nat
        ensures !Has(0, t)
      {
        HighZero(0, 0, t);
      }
    }
    NewWord(attacks, None);
    New(attacks, None).value
  }

  /** The directions of a piece board's type; a board without a slider type raises. */
  function DirectionsOf(t: Option<ColorChessPiece>): (r: Result<seq<Direction>>)
    ensures r.Ok? <==> t.Some? && TypeOf(t.value) in {Bishop, Rook, Queen}
    ensures r.Ok? ==> r == GetDirections(t.value) && C !in r.value
  {
    match t
    case None => Err(ValueError)
    case Some(p) => GetDirections(p)
  }

  /** `get_sliding_attacks`: the attacks of every slider on `pieceBoard` along the
      lines of its piece type. */
  function GetSlidingAttacks(collisions: BitBoard, pieceBoard: BitBoard): (r: Result<BitBoard>)
    requires Valid(collisions) && Valid(pieceBoard)
    ensures r.Ok? <==> DirectionsOf(pieceBoard.boardType).Ok?
    ensures r.Ok? ==> Valid(r.value) && r.value.boardType == None
    ensures r.Ok? ==> forall t: nat :: Has(r.value.board, t) <==>
      exists s: nat :: Has(pieceBoard.board, s) &&
        SeenAlong(collisions.board, s, DirectionsOf(pieceBoard.boardType).value, t)
  {
    var squares := Serialize(pieceBoard.board);
    var dirs :- DirectionsOf(pieceBoard.boardType);
    assert forall k :: 0 <= k < |squares| ==> squares[k] < 64 by {
      forall k | 0 <= k < |squares|
        ensures squares[k] < 64
      {
        if squares[k] >= 64 { WordHigh(pieceBoard.board, squares[k]); }
      }
    }
    var r := GenerateSlidingAttacks(collisions, squares, dirs);
    assert forall t: nat :: Has(r.board, t) <==>
      exists s: nat :: Has(pieceBoard.board, s) && SeenAlong(collisions.board, s, dirs, t) by {
      forall t: nat
        ensures Has(r.board, t) <==>
          exists s: nat :: Has(pieceBoard.board, s) && SeenAlong(collisions.board, s, dirs, t)
      {
        if SeenFrom(collisions.board, squares, dirs, t) {
          var s :| s in squares && SeenAlong(collisions.board, s, dirs, t);
          assert Has(pieceBoard.board, s);
        }
      }
    }
    Ok(r)
  }

  /** Squares on one line see each other: the attack relation is symmetric. */
  lemma SeesSymmetric(o: int, s: nat, d: Direction, t: nat)
    ensures Sees(o, s, d, t) == Sees(o, t, d, s)
  {
    if OnLine(s, d, t) || OnLine(t, d, s) {
      forall u: nat
        ensures OnLine(s, d, u) == OnLine(t, d, u)
      {
      }
    }
  }

  /** On a line holding no other piece the slider sees the whole line but itself. */
  lemma SeesOnEmptyLine(o: int, s: nat, d: Direction, t: nat)
    requires forall u: nat :: OnLine(s, d, u) && u != s ==> !Has(o, u)
    ensures Sees(o, s, d, t) <==> OnLine(s, d, t) && t != s
  {}

  /** A square past the first occupied square of the line is hidden. */
  lemma SeesStopsAtBlocker(o: int, s: nat, d: Direction, b: nat, t: nat)
    requires Sees(o, s, d, b) && Has(o, b) && OnLine(s, d, t) && Between(s, b, t)
    ensures !Sees(o, s, d, t)
  {}
}
