/**
 * The board vocabulary shared by the front end's rule code: stones, the 19x19 grid,
 * coordinates, unit steps, and the line-walking helpers of `useBaseLogic`.
 *
 * `useBaseLogic` is not part of this model. Its helpers are given definitions here that
 * state what the rule code relies on (see README, "Assumed helpers"):
 *   - `Directions`: eight unit steps; the first four are pairwise non-opposite and entry
 *     i + 4 is the negation of entry i;
 *   - `Move(p, d, k)`: the cell k steps from p along d;
 *   - `Opposite`: "X" <-> "O";
 *   - `MoveToEdgeOfLine`: the farthest cell reached from p along d through cells of the
 *     same stone.
 */
module Geometry {

  /** The board edge length used by every grid in the system. */
  const Size: int := 19

  /** A cell's content: "." (Empty), "X" (first player, black) or "O" (second player, white). */
  datatype Stone = Empty | X | O

  datatype Coord = Coord(x: int, y: int)

  datatype Dir = Dir(dx: int, dy: int)

  /** A cell with its stone, as the front end's `BoardStone` record. */
  datatype BoardStone = BoardStone(x: int, y: int, stone: Stone) {
    function Pos(): Coord { Coord(x, y) }
  }

  /** Rows indexed by y, cells by x: `boardData[y][x].stone`. */
  type Board = seq<seq<Stone>>

  ghost predicate WellFormed(b: Board) {
    |b| == Size && forall y :: 0 <= y < Size ==> |b[y]| == Size
  }

  /** Negation of `isOutOfBound`. */
  predicate InBounds(p: Coord) {
    0 <= p.x < Size && 0 <= p.y < Size
  }

  function At(b: Board, p: Coord): Stone
    requires WellFormed(b) && InBounds(p)
  {
    b[p.y][p.x]
  }

  predicate IsUnitStep(d: Dir) {
    -1 <= d.dx <= 1 && -1 <= d.dy <= 1 && (d.dx != 0 || d.dy != 0)
  }

  function Neg(d: Dir): Dir {
    Dir(-d.dx, -d.dy)
  }

  function Step(p: Coord, d: Dir): Coord {
    Coord(p.x + d.dx, p.y + d.dy)
  }

  /**
   * `move(p, d, k)`: the cell k steps from p along d (against d when k < 0). It is built
   * step by step; MoveIsOffset gives the closed form p + k * d.
   */
  function Move(p: Coord, d: Dir, k: int): Coord
    decreases if k < 0 then -k else k
  {
    if k == 0 then p
    else if k > 0 then Step(Move(p, d, k - 1), d)
    else Step(Move(p, d, k + 1), Neg(d))
  }

  /** The closed form of `move`: p offset by k times d. */
  lemma {:induction false} MoveIsOffset(p: Coord, d: Dir, k: int)
    ensures Move(p, d, k) == Coord(p.x + k * d.dx, p.y + k * d.dy)
    decreases if k < 0 then -k else k
  {
    if k > 0 {
      MoveIsOffset(p, d, k - 1);
      assert (k - 1) * d.dx + d.dx == k * d.dx && (k - 1) * d.dy + d.dy == k * d.dy;
    } else if k < 0 {
      MoveIsOffset(p, d, k + 1);
      assert (k + 1) * d.dx - d.dx == k * d.dx && (k + 1) * d.dy - d.dy == k * d.dy;
    }
  }

  /** Starting one step further along d is the same as taking one more step. */
  lemma {:induction false} MoveFromStep(p: Coord, d: Dir, k: int)
    ensures Move(Step(p, d), d, k) == Move(p, d, k + 1)
    decreases if k < 0 then -k else k
  {
    if k > 0 {
      MoveFromStep(p, d, k - 1);
    } else if k < 0 {
      MoveFromStep(p, d, k + 1);
    }
  }

  /** Walking k steps against d is walking -k steps along d. */
  lemma {:induction false} MoveNeg(p: Coord, d: Dir, k: int)
    ensures Move(p, Neg(d), k) == Move(p, d, -k)
    decreases if k < 0 then -k else k
  {
    if k > 0 {
      MoveNeg(p, d, k - 1);
    } else if k < 0 {
      MoveNeg(p, d, k + 1);
      assert Neg(Neg(d)) == d;
    }
  }

  lemma MoveStep(p: Coord, d: Dir, k: int)
    ensures Move(Step(p, d), d, k) == Move(p, d, k + 1)
    ensures Move(p, Neg(d), k) == Move(p, d, -k)
  {
    MoveFromStep(p, d, k);
    MoveNeg(p, d, k);
  }

  /** Walks along the same direction compose. */
  lemma {:induction false} MoveAdd(p: Coord, d: Dir, a: int, c: int)
    ensures Move(Move(p, d, a), d, c) == Move(p, d, a + c)
    decreases if c < 0 then -c else c
  {
    if c > 0 {
      MoveAdd(p, d, a, c - 1);
      if a + c <= 0 {
        assert Move(p, d, a + c - 1) == Step(Move(p, d, a + c), Neg(d));
      }
    } else if c < 0 {
      MoveAdd(p, d, a, c + 1);
      if a + c >= 0 {
        assert Move(p, d, a + c + 1) == Step(Move(p, d, a + c), d);
      }
    }
  }

  /** The assumed `directions` table of `useBaseLogic`. */
  const Directions: seq<Dir> := [Dir(1, 0), Dir(0, 1), Dir(1, 1), Dir(1, -1),
                                 Dir(-1, 0), Dir(0, -1), Dir(-1, -1), Dir(-1, 1)]

  lemma DirectionsShape()
    ensures |Directions| == 8
    ensures forall i :: 0 <= i < 8 ==> IsUnitStep(Directions[i])
    ensures forall i :: 0 <= i < 4 ==> Directions[i + 4] == Neg(Directions[i])
  {
  }

  lemma DirectionsDistinct()
    ensures forall i, j :: 0 <= i < 8 && 0 <= j < 8 && Directions[i] == Directions[j] ==> i == j
  {
  }

  /**
   * `directions.slice(0, 4)`: the scanned axes, one per line orientation (horizontal,
   * vertical and the two diagonals).
   */
  function Axis(k: nat): (d: Dir)
    requires k < 4
    ensures IsUnitStep(d)
  {
    if k == 0 then Dir(1, 0) else if k == 1 then Dir(0, 1) else if k == 2 then Dir(1, 1) else Dir(1, -1)
  }

  lemma AxisInDirections(k: nat)
    requires k < 4
    ensures Axis(k) == Directions[k] && Neg(Axis(k)) == Directions[k + 4]
  {
  }

  /** No two of the four scanned axes are opposite, so each axis is scanned once. */
  lemma ScannedAxesNotOpposite()
    ensures forall i, j :: 0 <= i < 4 && 0 <= j < 4 ==> Directions[i] != Neg(Directions[j])
  {
    DirectionsShape();
    DirectionsDistinct();
    forall i, j | 0 <= i < 4 && 0 <= j < 4
      ensures Directions[i] != Neg(Directions[j])
    {
      assert Neg(Directions[j]) == Directions[j + 4];
    }
  }

  /** The assumed `getOppositeStone`; it is only ever asked about a player's stone. */
  function Opposite(s: Stone): (r: Stone)
    requires s != Empty
    ensures r != Empty && r != s
  {
    if s == X then O else X
  }

  /**
   * A bound on how many more steps along d stay on the board; it strictly decreases with
   * every step taken from an in-bounds cell.
   */
  function Reach(p: Coord, d: Dir): int {
    (if d.dx > 0 then Size - p.x else if d.dx < 0 then p.x + 1 else 0) +
    (if d.dy > 0 then Size - p.y else if d.dy < 0 then p.y + 1 else 0)
  }

  /** Number of cells after p along d that hold s, counting until the first that does not. */
  function EdgeDistance(b: Board, p: Coord, s: Stone, d: Dir): nat
    requires WellFormed(b) && IsUnitStep(d) && InBounds(p)
    decreases Reach(p, d)
  {
    var q := Step(p, d);
    if InBounds(q) && At(b, q) == s then EdgeDistance(b, q, s, d) + 1 else 0
  }

  /**
   * The n = EdgeDistance(b, p, s, d) cells after p along d all hold s, and the next one is
   * off the board or holds something else: n is the length of the run of s beyond p.
   */
  lemma {:induction false} EdgeDistanceIsRun(b: Board, p: Coord, s: Stone, d: Dir)
    requires WellFormed(b) && IsUnitStep(d) && InBounds(p)
    ensures var n := EdgeDistance(b, p, s, d);
      && (forall j :: 1 <= j <= n ==> InBounds(Move(p, d, j)) && At(b, Move(p, d, j)) == s)
      && (!InBounds(Move(p, d, n + 1)) || At(b, Move(p, d, n + 1)) != s)
    decreases Reach(p, d)
  {
    var q := Step(p, d);
    MoveStep(p, d, 0);
    if InBounds(q) && At(b, q) == s {
      EdgeDistanceIsRun(b, q, s, d);
      var m := EdgeDistance(b, q, s, d);
      forall j | 1 <= j <= m + 1
        ensures InBounds(Move(p, d, j)) && At(b, Move(p, d, j)) == s
      {
        MoveStep(p, d, j - 1);
      }
      MoveStep(p, d, m + 1);
    }
  }

  /** The assumed `moveToEdgeOfLine`: the last cell of the run of s from p along d. */
  function MoveToEdgeOfLine(b: Board, p: Coord, s: Stone, d: Dir): (e: Coord)
    requires WellFormed(b) && IsUnitStep(d) && InBounds(p)
    ensures InBounds(e)
    decreases Reach(p, d)
  {
    var q := Step(p, d);
    if InBounds(q) && At(b, q) == s then MoveToEdgeOfLine(b, q, s, d) else p
  }

  /** The edge of the run is EdgeDistance steps from p. */
  lemma {:induction false} EdgeOfLine(b: Board, p: Coord, s: Stone, d: Dir)
    requires WellFormed(b) && IsUnitStep(d) && InBounds(p)
    ensures MoveToEdgeOfLine(b, p, s, d) == Move(p, d, EdgeDistance(b, p, s, d))
    decreases Reach(p, d)
  {
    var q := Step(p, d);
    if InBounds(q) && At(b, q) == s {
      EdgeOfLine(b, q, s, d);
      MoveFromStep(p, d, EdgeDistance(b, q, s, d));
    }
  }
}
