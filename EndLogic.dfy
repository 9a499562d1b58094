/**
 * The game-end evaluator of the front end (`useEndLogic`): capture-goal win, the
 * "unbreakable five" win, and the draw test. The board is only read.
 */
module EndLogic {
  import opened Wrappers
  import opened Geometry

  datatype Scenario = FiveOrMoreStones | PairCaptured | Draw

  /** `GameResult`: both fields are optional; `{}` is `NoResult`. */
  datatype GameResult = GameResult(result: Option<Scenario>, winner: Option<Stone>)

  const NoResult: GameResult := GameResult(None, None)

  function FiveWin(turn: Stone): GameResult {
    GameResult(Some(FiveOrMoreStones), Some(turn))
  }

  const DrawResult: GameResult := GameResult(Some(Draw), None)

  /** The capture tally of a game situation, in captured pairs. */
  datatype Captured = Captured(player1: real, player2: real, goal: real)

  // ---------------------------------------------------------------------------
  // Line scanning
  // ---------------------------------------------------------------------------

  /**
   * `getStonesInLine`: `res` followed by the cells holding `s` met when walking from p
   * along d, stopping at the first cell that is off the board or holds something else.
   */
  function GetStonesInLine(b: Board, p: Coord, s: Stone, d: Dir, res: seq<BoardStone>): seq<BoardStone>
    requires WellFormed(b) && IsUnitStep(d)
    decreases if InBounds(p) then Reach(p, d) else 0
  {
    if !InBounds(p) || At(b, p) != s then res
    else GetStonesInLine(b, Step(p, d), s, d, res + [BoardStone(p.x, p.y, s)])
  }

  /**
   * The collected stones extend `res` by the run of s from p along d, one per cell in
   * walking order, and the walk stops at the first cell off the board or not holding s.
   */
  lemma {:induction false} StonesInLineIsRun(b: Board, p: Coord, s: Stone, d: Dir, res: seq<BoardStone>)
    requires WellFormed(b) && IsUnitStep(d)
    ensures var r := GetStonesInLine(b, p, s, d, res);
      && |res| <= |r| && r[..|res|] == res
      && (forall k :: |res| <= k < |r| ==>
            r[k].Pos() == Move(p, d, k - |res|) && r[k].stone == s && InBounds(r[k].Pos()) && At(b, r[k].Pos()) == s)
      && (!InBounds(Move(p, d, |r| - |res|)) || At(b, Move(p, d, |r| - |res|)) != s)
    decreases if InBounds(p) then Reach(p, d) else 0
  {
    assert Move(p, d, 0) == p;
    if InBounds(p) && At(b, p) == s {
      var res' := res + [BoardStone(p.x, p.y, s)];
      StonesInLineIsRun(b, Step(p, d), s, d, res');
      var r := GetStonesInLine(b, Step(p, d), s, d, res');
      assert r[..|res|] == res by { assert r[..|res|] == r[..|res'|][..|res|]; }
      forall k | |res| <= k < |r|
        ensures r[k].Pos() == Move(p, d, k - |res|) && r[k].stone == s && InBounds(r[k].Pos()) && At(b, r[k].Pos()) == s
      {
        if k == |res| {
          assert r[k] == r[..|res'|][k] == res'[k];
        } else {
          MoveStep(p, d, k - |res'|);
        }
      }
      MoveStep(p, d, |r| - |res'|);
    }
  }

  /** The run collected by the evaluators along scanned axis k (0 <= k < 4) through p. */
  function Line(b: Board, p: Coord, s: Stone, k: nat): seq<BoardStone>
    requires WellFormed(b) && InBounds(p) && k < 4
  {
    var d := Axis(k);
    GetStonesInLine(b, MoveToEdgeOfLine(b, p, s, d), s, Neg(d), [])
  }

  /**
   * When p holds s, the collected run is exactly the maximal run of s through p along
   * the axis: it has one stone per cell from one end to the other, in walking order,
   * and p is at position EdgeDistance(b, p, s, d) in it.
   */
  lemma LineIsMaximalRun(b: Board, p: Coord, s: Stone, k: nat)
    requires WellFormed(b) && InBounds(p) && k < 4 && At(b, p) == s
    ensures var d := Axis(k);
      var m := EdgeDistance(b, p, s, d);
      var n := EdgeDistance(b, p, s, Neg(d));
      && |Line(b, p, s, k)| == m + 1 + n
      && (forall i :: 0 <= i < m + 1 + n ==> Line(b, p, s, k)[i].Pos() == Move(p, d, m - i))
      && Line(b, p, s, k)[m].Pos() == p
  {
    RunThroughCell(b, p, s, Axis(k));
  }

  /** The same, for any unit step d: the walk back from the far edge collects the whole run. */
  lemma RunThroughCell(b: Board, p: Coord, s: Stone, d: Dir)
    requires WellFormed(b) && InBounds(p) && IsUnitStep(d) && At(b, p) == s
    ensures var m := EdgeDistance(b, p, s, d);
      var n := EdgeDistance(b, p, s, Neg(d));
      var r := GetStonesInLine(b, MoveToEdgeOfLine(b, p, s, d), s, Neg(d), []);
      && |r| == m + 1 + n
      && (forall i :: 0 <= i < m + 1 + n ==> r[i].Pos() == Move(p, d, m - i))
      && r[m].Pos() == p
  {
    var m := EdgeDistance(b, p, s, d);
    var n := EdgeDistance(b, p, s, Neg(d));
    var e := MoveToEdgeOfLine(b, p, s, d);
    EdgeOfLine(b, p, s, d);
    RunFromEdge(b, p, s, d);
    RunLength(b, e, s, Neg(d), m + n + 1);
    var r := GetStonesInLine(b, e, s, Neg(d), []);
    forall i | 0 <= i < m + 1 + n
      ensures r[i].Pos() == Move(p, d, m - i)
    {
      WalkBack(p, d, m, i);
    }
    assert Move(p, d, 0) == p;
  }

  /** Seen from the far edge and walking back, the run has m + n + 1 cells and then stops. */
  lemma RunFromEdge(b: Board, p: Coord, s: Stone, d: Dir)
    requires WellFormed(b) && InBounds(p) && IsUnitStep(d) && At(b, p) == s
    ensures var m: int := EdgeDistance(b, p, s, d);
      var n: int := EdgeDistance(b, p, s, Neg(d));
      var e := MoveToEdgeOfLine(b, p, s, d);
      && (forall j :: 0 <= j < m + n + 1 ==> InBounds(Move(e, Neg(d), j)) && At(b, Move(e, Neg(d), j)) == s)
      && (!InBounds(Move(e, Neg(d), m + n + 1)) || At(b, Move(e, Neg(d), m + n + 1)) != s)
  {
    var m: int := EdgeDistance(b, p, s, d);
    var n: int := EdgeDistance(b, p, s, Neg(d));
    var e := MoveToEdgeOfLine(b, p, s, d);
    forall j | 0 <= j < m + n + 1
      ensures InBounds(Move(e, Neg(d), j)) && At(b, Move(e, Neg(d), j)) == s
    {
      EdgeCell(b, p, s, d, j);
    }
    EdgeCell(b, p, s, d, m + n + 1);
  }

  /** Cell j of the walk back from the far edge is cell m - j counted from p along d. */
  lemma EdgeCell(b: Board, p: Coord, s: Stone, d: Dir, j: int)
    requires WellFormed(b) && InBounds(p) && IsUnitStep(d) && At(b, p) == s
    requires 0 <= j <= EdgeDistance(b, p, s, d) + EdgeDistance(b, p, s, Neg(d)) + 1
    ensures var m: int := EdgeDistance(b, p, s, d);
      var n: int := EdgeDistance(b, p, s, Neg(d));
      var e := MoveToEdgeOfLine(b, p, s, d);
      && Move(e, Neg(d), j) == Move(p, d, m - j)
      && (j < m + n + 1 ==> InBounds(Move(e, Neg(d), j)) && At(b, Move(e, Neg(d), j)) == s)
      && (j == m + n + 1 ==> !InBounds(Move(e, Neg(d), j)) || At(b, Move(e, Neg(d), j)) != s)
  {
    var m: int := EdgeDistance(b, p, s, d);
    var n: int := EdgeDistance(b, p, s, Neg(d));
    var e := MoveToEdgeOfLine(b, p, s, d);
    EdgeOfLine(b, p, s, d);
    WalkBack(p, d, m, j);
    if j < m + n + 1 {
      CellInRun(b, p, s, d, m - j);
    } else {
      BeyondRun(b, p, s, d);
    }
  }

  /**
   * A walk from e along d through exactly len cells of s, followed by a cell that is off
   * the board or holds something else, collects exactly len stones.
   */
  lemma RunLength(b: Board, e: Coord, s: Stone, d: Dir, len: nat)
    requires WellFormed(b) && IsUnitStep(d)
    requires forall j :: 0 <= j < len ==> InBounds(Move(e, d, j)) && At(b, Move(e, d, j)) == s
    requires !InBounds(Move(e, d, len)) || At(b, Move(e, d, len)) != s
    ensures var r := GetStonesInLine(b, e, s, d, []);
      |r| == len && forall i :: 0 <= i < len ==> r[i].Pos() == Move(e, d, i)
  {
    StonesInLineIsRun(b, e, s, d, []);
    var r := GetStonesInLine(b, e, s, d, []);
    assert |r| <= len || r[len].Pos() == Move(e, d, len);
  }

  /** Walking back i steps from the cell m steps ahead lands m - i steps ahead. */
  lemma WalkBack(p: Coord, d: Dir, m: int, i: int)
    ensures Move(Move(p, d, m), Neg(d), i) == Move(p, d, m - i)
  {
    MoveNeg(Move(p, d, m), d, i);
    MoveAdd(p, d, m, -i);
  }

  /**
   * The cells from EdgeDistance(-d) steps against d to EdgeDistance(d) steps along d all
   * hold s (p included), and the cell just past the far end against d does not.
   */
  lemma RunAroundCell(b: Board, p: Coord, s: Stone, d: Dir)
    requires WellFormed(b) && InBounds(p) && IsUnitStep(d) && At(b, p) == s
    ensures var m: int := EdgeDistance(b, p, s, d);
      var n: int := EdgeDistance(b, p, s, Neg(d));
      && (forall j: int :: -n <= j <= m ==> InBounds(Move(p, d, j)) && At(b, Move(p, d, j)) == s)
      && (!InBounds(Move(p, d, -n - 1)) || At(b, Move(p, d, -n - 1)) != s)
  {
    var m: int := EdgeDistance(b, p, s, d);
    var n: int := EdgeDistance(b, p, s, Neg(d));
    forall j: int | -n <= j <= m
      ensures InBounds(Move(p, d, j)) && At(b, Move(p, d, j)) == s
    {
      CellInRun(b, p, s, d, j);
    }
    BeyondRun(b, p, s, d);
  }

  lemma BeyondRun(b: Board, p: Coord, s: Stone, d: Dir)
    requires WellFormed(b) && InBounds(p) && IsUnitStep(d)
    ensures var n: int := EdgeDistance(b, p, s, Neg(d));
      !InBounds(Move(p, d, -n - 1)) || At(b, Move(p, d, -n - 1)) != s
  {
    var n: int := EdgeDistance(b, p, s, Neg(d));
    EdgeDistanceIsRun(b, p, s, Neg(d));
    MoveStep(p, d, n + 1);
  }

  lemma CellInRun(b: Board, p: Coord, s: Stone, d: Dir, j: int)
    requires WellFormed(b) && InBounds(p) && IsUnitStep(d) && At(b, p) == s
    requires 0 - EdgeDistance(b, p, s, Neg(d)) as int <= j <= EdgeDistance(b, p, s, d)
    ensures InBounds(Move(p, d, j)) && At(b, Move(p, d, j)) == s
  {
    if j == 0 {
      assert Move(p, d, 0) == p;
    } else if j < 0 {
      BackwardCell(b, p, s, d, -j);
    } else {
      EdgeDistanceIsRun(b, p, s, d);
    }
  }

  /** The cells up to EdgeDistance(-d) steps against d, seen as negative steps along d. */
  lemma BackwardCell(b: Board, p: Coord, s: Stone, d: Dir, j: int)
    requires WellFormed(b) && InBounds(p) && IsUnitStep(d)
    requires 1 <= j <= EdgeDistance(b, p, s, Neg(d))
    ensures InBounds(Move(p, d, -j)) && At(b, Move(p, d, -j)) == s
  {
    EdgeDistanceIsRun(b, p, s, Neg(d));
    MoveStep(p, d, j);
    assert InBounds(Move(p, Neg(d), j));
  }

  // ---------------------------------------------------------------------------
  // Capture goal
  // ---------------------------------------------------------------------------

  /** `isCaptureEnded`: a capture win as soon as either tally reaches the goal; "X" wins a tie. */
  function IsCaptureEnded(c: Captured): (r: GameResult)
    ensures r.result == Some(PairCaptured) <==> c.player1 >= c.goal || c.player2 >= c.goal
    ensures r.result == Some(PairCaptured) ==> r.winner == Some(if c.player1 >= c.goal then X else O)
    ensures r.result != Some(PairCaptured) ==> r == NoResult
  {
    if c.player1 >= c.goal || c.player2 >= c.goal then
      GameResult(Some(PairCaptured), Some(if c.player1 >= c.goal then X else O))
    else
      NoResult
  }

  // ---------------------------------------------------------------------------
  // Five or more, and whether a capture can break it
  // ---------------------------------------------------------------------------

  /** The runs collected along the first n scanned axes through p, in axis order. */
  function AxisLines(b: Board, p: Coord, s: Stone, n: nat): (lines: seq<seq<BoardStone>>)
    requires WellFormed(b) && InBounds(p) && n <= 4
    ensures |lines| == n
  {
    if n == 0 then [] else AxisLines(b, p, s, n - 1) + [Line(b, p, s, n - 1)]
  }

  /** The candidate win lines: the entries of length five or more, in order. */
  function LongLines(lines: seq<seq<BoardStone>>): (w: seq<seq<BoardStone>>)
    ensures forall i :: 0 <= i < |w| ==> |w[i]| >= 5
  {
    if lines == [] then []
    else
      var last := lines[|lines| - 1];
      LongLines(lines[..|lines| - 1]) + (if |last| >= 5 then [last] else [])
  }

  /** A line is a candidate iff it is one of the collected runs and has five or more stones. */
  lemma {:induction false} LongLinesMembership(lines: seq<seq<BoardStone>>)
    ensures forall line :: line in LongLines(lines) <==> line in lines && |line| >= 5
  {
    if lines != [] {
      var init := lines[..|lines| - 1];
      LongLinesMembership(init);
      assert lines == init + [lines[|lines| - 1]];
    }
  }

  /** Keeps the entries of ds that differ from e, in order (one `filter` of the source). */
  function Without(ds: seq<Dir>, e: Dir): (r: seq<Dir>)
    ensures forall x :: x in r <==> x in ds && x != e
    ensures |r| <= |ds|
  {
    if ds == [] then []
    else (if ds[0] == e then [] else [ds[0]]) + Without(ds[1..], e)
  }

  /** The directions tried against a line of inclination inc: all but inc and its negation. */
  function NonParallelDirections(inc: Dir): (r: seq<Dir>)
    ensures forall x :: x in r <==> x in Directions && x != inc && x != Neg(inc)
  {
    Without(Without(Directions, inc), Neg(inc))
  }

  /**
   * For a line along scanned axis k (its inclination is the negated step, see
   * LineInclination), the filter removes exactly two of the eight directions.
   */
  lemma NonParallelCount(k: nat)
    requires k < 4
    ensures |NonParallelDirections(Neg(Axis(k)))| == 6
  {
    var inc := Neg(Axis(k));
    FirstFilter(k);
    WithoutOne(Without(Directions, inc), Neg(inc));
  }

  /** Dropping the inclination leaves seven distinct directions, its negation among them. */
  lemma FirstFilter(k: nat)
    requires k < 4
    ensures var inc := Neg(Axis(k));
      && |Without(Directions, inc)| == 7
      && NoRepeats(Without(Directions, inc))
      && Neg(inc) in Without(Directions, inc)
  {
    DirectionsShape();
    DirectionsDistinct();
    AxisInDirections(k);
    var inc := Neg(Axis(k));
    assert inc == Directions[k + 4];
    assert Neg(inc) == Directions[k];
    WithoutOne(Directions, inc);
  }

  predicate NoRepeats(ds: seq<Dir>) {
    forall i, j :: 0 <= i < |ds| && 0 <= j < |ds| && ds[i] == ds[j] ==> i == j
  }

  /** Removing an entry that occurs once from a list without repeats shortens it by one. */
  lemma {:induction false} WithoutOne(ds: seq<Dir>, e: Dir)
    requires e in ds
    requires NoRepeats(ds)
    ensures |Without(ds, e)| == |ds| - 1
    ensures NoRepeats(Without(ds, e))
  {
    assert ds[0] !in ds[1..] by {
      forall j | 0 <= j < |ds| - 1
        ensures ds[1..][j] != ds[0]
      {
        assert ds[1..][j] == ds[j + 1];
      }
    }
    if ds[0] == e {
      WithoutAbsent(ds[1..], e);
    } else {
      WithoutOne(ds[1..], e);
      var t := Without(ds[1..], e);
      assert Without(ds, e) == [ds[0]] + t;
    }
  }

  lemma {:induction false} WithoutAbsent(ds: seq<Dir>, e: Dir)
    requires e !in ds
    ensures Without(ds, e) == ds
  {
    if ds != [] {
      WithoutAbsent(ds[1..], e);
    }
  }

  /** `pattern.every(...)`: every cell of the pattern is on the board and holds the expected stone. */
  predicate Matches(b: Board, cells: seq<Coord>, expected: seq<Stone>)
    requires WellFormed(b) && |cells| == |expected|
  {
    forall i :: 0 <= i < |cells| ==> InBounds(cells[i]) && At(b, cells[i]) == expected[i]
  }

  /**
   * Whether the line stone at q can be captured right away along d: the cells at
   * offsets (-1, +1, +2) or at offsets (-2, -1, +1) read [".", turn, opponent].
   */
  predicate BreaksAt(b: Board, q: Coord, d: Dir, turn: Stone)
    requires WellFormed(b) && turn != Empty
  {
    var expected := [Empty, turn, Opposite(turn)];
    Matches(b, [Move(q, d, -1), Move(q, d, 1), Move(q, d, 2)], expected) ||
    Matches(b, [Move(q, d, -2), Move(q, d, -1), Move(q, d, 1)], expected)
  }

  /** The step from a line's first stone to its second. */
  function Inclination(line: seq<BoardStone>): Dir
    requires |line| >= 2
  {
    Dir(line[1].x - line[0].x, line[1].y - line[0].y)
  }

  /** Some stone of the line breaks it along some direction not parallel to the line. */
  ghost predicate IsBreakable(b: Board, line: seq<BoardStone>, turn: Stone)
    requires WellFormed(b) && turn != Empty && |line| >= 2
  {
    var dirs := NonParallelDirections(Inclination(line));
    exists i, j :: 0 <= i < |line| && 0 <= j < |dirs| && BreaksAt(b, line[i].Pos(), dirs[j], turn)
  }

  /** A candidate line walks along -d, so the directions it skips are exactly the axis of d. */
  lemma LineInclination(b: Board, p: Coord, turn: Stone, k: nat)
    requires WellFormed(b) && InBounds(p) && k < 4 && |Line(b, p, turn, k)| >= 2
    ensures Inclination(Line(b, p, turn, k)) == Neg(Axis(k))
  {
    var d := Axis(k);
    var line := Line(b, p, turn, k);
    var e := MoveToEdgeOfLine(b, p, turn, d);
    StonesInLineIsRun(b, e, turn, Neg(d), []);
    assert line[0].Pos() == Move(e, Neg(d), 0);
    assert line[1].Pos() == Move(e, Neg(d), 1);
  }

  /**
   * Some candidate is unbreakable; by LongLinesMembership the candidates are exactly the
   * runs of five or more along the four scanned axes.
   */
  ghost predicate HasUnbreakableFive(b: Board, p: Coord, turn: Stone)
    requires WellFormed(b) && InBounds(p) && turn != Empty
  {
    exists line :: line in LongLines(AxisLines(b, p, turn, 4)) && !IsBreakable(b, line, turn)
  }

  /**
   * `isPerfectFiveEnded`: `turn` wins iff one of its runs of five or more through p
   * cannot be broken by an immediate capture; otherwise there is no result. The other
   * colour is never named.
   */
  method IsPerfectFiveEnded(b: Board, p: Coord, turn: Stone) returns (r: GameResult)
    requires WellFormed(b) && InBounds(p) && turn != Empty
    ensures r.result == Some(FiveOrMoreStones) <==> HasUnbreakableFive(b, p, turn)
    ensures r == FiveWin(turn) || r == NoResult
  {
    var winLines := CollectWinLines(b, p, turn);
    for w := 0 to |winLines|
      invariant forall v :: 0 <= v < w ==> IsBreakable(b, winLines[v], turn)
    {
      var isBreakable := IsLineBreakable(b, winLines[w], turn);
      if !isBreakable {
        assert winLines[w] in winLines;
        return FiveWin(turn);
      }
    }
    return NoResult;
  }

  /** The first loop of `isPerfectFiveEnded`: the runs of five or more, axis by axis. */
  method CollectWinLines(b: Board, p: Coord, turn: Stone) returns (winLines: seq<seq<BoardStone>>)
    requires WellFormed(b) && InBounds(p)
    ensures winLines == LongLines(AxisLines(b, p, turn, 4))
  {
    winLines := [];
    for k := 0 to 4
      invariant winLines == LongLines(AxisLines(b, p, turn, k))
    {
      var d := Axis(k);
      var edgeStone := MoveToEdgeOfLine(b, p, turn, d);
      var stonesInLine := GetStonesInLine(b, edgeStone, turn, Neg(d), []);
      assert stonesInLine == Line(b, p, turn, k);
      CollectStep(b, p, turn, k);
      if |stonesInLine| >= 5 {
        winLines := winLines + [stonesInLine];
      }
    }
  }

  /** One more axis adds its run to the candidates exactly when the run has five or more stones. */
  lemma CollectStep(b: Board, p: Coord, turn: Stone, k: nat)
    requires WellFormed(b) && InBounds(p) && k < 4
    ensures var line := Line(b, p, turn, k);
      LongLines(AxisLines(b, p, turn, k + 1)) ==
        LongLines(AxisLines(b, p, turn, k)) + (if |line| >= 5 then [line] else [])
  {
    var axes := AxisLines(b, p, turn, k + 1);
    assert axes[..k] == AxisLines(b, p, turn, k);
  }

  /**
   * The breakability scan of one candidate line in `isPerfectFiveEnded`: every stone of
   * the line against every non-parallel direction, both capture patterns, stopping at the
   * first match.
   */
  method IsLineBreakable(b: Board, winLine: seq<BoardStone>, turn: Stone) returns (isBreakable: bool)
    requires WellFormed(b) && turn != Empty && |winLine| >= 2
    ensures isBreakable <==> IsBreakable(b, winLine, turn)
  {
    var oppositeStone := Opposite(turn);
    var inclination := Dir(winLine[1].x - winLine[0].x, winLine[1].y - winLine[0].y);
    var nonParallelDirections := NonParallelDirections(inclination);
    isBreakable := false;
    for i := 0 to |winLine|
      invariant !isBreakable
      invariant forall i', j :: 0 <= i' < i && 0 <= j < |nonParallelDirections| ==>
        !BreaksAt(b, winLine[i'].Pos(), nonParallelDirections[j], turn)
    {
      var stoneOnLine := winLine[i].Pos();
      for j := 0 to |nonParallelDirections|
        invariant !isBreakable
        invariant forall j' :: 0 <= j' < j ==> !BreaksAt(b, stoneOnLine, nonParallelDirections[j'], turn)
      {
        var dd := nonParallelDirections[j];
        var expected := [Empty, turn, oppositeStone];
        var stonesPattern1 := [Move(stoneOnLine, dd, -1), Move(stoneOnLine, dd, 1), Move(stoneOnLine, dd, 2)];
        var stonesPattern2 := [Move(stoneOnLine, dd, -2), Move(stoneOnLine, dd, -1), Move(stoneOnLine, dd, 1)];
        if Matches(b, stonesPattern1, expected) || Matches(b, stonesPattern2, expected) {
          assert BreaksAt(b, winLine[i].Pos(), nonParallelDirections[j], turn);
          isBreakable := true;
          return;
        }
      }
    }
  }

  // ---------------------------------------------------------------------------
  // Five or more, ignoring breakability
  // ---------------------------------------------------------------------------

  /** Some scanned axis holds a run of five or more through p. */
  ghost predicate FiveThrough(b: Board, p: Coord, s: Stone)
    requires WellFormed(b) && InBounds(p)
  {
    exists k :: 0 <= k < 4 && |Line(b, p, s, k)| >= 5
  }

  /** `checkFiveStones`: true iff some scanned axis has a run of five or more through p. */
  method CheckFiveStones(b: Board, p: Coord, s: Stone) returns (five: bool)
    requires WellFormed(b) && InBounds(p)
    ensures five <==> FiveThrough(b, p, s)
  {
    for k := 0 to 4
      invariant forall k' :: 0 <= k' < k ==> |Line(b, p, s, k')| < 5
    {
      var d := Axis(k);
      var edgeStone := MoveToEdgeOfLine(b, p, s, d);
      var stonesInLine := GetStonesInLine(b, edgeStone, s, Neg(d), []);
      if |stonesInLine| >= 5 {
        assert stonesInLine == Line(b, p, s, k);
        return true;
      }
    }
    return false;
  }

  /**
   * For a cell holding s, a run of five through it along scanned axis k means at least
   * four more stones of s on the two sides of the cell along that axis.
   */
  lemma FiveThroughCellCounts(b: Board, p: Coord, s: Stone, k: nat)
    requires WellFormed(b) && InBounds(p) && k < 4 && At(b, p) == s
    ensures |Line(b, p, s, k)| >= 5 <==>
      EdgeDistance(b, p, s, Axis(k)) + EdgeDistance(b, p, s, Neg(Axis(k))) >= 4
  {
    LineIsMaximalRun(b, p, s, k);
  }

  /** The board has a cell holding `turn` with a run of five or more through it. */
  ghost predicate SomeFiveOf(b: Board, turn: Stone)
    requires WellFormed(b)
  {
    exists y, x :: 0 <= y < Size && 0 <= x < Size && b[y][x] == turn && FiveThrough(b, Coord(x, y), turn)
  }

  /**
   * `isCurrentTurnFiveEnded`: only cells holding `turn` are examined, and `turn` is
   * always the winner named.
   */
  method IsCurrentTurnFiveEnded(b: Board, turn: Stone) returns (r: GameResult)
    requires WellFormed(b)
    ensures r == (if SomeFiveOf(b, turn) then FiveWin(turn) else NoResult)
  {
    for y := 0 to |b|
      invariant forall y', x :: 0 <= y' < y && 0 <= x < Size && b[y'][x] == turn ==> !FiveThrough(b, Coord(x, y'), turn)
    {
      for x := 0 to |b[y]|
        invariant forall x' :: 0 <= x' < x && b[y][x'] == turn ==> !FiveThrough(b, Coord(x', y), turn)
      {
        if b[y][x] != turn {
          continue;
        }
        var five := CheckFiveStones(b, Coord(x, y), turn);
        if five {
          return FiveWin(turn);
        }
      }
    }
    return NoResult;
  }

  // ---------------------------------------------------------------------------
  // Draw
  // ---------------------------------------------------------------------------

  /** Every empty cell is a forbidden double-three for `turn` (vacuously so on a full board). */
  ghost predicate IsDraw(b: Board, turn: Stone, checkDoubleThree: (Board, Coord, Stone) -> bool)
    requires WellFormed(b)
  {
    forall y, x :: 0 <= y < Size && 0 <= x < Size && b[y][x] == Empty ==> checkDoubleThree(b, Coord(x, y), turn)
  }

  /**
   * `isDrawEnded`, with the double-three detector as a parameter: a draw iff no empty
   * cell is open to `turn`; the first open empty cell gives no result.
   */
  method IsDrawEnded(b: Board, turn: Stone, checkDoubleThree: (Board, Coord, Stone) -> bool) returns (r: GameResult)
    requires WellFormed(b)
    ensures r == (if IsDraw(b, turn, checkDoubleThree) then DrawResult else NoResult)
  {
    for y := 0 to |b|
      invariant forall y', x :: 0 <= y' < y && 0 <= x < Size && b[y'][x] == Empty ==> checkDoubleThree(b, Coord(x, y'), turn)
    {
      for x := 0 to |b[y]|
        invariant forall x' :: 0 <= x' < x && b[y][x'] == Empty ==> checkDoubleThree(b, Coord(x', y), turn)
      {
        if b[y][x] != Empty {
          continue;
        }
        if !checkDoubleThree(b, Coord(x, y), turn) {
          return NoResult;
        }
      }
    }
    return DrawResult;
  }
}
