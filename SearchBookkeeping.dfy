// The bookkeeping helpers of the alpha-beta search (minimax/src/gomoku/search/Minimax.cpp):
// the neighbour and candidate row masks, the double-three filter, the best-move and window
// update, the transposition-table flag rules, the killer-move table and the move-ordering
// comparators. The search recursion itself is not part of this model.

module SearchBookkeeping {
  import opened Packing
  import opened Bitboard

  // ---------------------------------------------------------------------------
  // Row masks
  // ---------------------------------------------------------------------------

  /** `rowMask = (1 << BOARD_SIZE) - 1`: the 19 low bits, one per column. */
  function RowMask(): (m: Bits)
    ensures IsRow(m) && forall i :: 0 <= i < RowWidth ==> m[i] == (i < BoardSize)
  {
    seq(RowWidth, i => i < BoardSize)
  }

  /** A row mask with no bit at or beyond column 19. */
  predicate OnBoard(w: Bits)
    requires IsRow(w)
  {
    forall i :: BoardSize <= i < RowWidth ==> !w[i]
  }

  /** `row << 1`: bit i takes bit i - 1, bit 0 becomes 0, bit 63 is shifted out. */
  function ShiftLeft(w: Bits): (r: Bits)
    requires IsRow(w)
    ensures IsRow(r) && forall i :: 0 <= i < RowWidth ==> r[i] == (i >= 1 && w[i - 1])
  {
    seq(RowWidth, i requires 0 <= i < RowWidth => i >= 1 && w[i - 1])
  }

  /** `row >> 1` (unsigned): bit i takes bit i + 1, bit 63 becomes 0. */
  function ShiftRight(w: Bits): (r: Bits)
    requires IsRow(w)
    ensures IsRow(r) && forall i :: 0 <= i < RowWidth ==> r[i] == (i + 1 < RowWidth && w[i + 1])
  {
    seq(RowWidth, i requires 0 <= i < RowWidth => i + 1 < RowWidth && w[i + 1])
  }

  /** `shiftRowLeft`: the left shift cut back to the board's 19 columns. */
  function ShiftRowLeft(w: Bits): (r: Bits)
    requires IsRow(w)
    ensures IsRow(r) && OnBoard(r)
    ensures forall i :: 0 <= i < RowWidth ==> r[i] == (1 <= i < BoardSize && w[i - 1])
  {
    And(ShiftLeft(w), RowMask())
  }

  /** `shiftRowRight`: the plain right shift; a row on the board stays on the board. */
  function ShiftRowRight(w: Bits): (r: Bits)
    requires IsRow(w)
    ensures IsRow(r) && (OnBoard(w) ==> OnBoard(r))
    ensures forall i :: 0 <= i < RowWidth ==> r[i] == (i + 1 < RowWidth && w[i + 1])
  {
    ShiftRight(w)
  }

  /** Nineteen row masks of 64 bits each. */
  predicate IsRows(rows: seq<Bits>) {
    |rows| == BoardSize && forall i :: 0 <= i < BoardSize ==> IsRow(rows[i])
  }

  /** Bit c of `shiftRowLeft(w)`. */
  predicate LeftBit(w: Bits, c: int)
    requires IsRow(w) && 0 <= c < RowWidth
  {
    1 <= c < BoardSize && w[c - 1]
  }

  /** Bit c of `shiftRowRight(w)`. */
  predicate RightBit(w: Bits, c: int)
    requires IsRow(w) && 0 <= c < RowWidth
  {
    c + 1 < RowWidth && w[c + 1]
  }

  /**
   * Bit c of neighbour row i as `computeNeighborMask` assembles it: the horizontal part (row i
   * and its two shifts), the vertical part (rows i - 1 and i + 1, where they exist) and the
   * diagonal part (the shifts of those rows).
   */
  predicate NeighborBit(occupancy: seq<Bits>, i: int, c: int)
    requires IsRows(occupancy) && 0 <= i < BoardSize && 0 <= c < RowWidth
  {
    var row := occupancy[i];
    var horz := LeftBit(row, c) || RightBit(row, c) || row[c];
    var vert := (i > 0 && occupancy[i - 1][c]) || (i < BoardSize - 1 && occupancy[i + 1][c]);
    var diag := (i > 0 && (LeftBit(occupancy[i - 1], c) || RightBit(occupancy[i - 1], c))) ||
                (i < BoardSize - 1 && (LeftBit(occupancy[i + 1], c) || RightBit(occupancy[i + 1], c)));
    horz || vert || diag
  }

  /** Row i of the neighbour mask. */
  function NeighborRow(occupancy: seq<Bits>, i: int): (r: Bits)
    requires IsRows(occupancy) && 0 <= i < BoardSize
    ensures IsRow(r)
  {
    seq(RowWidth, c requires 0 <= c < RowWidth => NeighborBit(occupancy, i, c))
  }

  /** Some occupied cell lies in the 3x3 block around (c, i), clipped to the board. */
  predicate NearStone(occupancy: seq<Bits>, i: int, c: int)
    requires IsRows(occupancy)
  {
    exists r, cc :: i - 1 <= r <= i + 1 && c - 1 <= cc <= c + 1 &&
      0 <= r < BoardSize && 0 <= cc < BoardSize && occupancy[r][cc]
  }

  /** Column c is on the board and one of columns c - 1, c, c + 1 of row w is set. */
  predicate Spread(w: Bits, c: int)
    requires IsRow(w)
  {
    0 <= c < BoardSize && ((c >= 1 && w[c - 1]) || w[c] || (c + 1 < BoardSize && w[c + 1]))
  }

  /** For a row on the board, the row with both its shifts sets exactly the spread columns. */
  lemma HorizontalSpread(w: Bits, c: int)
    requires IsRow(w) && OnBoard(w) && 0 <= c < RowWidth
    ensures (LeftBit(w, c) || RightBit(w, c) || w[c]) == Spread(w, c)
  {
  }

  /** Neighbour row i sets column c when row i or a row next to it spreads to c. */
  lemma NeighborRowSpread(occupancy: seq<Bits>, i: int, c: int)
    requires IsRows(occupancy) && 0 <= i < BoardSize
    requires forall r :: 0 <= r < BoardSize ==> OnBoard(occupancy[r])
    requires 0 <= c < RowWidth
    ensures NeighborRow(occupancy, i)[c] ==
      (Spread(occupancy[i], c) || (i > 0 && Spread(occupancy[i - 1], c)) ||
       (i < BoardSize - 1 && Spread(occupancy[i + 1], c)))
  {
    HorizontalSpread(occupancy[i], c);
    if i > 0 {
      HorizontalSpread(occupancy[i - 1], c);
    }
    if i < BoardSize - 1 {
      HorizontalSpread(occupancy[i + 1], c);
    }
  }

  /** The 3x3 block around (c, i) holds a stone when one of its rows spreads to c. */
  lemma NearStoneSpread(occupancy: seq<Bits>, i: int, c: int)
    requires IsRows(occupancy) && 0 <= i < BoardSize && 0 <= c < BoardSize
    ensures NearStone(occupancy, i, c) ==
      (Spread(occupancy[i], c) || (i > 0 && Spread(occupancy[i - 1], c)) ||
       (i < BoardSize - 1 && Spread(occupancy[i + 1], c)))
  {
    if NearStone(occupancy, i, c) {
      var r, cc :| i - 1 <= r <= i + 1 && c - 1 <= cc <= c + 1 &&
                   0 <= r < BoardSize && 0 <= cc < BoardSize && occupancy[r][cc];
      assert Spread(occupancy[r], c);
    }
    if Spread(occupancy[i], c) {
      var cc :| c - 1 <= cc <= c + 1 && 0 <= cc < BoardSize && occupancy[i][cc];
      assert NearStone(occupancy, i, c);
    }
    if i > 0 && Spread(occupancy[i - 1], c) {
      var cc :| c - 1 <= cc <= c + 1 && 0 <= cc < BoardSize && occupancy[i - 1][cc];
      assert NearStone(occupancy, i, c);
    }
    if i < BoardSize - 1 && Spread(occupancy[i + 1], c) {
      var cc :| c - 1 <= cc <= c + 1 && 0 <= cc < BoardSize && occupancy[i + 1][cc];
      assert NearStone(occupancy, i, c);
    }
  }

  /**
   * Bit c of neighbour row i is set exactly when an occupied cell lies within one row and one
   * column of (c, i) on the board; in particular no bit beyond column 18 is set.
   */
  lemma NeighborRowMeaning(occupancy: seq<Bits>, i: int, c: int)
    requires IsRows(occupancy) && 0 <= i < BoardSize
    requires forall r :: 0 <= r < BoardSize ==> OnBoard(occupancy[r])
    requires 0 <= c < RowWidth
    ensures NeighborRow(occupancy, i)[c] <==> c < BoardSize && NearStone(occupancy, i, c)
  {
    NeighborRowSpread(occupancy, i, c);
    if c < BoardSize {
      NearStoneSpread(occupancy, i, c);
    }
  }

  /**
   * `computeNeighborMask`: fills neighbour row i from occupancy rows i - 1, i and i + 1; see
   * NeighborRowMeaning for what each bit means.
   */
  method ComputeNeighborMask(occupancy: array<Bits>, neighbor: array<Bits>)
    requires occupancy.Length == BoardSize && neighbor.Length == BoardSize
    requires occupancy != neighbor
    requires IsRows(occupancy[..])
    modifies neighbor
    ensures forall i :: 0 <= i < BoardSize ==> neighbor[i] == NeighborRow(occupancy[..], i)
  {
    ghost var occ := occupancy[..];
    for i := 0 to BoardSize
      invariant occupancy[..] == occ
      invariant forall k :: 0 <= k < i ==> neighbor[k] == NeighborRow(occ, k)
    {
      var row := NeighborOf(occupancy, i);
      neighbor[i] := row;
    }
  }

  /** One step of `computeNeighborMask`: row i's horizontal, vertical and diagonal parts. */
  method NeighborOf(occupancy: array<Bits>, i: int) returns (row: Bits)
    requires occupancy.Length == BoardSize && IsRows(occupancy[..]) && 0 <= i < BoardSize
    ensures row == NeighborRow(occupancy[..], i)
  {
    var cur := occupancy[i];
    var horz := Or(Or(ShiftRowLeft(cur), ShiftRowRight(cur)), cur);
    var vert := Zero();
    if i > 0 {
      vert := Or(vert, occupancy[i - 1]);
    }
    if i < BoardSize - 1 {
      vert := Or(vert, occupancy[i + 1]);
    }
    var diag := Zero();
    if i > 0 {
      diag := Or(diag, ShiftRowLeft(occupancy[i - 1]));
      diag := Or(diag, ShiftRowRight(occupancy[i - 1]));
    }
    if i < BoardSize - 1 {
      diag := Or(diag, ShiftRowLeft(occupancy[i + 1]));
      diag := Or(diag, ShiftRowRight(occupancy[i + 1]));
    }
    row := Or(Or(horz, vert), diag);
    assert forall c :: 0 <= c < RowWidth ==> row[c] == NeighborRow(occupancy[..], i)[c];
  }

  /**
   * `computeCandidateMask`: the columns on the board whose cell is empty and whose neighbour
   * bit is set.
   */
  function ComputeCandidateMask(occupancyRow: Bits, neighborRow: Bits): (r: Bits)
    requires IsRow(occupancyRow) && IsRow(neighborRow)
    ensures IsRow(r) && OnBoard(r)
    ensures forall c :: 0 <= c < RowWidth ==>
      (r[c] <==> c < BoardSize && neighborRow[c] && !occupancyRow[c])
  {
    And(And(neighborRow, Not(occupancyRow)), RowMask())
  }

  /**
   * The candidate cells of row i are exactly the empty cells of the board with an occupied
   * cell among their eight neighbours.
   */
  lemma CandidatesAreEmptyNeighbours(occupancy: seq<Bits>, i: int, c: int)
    requires IsRows(occupancy) && 0 <= i < BoardSize
    requires forall r :: 0 <= r < BoardSize ==> OnBoard(occupancy[r])
    requires 0 <= c < RowWidth
    ensures ComputeCandidateMask(occupancy[i], NeighborRow(occupancy, i))[c] <==>
      c < BoardSize && !occupancy[i][c] &&
      exists r, cc :: i - 1 <= r <= i + 1 && c - 1 <= cc <= c + 1 && (r, cc) != (i, c) &&
        0 <= r < BoardSize && 0 <= cc < BoardSize && occupancy[r][cc]
  {
    NeighborRowMeaning(occupancy, i, c);
  }

  // ---------------------------------------------------------------------------
  // Move filter
  // ---------------------------------------------------------------------------

  /**
   * `shouldIncludeMove`: `isDoubleThree` and `captures` are what the rule checks
   * `detectDoublethree` and `detectCaptureStonesNotStore` answer for the cell. With the
   * restriction off every cell is kept; with it on a double-three cell is kept only when it
   * captures.
   */
  function ShouldIncludeMove(enableDoubleThreeRestriction: bool, isDoubleThree: bool, captures: bool): (keep: bool)
    ensures !enableDoubleThreeRestriction ==> keep
    ensures enableDoubleThreeRestriction && isDoubleThree ==> (keep <==> captures)
    ensures !isDoubleThree ==> keep
  {
    if !enableDoubleThreeRestriction then true
    else if !isDoubleThree then true
    else captures
  }

  // ---------------------------------------------------------------------------
  // Best move and alpha-beta window
  // ---------------------------------------------------------------------------

  type Move = (int, int)

  /** `kInvalidMove`. */
  const InvalidMove: Move := (-1, -1)

  /** `std::numeric_limits<int>` bounds of a 32-bit int. */
  const IntMin: int := -0x8000_0000
  const IntMax: int := 0x7fff_ffff

  /** A value a C++ `int` can hold. */
  predicate IsInt32(x: int) {
    IntMin <= x <= IntMax
  }

  function Max(a: int, b: int): int { if a >= b then a else b }
  function Min(a: int, b: int): int { if a <= b then a else b }

  /** `initialExtreme`: the worst value for the side to move, so any first eval improves on it. */
  function InitialExtreme(isMaximizing: bool): (e: int)
    ensures isMaximizing ==> forall eval :: IsInt32(eval) ==> eval >= e
    ensures !isMaximizing ==> forall eval :: IsInt32(eval) ==> eval <= e
  {
    if isMaximizing then IntMin else IntMax
  }

  /**
   * `updateBestAndBounds`: the maximising side takes a strictly greater eval as its new best
   * and raises alpha to it; the minimising side takes a strictly smaller eval and lowers beta.
   * The other bound is untouched, so the window only ever shrinks.
   */
  method UpdateBestAndBounds(isMaximizing: bool, eval: int, mv: Move,
                             bestEval: int, bestMove: Move, alpha: int, beta: int)
    returns (bestEval': int, bestMove': Move, alpha': int, beta': int)
    ensures isMaximizing ==>
      (if eval > bestEval then bestEval' == eval && bestMove' == mv
       else bestEval' == bestEval && bestMove' == bestMove) &&
      alpha' == Max(alpha, eval) && beta' == beta
    ensures !isMaximizing ==>
      (if eval < bestEval then bestEval' == eval && bestMove' == mv
       else bestEval' == bestEval && bestMove' == bestMove) &&
      beta' == Min(beta, eval) && alpha' == alpha
    ensures alpha <= alpha' && beta' <= beta
    ensures isMaximizing ==> bestEval' >= bestEval && bestEval' >= eval
    ensures !isMaximizing ==> bestEval' <= bestEval && bestEval' <= eval
  {
    bestEval', bestMove', alpha', beta' := bestEval, bestMove, alpha, beta;
    if isMaximizing {
      if eval > bestEval {
        bestEval' := eval;
        bestMove' := mv;
      }
      alpha' := Max(alpha, eval);
    } else {
      if eval < bestEval {
        bestEval' := eval;
        bestMove' := mv;
      }
      beta' := Min(beta, eval);
    }
  }

  /**
   * The best (eval, move) the maximising side holds after updating with each of `evals` in
   * turn, starting from (bestEval, bestMove).
   */
  function BestAfter(evals: seq<int>, moves: seq<Move>, bestEval: int, bestMove: Move): (int, Move)
    requires |evals| == |moves|
    decreases |evals|
  {
    if evals == [] then (bestEval, bestMove)
    else if evals[0] > bestEval then BestAfter(evals[1..], moves[1..], evals[0], moves[0])
    else BestAfter(evals[1..], moves[1..], bestEval, bestMove)
  }

  /**
   * Over a whole move list the maximising side ends with the largest eval, and with the FIRST
   * move that reaches it (a later equal eval does not replace it); if no eval beats the
   * starting value, the starting move is kept.
   */
  lemma {:induction false} BestAfterIsFirstMaximum(evals: seq<int>, moves: seq<Move>, bestEval: int, bestMove: Move)
    requires |evals| == |moves|
    ensures var (e, m) := BestAfter(evals, moves, bestEval, bestMove);
      e >= bestEval && (forall k :: 0 <= k < |evals| ==> evals[k] <= e) &&
      ((e == bestEval && m == bestMove && forall k :: 0 <= k < |evals| ==> evals[k] <= bestEval) ||
       (exists j :: 0 <= j < |evals| && e == evals[j] && m == moves[j] && e > bestEval &&
          forall k :: 0 <= k < j ==> evals[k] < e))
    decreases |evals|
  {
    if evals != [] {
      var start := if evals[0] > bestEval then (evals[0], moves[0]) else (bestEval, bestMove);
      BestAfterIsFirstMaximum(evals[1..], moves[1..], start.0, start.1);
      var (e, m) := BestAfter(evals, moves, bestEval, bestMove);
      assert (e, m) == BestAfter(evals[1..], moves[1..], start.0, start.1);
      assert forall k :: 1 <= k < |evals| ==> evals[k] == evals[1..][k - 1];
      if e == start.0 && m == start.1 && forall k :: 0 <= k < |evals| - 1 ==> evals[1..][k] <= start.0 {
        if evals[0] > bestEval {
          assert e == evals[0] && m == moves[0];
        }
      } else {
        var j :| 0 <= j < |evals| - 1 && e == evals[1..][j] && m == moves[1..][j] && e > start.0 &&
                 forall k :: 0 <= k < j ==> evals[1..][k] < e;
        assert e == evals[j + 1] && m == moves[j + 1];
        assert forall k :: 0 <= k < j + 1 ==> evals[k] < e;
      }
    }
  }

  // ---------------------------------------------------------------------------
  // Transposition table
  // ---------------------------------------------------------------------------

  /** `BoundType`. */
  datatype BoundType = Exact | LowerBound | UpperBound

  /** `TTEntry`: a stored score, the depth it was searched to, the best move and its bound. */
  datatype TTEntry = TTEntry(score: int, depth: int, bestMove: Move, flag: BoundType)

  /** `TTEntry()`: score 0, depth -1, no move, exact. */
  const DefaultEntry: TTEntry := TTEntry(0, -1, InvalidMove, Exact)

  /**
   * The flag `storeTT` gives a score found with the window (alpha0, beta): at most alpha0 is an
   * upper bound, otherwise at least beta is a lower bound, and strictly inside is exact.
   */
  function FlagFor(score: int, alpha0: int, beta: int): (flag: BoundType)
    ensures flag == UpperBound <==> score <= alpha0
    ensures flag == LowerBound <==> alpha0 < score && beta <= score
    ensures flag == Exact <==> alpha0 < score < beta
  {
    if score <= alpha0 then UpperBound
    else if score >= beta then LowerBound
    else Exact
  }

  /**
   * What `probeTT` makes of a stored entry: a hit with the stored score when it is exact, and
   * otherwise the window narrowed by the bound, a hit when it closes.
   */
  datatype Probe = Probe(hit: bool, alpha: int, beta: int)

  function Narrow(e: TTEntry, alpha: int, beta: int): Probe
  {
    if e.flag == Exact then Probe(true, alpha, beta)
    else if e.flag == LowerBound then Probe(Max(alpha, e.score) >= beta, Max(alpha, e.score), beta)
    else Probe(alpha >= Min(beta, e.score), alpha, Min(beta, e.score))
  }

  /**
   * An entry stored after a search with window (alpha0, beta), probed again with that window,
   * always ends the search: the bound it records closes the window it came from.
   */
  lemma StoredEntryCuts(score: int, depth: int, mv: Move, alpha0: int, beta: int)
    requires alpha0 < beta
    ensures Narrow(TTEntry(score, depth, mv, FlagFor(score, alpha0, beta)), alpha0, beta).hit
  {
  }

  /**
   * A bound entry only narrows the window: alpha never falls and beta never rises, and the
   * stored score lies outside the narrowed window exactly when the probe hits.
   */
  lemma NarrowShrinks(e: TTEntry, alpha: int, beta: int)
    requires e.flag != Exact
    ensures var p := Narrow(e, alpha, beta);
      alpha <= p.alpha && p.beta <= beta && (p.hit <==> p.alpha >= p.beta)
  {
  }

  /** The killer slots of one depth, `killerMoves[depth][0]` and `killerMoves[depth][1]`. */
  datatype KillerSlots = KillerSlots(first: Move, second: Move)

  /** `MAX_DEPTH`. */
  const MaxDepth: int := 10

  /**
   * The search's shared tables: `transTable`, keyed by Zobrist hash, and `killerMoves`, two
   * slots for each depth 0..MAX_DEPTH.
   */
  class SearchTables {
    var transTable: map<int, TTEntry>
    const killerMoves: array<KillerSlots>

    ghost predicate Valid()
      reads this
    {
      killerMoves.Length == MaxDepth + 1
    }

    /**
     * Empty tables. Static storage starts zeroed, so every killer slot holds (0, 0) until
     * `initKillerMoves` runs.
     */
    constructor ()
      ensures Valid() && transTable == map[] && fresh(killerMoves)
      ensures forall d :: 0 <= d <= MaxDepth ==> killerMoves[d] == KillerSlots((0, 0), (0, 0))
    {
      transTable := map[];
      killerMoves := new KillerSlots[MaxDepth + 1](_ => KillerSlots((0, 0), (0, 0)));
    }

    /**
     * `probeTT`: `hash` is the board's Zobrist hash. A miss answers false and changes nothing.
     * Otherwise bestMove takes the entry's move; a shallower entry then answers false; a deep
     * enough entry sets scoreOut to its score and answers true when exact, and otherwise
     * narrows the window by its bound and answers whether the window closed.
     */
    method ProbeTT(hash: int, depth: int, alpha: int, beta: int, bestMove: Move, scoreOut: int)
      returns (hit: bool, alpha': int, beta': int, bestMove': Move, scoreOut': int)
      ensures hash !in transTable ==>
        !hit && alpha' == alpha && beta' == beta && bestMove' == bestMove && scoreOut' == scoreOut
      ensures hash in transTable && transTable[hash].depth < depth ==>
        !hit && alpha' == alpha && beta' == beta && bestMove' == transTable[hash].bestMove &&
        scoreOut' == scoreOut
      ensures hash in transTable && transTable[hash].depth >= depth ==>
        var e := transTable[hash];
        bestMove' == e.bestMove && scoreOut' == e.score &&
        Probe(hit, alpha', beta') == Narrow(e, alpha, beta)
      ensures hit ==> hash in transTable && transTable[hash].depth >= depth
    {
      hit, alpha', beta', bestMove', scoreOut' := false, alpha, beta, bestMove, scoreOut;
      if hash !in transTable {
        return;
      }
      var e := transTable[hash];
      bestMove' := e.bestMove;
      if e.depth < depth {
        return;
      }
      scoreOut' := e.score;
      if e.flag == Exact {
        hit := true;
        return;
      }
      if e.flag == LowerBound {
        alpha' := Max(alpha', scoreOut');
      } else {
        beta' := Min(beta', scoreOut');
      }
      hit := alpha' >= beta';
    }

    /**
     * `storeTT`: the entry for `hash` becomes (score, depth, mv) with the flag the window
     * (alpha0, beta) gives; every other entry is kept.
     */
    method StoreTT(hash: int, depth: int, mv: Move, score: int, alpha0: int, beta: int)
      modifies this`transTable
      ensures transTable == old(transTable)[hash := TTEntry(score, depth, mv, FlagFor(score, alpha0, beta))]
    {
      var flag := Exact;
      if score <= alpha0 {
        flag := UpperBound;
      } else if score >= beta {
        flag := LowerBound;
      }
      transTable := transTable[hash := TTEntry(score, depth, mv, flag)];
    }

    /** `isKillerMove`: `move` sits in one of the two slots of `depth`. */
    predicate IsKillerMove(depth: int, move: Move)
      reads this, killerMoves
      requires Valid() && 0 <= depth <= MaxDepth
    {
      killerMoves[depth].first == move || killerMoves[depth].second == move
    }

    /**
     * `initKillerMoves`: both slots of depths 0..MAX_DEPTH-1 become kInvalidMove; the slots
     * of depth MAX_DEPTH itself are not touched.
     */
    method InitKillerMoves()
      requires Valid()
      modifies killerMoves
      ensures forall d :: 0 <= d < MaxDepth ==> killerMoves[d] == KillerSlots(InvalidMove, InvalidMove)
      ensures killerMoves[MaxDepth] == old(killerMoves[MaxDepth])
    {
      for d := 0 to MaxDepth
        invariant forall k :: 0 <= k < d ==> killerMoves[k] == KillerSlots(InvalidMove, InvalidMove)
        invariant killerMoves[MaxDepth] == old(killerMoves[MaxDepth])
      {
        killerMoves[d] := KillerSlots(InvalidMove, InvalidMove);
      }
    }

    /**
     * The killer update on a cutoff: a move already in either slot of `depth` leaves the table
     * as it is; a new one moves slot 0 into slot 1 and takes slot 0. Afterwards the move is a
     * killer of that depth, and two different slots stay different.
     */
    method RecordKiller(depth: int, mv: Move)
      requires Valid() && 0 <= depth <= MaxDepth
      modifies killerMoves
      ensures old(IsKillerMove(depth, mv)) ==> killerMoves[depth] == old(killerMoves[depth])
      ensures !old(IsKillerMove(depth, mv)) ==>
        killerMoves[depth] == KillerSlots(mv, old(killerMoves[depth].first))
      ensures forall d :: 0 <= d <= MaxDepth && d != depth ==> killerMoves[d] == old(killerMoves[d])
      ensures IsKillerMove(depth, mv)
      ensures old(killerMoves[depth].first != killerMoves[depth].second) ==>
        killerMoves[depth].first != killerMoves[depth].second
    {
      if killerMoves[depth].first != mv && killerMoves[depth].second != mv {
        killerMoves[depth] := KillerSlots(mv, killerMoves[depth].first);
      }
    }
  }

  // ---------------------------------------------------------------------------
  // Move ordering
  // ---------------------------------------------------------------------------

  /** `ScoredMove`: a candidate with its static score and whether it is a killer move. */
  datatype ScoredMove = ScoredMove(move: Move, score: int, isKiller: bool)

  /** `CompareScoredMovesMax`: killers first, then higher score first. */
  predicate CompareMax(a: ScoredMove, b: ScoredMove) {
    if a.isKiller && !b.isKiller then true
    else if !a.isKiller && b.isKiller then false
    else a.score > b.score
  }

  /** `CompareScoredMovesMin`: killers first, then lower score first. */
  predicate CompareMin(a: ScoredMove, b: ScoredMove) {
    if a.isKiller && !b.isKiller then true
    else if !a.isKiller && b.isKiller then false
    else a.score < b.score
  }

  /**
   * For both comparators a killer precedes a non-killer; within one killer status the Max
   * order is by descending score and the Min order by ascending score.
   */
  lemma ComparatorsOrder(a: ScoredMove, b: ScoredMove)
    ensures a.isKiller && !b.isKiller ==> CompareMax(a, b) && CompareMin(a, b)
    ensures !a.isKiller && b.isKiller ==> !CompareMax(a, b) && !CompareMin(a, b)
    ensures a.isKiller == b.isKiller ==>
      (CompareMax(a, b) <==> a.score > b.score) && (CompareMin(a, b) <==> a.score < b.score)
  {
  }

  /**
   * Both comparators are strict weak orders, as `std::sort` requires: irreflexive, transitive,
   * and with transitive incomparability (moves of one killer status and one score tie).
   */
  lemma ComparatorsAreStrictWeakOrders(a: ScoredMove, b: ScoredMove, c: ScoredMove)
    ensures !CompareMax(a, a) && !CompareMin(a, a)
    ensures CompareMax(a, b) && CompareMax(b, c) ==> CompareMax(a, c)
    ensures CompareMin(a, b) && CompareMin(b, c) ==> CompareMin(a, c)
    ensures !CompareMax(a, b) && !CompareMax(b, a) ==> a.isKiller == b.isKiller && a.score == b.score
    ensures !CompareMin(a, b) && !CompareMin(b, a) ==> a.isKiller == b.isKiller && a.score == b.score
  {
  }
}
