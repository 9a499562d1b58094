/**
 * The front end's game store (`useGameStore` in front/stores/game.store.ts): the live board,
 * the list of played moves, the replay board and replay index of history mode, whose turn
 * it is, and whether the game is over.
 *
 * Boards are values (`seq<seq<Stone>>`) that the store's methods reassign cell by cell;
 * the rule helpers the store calls (`getCapturedStones`, `checkDoubleThree`) are parameters.
 * Alerts, sounds, local storage and `nextTick` are not modelled.
 */
module GameStore {
  import opened Wrappers
  import opened Geometry
  import opened EndLogic

  datatype FirstMove = Player1 | Player2

  /** The user-editable settings; numbers are JavaScript numbers, hence `real`. */
  datatype Settings = Settings(
    enableCapture: bool,
    enableDoubleThreeRestriction: bool,
    totalPairCaptured: real,
    firstMove: FirstMove,
    advantage1: real,
    advantage2: real,
    isPlayer2AI: bool,
    isDebugTurnLocked: bool,
    difficulty: string,
    ai: string)

  const DefaultSettings: Settings :=
    Settings(true, true, 5.0, Player1, 0.0, 0.0, true, true, "hard", "minimax")

  /** A played move: the cell, the stone placed, and the stones it captured with their colours. */
  datatype History = History(coordinate: Coord, stone: Stone, capturedStones: seq<BoardStone>)

  // ---------------------------------------------------------------------------
  // Board edits
  // ---------------------------------------------------------------------------

  /** `initialBoard`: 19 rows of 19 empty cells. */
  function InitialBoard(): (b: Board)
    ensures WellFormed(b)
    ensures forall q :: InBounds(q) ==> At(b, q) == Empty
  {
    seq(Size, _ => seq(Size, _ => Empty))
  }

  /** One cell assignment `boardData[y][x].stone = s`: that cell changes and no other. */
  function SetCell(b: Board, p: Coord, s: Stone): (r: Board)
    requires WellFormed(b) && InBounds(p)
    ensures WellFormed(r)
    ensures forall q :: InBounds(q) ==> At(r, q) == if q == p then s else At(b, q)
  {
    b[p.y := b[p.y][p.x := s]]
  }

  predicate CellsInBounds(cells: seq<BoardStone>) {
    forall i :: 0 <= i < |cells| ==> InBounds(cells[i].Pos())
  }

  predicate HistoryInBounds(h: History) {
    InBounds(h.coordinate) && CellsInBounds(h.capturedStones)
  }

  function Positions(cells: seq<BoardStone>): set<Coord>
    decreases |cells|
  {
    if cells == [] then {} else Positions(cells[..|cells| - 1]) + {cells[|cells| - 1].Pos()}
  }

  /** The `forEach` that writes each listed cell's recorded stone back, in list order. */
  function Restore(b: Board, cells: seq<BoardStone>): (r: Board)
    requires WellFormed(b) && CellsInBounds(cells)
    ensures WellFormed(r)
    decreases |cells|
  {
    if cells == [] then b
    else
      var c := cells[|cells| - 1];
      SetCell(Restore(b, cells[..|cells| - 1]), c.Pos(), c.stone)
  }

  /** The `forEach` that sets each listed cell to ".". */
  function Clear(b: Board, cells: seq<BoardStone>): (r: Board)
    requires WellFormed(b) && CellsInBounds(cells)
    ensures WellFormed(r)
    decreases |cells|
  {
    if cells == [] then b
    else SetCell(Clear(b, cells[..|cells| - 1]), cells[|cells| - 1].Pos(), Empty)
  }

  /** Clearing empties exactly the listed cells. */
  lemma {:induction false} ClearCells(b: Board, cells: seq<BoardStone>)
    requires WellFormed(b) && CellsInBounds(cells)
    ensures forall q :: InBounds(q) ==>
      At(Clear(b, cells), q) == if q in Positions(cells) then Empty else At(b, q)
    decreases |cells|
  {
    if cells != [] {
      ClearCells(b, cells[..|cells| - 1]);
    }
  }

  /**
   * Restoring stones that were recorded from board `from` gives every listed cell its stone
   * on `from` and leaves the other cells alone.
   */
  lemma {:induction false} RestoreCells(b: Board, cells: seq<BoardStone>, from: Board)
    requires WellFormed(b) && WellFormed(from) && CellsInBounds(cells)
    ensures forall q :: InBounds(q) && q !in Positions(cells) ==> At(Restore(b, cells), q) == At(b, q)
    ensures (forall i :: 0 <= i < |cells| ==> cells[i].stone == At(from, cells[i].Pos())) ==>
      forall q :: InBounds(q) && q in Positions(cells) ==> At(Restore(b, cells), q) == At(from, q)
    decreases |cells|
  {
    if cells != [] {
      RestoreCells(b, cells[..|cells| - 1], from);
    }
  }

  /** Two boards with the same cells are the same board. */
  lemma SameCells(a: Board, b: Board)
    requires WellFormed(a) && WellFormed(b)
    requires forall q :: InBounds(q) ==> At(a, q) == At(b, q)
    ensures a == b
  {
    forall y | 0 <= y < Size
      ensures a[y] == b[y]
    {
      forall x | 0 <= x < Size
        ensures a[y][x] == b[y][x]
      {
        assert At(a, Coord(x, y)) == At(b, Coord(x, y));
      }
    }
  }

  /** `updateBoard`: the stone is placed first, then the captured cells are emptied. */
  function Played(b: Board, h: History): Board
    requires WellFormed(b) && HistoryInBounds(h)
  {
    Clear(SetCell(b, h.coordinate, h.stone), h.capturedStones)
  }

  /** `onNextHistory`'s edit: the captured cells are emptied first, then the stone is placed. */
  function Replayed(b: Board, h: History): Board
    requires WellFormed(b) && HistoryInBounds(h)
  {
    SetCell(Clear(b, h.capturedStones), h.coordinate, h.stone)
  }

  /**
   * The edit shared by `deleteLastHistory`, `deleteLastTurn` and `onPrevHistory`: the captured
   * stones are written back, then the move's cell is emptied.
   */
  function Undone(b: Board, h: History): Board
    requires WellFormed(b) && HistoryInBounds(h)
  {
    SetCell(Restore(b, h.capturedStones), h.coordinate, Empty)
  }

  /** What `updateBoard` does, cell by cell: the move's cell, the captured cells, nothing else. */
  lemma PlayedCells(b: Board, h: History)
    requires WellFormed(b) && HistoryInBounds(h)
    ensures WellFormed(Played(b, h))
    ensures forall q :: InBounds(q) ==>
      At(Played(b, h), q) == (if q in Positions(h.capturedStones) then Empty
                              else if q == h.coordinate then h.stone else At(b, q))
  {
    ClearCells(SetCell(b, h.coordinate, h.stone), h.capturedStones);
  }

  /** Both orders agree when the move does not capture its own cell. */
  lemma PlayedIsReplayed(b: Board, h: History)
    requires WellFormed(b) && HistoryInBounds(h)
    requires h.coordinate !in Positions(h.capturedStones)
    ensures Played(b, h) == Replayed(b, h)
  {
    PlayedCells(b, h);
    ClearCells(b, h.capturedStones);
    SameCells(Played(b, h), Replayed(b, h));
  }

  /** A move records the stones it captures as they were on the board it was played on. */
  ghost predicate RecordsCaptures(b: Board, h: History)
    requires WellFormed(b) && HistoryInBounds(h)
  {
    forall i :: 0 <= i < |h.capturedStones| ==>
      h.capturedStones[i].stone == At(b, h.capturedStones[i].Pos())
  }

  /** Undoing a move played on an empty cell gives back the board it was played on. */
  lemma UndoPlayed(b: Board, h: History)
    requires WellFormed(b) && HistoryInBounds(h)
    requires At(b, h.coordinate) == Empty && RecordsCaptures(b, h)
    ensures Undone(Played(b, h), h) == b
  {
    var p := Played(b, h);
    PlayedCells(b, h);
    RestoreCells(p, h.capturedStones, b);
    SameCells(Undone(p, h), b);
  }

  /** Undoing two moves in reverse order gives back the board before both. */
  lemma UndoTwoMoves(b: Board, first: History, second: History)
    requires WellFormed(b) && HistoryInBounds(first) && HistoryInBounds(second)
    requires At(b, first.coordinate) == Empty && RecordsCaptures(b, first)
    requires WellFormed(Played(b, first))
    requires At(Played(b, first), second.coordinate) == Empty && RecordsCaptures(Played(b, first), second)
    ensures Undone(Undone(Played(Played(b, first), second), second), first) == b
  {
    UndoPlayed(Played(b, first), second);
    UndoPlayed(b, first);
  }

  /** The replay board shows entry h: its stone on its cell and its captured cells empty. */
  ghost predicate Shows(b: Board, h: History)
    requires WellFormed(b) && HistoryInBounds(h)
  {
    At(b, h.coordinate) == h.stone &&
    forall i :: 0 <= i < |h.capturedStones| ==> At(b, h.capturedStones[i].Pos()) == Empty
  }

  /** Stepping back over an entry the board shows and then forward again changes nothing. */
  lemma ReplayUndone(b: Board, h: History)
    requires WellFormed(b) && HistoryInBounds(h)
    requires Shows(b, h)
    ensures Replayed(Undone(b, h), h) == b
  {
    var u := Undone(b, h);
    RestoreCells(b, h.capturedStones, b);
    assert forall q :: InBounds(q) && q != h.coordinate && q !in Positions(h.capturedStones) ==> At(u, q) == At(b, q);
    ClearCells(u, h.capturedStones);
    PositionsShown(b, h.capturedStones);
    SameCells(Replayed(u, h), b);
  }

  /** Every listed position of cells that are all empty on b is empty on b. */
  lemma {:induction false} PositionsShown(b: Board, cells: seq<BoardStone>)
    requires WellFormed(b) && CellsInBounds(cells)
    requires forall i :: 0 <= i < |cells| ==> At(b, cells[i].Pos()) == Empty
    ensures forall q :: q in Positions(cells) ==> InBounds(q) && At(b, q) == Empty
    decreases |cells|
  {
    if cells != [] {
      PositionsShown(b, cells[..|cells| - 1]);
    }
  }

  // ---------------------------------------------------------------------------
  // JavaScript array access
  // ---------------------------------------------------------------------------

  /** `Array.prototype.at`: a negative index counts from the end; out of range is undefined. */
  function AtIndex<T>(s: seq<T>, i: int): Option<T> {
    if 0 <= i < |s| then Some(s[i])
    else if -|s| <= i < 0 then Some(s[|s| + i])
    else None
  }

  /** How `Array.prototype.slice` resolves a bound: negative counts from the end, then clamped. */
  function SliceBound(len: nat, i: int): (r: nat)
    ensures r <= len
  {
    if i < 0 then (if len + i < 0 then 0 else len + i)
    else if i > len then len
    else i
  }

  /** `Array.prototype.slice(start, end)`. */
  function Slice<T>(s: seq<T>, start: int, end: int): seq<T> {
    var a := SliceBound(|s|, start);
    var e := SliceBound(|s|, end);
    if a <= e then s[a..e] else []
  }

  // ---------------------------------------------------------------------------
  // Turns and capture tallies
  // ---------------------------------------------------------------------------

  /** `changeTurn()` without an argument: "X" becomes "O", anything else becomes "X". */
  function Flip(t: Stone): (r: Stone)
    ensures r != Empty
    ensures t != Empty ==> r == Opposite(t)
    ensures t == Empty ==> r == X
  {
    if t == X then O else X
  }

  /** Two flips give a player's stone back; from "." they end on "O". */
  lemma FlipTwice(t: Stone)
    ensures t != Empty ==> Flip(Flip(t)) == t
    ensures t == Empty ==> Flip(Flip(t)) == O
  {
  }

  /** `advantage1` belongs to the first mover's stone, `advantage2` to the other. */
  function Advantage(settings: Settings, stone: Stone): real {
    if settings.firstMove == Player1 then
      (if stone == X then settings.advantage1 else settings.advantage2)
    else
      (if stone == O then settings.advantage1 else settings.advantage2)
  }

  lemma AdvantageOwners(settings: Settings)
    ensures Advantage(settings, if settings.firstMove == Player1 then X else O) == settings.advantage1
    ensures Advantage(settings, if settings.firstMove == Player2 then X else O) == settings.advantage2
  {
  }

  /** The `filter` step: the entries played with `stone`, in order. */
  function MovesOf(hs: seq<History>, stone: Stone): (r: seq<History>)
    ensures forall i :: 0 <= i < |r| ==> r[i].stone == stone
    ensures |r| <= |hs|
    decreases |hs|
  {
    if hs == [] then []
    else
      var h := hs[|hs| - 1];
      MovesOf(hs[..|hs| - 1], stone) + (if h.stone == stone then [h] else [])
  }

  /** One entry's contribution: half its number of captured stones (a pair is two stones). */
  function PairsOf(h: History): real {
    if |h.capturedStones| == 0 then 0.0 else |h.capturedStones| as real / 2.0
  }

  /** The `reduce` step: the sum of every entry's pairs, starting from 0. */
  function SumPairs(hs: seq<History>): (r: real)
    ensures r >= 0.0
    decreases |hs|
  {
    if hs == [] then 0.0 else SumPairs(hs[..|hs| - 1]) + PairsOf(hs[|hs| - 1])
  }

  /** `getPlayerTotalCaptured`. */
  function PlayerTotalCaptured(settings: Settings, hs: seq<History>, stone: Stone): real {
    SumPairs(MovesOf(hs, stone)) + Advantage(settings, stone)
  }

  lemma {:induction false} MovesOfConcat(a: seq<History>, b: seq<History>, stone: Stone)
    ensures MovesOf(a + b, stone) == MovesOf(a, stone) + MovesOf(b, stone)
    decreases |b|
  {
    if b != [] {
      assert (a + b)[..|a + b| - 1] == a + b[..|b| - 1];
      MovesOfConcat(a, b[..|b| - 1], stone);
    } else {
      assert a + b == a;
    }
  }

  lemma {:induction false} SumPairsConcat(a: seq<History>, b: seq<History>)
    ensures SumPairs(a + b) == SumPairs(a) + SumPairs(b)
    decreases |b|
  {
    if b != [] {
      assert (a + b)[..|a + b| - 1] == a + b[..|b| - 1];
      SumPairsConcat(a, b[..|b| - 1]);
    } else {
      assert a + b == a;
    }
  }

  /**
   * The tally over a longer history is the tally over the prefix plus the pairs captured by
   * `stone`'s own later moves; the other colour's moves add nothing.
   */
  lemma TotalCapturedConcat(settings: Settings, hs: seq<History>, more: seq<History>, stone: Stone)
    ensures PlayerTotalCaptured(settings, hs + more, stone) ==
            PlayerTotalCaptured(settings, hs, stone) + SumPairs(MovesOf(more, stone))
  {
    MovesOfConcat(hs, more, stone);
    SumPairsConcat(MovesOf(hs, stone), MovesOf(more, stone));
  }

  /** After one more move, `stone`'s tally grows by that move's pairs if it is `stone`'s. */
  lemma TotalCapturedAfterMove(settings: Settings, hs: seq<History>, h: History, stone: Stone)
    ensures PlayerTotalCaptured(settings, hs + [h], stone) ==
            PlayerTotalCaptured(settings, hs, stone) + (if h.stone == stone then PairsOf(h) else 0.0)
  {
    TotalCapturedConcat(settings, hs, [h], stone);
    assert [h][..0] == [];
  }

  /** The tally never falls below the advantage. */
  lemma TotalCapturedAtLeastAdvantage(settings: Settings, hs: seq<History>, stone: Stone)
    ensures PlayerTotalCaptured(settings, hs, stone) >= Advantage(settings, stone)
  {
  }

  // ---------------------------------------------------------------------------
  // End of game
  // ---------------------------------------------------------------------------

  /** The cell (x, y) holds a stone that has an unbreakable five through it. */
  ghost predicate FiveAt(b: Board, y: int, x: int)
    requires WellFormed(b) && 0 <= y < Size && 0 <= x < Size
  {
    b[y][x] != Empty && HasUnbreakableFive(b, Coord(x, y), b[y][x])
  }

  ghost predicate AnyFive(b: Board)
    requires WellFormed(b)
  {
    exists y, x :: 0 <= y < Size && 0 <= x < Size && FiveAt(b, y, x)
  }

  /** No cell before (x, y) in row-major order has an unbreakable five. */
  ghost predicate NoFiveBefore(b: Board, y: int, x: int)
    requires WellFormed(b)
  {
    forall y', x' :: 0 <= y' < Size && 0 <= x' < Size && (y' < y || (y' == y && x' < x)) ==> !FiveAt(b, y', x')
  }

  /** Some end condition holds: a five, the capture goal, or a draw. */
  ghost predicate Ends(b: Board, captured: Captured, turn: Stone, checkDoubleThree: (Board, Coord, Stone) -> bool)
    requires WellFormed(b)
  {
    AnyFive(b) || IsCaptureEnded(captured) != NoResult || IsDraw(b, turn, checkDoubleThree)
  }

  /**
   * The decision made by `checkGameOver`: the first cell in row-major order with an
   * unbreakable five wins for its stone; failing that the capture goal decides; failing that
   * a draw; otherwise the game goes on.
   */
  method GameEnding(b: Board, captured: Captured, turn: Stone, checkDoubleThree: (Board, Coord, Stone) -> bool)
    returns (r: GameResult)
    requires WellFormed(b)
    ensures r.result == Some(FiveOrMoreStones) <==> AnyFive(b)
    ensures r.result == Some(FiveOrMoreStones) ==>
      exists y, x :: 0 <= y < Size && 0 <= x < Size && FiveAt(b, y, x) && NoFiveBefore(b, y, x) &&
                     r == FiveWin(b[y][x])
    ensures !AnyFive(b) ==>
      r == (if IsCaptureEnded(captured) != NoResult then IsCaptureEnded(captured)
            else if IsDraw(b, turn, checkDoubleThree) then DrawResult
            else NoResult)
    ensures r != NoResult <==> Ends(b, captured, turn, checkDoubleThree)
  {
    for y := 0 to |b|
      invariant NoFiveBefore(b, y, 0)
    {
      for x := 0 to |b[y]|
        invariant NoFiveBefore(b, y, x)
      {
        var stone := b[y][x];
        if stone == Empty {
          continue;
        }
        var perfectFiveEnded := IsPerfectFiveEnded(b, Coord(x, y), stone);
        if perfectFiveEnded.result == Some(FiveOrMoreStones) {
          assert FiveAt(b, y, x);
          return perfectFiveEnded;
        }
      }
    }
    assert !AnyFive(b);
    var captureEnded := IsCaptureEnded(captured);
    if captureEnded.result == Some(PairCaptured) {
      return captureEnded;
    }
    var drawEnded := IsDrawEnded(b, turn, checkDoubleThree);
    if drawEnded.result == Some(Draw) {
      return drawEnded;
    }
    return NoResult;
  }

  // ---------------------------------------------------------------------------
  // The store
  // ---------------------------------------------------------------------------

  /** The captured stones of a move as `addStoneToBoardData` computes them. */
  function CapturesOf(settings: Settings, getCapturedStones: (Board, Coord, Stone) -> seq<BoardStone>,
                      b: Board, p: Coord, stone: Stone): seq<BoardStone>
  {
    if settings.enableCapture then getCapturedStones(b, p, stone) else []
  }

  /** `checkDoubleThreeBeforeAddStone`: the restriction only applies when it is enabled. */
  function DoubleThreeForbids(settings: Settings, checkDoubleThree: (Board, Coord, Stone) -> bool,
                              b: Board, p: Coord, stone: Stone): (r: bool)
    ensures r ==> settings.enableDoubleThreeRestriction
  {
    if !settings.enableDoubleThreeRestriction then false else checkDoubleThree(b, p, stone)
  }

  class Store {
    var settings: Settings
    var turn: Stone
    var histories: seq<History>
    var currentHistoryIndex: int
    var gameOver: bool
    var historyMode: bool
    var isAiThinking: bool
    var boardData: Board
    var readOnlyBoardData: Board

    ghost predicate Valid()
      reads this
    {
      WellFormed(boardData) && WellFormed(readOnlyBoardData) &&
      forall i :: 0 <= i < |histories| ==> HistoryInBounds(histories[i])
    }

    /** The store as first created: default settings, "X" to play, empty boards and history. */
    constructor ()
      ensures Valid()
      ensures settings == DefaultSettings && turn == X && histories == []
      ensures currentHistoryIndex == 0 && !gameOver && !historyMode && !isAiThinking
      ensures boardData == InitialBoard() && readOnlyBoardData == InitialBoard()
    {
      settings := DefaultSettings;
      turn := X;
      histories := [];
      currentHistoryIndex := 0;
      gameOver := false;
      historyMode := false;
      isAiThinking := false;
      boardData := InitialBoard();
      readOnlyBoardData := InitialBoard();
    }

    /** `readOnlyHistories`: the entries up to and including the replay index. */
    function ReadOnlyHistories(): seq<History>
      reads this`histories, this`currentHistoryIndex
    {
      Slice(histories, 0, currentHistoryIndex + 1)
    }

    /** `_histories`: the replayed prefix in history mode, the whole history otherwise. */
    function ActiveHistories(): seq<History>
      reads this`historyMode, this`histories, this`currentHistoryIndex
    {
      if historyMode then ReadOnlyHistories() else histories
    }

    function Player1TotalCaptured(): real
      reads this`settings, this`historyMode, this`histories, this`currentHistoryIndex
    {
      PlayerTotalCaptured(settings, ActiveHistories(), if settings.firstMove == Player1 then X else O)
    }

    function Player2TotalCaptured(): real
      reads this`settings, this`historyMode, this`histories, this`currentHistoryIndex
    {
      PlayerTotalCaptured(settings, ActiveHistories(), if settings.firstMove == Player2 then X else O)
    }

    /**
     * Assigning `historyMode`. The watch on it runs only when the value changes, and then
     * entering history mode replays from the end of the live game.
     */
    method SetHistoryMode(on: bool)
      requires Valid()
      modifies this`historyMode, this`currentHistoryIndex, this`readOnlyBoardData
      ensures Valid()
      ensures historyMode == on
      ensures on && !old(historyMode) ==> currentHistoryIndex == |histories| - 1 && readOnlyBoardData == boardData
      ensures on && !old(historyMode) ==> ReadOnlyHistories() == histories
      ensures !on || old(historyMode) ==>
        currentHistoryIndex == old(currentHistoryIndex) && readOnlyBoardData == old(readOnlyBoardData)
    {
      var entering := on && !historyMode;
      historyMode := on;
      if entering {
        currentHistoryIndex := |histories| - 1;
        readOnlyBoardData := boardData;
      }
    }

    /** `initGame`. */
    method InitGame()
      requires Valid()
      modifies this`turn, this`gameOver, this`histories, this`boardData
      ensures Valid()
      ensures turn == X && !gameOver && histories == [] && boardData == InitialBoard()
    {
      turn := X;
      gameOver := false;
      histories := [];
      boardData := InitialBoard();
    }

    /** `changeTurn(t)`: a given stone is taken as is, otherwise the turn flips. */
    method ChangeTurn(t: Option<Stone>)
      modifies this`turn
      ensures turn == if t.Some? then t.value else Flip(old(turn))
    {
      if t.Some? {
        turn := t.value;
      } else {
        turn := if turn == X then O else X;
      }
    }

    /** `updateBoard` on the live board. */
    method UpdateBoard(p: Coord, stone: Stone, capturedStones: seq<BoardStone>)
      requires Valid() && InBounds(p) && CellsInBounds(capturedStones)
      modifies this`boardData
      ensures Valid()
      ensures boardData == Played(old(boardData), History(p, stone, capturedStones))
    {
      boardData := SetCell(boardData, p, stone);
      ghost var placed := boardData;
      for i := 0 to |capturedStones|
        invariant WellFormed(boardData)
        invariant boardData == Clear(placed, capturedStones[..i])
      {
        var c := capturedStones[i];
        assert capturedStones[..i + 1][..i] == capturedStones[..i];
        boardData := SetCell(boardData, Coord(c.x, c.y), Empty);
      }
      assert capturedStones[..|capturedStones|] == capturedStones;
    }

    /** Writes back the captured stones of h on the live board, then empties h's cell. */
    method UndoOnBoard(h: History)
      requires Valid() && HistoryInBounds(h)
      modifies this`boardData
      ensures Valid()
      ensures boardData == Undone(old(boardData), h)
    {
      ghost var start := boardData;
      for i := 0 to |h.capturedStones|
        invariant WellFormed(boardData)
        invariant boardData == Restore(start, h.capturedStones[..i])
      {
        var c := h.capturedStones[i];
        assert h.capturedStones[..i + 1][..i] == h.capturedStones[..i];
        boardData := SetCell(boardData, Coord(c.x, c.y), c.stone);
      }
      assert h.capturedStones[..|h.capturedStones|] == h.capturedStones;
      boardData := SetCell(boardData, h.coordinate, Empty);
    }

    /** `deleteLastHistory`: undo the last entry, drop it, and give the turn back to its stone. */
    method DeleteLastHistory()
      requires Valid()
      modifies this`boardData, this`histories, this`gameOver, this`turn
      ensures Valid()
      ensures old(histories) == [] ==>
        boardData == old(boardData) && histories == [] && gameOver == old(gameOver) && turn == old(turn)
      ensures old(histories) != [] ==>
        var last := old(histories)[|old(histories)| - 1];
        && boardData == Undone(old(boardData), last)
        && histories == old(histories)[..|old(histories)| - 1]
        && !gameOver
        && turn == last.stone
    {
      var lastHistory := AtIndex(histories, -1);
      if lastHistory.None? {
        return;
      }
      var last := lastHistory.value;
      UndoOnBoard(last);
      histories := Slice(histories, 0, -1);
      gameOver := false;
      ChangeTurn(Some(last.stone));
    }

    /** `canUndoTurn`. */
    function CanUndoTurn(): (can: bool)
      reads this
      ensures can ==> !gameOver && |histories| >= 1
      ensures can && settings.isPlayer2AI ==> !isAiThinking && histories[|histories| - 1].stone == O
      ensures !gameOver && |histories| >= 1 && !settings.isPlayer2AI ==> can
      ensures !gameOver && |histories| >= 1 && !isAiThinking && histories[|histories| - 1].stone == O ==> can
    {
      if gameOver || |histories| < 1 then false
      else if settings.isPlayer2AI then !isAiThinking && histories[|histories| - 1].stone == O
      else true
    }

    /**
     * `deleteLastTurn`: without an AI it is `deleteLastHistory`. Against the AI it only acts
     * when the last entry is the AI's "O": it undoes the AI's move and the player's move
     * before it, or just the one entry when there is no earlier one.
     */
    method DeleteLastTurn()
      requires Valid()
      modifies this`boardData, this`histories, this`gameOver, this`turn
      ensures Valid()
      ensures old(CanUndoTurn()) ==> |histories| < |old(histories)|
      ensures var n := |old(histories)|;
        old(settings.isPlayer2AI) && (n == 0 || old(histories)[n - 1].stone != O) ==>
        boardData == old(boardData) && histories == old(histories) &&
        gameOver == old(gameOver) && turn == old(turn)
      ensures var n := |old(histories)|;
        old(settings.isPlayer2AI) && n >= 2 && old(histories)[n - 1].stone == O ==>
        && boardData == Undone(Undone(old(boardData), old(histories)[n - 1]), old(histories)[n - 2])
        && histories == old(histories)[..n - 2]
        && !gameOver
        && turn == X
      ensures var n := |old(histories)|;
        (!old(settings.isPlayer2AI) && n >= 1) || (n == 1 && old(histories)[0].stone == O) ==>
        && boardData == Undone(old(boardData), old(histories)[n - 1])
        && histories == old(histories)[..n - 1]
        && !gameOver
        && turn == old(histories)[n - 1].stone
      ensures !old(settings.isPlayer2AI) && old(histories) == [] ==>
        boardData == old(boardData) && histories == [] && gameOver == old(gameOver) && turn == old(turn)
    {
      if !settings.isPlayer2AI {
        DeleteLastHistory();
        return;
      }
      var lastEntry := AtIndex(histories, -1);
      if lastEntry.None? || lastEntry.value.stone != O {
        return;
      }
      var last := lastEntry.value;
      if |histories| >= 2 {
        var secondLast := AtIndex(histories, -2).value;
        UndoOnBoard(last);
        UndoOnBoard(secondLast);
        histories := Slice(histories, 0, -2);
        gameOver := false;
        turn := X;
      } else {
        DeleteLastHistory();
      }
    }

    /** The `forEach` of `onNextHistory` that empties the captured cells on the replay board. */
    method ClearOnReplayBoard(cells: seq<BoardStone>)
      requires WellFormed(readOnlyBoardData) && CellsInBounds(cells)
      modifies this`readOnlyBoardData
      ensures readOnlyBoardData == Clear(old(readOnlyBoardData), cells)
    {
      for i := 0 to |cells|
        invariant WellFormed(readOnlyBoardData)
        invariant readOnlyBoardData == Clear(old(readOnlyBoardData), cells[..i])
      {
        var c := cells[i];
        assert cells[..i + 1][..i] == cells[..i];
        readOnlyBoardData := SetCell(readOnlyBoardData, Coord(c.x, c.y), Empty);
      }
      assert cells[..|cells|] == cells;
    }

    /** The `forEach` of `onPrevHistory` that writes the captured stones back on the replay board. */
    method RestoreOnReplayBoard(cells: seq<BoardStone>)
      requires WellFormed(readOnlyBoardData) && CellsInBounds(cells)
      modifies this`readOnlyBoardData
      ensures readOnlyBoardData == Restore(old(readOnlyBoardData), cells)
    {
      for i := 0 to |cells|
        invariant WellFormed(readOnlyBoardData)
        invariant readOnlyBoardData == Restore(old(readOnlyBoardData), cells[..i])
      {
        var c := cells[i];
        assert cells[..i + 1][..i] == cells[..i];
        readOnlyBoardData := SetCell(readOnlyBoardData, Coord(c.x, c.y), c.stone);
      }
      assert cells[..|cells|] == cells;
    }

    /** `onNextHistory`: replay the entry after the replay index on the replay board. */
    method OnNextHistory()
      requires Valid()
      modifies this`readOnlyBoardData, this`currentHistoryIndex, this`turn
      ensures Valid()
      ensures AtIndex(histories, old(currentHistoryIndex) + 1).None? ==>
        readOnlyBoardData == old(readOnlyBoardData) && currentHistoryIndex == old(currentHistoryIndex) &&
        turn == old(turn)
      ensures AtIndex(histories, old(currentHistoryIndex) + 1).Some? ==>
        var h := AtIndex(histories, old(currentHistoryIndex) + 1).value;
        && readOnlyBoardData == Replayed(old(readOnlyBoardData), h)
        && currentHistoryIndex == old(currentHistoryIndex) + 1
        && turn == h.stone
    {
      var nextHistory := AtIndex(histories, currentHistoryIndex + 1);
      if nextHistory.None? {
        return;
      }
      var h := nextHistory.value;
      ClearOnReplayBoard(h.capturedStones);
      readOnlyBoardData := SetCell(readOnlyBoardData, h.coordinate, h.stone);
      currentHistoryIndex := currentHistoryIndex + 1;
      ChangeTurn(Some(h.stone));
    }

    /** `onPrevHistory`: undo the entry at the replay index on the replay board. */
    method OnPrevHistory()
      requires Valid()
      modifies this`readOnlyBoardData, this`currentHistoryIndex, this`turn, this`gameOver
      ensures Valid()
      ensures AtIndex(histories, old(currentHistoryIndex)).None? ==>
        readOnlyBoardData == old(readOnlyBoardData) && currentHistoryIndex == old(currentHistoryIndex) &&
        turn == old(turn) && gameOver == old(gameOver)
      ensures AtIndex(histories, old(currentHistoryIndex)).Some? ==>
        var h := AtIndex(histories, old(currentHistoryIndex)).value;
        && readOnlyBoardData == Undone(old(readOnlyBoardData), h)
        && currentHistoryIndex == old(currentHistoryIndex) - 1
        && !gameOver
        && turn == h.stone
    {
      var currentHistory := AtIndex(histories, currentHistoryIndex);
      if currentHistory.None? {
        return;
      }
      var h := currentHistory.value;
      RestoreOnReplayBoard(h.capturedStones);
      readOnlyBoardData := SetCell(readOnlyBoardData, h.coordinate, Empty);
      currentHistoryIndex := currentHistoryIndex - 1;
      gameOver := false;
      ChangeTurn(Some(h.stone));
    }

    /**
     * `onPrevHistory` then `onNextHistory`, when the replay board shows the entry at the
     * replay index: the replay board and the replay index come back unchanged.
     */
    method PrevThenNextHistory()
      requires Valid()
      requires AtIndex(histories, currentHistoryIndex).Some?
      requires Shows(readOnlyBoardData, AtIndex(histories, currentHistoryIndex).value)
      modifies this`readOnlyBoardData, this`currentHistoryIndex, this`turn, this`gameOver
      ensures Valid()
      ensures readOnlyBoardData == old(readOnlyBoardData)
      ensures currentHistoryIndex == old(currentHistoryIndex)
    {
      ghost var h := AtIndex(histories, currentHistoryIndex).value;
      OnPrevHistory();
      OnNextHistory();
      ReplayUndone(old(readOnlyBoardData), h);
    }

    /** `checkGameOver`: decide the ending on the live board and mark the game over if any. */
    method CheckGameOver(captured: Captured, situationTurn: Stone, checkDoubleThree: (Board, Coord, Stone) -> bool)
      returns (r: GameResult)
      requires Valid()
      modifies this`gameOver
      ensures r != NoResult <==> Ends(boardData, captured, situationTurn, checkDoubleThree)
      ensures gameOver == (old(gameOver) || r != NoResult)
    {
      r := GameEnding(boardData, captured, situationTurn, checkDoubleThree);
      if r != NoResult {
        gameOver := true;
      }
    }

    /**
     * The tail of `addStoneToBoardData`: the capture tallies are taken with the new entry
     * counted, the turn passes, and the end-of-game check runs for the player now to move.
     */
    method ChangeTurnAndCheck(checkDoubleThree: (Board, Coord, Stone) -> bool)
      requires Valid()
      modifies this`turn, this`gameOver
      ensures turn == Flip(old(turn))
      ensures gameOver == (old(gameOver) ||
        Ends(boardData, Captured(Player1TotalCaptured(), Player2TotalCaptured(), settings.totalPairCaptured),
             turn, checkDoubleThree))
    {
      var captured := Captured(Player1TotalCaptured(), Player2TotalCaptured(), settings.totalPairCaptured);
      ChangeTurn(None);
      var _ := CheckGameOver(captured, turn, checkDoubleThree);
      assert captured == Captured(Player1TotalCaptured(), Player2TotalCaptured(), settings.totalPairCaptured);
    }

    /**
     * `addStoneToBoardData`: a move the double-three restriction forbids is refused and
     * changes nothing; any other move is played, recorded as one new history entry, passes
     * the turn, and is followed by the end-of-game check for the player now to move.
     */
    method AddStoneToBoardData(p: Coord, stone: Stone,
                               getCapturedStones: (Board, Coord, Stone) -> seq<BoardStone>,
                               checkDoubleThree: (Board, Coord, Stone) -> bool)
      returns (ok: bool)
      requires Valid() && InBounds(p)
      requires CellsInBounds(CapturesOf(settings, getCapturedStones, boardData, p, stone))
      modifies this`boardData, this`histories, this`turn, this`gameOver
      ensures Valid()
      ensures ok == !DoubleThreeForbids(old(settings), checkDoubleThree, old(boardData), p, stone)
      ensures !ok ==>
        boardData == old(boardData) && histories == old(histories) && turn == old(turn) && gameOver == old(gameOver)
      ensures ok ==>
        var h := History(p, stone, CapturesOf(old(settings), getCapturedStones, old(boardData), p, stone));
        && histories == old(histories) + [h]
        && boardData == Played(old(boardData), h)
        && turn == Flip(old(turn))
        && gameOver == (old(gameOver) ||
             Ends(boardData, Captured(Player1TotalCaptured(), Player2TotalCaptured(), settings.totalPairCaptured),
                  turn, checkDoubleThree))
    {
      var capturedStones := CapturesOf(settings, getCapturedStones, boardData, p, stone);
      if DoubleThreeForbids(settings, checkDoubleThree, boardData, p, stone) {
        return false;
      }
      UpdateBoard(p, stone, capturedStones);
      histories := histories + [History(p, stone, capturedStones)];
      ChangeTurnAndCheck(checkDoubleThree);
      return true;
    }
  }
}
