/**
 * The engine's bitboard (cpp/src/gomoku/Board.cpp): for each of the 19 rows, one 64-bit
 * mask for the stones of the player who moved last and one for the player to move; the two
 * players' codes and capture scores; and the list of stones captured by the pending move.
 */
module Bitboard {
  import opened Wrappers
  import opened Packing
  import opened Decimals

  /** A stone removed by a capture, with the code of the player it belonged to. */
  datatype CapturedStone = CapturedStone(x: int, y: int, player: int)

  /** `isValidCoordinate`. */
  predicate IsValidCoordinate(col: int, row: int) {
    0 <= col < BoardSize && 0 <= row < BoardSize
  }

  // ---------------------------------------------------------------------------
  // Row masks: a `uint64_t` per row, bit i standing for column i. A mask is modelled as
  // its 64 bits, bit i at index i, with the C++ bitwise operators applied bit by bit.
  // ---------------------------------------------------------------------------

  const RowWidth: int := 64

  type Bits = seq<bool>

  predicate IsRow(w: Bits) {
    |w| == RowWidth
  }

  /** The mask 0. */
  function Zero(): (z: Bits)
    ensures IsRow(z) && forall i :: 0 <= i < RowWidth ==> !z[i]
  {
    seq(RowWidth, i => false)
  }

  /** `1ULL << col`: only bit `col` is set. */
  function Mask(col: int): (m: Bits)
    requires 0 <= col < RowWidth
    ensures IsRow(m) && forall i :: 0 <= i < RowWidth ==> m[i] == (i == col)
  {
    seq(RowWidth, i => i == col)
  }

  /** `~a`. */
  function Not(a: Bits): (r: Bits)
    requires IsRow(a)
    ensures IsRow(r) && forall i :: 0 <= i < RowWidth ==> r[i] == !a[i]
  {
    seq(RowWidth, i requires 0 <= i < RowWidth => !a[i])
  }

  /** `a & b`. */
  function And(a: Bits, b: Bits): (r: Bits)
    requires IsRow(a) && IsRow(b)
    ensures IsRow(r) && forall i :: 0 <= i < RowWidth ==> r[i] == (a[i] && b[i])
  {
    seq(RowWidth, i requires 0 <= i < RowWidth => a[i] && b[i])
  }

  /** `a | b`. */
  function Or(a: Bits, b: Bits): (r: Bits)
    requires IsRow(a) && IsRow(b)
    ensures IsRow(r) && forall i :: 0 <= i < RowWidth ==> r[i] == (a[i] || b[i])
  {
    seq(RowWidth, i requires 0 <= i < RowWidth => a[i] || b[i])
  }

  /** Bit i of w (a row is 64 bits wide; a position beyond it reads as 0). */
  predicate Bit(w: Bits, i: int) {
    0 <= i < |w| && w[i]
  }

  /** `w & (1ULL << col)` taken as a condition: nonzero exactly when bit `col` of w is set. */
  predicate HasBit(w: Bits, col: int)
    requires IsRow(w) && 0 <= col < RowWidth
  {
    And(w, Mask(col)) != Zero()
  }

  lemma HasBitIsBit(w: Bits, col: int)
    requires IsRow(w) && 0 <= col < RowWidth
    ensures HasBit(w, col) == Bit(w, col)
  {
    if w[col] {
      assert And(w, Mask(col))[col] != Zero()[col];
    } else {
      assert And(w, Mask(col)) == Zero();
    }
  }

  /** Clearing bit `col` and then setting it again changes bit `col` only. */
  lemma ClearSetBit(w: Bits, col: int, c: int)
    requires IsRow(w) && 0 <= col < RowWidth && 0 <= c < RowWidth
    ensures And(w, Not(Mask(col)))[c] == (c != col && w[c])
    ensures Or(And(w, Not(Mask(col))), Mask(col))[c] == (c == col || w[c])
  {
  }

  /** C++ integer division by two, truncating toward zero. */
  function Half(n: int): (r: int)
    ensures n >= 0 ==> 0 <= r && r + r <= n < r + r + 2
    ensures n < 0 ==> r <= 0 && n < r + r + 2 && r + r <= n + 1
  {
    if n >= 0 then n / 2 else -((-n) / 2)
  }

  /**
   * The points `applyCapture` credits for `cs`: a stone of `last` scores for `next`, a stone
   * of `next` (when the codes differ) scores for `last`; other codes score nothing.
   */
  function ToNext(cs: seq<CapturedStone>, last: int): (n: nat)
    ensures n <= |cs|
    decreases |cs|
  {
    if cs == [] then 0
    else ToNext(cs[..|cs| - 1], last) + (if cs[|cs| - 1].player == last then 1 else 0)
  }

  function ToLast(cs: seq<CapturedStone>, last: int, next: int): (n: nat)
    ensures n <= |cs|
    decreases |cs|
  {
    if cs == [] then 0
    else
      var p := cs[|cs| - 1].player;
      ToLast(cs[..|cs| - 1], last, next) + (if p != last && p == next then 1 else 0)
  }

  /** When every captured stone belongs to one of the two players, each stone scores once. */
  lemma {:induction false} EveryStoneScores(cs: seq<CapturedStone>, last: int, next: int)
    requires forall i :: 0 <= i < |cs| ==> cs[i].player == last || cs[i].player == next
    ensures ToNext(cs, last) + ToLast(cs, last, next) == |cs|
    decreases |cs|
  {
    if cs != [] {
      EveryStoneScores(cs[..|cs| - 1], last, next);
    }
  }

  /** The cells listed in `cs`. */
  function Listed(cs: seq<CapturedStone>): set<(int, int)>
    decreases |cs|
  {
    if cs == [] then {} else Listed(cs[..|cs| - 1]) + {(cs[|cs| - 1].x, cs[|cs| - 1].y)}
  }

  /** What `initBitboardFromData` writes at (c, r): 'X' and 'O' set a stone, anything else nothing. */
  function DataCode(data: seq<seq<char>>, c: int, r: int, previous: int): int {
    if 0 <= r < |data| && 0 <= c < |data[r]| then
      (if data[r][c] == PlayerX then Player1 else if data[r][c] == PlayerO then Player2 else previous)
    else previous
  }

  // ---------------------------------------------------------------------------
  // Line patterns
  // ---------------------------------------------------------------------------

  /** Cell codes by row, then column. */
  type Grid = seq<seq<int>>

  /** The code at (c, r), or OUT_OF_BOUNDS off the grid. */
  function CodeAt(g: Grid, c: int, r: int): int {
    if 0 <= r < |g| && 0 <= c < |g[r]| then g[r][c] else OutOfBounds
  }

  /** The codes of the `length` cells at steps 1..length from (x, y) along (dx, dy). */
  function LineOf(g: Grid, x: int, y: int, dx: int, dy: int, length: int): (codes: seq<int>)
    ensures |codes| == if length < 0 then 0 else length
    decreases length
  {
    if length <= 0 then [] else [CodeAt(g, x + dx, y + dy)] + LineOf(g, x + dx, y + dy, dx, dy, length - 1)
  }

  /** The code of column c given one row of each player's masks; player 1's is tested first. */
  function RowCode(last: Bits, next: Bits, c: int): int {
    if Bit(last, c) then Player1 else if Bit(next, c) then Player2 else EmptySpace
  }

  /** The 19 x 19 codes held by the two players' row masks. */
  function GridOf(last: seq<Bits>, next: seq<Bits>): (g: Grid)
    requires |last| == BoardSize && |next| == BoardSize
    ensures |g| == BoardSize && forall r :: 0 <= r < BoardSize ==> |g[r]| == BoardSize
  {
    seq(BoardSize, r requires 0 <= r < BoardSize => seq(BoardSize, c => RowCode(last[r], next[r], c)))
  }

  /** A cell code's two low bits, `code & 0x3`. */
  function CodeWord(code: int): (w: Word)
    ensures w < 4
  {
    var m := code % 4;
    if m == 0 then 0 else if m == 1 then 1 else if m == 2 then 2 else 3
  }

  /** `(pattern << 2) | (code & 0x3)`: one more cell shifted in at the low end (mod 2^32). */
  function Append(pattern: Word, code: int): Word {
    (pattern << 2) | CodeWord(code)
  }

  /** Codes appended one after another, each shifted in below the earlier ones. */
  function Pack(codes: seq<int>): Word
    decreases |codes|
  {
    if codes == [] then 0 else Append(Pack(codes[..|codes| - 1]), codes[|codes| - 1])
  }

  /** `pattern` with `codes` appended to it, first code first. */
  function PackOnto(pattern: Word, codes: seq<int>): Word
    decreases |codes|
  {
    if codes == [] then pattern else PackOnto(Append(pattern, codes[0]), codes[1..])
  }

  /** Appending codes one at a time continues the packing of the codes before them. */
  lemma {:induction false} PackOntoIsPack(done: seq<int>, codes: seq<int>)
    ensures PackOnto(Pack(done), codes) == Pack(done + codes)
    decreases |codes|
  {
    if codes == [] {
      assert done + codes == done;
    } else {
      PackSnoc(done, codes[0]);
      PackOntoIsPack(done + [codes[0]], codes[1..]);
      assert (done + [codes[0]]) + codes[1..] == done + codes;
    }
  }

  lemma PackOntoStep(pattern: Word, code: int, rest: seq<int>)
    ensures PackOnto(pattern, [code] + rest) == PackOnto(Append(pattern, code), rest)
  {
    assert ([code] + rest)[1..] == rest;
  }

  lemma PackSnoc(codes: seq<int>, code: int)
    ensures Pack(codes + [code]) == Append(Pack(codes), code)
  {
    assert (codes + [code])[..|codes|] == codes;
  }

  /** The i-th of `windowLength` 2-bit cells counted from the most-significant end. */
  function Slot(pattern: Word, windowLength: int, i: int): Word
    requires 0 <= i < windowLength <= 16
  {
    Field(pattern, (2 * (windowLength - 1 - i)) as Shift)
  }

  /**
   * Reading a packed pattern back: the first code appended (the nearest cell of a line) is
   * the most-significant slot, and every slot holds its code's two low bits.
   */
  lemma {:induction false} PackSlots(codes: seq<int>)
    requires |codes| <= 16
    ensures forall i :: 0 <= i < |codes| ==> Slot(Pack(codes), |codes|, i) == CodeWord(codes[i])
    decreases |codes|
  {
    if codes != [] {
      var n := |codes|;
      var init := codes[..n - 1];
      PackSlots(init);
      var p := Pack(init);
      var c := CodeWord(codes[n - 1]);
      forall i | 0 <= i < n
        ensures Slot(Pack(codes), n, i) == CodeWord(codes[i])
      {
        if i < n - 1 {
          assert Slot(p, n - 1, i) == CodeWord(codes[i]);
          var k := n - 2 - i;
          ShiftAmount(k);
          SlotAfterShift(p, c, (2 * k) as Shift);
        } else {
          LowSlot(p, c);
        }
      }
    }
  }

  lemma ShiftAmount(k: int)
    requires 0 <= k <= 14
    ensures ((2 * (k + 1)) as Shift) == ((2 * k) as Shift) + 2
  {
    if k == 0 {} else if k == 1 {} else if k == 2 {} else if k == 3 {} else if k == 4 {}
    else if k == 5 {} else if k == 6 {} else if k == 7 {} else if k == 8 {} else if k == 9 {}
    else if k == 10 {} else if k == 11 {} else if k == 12 {} else if k == 13 {} else {}
  }

  lemma SlotAfterShift(p: Word, c: Word, s: Shift)
    requires s <= 28 && c < 4
    ensures Field((p << 2) | c, s + 2) == Field(p, s)
  {
  }

  lemma LowSlot(p: Word, c: Word)
    requires c < 4
    ensures Field((p << 2) | c, 0) == c
  {
  }

  /** A four-cell line packs exactly as `pack_cells_4` does. */
  lemma PackFour(a: int, b: int, c: int, d: int)
    ensures Pack([a, b, c, d]) == PackCells4(CodeWord(a), CodeWord(b), CodeWord(c), CodeWord(d))
  {
    assert [a, b, c, d][..3] == [a, b, c];
    assert [a, b, c][..2] == [a, b];
    assert [a, b][..1] == [a];
    assert [a][..0] == [];
    assert Pack([a]) == Append(0, a);
    assert Pack([a, b]) == Append(Pack([a]), b);
    assert Pack([a, b, c]) == Append(Pack([a, b]), c);
    assert Pack([a, b, c, d]) == Append(Pack([a, b, c]), d);
    PackFourWords(CodeWord(a), CodeWord(b), CodeWord(c), CodeWord(d));
  }

  lemma PackFourWords(a: Word, b: Word, c: Word, d: Word)
    requires a < 4 && b < 4 && c < 4 && d < 4
    ensures (((((((0 << 2) | a) << 2) | b) << 2) | c) << 2) | d == PackCells4(a, b, c, d)
  {
  }

  /**
   * `getCellCount`: the number of cells read from the most-significant end of a
   * `windowLength`-cell pattern before the first out-of-bounds code.
   */
  method GetCellCount(pattern: Word, windowLength: int) returns (count: nat)
    requires windowLength <= 16
    ensures count <= if windowLength < 0 then 0 else windowLength
    ensures forall i :: 0 <= i < count ==> Slot(pattern, windowLength, i) != 3
    ensures count < windowLength ==> Slot(pattern, windowLength, count) == 3
  {
    count := 0;
    var i := 0;
    while i < windowLength && (pattern >> ((2 * (windowLength - 1 - i)) as Shift)) & 0x3 != 3
      invariant 0 <= i <= (if windowLength < 0 then 0 else windowLength) && count == i
      invariant forall j :: 0 <= j < i ==> Slot(pattern, windowLength, j) != 3
      decreases windowLength - i
    {
      i := i + 1;
      count := count + 1;
    }
  }

  // ---------------------------------------------------------------------------
  // The board
  // ---------------------------------------------------------------------------

  /** `convertIndexToCoordinates`: column letter from 'A', then the 1-based row in decimal. */
  function ConvertIndexToCoordinates(col: int, row: int): (r: Result<string, string>)
    ensures r.Ok? <==> IsValidCoordinate(col, row)
    ensures !(0 <= col < 19) ==> r == Err("Column index must be between 0 and 18.")
    ensures 0 <= col < 19 && !(0 <= row < 19) ==> r == Err("Row index must be between 0 and 18.")
    ensures r.Ok? ==> |r.value| >= 2 && r.value[0] as int == 'A' as int + col &&
                      IsDecimal(r.value[1..]) && DecimalValue(r.value[1..]) == row + 1
  {
    if col < 0 || col >= 19 then Err("Column index must be between 0 and 18.")
    else if row < 0 || row >= 19 then Err("Row index must be between 0 and 18.")
    else
      DecimalRoundTrip(row + 1);
      var s := [('A' as int + col) as char] + Decimal(row + 1);
      assert s[1..] == Decimal(row + 1);
      Ok(s)
  }

  /** Two distinct cells get two distinct names. */
  lemma CoordinatesInjective(col: int, row: int, col': int, row': int)
    requires IsValidCoordinate(col, row) && IsValidCoordinate(col', row')
    requires ConvertIndexToCoordinates(col, row) == ConvertIndexToCoordinates(col', row')
    ensures col == col' && row == row'
  {
    var s := ConvertIndexToCoordinates(col, row).value;
    assert DecimalValue(s[1..]) == row + 1 == row' + 1;
  }

  class Board {
    var goal: int
    var lastPlayer: int
    var nextPlayer: int
    var lastPlayerScore: int
    var nextPlayerScore: int
    var capturedStones: seq<CapturedStone>
    /** `last_player_board[BOARD_SIZE]`: bit c of row r is set when player 1 holds (c, r). */
    const lastPlayerBoard: array<Bits>
    /** `next_player_board[BOARD_SIZE]`: bit c of row r is set when player 2 holds (c, r). */
    const nextPlayerBoard: array<Bits>

    /** Two separate arrays of 19 row masks, and no cell set in both. */
    ghost predicate Valid()
      reads this, lastPlayerBoard, nextPlayerBoard
    {
      lastPlayerBoard.Length == BoardSize && nextPlayerBoard.Length == BoardSize &&
      lastPlayerBoard != nextPlayerBoard &&
      (forall r :: 0 <= r < BoardSize ==> IsRow(lastPlayerBoard[r]) && IsRow(nextPlayerBoard[r])) &&
      forall r, c :: 0 <= r < BoardSize && 0 <= c < BoardSize ==>
        !(lastPlayerBoard[r][c] && nextPlayerBoard[r][c])
    }

    /** Each player has an array of 19 row masks. */
    predicate Shaped() {
      lastPlayerBoard.Length == BoardSize && nextPlayerBoard.Length == BoardSize
    }

    /**
     * `getValueBit`: off the board OUT_OF_BOUNDS; else player 1 when the cell's bit is set in
     * player 1's row, player 2 when it is set in player 2's row, and EMPTY_SPACE otherwise.
     * The bit is read directly; HasBitIsBit shows it is the source's `row & mask` test.
     */
    function GetValueBit(col: int, row: int): (v: int)
      reads this, lastPlayerBoard, nextPlayerBoard
      requires Shaped()
      ensures v == OutOfBounds <==> !IsValidCoordinate(col, row)
      ensures v == EmptySpace || v == Player1 || v == Player2 || v == OutOfBounds
    {
      if !IsValidCoordinate(col, row) then OutOfBounds
      else RowCode(lastPlayerBoard[row], nextPlayerBoard[row], col)
    }

    /** On the board, the value read is the one the two masks' `row & mask` tests give. */
    lemma ValueIsMaskTest(col: int, row: int)
      requires Valid() && IsValidCoordinate(col, row)
      ensures GetValueBit(col, row) ==
        if HasBit(lastPlayerBoard[row], col) then Player1
        else if HasBit(nextPlayerBoard[row], col) then Player2
        else EmptySpace
    {
      HasBitIsBit(lastPlayerBoard[row], col);
      HasBitIsBit(nextPlayerBoard[row], col);
    }

    /** The default board: goal 5, player 1 moved last, player 2 to move, no stones, no score. */
    constructor ()
      ensures Valid()
      ensures goal == 5 && lastPlayer == Player1 && nextPlayer == Player2
      ensures lastPlayerScore == 0 && nextPlayerScore == 0 && capturedStones == []
      ensures forall c, r :: IsValidCoordinate(c, r) ==> GetValueBit(c, r) == EmptySpace
      ensures fresh(lastPlayerBoard) && fresh(nextPlayerBoard)
    {
      goal := 5;
      lastPlayer := Player1;
      nextPlayer := Player2;
      lastPlayerScore := 0;
      nextPlayerScore := 0;
      capturedStones := [];
      lastPlayerBoard := new Bits[BoardSize](_ => Zero());
      nextPlayerBoard := new Bits[BoardSize](_ => Zero());
    }

    /**
     * The board built from a grid of characters: "X" names player 1 and anything else
     * player 2; 'X' cells hold player 1, 'O' cells player 2, every other cell is empty.
     */
    constructor FromData(boardData: seq<seq<char>>, goal: int, lastStone: string, nextStone: string,
                         lastScore: int, nextScore: int)
      ensures Valid()
      ensures this.goal == goal && lastPlayerScore == lastScore && nextPlayerScore == nextScore
      ensures lastPlayer == (if lastStone == "X" then Player1 else Player2)
      ensures nextPlayer == (if nextStone == "X" then Player1 else Player2)
      ensures capturedStones == []
      ensures forall c, r :: IsValidCoordinate(c, r) ==> GetValueBit(c, r) == DataCode(boardData, c, r, EmptySpace)
      ensures fresh(lastPlayerBoard) && fresh(nextPlayerBoard)
    {
      this.goal := goal;
      lastPlayer := if lastStone == "X" then Player1 else Player2;
      nextPlayer := if nextStone == "X" then Player1 else Player2;
      lastPlayerScore := lastScore;
      nextPlayerScore := nextScore;
      capturedStones := [];
      lastPlayerBoard := new Bits[BoardSize];
      nextPlayerBoard := new Bits[BoardSize];
      new;
      ResetBitboard();
      InitBitboardFromData(boardData);
    }

    /** `resetBitboard`: every row mask of both players becomes 0. */
    method ResetBitboard()
      requires lastPlayerBoard.Length == BoardSize && nextPlayerBoard.Length == BoardSize
      requires lastPlayerBoard != nextPlayerBoard
      modifies lastPlayerBoard, nextPlayerBoard
      ensures Valid()
      ensures forall c, r :: IsValidCoordinate(c, r) ==> GetValueBit(c, r) == EmptySpace
    {
      forall i | 0 <= i < BoardSize {
        lastPlayerBoard[i] := Zero();
      }
      forall i | 0 <= i < BoardSize {
        nextPlayerBoard[i] := Zero();
      }
    }

    /**
     * `setValueBit`: on a valid cell, clear it in both masks and set it in the mask of
     * player 1 or player 2 (any other code leaves it empty); no other cell changes. Off the
     * board nothing changes.
     */
    method SetValueBit(col: int, row: int, player: int)
      requires Valid()
      modifies lastPlayerBoard, nextPlayerBoard
      ensures Valid()
      ensures !IsValidCoordinate(col, row) ==>
        lastPlayerBoard[..] == old(lastPlayerBoard[..]) && nextPlayerBoard[..] == old(nextPlayerBoard[..])
      ensures IsValidCoordinate(col, row) ==>
        GetValueBit(col, row) == (if player == Player1 || player == Player2 then player else EmptySpace)
      ensures forall c, r :: IsValidCoordinate(c, r) && (c != col || r != row) ==>
        GetValueBit(c, r) == old(GetValueBit(c, r))
    {
      if !IsValidCoordinate(col, row) {
        return;
      }
      var mask := Mask(col);
      lastPlayerBoard[row] := And(lastPlayerBoard[row], Not(mask));
      nextPlayerBoard[row] := And(nextPlayerBoard[row], Not(mask));
      if player == Player1 {
        lastPlayerBoard[row] := Or(lastPlayerBoard[row], mask);
      } else if player == Player2 {
        nextPlayerBoard[row] := Or(nextPlayerBoard[row], mask);
      }
    }

    /** Cells of the scan before (c, r): earlier rows, or the same row and an earlier column. */
    static predicate Before(c: int, r: int, col: int, row: int) {
      r < row || (r == row && c < col)
    }

    /**
     * `initBitboardFromData`: every in-board 'X' becomes player 1 and every 'O' player 2;
     * other characters and entries beyond 19 x 19 leave the cell as it was.
     */
    method InitBitboardFromData(boardData: seq<seq<char>>)
      requires Valid()
      modifies lastPlayerBoard, nextPlayerBoard
      ensures Valid()
      ensures forall c, r :: IsValidCoordinate(c, r) ==>
        GetValueBit(c, r) == DataCode(boardData, c, r, old(GetValueBit(c, r)))
    {
      for r := 0 to |boardData|
        invariant Valid()
        invariant forall c', r' :: IsValidCoordinate(c', r') ==>
          GetValueBit(c', r') == if r' < r then DataCode(boardData, c', r', old(GetValueBit(c', r')))
                                 else old(GetValueBit(c', r'))
      {
        for c := 0 to |boardData[r]|
          invariant Valid()
          invariant forall c', r' :: IsValidCoordinate(c', r') ==>
            GetValueBit(c', r') == if Before(c', r', c, r) then DataCode(boardData, c', r', old(GetValueBit(c', r')))
                                   else old(GetValueBit(c', r'))
        {
          if !IsValidCoordinate(c, r) {
            continue;
          }
          if boardData[r][c] == PlayerX {
            SetValueBit(c, r, Player1);
          } else if boardData[r][c] == PlayerO {
            SetValueBit(c, r, Player2);
          }
        }
      }
    }

    /** The board's codes, `Cells()[r][c]` being the value at (c, r). */
    ghost function Cells(): (g: Grid)
      reads this, lastPlayerBoard, nextPlayerBoard
      requires Shaped()
    {
      GridOf(lastPlayerBoard[..], nextPlayerBoard[..])
    }

    /** One step of `extractLineAsBits`: OUT_OF_BOUNDS off the board, else `getValueBit`. */
    method ReadCell(x: int, y: int) returns (code: int)
      requires Shaped()
      ensures code == CodeAt(Cells(), x, y)
    {
      if x < 0 || x >= BoardSize || y < 0 || y >= BoardSize {
        code := OutOfBounds;
      } else {
        code := GetValueBit(x, y);
      }
    }

    /**
     * `extractLineAsBits`: the cells at steps 1..length from (x, y) along (dx, dy) packed 2
     * bits each, the nearest in the most-significant position; cells off the board read as
     * OUT_OF_BOUNDS. By PackSlots each cell is read back from its slot when length <= 16.
     */
    method ExtractLineAsBits(x: int, y: int, dx: int, dy: int, length: int) returns (pattern: Word)
      requires Shaped()
      ensures pattern == Pack(LineOf(Cells(), x, y, dx, dy, length))
    {
      ghost var g := Cells();
      pattern := 0;
      var cx, cy := x, y;
      var i := 1;
      while i <= length
        invariant 1 <= i && (length >= 0 ==> i <= length + 1)
        invariant PackOnto(pattern, LineOf(g, cx, cy, dx, dy, length - i + 1)) == PackOnto(0, LineOf(g, x, y, dx, dy, length))
        decreases length - i
      {
        PackOntoStep(pattern, CodeAt(g, cx + dx, cy + dy), LineOf(g, cx + dx, cy + dy, dx, dy, length - i));
        cx := cx + dx;
        cy := cy + dy;
        var code := ReadCell(cx, cy);
        pattern := Append(pattern, code);
        i := i + 1;
      }
      assert LineOf(g, cx, cy, dx, dy, length - i + 1) == [];
      ghost var line := LineOf(g, x, y, dx, dy, length);
      PackOntoIsPack([], line);
      assert [] + line == line;
    }

    /** `switchTurn`: the two players exchange roles and scores. */
    method SwitchTurn()
      modifies this`nextPlayer, this`lastPlayer, this`nextPlayerScore, this`lastPlayerScore
      ensures nextPlayer == old(lastPlayer) && lastPlayer == old(nextPlayer)
      ensures nextPlayerScore == old(lastPlayerScore) && lastPlayerScore == old(nextPlayerScore)
    {
      var tmp := nextPlayer;
      nextPlayer := lastPlayer;
      lastPlayer := tmp;
      tmp := nextPlayerScore;
      nextPlayerScore := lastPlayerScore;
      lastPlayerScore := tmp;
    }

    /** Switching the turn twice gives back the same players and scores. */
    method SwitchTurnTwice()
      modifies this`nextPlayer, this`lastPlayer, this`nextPlayerScore, this`lastPlayerScore
      ensures nextPlayer == old(nextPlayer) && lastPlayer == old(lastPlayer)
      ensures nextPlayerScore == old(nextPlayerScore) && lastPlayerScore == old(lastPlayerScore)
    {
      SwitchTurn();
      SwitchTurn();
    }

    /** `storeCapturedStone`: the stone is appended to the pending captures. */
    method StoreCapturedStone(x: int, y: int, player: int)
      modifies this`capturedStones
      ensures capturedStones == old(capturedStones) + [CapturedStone(x, y, player)]
    {
      capturedStones := capturedStones + [CapturedStone(x, y, player)];
    }

    /**
     * `applyCapture`: every pending captured cell is emptied and credits the opposing side
     * one point per stone; then both scores are halved (integer division, including the
     * points held before) and the pending list is emptied.
     */
    method ApplyCapture()
      requires Valid()
      modifies this`nextPlayerScore, this`lastPlayerScore, this`capturedStones, lastPlayerBoard, nextPlayerBoard
      ensures Valid()
      ensures capturedStones == []
      ensures forall c, r :: IsValidCoordinate(c, r) ==>
        GetValueBit(c, r) == if (c, r) in Listed(old(capturedStones)) then EmptySpace else old(GetValueBit(c, r))
      ensures nextPlayerScore == Half(old(nextPlayerScore) + ToNext(old(capturedStones), lastPlayer))
      ensures lastPlayerScore == Half(old(lastPlayerScore) + ToLast(old(capturedStones), lastPlayer, nextPlayer))
    {
      var cs := capturedStones;
      for i := 0 to |cs|
        invariant Valid()
        invariant nextPlayerScore == old(nextPlayerScore) + ToNext(cs[..i], lastPlayer)
        invariant lastPlayerScore == old(lastPlayerScore) + ToLast(cs[..i], lastPlayer, nextPlayer)
        invariant forall c, r :: IsValidCoordinate(c, r) ==>
          GetValueBit(c, r) == if (c, r) in Listed(cs[..i]) then EmptySpace else old(GetValueBit(c, r))
      {
        assert cs[..i + 1][..i] == cs[..i];
        SetValueBit(cs[i].x, cs[i].y, EmptySpace);
        if cs[i].player == lastPlayer {
          nextPlayerScore := nextPlayerScore + 1;
        } else if cs[i].player == nextPlayer {
          lastPlayerScore := lastPlayerScore + 1;
        }
      }
      assert cs[..|cs|] == cs;
      nextPlayerScore := Half(nextPlayerScore);
      lastPlayerScore := Half(lastPlayerScore);
      capturedStones := [];
    }
  }
}
