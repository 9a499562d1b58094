// The small helpers of the AlphaZero engine's WebSocket endpoint (alphazero/server/websocket.py):
// stone names, the request-board rendering used for logging, the last-play summary of a move
// request, and the routing of a payload by its "type". The socket, the engine and the
// response builders are not part of this model.

module AlphaZeroServer {
  import opened Wrappers

  /**
   * A decoded JSON value as Python holds it: a string, a list, a dict, or some other scalar
   * (number, boolean, None) given by its `str()` text and by what `int()` makes of it.
   */
  datatype Value =
    | VStr(s: string)
    | VList(items: seq<Value>)
    | VDict(entries: map<string, Value>)
    | VScalar(text: string, asInt: Option<int>)

  /**
   * Python's `str(v)`: a string is itself and a scalar its text; the text of a list or dict
   * (Python's repr) is given by `reprOf`.
   */
  function Str(v: Value, reprOf: Value -> string): string {
    match v
    case VStr(s) => s
    case VScalar(text, _) => text
    case _ => reprOf(v)
  }

  /**
   * Python's `int(v)`, None where it raises: a scalar's own conversion, a string's by
   * `intOfText` (Python's numeric-literal parsing), and never for a list or dict.
   */
  function Int(v: Value, intOfText: string -> Option<int>): Option<int> {
    match v
    case VScalar(_, i) => i
    case VStr(s) => intOfText(s)
    case _ => None
  }

  /** `dict.get(key, default)`. */
  function Get(d: map<string, Value>, key: string, default: Value): Value {
    if key in d then d[key] else default
  }

  // ---------------------------------------------------------------------------
  // Stones
  // ---------------------------------------------------------------------------

  /**
   * `_stone_for_player`: "X" for PLAYER_1, "O" for PLAYER_2 (PLAYER_1 is tested first), and
   * a ValueError carrying the value for anything else. The two player codes come from the
   * game configuration and are parameters here.
   */
  function StoneForPlayer(player: int, player1: int, player2: int): (r: Result<string, int>)
    ensures r.Ok? <==> player == player1 || player == player2
    ensures player == player1 ==> r == Ok("X")
    ensures player != player1 && player == player2 ==> r == Ok("O")
    ensures r.Err? ==> r.error == player
  {
    if player == player1 then Ok("X")
    else if player == player2 then Ok("O")
    else Err(player)
  }

  /** `_opponent_stone`: "O" for "X", and "X" for every other text. */
  function OpponentStone(stone: string): (r: string)
    ensures r == "O" <==> stone == "X"
    ensures r == "O" || r == "X"
  {
    if stone == "X" then "O" else "X"
  }

  /**
   * On the two stone names the opponent is an involution and swaps the two players' stones;
   * every other text is answered with "X".
   */
  lemma OpponentStoneSwaps(player1: int, player2: int)
    requires player1 != player2
    ensures OpponentStone(StoneForPlayer(player1, player1, player2).value) ==
            StoneForPlayer(player2, player1, player2).value
    ensures OpponentStone(StoneForPlayer(player2, player1, player2).value) ==
            StoneForPlayer(player1, player1, player2).value
    ensures forall s :: s == "X" || s == "O" ==> OpponentStone(OpponentStone(s)) == s
  {
  }

  // ---------------------------------------------------------------------------
  // Request board rendering
  // ---------------------------------------------------------------------------

  /** One cell as the log shows it: "." stays, "X" becomes "1", "O" becomes "2", others `str()`. */
  function RenderCell(cell: Value, reprOf: Value -> string): (t: string)
    ensures cell == VStr(".") ==> t == "."
    ensures cell == VStr("X") ==> t == "1"
    ensures cell == VStr("O") ==> t == "2"
    ensures cell !in {VStr("."), VStr("X"), VStr("O")} ==> t == Str(cell, reprOf)
  {
    if cell == VStr(".") then "."
    else if cell == VStr("X") then "1"
    else if cell == VStr("O") then "2"
    else Str(cell, reprOf)
  }

  /** Python's `" ".join(parts)`. */
  function JoinSpaces(parts: seq<string>): string {
    if parts == [] then []
    else if |parts| == 1 then parts[0]
    else JoinSpaces(parts[..|parts| - 1]) + " " + parts[|parts| - 1]
  }

  /** The rendered cells of a row. */
  function RenderCells(row: seq<Value>, reprOf: Value -> string): (parts: seq<string>)
    ensures |parts| == |row| && forall k :: 0 <= k < |row| ==> parts[k] == RenderCell(row[k], reprOf)
  {
    if row == [] then [] else RenderCells(row[..|row| - 1], reprOf) + [RenderCell(row[|row| - 1], reprOf)]
  }

  /** The log line of one row: the rendered cells joined by spaces, then one more space. */
  function RenderRow(row: seq<Value>, reprOf: Value -> string): string {
    JoinSpaces(RenderCells(row, reprOf)) + " "
  }

  /** Each part followed by one space, run together. */
  function EachThenSpace(parts: seq<string>): string {
    if parts == [] then [] else EachThenSpace(parts[..|parts| - 1]) + parts[|parts| - 1] + " "
  }

  /**
   * Joining with spaces and adding one trailing space puts exactly one space after every part;
   * with no parts at all there is still the one space.
   */
  lemma {:induction false} JoinThenSpace(parts: seq<string>)
    ensures JoinSpaces(parts) + " " == if parts == [] then " " else EachThenSpace(parts)
  {
    if |parts| > 1 {
      var init := parts[..|parts| - 1];
      JoinThenSpace(init);
      assert init != [];
      assert JoinSpaces(parts) + " " == (JoinSpaces(init) + " ") + parts[|parts| - 1] + " ";
    } else if |parts| == 1 {
      assert parts[..0] == [];
      assert EachThenSpace(parts) == EachThenSpace([]) + parts[0] + " ";
    }
  }

  /** A row's line is each rendered cell followed by a single space; an empty row gives " ". */
  lemma RenderRowCellBySpace(row: seq<Value>, reprOf: Value -> string)
    ensures row != [] ==> RenderRow(row, reprOf) == EachThenSpace(RenderCells(row, reprOf))
    ensures row == [] ==> RenderRow(row, reprOf) == " "
  {
    JoinThenSpace(RenderCells(row, reprOf));
  }

  /** The lines for a board's rows: one per row that is a list, in order; other rows are skipped. */
  function BoardLines(rows: seq<Value>, reprOf: Value -> string): seq<string> {
    if rows == [] then []
    else
      var last := rows[|rows| - 1];
      BoardLines(rows[..|rows| - 1], reprOf) + (if last.VList? then [RenderRow(last.items, reprOf)] else [])
  }

  /** How many of the rows are lists. */
  function ListRows(rows: seq<Value>): nat {
    if rows == [] then 0 else ListRows(rows[..|rows| - 1]) + (if rows[|rows| - 1].VList? then 1 else 0)
  }

  /** There is exactly one line per list row. */
  lemma {:induction false} OneLinePerListRow(rows: seq<Value>, reprOf: Value -> string)
    ensures |BoardLines(rows, reprOf)| == ListRows(rows)
  {
    if rows != [] {
      OneLinePerListRow(rows[..|rows| - 1], reprOf);
    }
  }

  /**
   * `_format_request_board`: no lines when the board is not a list; otherwise a line per row
   * that is a list, built cell by cell.
   */
  method FormatRequestBoard(board: Value, reprOf: Value -> string) returns (lines: seq<string>)
    ensures !board.VList? ==> lines == []
    ensures board.VList? ==> lines == BoardLines(board.items, reprOf)
  {
    if !board.VList? {
      return [];
    }
    var rows := board.items;
    lines := [];
    for i := 0 to |rows|
      invariant lines == BoardLines(rows[..i], reprOf)
    {
      assert rows[..i + 1][..i] == rows[..i];
      if !rows[i].VList? {
        continue;
      }
      var row := rows[i].items;
      var rendered: seq<string> := [];
      for j := 0 to |row|
        invariant rendered == RenderCells(row[..j], reprOf)
      {
        assert row[..j + 1][..j] == row[..j];
        var cell := row[j];
        if cell == VStr(".") {
          rendered := rendered + ["."];
        } else if cell == VStr("X") {
          rendered := rendered + ["1"];
        } else if cell == VStr("O") {
          rendered := rendered + ["2"];
        } else {
          rendered := rendered + [Str(cell, reprOf)];
        }
      }
      assert row[..|row|] == row;
      lines := lines + [JoinSpaces(rendered) + " "];
    }
    assert rows[..|rows|] == rows;
  }

  // ---------------------------------------------------------------------------
  // Move-request summary
  // ---------------------------------------------------------------------------

  /** The last play and next player `_log_move_request` reports. */
  datatype MoveSummary = MoveSummary(lastX: int, lastY: int, lastPlayer: string, nextPlayer: string)

  /** The "coordinate" of a dict "lastPlay", `{}` when it has none. */
  function CoordinateOf(lastPlay: map<string, Value>): Value {
    Get(lastPlay, "coordinate", VDict(map[]))
  }

  /**
   * The summary of a move request: with a dict "lastPlay", its coordinate's "x" and "y"
   * (default -1) and its "stone" (default ""); otherwise (-1, -1), played by the opponent of
   * "nextPlayer" when that is "X" or "O" and by "" otherwise. A "coordinate" that is not a
   * dict has no `get` and raises AttributeError; an `int()` that raises (ValueError or
   * TypeError) makes the whole call raise too.
   */
  function MoveRequestSummary(data: map<string, Value>, reprOf: Value -> string,
                              intOfText: string -> Option<int>): (r: Result<MoveSummary, string>)
    ensures r.Ok? ==> r.value.nextPlayer == Str(Get(data, "nextPlayer", VStr("")), reprOf)
    ensures !("lastPlay" in data && data["lastPlay"].VDict?) ==> (r.Ok? &&
      r.value.lastX == -1 && r.value.lastY == -1 &&
      r.value.lastPlayer == (if r.value.nextPlayer in {"X", "O"} then OpponentStone(r.value.nextPlayer) else ""))
    // A dict "lastPlay" whose "coordinate" is not a dict raises AttributeError.
    ensures "lastPlay" in data && data["lastPlay"].VDict? && !CoordinateOf(data["lastPlay"].entries).VDict? ==>
      r == Err("AttributeError")
    // With a dict coordinate, the call raises exactly when a present "x" or "y" fails `int()`.
    ensures "lastPlay" in data && data["lastPlay"].VDict? && CoordinateOf(data["lastPlay"].entries).VDict? ==>
      var c := CoordinateOf(data["lastPlay"].entries).entries;
      (r.Ok? <==> ("x" !in c || Int(c["x"], intOfText).Some?) && ("y" !in c || Int(c["y"], intOfText).Some?)) &&
      (r.Err? ==> r == Err("int() raises"))
    // On success each coordinate is -1 when missing and its `int()` otherwise; the stone is
    // "" when missing and its `str()` otherwise.
    ensures "lastPlay" in data && data["lastPlay"].VDict? && r.Ok? ==>
      var lp := data["lastPlay"].entries;
      var c := CoordinateOf(lp).entries;
      ("x" !in c ==> r.value.lastX == -1) && ("x" in c ==> Int(c["x"], intOfText) == Some(r.value.lastX)) &&
      ("y" !in c ==> r.value.lastY == -1) && ("y" in c ==> Int(c["y"], intOfText) == Some(r.value.lastY)) &&
      ("stone" !in lp ==> r.value.lastPlayer == "") &&
      ("stone" in lp ==> r.value.lastPlayer == Str(lp["stone"], reprOf))
  {
    var nextPlayer := Str(Get(data, "nextPlayer", VStr("")), reprOf);
    if "lastPlay" in data && data["lastPlay"].VDict? then
      var lastPlay := data["lastPlay"].entries;
      var coordinate := CoordinateOf(lastPlay);
      if !coordinate.VDict? then Err("AttributeError")
      else
        var x := Int(Get(coordinate.entries, "x", VScalar("-1", Some(-1))), intOfText);
        var y := Int(Get(coordinate.entries, "y", VScalar("-1", Some(-1))), intOfText);
        if x.None? || y.None? then Err("int() raises")
        else Ok(MoveSummary(x.value, y.value, Str(Get(lastPlay, "stone", VStr("")), reprOf), nextPlayer))
    else
      Ok(MoveSummary(-1, -1, if nextPlayer in {"X", "O"} then OpponentStone(nextPlayer) else "", nextPlayer))
  }

  /** Without a dict "lastPlay", a request for "X" reports "O" as the last player and vice versa. */
  lemma SummaryInfersLastPlayer(data: map<string, Value>, reprOf: Value -> string,
                                intOfText: string -> Option<int>, stone: string)
    requires "lastPlay" !in data && stone in {"X", "O"} && data == map["nextPlayer" := VStr(stone)]
    ensures MoveRequestSummary(data, reprOf, intOfText) ==
      Ok(MoveSummary(-1, -1, if stone == "X" then "O" else "X", stone))
  {
  }

  /**
   * The usual request: a "lastPlay" with integer "x" and "y" and a string "stone" is reported
   * as that play, whatever the next player.
   */
  lemma SummaryReportsLastPlay(data: map<string, Value>, reprOf: Value -> string,
                               intOfText: string -> Option<int>, x: int, y: int, stone: string)
    requires "lastPlay" in data
    requires data["lastPlay"] == VDict(map["coordinate" := VDict(map["x" := VScalar("x", Some(x)),
                                                                     "y" := VScalar("y", Some(y))]),
                                           "stone" := VStr(stone)])
    ensures MoveRequestSummary(data, reprOf, intOfText).Ok?
    ensures MoveRequestSummary(data, reprOf, intOfText).value.lastX == x
    ensures MoveRequestSummary(data, reprOf, intOfText).value.lastY == y
    ensures MoveRequestSummary(data, reprOf, intOfText).value.lastPlayer == stone
  {
  }

  /** A dict "lastPlay" without a "coordinate" reports (-1, -1) and its own stone. */
  lemma SummaryWithoutCoordinate(data: map<string, Value>, reprOf: Value -> string,
                                 intOfText: string -> Option<int>, stone: string)
    requires "lastPlay" in data && data["lastPlay"] == VDict(map["stone" := VStr(stone)])
    ensures MoveRequestSummary(data, reprOf, intOfText).Ok?
    ensures MoveRequestSummary(data, reprOf, intOfText).value.lastX == -1
    ensures MoveRequestSummary(data, reprOf, intOfText).value.lastY == -1
    ensures MoveRequestSummary(data, reprOf, intOfText).value.lastPlayer == stone
  {
  }

  // ---------------------------------------------------------------------------
  // Payload routing
  // ---------------------------------------------------------------------------

  /** What `_handle_payload` does with a payload. */
  datatype Route =
    | HandleMove       // "move" or "test": the move handler answers
    | HandleEvaluate   // "evaluate": the evaluation handler answers
    | Reset            // "reset": nothing is sent and the call returns True
    | UnknownType      // anything else: an "Unknown type" error is sent
    | Unhashable       // a list or dict "type": the set-membership test raises TypeError

  /**
   * `_handle_payload`: routes on `data.get("type")`. Testing a list or dict for membership in
   * a set of strings raises in Python, so such a type never reaches the error reply.
   */
  function HandlePayload(data: map<string, Value>): (route: Route)
    ensures route == HandleMove <==> "type" in data && data["type"] in {VStr("move"), VStr("test")}
    ensures route == HandleEvaluate <==> "type" in data && data["type"] == VStr("evaluate")
    ensures route == Reset <==> "type" in data && data["type"] == VStr("reset")
    ensures route == Unhashable <==> "type" in data && (data["type"].VList? || data["type"].VDict?)
  {
    if "type" !in data then UnknownType
    else
      var t := data["type"];
      if t.VList? || t.VDict? then Unhashable
      else if t == VStr("move") || t == VStr("test") then HandleMove
      else if t == VStr("evaluate") then HandleEvaluate
      else if t == VStr("reset") then Reset
      else UnknownType
  }

  /** Every string type other than the four known ones, and a missing type, get the error reply. */
  lemma UnknownTypesGetErrorReply(data: map<string, Value>)
    requires "type" !in data || (data["type"].VStr? && data["type"].s !in {"move", "test", "evaluate", "reset"})
    ensures HandlePayload(data) == UnknownType
  {
  }
}
