/**
 * The engine's shared constants and bit-packing helpers (minimax/inc/gomoku/Gomoku.hpp):
 * the 2-bit cell codes, the player macros, the eight direction offsets, and the
 * `pack_cells_*` helpers that build 2-bit-per-cell patterns in an `unsigned int`.
 */
module Packing {

  /** Cell codes; each fits in two bits. */
  const EmptySpace: int := 0
  const Player1: int := 1
  const Player2: int := 2
  const OutOfBounds: int := 3

  const BoardSize: int := 19

  /** The characters a board uses for the two players' stones. */
  const PlayerX: char := 'X'
  const PlayerO: char := 'O'

  lemma CellCodes()
    ensures EmptySpace != Player1 && EmptySpace != Player2 && EmptySpace != OutOfBounds
    ensures Player1 != Player2 && Player1 != OutOfBounds && Player2 != OutOfBounds
    ensures 0 <= EmptySpace < 4 && 0 <= Player1 < 4 && 0 <= Player2 < 4 && 0 <= OutOfBounds < 4
  {
  }

  /** `OPPONENT(player)`: player 1's opponent is player 2; every other value maps to player 1. */
  function Opponent(player: int): (r: int)
    ensures r == Player1 || r == Player2
    ensures r == Player2 <==> player == Player1
  {
    if player == Player1 then Player2 else Player1
  }

  lemma OpponentInvolutive(player: int)
    requires player == Player1 || player == Player2
    ensures Opponent(Opponent(player)) == player && Opponent(player) != player
  {
  }

  /** `DIRECTIONS`: (dx, dy) offsets for north, north-east, east, ..., north-west. */
  const Directions: seq<(int, int)> :=
    [(0, -1), (1, -1), (1, 0), (1, 1), (0, 1), (-1, 1), (-1, 0), (-1, -1)]

  /** Eight distinct unit steps; entry i + 4 points the opposite way from entry i. */
  lemma DirectionsTable()
    ensures |Directions| == 8
    ensures forall i :: 0 <= i < 8 ==>
      -1 <= Directions[i].0 <= 1 && -1 <= Directions[i].1 <= 1 && Directions[i] != (0, 0)
    ensures forall i, j :: 0 <= i < 8 && 0 <= j < 8 && i != j ==> Directions[i] != Directions[j]
    ensures forall i :: 0 <= i < 4 ==>
      Directions[i + 4] == (-Directions[i].0, -Directions[i].1)
  {
  }

  /** An `unsigned int`. */
  type Word = bv32

  /** A shift amount. */
  type Shift = bv8

  /** The two bits of `w` at `shift`. */
  function Field(w: Word, shift: Shift): (r: Word)
    requires shift <= 30
    ensures r < 4
  {
    (w >> shift) & 3
  }

  /** `pack_cells_4`: a in bits 6-7, b in bits 4-5, c in bits 2-3, d in bits 0-1. */
  function PackCells4(a: Word, b: Word, c: Word, d: Word): Word {
    (a << 6) | (b << 4) | (c << 2) | d
  }

  function PackCells3(a: Word, b: Word, c: Word): Word {
    (a << 4) | (b << 2) | c
  }

  function PackCells2(a: Word, b: Word): Word {
    (a << 2) | b
  }

  function PackCells1(a: Word): Word {
    a
  }

  /** For 2-bit inputs each value is recovered by shift and mask, and nothing lies above bit 7. */
  lemma PackCells4Fields(a: Word, b: Word, c: Word, d: Word)
    requires a < 4 && b < 4 && c < 4 && d < 4
    ensures var p := PackCells4(a, b, c, d);
      Field(p, 6) == a && Field(p, 4) == b && Field(p, 2) == c && Field(p, 0) == d && p < 256
  {
  }

  lemma PackCells3Fields(a: Word, b: Word, c: Word)
    requires a < 4 && b < 4 && c < 4
    ensures var p := PackCells3(a, b, c);
      Field(p, 4) == a && Field(p, 2) == b && Field(p, 0) == c && p < 64
  {
  }

  lemma PackCells2Fields(a: Word, b: Word)
    requires a < 4 && b < 4
    ensures var p := PackCells2(a, b);
      Field(p, 2) == a && Field(p, 0) == b && p < 16
  {
  }

  /** Packing is injective on 2-bit inputs. */
  lemma PackCellsInjective(a: Word, b: Word, c: Word, d: Word, a': Word, b': Word, c': Word, d': Word)
    requires a < 4 && b < 4 && c < 4 && d < 4 && a' < 4 && b' < 4 && c' < 4 && d' < 4
    ensures PackCells4(a, b, c, d) == PackCells4(a', b', c', d') ==> a == a' && b == b' && c == c' && d == d'
    ensures PackCells3(a, b, c) == PackCells3(a', b', c') ==> a == a' && b == b' && c == c'
    ensures PackCells2(a, b) == PackCells2(a', b') ==> a == a' && b == b'
  {
    PackCells4Fields(a, b, c, d);
    PackCells4Fields(a', b', c', d');
    PackCells3Fields(a, b, c);
    PackCells3Fields(a', b', c');
    PackCells2Fields(a, b);
    PackCells2Fields(a', b');
  }
}
