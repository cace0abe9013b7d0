/** The game logic of games/tetris.c: pieces as 16-bit masks, the board as rows of cells, and the
    steps of a game driven by keys and timer ticks. */
module Tetris {
  import opened Bits
  import opened Common

  const BOARD_W: nat := 10
  const BOARD_H: nat := 20

  type Row = seq<nat>
  type Board = seq<Row>

  const PIECES: seq<seq<nat>> := [
    [0x0F00, 0x2222, 0x00F0, 0x4444],
    [0x6600, 0x6600, 0x6600, 0x6600],
    [0x0E40, 0x4C40, 0x4E00, 0x4640],
    [0x06C0, 0x8C40, 0x6C00, 0x4620],
    [0x0C60, 0x4C80, 0xC600, 0x2640],
    [0x0E80, 0xC440, 0x2E00, 0x44C0],
    [0x0E20, 0x44C0, 0x8E00, 0xC440]]

  predicate PieceOk(piece: nat, rot: nat) { piece < 7 && rot < 4 }

  /** pieces[piece][rot] */
  function Mask(piece: nat, rot: nat): (m: nat)
    requires PieceOk(piece, rot)
    ensures 0 < m < 0x1_0000
  {
    PIECES[piece][rot]
  }

  /** piece_bit */
  predicate PieceBit(piece: nat, rot: nat, r: nat, c: nat)
    requires PieceOk(piece, rot) && r < 4 && c < 4
  {
    And(Shr(Mask(piece, rot), 15 - (r * 4 + c)), 1) != 0
  }

  /** A mask holds its cells row by row, the highest bit first. */
  lemma PieceBitIs(piece: nat, rot: nat, r: nat, c: nat)
    requires PieceOk(piece, rot) && r < 4 && c < 4
    ensures PieceBit(piece, rot, r, c) <==> Bit(Mask(piece, rot), 15 - 4 * r - c)
  {
    hide And, Shr, Bit, Mask;
    ShrAndOne(Mask(piece, rot), 15 - 4 * r - c);
  }

  /** Every piece has a cell, in every rotation. */
  lemma PieceHasCell(piece: nat, rot: nat) returns (r: nat, c: nat)
    requires PieceOk(piece, rot)
    ensures r < 4 && c < 4 && PieceBit(piece, rot, r, c)
  {
    hide And, Shr, Bit, Mask;
    var m := Mask(piece, rot);
    var k := SomeBit(m);
    r, c := (15 - k) / 4, (15 - k) % 4;
    ShrAndOne(m, k);
  }

  lemma SomeBit(m: nat) returns (k: nat)
    requires 0 < m < 0x1_0000
    ensures k < 16 && Bit(m, k)
  {
    assert Pow2(16) == 0x1_0000 by { Pow2Values(); Pow2Add(8, 8); }
    if forall j :: 0 <= j < 16 ==> !Bit(m, j) {
      forall j: nat | 0 <= j < 16 ensures Bit(m, j) == Bit(0, j) { ZeroBit(j); }
      BitsDetermine(16, m, 0);
      assert false;
    }
    k :| 0 <= k < 16 && Bit(m, k);
  }

  // ---- the board ----

  ghost predicate BoardOk(b: Board) {
    |b| == BOARD_H && forall y :: 0 <= y < |b| ==> |b[y]| == BOARD_W
  }

  /** A cell of a piece may lie here: inside the walls, above the floor, and not on a filled cell.
      Above the top of the board everything is free. */
  predicate CellFree(b: Board, x: int, y: int)
  {
    0 <= x < BOARD_W && y < BOARD_H && (0 <= y < |b| && x < |b[y]| ==> b[y][x] == 0)
  }

  /** fits */
  predicate Fits(b: Board, piece: nat, rot: nat, px: int, py: int)
    requires PieceOk(piece, rot)
  {
    forall r, c :: 0 <= r < 4 && 0 <= c < 4 && PieceBit(piece, rot, r, c) ==> CellFree(b, px + c, py + r)
  }

  /** The piece at (px, py) covers cell (x, y). */
  predicate Covers(piece: nat, rot: nat, px: int, py: int, x: int, y: int)
    requires PieceOk(piece, rot)
  {
    0 <= y - py < 4 && 0 <= x - px < 4 && PieceBit(piece, rot, y - py, x - px)
  }

  /** lock_piece: the cells of the piece that lie on the board take its colour. */
  ghost function Locked(b: Board, piece: nat, rot: nat, px: int, py: int): (b': Board)
    requires BoardOk(b) && PieceOk(piece, rot)
    ensures BoardOk(b')
    ensures forall y, x :: 0 <= y < BOARD_H && 0 <= x < BOARD_W ==>
              b'[y][x] == if Covers(piece, rot, px, py, x, y) then piece + 1 else b[y][x]
  {
    seq(BOARD_H, y requires 0 <= y < BOARD_H =>
      seq(BOARD_W, x requires 0 <= x < BOARD_W =>
        if Covers(piece, rot, px, py, x, y) then piece + 1 else b[y][x]))
  }

  /** Locking a piece that fits never overwrites a filled cell. */
  lemma LockOverwritesNothing(b: Board, piece: nat, rot: nat, px: int, py: int, x: nat, y: nat)
    requires BoardOk(b) && PieceOk(piece, rot) && Fits(b, piece, rot, px, py) && x < BOARD_W && y < BOARD_H
    ensures Covers(piece, rot, px, py, x, y) ==> b[y][x] == 0
    ensures b[y][x] != 0 ==> Locked(b, piece, rot, px, py)[y][x] == b[y][x]
  {
    hide PieceBit;
    if Covers(piece, rot, px, py, x, y) {
      assert CellFree(b, px + (x - px), py + (y - py));
    }
  }

  // ---- full rows ----

  predicate Full(row: Row) { forall x :: 0 <= x < |row| ==> row[x] != 0 }

  function Empty(): (row: Row)
    ensures |row| == BOARD_W && forall x :: 0 <= x < BOARD_W ==> row[x] == 0
  {
    seq(BOARD_W, x => 0)
  }

  /** The rows that are not full, in order. */
  function NonFull(b: Board): (r: Board)
    ensures forall y :: 0 <= y < |r| ==> r[y] in b && !Full(r[y])
    ensures |r| <= |b|
  {
    if b == [] then [] else (if Full(b[0]) then [] else [b[0]]) + NonFull(b[1..])
  }

  function Empties(n: nat): (b: Board)
    ensures |b| == n && forall y :: 0 <= y < n ==> b[y] == Empty()
  {
    seq(n, y => Empty())
  }

  function NumFull(b: Board): nat { |b| - |NonFull(b)| }

  /** clear_lines: the rows that are not full, in order, below as many empty rows as were full. */
  function Cleared(b: Board): (b': Board)
    ensures |b'| == |b|
  {
    Empties(NumFull(b)) + NonFull(b)
  }

  lemma NonFullStep(b: Board)
    requires b != []
    ensures NonFull(b) == (if Full(b[0]) then [] else [b[0]]) + NonFull(b[1..])
  {
    hide Full;
  }

  lemma {:induction false} NonFullConcat(a: Board, b: Board)
    ensures NonFull(a + b) == NonFull(a) + NonFull(b)
  {
    hide Full, NonFull;
    if a == [] {
      assert a + b == b;
      NonFullNone();
    } else {
      assert (a + b)[1..] == a[1..] + b && (a + b)[0] == a[0];
      NonFullStep(a);
      NonFullStep(a + b);
      NonFullConcat(a[1..], b);
    }
  }

  lemma NonFullNone()
    ensures NonFull([]) == []
  {
  }

  lemma {:induction false} NonFullAll(b: Board)
    requires forall y :: 0 <= y < |b| ==> !Full(b[y])
    ensures NonFull(b) == b
  {
    hide Full, NonFull;
    if b == [] {
      NonFullNone();
    } else {
      NonFullStep(b);
      NonFullAll(b[1..]);
      assert [b[0]] + b[1..] == b;
    }
  }

  lemma ClearedOk(b: Board)
    requires BoardOk(b)
    ensures BoardOk(Cleared(b))
    ensures forall y :: 0 <= y < BOARD_H ==> !Full(Cleared(b)[y])
  {
    assert !Full(Empty()) by { assert Empty()[0] == 0; }
    hide Full;
    var b' := Cleared(b);
    forall y | 0 <= y < BOARD_H ensures |b'[y]| == BOARD_W && !Full(b'[y]) {
      if y >= NumFull(b) { assert b'[y] == NonFull(b)[y - NumFull(b)]; }
    }
  }

  /** At most n rows are full when only n adjacent rows can be. */
  lemma FewFull(b: Board, lo: int, n: nat)
    requires forall y :: 0 <= y < |b| && !(lo <= y < lo + n) ==> !Full(b[y])
    ensures NumFull(b) <= n
  {
    hide Full, NonFull;
    var i := if lo < 0 then 0 else if lo > |b| then |b| else lo;
    var j := if lo + n < 0 then 0 else if lo + n > |b| then |b| else lo + n;
    var top, mid, low := b[..i], b[i..j], b[j..];
    assert b == top + (mid + low);
    NonFullConcat(top, mid + low);
    NonFullConcat(mid, low);
    NonFullAll(top);
    NonFullAll(low);
  }

  /** Locking one piece on a board without full rows fills at most four rows. */
  lemma LockFillsAtMostFour(b: Board, piece: nat, rot: nat, px: int, py: int)
    requires BoardOk(b) && PieceOk(piece, rot) && forall y :: 0 <= y < BOARD_H ==> !Full(b[y])
    ensures NumFull(Locked(b, piece, rot, px, py)) <= 4
  {
    hide PieceBit;
    var b' := Locked(b, piece, rot, px, py);
    forall y | 0 <= y < |b'| && !(py <= y < py + 4) ensures !Full(b'[y]) {
      assert b'[y] == b[y];
    }
    FewFull(b', py, 4);
  }

  // ---- the game ----

  datatype Game = Game(board: Board, piece: nat, rot: nat, x: int, y: int, next: nat,
                       score: int, level: int, lines: int, over: bool,
                       lastDrop: nat, dropInterval: int, rng: nat)

  const KEY_UP: int := 128
  const KEY_DOWN: int := 129
  const KEY_LEFT: int := 130
  const KEY_RIGHT: int := 131
  const KEY_SPACE: int := 32

  /** rng_piece: the new generator state and the piece drawn. */
  function Draw(rng: nat): (r: (nat, nat))
    ensures r.0 < TWO32 && r.1 < 7
  {
    var rng' := (rng * 1103515245 + 12345) % TWO32;
    (rng', rng' / 0x1_0000 % 7)
  }

  /** 4005161829 is the inverse of the generator's factor modulo 2^32. */
  lemma InverseFactor(d: int, q: int)
    requires 1103515245 * d == TWO32 * q
    ensures d == TWO32 * (4005161829 * q - 1029054899 * d)
  {
  }

  lemma SmallMultiple(d: int, c: int)
    requires d == TWO32 * c && d < TWO32 && 0 < d + TWO32
    ensures d == 0
  {
  }

  lemma SameRest(x: nat, y: nat)
    requires x % TWO32 == y % TWO32
    ensures y - x == TWO32 * (y / TWO32 - x / TWO32)
  {
  }

  /** Different states have different successors: games with different seeds never fall into step. */
  lemma DrawDistinct(a: nat, b: nat)
    requires a < TWO32 && b < TWO32 && Draw(a).0 == Draw(b).0
    ensures a == b
  {
    var x, y := a * 1103515245 + 12345, b * 1103515245 + 12345;
    assert x % TWO32 == y % TWO32;
    hide Draw;
    SameRest(x, y);
    var q := y / TWO32 - x / TWO32;
    InverseFactor(b - a, q);
    SmallMultiple(b - a, 4005161829 * q - 1029054899 * (b - a));
  }

  function Scores(cl: nat): int
    requires cl <= 4
  {
    [0, 100, 300, 500, 800][cl]
  }

  /** (int)(now - last) on 64-bit counters. */
  function Elapsed(now: nat, last: nat): int {
    var d := (now + TWO64 - last % TWO64) % TWO64 % TWO32;
    if d < TWO32 / 2 then d else d - TWO32
  }

  /** spawn_piece */
  function Spawn(g: Game): Game
    requires g.next < 7
  {
    var (rng', next') := Draw(g.rng);
    var x, y := BOARD_W / 2 - 2, -1;
    g.(piece := g.next, next := next', rng := rng', rot := 0, x := x, y := y,
       over := g.over || !Fits(g.board, g.next, 0, x, y))
  }

  /** A piece that fits is above the floor. */
  lemma FitsAboveFloor(b: Board, piece: nat, rot: nat, px: int, py: int)
    requires PieceOk(piece, rot) && Fits(b, piece, rot, px, py)
    ensures py < BOARD_H
  {
    hide PieceBit;
    var r, c := PieceHasCell(piece, rot);
    assert CellFree(b, px + c, py + r);
  }

  /** Where a hard drop from height y ends. */
  function DropTo(b: Board, piece: nat, rot: nat, x: int, y: int): (y': int)
    requires PieceOk(piece, rot)
    ensures y <= y' && !Fits(b, piece, rot, x, y' + 1)
    ensures y < y' ==> Fits(b, piece, rot, x, y')
    decreases BOARD_H - y
  {
    hide Fits;
    if Fits(b, piece, rot, x, y + 1) then
      FitsAboveFloor(b, piece, rot, x, y + 1);
      DropTo(b, piece, rot, x, y + 1)
    else y
  }

  /** tetris_key */
  function Key(g: Game, key: int): Game
    requires PieceOk(g.piece, g.rot)
  {
    if g.over then g
    else if key == KEY_LEFT && Fits(g.board, g.piece, g.rot, g.x - 1, g.y) then g.(x := g.x - 1)
    else if key == KEY_RIGHT && Fits(g.board, g.piece, g.rot, g.x + 1, g.y) then g.(x := g.x + 1)
    else if key == KEY_DOWN && Fits(g.board, g.piece, g.rot, g.x, g.y + 1) then g.(y := g.y + 1)
    else if key == KEY_UP then
      var rot' := (g.rot + 1) % 4;
      if Fits(g.board, g.piece, rot', g.x, g.y) then g.(rot := rot') else g
    else if key == KEY_SPACE then g.(y := DropTo(g.board, g.piece, g.rot, g.x, g.y))
    else g
  }

  /** The game with the piece moved or turned, if it fits there. */
  function Placed(g: Game, ro: nat, px: int, py: int): Game
    requires PieceOk(g.piece, ro)
  {
    if Fits(g.board, g.piece, ro, px, py) then g.(rot := ro, x := px, y := py) else g
  }

  /** A key that moves the piece does it if the piece fits, and the others do nothing. */
  lemma KeyCases(g: Game, key: int)
    requires PieceOk(g.piece, g.rot)
    ensures Key(g, key) ==
            if g.over then g
            else if key == KEY_LEFT then Placed(g, g.rot, g.x - 1, g.y)
            else if key == KEY_RIGHT then Placed(g, g.rot, g.x + 1, g.y)
            else if key == KEY_DOWN then Placed(g, g.rot, g.x, g.y + 1)
            else if key == KEY_UP then Placed(g, (g.rot + 1) % 4, g.x, g.y)
            else if key == KEY_SPACE then g.(y := DropTo(g.board, g.piece, g.rot, g.x, g.y))
            else g
  {
    hide Fits, DropTo;
  }

  /** The bookkeeping of tetris_tick after cl rows were cleared. */
  function Count(g: Game, cl: nat): Game
    requires cl <= 4
  {
    if cl == 0 then g
    else
      var lines' := g.lines + cl;
      var level' := 1 + lines' / 10;
      var interval := 50 - (level' - 1) * 4;
      g.(score := g.score + Scores(cl) * g.level, lines := lines', level := level',
         dropInterval := if interval < 8 then 8 else interval)
  }

  /** The landing branch of tetris_tick. */
  ghost function Land(g: Game): Game
    requires BoardOk(g.board) && PieceOk(g.piece, g.rot) && g.next < 7
    requires NumFull(Locked(g.board, g.piece, g.rot, g.x, g.y)) <= 4
  {
    var b := Locked(g.board, g.piece, g.rot, g.x, g.y);
    Spawn(Count(g.(board := Cleared(b)), NumFull(b)))
  }

  /** tetris_tick at time now; also whether anything was done. */
  ghost function TickAt(g: Game, now: nat): (r: (Game, bool))
    requires GameInv(g)
  {
    if g.over || Elapsed(now, g.lastDrop) < g.dropInterval then (g, false)
    else
      var g1 := g.(lastDrop := now);
      if Fits(g.board, g.piece, g.rot, g.x, g.y + 1) then (g1.(y := g.y + 1), true)
      else
        LockFillsAtMostFour(g.board, g.piece, g.rot, g.x, g.y);
        (Land(g1), true)
  }

  /** Between ticks no row is full, the active piece fits unless the game is over, and the counters
      agree with the number of lines cleared. */
  ghost predicate GameInv(g: Game) {
    && BoardOk(g.board) && (forall y :: 0 <= y < BOARD_H ==> !Full(g.board[y]))
    && PieceOk(g.piece, g.rot) && g.next < 7
    && (g.over || Fits(g.board, g.piece, g.rot, g.x, g.y)) && g.y >= -1
    && g.lines >= 0 && g.level == 1 + g.lines / 10
    && g.dropInterval == (if g.level <= 11 then 50 - (g.level - 1) * 4 else 8)
  }

  lemma InvParts(g: Game)
    requires GameInv(g)
    ensures BoardOk(g.board) && PieceOk(g.piece, g.rot) && g.next < 7
  {
    hide Fits, Full;
  }

  lemma InvLater(g: Game, now: nat)
    requires GameInv(g)
    ensures GameInv(g.(lastDrop := now))
  {
    hide Fits, Full;
  }

  lemma SpawnKeeps(g: Game)
    requires BoardOk(g.board) && (forall y :: 0 <= y < BOARD_H ==> !Full(g.board[y])) && g.next < 7
    requires g.lines >= 0 && g.level == 1 + g.lines / 10
    requires g.dropInterval == (if g.level <= 11 then 50 - (g.level - 1) * 4 else 8)
    ensures GameInv(Spawn(g))
  {
    hide Fits, Full, Draw;
  }

  lemma LandKeeps(g: Game)
    requires GameInv(g)
    ensures NumFull(Locked(g.board, g.piece, g.rot, g.x, g.y)) <= 4
    ensures GameInv(Land(g))
  {
    LockFillsAtMostFour(g.board, g.piece, g.rot, g.x, g.y);
    var b := Locked(g.board, g.piece, g.rot, g.x, g.y);
    ClearedOk(b);
    hide Fits, Full, Draw, Cleared, NumFull, Locked, Scores, Spawn;
    SpawnKeeps(Count(g.(board := Cleared(b)), NumFull(b)));
  }

  lemma KeyKeeps(g: Game, key: int)
    requires GameInv(g)
    ensures GameInv(Key(g, key)) && Key(g, key).board == g.board
  {
    hide Fits, Full;
  }

  lemma TickKeeps(g: Game, now: nat)
    requires GameInv(g)
    ensures GameInv(TickAt(g, now).0)
  {
    hide Fits, Full, Land;
    LandKeeps(g.(lastDrop := now));
  }

  datatype Event = KeyPress(key: int) | TimeIs(now: nat)

  /** The state after a sequence of keys and ticks; the invariant holds throughout. */
  ghost function Run(g: Game, es: seq<Event>): (g': Game)
    requires GameInv(g)
    ensures GameInv(g')
    decreases |es|
  {
    if es == [] then g
    else
      match es[0]
      case KeyPress(key) =>
        KeyKeeps(g, key);
        Run(Key(g, key), es[1..])
      case TimeIs(now) =>
        TickKeeps(g, now);
        Run(TickAt(g, now).0, es[1..])
  }

  /** tetris_init at time now. */
  function InitAt(now: nat): Game {
    var (rng, piece) := Draw(now % TWO32);
    Spawn(Game(Empties(BOARD_H), 0, 0, 0, 0, piece, 0, 1, 0, false, now, 50, rng))
  }

  lemma InitKeeps(now: nat)
    ensures GameInv(InitAt(now))
  {
    hide Fits, Draw, Spawn;
    var (rng, piece) := Draw(now % TWO32);
    forall y | 0 <= y < BOARD_H ensures !Full(Empties(BOARD_H)[y]) {
      assert Empties(BOARD_H)[y][0] == 0;
    }
    SpawnKeeps(Game(Empties(BOARD_H), 0, 0, 0, 0, piece, 0, 1, 0, false, now, 50, rng));
  }

  // ---- cells ----

  function RowCells(row: Row): nat {
    if row == [] then 0 else (if row[0] != 0 then 1 else 0) + RowCells(row[1..])
  }

  function Cells(b: Board): nat {
    if b == [] then 0 else RowCells(b[0]) + Cells(b[1..])
  }

  lemma {:induction false} FullCells(row: Row)
    ensures Full(row) ==> RowCells(row) == |row|
    ensures (forall x :: 0 <= x < |row| ==> row[x] == 0) ==> RowCells(row) == 0
  {
    if row != [] {
      FullCells(row[1..]);
      if Full(row) { assert Full(row[1..]); }
    }
  }

  lemma {:induction false} CellsConcat(a: Board, b: Board)
    ensures Cells(a + b) == Cells(a) + Cells(b)
  {
    if a == [] {
      assert a + b == b;
    } else {
      assert (a + b)[1..] == a[1..] + b;
      CellsConcat(a[1..], b);
    }
  }

  lemma {:induction false} EmptyCells(n: nat)
    ensures Cells(Empties(n)) == 0
  {
    hide Full, RowCells, Empty;
    if n > 0 {
      EmptyCells(n - 1);
      EmptyRow();
      assert Empties(n)[1..] == Empties(n - 1) && Empties(n)[0] == Empty();
    }
  }

  lemma EmptyRow()
    ensures RowCells(Empty()) == 0
  {
    hide RowCells, Full;
    FullCells(Empty());
  }

  lemma {:induction false} NonFullCells(b: Board)
    requires forall y :: 0 <= y < |b| ==> |b[y]| == BOARD_W
    ensures Cells(b) == Cells(NonFull(b)) + BOARD_W * NumFull(b)
  {
    hide Full;
    if b != [] {
      NonFullCells(b[1..]);
      FullCells(b[0]);
      CellsConcat(if Full(b[0]) then [] else [b[0]], NonFull(b[1..]));
      CellsOne(b[0]);
    }
  }

  lemma CellsOne(row: Row)
    ensures Cells([row]) == RowCells(row) && Cells([]) == 0
  {
    assert [row][1..] == [];
  }

  /** Clearing takes away exactly the cells of the full rows. */
  lemma ClearedCells(b: Board)
    requires BoardOk(b)
    ensures Cells(b) == Cells(Cleared(b)) + BOARD_W * NumFull(b)
  {
    hide Full;
    NonFullCells(b);
    EmptyCells(NumFull(b));
    CellsConcat(Empties(NumFull(b)), NonFull(b));
  }

  // ---- in place ----

  /** The board after the rows from n on were inspected, k of them full: k empty rows, the first rows
      untouched, then the others without the full ones. */
  function Partly(b: Board, n: nat, k: nat): Board
    requires n <= |b|
  {
    Empties(k) + b[..n] + NonFull(b[n..])
  }

  class TetrisGame {
    const board: array<Row>
    var piece: nat
    var rot: nat
    var x: int
    var y: int
    var next: nat
    var score: int
    var level: int
    var lines: int
    var over: bool
    var lastDrop: nat
    var dropInterval: int
    var rng: nat

    ghost function Abs(): Game
      reads this, board
    {
      Game(board[..], piece, rot, x, y, next, score, level, lines, over, lastDrop, dropInterval, rng)
    }

    /** tetris_init */
    constructor (now: nat)
      ensures fresh(board) && Abs() == InitAt(now) && GameInv(Abs())
    {
      board := new Row[BOARD_H](i => Empty());
      var (rng', piece') := Draw(now % TWO32);
      rng, next := rng', piece';
      piece, rot, x, y := 0, 0, 0, 0;
      score, level, lines, over, lastDrop, dropInterval := 0, 1, 0, false, now, 50;
      new;
      assert board[..] == Empties(BOARD_H);
      SpawnPiece();
      InitKeeps(now);
    }

    /** fits */
    method FitsAt(p: nat, ro: nat, px: int, py: int) returns (ok: bool)
      requires BoardOk(board[..]) && PieceOk(p, ro)
      ensures ok <==> Fits(board[..], p, ro, px, py)
    {
      hide PieceBit;
      var r := 0;
      while r < 4
        invariant 0 <= r <= 4
        invariant forall i, j ::
                    0 <= i < r && 0 <= j < 4 && PieceBit(p, ro, i, j) ==> CellFree(board[..], px + j, py + i)
      {
        var c := 0;
        while c < 4
          invariant 0 <= c <= 4
          invariant forall j :: 0 <= j < c && PieceBit(p, ro, r, j) ==> CellFree(board[..], px + j, py + r)
        {
          if PieceBit(p, ro, r, c) {
            var cx, cy := px + c, py + r;
            if cx < 0 || cx >= BOARD_W || cy >= BOARD_H {
              return false;
            }
            if cy >= 0 && board[cy][cx] != 0 {
              return false;
            }
          }
          c := c + 1;
        }
        r := r + 1;
      }
      return true;
    }

    /** lock_piece */
    method LockPiece()
      requires BoardOk(board[..]) && PieceOk(piece, rot)
      modifies board
      ensures board[..] == Locked(old(board[..]), piece, rot, x, y)
    {
      hide PieceBit;
      ghost var b := board[..];
      var r := 0;
      while r < 4
        invariant 0 <= r <= 4 && BoardOk(board[..])
        invariant forall v, u :: 0 <= v < BOARD_H && 0 <= u < BOARD_W ==>
                    board[v][u] == if v < y + r && Covers(piece, rot, x, y, u, v) then piece + 1 else b[v][u]
      {
        LockRow(r, b);
        r := r + 1;
      }
      assert board[..] == Locked(b, piece, rot, x, y) by {
        forall v | 0 <= v < BOARD_H ensures board[v] == Locked(b, piece, rot, x, y)[v] {
        }
      }
    }

    /** The inner loop of lock_piece. */
    method LockRow(r: nat, ghost b: Board)
      requires r < 4 && BoardOk(board[..]) && PieceOk(piece, rot) && BoardOk(b)
      requires forall v, u :: 0 <= v < BOARD_H && 0 <= u < BOARD_W ==>
                 board[v][u] == if v < y + r && Covers(piece, rot, x, y, u, v) then piece + 1 else b[v][u]
      modifies board
      ensures BoardOk(board[..])
      ensures forall v, u :: 0 <= v < BOARD_H && 0 <= u < BOARD_W ==>
                board[v][u] == if v < y + r + 1 && Covers(piece, rot, x, y, u, v) then piece + 1 else b[v][u]
    {
      hide PieceBit;
      var c := 0;
      while c < 4
        invariant 0 <= c <= 4 && BoardOk(board[..])
        invariant forall v, u :: 0 <= v < BOARD_H && 0 <= u < BOARD_W ==>
                    board[v][u] ==
                    if (v < y + r || (v == y + r && u < x + c)) && Covers(piece, rot, x, y, u, v) then piece + 1
                    else b[v][u]
      {
        if PieceBit(piece, rot, r, c) {
          var cx, cy := x + c, y + r;
          if cy >= 0 && cy < BOARD_H && cx >= 0 && cx < BOARD_W {
            board[cy] := board[cy][cx := piece + 1];
          }
        }
        c := c + 1;
      }
    }

    method IsFull(r: nat) returns (full: bool)
      requires BoardOk(board[..]) && r < BOARD_H
      ensures full <==> Full(board[r])
    {
      var c := 0;
      while c < BOARD_W
        invariant 0 <= c <= BOARD_W && forall j :: 0 <= j < c ==> board[r][j] != 0
      {
        if board[r][c] == 0 {
          return false;
        }
        c := c + 1;
      }
      return true;
    }

    /** Row r goes, the rows above it move down by one, and row 0 is cleared. */
    method RemoveRow(r: nat)
      requires BoardOk(board[..]) && r < BOARD_H
      modifies board
      ensures board[..] == [Empty()] + old(board[..r]) + old(board[r + 1..]) && BoardOk(board[..])
    {
      ghost var b := board[..];
      var rr := r;
      while rr > 0
        invariant 0 <= rr <= r
        invariant forall k :: rr < k <= r ==> board[k] == b[k - 1]
        invariant forall k :: 0 <= k < BOARD_H && !(rr < k <= r) ==> board[k] == b[k]
      {
        board[rr] := board[rr - 1];
        rr := rr - 1;
      }
      board[0] := Empty();
      assert board[..] == [Empty()] + b[..r] + b[r + 1..];
    }

    /** clear_lines: looks at row r again after removing it. */
    method ClearLines() returns (cleared: nat)
      requires BoardOk(board[..])
      modifies board
      ensures board[..] == Cleared(old(board[..])) && cleared == NumFull(old(board[..]))
    {
      hide Full, NonFull, Partly, NumFull, Cleared;
      ghost var b := board[..];
      ghost var n := BOARD_H;
      cleared := 0;
      var r := BOARD_H - 1;
      PartlyStart(b);
      while r >= 0
        invariant -1 <= r < BOARD_H && 0 <= n <= BOARD_H && BoardOk(board[..])
        invariant r >= 0 ==> n == Untouched(r, cleared)
        invariant r < 0 ==> n == 0
        invariant cleared == NumFull(b[n..]) && board[..] == Partly(b, n, cleared)
        decreases r + 1 + n
      {
        var full := IsFull(r);
        PartlyRow(b, n, cleared, r);
        if full {
          PartlyFull(b, n, cleared, r);
          RemoveRow(r);
          cleared := cleared + 1;
          n := n - 1;
        } else {
          PartlyNonFull(b, n, cleared, r);
          if r + 1 > cleared { n := n - 1; }
          r := r - 1;
        }
      }
      PartlyDone(b, cleared);
    }

    /** spawn_piece */
    method SpawnPiece()
      requires BoardOk(board[..]) && next < 7
      modifies this
      ensures Abs() == Spawn(old(Abs()))
    {
      hide Fits, Draw, BoardOk;
      var (rng', next') := Draw(rng);
      piece, next, rng := next, next', rng';
      rot, x, y := 0, BOARD_W / 2 - 2, -1;
      var ok := FitsAt(piece, rot, x, y);
      if !ok {
        over := true;
      }
    }

    /** tetris_key */
    method PressKey(key: int)
      requires GameInv(Abs())
      modifies this
      ensures GameInv(Abs()) && PieceOk(old(piece), old(rot)) && Abs() == Key(old(Abs()), key)
    {
      hide GameInv, BoardOk, Fits, DropTo, Key, Placed;
      ghost var g := Abs();
      KeyKeeps(g, key);
      InvParts(g);
      KeyCases(g, key);
      if over {
        return;
      }
      if key == KEY_LEFT {
        TryPlace(rot, x - 1, y);
      } else if key == KEY_RIGHT {
        TryPlace(rot, x + 1, y);
      } else if key == KEY_DOWN {
        TryPlace(rot, x, y + 1);
      } else if key == KEY_UP {
        TryPlace((rot + 1) % 4, x, y);
      } else if key == KEY_SPACE {
        HardDrop();
      }
    }

    /** Moves or turns the piece if it fits there. */
    method TryPlace(ro: nat, px: int, py: int)
      requires BoardOk(board[..]) && PieceOk(piece, rot) && ro < 4
      modifies this`rot, this`x, this`y
      ensures Abs() == Placed(old(Abs()), ro, px, py)
    {
      hide BoardOk, Fits;
      var ok := FitsAt(piece, ro, px, py);
      if ok {
        rot, x, y := ro, px, py;
      }
    }

    /** The loop behind the space key. */
    method HardDrop()
      requires BoardOk(board[..]) && PieceOk(piece, rot)
      modifies this`y
      ensures Abs() == old(Abs()).(y := DropTo(old(Abs()).board, piece, rot, x, old(y)))
    {
      hide Fits, DropTo;
      var more := FitsAt(piece, rot, x, y + 1);
      DropStep(board[..], piece, rot, x, y);
      while more
        invariant more <==> Fits(board[..], piece, rot, x, y + 1)
        invariant DropTo(board[..], piece, rot, x, y) == DropTo(board[..], piece, rot, x, old(y))
        decreases BOARD_H - y
      {
        FitsAboveFloor(board[..], piece, rot, x, y + 1);
        DropStep(board[..], piece, rot, x, y);
        y := y + 1;
        more := FitsAt(piece, rot, x, y + 1);
      }
      DropStep(board[..], piece, rot, x, y);
    }

    /** tetris_tick */
    method Tick(now: nat) returns (done: bool)
      requires GameInv(Abs())
      modifies this, board
      ensures GameInv(Abs()) && old(GameInv(Abs())) && (Abs(), done) == TickAt(old(Abs()), now)
    {
      hide Fits, Land, GameInv, BoardOk, Elapsed;
      ghost var g := Abs();
      TickKeeps(g, now);
      InvParts(g);
      InvLater(g, now);
      if over {
        return false;
      }
      if Elapsed(now, lastDrop) < dropInterval {
        return false;
      }
      lastDrop := now;
      var free := FitsAt(piece, rot, x, y + 1);
      if free {
        y := y + 1;
      } else {
        LandPiece(g.(lastDrop := now));
      }
      return true;
    }

    /** The landing branch of tetris_tick. */
    method LandPiece(ghost g: Game)
      requires g == Abs() && GameInv(g)
      modifies this, board
      ensures NumFull(Locked(g.board, g.piece, g.rot, g.x, g.y)) <= 4 && Abs() == Land(g)
    {
      LandKeeps(g);
      ClearedOk(Locked(g.board, g.piece, g.rot, g.x, g.y));
      assert BoardOk(board[..]) && PieceOk(piece, rot);
      hide GameInv, BoardOk, Fits, Full, Cleared, Spawn, Locked, NumFull, Scores;
      LockPiece();
      var cl := ClearLines();
      Reward(cl);
      SpawnPiece();
    }

    /** The score and the speed after cl rows went. */
    method Reward(cl: nat)
      requires cl <= 4
      modifies this`score, this`lines, this`level, this`dropInterval
      ensures Abs() == Count(old(Abs()), cl)
    {
      if cl > 0 {
        score := score + Scores(cl) * level;
        lines := lines + cl;
        level := 1 + lines / 10;
        dropInterval := 50 - (level - 1) * 4;
        if dropInterval < 8 {
          dropInterval := 8;
        }
      }
    }
  }

  lemma DropStep(b: Board, piece: nat, rot: nat, x: int, y: int)
    requires PieceOk(piece, rot)
    ensures DropTo(b, piece, rot, x, y) ==
            if Fits(b, piece, rot, x, y + 1) then DropTo(b, piece, rot, x, y + 1) else y
  {
    hide Fits;
  }

  lemma PartlyStart(b: Board)
    ensures Partly(b, |b|, 0) == b && NumFull(b[|b|..]) == 0
  {
    assert b[|b|..] == [];
  }

  lemma PartlyDone(b: Board, k: nat)
    requires k == NumFull(b[0..])
    ensures Partly(b, 0, k) == Cleared(b) && k == NumFull(b)
  {
    hide NonFull, Full;
    assert b[0..] == b;
  }

  /** The number of untouched rows when row r is inspected after k removals. */
  function Untouched(r: nat, k: nat): nat { if r + 1 >= k then r + 1 - k else 0 }

  /** The row under inspection is the last untouched one, or one of the empty ones. */
  lemma PartlyRow(b: Board, n: nat, k: nat, r: nat)
    requires BoardOk(b) && n <= |b| && r < |b| && k == NumFull(b[n..]) && n == Untouched(r, k)
    ensures |Partly(b, n, k)| == |b|
    ensures n > 0 ==> Partly(b, n, k)[r] == b[n - 1]
    ensures n == 0 ==> !Full(Partly(b, n, k)[r])
  {
    hide NonFull, Full, Empty;
    EmptyNotFull();
  }

  lemma EmptyNotFull()
    ensures !Full(Empty())
  {
    assert Empty()[0] == 0;
  }

  /** One more row looked at. */
  lemma LastRow(b: Board, n: nat)
    requires 0 < n <= |b|
    ensures NonFull(b[n - 1..]) == (if Full(b[n - 1]) then [] else [b[n - 1]]) + NonFull(b[n..])
    ensures NumFull(b[n - 1..]) == NumFull(b[n..]) + if Full(b[n - 1]) then 1 else 0
  {
    hide Full, NonFull;
    NonFullStep(b[n - 1..]);
    assert b[n - 1..][1..] == b[n..];
  }

  lemma PartlyFull(b: Board, n: nat, k: nat, r: nat)
    requires n <= |b| && r < |b| && k == NumFull(b[n..]) && n == Untouched(r, k)
    requires |Partly(b, n, k)| == |b| && Full(Partly(b, n, k)[r])
    requires n > 0 ==> Partly(b, n, k)[r] == b[n - 1]
    requires n == 0 ==> !Full(Partly(b, n, k)[r])
    ensures n > 0 && NumFull(b[n - 1..]) == k + 1
    ensures var p := Partly(b, n, k); [Empty()] + p[..r] + p[r + 1..] == Partly(b, n - 1, k + 1)
  {
    hide Full, NonFull, Empty, Empties;
    LastRow(b, n);
    RemoveAt(Empties(k), b[..n], NonFull(b[n..]), r, Empty());
    OneMoreEmpty(k);
    assert b[..n][..n - 1] == b[..n - 1];
  }

  lemma OneMoreEmpty(k: nat)
    ensures [Empty()] + Empties(k) == Empties(k + 1)
  {
    hide Empty;
  }

  /** Taking the last of the middle rows out of three parts, with a new row on top. */
  lemma RemoveAt(top: Board, mid: Board, low: Board, r: nat, e: Row)
    requires mid != [] && r == |top| + |mid| - 1
    ensures var p := top + mid + low; [e] + p[..r] + p[r + 1..] == ([e] + top) + mid[..|mid| - 1] + low
  {
    var p, m := top + mid + low, |mid| - 1;
    assert p[..r] == top + mid[..m];
    assert p[r + 1..] == low;
    assert [e] + (top + mid[..m]) == ([e] + top) + mid[..m];
  }

  lemma PartlyNonFull(b: Board, n: nat, k: nat, r: nat)
    requires n <= |b| && r < |b| && k == NumFull(b[n..]) && n == Untouched(r, k)
    requires |Partly(b, n, k)| == |b| && !Full(Partly(b, n, k)[r])
    requires n > 0 ==> Partly(b, n, k)[r] == b[n - 1]
    ensures n > 0 ==> NumFull(b[n - 1..]) == k && Partly(b, n - 1, k) == Partly(b, n, k)
  {
    hide Full, NonFull, Empty, Empties;
    if n > 0 {
      LastRow(b, n);
      assert b[..n] == b[..n - 1] + [b[n - 1]];
      Regroup(Empties(k), b[..n - 1], b[n - 1], NonFull(b[n..]));
    }
  }

  lemma Regroup(top: Board, mid: Board, row: Row, low: Board)
    ensures top + (mid + [row]) + low == top + mid + ([row] + low)
  {
  }
}
