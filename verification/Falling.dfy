/** What one tick of the game does (games/tetris.c), said of the cells and the counters, and how long a
    piece falls. */
module Falling {
  import opened Common
  import opened Tetris

  // ---- cells as sets ----

  /** The filled cells of the first n rows. */
  ghost function Filled(b: Board, n: nat): set<(int, int)>
    requires BoardOk(b) && n <= BOARD_H
  {
    set y, x | 0 <= y < n && 0 <= x < BOARD_W && b[y][x] != 0 :: (x, y)
  }

  /** The cells of the board that the piece covers. */
  ghost function OnBoard(piece: nat, rot: nat, px: int, py: int): set<(int, int)>
    requires PieceOk(piece, rot)
  {
    set y, x | 0 <= y < BOARD_H && 0 <= x < BOARD_W && Covers(piece, rot, px, py, x, y) :: (x, y)
  }

  ghost function FilledIn(row: Row, y: int, n: nat): set<(int, int)>
    requires n <= |row|
  {
    set x | 0 <= x < n && row[x] != 0 :: (x, y)
  }

  lemma {:induction false} RowCellsConcat(a: Row, b: Row)
    ensures RowCells(a + b) == RowCells(a) + RowCells(b)
  {
    if a == [] {
      assert a + b == b;
    } else {
      assert (a + b)[1..] == a[1..] + b;
      RowCellsConcat(a[1..], b);
    }
  }

  lemma FilledInStep(row: Row, y: int, n: nat)
    requires 0 < n <= |row|
    ensures FilledIn(row, y, n) == FilledIn(row, y, n - 1) + if row[n - 1] != 0 then {(n - 1, y)} else {}
    ensures (n - 1, y) !in FilledIn(row, y, n - 1)
  {
  }

  lemma RowCellsStep(row: Row, n: nat)
    requires 0 < n <= |row|
    ensures RowCells(row[..n]) == RowCells(row[..n - 1]) + if row[n - 1] != 0 then 1 else 0
  {
    assert row[..n] == row[..n - 1] + [row[n - 1]];
    RowCellsConcat(row[..n - 1], [row[n - 1]]);
  }

  lemma NoRowCells(row: Row, y: int)
    ensures |FilledIn(row, y, 0)| == RowCells(row[..0]) == 0
  {
    assert FilledIn(row, y, 0) == {};
  }

  lemma {:induction false} RowCellsFilled(row: Row, y: int, n: nat)
    requires n <= |row|
    ensures |FilledIn(row, y, n)| == RowCells(row[..n])
  {
    hide RowCells, FilledIn;
    if n == 0 {
      NoRowCells(row, y);
    } else {
      RowCellsFilled(row, y, n - 1);
      FilledInStep(row, y, n);
      RowCellsStep(row, n);
    }
  }

  lemma FilledStep(b: Board, n: nat)
    requires BoardOk(b) && 0 < n <= BOARD_H
    ensures Filled(b, n) == Filled(b, n - 1) + FilledIn(b[n - 1], n - 1, BOARD_W)
    ensures Filled(b, n - 1) !! FilledIn(b[n - 1], n - 1, BOARD_W)
  {
  }

  lemma CellsStep(b: Board, n: nat)
    requires BoardOk(b) && 0 < n <= BOARD_H
    ensures Cells(b[..n]) == Cells(b[..n - 1]) + RowCells(b[n - 1][..BOARD_W])
  {
    hide Cells, RowCells;
    assert b[..n] == b[..n - 1] + [b[n - 1]];
    CellsConcat(b[..n - 1], [b[n - 1]]);
    CellsOne(b[n - 1]);
    assert b[n - 1][..BOARD_W] == b[n - 1];
  }

  lemma NoCells(b: Board)
    requires BoardOk(b)
    ensures |Filled(b, 0)| == Cells(b[..0]) == 0
  {
    assert Filled(b, 0) == {};
  }

  /** The count of cells counts the filled ones. */
  lemma {:induction false} CellsFilled(b: Board, n: nat)
    requires BoardOk(b) && n <= BOARD_H
    ensures |Filled(b, n)| == Cells(b[..n])
  {
    hide RowCells, Cells, Filled, FilledIn;
    if n == 0 {
      NoCells(b);
    } else {
      CellsFilled(b, n - 1);
      CellsStep(b, n);
      RowCellsFilled(b[n - 1], n - 1, BOARD_W);
      FilledStep(b, n);
    }
  }

  /** Locking a piece that fits adds its cells on the board to the filled ones. */
  lemma LockAdds(b: Board, piece: nat, rot: nat, px: int, py: int)
    requires BoardOk(b) && PieceOk(piece, rot) && Fits(b, piece, rot, px, py)
    ensures var b' := Locked(b, piece, rot, px, py);
      && Filled(b', BOARD_H) == Filled(b, BOARD_H) + OnBoard(piece, rot, px, py)
      && Filled(b, BOARD_H) !! OnBoard(piece, rot, px, py)
      && Cells(b') == Cells(b) + |OnBoard(piece, rot, px, py)|
  {
    hide Covers, Fits, Cells;
    var b' := Locked(b, piece, rot, px, py);
    forall y, x | 0 <= y < BOARD_H && 0 <= x < BOARD_W && Covers(piece, rot, px, py, x, y) ensures b[y][x] == 0 {
      LockOverwritesNothing(b, piece, rot, px, py, x, y);
    }
    CellsFilled(b, BOARD_H);
    CellsFilled(b', BOARD_H);
    assert b[..BOARD_H] == b && b'[..BOARD_H] == b';
  }

  /** Clearing moves a row that is not full down by the number of full rows below it. */
  lemma {:induction false} ClearedRow(b: Board, y: nat)
    requires y < |b| && !Full(b[y])
    ensures var y' := y + NumFull(b[y + 1..]); y' < |b| && Cleared(b)[y'] == b[y]
  {
    hide Full, NonFull;
    assert b == b[..y] + ([b[y]] + b[y + 1..]);
    NonFullConcat(b[..y], [b[y]] + b[y + 1..]);
    NonFullConcat([b[y]], b[y + 1..]);
    NonFullAll([b[y]]);
    assert Cleared(b) == Empties(NumFull(b)) + (NonFull(b[..y]) + ([b[y]] + NonFull(b[y + 1..])));
  }

  // ---- one tick ----

  /** Points for k rows at once. */
  function Points(k: nat): nat {
    if k == 0 then 0 else if k == 1 then 100 else if k == 2 then 300 else if k == 3 then 500 else 800
  }

  /** g' is g after its piece was locked where it is: the full rows are gone and paid for at the level
      before, and the next piece is at the top. */
  ghost predicate Landed(g: Game, g': Game)
    requires BoardOk(g.board) && PieceOk(g.piece, g.rot) && g.next < 7
  {
    var b := Locked(g.board, g.piece, g.rot, g.x, g.y);
    var k := NumFull(b);
    && k <= 4 && BoardOk(g'.board) && (forall y :: 0 <= y < BOARD_H ==> !Full(g'.board[y]))
    && g'.board == Cleared(b)
    && Cells(g'.board) + 10 * k == Cells(g.board) + |OnBoard(g.piece, g.rot, g.x, g.y)|
    && g'.lines == g.lines + k && g'.level == 1 + (g.lines + k) / 10 && g'.score == g.score + Points(k) * g.level
    && g'.dropInterval == (if g'.level <= 11 then 54 - 4 * g'.level else 8)
    && g'.piece == g.next && g'.rot == 0 && g'.x == 3 && g'.y == -1 && g'.next < 7
    && (g'.over <==> !Fits(g'.board, g.next, 0, 3, -1))
  }

  /** A tick does something exactly when the game is on and the drop interval is over. Then the piece goes
      down by one row if it fits there, and otherwise it is locked. */
  lemma TickEffect(g: Game, now: nat)
    requires GameInv(g)
    ensures BoardOk(g.board) && PieceOk(g.piece, g.rot) && g.next < 7
    ensures var (g', done) := TickAt(g, now);
      && (done <==> !g.over && Elapsed(now, g.lastDrop) >= g.dropInterval)
      && (!done ==> g' == g)
      && (done && Fits(g.board, g.piece, g.rot, g.x, g.y + 1) ==> g' == g.(y := g.y + 1, lastDrop := now))
      && (done && !Fits(g.board, g.piece, g.rot, g.x, g.y + 1) ==> Landed(g, g') && g'.lastDrop == now)
  {
    hide Fits, Full, Elapsed, Land, Landed;
    if !g.over {
      LandEffect(g.(lastDrop := now));
      LandedLater(g, now);
    }
  }

  lemma LandedLater(g: Game, now: nat)
    requires GameInv(g)
    ensures GameInv(g.(lastDrop := now))
    ensures forall g' :: Landed(g.(lastDrop := now), g') <==> Landed(g, g')
  {
    hide Fits, Full, Locked, Cleared, NumFull, Cells, OnBoard;
  }

  lemma LandEffect(g: Game)
    requires GameInv(g) && !g.over
    ensures NumFull(Locked(g.board, g.piece, g.rot, g.x, g.y)) <= 4
    ensures Landed(g, Land(g)) && Land(g).lastDrop == g.lastDrop
  {
    hide Fits, Full, Cleared, NumFull, Locked, Cells, OnBoard, Draw;
    LandKeeps(g);
    LockAdds(g.board, g.piece, g.rot, g.x, g.y);
    ClearedCells(Locked(g.board, g.piece, g.rot, g.x, g.y));
    ClearedOk(Locked(g.board, g.piece, g.rot, g.x, g.y));
  }

  /** The clock difference is right as long as it fits into an int, and never otherwise. */
  lemma ElapsedIff(now: nat, last: nat)
    requires last <= now < TWO64
    ensures Elapsed(now, last) == now - last <==> now - last < TWO32 / 2
  {
    assert (now + TWO64 - last) % TWO64 == now - last;
  }

  /** A new game: an empty board on which the first piece fits. */
  lemma InitEffect(now: nat)
    ensures var g := InitAt(now);
      && |g.board| == BOARD_H && (forall y :: 0 <= y < BOARD_H ==> g.board[y] == Empty())
      && g.score == 0 && g.level == 1 && g.lines == 0 && g.dropInterval == 50 && g.lastDrop == now
      && g.piece < 7 && g.next < 7 && g.rot == 0 && g.x == 3 && g.y == -1 && !g.over
  {
    hide Draw, PieceBit;
  }

  // ---- runs of ticks ----

  ghost function Times(ts: seq<nat>): seq<Event> { seq(|ts|, i requires 0 <= i < |ts| => TimeIs(ts[i])) }

  /** How many of the ticks at the times ts do something. */
  ghost function Effective(g: Game, ts: seq<nat>): nat
    requires GameInv(g)
    decreases |ts|
  {
    if ts == [] then 0
    else
      TickKeeps(g, ts[0]);
      (if TickAt(g, ts[0]).1 then 1 else 0) + Effective(TickAt(g, ts[0]).0, ts[1..])
  }

  lemma TickStep(g: Game, ts: seq<nat>)
    requires GameInv(g) && ts != []
    ensures GameInv(TickAt(g, ts[0]).0)
    ensures Run(g, Times(ts)) == Run(TickAt(g, ts[0]).0, Times(ts[1..]))
    ensures Effective(g, ts) == (if TickAt(g, ts[0]).1 then 1 else 0) + Effective(TickAt(g, ts[0]).0, ts[1..])
  {
    hide TickAt, GameInv;
    TickKeeps(g, ts[0]);
    assert Times(ts)[1..] == Times(ts[1..]);
  }

  /** How far the piece of g can fall. */
  ghost function Depth(g: Game): (n: nat)
    requires PieceOk(g.piece, g.rot)
  {
    DropTo(g.board, g.piece, g.rot, g.x, g.y) - g.y
  }

  lemma DepthStep(g: Game)
    requires PieceOk(g.piece, g.rot)
    ensures Fits(g.board, g.piece, g.rot, g.x, g.y + 1) <==> Depth(g) > 0
    ensures Depth(g) > 0 ==> Depth(g) == Depth(g.(y := g.y + 1)) + 1
  {
    hide Fits;
  }

  lemma DepthBound(g: Game)
    requires PieceOk(g.piece, g.rot) && g.y < BOARD_H
    ensures Depth(g) <= BOARD_H - 1 - g.y
  {
    hide Fits, DropTo;
    var y := DropTo(g.board, g.piece, g.rot, g.x, g.y);
    if y > g.y { FitsAboveFloor(g.board, g.piece, g.rot, g.x, y); }
  }

  lemma {:induction false} Falls(g: Game, ts: seq<nat>)
    requires GameInv(g) && !g.over && PieceOk(g.piece, g.rot)
    requires Effective(g, ts) <= Depth(g)
    ensures var g' := Run(g, Times(ts)); g' == g.(y := g.y + Effective(g, ts), lastDrop := g'.lastDrop)
    decreases |ts|
  {
    hide GameInv, TickAt, Fits, Landed, Depth, Elapsed, Run, Effective;
    if ts == [] {
      NoTicks(g);
    } else {
      TickStep(g, ts);
      TickEffect(g, ts[0]);
      DepthStep(g);
      DepthOnly(g, ts[0]);
      Falls(TickAt(g, ts[0]).0, ts[1..]);
    }
  }

  lemma NoTicks(g: Game)
    requires GameInv(g)
    ensures Run(g, Times([])) == g && Effective(g, []) == 0
  {
    hide GameInv;
  }

  lemma DepthOnly(g: Game, now: nat)
    requires PieceOk(g.piece, g.rot)
    ensures Depth(g.(y := g.y + 1, lastDrop := now)) == Depth(g.(y := g.y + 1))
  {
    hide DropTo;
  }

  /** A piece left alone falls one row with every tick that does something until it is where the space key
      would have dropped it, at most BOARD_H rows below, and the next such tick locks it there. */
  lemma PieceLands(g: Game, ts: seq<nat>, now: nat)
    requires GameInv(g) && !g.over
    ensures BoardOk(g.board) && PieceOk(g.piece, g.rot) && g.next < 7
    ensures var depth := DropTo(g.board, g.piece, g.rot, g.x, g.y) - g.y;
      var g' := Run(g, Times(ts));
      && 0 <= depth <= BOARD_H
      && (Effective(g, ts) <= depth ==> g' == g.(y := g.y + Effective(g, ts), lastDrop := g'.lastDrop))
      && (Effective(g, ts) == depth ==> g' == Key(g, KEY_SPACE).(lastDrop := g'.lastDrop))
      && (Effective(g, ts) == depth && TickAt(g', now).1 ==>
            Landed(g.(y := g.y + depth), TickAt(g', now).0))
  {
    hide Fits, Landed, TickAt, Run, Effective, DropTo, Full, Elapsed;
    DepthBoundOf(g);
    var g' := Run(g, Times(ts));
    if Effective(g, ts) <= Depth(g) { Falls(g, ts); }
    if Effective(g, ts) == Depth(g) {
      TickEffect(g', now);
      LandedAt(g, g', TickAt(g', now).0);
    }
  }

  /** Once more ticks than that did something, one of them has locked the piece. */
  lemma {:induction false} LandsWithin(g: Game, ts: seq<nat>) returns (k: nat)
    requires GameInv(g) && !g.over && PieceOk(g.piece, g.rot)
    requires Effective(g, ts) > DropTo(g.board, g.piece, g.rot, g.x, g.y) - g.y
    ensures BoardOk(g.board) && g.next < 7
    ensures k < |ts| && Effective(g, ts[..k]) == DropTo(g.board, g.piece, g.rot, g.x, g.y) - g.y <= BOARD_H
    ensures var g' := Run(g, Times(ts[..k]));
      && g' == g.(y := DropTo(g.board, g.piece, g.rot, g.x, g.y), lastDrop := g'.lastDrop)
      && TickAt(g', ts[k]).1 && Landed(g.(y := g'.y), TickAt(g', ts[k]).0)
  {
    hide Fits, Landed, TickAt, Run, Effective, DropTo, Full, Elapsed, GameInv;
    k := Crossing(g, ts);
    PieceLands(g, ts[..k], ts[k]);
  }

  lemma {:induction false} Crossing(g: Game, ts: seq<nat>) returns (k: nat)
    requires GameInv(g) && !g.over && PieceOk(g.piece, g.rot) && Effective(g, ts) > Depth(g)
    ensures k < |ts| && Effective(g, ts[..k]) == Depth(g) && TickAt(Run(g, Times(ts[..k])), ts[k]).1
    decreases |ts|
  {
    hide GameInv, TickAt, Fits, Landed, Depth, Elapsed, Run, Effective;
    NoTicks(g);
    assert ts != [];
    TickStep(g, ts);
    TickEffect(g, ts[0]);
    DepthStep(g);
    DepthOnly(g, ts[0]);
    if TickAt(g, ts[0]).1 && Depth(g) == 0 {
      k := 0;
      assert ts[..0] == [];
    } else {
      k := Crossing(TickAt(g, ts[0]).0, ts[1..]);
      TickStep(g, ts[..k + 1]);
      assert ts[..k + 1][1..] == ts[1..][..k];
      k := k + 1;
    }
  }

  lemma DepthBoundOf(g: Game)
    requires GameInv(g) && !g.over
    ensures PieceOk(g.piece, g.rot) && 0 <= Depth(g) <= BOARD_H
  {
    hide Fits, DropTo, Depth, Full;
    FitsAboveFloor(g.board, g.piece, g.rot, g.x, g.y);
    DepthBound(g);
  }

  lemma LandedAt(g: Game, g1: Game, g2: Game)
    requires BoardOk(g.board) && PieceOk(g.piece, g.rot) && g.next < 7
    requires g1 == g.(y := g1.y, lastDrop := g1.lastDrop)
    ensures Landed(g1, g2) <==> Landed(g.(y := g1.y), g2)
  {
    hide Fits, Full, Locked, Cleared, NumFull, Cells, OnBoard;
  }
}
