/**
 The 8x8 board of the checkers engine: pieces, cells, the per-side counters,
 board setup, moving and removing pieces, the winner test and the material
 score. A board is a value; the engine's deep copies are implicit.
 */
module Boards {
  import opened Wrappers

  const Rows: int := 8
  const Cols: int := 8

  /** The two sides. Red is the human and moves up the board (towards row 0);
      grey is the computer and moves down (towards row 7). */
  datatype Color = Red | Grey
  {
    function Opponent(): Color
    {
      if this == Red then Grey else Red
    }
  }

  datatype Piece = Piece(row: int, col: int, color: Color, king: bool)
  {
    /** `Piece.move`: the piece now stands on (r, c); side and crown are kept. */
    function MovedTo(r: int, c: int): Piece
    {
      this.(row := r, col := c)
    }

    /** `Piece.is_king`: sets the crown, whether or not it was already set. */
    function Crowned(): Piece
    {
      this.(king := true)
    }
  }

  /** A square holds nothing (the source's `0`) or one piece. */
  datatype Cell = Empty | Occupied(piece: Piece)

  datatype Pos = Pos(row: int, col: int)

  /** The grid plus the four counters the engine keeps: pieces left and kings
      crowned, per side. */
  datatype Board = Board(grid: seq<seq<Cell>>, redLeft: int, greyLeft: int, redKings: int, greyKings: int)

  predicate OnBoard(r: int, c: int)
  {
    0 <= r < Rows && 0 <= c < Cols
  }

  predicate Shaped(g: seq<seq<Cell>>)
  {
    |g| == Rows && forall r :: 0 <= r < Rows ==> |g[r]| == Cols
  }

  /** `Board.get_piece`. */
  function GetPiece(b: Board, r: int, c: int): Cell
    requires Shaped(b.grid) && OnBoard(r, c)
  {
    b.grid[r][c]
  }

  function SetCell(g: seq<seq<Cell>>, r: int, c: int, x: Cell): (g': seq<seq<Cell>>)
    requires Shaped(g) && OnBoard(r, c)
    ensures Shaped(g')
    ensures g'[r][c] == x
    ensures forall r', c' :: OnBoard(r', c') && (r', c') != (r, c) ==> g'[r'][c'] == g[r'][c']
  {
    g[r := g[r][c := x]]
  }

  // ---------------------------------------------------------------------------
  // Census of the grid, in row-major order
  // ---------------------------------------------------------------------------

  predicate Counted(x: Cell, color: Color, kingsOnly: bool)
  {
    x.Occupied? && x.piece.color == color && (!kingsOnly || x.piece.king)
  }

  function Ind(b: bool): nat
  {
    if b then 1 else 0
  }

  /** The pieces of `color` (only its kings when `kingsOnly`) in one row, left to right. */
  function RowPieces(row: seq<Cell>, color: Color, kingsOnly: bool): seq<Piece>
  {
    if row == [] then []
    else (if Counted(row[0], color, kingsOnly) then [row[0].piece] else []) + RowPieces(row[1..], color, kingsOnly)
  }

  /** The same over a sequence of rows, row by row: the loop of `give_pieces`. */
  function Gather(rows: seq<seq<Cell>>, color: Color, kingsOnly: bool): seq<Piece>
  {
    if rows == [] then [] else RowPieces(rows[0], color, kingsOnly) + Gather(rows[1..], color, kingsOnly)
  }

  /** The number of pieces (or kings) of a side actually on the grid. */
  function Tally(g: seq<seq<Cell>>, color: Color, kingsOnly: bool): nat
  {
    |Gather(g, color, kingsOnly)|
  }

  /** `Board.give_pieces`: the pieces of a side, row by row, left to right. */
  function GivePieces(b: Board, color: Color): seq<Piece>
  {
    Gather(b.grid, color, false)
  }

  /** Every piece records the square that holds it. */
  ghost predicate Positioned(g: seq<seq<Cell>>)
    requires Shaped(g)
  {
    forall r, c :: OnBoard(r, c) && g[r][c].Occupied? ==> g[r][c].piece.row == r && g[r][c].piece.col == c
  }

  /** Pieces stand only on the squares used at setup, those with odd row + col. */
  ghost predicate DarkOnly(g: seq<seq<Cell>>)
    requires Shaped(g)
  {
    forall r, c :: OnBoard(r, c) && g[r][c].Occupied? ==> (r + c) % 2 == 1
  }

  /** The board invariant the engine keeps: the pieces-left counters equal the
      census of the grid, and the king counters, which count crowning events,
      are never below the number of kings on the grid. */
  ghost predicate Valid(b: Board)
  {
    && Shaped(b.grid)
    && Positioned(b.grid)
    && DarkOnly(b.grid)
    && b.redLeft == Tally(b.grid, Red, false)
    && b.greyLeft == Tally(b.grid, Grey, false)
    && b.redKings >= Tally(b.grid, Red, true)
    && b.greyKings >= Tally(b.grid, Grey, true)
  }

  /** Assigning one cell of a row changes its census by what it adds and takes away. */
  lemma {:induction false} RowPiecesSet(row: seq<Cell>, j: int, x: Cell, color: Color, kingsOnly: bool)
    requires 0 <= j < |row|
    ensures |RowPieces(row[j := x], color, kingsOnly)| ==
      |RowPieces(row, color, kingsOnly)| - Ind(Counted(row[j], color, kingsOnly)) + Ind(Counted(x, color, kingsOnly))
    decreases j
  {
    if j == 0 {
      assert row[j := x][1..] == row[1..];
    } else {
      assert row[j := x][1..] == row[1..][j - 1 := x];
      RowPiecesSet(row[1..], j - 1, x, color, kingsOnly);
    }
  }

  /** Replacing one row changes the census by the difference of the two rows. */
  lemma {:induction false} GatherSet(rows: seq<seq<Cell>>, i: int, row: seq<Cell>, color: Color, kingsOnly: bool)
    requires 0 <= i < |rows|
    ensures |Gather(rows[i := row], color, kingsOnly)| ==
      |Gather(rows, color, kingsOnly)| - |RowPieces(rows[i], color, kingsOnly)| + |RowPieces(row, color, kingsOnly)|
    decreases i
  {
    if i == 0 {
      assert rows[i := row][1..] == rows[1..];
    } else {
      assert rows[i := row][1..] == rows[1..][i - 1 := row];
      GatherSet(rows[1..], i - 1, row, color, kingsOnly);
    }
  }

  /** The census changes only by what one assignment to a square adds and takes away. */
  lemma TallySetCell(g: seq<seq<Cell>>, r: int, c: int, x: Cell, color: Color, kingsOnly: bool)
    requires Shaped(g) && OnBoard(r, c)
    ensures Tally(SetCell(g, r, c, x), color, kingsOnly) ==
      Tally(g, color, kingsOnly) - Ind(Counted(g[r][c], color, kingsOnly)) + Ind(Counted(x, color, kingsOnly))
  {
    RowPiecesSet(g[r], c, x, color, kingsOnly);
    GatherSet(g, r, g[r][c := x], color, kingsOnly);
  }

  /** On a positioned grid, the census of row r from column j holds exactly the
      counted pieces standing on that row at column j or further right. */
  lemma {:induction false} RowMembers(g: seq<seq<Cell>>, color: Color, kingsOnly: bool, r: int, j: int)
    requires Shaped(g) && Positioned(g) && 0 <= r < Rows && 0 <= j <= Cols
    ensures forall q :: q in RowPieces(g[r][j..], color, kingsOnly) <==>
      q.row == r && j <= q.col < Cols && g[r][q.col] == Occupied(q) && Counted(Occupied(q), color, kingsOnly)
    decreases Cols - j
  {
    if j < Cols {
      RowMembers(g, color, kingsOnly, r, j + 1);
      assert g[r][j..][0] == g[r][j];
      assert g[r][j..][1..] == g[r][j + 1..];
      if g[r][j].Occupied? {
        assert g[r][j].piece.row == r && g[r][j].piece.col == j;
      }
    }
  }

  /** The census of rows i and below holds exactly the counted pieces on them. */
  lemma {:induction false} GatherMembers(g: seq<seq<Cell>>, color: Color, kingsOnly: bool, i: int)
    requires Shaped(g) && Positioned(g) && 0 <= i <= Rows
    ensures forall q :: q in Gather(g[i..], color, kingsOnly) <==>
      i <= q.row && OnBoard(q.row, q.col) && g[q.row][q.col] == Occupied(q) && Counted(Occupied(q), color, kingsOnly)
    decreases Rows - i
  {
    if i < Rows {
      GatherMembers(g, color, kingsOnly, i + 1);
      RowMembers(g, color, kingsOnly, i, 0);
      assert g[i..][0] == g[i][0..];
      assert g[i..][1..] == g[i + 1..];
    }
  }

  /** Each piece of `s` stands strictly before the later ones, row by row and
      left to right within a row. */
  predicate RowMajor(s: seq<Piece>)
  {
    forall j, k :: 0 <= j < k < |s| ==> s[j].row < s[k].row || (s[j].row == s[k].row && s[j].col < s[k].col)
  }

  /** Two row-major lists, the first wholly before the second, make one. */
  lemma AppendRowMajor(a: seq<Piece>, b: seq<Piece>)
    requires RowMajor(a) && RowMajor(b)
    requires forall x, y :: x in a && y in b ==> x.row < y.row || (x.row == y.row && x.col < y.col)
    ensures RowMajor(a + b)
  {
    var s := a + b;
    forall j, k | 0 <= j < k < |s|
      ensures s[j].row < s[k].row || (s[j].row == s[k].row && s[j].col < s[k].col)
    {
      if k >= |a| {
        assert s[k] == b[k - |a|] && s[k] in b;
        if j < |a| {
          assert s[j] == a[j] && s[j] in a;
        } else {
          assert s[j] == b[j - |a|];
        }
      } else {
        assert s[j] == a[j] && s[k] == a[k];
      }
    }
  }

  lemma {:induction false} RowOrdered(g: seq<seq<Cell>>, color: Color, kingsOnly: bool, r: int, j: int)
    requires Shaped(g) && Positioned(g) && 0 <= r < Rows && 0 <= j <= Cols
    ensures RowMajor(RowPieces(g[r][j..], color, kingsOnly))
    decreases Cols - j
  {
    if j < Cols {
      RowOrdered(g, color, kingsOnly, r, j + 1);
      RowMembers(g, color, kingsOnly, r, j + 1);
      assert g[r][j..][0] == g[r][j];
      assert g[r][j..][1..] == g[r][j + 1..];
      var rest := RowPieces(g[r][j + 1..], color, kingsOnly);
      if Counted(g[r][j], color, kingsOnly) {
        assert g[r][j].piece.row == r && g[r][j].piece.col == j;
        AppendRowMajor([g[r][j].piece], rest);
      }
    }
  }

  lemma {:induction false} GatherOrdered(g: seq<seq<Cell>>, color: Color, kingsOnly: bool, i: int)
    requires Shaped(g) && Positioned(g) && 0 <= i <= Rows
    ensures RowMajor(Gather(g[i..], color, kingsOnly))
    decreases Rows - i
  {
    if i < Rows {
      GatherOrdered(g, color, kingsOnly, i + 1);
      GatherMembers(g, color, kingsOnly, i + 1);
      RowOrdered(g, color, kingsOnly, i, 0);
      RowMembers(g, color, kingsOnly, i, 0);
      assert g[i..][0] == g[i][0..];
      assert g[i..][1..] == g[i + 1..];
      AppendRowMajor(RowPieces(g[i][0..], color, kingsOnly), Gather(g[i + 1..], color, kingsOnly));
    }
  }

  /** `Board.give_pieces` lists exactly the pieces of that side on the board,
      in row-major order, and there are as many as its counter says. */
  lemma GivePiecesSpec(b: Board, color: Color)
    requires Valid(b)
    ensures forall q :: q in GivePieces(b, color) <==>
      q.color == color && OnBoard(q.row, q.col) && b.grid[q.row][q.col] == Occupied(q)
    ensures RowMajor(GivePieces(b, color))
    ensures |GivePieces(b, color)| == if color.Red? then b.redLeft else b.greyLeft
  {
    assert b.grid[0..] == b.grid;
    GatherMembers(b.grid, color, false, 0);
    GatherOrdered(b.grid, color, false, 0);
  }

  // ---------------------------------------------------------------------------
  // Setup
  // ---------------------------------------------------------------------------

  /** The square (r, c) of `create_board`: grey on the first three rows, red on
      the last three, on the squares whose column parity differs from the row's. */
  function InitialCell(r: int, c: int): Cell
  {
    if c % 2 == (r + 1) % 2 then
      if r < 3 then Occupied(Piece(r, c, Grey, false))
      else if r > 4 then Occupied(Piece(r, c, Red, false))
      else Empty
    else Empty
  }

  function InitialGrid(): (g: seq<seq<Cell>>)
    ensures Shaped(g)
  {
    seq(Rows, r => seq(Cols, c => InitialCell(r, c)))
  }

  /** `Board.__init__` with `create_board`. */
  function NewBoard(): (b: Board)
  {
    Board(InitialGrid(), 12, 12, 0, 0)
  }

  /** The setup rule for one square, read as parity of row + col. */
  lemma InitialCellIs(r: int, c: int)
    requires OnBoard(r, c)
    ensures InitialCell(r, c).Occupied? <==> (r + c) % 2 == 1 && (r < 3 || r > 4)
    ensures InitialCell(r, c).Occupied? ==> InitialCell(r, c).piece == Piece(r, c, if r < 3 then Grey else Red, false)
  {
  }

  lemma InitialLayout(g: seq<seq<Cell>>)
    requires g == InitialGrid()
    ensures Shaped(g)
    ensures forall r, c :: OnBoard(r, c) ==> g[r][c] == InitialCell(r, c)
    ensures forall r, c :: OnBoard(r, c) ==> (g[r][c].Occupied? <==> (r + c) % 2 == 1 && (r < 3 || r > 4))
    ensures forall r, c :: OnBoard(r, c) && g[r][c].Occupied? ==>
      g[r][c].piece == Piece(r, c, if r < 3 then Grey else Red, false)
    ensures Positioned(g) && DarkOnly(g)
  {
    forall r, c | OnBoard(r, c)
      ensures g[r][c].Occupied? <==> (r + c) % 2 == 1 && (r < 3 || r > 4)
      ensures g[r][c].Occupied? ==> g[r][c].piece == Piece(r, c, if r < 3 then Grey else Red, false)
    {
      InitialCellIs(r, c);
    }
  }

  /** Row r of the setup holds pieces of `color` (kings, when `kingsOnly`). */
  predicate Fills(color: Color, kingsOnly: bool, r: int)
  {
    !kingsOnly && (if color.Grey? then r < 3 else r > 4)
  }

  /** A filled row of the setup holds a piece on every other square from column j on. */
  lemma {:induction false} InitialRowFrom(g: seq<seq<Cell>>, color: Color, kingsOnly: bool, r: int, j: int)
    requires Shaped(g) && (forall r', c :: OnBoard(r', c) ==> g[r'][c] == InitialCell(r', c))
    requires 0 <= r < Rows && 0 <= j <= Cols
    ensures |RowPieces(g[r][j..], color, kingsOnly)| ==
      if Fills(color, kingsOnly, r) then (8 - j + Ind(j % 2 == (r + 1) % 2)) / 2 else 0
    decreases Cols - j
  {
    if j < Cols {
      InitialRowFrom(g, color, kingsOnly, r, j + 1);
      assert g[r][j..][0] == InitialCell(r, j);
      assert g[r][j..][1..] == g[r][j + 1..];
    }
  }

  /** The number of filled setup rows at or below row i. */
  function FilledRows(color: Color, kingsOnly: bool, i: int): int
  {
    if kingsOnly then 0
    else if color.Grey? then (if i >= 3 then 0 else 3 - i)
    else (if i <= 5 then 3 else 8 - i)
  }

  lemma {:induction false} InitialTotal(g: seq<seq<Cell>>, color: Color, kingsOnly: bool, i: int)
    requires Shaped(g) && (forall r, c :: OnBoard(r, c) ==> g[r][c] == InitialCell(r, c))
    requires 0 <= i <= Rows
    ensures |Gather(g[i..], color, kingsOnly)| == 4 * FilledRows(color, kingsOnly, i)
    decreases Rows - i
  {
    if i < Rows {
      InitialTotal(g, color, kingsOnly, i + 1);
      InitialRowFrom(g, color, kingsOnly, i, 0);
      assert g[i..][0] == g[i][0..];
      assert g[i..][1..] == g[i + 1..];
    }
  }

  /** A fresh board: twelve grey pieces on rows 0-2 and twelve red pieces on
      rows 5-7, all uncrowned, all on squares with odd row + col, rows 3 and 4
      empty, both counters 12, both king counters 0, and the invariant holds. */
  lemma FreshBoard()
    ensures var b := NewBoard();
      && Valid(b)
      && b.redLeft == 12 && b.greyLeft == 12 && b.redKings == 0 && b.greyKings == 0
      && (forall r, c :: OnBoard(r, c) ==>
            (b.grid[r][c].Occupied? <==> (r + c) % 2 == 1 && (r < 3 || r > 4)))
      && (forall r, c :: OnBoard(r, c) && b.grid[r][c].Occupied? ==>
            b.grid[r][c].piece == Piece(r, c, if r < 3 then Grey else Red, false))
      && (forall q :: q in GivePieces(b, Grey) ==> 0 <= q.row < 3)
      && (forall q :: q in GivePieces(b, Red) ==> 5 <= q.row < Rows)
  {
    var g := InitialGrid();
    InitialLayout(g);
    assert g[0..] == g;
    InitialTotal(g, Red, false, 0);
    InitialTotal(g, Grey, false, 0);
    InitialTotal(g, Red, true, 0);
    InitialTotal(g, Grey, true, 0);
    GatherMembers(g, Grey, false, 0);
    GatherMembers(g, Red, false, 0);
  }

  /** A board the engine can reach: one that keeps the invariant. */
  type Position = b: Board | Valid(b) ghost witness (FreshBoard(); NewBoard())

  // ---------------------------------------------------------------------------
  // Mutations
  // ---------------------------------------------------------------------------

  predicate Crowning(row: int)
  {
    row == 0 || row == Rows - 1
  }

  /** `Board.move`: swaps the contents of the piece's square and (row, col),
      moves the piece, and on row 0 or 7 crowns it and bumps its side's king
      counter -- on every such landing, even when it is already a king. */
  function Move(b: Board, p: Piece, row: int, col: int): (b': Board)
    requires Shaped(b.grid) && OnBoard(p.row, p.col) && OnBoard(row, col)
    requires b.grid[p.row][p.col] == Occupied(p)
    ensures Shaped(b'.grid)
    ensures b'.grid[row][col] == Occupied(Piece(row, col, p.color, p.king || Crowning(row)))
    ensures (row, col) != (p.row, p.col) ==> b'.grid[p.row][p.col] == b.grid[row][col]
    ensures forall r, c :: OnBoard(r, c) && (r, c) != (row, col) && (r, c) != (p.row, p.col) ==>
      b'.grid[r][c] == b.grid[r][c]
    ensures b'.redLeft == b.redLeft && b'.greyLeft == b.greyLeft
    ensures b'.redKings == b.redKings + Ind(Crowning(row) && p.color == Red)
    ensures b'.greyKings == b.greyKings + Ind(Crowning(row) && p.color == Grey)
  {
    var moved := p.MovedTo(row, col);
    var p' := if Crowning(row) then moved.Crowned() else moved;
    var g1 := SetCell(b.grid, p.row, p.col, b.grid[row][col]);
    var g2 := SetCell(g1, row, col, Occupied(p'));
    if Crowning(row) then
      if p.color.Grey? then b.(grid := g2, greyKings := b.greyKings + 1)
      else b.(grid := g2, redKings := b.redKings + 1)
    else b.(grid := g2)
  }

  /** Moving a piece to an empty dark square keeps the board invariant. */
  lemma MoveKeepsValid(b: Board, p: Piece, row: int, col: int)
    requires Valid(b) && OnBoard(p.row, p.col) && OnBoard(row, col)
    requires b.grid[p.row][p.col] == Occupied(p)
    requires b.grid[row][col] == Empty && (row + col) % 2 == 1
    ensures Valid(Move(b, p, row, col))
  {
    var b' := Move(b, p, row, col);
    var p' := Piece(row, col, p.color, p.king || Crowning(row));
    var g1 := SetCell(b.grid, p.row, p.col, Empty);
    var g2 := SetCell(g1, row, col, Occupied(p'));
    assert b'.grid == g2;
    SetCellKeepsLayout(b.grid, p.row, p.col, Empty);
    SetCellKeepsLayout(g1, row, col, Occupied(p'));
    TallyMove(b.grid, g1, g2, p, p', row, col, Red, false);
    assert b'.redLeft == Tally(g2, Red, false);
    TallyMove(b.grid, g1, g2, p, p', row, col, Grey, false);
    assert b'.greyLeft == Tally(g2, Grey, false);
    TallyMove(b.grid, g1, g2, p, p', row, col, Red, true);
    assert b'.redKings >= Tally(g2, Red, true);
    TallyMove(b.grid, g1, g2, p, p', row, col, Grey, true);
    assert b'.greyKings >= Tally(g2, Grey, true);
  }

  /** Writing a cell keeps every piece on a dark square that names it when
      the written piece does so too. */
  lemma SetCellKeepsLayout(g: seq<seq<Cell>>, r: int, c: int, x: Cell)
    requires Shaped(g) && Positioned(g) && DarkOnly(g) && OnBoard(r, c)
    requires x.Occupied? ==> x.piece.row == r && x.piece.col == c && (r + c) % 2 == 1
    ensures Positioned(SetCell(g, r, c, x)) && DarkOnly(SetCell(g, r, c, x))
  {
  }

  /** A move to an empty square changes the census of a side only by a crowning. */
  lemma TallyMove(g: seq<seq<Cell>>, g1: seq<seq<Cell>>, g2: seq<seq<Cell>>, p: Piece, p': Piece, row: int, col: int, color: Color, kingsOnly: bool)
    requires Shaped(g) && OnBoard(p.row, p.col) && OnBoard(row, col)
    requires g[p.row][p.col] == Occupied(p) && g[row][col] == Empty
    requires g1 == SetCell(g, p.row, p.col, Empty) && g2 == SetCell(g1, row, col, Occupied(p'))
    requires p'.color == p.color && (p.king ==> p'.king)
    ensures Tally(g2, color, kingsOnly) == Tally(g, color, kingsOnly)
      - Ind(Counted(Occupied(p), color, kingsOnly)) + Ind(Counted(Occupied(p'), color, kingsOnly))
  {
    assert g1[row][col] == Empty;
    TallySetCell(g, p.row, p.col, Empty, color, kingsOnly);
    TallySetCell(g1, row, col, Occupied(p'), color, kingsOnly);
  }

  /** One step of `remove_piece`: empties the piece's square and lowers the
      counter of its side. */
  function Clear(b: Board, q: Piece): (b': Board)
    requires Shaped(b.grid) && OnBoard(q.row, q.col)
  {
    var g := SetCell(b.grid, q.row, q.col, Empty);
    if q.color.Red? then b.(grid := g, redLeft := b.redLeft - 1)
    else b.(grid := g, greyLeft := b.greyLeft - 1)
  }

  /** Some piece of `ps` names the square (r, c). */
  predicate Hit(ps: seq<Piece>, r: int, c: int)
  {
    ps != [] && ((ps[0].row == r && ps[0].col == c) || Hit(ps[1..], r, c))
  }

  function ColorCount(ps: seq<Piece>, color: Color): nat
  {
    if ps == [] then 0 else Ind(ps[0].color == color) + ColorCount(ps[1..], color)
  }

  /** `Board.remove_piece`: empties exactly the squares the pieces name and
      lowers each side's counter by the number of its pieces in the list;
      the king counters are left alone. */
  function Remove(b: Board, ps: seq<Piece>): (b': Board)
    requires Shaped(b.grid)
    requires forall i :: 0 <= i < |ps| ==> OnBoard(ps[i].row, ps[i].col)
    ensures Shaped(b'.grid)
    ensures forall r, c :: OnBoard(r, c) ==> b'.grid[r][c] == if Hit(ps, r, c) then Empty else b.grid[r][c]
    ensures b'.redLeft == b.redLeft - ColorCount(ps, Red)
    ensures b'.greyLeft == b.greyLeft - ColorCount(ps, Grey)
    ensures b'.redKings == b.redKings && b'.greyKings == b.greyKings
    decreases |ps|
  {
    if ps == [] then b
    else
      assert forall i :: 0 <= i < |ps[1..]| ==> ps[1..][i] == ps[i + 1];
      Remove(Clear(b, ps[0]), ps[1..])
  }

  /** The pieces stand on the board, each on its own square. */
  ghost predicate OnTheirSquares(b: Board, ps: seq<Piece>)
    requires Shaped(b.grid)
  {
    && (forall i :: 0 <= i < |ps| ==> OnBoard(ps[i].row, ps[i].col) && b.grid[ps[i].row][ps[i].col] == Occupied(ps[i]))
    && (forall i, j :: 0 <= i < j < |ps| ==> (ps[i].row, ps[i].col) != (ps[j].row, ps[j].col))
  }

  /** Removing distinct pieces that stand on the board keeps the invariant:
      every counter still equals the census of its side. */
  lemma {:induction false} RemoveKeepsValid(b: Board, ps: seq<Piece>)
    requires Valid(b) && OnTheirSquares(b, ps)
    ensures Valid(Remove(b, ps))
    decreases |ps|
  {
    if ps != [] {
      var q := ps[0];
      var b1 := Clear(b, q);
      SetCellKeepsLayout(b.grid, q.row, q.col, Empty);
      forall color: Color, kingsOnly: bool
        ensures Tally(b1.grid, color, kingsOnly) == Tally(b.grid, color, kingsOnly) - Ind(Counted(Occupied(q), color, kingsOnly))
      {
        TallySetCell(b.grid, q.row, q.col, Empty, color, kingsOnly);
      }
      assert Valid(b1);
      var rest := ps[1..];
      forall i | 0 <= i < |rest|
        ensures b1.grid[rest[i].row][rest[i].col] == Occupied(rest[i])
      {
        assert rest[i] == ps[i + 1];
        assert (ps[0].row, ps[0].col) != (ps[i + 1].row, ps[i + 1].col);
      }
      forall i, j | 0 <= i < j < |rest|
        ensures (rest[i].row, rest[i].col) != (rest[j].row, rest[j].col)
      {
        assert rest[i] == ps[i + 1] && rest[j] == ps[j + 1];
      }
      RemoveKeepsValid(b1, rest);
    }
  }

  // ---------------------------------------------------------------------------
  // Verdict and score
  // ---------------------------------------------------------------------------

  /** `Board.is_winner`: grey once red has no pieces left (checked first), red
      once grey has none, otherwise nobody. */
  function Winner(b: Board): (w: Option<Color>)
    ensures w == Some(Grey) <==> b.redLeft <= 0
    ensures w == Some(Red) <==> b.redLeft > 0 && b.greyLeft <= 0
    ensures w == None <==> b.redLeft > 0 && b.greyLeft > 0
  {
    if b.redLeft <= 0 then Some(Grey)
    else if b.greyLeft <= 0 then Some(Red)
    else None
  }

  /** On a valid board the winner is read off the grid: grey wins when no red
      piece is left on it, red when red pieces remain but no grey one does. */
  lemma WinnerByCensus(b: Board)
    requires Valid(b)
    ensures Winner(b) == Some(Grey) <==> GivePieces(b, Red) == []
    ensures Winner(b) == Some(Red) <==> GivePieces(b, Red) != [] && GivePieces(b, Grey) == []
    ensures Winner(b) == None <==> GivePieces(b, Red) != [] && GivePieces(b, Grey) != []
  {
  }

  /** `Board.evaluation_function`, doubled so that it stays an integer:
      the source's (grey - red) + (grey kings * 0.5 - red kings * 0.5), times two. */
  function Evaluate(b: Board): (s: int)
    ensures s as real == 2.0 * ((b.greyLeft - b.redLeft) as real + (b.greyKings as real * 0.5 - b.redKings as real * 0.5))
  {
    2 * (b.greyLeft - b.redLeft) + (b.greyKings - b.redKings)
  }

  /** The fresh board is level, and while nobody has been crowned the score
      is twice the difference of the pieces on the grid. */
  lemma EvaluateCensus(b: Board)
    requires Valid(b) && b.redKings == 0 && b.greyKings == 0
    ensures Evaluate(b) == 2 * (|GivePieces(b, Grey)| - |GivePieces(b, Red)|)
    ensures Evaluate(NewBoard()) == 0
  {
  }
}
