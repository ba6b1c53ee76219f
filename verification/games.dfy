/**
 The game controller: whose turn it is, the piece the player has picked and
 the moves offered for it. A click either moves the picked piece to an
 offered square or picks a piece of the side to move; the computer's reply
 replaces the board wholesale.
 */
module Games {
  import opened Wrappers
  import opened Dicts
  import opened Boards
  import opened MoveGen
  import opened Successors

  /** `Game`: the board, the side to move, the picked piece (a value copy
      of the piece as it stood when picked) and its offered moves. */
  datatype Game = Game(board: Board, turn: Color, selected: Option<Piece>, validMoves: Moves)

  /** What the controller keeps true between clicks: the board invariant,
      and while a picked piece has moves on offer, the piece still stands
      on its square, belongs to the side to move, and the offer is exactly
      what `validity_move` gives it now. */
  ghost predicate Inv(g: Game)
  {
    && Valid(g.board)
    && (g.selected.Some? && g.validMoves != [] ==>
          var p := g.selected.value;
          && OnBoard(p.row, p.col) && g.board.grid[p.row][p.col] == Occupied(p)
          && p.color == g.turn
          && g.validMoves == ValidMoves(g.board, p))
  }

  /** `Game._init` (and `Game.reset`, which calls it): the set-up board of
      `create_board`, red to move, nothing picked, no moves on offer. */
  function Init(): (g: Game)
    ensures Inv(g)
    ensures g.board == NewBoard()
    ensures g.board.redLeft == 12 && g.board.greyLeft == 12
    ensures g.board.redKings == 0 && g.board.greyKings == 0
    ensures g.turn == Red && g.selected == None && g.validMoves == []
  {
    FreshBoard();
    Game(NewBoard(), Red, None, [])
  }

  /** `Game.changing_chances`: clears the offer and hands the turn over. */
  function ChangingChances(g: Game): (g': Game)
    ensures g'.turn == g.turn.Opponent() && g'.validMoves == []
    ensures g'.board == g.board && g'.selected == g.selected
  {
    g.(validMoves := [], turn := if g.turn == Red then Grey else Red)
  }

  /** Handing the turn over twice gives it back. */
  lemma ChangingChancesTwice(g: Game)
    ensures ChangingChances(ChangingChances(g)).turn == g.turn
    ensures ChangingChances(ChangingChances(g)) == g.(validMoves := [])
  {
  }

  /** `Game.changing_move`: installs the computer's board and hands the
      turn back; a valid board keeps the controller invariant. */
  function ChangingMove(g: Game, b: Board): (g': Game)
    requires Inv(g) && Valid(b)
    ensures Inv(g')
    ensures g'.board == b && g'.turn == g.turn.Opponent() && g'.validMoves == []
    ensures g'.selected == g.selected
  {
    ChangingChances(g.(board := b))
  }

  /** The guard of `Game._move`: a piece is picked, the clicked square is
      empty, and it is one of the offered destinations. */
  predicate Movable(g: Game, row: int, col: int)
    requires Shaped(g.board.grid) && OnBoard(row, col)
  {
    g.selected.Some? && GetPiece(g.board, row, col).Empty? && Pos(row, col) in Keys(g.validMoves)
  }

  /** `Game._move`: when the guard holds, moves the picked piece to the
      clicked square, removes what the offer captures and hands the turn
      over; the picked piece is the moved one afterwards. Otherwise nothing
      changes and the result is false. */
  function TryMove(g: Game, row: int, col: int): (r: (Game, bool))
    requires Inv(g) && OnBoard(row, col)
    ensures r.1 <==> Movable(g, row, col)
    ensures Inv(r.0)
    ensures !r.1 ==> r.0 == g
    ensures r.1 ==> r.0.turn == g.turn.Opponent() && r.0.validMoves == []
    ensures r.1 ==> r.0.selected == Some(Piece(row, col, g.selected.value.color, g.selected.value.king || Crowning(row)))
  {
    if Movable(g, row, col) then
      var p := g.selected.value;
      var k := Pos(row, col);
      var skipped := Get(g.validMoves, k);
      KeyEntry(g.validMoves, k);
      ValidMovesOffered(g.board, p);
      CheckMoveValid(g.board, p, (k, skipped));
      var b' := CheckMove(g.board, p, k, skipped);
      (ChangingChances(g.(board := b', selected := Some(Piece(row, col, p.color, p.king || Crowning(row))))), true)
    else (g, false)
  }

  /** A player's move lands on one of the boards `all_moves` lists for the
      side to move: the player and the computer choose among the same
      successors. */
  lemma TryMoveIsSuccessor(g: Game, row: int, col: int)
    requires Inv(g) && OnBoard(row, col) && Movable(g, row, col)
    ensures TryMove(g, row, col).0.board in AllMoves(g.board, g.turn)
  {
    var p := g.selected.value;
    var k := Pos(row, col);
    KeyEntry(g.validMoves, k);
    ValidMovesOffered(g.board, p);
    GivePiecesSpec(g.board, g.turn);
    AllMovesMembers(g.board, g.turn);
    assert SuccessorOf(g.board, g.turn, CheckMove(g.board, p, k, Get(g.validMoves, k)));
  }

  /** What a successful move does to the board: the picked piece stands on
      the clicked square, crowned on the far rows, its old square and the
      captured squares are empty, and the opponent loses one piece per
      capture. */
  lemma TryMoveBoard(g: Game, row: int, col: int)
    requires Inv(g) && OnBoard(row, col) && Movable(g, row, col)
    ensures var p := g.selected.value; var skipped := Get(g.validMoves, Pos(row, col));
      var b' := TryMove(g, row, col).0.board;
      && Shaped(b'.grid) && OnBoard(p.row, p.col)
      && b'.grid[row][col] == Occupied(Piece(row, col, p.color, p.king || Crowning(row)))
      && b'.grid[p.row][p.col] == Empty
      && (forall q :: q in skipped ==> q.color != p.color && OnBoard(q.row, q.col) && b'.grid[q.row][q.col] == Empty)
      && (if p.color.Grey? then b'.redLeft == g.board.redLeft - |skipped| else b'.greyLeft == g.board.greyLeft - |skipped|)
    ensures var p := g.selected.value; var k := Pos(row, col);
      && OnBoard(p.row, p.col) && g.board.grid[p.row][p.col] == Occupied(p)
      && Offered(g.board, p, (k, Get(g.validMoves, k)))
      && TryMove(g, row, col).0.board == CheckMove(g.board, p, k, Get(g.validMoves, k))
  {
    var p := g.selected.value;
    var k := Pos(row, col);
    KeyEntry(g.validMoves, k);
    ValidMovesOffered(g.board, p);
    CheckMoveSpec(g.board, p, (k, Get(g.validMoves, k)));
    CapturesOnSquares(g.board, p.color, Get(g.validMoves, k));
  }

  /** `Game.select`: with a piece picked, first tries to move it to the
      clicked square, and on failure drops the pick and selects afresh.
      Then, if the clicked square holds a piece of the side to move, picks
      it, offers its moves and answers true; otherwise answers false. */
  function Select(g: Game, row: int, col: int): (r: (Game, bool))
    requires Inv(g) && OnBoard(row, col)
    ensures Inv(r.0)
    ensures r.1 <==> r.0.board.grid[row][col].Occupied? && r.0.board.grid[row][col].piece.color == r.0.turn
    ensures r.1 ==> r.0.selected == Some(r.0.board.grid[row][col].piece)
                    && r.0.validMoves == ValidMoves(r.0.board, r.0.selected.value)
    decreases if g.selected.Some? then 1 else 0
  {
    var g1 :=
      if g.selected.Some? then
        var (moved, ok) := TryMove(g, row, col);
        if ok then moved else Select(g.(selected := None), row, col).0
      else g;
    var cell := GetPiece(g1.board, row, col);
    if cell.Occupied? && cell.piece.color == g1.turn then
      (g1.(selected := Some(cell.piece), validMoves := ValidMoves(g1.board, cell.piece)), true)
    else (g1, false)
  }

  /** A click that completes a move makes it, keeps the moved piece picked
      and answers false: the clicked square now holds a piece of the side
      that just moved. */
  lemma SelectMoves(g: Game, row: int, col: int)
    requires Inv(g) && OnBoard(row, col) && Movable(g, row, col)
    ensures Select(g, row, col) == (TryMove(g, row, col).0, false)
    ensures Select(g, row, col).0.selected ==
      Some(Piece(row, col, g.selected.value.color, g.selected.value.king || Crowning(row)))
  {
    var p := g.selected.value;
    var k := Pos(row, col);
    KeyEntry(g.validMoves, k);
    ValidMovesOffered(g.board, p);
    CheckMoveSpec(g.board, p, (k, Get(g.validMoves, k)));
  }

  /** A click that does not complete a move leaves the board and the turn
      alone and answers true exactly when it picks a piece of the side to
      move. A pick selects that piece with its moves; otherwise the old pick
      is dropped and the offer stays as it was. */
  lemma SelectPicks(g: Game, row: int, col: int)
    requires Inv(g) && OnBoard(row, col) && !Movable(g, row, col)
    ensures Select(g, row, col).0.board == g.board && Select(g, row, col).0.turn == g.turn
    ensures Select(g, row, col).1 <==> g.board.grid[row][col].Occupied? && g.board.grid[row][col].piece.color == g.turn
    ensures Select(g, row, col).1 ==>
      var q := g.board.grid[row][col].piece;
      Select(g, row, col).0 == g.(selected := Some(q), validMoves := ValidMoves(g.board, q))
    ensures !Select(g, row, col).1 ==> Select(g, row, col).0 == g.(selected := None)
  {
    if g.selected.Some? {
      assert !TryMove(g, row, col).1;
    }
  }
}
