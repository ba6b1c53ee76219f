/**
 Successor boards: `check_move` (one move applied to a copy of the board)
 and `all_moves` (every board one side can reach in one move, in the order
 the engine enumerates them).
 */
module Successors {
  import opened Wrappers
  import opened Dicts
  import opened Boards
  import opened MoveGen

  /** `check_move`: move the piece to k, then remove the captured pieces if
      there are any. */
  function CheckMove(b: Board, p: Piece, k: Pos, skip: seq<Piece>): Board
    requires Shaped(b.grid) && OnBoard(p.row, p.col) && OnBoard(k.row, k.col)
    requires b.grid[p.row][p.col] == Occupied(p)
    requires forall q :: q in skip ==> OnBoard(q.row, q.col)
  {
    var moved := Move(b, p, k.row, k.col);
    if skip != [] then
      assert forall i :: 0 <= i < |skip| ==> skip[i] in skip;
      Remove(moved, skip)
    else moved
  }

  /** What a move `validity_move` offers does to the board: the piece stands
      on k (crowned on row 0 or 7), its old square and the captured squares
      are empty, every other square is unchanged, the opponent loses one
      piece per capture and the mover's king counter counts a crowning. */
  lemma CheckMoveSpec(b: Board, p: Piece, e: (Pos, seq<Piece>))
    requires Valid(b) && OnBoard(p.row, p.col) && b.grid[p.row][p.col] == Occupied(p)
    requires Offered(b, p, e)
    ensures var (k, skip) := e; var b' := CheckMove(b, p, k, skip);
      && Shaped(b'.grid)
      && b'.grid[k.row][k.col] == Occupied(Piece(k.row, k.col, p.color, p.king || Crowning(k.row)))
      && b'.grid[p.row][p.col] == Empty
      && (forall q :: q in skip ==> b'.grid[q.row][q.col] == Empty)
      && (forall r, c :: OnBoard(r, c) && Pos(r, c) != k && (r, c) != (p.row, p.col) && !Hit(skip, r, c) ==>
            b'.grid[r][c] == b.grid[r][c])
      && (if p.color.Grey? then b'.redLeft == b.redLeft - |skip| && b'.greyLeft == b.greyLeft
          else b'.greyLeft == b.greyLeft - |skip| && b'.redLeft == b.redLeft)
      && b'.redKings == b.redKings + Ind(Crowning(k.row) && p.color.Red?)
      && b'.greyKings == b.greyKings + Ind(Crowning(k.row) && p.color.Grey?)
  {
    var (k, skip) := e;
    var moved := Move(b, p, k.row, k.col);
    assert (k.row, k.col) != (p.row, p.col);
    if skip != [] {
      forall q | q in skip
        ensures Hit(skip, q.row, q.col) && (q.row, q.col) != (k.row, k.col)
      {
        assert Foe(b, p.color, q);
        HitMember(skip, q);
      }
      NotHit(skip, k.row, k.col);
      ColorCountOpponents(skip, p.color);
    }
  }

  /** A square no piece of the list stands on is not hit. */
  lemma {:induction false} NotHit(ps: seq<Piece>, r: int, c: int)
    requires forall q :: q in ps ==> (q.row, q.col) != (r, c)
    ensures !Hit(ps, r, c)
  {
    if ps != [] {
      assert ps[0] in ps;
      NotHit(ps[1..], r, c);
    }
  }

  /** A piece of a list names its own square. */
  lemma {:induction false} HitMember(ps: seq<Piece>, q: Piece)
    requires q in ps
    ensures Hit(ps, q.row, q.col)
  {
    if ps[0] != q {
      HitMember(ps[1..], q);
    }
  }

  /** A list of opponents of `color` holds no piece of `color`. */
  lemma {:induction false} ColorCountOpponents(ps: seq<Piece>, color: Color)
    requires forall q :: q in ps ==> q.color != color
    ensures ColorCount(ps, color) == 0
    ensures ColorCount(ps, color.Opponent()) == |ps|
  {
    if ps != [] {
      assert ps[0] in ps;
      ColorCountOpponents(ps[1..], color);
    }
  }

  /** A move `validity_move` offers keeps the board invariant. */
  lemma CheckMoveValid(b: Board, p: Piece, e: (Pos, seq<Piece>))
    requires Valid(b) && OnBoard(p.row, p.col) && b.grid[p.row][p.col] == Occupied(p)
    requires Offered(b, p, e)
    ensures Valid(CheckMove(b, p, e.0, e.1))
  {
    var (k, skip) := e;
    MoveKeepsValid(b, p, k.row, k.col);
    var moved := Move(b, p, k.row, k.col);
    if skip != [] {
      CapturesOnSquares(b, p.color, skip);
      forall i | 0 <= i < |skip|
        ensures moved.grid[skip[i].row][skip[i].col] == Occupied(skip[i])
      {
        assert (skip[i].row, skip[i].col) != (k.row, k.col);
        assert (skip[i].row, skip[i].col) != (p.row, p.col);
      }
      RemoveKeepsValid(moved, skip);
    }
  }

  /** Every move `validity_move` offers a piece on its square fits the board. */
  lemma ValidMovesFit(b: Board, p: Piece)
    requires Valid(b) && OnBoard(p.row, p.col) && b.grid[p.row][p.col] == Occupied(p)
    ensures var ms := ValidMoves(b, p); forall i :: 0 <= i < |ms| ==>
      OnBoard(ms[i].0.row, ms[i].0.col) && forall q :: q in ms[i].1 ==> OnBoard(q.row, q.col)
  {
    ValidMovesOffered(b, p);
    var ms := ValidMoves(b, p);
    forall i | 0 <= i < |ms|
      ensures OnBoard(ms[i].0.row, ms[i].0.col) && forall q :: q in ms[i].1 ==> OnBoard(q.row, q.col)
    {
      assert ms[i] in ms;
    }
  }

  /** The boards of one piece's moves, in the order of its move dictionary. */
  function PieceMoves(b: Board, p: Piece, ms: Moves): (r: seq<Board>)
    requires Shaped(b.grid) && OnBoard(p.row, p.col) && b.grid[p.row][p.col] == Occupied(p)
    requires forall i :: 0 <= i < |ms| ==>
      OnBoard(ms[i].0.row, ms[i].0.col) && forall q :: q in ms[i].1 ==> OnBoard(q.row, q.col)
    ensures |r| == |ms|
    ensures forall i :: 0 <= i < |ms| ==> r[i] == CheckMove(b, p, ms[i].0, ms[i].1)
  {
    if ms == [] then []
    else
      [CheckMove(b, p, ms[0].0, ms[0].1)] + PieceMoves(b, p, ms[1..])
  }

  /** The boards of the moves of a list of pieces, piece by piece. */
  function Successors(b: Board, ps: seq<Piece>): seq<Board>
    requires Valid(b)
    requires forall q :: q in ps ==> OnBoard(q.row, q.col) && b.grid[q.row][q.col] == Occupied(q)
  {
    if ps == [] then []
    else
      ValidMovesFit(b, ps[0]);
      PieceMoves(b, ps[0], ValidMoves(b, ps[0])) + Successors(b, ps[1..])
  }

  /** `all_moves`: for each piece of `color` in row-major order, the board
      after each of its moves in dictionary order. Every successor keeps the
      board invariant. */
  function AllMoves(b: Board, color: Color): seq<Position>
    requires Valid(b)
  {
    GivePiecesSpec(b, color);
    SuccessorsValid(b, GivePieces(b, color));
    Successors(b, GivePieces(b, color))
  }

  lemma {:induction false} SuccessorsValid(b: Board, ps: seq<Piece>)
    requires Valid(b)
    requires forall q :: q in ps ==> OnBoard(q.row, q.col) && b.grid[q.row][q.col] == Occupied(q)
    ensures forall c :: c in Successors(b, ps) ==> Valid(c)
  {
    if ps != [] {
      var p := ps[0];
      SuccessorsValid(b, ps[1..]);
      ValidMovesOffered(b, p);
      ValidMovesFit(b, p);
      var ms := ValidMoves(b, p);
      forall c | c in PieceMoves(b, p, ms)
        ensures Valid(c)
      {
        var i :| 0 <= i < |ms| && PieceMoves(b, p, ms)[i] == c;
        CheckMoveValid(b, p, ms[i]);
      }
    }
  }

  /** c is the board after some move of some piece of `color`. */
  ghost predicate SuccessorOf(b: Board, color: Color, c: Board)
    requires Valid(b)
  {
    exists p, e :: && p in GivePieces(b, color) && OnBoard(p.row, p.col) && b.grid[p.row][p.col] == Occupied(p)
                   && e in ValidMoves(b, p) && Offered(b, p, e)
                   && c == CheckMove(b, p, e.0, e.1)
  }

  /** The successors are exactly the boards reached by one move that
      `validity_move` offers a piece of the side to move. */
  lemma AllMovesMembers(b: Board, color: Color)
    requires Valid(b)
    ensures forall c :: c in AllMoves(b, color) <==> SuccessorOf(b, color, c)
  {
    GivePiecesSpec(b, color);
    var ps := GivePieces(b, color);
    SuccessorsSound(b, color, ps);
    forall c | SuccessorOf(b, color, c)
      ensures c in AllMoves(b, color)
    {
      var p, e :| && p in ps && OnBoard(p.row, p.col) && b.grid[p.row][p.col] == Occupied(p)
                  && e in ValidMoves(b, p) && Offered(b, p, e) && c == CheckMove(b, p, e.0, e.1);
      SuccessorsComplete(b, ps, p, e);
    }
  }

  lemma {:induction false} SuccessorsSound(b: Board, color: Color, ps: seq<Piece>)
    requires Valid(b)
    requires forall q :: q in ps ==> OnBoard(q.row, q.col) && b.grid[q.row][q.col] == Occupied(q)
    requires forall q :: q in ps ==> q in GivePieces(b, color)
    ensures forall c :: c in Successors(b, ps) ==> SuccessorOf(b, color, c)
  {
    if ps != [] {
      SuccessorsSound(b, color, ps[1..]);
      ValidMovesFit(b, ps[0]);
      PieceMovesSound(b, color, ps[0]);
    }
  }

  lemma PieceMovesSound(b: Board, color: Color, p: Piece)
    requires Valid(b) && OnBoard(p.row, p.col) && b.grid[p.row][p.col] == Occupied(p)
    requires p in GivePieces(b, color)
    requires var ms := ValidMoves(b, p); forall i :: 0 <= i < |ms| ==>
      OnBoard(ms[i].0.row, ms[i].0.col) && forall q :: q in ms[i].1 ==> OnBoard(q.row, q.col)
    ensures forall c :: c in PieceMoves(b, p, ValidMoves(b, p)) ==> SuccessorOf(b, color, c)
  {
    ValidMovesOffered(b, p);
    var ms := ValidMoves(b, p);
    forall c | c in PieceMoves(b, p, ms)
      ensures SuccessorOf(b, color, c)
    {
      var i :| 0 <= i < |ms| && PieceMoves(b, p, ms)[i] == c;
      assert ms[i] in ms;
    }
  }

  lemma {:induction false} SuccessorsComplete(b: Board, ps: seq<Piece>, q: Piece, e: (Pos, seq<Piece>))
    requires Valid(b)
    requires forall q :: q in ps ==> OnBoard(q.row, q.col) && b.grid[q.row][q.col] == Occupied(q)
    requires q in ps && e in ValidMoves(b, q) && Offered(b, q, e)
    ensures CheckMove(b, q, e.0, e.1) in Successors(b, ps)
  {
    ValidMovesFit(b, ps[0]);
    if q == ps[0] {
      var ms := ValidMoves(b, q);
      var i :| 0 <= i < |ms| && ms[i] == e;
      assert PieceMoves(b, q, ms)[i] == CheckMove(b, q, e.0, e.1);
    } else {
      SuccessorsComplete(b, ps[1..], q, e);
    }
  }
}
