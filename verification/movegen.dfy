/**
 Move generation: `Board.go_left` and `Board.go_right` (one diagonal scan,
 merged here into `Scan` with a `Side` parameter) and `Board.validity_move`,
 which merges four such scans into an insertion-ordered dictionary from
 landing squares to the pieces the move captures.
 */
module MoveGen {
  import opened Wrappers
  import opened Dicts
  import opened Boards

  /** The column direction of a scan: `go_left` or `go_right`. */
  datatype Side = Left | Right

  /** The row direction of a scan: step -1 (towards row 0, red's way) or
      step +1 (towards row 7, grey's way). */
  datatype Heading = Up | Down

  /** Landing squares mapped to the pieces captured on the way there. */
  type Moves = Dict<Pos, seq<Piece>>

  function Step(h: Heading): int
  {
    if h.Up? then -1 else 1
  }

  function Shift(s: Side): int
  {
    if s.Left? then -1 else 1
  }

  function Abs(x: int): nat
  {
    if x < 0 then -x else x
  }

  function Max(a: int, b: int): int
  {
    if a >= b then a else b
  }

  function Min(a: int, b: int): int
  {
    if a <= b then a else b
  }

  /** Row r is still inside `range(start, stop, step)`. */
  predicate InRange(h: Heading, r: int, stop: int)
  {
    if h.Up? then r > stop else r < stop
  }

  /** The scan's column has left the board on its own side: `go_left` only
      tests for column < 0, `go_right` only for column >= 8. */
  predicate PastEdge(s: Side, c: int)
  {
    if s.Left? then c < 0 else c >= 8
  }

  /** Row `row` lies at or beyond row `from` in the direction of the heading. */
  predicate Ahead(h: Heading, from: int, row: int)
  {
    if h.Up? then row <= from else row >= from
  }

  /** Row `row` lies strictly behind row `from`. */
  predicate Behind(h: Heading, from: int, row: int)
  {
    if h.Up? then row > from else row < from
  }

  /** The arguments a scan is called with: its rows stay on the board and its
      column never starts past the edge it does not test. */
  predicate ScanArgs(h: Heading, s: Side, r: int, stop: int, c: int)
  {
    && (h.Up? ==> r <= 7 && stop >= -1)
    && (h.Down? ==> r >= 0 && stop <= 8)
    && (s.Left? ==> c <= 7)
    && (s.Right? ==> c >= 0)
  }

  /** The bound of a continuation scan from a landing on row r: two more rows
      at most, and upwards never row 0 (the source uses max(r - 3, 0)). */
  function ContinueStop(h: Heading, r: int): int
  {
    if h.Up? then Max(r - 3, 0) else Min(r + 3, 8)
  }

  /** The rank of row r in the direction of travel, which every step lowers. */
  function Progress(h: Heading, r: int): int
  {
    if h.Up? then r + 1 else 8 - r
  }

  /** One `go_left` (side Left) or `go_right` (side Right) loop from square
      (r, c) on, for a piece of `color`. `last` is the opponent piece passed
      over by the previous iteration; `skipped` is what the scan was started
      with by the capture it continues. */
  function Scan(b: Board, s: Side, h: Heading, r: int, stop: int, color: Color, c: int,
                skipped: seq<Piece>, last: seq<Piece>): Moves
    requires Shaped(b.grid) && ScanArgs(h, s, r, stop, c)
    decreases Progress(h, r), 1
  {
    if !InRange(h, r, stop) || PastEdge(s, c) then []
    else
      var cur := b.grid[r][c];
      if cur.Empty? then Land(b, h, r, color, c, skipped, last)
      else if cur.piece.color == color then []
      else Scan(b, s, h, r + Step(h), stop, color, c + Shift(s), skipped, [cur.piece])
  }

  /** The body of the loop on reaching the empty square (r, c): record it,
      unless this is a continuation that has jumped nothing yet, and after a
      jump continue on both sides from the row beyond. */
  function Land(b: Board, h: Heading, r: int, color: Color, c: int, skipped: seq<Piece>, last: seq<Piece>): Moves
    requires Shaped(b.grid) && OnBoard(r, c)
    decreases Progress(h, r), 0
  {
    if skipped != [] && last == [] then []
    else
      var here := Put([], Pos(r, c), if skipped != [] then last + skipped else last);
      if last == [] then here
      else
        var stop' := ContinueStop(h, r);
        var toLeft := Scan(b, Left, h, r + Step(h), stop', color, c - 1, last, []);
        var toRight := Scan(b, Right, h, r + Step(h), stop', color, c + 1, last, []);
        Update(Update(here, toLeft), toRight)
  }

  /** The scans of `validity_move` start next to the piece and may walk two rows. */
  function FirstScan(b: Board, p: Piece, s: Side, h: Heading): Moves
    requires Shaped(b.grid) && OnBoard(p.row, p.col)
  {
    var stop := if h.Up? then Max(p.row - 3, -1) else Min(p.row + 3, 8);
    Scan(b, s, h, p.row + Step(h), stop, p.color, p.col + Shift(s), [], [])
  }

  /** Red pieces move up, grey pieces down, kings both ways. */
  predicate MovesTowards(p: Piece, h: Heading)
  {
    if h.Up? then p.color.Red? || p.king else p.color.Grey? || p.king
  }

  /** The two scans of one heading, merged into `d` left first, when the
      piece may move that way. */
  function Towards(b: Board, p: Piece, h: Heading, d: Moves): Moves
    requires Shaped(b.grid) && OnBoard(p.row, p.col)
  {
    if MovesTowards(p, h) then Update(Update(d, FirstScan(b, p, Left, h)), FirstScan(b, p, Right, h)) else d
  }

  /** `Board.validity_move`: the up-left, up-right, down-left and down-right
      scans merged in that order, a later scan overriding an earlier one on
      the same landing square. */
  function ValidMoves(b: Board, p: Piece): Moves
    requires Shaped(b.grid) && OnBoard(p.row, p.col)
  {
    Towards(b, p, Down, Towards(b, p, Up, []))
  }

  // ---------------------------------------------------------------------------
  // Properties of one scan
  // ---------------------------------------------------------------------------

  lemma {:induction false} ScanUnique(b: Board, s: Side, h: Heading, r: int, stop: int, color: Color, c: int,
                                      skipped: seq<Piece>, last: seq<Piece>)
    requires Shaped(b.grid) && ScanArgs(h, s, r, stop, c)
    ensures UniqueKeys(Scan(b, s, h, r, stop, color, c, skipped, last))
    decreases Progress(h, r), 1
  {
    if InRange(h, r, stop) && !PastEdge(s, c) {
      var cur := b.grid[r][c];
      if cur.Empty? {
        LandUnique(b, h, r, color, c, skipped, last);
      } else if cur.piece.color != color {
        ScanUnique(b, s, h, r + Step(h), stop, color, c + Shift(s), skipped, [cur.piece]);
      }
    }
  }

  lemma {:induction false} LandUnique(b: Board, h: Heading, r: int, color: Color, c: int,
                                      skipped: seq<Piece>, last: seq<Piece>)
    requires Shaped(b.grid) && OnBoard(r, c)
    ensures UniqueKeys(Land(b, h, r, color, c, skipped, last))
    decreases Progress(h, r), 0
  {
    if !(skipped != [] && last == []) && last != [] {
      var stop' := ContinueStop(h, r);
      ScanUnique(b, Left, h, r + Step(h), stop', color, c - 1, last, []);
      ScanUnique(b, Right, h, r + Step(h), stop', color, c + 1, last, []);
    }
  }

  /** A scan that continues a capture, or has just passed an opponent,
      records only captures: never a plain step. */
  lemma {:induction false} ScanOnlyCaptures(b: Board, s: Side, h: Heading, r: int, stop: int, color: Color, c: int,
                                            skipped: seq<Piece>, last: seq<Piece>)
    requires Shaped(b.grid) && ScanArgs(h, s, r, stop, c) && (skipped != [] || last != [])
    ensures forall e :: e in Scan(b, s, h, r, stop, color, c, skipped, last) ==> e.1 != []
    decreases Progress(h, r), 2
  {
    if InRange(h, r, stop) && !PastEdge(s, c) {
      var cur := b.grid[r][c];
      if cur.Empty? {
        LandOnlyCaptures(b, h, r, color, c, skipped, last);
      } else if cur.piece.color != color {
        ScanOnlyCaptures(b, s, h, r + Step(h), stop, color, c + Shift(s), skipped, [cur.piece]);
      }
    }
  }

  lemma {:induction false} LandOnlyCaptures(b: Board, h: Heading, r: int, color: Color, c: int,
                                            skipped: seq<Piece>, last: seq<Piece>)
    requires Shaped(b.grid) && OnBoard(r, c) && (skipped != [] || last != [])
    ensures forall e :: e in Land(b, h, r, color, c, skipped, last) ==> e.1 != []
    decreases Progress(h, r), 1
  {
    if last != [] {
      MergedOnlyCaptures(b, h, r, color, c, skipped, last);
      LandMerges(b, h, r, color, c, skipped, last);
    }
  }

  /** `LandOnlyCaptures` on the merged dictionary of a landing after a jump. */
  lemma {:induction false} MergedOnlyCaptures(b: Board, h: Heading, r: int, color: Color, c: int,
                                              skipped: seq<Piece>, last: seq<Piece>)
    requires Shaped(b.grid) && OnBoard(r, c) && last != []
    ensures var m := Update(Update(Put([], Pos(r, c), if skipped != [] then last + skipped else last),
                                   Scan(b, Left, h, r + Step(h), ContinueStop(h, r), color, c + Shift(Left), last, [])),
                            Scan(b, Right, h, r + Step(h), ContinueStop(h, r), color, c + Shift(Right), last, []));
      forall e :: e in m ==> e.1 != []
    decreases Progress(h, r), 0
  {
    var r' := r + Step(h);
    var stop' := ContinueStop(h, r);
    var toLeft := Scan(b, Left, h, r', stop', color, c + Shift(Left), last, []);
    var toRight := Scan(b, Right, h, r', stop', color, c + Shift(Right), last, []);
    ScanOnlyCaptures(b, Left, h, r', stop', color, c + Shift(Left), last, []);
    ScanOnlyCaptures(b, Right, h, r', stop', color, c + Shift(Right), last, []);
    var here := Put([], Pos(r, c), if skipped != [] then last + skipped else last);
    var P := (e: (Pos, seq<Piece>)) => e.1 != [];
    UpdateAll(here, toLeft, P);
    UpdateAll(Update(here, toLeft), toRight, P);
  }

  /** Where a scan from (r, c) may land: an empty square on the board, level
      with or beyond row r, inside the diagonal cone from (r, c), on a square
      of the same colour; upwards with a non-negative bound never on row 0. */
  ghost predicate Landing(b: Board, h: Heading, r: int, stop: int, c: int, k: Pos)
    requires Shaped(b.grid)
  {
    && OnBoard(k.row, k.col) && b.grid[k.row][k.col] == Empty
    && Ahead(h, r, k.row)
    && Abs(k.col - c) <= Abs(k.row - r)
    && (k.row + k.col - r - c) % 2 == 0
    && (h.Up? && stop >= 0 ==> k.row >= 1)
  }

  lemma {:induction false} ScanLandings(b: Board, s: Side, h: Heading, r: int, stop: int, color: Color, c: int,
                                        skipped: seq<Piece>, last: seq<Piece>)
    requires Shaped(b.grid) && ScanArgs(h, s, r, stop, c)
    ensures forall e :: e in Scan(b, s, h, r, stop, color, c, skipped, last) ==> Landing(b, h, r, stop, c, e.0)
    decreases Progress(h, r), 1
  {
    if InRange(h, r, stop) && !PastEdge(s, c) {
      var cur := b.grid[r][c];
      if cur.Empty? {
        LandLandings(b, h, r, stop, color, c, skipped, last);
      } else if cur.piece.color != color {
        var r' := r + Step(h);
        var c' := c + Shift(s);
        ScanLandings(b, s, h, r', stop, color, c', skipped, [cur.piece]);
        forall e | e in Scan(b, s, h, r', stop, color, c', skipped, [cur.piece])
          ensures Landing(b, h, r, stop, c, e.0)
        {
          ContinuationLanding(b, h, r, stop, stop, c, c', e.0);
        }
      }
    }
  }

  lemma {:induction false} LandLandings(b: Board, h: Heading, r: int, stop: int, color: Color, c: int,
                                        skipped: seq<Piece>, last: seq<Piece>)
    requires Shaped(b.grid) && OnBoard(r, c) && b.grid[r][c] == Empty && InRange(h, r, stop)
    requires h.Up? ==> stop >= -1
    ensures forall e :: e in Land(b, h, r, color, c, skipped, last) ==> Landing(b, h, r, stop, c, e.0)
    decreases Progress(h, r), 0
  {
    if !(skipped != [] && last == []) {
      var here := Put([], Pos(r, c), if skipped != [] then last + skipped else last);
      assert here == [(Pos(r, c), if skipped != [] then last + skipped else last)];
      if last != [] {
        var r' := r + Step(h);
        var stop' := ContinueStop(h, r);
        var toLeft := Scan(b, Left, h, r', stop', color, c - 1, last, []);
        var toRight := Scan(b, Right, h, r', stop', color, c + 1, last, []);
        ScanLandings(b, Left, h, r', stop', color, c - 1, last, []);
        ScanLandings(b, Right, h, r', stop', color, c + 1, last, []);
        LandingsMerge(b, h, r, stop, c, stop', if skipped != [] then last + skipped else last, toLeft, toRight);
      }
    }
  }

  /** The landings of a scan that stops on the empty square (r, c) and then
      continues to both sides. */
  lemma LandingsMerge(b: Board, h: Heading, r: int, stop: int, c: int, stop': int, v: seq<Piece>,
                      toLeft: Moves, toRight: Moves)
    requires Shaped(b.grid) && InRange(h, r, stop) && OnBoard(r, c) && b.grid[r][c] == Empty
    requires h.Up? ==> stop >= -1 && stop' >= 0
    requires forall e :: e in toLeft ==> Landing(b, h, r + Step(h), stop', c - 1, e.0)
    requires forall e :: e in toRight ==> Landing(b, h, r + Step(h), stop', c + 1, e.0)
    ensures forall e :: e in Update(Update([(Pos(r, c), v)], toLeft), toRight) ==> Landing(b, h, r, stop, c, e.0)
  {
    var P := (e: (Pos, seq<Piece>)) => Landing(b, h, r, stop, c, e.0);
    forall e | e in toLeft ensures P(e)
    {
      ContinuationLanding(b, h, r, stop, stop', c, c - 1, e.0);
    }
    forall e | e in toRight ensures P(e)
    {
      ContinuationLanding(b, h, r, stop, stop', c, c + 1, e.0);
    }
    UpdateAll([(Pos(r, c), v)], toLeft, P);
    UpdateAll(Update([(Pos(r, c), v)], toLeft), toRight, P);
  }

  /** A landing of a scan that starts one row further on, one column to
      either side, is a landing of the scan from (r, c). */
  lemma ContinuationLanding(b: Board, h: Heading, r: int, stop: int, stop': int, c: int, c': int, k: Pos)
    requires Shaped(b.grid) && InRange(h, r, stop) && Abs(c' - c) == 1
    requires h.Up? && stop >= 0 ==> stop' >= 0
    requires Landing(b, h, r + Step(h), stop', c', k)
    ensures Landing(b, h, r, stop, c, k)
  {
  }

  /** An opponent of `color` standing on its own square. */
  ghost predicate Foe(b: Board, color: Color, q: Piece)
    requires Shaped(b.grid)
  {
    OnBoard(q.row, q.col) && b.grid[q.row][q.col] == Occupied(q) && q.color != color
  }

  /** The pieces a move captures: at most two opponents of `color`, each on
      its own square, two of them on different rows. */
  ghost predicate Captures(b: Board, color: Color, v: seq<Piece>)
    requires Shaped(b.grid)
  {
    && |v| <= 2
    && (forall q :: q in v ==> Foe(b, color, q))
    && (|v| == 2 ==> v[0].row != v[1].row)
  }

  /** Captured pieces can be handed to `remove_piece`. */
  lemma CapturesOnSquares(b: Board, color: Color, v: seq<Piece>)
    requires Shaped(b.grid) && Captures(b, color, v)
    ensures OnTheirSquares(b, v)
    ensures forall i :: 0 <= i < |v| ==> v[i].color != color
  {
    forall i | 0 <= i < |v|
      ensures OnBoard(v[i].row, v[i].col) && b.grid[v[i].row][v[i].col] == Occupied(v[i]) && v[i].color != color
    {
      assert v[i] in v;
    }
  }

  /** What a scan from (r, c) records for one landing square: an empty list
      only on the very first square of a scan that continues nothing, and
      otherwise the piece jumped last first, on the square just behind the
      landing, no nearer than the first square of the scan. */
  ghost predicate Jump(b: Board, h: Heading, color: Color, r: int, c: int,
                       skipped: seq<Piece>, last: seq<Piece>, e: (Pos, seq<Piece>))
    requires Shaped(b.grid)
  {
    var (k, v) := e;
    && Captures(b, color, v)
    && (v == [] ==> skipped == [] && last == [] && k == Pos(r, c))
    && (h.Up? && |v| == 2 ==> k.row >= 1)
    && (v != [] ==>
          && v[0].row == k.row - Step(h) && Abs(v[0].col - k.col) == 1
          && Ahead(h, if last == [] then r else r - Step(h), v[0].row))
  }

  /** The arguments with which a scan records only proper captures: the piece
      passed last stands just behind (r, c) and the piece a continuation
      carries stands further back. */
  ghost predicate CaptureArgs(b: Board, s: Side, h: Heading, r: int, color: Color, c: int,
                              skipped: seq<Piece>, last: seq<Piece>)
    requires Shaped(b.grid)
  {
    && |last| <= 1 && |skipped| <= 1
    && Captures(b, color, last) && Captures(b, color, skipped)
    && (last != [] ==> last[0].row == r - Step(h) && last[0].col == c - Shift(s))
    && (skipped != [] ==> Behind(h, r - Step(h), skipped[0].row))
  }

  lemma {:induction false} ScanJumps(b: Board, s: Side, h: Heading, r: int, stop: int, color: Color, c: int,
                                     skipped: seq<Piece>, last: seq<Piece>)
    requires Shaped(b.grid) && Positioned(b.grid) && ScanArgs(h, s, r, stop, c)
    requires CaptureArgs(b, s, h, r, color, c, skipped, last)
    requires h.Up? && skipped != [] ==> stop >= 0
    ensures forall e :: e in Scan(b, s, h, r, stop, color, c, skipped, last) ==> Jump(b, h, color, r, c, skipped, last, e)
    decreases Progress(h, r), 3
  {
    if InRange(h, r, stop) && !PastEdge(s, c) {
      var cur := b.grid[r][c];
      if cur.Empty? {
        LandJumps(b, s, h, r, color, c, skipped, last);
      } else if cur.piece.color != color {
        PassJumps(b, s, h, r, stop, color, c, skipped, last, cur.piece);
      }
    }
  }

  /** A scan passing over the opponent q on (r, c) records, from the next
      square on, only what a scan from (r, c) may record. */
  lemma {:induction false} PassJumps(b: Board, s: Side, h: Heading, r: int, stop: int, color: Color, c: int,
                                     skipped: seq<Piece>, last: seq<Piece>, q: Piece)
    requires Shaped(b.grid) && Positioned(b.grid) && ScanArgs(h, s, r, stop, c)
    requires CaptureArgs(b, s, h, r, color, c, skipped, last)
    requires h.Up? && skipped != [] ==> stop >= 0
    requires InRange(h, r, stop) && !PastEdge(s, c)
    requires b.grid[r][c] == Occupied(q) && q.color != color
    ensures forall e :: e in Scan(b, s, h, r + Step(h), stop, color, c + Shift(s), skipped, [q]) ==>
      Jump(b, h, color, r, c, skipped, last, e)
    decreases Progress(h, r), 2
  {
    var r' := r + Step(h);
    var c' := c + Shift(s);
    assert q.row == r && q.col == c;
    StepArgs(b, s, h, r, color, c, skipped, last);
    ScanJumps(b, s, h, r', stop, color, c', skipped, [q]);
    StepJumps(b, h, color, r, c, c', skipped, last, q, Scan(b, s, h, r', stop, color, c', skipped, [q]));
  }

  lemma {:induction false} LandJumps(b: Board, s: Side, h: Heading, r: int, color: Color, c: int,
                                     skipped: seq<Piece>, last: seq<Piece>)
    requires Shaped(b.grid) && Positioned(b.grid) && OnBoard(r, c)
    requires CaptureArgs(b, s, h, r, color, c, skipped, last)
    requires h.Up? && skipped != [] ==> r >= 1
    ensures forall e :: e in Land(b, h, r, color, c, skipped, last) ==> Jump(b, h, color, r, c, skipped, last, e)
    decreases Progress(h, r), 2
  {
    if last != [] {
      JumpLandJumps(b, s, h, r, color, c, skipped, last);
      LandMerges(b, h, r, color, c, skipped, last);
    } else if skipped == [] {
      HereJump(b, s, h, r, color, c, skipped, last);
    }
  }

  /** The entries a landing just after a jump records: its own square and
      what the two continuations record. */
  lemma {:induction false} JumpLandJumps(b: Board, s: Side, h: Heading, r: int, color: Color, c: int,
                                         skipped: seq<Piece>, last: seq<Piece>)
    requires Shaped(b.grid) && Positioned(b.grid) && OnBoard(r, c) && last != []
    requires CaptureArgs(b, s, h, r, color, c, skipped, last)
    requires h.Up? && skipped != [] ==> r >= 1
    ensures var m := Update(Update(Put([], Pos(r, c), if skipped != [] then last + skipped else last),
                                   Scan(b, Left, h, r + Step(h), ContinueStop(h, r), color, c + Shift(Left), last, [])),
                            Scan(b, Right, h, r + Step(h), ContinueStop(h, r), color, c + Shift(Right), last, []));
      forall e :: e in m ==> Jump(b, h, color, r, c, skipped, last, e)
    decreases Progress(h, r), 1
  {
    var here := Put([], Pos(r, c), if skipped != [] then last + skipped else last);
    var r' := r + Step(h);
    var stop' := ContinueStop(h, r);
    HereJump(b, s, h, r, color, c, skipped, last);
    ContinuationJumps(b, s, h, r, color, c, skipped, last, Left);
    ContinuationJumps(b, s, h, r, color, c, skipped, last, Right);
    MergeJumps(b, h, color, r, c, skipped, last, here,
      Scan(b, Left, h, r', stop', color, c + Shift(Left), last, []), Scan(b, Right, h, r', stop', color, c + Shift(Right), last, []));
  }

  /** A landing after a jump records its square and merges both continuations. */
  lemma LandMerges(b: Board, h: Heading, r: int, color: Color, c: int, skipped: seq<Piece>, last: seq<Piece>)
    requires Shaped(b.grid) && OnBoard(r, c) && last != []
    ensures Land(b, h, r, color, c, skipped, last) ==
      Update(Update(Put([], Pos(r, c), if skipped != [] then last + skipped else last),
                    Scan(b, Left, h, r + Step(h), ContinueStop(h, r), color, c + Shift(Left), last, [])),
             Scan(b, Right, h, r + Step(h), ContinueStop(h, r), color, c + Shift(Right), last, []))
  {
    assert c - 1 == c + Shift(Left) && c + 1 == c + Shift(Right);
  }

  /** Merging three dictionaries whose entries all satisfy `Jump` keeps it. */
  lemma MergeJumps(b: Board, h: Heading, color: Color, r: int, c: int, skipped: seq<Piece>, last: seq<Piece>,
                   d1: Moves, d2: Moves, d3: Moves)
    requires Shaped(b.grid)
    requires forall e :: e in d1 ==> Jump(b, h, color, r, c, skipped, last, e)
    requires forall e :: e in d2 ==> Jump(b, h, color, r, c, skipped, last, e)
    requires forall e :: e in d3 ==> Jump(b, h, color, r, c, skipped, last, e)
    ensures forall e :: e in Update(Update(d1, d2), d3) ==> Jump(b, h, color, r, c, skipped, last, e)
  {
    var P := (e: (Pos, seq<Piece>)) => Jump(b, h, color, r, c, skipped, last, e);
    UpdateAll(d1, d2, P);
    UpdateAll(Update(d1, d2), d3, P);
  }

  /** The entries the continuation from (r, c) towards side s' records. */
  lemma {:induction false} ContinuationJumps(b: Board, s: Side, h: Heading, r: int, color: Color, c: int,
                                             skipped: seq<Piece>, last: seq<Piece>, s': Side)
    requires Shaped(b.grid) && Positioned(b.grid) && OnBoard(r, c) && last != []
    requires CaptureArgs(b, s, h, r, color, c, skipped, last)
    ensures forall e :: e in Scan(b, s', h, r + Step(h), ContinueStop(h, r), color, c + Shift(s'), last, []) ==>
      Jump(b, h, color, r, c, skipped, last, e)
    decreases Progress(h, r), 0
  {
    var m := Scan(b, s', h, r + Step(h), ContinueStop(h, r), color, c + Shift(s'), last, []);
    ContinuationArgs(b, s, h, r, color, c, skipped, last, s');
    ScanJumps(b, s', h, r + Step(h), ContinueStop(h, r), color, c + Shift(s'), last, []);
    forall e | e in m
      ensures Jump(b, h, color, r, c, skipped, last, e)
    {
      ContinuationJump(b, h, color, r, c, c + Shift(s'), skipped, last, e);
    }
  }

  /** The entries of a scan that steps over the opponent piece on row r. */
  lemma StepJumps(b: Board, h: Heading, color: Color, r: int, c: int, c': int,
                  skipped: seq<Piece>, last: seq<Piece>, q: Piece, m: Moves)
    requires Shaped(b.grid)
    requires forall e :: e in m ==> Jump(b, h, color, r + Step(h), c', skipped, [q], e)
    ensures forall e :: e in m ==> Jump(b, h, color, r, c, skipped, last, e)
  {
  }

  /** The entry a scan records where it stops. */
  lemma HereJump(b: Board, s: Side, h: Heading, r: int, color: Color, c: int, skipped: seq<Piece>, last: seq<Piece>)
    requires Shaped(b.grid) && CaptureArgs(b, s, h, r, color, c, skipped, last)
    requires !(skipped != [] && last == [])
    requires h.Up? && skipped != [] ==> r >= 1
    ensures Jump(b, h, color, r, c, skipped, last, (Pos(r, c), if skipped != [] then last + skipped else last))
  {
    if skipped != [] {
      var v := last + skipped;
      assert v == [last[0], skipped[0]];
      assert last[0] in last && skipped[0] in skipped;
    }
  }

  /** Stepping over the opponent piece on (r, c) keeps the capture arguments. */
  lemma StepArgs(b: Board, s: Side, h: Heading, r: int, color: Color, c: int, skipped: seq<Piece>, last: seq<Piece>)
    requires Shaped(b.grid) && OnBoard(r, c) && CaptureArgs(b, s, h, r, color, c, skipped, last)
    requires b.grid[r][c].Occupied? && b.grid[r][c].piece.color != color
    requires b.grid[r][c].piece.row == r && b.grid[r][c].piece.col == c
    ensures CaptureArgs(b, s, h, r + Step(h), color, c + Shift(s), skipped, [b.grid[r][c].piece])
  {
  }

  /** A continuation from (r, c) carries the piece passed last. */
  lemma ContinuationArgs(b: Board, s: Side, h: Heading, r: int, color: Color, c: int,
                         skipped: seq<Piece>, last: seq<Piece>, s': Side)
    requires Shaped(b.grid) && CaptureArgs(b, s, h, r, color, c, skipped, last) && last != []
    ensures CaptureArgs(b, s', h, r + Step(h), color, c + Shift(s'), last, [])
  {
  }

  lemma ContinuationJump(b: Board, h: Heading, color: Color, r: int, c: int, c': int,
                         skipped: seq<Piece>, last: seq<Piece>, e: (Pos, seq<Piece>))
    requires Shaped(b.grid) && last != []
    requires Jump(b, h, color, r + Step(h), c', last, [], e)
    ensures Jump(b, h, color, r, c, skipped, last, e)
  {
  }

  // ---------------------------------------------------------------------------
  // Properties of `validity_move`
  // ---------------------------------------------------------------------------

  /** An entry (k, v) that `validity_move` may offer the piece p: k is an
      empty dark square on the board, on another row, inside the diagonal cone
      of p and in a direction p may move; row 0 is never offered upwards to a
      piece on row 3 or beyond, nor with two pieces captured; v lists at most two distinct opponent
      pieces standing on their squares; v is empty exactly when k is one
      diagonal step away, and otherwise starts with the piece jumped last,
      diagonally adjacent to k and one row nearer to p. */
  ghost predicate Offered(b: Board, p: Piece, e: (Pos, seq<Piece>))
    requires Shaped(b.grid)
  {
    var (k, v) := e;
    && OnBoard(k.row, k.col) && b.grid[k.row][k.col] == Empty && (k.row + k.col) % 2 == 1
    && k.row != p.row && Abs(k.col - p.col) <= Abs(k.row - p.row)
    && (k.row < p.row ==> MovesTowards(p, Up))
    && (k.row > p.row ==> MovesTowards(p, Down))
    && (p.row >= 3 && k.row < p.row ==> k.row >= 1)
    && (|v| == 2 && k.row < p.row ==> k.row >= 1)
    && Captures(b, p.color, v)
    && (v == [] <==> Abs(k.row - p.row) == 1 && Abs(k.col - p.col) == 1)
    && (v != [] ==>
          && Abs(v[0].row - k.row) == 1 && Abs(v[0].col - k.col) == 1
          && Abs(v[0].row - p.row) == Abs(k.row - p.row) - 1)
  }

  lemma OfferedFromScan(b: Board, p: Piece, s: Side, h: Heading, e: (Pos, seq<Piece>))
    requires Shaped(b.grid) && OnBoard(p.row, p.col) && (p.row + p.col) % 2 == 1
    requires MovesTowards(p, h)
    requires var stop := if h.Up? then Max(p.row - 3, -1) else Min(p.row + 3, 8);
      Landing(b, h, p.row + Step(h), stop, p.col + Shift(s), e.0)
    requires Jump(b, h, p.color, p.row + Step(h), p.col + Shift(s), [], [], e)
    ensures Offered(b, p, e)
  {
    var (k, v) := e;
    var r := p.row + Step(h);
    var c := p.col + Shift(s);
    Parity(p.row + p.col, r + c - p.row - p.col, k.row + k.col - r - c);
    if v != [] {
      assert Ahead(h, p.row + Step(h), v[0].row);
    }
  }

  /** A diagonal walk keeps the colour of the square. */
  lemma Parity(x: int, d1: int, d2: int)
    requires x % 2 == 1 && (d1 == -2 || d1 == 0 || d1 == 2) && d2 % 2 == 0
    ensures (x + d1 + d2) % 2 == 1
  {
  }

  /** Every entry of one of the four scans is one `validity_move` may offer. */
  lemma FirstScanOffered(b: Board, p: Piece, s: Side, h: Heading)
    requires Shaped(b.grid) && Positioned(b.grid) && OnBoard(p.row, p.col) && (p.row + p.col) % 2 == 1
    requires MovesTowards(p, h)
    ensures forall e :: e in FirstScan(b, p, s, h) ==> Offered(b, p, e)
  {
    var stop := if h.Up? then Max(p.row - 3, -1) else Min(p.row + 3, 8);
    var r := p.row + Step(h);
    var c := p.col + Shift(s);
    ScanLandings(b, s, h, r, stop, p.color, c, [], []);
    ScanJumps(b, s, h, r, stop, p.color, c, [], []);
    forall e | e in FirstScan(b, p, s, h) ensures Offered(b, p, e)
    {
      OfferedFromScan(b, p, s, h, e);
    }
  }

  lemma TowardsOffered(b: Board, p: Piece, h: Heading, d: Moves)
    requires Shaped(b.grid) && Positioned(b.grid) && OnBoard(p.row, p.col) && (p.row + p.col) % 2 == 1
    requires forall e :: e in d ==> Offered(b, p, e)
    ensures forall e :: e in Towards(b, p, h, d) ==> Offered(b, p, e)
  {
    if MovesTowards(p, h) {
      var P := e => Offered(b, p, e);
      FirstScanOffered(b, p, Left, h);
      FirstScanOffered(b, p, Right, h);
      UpdateAll(d, FirstScan(b, p, Left, h), P);
      UpdateAll(Update(d, FirstScan(b, p, Left, h)), FirstScan(b, p, Right, h), P);
    }
  }

  /** Every move `validity_move` offers a piece standing on its square is an
      `Offered` one, and no landing square is offered twice. */
  lemma ValidMovesOffered(b: Board, p: Piece)
    requires Valid(b) && OnBoard(p.row, p.col) && b.grid[p.row][p.col] == Occupied(p)
    ensures UniqueKeys(ValidMoves(b, p))
    ensures forall e :: e in ValidMoves(b, p) ==> Offered(b, p, e)
  {
    DarkSquare(b, p);
    TowardsOffered(b, p, Up, []);
    TowardsOffered(b, p, Down, Towards(b, p, Up, []));
    TowardsUnique(b, p, Up, []);
    TowardsUnique(b, p, Down, Towards(b, p, Up, []));
  }

  lemma DarkSquare(b: Board, p: Piece)
    requires Valid(b) && OnBoard(p.row, p.col) && b.grid[p.row][p.col] == Occupied(p)
    ensures (p.row + p.col) % 2 == 1
  {
    assert DarkOnly(b.grid);
    assert b.grid[p.row][p.col].Occupied?;
  }

  lemma TowardsUnique(b: Board, p: Piece, h: Heading, d: Moves)
    requires Shaped(b.grid) && OnBoard(p.row, p.col) && UniqueKeys(d)
    ensures UniqueKeys(Towards(b, p, h, d))
  {
  }

  // ---------------------------------------------------------------------------
  // Moves `validity_move` finds
  // ---------------------------------------------------------------------------

  /** A square no entry of `m` lands on is not a key of `m`. */
  lemma NotLanded(m: Moves, k: Pos)
    requires forall e :: e in m ==> e.0 != k
    ensures k !in Keys(m)
  {
    if k in Keys(m) {
      KeyEntry(m, k);
    }
  }

  /** A scan never reaches a square behind its first row or outside its cone. */
  lemma Unreached(b: Board, s: Side, h: Heading, r: int, stop: int, color: Color, c: int,
                  skipped: seq<Piece>, last: seq<Piece>, k: Pos)
    requires Shaped(b.grid) && ScanArgs(h, s, r, stop, c)
    requires !Ahead(h, r, k.row) || Abs(k.col - c) > Abs(k.row - r)
    ensures k !in Keys(Scan(b, s, h, r, stop, color, c, skipped, last))
  {
    ScanLandings(b, s, h, r, stop, color, c, skipped, last);
    NotLanded(Scan(b, s, h, r, stop, color, c, skipped, last), k);
  }

  /** A square a scan reaches is one of its landings. */
  lemma Reached(b: Board, s: Side, h: Heading, r: int, stop: int, color: Color, c: int,
                skipped: seq<Piece>, last: seq<Piece>, k: Pos)
    requires Shaped(b.grid) && ScanArgs(h, s, r, stop, c)
    requires k in Keys(Scan(b, s, h, r, stop, color, c, skipped, last))
    ensures Landing(b, h, r, stop, c, k)
  {
    ScanLandings(b, s, h, r, stop, color, c, skipped, last);
    KeyEntry(Scan(b, s, h, r, stop, color, c, skipped, last), k);
  }

  /** The square a scan stops on keeps the list recorded there: the
      continuations from it land only on rows beyond it. */
  lemma LandGet(b: Board, h: Heading, r: int, color: Color, c: int, skipped: seq<Piece>, last: seq<Piece>)
    requires Shaped(b.grid) && OnBoard(r, c) && !(skipped != [] && last == [])
    ensures Pos(r, c) in Keys(Land(b, h, r, color, c, skipped, last))
    ensures Get(Land(b, h, r, color, c, skipped, last), Pos(r, c)) == if skipped != [] then last + skipped else last
  {
    if last != [] {
      LandMerges(b, h, r, color, c, skipped, last);
      MergedGet(b, h, r, color, c, skipped, last);
    }
  }

  /** The square of a landing after a jump keeps its own entry: neither
      continuation reaches it. */
  lemma MergedGet(b: Board, h: Heading, r: int, color: Color, c: int, skipped: seq<Piece>, last: seq<Piece>)
    requires Shaped(b.grid) && OnBoard(r, c) && last != []
    ensures var v := if skipped != [] then last + skipped else last;
      var m := Update(Update(Put([], Pos(r, c), v),
                             Scan(b, Left, h, r + Step(h), ContinueStop(h, r), color, c + Shift(Left), last, [])),
                      Scan(b, Right, h, r + Step(h), ContinueStop(h, r), color, c + Shift(Right), last, []));
      Pos(r, c) in Keys(m) && Get(m, Pos(r, c)) == v
  {
    var r' := r + Step(h);
    var stop' := ContinueStop(h, r);
    ContinuationsUnique(b, h, r, color, c, last);
    ContinuationsMissLanding(b, h, r, color, c, last);
    GetPast(Put([], Pos(r, c), if skipped != [] then last + skipped else last),
      Scan(b, Left, h, r', stop', color, c + Shift(Left), last, []),
      Scan(b, Right, h, r', stop', color, c + Shift(Right), last, []), Pos(r, c));
  }

  /** Both continuations from a landing have distinct keys. */
  lemma ContinuationsUnique(b: Board, h: Heading, r: int, color: Color, c: int, last: seq<Piece>)
    requires Shaped(b.grid) && OnBoard(r, c)
    ensures UniqueKeys(Scan(b, Left, h, r + Step(h), ContinueStop(h, r), color, c + Shift(Left), last, []))
    ensures UniqueKeys(Scan(b, Right, h, r + Step(h), ContinueStop(h, r), color, c + Shift(Right), last, []))
  {
    ScanUnique(b, Left, h, r + Step(h), ContinueStop(h, r), color, c + Shift(Left), last, []);
    ScanUnique(b, Right, h, r + Step(h), ContinueStop(h, r), color, c + Shift(Right), last, []);
  }

  /** Neither continuation from a landing comes back to the landing square. */
  lemma ContinuationsMissLanding(b: Board, h: Heading, r: int, color: Color, c: int, last: seq<Piece>)
    requires Shaped(b.grid) && OnBoard(r, c)
    ensures Pos(r, c) !in Keys(Scan(b, Left, h, r + Step(h), ContinueStop(h, r), color, c + Shift(Left), last, []))
    ensures Pos(r, c) !in Keys(Scan(b, Right, h, r + Step(h), ContinueStop(h, r), color, c + Shift(Right), last, []))
  {
    Unreached(b, Left, h, r + Step(h), ContinueStop(h, r), color, c + Shift(Left), last, [], Pos(r, c));
    Unreached(b, Right, h, r + Step(h), ContinueStop(h, r), color, c + Shift(Right), last, [], Pos(r, c));
  }

  /** A square a continuation from (r, c) reaches keeps that continuation's
      list, unless the right-hand continuation, merged later, reaches it too;
      it cannot when the square lies outside its cone. */
  lemma LandKeeps(b: Board, h: Heading, r: int, color: Color, c: int, skipped: seq<Piece>, last: seq<Piece>,
                  s: Side, k: Pos)
    requires Shaped(b.grid) && OnBoard(r, c) && last != []
    requires k in Keys(Scan(b, s, h, r + Step(h), ContinueStop(h, r), color, c + Shift(s), last, []))
    requires s.Left? ==> Abs(k.col - (c + 1)) > Abs(k.row - (r + Step(h)))
    ensures k in Keys(Land(b, h, r, color, c, skipped, last))
    ensures Get(Land(b, h, r, color, c, skipped, last), k) ==
      Get(Scan(b, s, h, r + Step(h), ContinueStop(h, r), color, c + Shift(s), last, []), k)
  {
    LandMerges(b, h, r, color, c, skipped, last);
    if s.Left? {
      MergedKeepsLeft(b, h, r, color, c, skipped, last, k);
    } else {
      MergedKeepsRight(b, h, r, color, c, skipped, last, k);
    }
  }

  /** `LandKeeps` on the merged dictionary, for a square the left-hand
      continuation reaches and the right-hand one cannot. */
  lemma MergedKeepsLeft(b: Board, h: Heading, r: int, color: Color, c: int, skipped: seq<Piece>, last: seq<Piece>, k: Pos)
    requires Shaped(b.grid) && OnBoard(r, c) && last != []
    requires k in Keys(Scan(b, Left, h, r + Step(h), ContinueStop(h, r), color, c + Shift(Left), last, []))
    requires Abs(k.col - (c + 1)) > Abs(k.row - (r + Step(h)))
    ensures var m := Update(Update(Put([], Pos(r, c), if skipped != [] then last + skipped else last),
                                   Scan(b, Left, h, r + Step(h), ContinueStop(h, r), color, c + Shift(Left), last, [])),
                            Scan(b, Right, h, r + Step(h), ContinueStop(h, r), color, c + Shift(Right), last, []));
      k in Keys(m) && Get(m, k) == Get(Scan(b, Left, h, r + Step(h), ContinueStop(h, r), color, c + Shift(Left), last, []), k)
  {
    var toLeft := Scan(b, Left, h, r + Step(h), ContinueStop(h, r), color, c + Shift(Left), last, []);
    var toRight := Scan(b, Right, h, r + Step(h), ContinueStop(h, r), color, c + Shift(Right), last, []);
    ContinuationsUnique(b, h, r, color, c, last);
    Unreached(b, Right, h, r + Step(h), ContinueStop(h, r), color, c + Shift(Right), last, [], k);
    GetMiddle(Put([], Pos(r, c), if skipped != [] then last + skipped else last), toLeft, toRight, k);
  }

  /** `LandKeeps` on the merged dictionary, for a square the right-hand
      continuation reaches. */
  lemma MergedKeepsRight(b: Board, h: Heading, r: int, color: Color, c: int, skipped: seq<Piece>, last: seq<Piece>, k: Pos)
    requires Shaped(b.grid) && OnBoard(r, c) && last != []
    requires k in Keys(Scan(b, Right, h, r + Step(h), ContinueStop(h, r), color, c + Shift(Right), last, []))
    ensures var m := Update(Update(Put([], Pos(r, c), if skipped != [] then last + skipped else last),
                                   Scan(b, Left, h, r + Step(h), ContinueStop(h, r), color, c + Shift(Left), last, [])),
                            Scan(b, Right, h, r + Step(h), ContinueStop(h, r), color, c + Shift(Right), last, []));
      k in Keys(m) && Get(m, k) == Get(Scan(b, Right, h, r + Step(h), ContinueStop(h, r), color, c + Shift(Right), last, []), k)
  {
    ContinuationsUnique(b, h, r, color, c, last);
    GetLast(Put([], Pos(r, c), if skipped != [] then last + skipped else last),
      Scan(b, Left, h, r + Step(h), ContinueStop(h, r), color, c + Shift(Left), last, []),
      Scan(b, Right, h, r + Step(h), ContinueStop(h, r), color, c + Shift(Right), last, []), k);
  }

  /** A square one of the four scans reaches keeps that scan's list in
      `validity_move` unless a scan merged later reaches it too: the scans of
      the other heading never do, and the right-hand scan of the same heading
      does not when the square lies outside its cone. */
  lemma ValidMovesKeep(b: Board, p: Piece, s: Side, h: Heading, k: Pos)
    requires Shaped(b.grid) && OnBoard(p.row, p.col) && MovesTowards(p, h)
    requires k in Keys(FirstScan(b, p, s, h))
    requires s.Left? ==> Abs(k.col - (p.col + 1)) > Abs(k.row - (p.row + Step(h)))
    ensures k in Keys(ValidMoves(b, p))
    ensures Get(ValidMoves(b, p), k) == Get(FirstScan(b, p, s, h), k)
  {
    FirstReached(b, p, s, h, k);
    FirstScansUnique(b, p);
    var upward := Towards(b, p, Up, []);
    if h.Up? {
      if s.Left? {
        FirstUnreached(b, p, Right, Up, k);
        GetMiddle([], FirstScan(b, p, Left, Up), FirstScan(b, p, Right, Up), k);
      } else {
        GetLast([], FirstScan(b, p, Left, Up), FirstScan(b, p, Right, Up), k);
      }
      if MovesTowards(p, Down) {
        FirstUnreached(b, p, Left, Down, k);
        FirstUnreached(b, p, Right, Down, k);
        GetPast(upward, FirstScan(b, p, Left, Down), FirstScan(b, p, Right, Down), k);
      }
    } else if s.Left? {
      FirstUnreached(b, p, Right, Down, k);
      GetMiddle(upward, FirstScan(b, p, Left, Down), FirstScan(b, p, Right, Down), k);
    } else {
      GetLast(upward, FirstScan(b, p, Left, Down), FirstScan(b, p, Right, Down), k);
    }
  }

  /** A square one of the four scans reaches lies ahead of the piece, inside
      the cone of that scan's first square. */
  lemma FirstReached(b: Board, p: Piece, s: Side, h: Heading, k: Pos)
    requires Shaped(b.grid) && OnBoard(p.row, p.col)
    requires k in Keys(FirstScan(b, p, s, h))
    ensures Ahead(h, p.row + Step(h), k.row)
    ensures Abs(k.col - (p.col + Shift(s))) <= Abs(k.row - (p.row + Step(h)))
  {
    var stop := if h.Up? then Max(p.row - 3, -1) else Min(p.row + 3, 8);
    Reached(b, s, h, p.row + Step(h), stop, p.color, p.col + Shift(s), [], [], k);
  }

  /** One of the four scans never reaches a square outside its cone. */
  lemma FirstUnreached(b: Board, p: Piece, s: Side, h: Heading, k: Pos)
    requires Shaped(b.grid) && OnBoard(p.row, p.col)
    requires !Ahead(h, p.row + Step(h), k.row) || Abs(k.col - (p.col + Shift(s))) > Abs(k.row - (p.row + Step(h)))
    ensures k !in Keys(FirstScan(b, p, s, h))
  {
    var stop := if h.Up? then Max(p.row - 3, -1) else Min(p.row + 3, 8);
    Unreached(b, s, h, p.row + Step(h), stop, p.color, p.col + Shift(s), [], [], k);
  }

  lemma FirstScansUnique(b: Board, p: Piece)
    requires Shaped(b.grid) && OnBoard(p.row, p.col)
    ensures forall s: Side, h: Heading :: UniqueKeys(FirstScan(b, p, s, h))
  {
    forall s: Side, h: Heading
      ensures UniqueKeys(FirstScan(b, p, s, h))
    {
      var stop := if h.Up? then Max(p.row - 3, -1) else Min(p.row + 3, 8);
      ScanUnique(b, s, h, p.row + Step(h), stop, p.color, p.col + Shift(s), [], []);
    }
  }

  /** `validity_move` offers a piece the empty diagonal neighbour on either
      side in each direction it may move, with nothing captured. */
  lemma StepFound(b: Board, p: Piece, s: Side, h: Heading)
    requires Shaped(b.grid) && OnBoard(p.row, p.col) && MovesTowards(p, h)
    requires OnBoard(p.row + Step(h), p.col + Shift(s))
    requires b.grid[p.row + Step(h)][p.col + Shift(s)] == Empty
    ensures var k := Pos(p.row + Step(h), p.col + Shift(s));
      k in Keys(ValidMoves(b, p)) && Get(ValidMoves(b, p), k) == []
  {
    var k := Pos(p.row + Step(h), p.col + Shift(s));
    LandGet(b, h, k.row, p.color, k.col, [], []);
    assert FirstScan(b, p, s, h) == Land(b, h, k.row, p.color, k.col, [], []);
    ValidMovesKeep(b, p, s, h, k);
  }

  /** A scan standing on an opponent piece passes over it to the next square. */
  lemma ScanPasses(b: Board, s: Side, h: Heading, r: int, stop: int, color: Color, c: int,
                   skipped: seq<Piece>, last: seq<Piece>, q: Piece)
    requires Shaped(b.grid) && ScanArgs(h, s, r, stop, c) && InRange(h, r, stop) && OnBoard(r, c)
    requires b.grid[r][c] == Occupied(q) && q.color != color
    ensures ScanArgs(h, s, r + Step(h), stop, c + Shift(s))
    ensures Scan(b, s, h, r, stop, color, c, skipped, last) ==
      Scan(b, s, h, r + Step(h), stop, color, c + Shift(s), skipped, [q])
  {
  }

  /** A scan standing on an empty square lands there. */
  lemma ScanLands(b: Board, s: Side, h: Heading, r: int, stop: int, color: Color, c: int,
                  skipped: seq<Piece>, last: seq<Piece>)
    requires Shaped(b.grid) && ScanArgs(h, s, r, stop, c) && InRange(h, r, stop) && OnBoard(r, c)
    requires b.grid[r][c] == Empty
    ensures Scan(b, s, h, r, stop, color, c, skipped, last) == Land(b, h, r, color, c, skipped, last)
  {
  }

  /** A scan standing on an opponent piece with an empty square beyond, both
      within its rows, jumps it and lands beyond. */
  lemma ScanJumpsOver(b: Board, s: Side, h: Heading, r: int, stop: int, color: Color, c: int,
                      skipped: seq<Piece>, last: seq<Piece>, q: Piece)
    requires Shaped(b.grid) && ScanArgs(h, s, r, stop, c) && InRange(h, r, stop) && OnBoard(r, c)
    requires b.grid[r][c] == Occupied(q) && q.color != color
    requires InRange(h, r + Step(h), stop) && OnBoard(r + Step(h), c + Shift(s))
    requires b.grid[r + Step(h)][c + Shift(s)] == Empty
    ensures Scan(b, s, h, r, stop, color, c, skipped, last) ==
      Land(b, h, r + Step(h), color, c + Shift(s), skipped, [q])
  {
    ScanPasses(b, s, h, r, stop, color, c, skipped, last, q);
    ScanLands(b, s, h, r + Step(h), stop, color, c + Shift(s), skipped, [q]);
  }

  /** The scan from p towards side s over the opponent piece q next to it,
      onto the empty square beyond, continues from that square. */
  lemma FirstScanJumps(b: Board, p: Piece, s: Side, h: Heading, q: Piece)
    requires Shaped(b.grid) && OnBoard(p.row, p.col)
    requires OnBoard(p.row + Step(h), p.col + Shift(s))
    requires b.grid[p.row + Step(h)][p.col + Shift(s)] == Occupied(q) && q.color != p.color
    requires OnBoard(p.row + 2 * Step(h), p.col + 2 * Shift(s))
    requires b.grid[p.row + 2 * Step(h)][p.col + 2 * Shift(s)] == Empty
    ensures FirstScan(b, p, s, h) == Land(b, h, p.row + 2 * Step(h), p.color, p.col + 2 * Shift(s), [], [q])
  {
    var stop := if h.Up? then Max(p.row - 3, -1) else Min(p.row + 3, 8);
    var r1, c1 := p.row + Step(h), p.col + Shift(s);
    assert r1 + Step(h) == p.row + 2 * Step(h) && c1 + Shift(s) == p.col + 2 * Shift(s);
    assert ScanArgs(h, s, r1, stop, c1) && InRange(h, r1, stop) && InRange(h, r1 + Step(h), stop);
    ScanJumpsOver(b, s, h, r1, stop, p.color, c1, [], [], q);
  }

  /** `validity_move` offers a piece the jump over an adjacent opponent onto
      the empty square beyond, capturing exactly that opponent. */
  lemma JumpFound(b: Board, p: Piece, s: Side, h: Heading, q: Piece)
    requires Shaped(b.grid) && OnBoard(p.row, p.col) && MovesTowards(p, h)
    requires OnBoard(p.row + Step(h), p.col + Shift(s))
    requires b.grid[p.row + Step(h)][p.col + Shift(s)] == Occupied(q) && q.color != p.color
    requires OnBoard(p.row + 2 * Step(h), p.col + 2 * Shift(s))
    requires b.grid[p.row + 2 * Step(h)][p.col + 2 * Shift(s)] == Empty
    ensures var k := Pos(p.row + 2 * Step(h), p.col + 2 * Shift(s));
      k in Keys(ValidMoves(b, p)) && Get(ValidMoves(b, p), k) == [q]
  {
    var k := Pos(p.row + 2 * Step(h), p.col + 2 * Shift(s));
    FirstScanJumpGet(b, p, s, h, q);
    ValidMovesKeep(b, p, s, h, k);
  }

  /** The scan making a jump records the landing square with the piece jumped. */
  lemma FirstScanJumpGet(b: Board, p: Piece, s: Side, h: Heading, q: Piece)
    requires Shaped(b.grid) && OnBoard(p.row, p.col)
    requires OnBoard(p.row + Step(h), p.col + Shift(s))
    requires b.grid[p.row + Step(h)][p.col + Shift(s)] == Occupied(q) && q.color != p.color
    requires OnBoard(p.row + 2 * Step(h), p.col + 2 * Shift(s))
    requires b.grid[p.row + 2 * Step(h)][p.col + 2 * Shift(s)] == Empty
    ensures var k := Pos(p.row + 2 * Step(h), p.col + 2 * Shift(s));
      k in Keys(FirstScan(b, p, s, h)) && Get(FirstScan(b, p, s, h), k) == [q]
  {
    FirstScanJumps(b, p, s, h, q);
    LandGet(b, h, p.row + 2 * Step(h), p.color, p.col + 2 * Shift(s), [], [q]);
  }

  /** After a jump onto (r, c), the continuation towards side s over the
      opponent q onto the empty square beyond records both captures, the
      later one first; upwards, that square must not be row 0. */
  lemma ContinuedJump(b: Board, h: Heading, r: int, color: Color, c: int, last: seq<Piece>, s: Side, q: Piece)
    requires Shaped(b.grid) && OnBoard(r, c) && last != []
    requires OnBoard(r + Step(h), c + Shift(s))
    requires b.grid[r + Step(h)][c + Shift(s)] == Occupied(q) && q.color != color
    requires OnBoard(r + 2 * Step(h), c + 2 * Shift(s))
    requires b.grid[r + 2 * Step(h)][c + 2 * Shift(s)] == Empty
    requires h.Up? ==> r + 2 * Step(h) >= 1
    ensures var k := Pos(r + 2 * Step(h), c + 2 * Shift(s));
      && k in Keys(Scan(b, s, h, r + Step(h), ContinueStop(h, r), color, c + Shift(s), last, []))
      && Get(Scan(b, s, h, r + Step(h), ContinueStop(h, r), color, c + Shift(s), last, []), k) == [q] + last
  {
    var stop := ContinueStop(h, r);
    var r1, c1 := r + Step(h), c + Shift(s);
    var k := Pos(r1 + Step(h), c1 + Shift(s));
    assert k == Pos(r + 2 * Step(h), c + 2 * Shift(s));
    ScanJumpsOver(b, s, h, r1, stop, color, c1, last, [], q);
    LandGet(b, h, k.row, color, k.col, last, [q]);
  }

  /** `validity_move` offers a double jump: over the opponent q1 onto C, and
      from C over the opponent q2 onto E, in the same heading. C maps to [q1]
      and E to [q2, q1]. Upwards E must not be row 0, and when the first jump
      goes left and the second right, the up-right or down-right scan merged
      later may reach E by another path and replace its list. */
  lemma DoubleJumpFound(b: Board, p: Piece, h: Heading, s1: Side, q1: Piece, s2: Side, q2: Piece)
    requires Shaped(b.grid) && OnBoard(p.row, p.col) && MovesTowards(p, h)
    requires OnBoard(p.row + Step(h), p.col + Shift(s1))
    requires b.grid[p.row + Step(h)][p.col + Shift(s1)] == Occupied(q1) && q1.color != p.color
    requires OnBoard(p.row + 2 * Step(h), p.col + 2 * Shift(s1))
    requires b.grid[p.row + 2 * Step(h)][p.col + 2 * Shift(s1)] == Empty
    requires OnBoard(p.row + 3 * Step(h), p.col + 2 * Shift(s1) + Shift(s2))
    requires b.grid[p.row + 3 * Step(h)][p.col + 2 * Shift(s1) + Shift(s2)] == Occupied(q2) && q2.color != p.color
    requires OnBoard(p.row + 4 * Step(h), p.col + 2 * Shift(s1) + 2 * Shift(s2))
    requires b.grid[p.row + 4 * Step(h)][p.col + 2 * Shift(s1) + 2 * Shift(s2)] == Empty
    requires h.Up? ==> p.row + 4 * Step(h) >= 1
    requires s1.Right? || s2.Left?
    ensures var cSq := Pos(p.row + 2 * Step(h), p.col + 2 * Shift(s1));
      cSq in Keys(ValidMoves(b, p)) && Get(ValidMoves(b, p), cSq) == [q1]
    ensures var eSq := Pos(p.row + 4 * Step(h), p.col + 2 * Shift(s1) + 2 * Shift(s2));
      eSq in Keys(ValidMoves(b, p)) && Get(ValidMoves(b, p), eSq) == [q2, q1]
  {
    JumpFound(b, p, s1, h, q1);
    SecondJumpFound(b, p, h, s1, q1, s2, q2);
  }

  /** The scan from p that makes the first jump of a double jump records the
      second landing square with both captures. */
  lemma SecondJumpScanned(b: Board, p: Piece, h: Heading, s1: Side, q1: Piece, s2: Side, q2: Piece)
    requires Shaped(b.grid) && OnBoard(p.row, p.col)
    requires OnBoard(p.row + Step(h), p.col + Shift(s1))
    requires b.grid[p.row + Step(h)][p.col + Shift(s1)] == Occupied(q1) && q1.color != p.color
    requires OnBoard(p.row + 2 * Step(h), p.col + 2 * Shift(s1))
    requires b.grid[p.row + 2 * Step(h)][p.col + 2 * Shift(s1)] == Empty
    requires OnBoard(p.row + 3 * Step(h), p.col + 2 * Shift(s1) + Shift(s2))
    requires b.grid[p.row + 3 * Step(h)][p.col + 2 * Shift(s1) + Shift(s2)] == Occupied(q2) && q2.color != p.color
    requires OnBoard(p.row + 4 * Step(h), p.col + 2 * Shift(s1) + 2 * Shift(s2))
    requires b.grid[p.row + 4 * Step(h)][p.col + 2 * Shift(s1) + 2 * Shift(s2)] == Empty
    requires h.Up? ==> p.row + 4 * Step(h) >= 1
    ensures var eSq := Pos(p.row + 4 * Step(h), p.col + 2 * Shift(s1) + 2 * Shift(s2));
      eSq in Keys(FirstScan(b, p, s1, h)) && Get(FirstScan(b, p, s1, h), eSq) == [q2, q1]
  {
    var r := p.row + 2 * Step(h);
    var c := p.col + 2 * Shift(s1);
    assert r + 2 * Step(h) == p.row + 4 * Step(h) && c + 2 * Shift(s2) == p.col + 2 * Shift(s1) + 2 * Shift(s2);
    LandContinues(b, h, r, p.color, c, q1, s2, q2);
    FirstScanJumps(b, p, s1, h, q1);
  }

  /** A landing on (r, c) after jumping q1 records, through its continuation
      towards side s2 over q2, the square beyond q2 with both captures. */
  lemma LandContinues(b: Board, h: Heading, r: int, color: Color, c: int, q1: Piece, s2: Side, q2: Piece)
    requires Shaped(b.grid) && OnBoard(r, c)
    requires OnBoard(r + Step(h), c + Shift(s2))
    requires b.grid[r + Step(h)][c + Shift(s2)] == Occupied(q2) && q2.color != color
    requires OnBoard(r + 2 * Step(h), c + 2 * Shift(s2))
    requires b.grid[r + 2 * Step(h)][c + 2 * Shift(s2)] == Empty
    requires h.Up? ==> r + 2 * Step(h) >= 1
    ensures var eSq := Pos(r + 2 * Step(h), c + 2 * Shift(s2));
      eSq in Keys(Land(b, h, r, color, c, [], [q1])) && Get(Land(b, h, r, color, c, [], [q1]), eSq) == [q2, q1]
  {
    var eSq := Pos(r + 2 * Step(h), c + 2 * Shift(s2));
    ContinuedJump(b, h, r, color, c, [q1], s2, q2);
    LandKeeps(b, h, r, color, c, [], [q1], s2, eSq);
    assert [q2] + [q1] == [q2, q1];
  }

  lemma SecondJumpFound(b: Board, p: Piece, h: Heading, s1: Side, q1: Piece, s2: Side, q2: Piece)
    requires Shaped(b.grid) && OnBoard(p.row, p.col) && MovesTowards(p, h)
    requires OnBoard(p.row + Step(h), p.col + Shift(s1))
    requires b.grid[p.row + Step(h)][p.col + Shift(s1)] == Occupied(q1) && q1.color != p.color
    requires OnBoard(p.row + 2 * Step(h), p.col + 2 * Shift(s1))
    requires b.grid[p.row + 2 * Step(h)][p.col + 2 * Shift(s1)] == Empty
    requires OnBoard(p.row + 3 * Step(h), p.col + 2 * Shift(s1) + Shift(s2))
    requires b.grid[p.row + 3 * Step(h)][p.col + 2 * Shift(s1) + Shift(s2)] == Occupied(q2) && q2.color != p.color
    requires OnBoard(p.row + 4 * Step(h), p.col + 2 * Shift(s1) + 2 * Shift(s2))
    requires b.grid[p.row + 4 * Step(h)][p.col + 2 * Shift(s1) + 2 * Shift(s2)] == Empty
    requires h.Up? ==> p.row + 4 * Step(h) >= 1
    requires s1.Right? || s2.Left?
    ensures var eSq := Pos(p.row + 4 * Step(h), p.col + 2 * Shift(s1) + 2 * Shift(s2));
      eSq in Keys(ValidMoves(b, p)) && Get(ValidMoves(b, p), eSq) == [q2, q1]
  {
    SecondJumpScanned(b, p, h, s1, q1, s2, q2);
    ValidMovesKeep(b, p, s1, h, Pos(p.row + 4 * Step(h), p.col + 2 * Shift(s1) + 2 * Shift(s2)));
  }

  // ---------------------------------------------------------------------------
  // Two double jumps onto one square
  // ---------------------------------------------------------------------------

  /** A red piece on (7, 4) with grey pieces on (6, 3), (4, 3), (6, 5) and
      (4, 5) and every other square empty. It can reach (3, 4) by jumping
      left then right, or right then left. */
  function ClashCell(r: int, c: int): Cell
  {
    if (r, c) == (7, 4) then Occupied(Piece(7, 4, Red, false))
    else if (r, c) in {(6, 3), (4, 3), (6, 5), (4, 5)} then Occupied(Piece(r, c, Grey, false))
    else Empty
  }

  function ClashBoard(): (b: Board)
    ensures Shaped(b.grid)
    ensures forall r, c :: OnBoard(r, c) ==> b.grid[r][c] == ClashCell(r, c)
  {
    Board(seq(Rows, r => seq(Cols, c => ClashCell(r, c))), 1, 4, 0, 0)
  }

  /** The squares of the two double jumps on the board above. */
  lemma ClashSquares(b: Board)
    requires b == ClashBoard()
    ensures b.grid[7][4] == Occupied(Piece(7, 4, Red, false))
    ensures b.grid[6][3] == Occupied(Piece(6, 3, Grey, false)) && b.grid[5][2] == Empty
    ensures b.grid[4][3] == Occupied(Piece(4, 3, Grey, false)) && b.grid[3][4] == Empty
    ensures b.grid[6][5] == Occupied(Piece(6, 5, Grey, false)) && b.grid[5][6] == Empty
    ensures b.grid[4][5] == Occupied(Piece(4, 5, Grey, false))
  {
  }

  /** The up-left double jump over (6, 3) and (4, 3) onto (3, 4) is not what
      `validity_move` records there: the up-right scan, merged later, reaches
      the same square over (6, 5) and (4, 5), and its captures win. */
  lemma DoubleJumpOverwritten(b: Board, p: Piece)
    requires b == ClashBoard() && p == Piece(7, 4, Red, false)
    ensures var q1, q2 := Piece(6, 3, Grey, false), Piece(4, 3, Grey, false);
      && b.grid[p.row][p.col] == Occupied(p)
      && b.grid[6][3] == Occupied(q1) && b.grid[5][2] == Empty
      && b.grid[4][3] == Occupied(q2) && b.grid[3][4] == Empty
      && Pos(3, 4) in Keys(ValidMoves(b, p))
      && Get(ValidMoves(b, p), Pos(3, 4)) != [q2, q1]
  {
    ClashSquares(b);
    SecondJumpFound(b, p, Up, Right, Piece(6, 5, Grey, false), Left, Piece(4, 5, Grey, false));
  }
}
