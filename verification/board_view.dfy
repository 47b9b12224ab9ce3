/** The pure decisions of the board component: which piece may be lifted
    and what it may do, the occupancy list, the chequered pattern and its
    repaints, the reset button and the markers put on candidate squares. */
module BoardView {
  import opened Types
  import opened Movements
  import opened Simulate
  import opened BoardReducer
  import opened SquareView

  /** The turn gate `canMove`: white lifts while `whiteMoved` is false,
      black while it is true. */
  predicate CanLift(whiteMoved: bool, id: string) {
    (!whiteMoved && Side(id) == Some('w')) || (whiteMoved && Side(id) == Some('b'))
  }

  /** The side that may lift is the side whose king the scan looks up. */
  lemma LifterIsScannedKingSide(whiteMoved: bool, id: string)
    ensures CanLift(whiteMoved, id) <==> Side(id) == Some(ScanColor(!whiteMoved))
  {
  }

  /** The `moved` flag `playPiece` computes from the colour letter and row. */
  predicate LiftedMoved(color: Option<char>, row: int) {
    (row > 1 && color == Some('b')) || (row < 6 && color == Some('w'))
  }

  /** `playPiece`: nothing when the gate refuses, otherwise the candidate
      squares of the generator the piece's name selects; king and knight
      get no occupancy, a pawn moves down the board when its id starts
      with 'b', and a name outside the six gives no candidates. */
  function PlayPiece(whiteMoved: bool, name: string, id: string, at: Square, occupied: seq<Square>): (r: Option<seq<Square>>)
    ensures r.None? <==> !CanLift(whiteMoved, id)
    ensures r.Some? && KindOf(name).None? ==> r.value == []
  {
    if !CanLift(whiteMoved, id) then None
    else
      match KindOf(name)
      case None => Some([])
      case Some(kind) => Some(Moves(kind, at, LiftedMoved(Side(id), at.row), Side(id) == Some('b'), occupied))
  }

  /** A lifted piece is offered exactly the squares the threat scan
      collects for it: `moved` agrees with `pawnMoved`, the direction with
      `isBlack`. */
  lemma {:induction false} PlayPieceMatchesScan(whiteMoved: bool, p: Piece, occupied: seq<Square>)
    requires CanLift(whiteMoved, p.id)
    requires KindOf(p.title).Some?
    ensures PlayPiece(whiteMoved, p.title, p.id, p.value, occupied) == Some(MovesOf(p, occupied))
  {
    assert LiftedMoved(Side(p.id), p.value.row) == PawnMoved(p);
  }

  /** King and knight candidates do not depend on occupancy. */
  lemma LeapersIgnoreOccupancy(whiteMoved: bool, name: string, id: string, at: Square, o1: seq<Square>, o2: seq<Square>)
    requires name == "king" || name == "knight"
    ensures PlayPiece(whiteMoved, name, id, at, o1) == PlayPiece(whiteMoved, name, id, at, o2)
  {
  }

  /** The occupancy effect: the square of every piece, in board order. */
  function Occupancy(position: seq<Piece>): (r: seq<Square>)
    ensures |r| == |position|
    ensures forall i :: 0 <= i < |position| ==> r[i] == position[i].value
  {
    if |position| == 0 then []
    else [position[0].value] + Occupancy(position[1..])
  }

  /** A square is listed as occupied exactly when it renders some piece. */
  lemma OccupancyMatchesRender(position: seq<Piece>, s: Square)
    ensures s in Occupancy(position) <==> |PiecesAt(position, s)| > 0
  {
    var occ := Occupancy(position);
    if s in occ {
      var i :| 0 <= i < |occ| && occ[i] == s;
      assert position[i] in PiecesAt(position, s);
    }
    if |PiecesAt(position, s)| > 0 {
      var p := PiecesAt(position, s)[0];
      assert p in PiecesAt(position, s);
      var i :| 0 <= i < |position| && position[i] == p;
      assert occ[i] == s;
    }
  }

  /** `setColor`: every entry overwrites the choice, so only the last one
      counts; an empty list yields the empty colour. */
  method SetColor(moveColor: seq<MoveColor>, id: string, color: string) returns (selected: string)
    ensures |moveColor| == 0 ==> selected == ""
    ensures |moveColor| > 0 ==>
      selected == (if moveColor[|moveColor| - 1].id == id then moveColor[|moveColor| - 1].color else color)
  {
    selected := "";
    var i := 0;
    while i < |moveColor|
      invariant 0 <= i <= |moveColor|
      invariant i == 0 ==> selected == ""
      invariant i > 0 ==> selected == (if moveColor[i - 1].id == id then moveColor[i - 1].color else color)
    {
      if moveColor[i].id == id {
        selected := moveColor[i].color;
      } else {
        selected := color;
      }
      i := i + 1;
    }
  }

  /** One cell of the pattern and the base colour it is created with. */
  datatype Tile = Tile(at: Square, color: string)

  /** `createBoard`: the 64 cells in row order, with a `swap` flag that
      flips after every cell but the last of a row. */
  method CreateBoard() returns (tiles: seq<Tile>)
    ensures |tiles| == 64
    ensures forall k :: 0 <= k < |tiles| ==> tiles[k].at == Square(k / 8, k % 8)
    ensures forall k :: 0 <= k < |tiles| ==> tiles[k].color == "brown" || tiles[k].color == "white"
    ensures forall k :: 0 <= k < |tiles| ==> (tiles[k].color == "brown" <==> (tiles[k].at.row + tiles[k].at.col) % 2 == 0)
  {
    tiles := [];
    var swap := false;
    var i := 0;
    while i < 8
      invariant 0 <= i <= 8
      invariant |tiles| == 8 * i
      invariant swap == (i % 2 == 1)
      invariant forall k :: 0 <= k < |tiles| ==> tiles[k].at == Square(k / 8, k % 8)
      invariant forall k :: 0 <= k < |tiles| ==> tiles[k].color == "brown" || tiles[k].color == "white"
      invariant forall k :: 0 <= k < |tiles| ==> (tiles[k].color == "brown" <==> (tiles[k].at.row + tiles[k].at.col) % 2 == 0)
    {
      var j := 0;
      while j < 8
        invariant 0 <= j <= 8
        invariant |tiles| == 8 * i + j
        invariant j < 8 ==> swap == ((i + j) % 2 == 1)
        invariant j == 8 ==> swap == ((i + 7) % 2 == 1)
        invariant forall k :: 0 <= k < |tiles| ==> tiles[k].at == Square(k / 8, k % 8)
        invariant forall k :: 0 <= k < |tiles| ==> tiles[k].color == "brown" || tiles[k].color == "white"
        invariant forall k :: 0 <= k < |tiles| ==> (tiles[k].color == "brown" <==> (tiles[k].at.row + tiles[k].at.col) % 2 == 0)
      {
        assert (8 * i + j) / 8 == i && (8 * i + j) % 8 == j;
        tiles := tiles + [Tile(Square(i, j), if swap then "white" else "brown")];
        swap := if j < 7 then !swap else swap;
        j := j + 1;
      }
      i := i + 1;
    }
  }

  /** `canReset`: the reset button shows while the position differs from
      the starting layout. */
  predicate CanReset(position: seq<Piece>, initial: seq<Piece>) {
    position != initial
  }

  /** After `RESET` the button is hidden. */
  lemma ResetHidesButton(s: BoardState, initial: seq<Piece>)
    ensures !CanReset(Reduce(s, Reset, initial).position, initial)
  {
  }

  /** Moving a piece of a board with unique ids to a different square
      always makes the position differ from what it was. */
  lemma {:induction false} MoveChangesPosition(board: seq<Piece>, k: int, drop: Square)
    requires UniqueIds(board)
    requires 0 <= k < |board| && board[k].value != drop
    ensures CanReset(MovePiece(board, board[k].id, drop), board)
  {
    MovePieceUnique(board, k, drop);
    var r := MovePiece(board, board[k].id, drop);
    if k == |board| - 1 {
      assert r[k].value == drop;
    } else {
      assert r[k] == board[k + 1];
      assert r[k].id != board[k].id;
    }
  }

  /** What `determineDropLocation` does to one candidate square. */
  datatype Marker = NoSquare | Highlight | Kill | Unmarked

  /** `i` is the lowest index of a piece standing on `s`. */
  predicate FirstAt(position: seq<Piece>, s: Square, i: int) {
    0 <= i < |position| && position[i].value == s && forall j :: 0 <= j < i ==> position[j].value != s
  }

  /** The first element a square renders is the first piece in board order on it. */
  lemma {:induction false} FirstRendered(position: seq<Piece>, s: Square, i: int)
    requires FirstAt(position, s, i)
    ensures |PiecesAt(position, s)| > 0 && PiecesAt(position, s)[0] == position[i]
  {
    if i > 0 {
      assert forall j :: 0 <= j < i - 1 ==> position[1..][j] == position[j + 1];
      FirstRendered(position[1..], s, i - 1);
    }
  }

  /** No element for an off-board square; the plain marker on an empty
      square; the kill marker on a square whose first piece has a colour
      letter other than the lifted piece's; nothing otherwise. */
  function DropMarker(liftedId: string, move: Square, position: seq<Piece>): (r: Marker)
    ensures r == NoSquare <==> !InBounds(move)
    ensures r == Highlight <==> InBounds(move) && forall p :: p in position ==> p.value != move
    ensures r == Kill ==> exists p :: p in position && p.value == move && Side(p.id) != Side(liftedId)
    ensures r == Unmarked ==> exists p :: p in position && p.value == move && Side(p.id) == Side(liftedId)
    ensures forall i :: InBounds(move) && FirstAt(position, move, i) ==>
      (r == Kill <==> Side(position[i].id) != Side(liftedId)) && (r == Unmarked <==> Side(position[i].id) == Side(liftedId))
  {
    if !InBounds(move) then NoSquare
    else
      var here := PiecesAt(position, move);
      if |here| == 0 then Highlight
      else
        assert here[0] in here;
        forall i | FirstAt(position, move, i) ensures here[0] == position[i] {
          FirstRendered(position, move, i);
        }
        if Side(liftedId) != Side(here[0].id) then Kill else Unmarked
  }

  /** Relocation keeps the first occupant of the drop square first there:
      the mover is appended after it. */
  lemma {:induction false} FirstAtAfterMove(board: seq<Piece>, k: int, j: int, drop: Square)
    requires UniqueIds(board)
    requires 0 <= k < |board| && k != j && FirstAt(board, drop, j)
    ensures var r := MovePiece(board, board[k].id, drop);
      FirstAt(r, drop, if k < j then j - 1 else j) && r[if k < j then j - 1 else j] == board[j]
  {
    MovePieceUnique(board, k, drop);
    FirstAtCut(board, k, j, drop, Piece(board[k].id, board[k].title, drop, None));
  }

  lemma FirstAtCut(board: seq<Piece>, k: int, j: int, drop: Square, mover: Piece)
    requires 0 <= k < |board| && k != j && FirstAt(board, drop, j)
    ensures var r := board[..k] + board[k + 1..] + [mover];
      FirstAt(r, drop, if k < j then j - 1 else j) && r[if k < j then j - 1 else j] == board[j]
  {
    var r := board[..k] + board[k + 1..] + [mover];
    assert forall m :: 0 <= m < |board| - 1 ==> r[m] == if m < k then board[m] else board[m + 1];
  }

  /** After a capture the marker on the drop square follows the captured
      piece, which stays first there, and not the piece that took it: a
      piece of the captured colour gets no kill marker on the capturer. */
  lemma MarkerAfterCapture(board: seq<Piece>, k: int, j: int, drop: Square, liftedId: string)
    requires UniqueIds(board) && InBounds(drop)
    requires 0 <= k < |board| && k != j && FirstAt(board, drop, j)
    ensures DropMarker(liftedId, drop, MovePiece(board, board[k].id, drop)) ==
      if Side(board[j].id) != Side(liftedId) then Kill else Unmarked
  {
    FirstAtAfterMove(board, k, j, drop);
  }

  /** A square held only by pieces of the other colour gets the kill
      marker; one held only by the lifted piece's colour gets none. */
  lemma OccupiedMarker(liftedId: string, move: Square, position: seq<Piece>, j: int)
    requires InBounds(move)
    requires 0 <= j < |position| && position[j].value == move
    ensures (forall p :: p in position && p.value == move ==> Side(p.id) != Side(liftedId)) ==>
      DropMarker(liftedId, move, position) == Kill
    ensures (forall p :: p in position && p.value == move ==> Side(p.id) == Side(liftedId)) ==>
      DropMarker(liftedId, move, position) == Unmarked
  {
    var here := PiecesAt(position, move);
    assert position[j] in here;
    assert here[0] in here;
  }
}
