/** The move generator: eight ray walkers, the offset tables of king and
    knight, and the pawn's forward steps and captures. Generators work on
    column-first pairs whose out-of-range components are `None`;
    `ReversePositions` drops those and returns row-first squares. */
module Movements {
  import opened Types

  function Abs(v: int): nat {
    if v < 0 then -v else v
  }

  // ---------------------------------------------------------------------
  // Null-then-drop

  /** A square as the generators build it: column first. */
  function ColFirst(s: Square): RawPair {
    RawPair(Some(s.col), Some(s.row))
  }

  /** Coordinate `v` moved `k` up, or `None` once it passes 7. */
  function Plus(v: int, k: nat): Option<int> {
    if v + k <= 7 then Some(v + k) else None
  }

  /** Coordinate `v` moved `k` down, or `None` once it passes 0. */
  function Minus(v: int, k: nat): Option<int> {
    if v - k >= 0 then Some(v - k) else None
  }

  /** Drops every pair holding a `None` and swaps the rest back to row first. */
  function ReversePositions(ps: seq<RawPair>): (r: seq<Square>)
    ensures |r| <= |ps|
    ensures forall s :: s in r <==> ColFirst(s) in ps
    ensures (forall i :: 0 <= i < |ps| ==> ps[i].x.Some? && ps[i].y.Some?) ==> |r| == |ps|
  {
    if |ps| == 0 then []
    else
      var head := if ps[0].x.Some? && ps[0].y.Some? then [Square(ps[0].y.value, ps[0].x.value)] else [];
      var rest := ReversePositions(ps[1..]);
      assert forall q :: q in ps <==> q == ps[0] || q in ps[1..];
      head + rest
  }

  /** With no `None` anywhere, every pair is kept and swapped in place. */
  lemma {:induction false} ReverseAllPresent(ps: seq<RawPair>)
    requires forall i :: 0 <= i < |ps| ==> ps[i].x.Some? && ps[i].y.Some?
    ensures |ReversePositions(ps)| == |ps|
    ensures forall i :: 0 <= i < |ps| ==> ReversePositions(ps)[i] == Square(ps[i].y.value, ps[i].x.value)
  {
    if |ps| > 0 {
      ReverseAllPresent(ps[1..]);
    }
  }

  lemma {:induction false} ReverseAppend(a: seq<RawPair>, b: seq<RawPair>)
    ensures ReversePositions(a + b) == ReversePositions(a) + ReversePositions(b)
    decreases |a|
  {
    if |a| == 0 {
      assert a + b == b;
    } else {
      assert (a + b)[0] == a[0];
      assert (a + b)[1..] == a[1..] + b;
      ReverseAppend(a[1..], b);
    }
  }

  /** A working pair naming an occupied square. */
  predicate RawOccupied(q: RawPair, occupied: seq<Square>) {
    q.x.Some? && q.y.Some? && Square(q.y.value, q.x.value) in occupied
  }

  /** A working pair naming a square of the board. */
  predicate OnBoard(q: RawPair) {
    q.x.Some? && q.y.Some? && InBounds(Square(q.y.value, q.x.value))
  }

  // ---------------------------------------------------------------------
  // Rays

  datatype Direction = Up | Down | Right | Left | LeftUp | RightUp | RightDown | LeftDown

  function DRow(d: Direction): int {
    match d
    case Up | LeftUp | RightUp => -1
    case Down | RightDown | LeftDown => 1
    case Right | Left => 0
  }

  function DCol(d: Direction): int {
    match d
    case Left | LeftUp | LeftDown => -1
    case Right | RightUp | RightDown => 1
    case Up | Down => 0
  }

  /** The square `n` steps from `p` in direction `d`. */
  function Offset(p: Square, d: Direction, n: int): Square {
    match d
    case Up => Square(p.row - n, p.col)
    case Down => Square(p.row + n, p.col)
    case Right => Square(p.row, p.col + n)
    case Left => Square(p.row, p.col - n)
    case LeftUp => Square(p.row - n, p.col - n)
    case RightUp => Square(p.row - n, p.col + n)
    case RightDown => Square(p.row + n, p.col + n)
    case LeftDown => Square(p.row + n, p.col - n)
  }

  /** The `k`-th square of a ray (counting from 0): `k + 1` steps out. */
  function Nth(p: Square, d: Direction, k: int): Square {
    Offset(p, d, k + 1)
  }

  /** The guard a walker tests before each step: `y > 0` before a step up,
      `x < 7` before a step right; an axis the direction keeps fixed is not checked. */
  predicate CanAdvance(v: int, dv: int) {
    if dv > 0 then v < 7 else if dv < 0 then v > 0 else true
  }

  predicate CanStep(p: Square, d: Direction) {
    CanAdvance(p.row, DRow(d)) && CanAdvance(p.col, DCol(d))
  }

  function Budget(p: Square, d: Direction): int {
    if DRow(d) > 0 then 7 - p.row
    else if DRow(d) < 0 then p.row
    else if DCol(d) > 0 then 7 - p.col
    else p.col
  }

  lemma OffsetAdd(p: Square, d: Direction, a: int, b: int)
    ensures Offset(Offset(p, d, a), d, b) == Offset(p, d, a + b)
  {
    match d
    case Up => case Down => case Right => case Left =>
    case LeftUp => case RightUp => case RightDown => case LeftDown =>
  }

  lemma OffsetShiftAll(p: Square, d: Direction)
    ensures forall k :: Nth(Offset(p, d, 1), d, k) == Nth(p, d, k + 1)
  {
    forall k ensures Nth(Offset(p, d, 1), d, k) == Nth(p, d, k + 1) {
      OffsetAdd(p, d, 1, k + 1);
    }
  }

  /** Once a walker's guard fails, every further square along `d` is off the board. */
  lemma EdgeBlocks(q: Square, d: Direction, n: int)
    requires !CanStep(q, d) && n >= 1
    ensures !InBounds(Offset(q, d, n))
  {
    match d
    case Up => case Down => case Right => case Left =>
    case LeftUp => case RightUp => case RightDown => case LeftDown =>
  }

  /** One walker (`moveUp` ... `moveLeftDown`): steps outward from `p` while
      its guard holds, stopping after the first occupied square. */
  function Ray(p: Square, d: Direction, occupied: seq<Square>): (r: seq<RawPair>)
    ensures |r| == 0 <==> !CanStep(p, d)
    ensures forall k :: 0 <= k < |r| ==> r[k] == ColFirst(Nth(p, d, k))
    ensures forall k :: 0 <= k < |r| - 1 ==> !RawOccupied(r[k], occupied)
    decreases Budget(p, d)
  {
    if !CanStep(p, d) then []
    else
      var next := Offset(p, d, 1);
      if next in occupied then [ColFirst(next)]
      else
        var rest := Ray(next, d, occupied);
        assert forall k :: 0 <= k < |rest| ==> rest[k] == ColFirst(Nth(p, d, k + 1)) by {
          OffsetShiftAll(p, d);
        }
        [ColFirst(next)] + rest
  }

  /** From a square of the board, every square of a ray is on the board. */
  lemma {:induction false} RayOnBoard(p: Square, d: Direction, occupied: seq<Square>)
    requires InBounds(p)
    ensures forall k :: 0 <= k < |Ray(p, d, occupied)| ==> OnBoard(Ray(p, d, occupied)[k])
    decreases Budget(p, d)
  {
    var r := Ray(p, d, occupied);
    if CanStep(p, d) {
      var next := Offset(p, d, 1);
      assert InBounds(next);
      if next !in occupied {
        RayOnBoard(next, d, occupied);
        var rest := Ray(next, d, occupied);
        assert r == [ColFirst(next)] + rest;
        assert forall k :: 1 <= k < |r| ==> r[k] == rest[k - 1];
      }
    }
  }

  /** A ray ends on an occupied square or where the walker's guard fails. */
  lemma {:induction false} RayEnd(p: Square, d: Direction, occupied: seq<Square>)
    ensures var r := Ray(p, d, occupied);
      |r| > 0 ==> RawOccupied(r[|r| - 1], occupied) || !CanStep(Nth(p, d, |r| - 1), d)
    decreases Budget(p, d)
  {
    var r := Ray(p, d, occupied);
    if CanStep(p, d) {
      var next := Offset(p, d, 1);
      if next in occupied {
        assert r == [ColFirst(next)];
      } else {
        var rest := Ray(next, d, occupied);
        assert r == [ColFirst(next)] + rest;
        RayEnd(next, d, occupied);
        if |rest| > 0 {
          assert r[|r| - 1] == rest[|rest| - 1];
          OffsetAdd(p, d, 1, |rest|);
        } else {
          assert !CanStep(next, d);
        }
      }
    }
  }

  /** The reference meaning of a ray: `s` lies `k >= 1` steps along `d`, on
      the board, and every square strictly before it is empty. */
  ghost predicate Reaches(p: Square, d: Direction, occupied: seq<Square>, s: Square) {
    exists k :: 1 <= k && s == Offset(p, d, k) && InBounds(s)
      && forall j :: 1 <= j < k ==> Offset(p, d, j) !in occupied
  }

  lemma {:induction false} RaySquares(p: Square, d: Direction, occupied: seq<Square>, s: Square)
    requires InBounds(p)
    ensures s in ReversePositions(Ray(p, d, occupied)) <==> Reaches(p, d, occupied, s)
  {
    var r := Ray(p, d, occupied);
    if s in ReversePositions(r) {
      var i :| 0 <= i < |r| && r[i] == ColFirst(s);
      RayOnBoard(p, d, occupied);
      assert s == Nth(p, d, i) && OnBoard(r[i]);
      forall j | 1 <= j < i + 1
        ensures Offset(p, d, j) !in occupied
      {
        assert r[j - 1] == ColFirst(Nth(p, d, j - 1)) && !RawOccupied(r[j - 1], occupied);
      }
      assert s == Offset(p, d, i + 1);
    }
    if Reaches(p, d, occupied, s) {
      var k :| 1 <= k && s == Offset(p, d, k) && InBounds(s)
        && forall j :: 1 <= j < k ==> Offset(p, d, j) !in occupied;
      RaySquaresReach(p, d, occupied, s, k);
    }
  }

  lemma RaySquaresReach(p: Square, d: Direction, occupied: seq<Square>, s: Square, k: int)
    requires 1 <= k && s == Offset(p, d, k) && InBounds(s)
    requires forall j :: 1 <= j < k ==> Offset(p, d, j) !in occupied
    ensures ColFirst(s) in Ray(p, d, occupied)
  {
    var r := Ray(p, d, occupied);
    var m := |r|;
    if k > m {
      if m == 0 {
        EdgeBlocks(p, d, k);
        assert false;
      } else {
        RayEnd(p, d, occupied);
        var last := Offset(p, d, m);
        assert r[m - 1] == ColFirst(last);
        assert last !in occupied;
        OffsetAdd(p, d, m, k - m);
        EdgeBlocks(last, d, k - m);
        assert false;
      }
    }
    assert r[k - 1] == ColFirst(Nth(p, d, k - 1));
  }

  // ---------------------------------------------------------------------
  // Sliding pieces

  function RookMove(p: Square, occupied: seq<Square>): seq<Square> {
    ReversePositions(Ray(p, Up, occupied) + Ray(p, Down, occupied)
                     + Ray(p, Right, occupied) + Ray(p, Left, occupied))
  }

  function BishopMove(p: Square, occupied: seq<Square>): seq<Square> {
    ReversePositions(Ray(p, LeftUp, occupied) + Ray(p, RightUp, occupied)
                     + Ray(p, LeftDown, occupied) + Ray(p, RightDown, occupied))
  }

  function QueenMove(p: Square, occupied: seq<Square>): seq<Square> {
    BishopMove(p, occupied) + RookMove(p, occupied)
  }

  lemma RookMoveSquares(p: Square, occupied: seq<Square>, s: Square)
    requires InBounds(p)
    ensures s in RookMove(p, occupied) <==>
      Reaches(p, Up, occupied, s) || Reaches(p, Down, occupied, s)
      || Reaches(p, Right, occupied, s) || Reaches(p, Left, occupied, s)
  {
    var u, dn, rt, lf := Ray(p, Up, occupied), Ray(p, Down, occupied), Ray(p, Right, occupied), Ray(p, Left, occupied);
    ReverseAppend(u + dn + rt, lf);
    ReverseAppend(u + dn, rt);
    ReverseAppend(u, dn);
    RaySquares(p, Up, occupied, s);
    RaySquares(p, Down, occupied, s);
    RaySquares(p, Right, occupied, s);
    RaySquares(p, Left, occupied, s);
  }

  lemma BishopMoveSquares(p: Square, occupied: seq<Square>, s: Square)
    requires InBounds(p)
    ensures s in BishopMove(p, occupied) <==>
      Reaches(p, LeftUp, occupied, s) || Reaches(p, RightUp, occupied, s)
      || Reaches(p, LeftDown, occupied, s) || Reaches(p, RightDown, occupied, s)
  {
    var a, b, c, e := Ray(p, LeftUp, occupied), Ray(p, RightUp, occupied), Ray(p, LeftDown, occupied), Ray(p, RightDown, occupied);
    ReverseAppend(a + b + c, e);
    ReverseAppend(a + b, c);
    ReverseAppend(a, b);
    RaySquares(p, LeftUp, occupied, s);
    RaySquares(p, RightUp, occupied, s);
    RaySquares(p, LeftDown, occupied, s);
    RaySquares(p, RightDown, occupied, s);
  }

  /** The queen's list is the bishop's followed by the rook's, duplicates kept. */
  lemma QueenMoveIsUnion(p: Square, occupied: seq<Square>)
    ensures |QueenMove(p, occupied)| == |BishopMove(p, occupied)| + |RookMove(p, occupied)|
    ensures QueenMove(p, occupied)[..|BishopMove(p, occupied)|] == BishopMove(p, occupied)
    ensures QueenMove(p, occupied)[|BishopMove(p, occupied)|..] == RookMove(p, occupied)
    ensures forall s :: s in QueenMove(p, occupied) <==> s in BishopMove(p, occupied) || s in RookMove(p, occupied)
  {
  }

  /** After reversal a ray is the list of squares `1, 2, ...` steps out. */
  lemma RayReversed(p: Square, d: Direction, occupied: seq<Square>)
    ensures |ReversePositions(Ray(p, d, occupied))| == |Ray(p, d, occupied)|
    ensures forall i :: 0 <= i < |Ray(p, d, occupied)| ==> ReversePositions(Ray(p, d, occupied))[i] == Nth(p, d, i)
  {
    var r := Ray(p, d, occupied);
    assert forall i :: 0 <= i < |r| ==> r[i] == ColFirst(Nth(p, d, i));
    ReverseAllPresent(r);
  }

  lemma OffsetInjective(p: Square, d: Direction, a: int, b: int)
    requires Offset(p, d, a) == Offset(p, d, b)
    ensures a == b
  {
    match d
    case Up => case Down => case Right => case Left =>
    case LeftUp => case RightUp => case RightDown => case LeftDown =>
  }

  /** A ray whose `n`-th square is reachable and ends the walk has exactly `n` squares. */
  lemma RayLength(p: Square, d: Direction, occupied: seq<Square>, n: int)
    requires InBounds(p) && 1 <= n && InBounds(Offset(p, d, n))
    requires forall j :: 1 <= j < n ==> Offset(p, d, j) !in occupied
    requires Offset(p, d, n) in occupied || !CanStep(Offset(p, d, n), d)
    ensures |Ray(p, d, occupied)| == n
  {
    var r := Ray(p, d, occupied);
    RaySquaresReach(p, d, occupied, Offset(p, d, n), n);
    var i :| 0 <= i < |r| && r[i] == ColFirst(Offset(p, d, n));
    assert Nth(p, d, i) == Offset(p, d, n);
    OffsetInjective(p, d, i + 1, n);
    if |r| > n {
      RayOnBoard(p, d, occupied);
      assert !RawOccupied(r[n - 1], occupied);
      assert OnBoard(r[n]) && r[n] == ColFirst(Nth(p, d, n));
      OffsetAdd(p, d, n, 1);
      EdgeBlocks(Offset(p, d, n), d, 1);
      assert false;
    }
  }

  /** A ray that stops at its `n`-th square lists the squares `1 .. n` steps out, in order. */
  lemma RayExact(p: Square, d: Direction, occupied: seq<Square>, n: int)
    requires InBounds(p) && 1 <= n && InBounds(Offset(p, d, n))
    requires forall j :: 1 <= j < n ==> Offset(p, d, j) !in occupied
    requires Offset(p, d, n) in occupied || !CanStep(Offset(p, d, n), d)
    ensures |ReversePositions(Ray(p, d, occupied))| == n
    ensures forall i :: 0 <= i < n ==> ReversePositions(Ray(p, d, occupied))[i] == Nth(p, d, i)
  {
    RayLength(p, d, occupied, n);
    RayReversed(p, d, occupied);
  }

  lemma CornerRook(p: Square, o: seq<Square>)
    requires p.row == 0 && p.col == 0
    ensures RookMove(p, o) == ReversePositions(Ray(p, Down, o)) + ReversePositions(Ray(p, Right, o))
  {
    assert Ray(p, Up, o) == [] && Ray(p, Left, o) == [];
    ReverseMiddle(Ray(p, Up, o), Ray(p, Down, o), Ray(p, Right, o), Ray(p, Left, o));
  }

  lemma ReverseMiddle(u: seq<RawPair>, dn: seq<RawPair>, rt: seq<RawPair>, lf: seq<RawPair>)
    requires u == [] && lf == []
    ensures ReversePositions(u + dn + rt + lf) == ReversePositions(dn) + ReversePositions(rt)
  {
    ReverseAppend(u + dn + rt, lf);
    ReverseAppend(u + dn, rt);
    ReverseAppend(u, dn);
  }

  /** The column squares (1, 0) ... (n, 0) followed by the row squares (0, 1) ... (0, m). */
  lemma CornerLines(column: seq<Square>, row: seq<Square>, n: int, m: int)
    requires |column| == n && forall i :: 0 <= i < n ==> column[i] == Nth(Square(0, 0), Down, i)
    requires |row| == m && forall i :: 0 <= i < m ==> row[i] == Nth(Square(0, 0), Right, i)
    ensures n == 7 && m == 7 ==> (column + row ==
      [Square(1, 0), Square(2, 0), Square(3, 0), Square(4, 0), Square(5, 0), Square(6, 0), Square(7, 0),
       Square(0, 1), Square(0, 2), Square(0, 3), Square(0, 4), Square(0, 5), Square(0, 6), Square(0, 7)])
    ensures n == 7 && m == 3 ==> (column + row ==
      [Square(1, 0), Square(2, 0), Square(3, 0), Square(4, 0), Square(5, 0), Square(6, 0), Square(7, 0),
       Square(0, 1), Square(0, 2), Square(0, 3)])
  {
  }

  /** With an empty board the rook in the corner reaches the 14 other squares
      of row 0 and column 0. */
  lemma RookFromCornerEmpty()
    ensures RookMove(Square(0, 0), []) ==
      [Square(1, 0), Square(2, 0), Square(3, 0), Square(4, 0), Square(5, 0), Square(6, 0), Square(7, 0),
       Square(0, 1), Square(0, 2), Square(0, 3), Square(0, 4), Square(0, 5), Square(0, 6), Square(0, 7)]
  {
    var p, o: seq<Square> := Square(0, 0), [];
    CornerRook(p, o);
    RayExact(p, Down, o, 7);
    RayExact(p, Right, o, 7);
    CornerLines(ReversePositions(Ray(p, Down, o)), ReversePositions(Ray(p, Right, o)), 7, 7);
  }

  lemma BlockedCornerColumn()
    ensures |ReversePositions(Ray(Square(0, 0), Down, [Square(0, 3)]))| == 7
    ensures forall i :: 0 <= i < 7 ==> ReversePositions(Ray(Square(0, 0), Down, [Square(0, 3)]))[i] == Nth(Square(0, 0), Down, i)
  {
    var p, o := Square(0, 0), [Square(0, 3)];
    assert forall j :: 1 <= j < 7 ==> Offset(p, Down, j) != Square(0, 3);
    RayExact(p, Down, o, 7);
  }

  lemma BlockedCornerRow()
    ensures |ReversePositions(Ray(Square(0, 0), Right, [Square(0, 3)]))| == 3
    ensures forall i :: 0 <= i < 3 ==> ReversePositions(Ray(Square(0, 0), Right, [Square(0, 3)]))[i] == Nth(Square(0, 0), Right, i)
  {
    var p, o := Square(0, 0), [Square(0, 3)];
    assert forall j :: 1 <= j < 3 ==> Offset(p, Right, j) != Square(0, 3);
    RayExact(p, Right, o, 3);
  }

  /** A piece on (0, 3) ends the row ray there, itself included. */
  lemma RookFromCornerBlocked()
    ensures RookMove(Square(0, 0), [Square(0, 3)]) ==
      [Square(1, 0), Square(2, 0), Square(3, 0), Square(4, 0), Square(5, 0), Square(6, 0), Square(7, 0),
       Square(0, 1), Square(0, 2), Square(0, 3)]
  {
    var p, o := Square(0, 0), [Square(0, 3)];
    CornerRook(p, o);
    BlockedCornerColumn();
    BlockedCornerRow();
    CornerLines(ReversePositions(Ray(p, Down, o)), ReversePositions(Ray(p, Right, o)), 7, 3);
  }

  // ---------------------------------------------------------------------
  // Offset tables

  function Chebyshev(a: Square, b: Square): nat {
    var dr, dc := Abs(a.row - b.row), Abs(a.col - b.col);
    if dr < dc then dc else dr
  }

  predicate KnightJump(a: Square, b: Square) {
    var dr, dc := Abs(a.row - b.row), Abs(a.col - b.col);
    (dr == 1 && dc == 2) || (dr == 2 && dc == 1)
  }

  predicate Interior(p: Square) {
    1 <= p.row <= 6 && 1 <= p.col <= 6
  }

  function KingMove(p: Square): (r: seq<Square>)
    ensures |r| <= 8
    ensures InBounds(p) ==> forall s :: s in r <==> InBounds(s) && Chebyshev(p, s) == 1
    ensures Interior(p) ==> |r| == 8
  {
    var x, y := p.col, p.row;
    ReversePositions([
      RawPair(Some(x), Plus(y, 1)),
      RawPair(Some(x), Minus(y, 1)),
      RawPair(Plus(x, 1), Some(y)),
      RawPair(Minus(x, 1), Some(y)),
      RawPair(Plus(x, 1), Minus(y, 1)),
      RawPair(Plus(x, 1), Plus(y, 1)),
      RawPair(Minus(x, 1), Minus(y, 1)),
      RawPair(Minus(x, 1), Plus(y, 1))])
  }

  function KnightMove(p: Square): (r: seq<Square>)
    ensures |r| <= 8
    ensures InBounds(p) ==> forall s :: s in r <==> InBounds(s) && KnightJump(p, s)
    ensures 2 <= p.row <= 5 && 2 <= p.col <= 5 ==> |r| == 8
  {
    var x, y := p.col, p.row;
    ReversePositions([
      RawPair(Minus(x, 2), Minus(y, 1)),
      RawPair(Minus(x, 2), Plus(y, 1)),
      RawPair(Minus(x, 1), Minus(y, 2)),
      RawPair(Plus(x, 1), Minus(y, 2)),
      RawPair(Plus(x, 2), Minus(y, 1)),
      RawPair(Plus(x, 2), Plus(y, 1)),
      RawPair(Minus(x, 1), Plus(y, 2)),
      RawPair(Plus(x, 1), Plus(y, 2))])
  }

  // ---------------------------------------------------------------------
  // Pawns

  /** +1 row for the side that starts at the top, -1 for the other. */
  function Forward(fromTop: bool): int {
    if fromTop then 1 else -1
  }

  /** The row `k` steps forward, `None` when off the board. */
  function PawnStep(fromTop: bool, y: int, k: nat): Option<int> {
    if fromTop then Plus(y, k) else Minus(y, k)
  }

  /** Keeps the column-first candidates whose own square is not occupied. */
  function DropOccupied(ps: seq<RawPair>, occupied: seq<Square>): (r: seq<RawPair>)
    ensures forall q :: q in r <==> q in ps && !RawOccupied(q, occupied)
  {
    if |ps| == 0 then []
    else
      var rest := DropOccupied(ps[1..], occupied);
      assert forall q :: q in ps <==> q == ps[0] || q in ps[1..];
      (if RawOccupied(ps[0], occupied) then [] else [ps[0]]) + rest
  }

  /** The forward candidates of `pawnMove`: one step when `moved`, two
      otherwise, each kept exactly when its own square is empty. */
  function PawnForward(p: Square, moved: bool, fromTop: bool, occupied: seq<Square>): seq<RawPair> {
    var x, y := p.col, p.row;
    var candidates :=
      if moved then [RawPair(Some(x), PawnStep(fromTop, y, 1))]
      else [RawPair(Some(x), PawnStep(fromTop, y, 1)), RawPair(Some(x), PawnStep(fromTop, y, 2))];
    DropOccupied(candidates, occupied)
  }

  /** `pawnKill(pair, fromTop)` for the pair `[q.row, q.col]` it is given.
      It names `pair[1]` x and `pair[0]` y, builds `[x + 1, y + 1]` and
      `[x + 1, y - 1]` (x - 1 for the side from the bottom), and reverses:
      in the pair's own order the first entry moves one either way and the
      second one step in the pawn's direction. `pawnMove` hands it the
      column-first pair, so the second entry is the row. */
  function PawnKill(q: Square, fromTop: bool): (r: seq<Square>)
    ensures |r| <= 2
    ensures InBounds(q) ==> forall s :: s in r <==>
      InBounds(s) && s.col == q.col + Forward(fromTop) && Abs(s.row - q.row) == 1
  {
    var x, y := q.col, q.row;
    if fromTop then ReversePositions([RawPair(Plus(x, 1), Plus(y, 1)), RawPair(Plus(x, 1), Minus(y, 1))])
    else ReversePositions([RawPair(Minus(x, 1), Plus(y, 1)), RawPair(Minus(x, 1), Minus(y, 1))])
  }

  /** The capture step of `pawnMove`: each pair from `pawnKill`, column
      first, is looked up row first and, when occupied, pushed as it is. */
  function Captures(points: seq<Square>, occupied: seq<Square>): (r: seq<RawPair>)
    ensures forall q :: q in r <==> exists s :: s in points && Square(s.col, s.row) in occupied && q == ColFirst(Square(s.col, s.row))
  {
    if |points| == 0 then []
    else
      var s := points[0];
      var rest := Captures(points[1..], occupied);
      assert forall t :: t in points <==> t == s || t in points[1..];
      (if Square(s.col, s.row) in occupied then [RawPair(Some(s.row), Some(s.col))] else []) + rest
  }

  /** `pawnMove`: the forward candidates, then the diagonal captures, as
      row-first squares. */
  function PawnMove(p: Square, moved: bool, fromTop: bool, occupied: seq<Square>): seq<Square> {
    ReversePositions(PawnForward(p, moved, fromTop, occupied)
                     + Captures(PawnKill(Square(p.col, p.row), fromTop), occupied))
  }

  /** The reference meaning of the pawn's forward candidates. */
  predicate ForwardSquare(p: Square, moved: bool, fromTop: bool, occupied: seq<Square>, s: Square) {
    && InBounds(s)
    && (s == Square(p.row + Forward(fromTop), p.col) || (!moved && s == Square(p.row + 2 * Forward(fromTop), p.col)))
    && s !in occupied
  }

  /** The reference meaning of a pawn capture: one row forward, one column
      aside, on the board and occupied. */
  predicate CaptureSquare(p: Square, fromTop: bool, occupied: seq<Square>, s: Square) {
    InBounds(s) && s.row == p.row + Forward(fromTop) && Abs(s.col - p.col) == 1 && s in occupied
  }

  lemma PawnForwardSquares(p: Square, moved: bool, fromTop: bool, occupied: seq<Square>, s: Square)
    requires InBounds(p)
    ensures ColFirst(s) in PawnForward(p, moved, fromTop, occupied) <==> ForwardSquare(p, moved, fromTop, occupied, s)
  {
  }

  lemma CaptureSquares(p: Square, fromTop: bool, occupied: seq<Square>, s: Square)
    requires InBounds(p)
    ensures ColFirst(s) in Captures(PawnKill(Square(p.col, p.row), fromTop), occupied) <==> CaptureSquare(p, fromTop, occupied, s)
  {
    var points := PawnKill(Square(p.col, p.row), fromTop);
    if ColFirst(s) in Captures(points, occupied) {
      var t :| t in points && Square(t.col, t.row) in occupied && ColFirst(s) == ColFirst(Square(t.col, t.row));
      assert s == Square(t.col, t.row);
    }
    if CaptureSquare(p, fromTop, occupied, s) {
      var t := Square(s.col, s.row);
      assert t in points;
      assert Square(t.col, t.row) == s;
    }
  }

  /** The pawn's squares: the forward steps whose own square is free and
      the occupied forward diagonals. */
  lemma PawnMoveSquares(p: Square, moved: bool, fromTop: bool, occupied: seq<Square>, s: Square)
    requires InBounds(p)
    ensures s in PawnMove(p, moved, fromTop, occupied) <==>
      ForwardSquare(p, moved, fromTop, occupied, s) || CaptureSquare(p, fromTop, occupied, s)
  {
    var f := PawnForward(p, moved, fromTop, occupied);
    var c := Captures(PawnKill(Square(p.col, p.row), fromTop), occupied);
    ReverseAppend(f, c);
    PawnForwardSquares(p, moved, fromTop, occupied, s);
    CaptureSquares(p, fromTop, occupied, s);
  }

  /** An occupied first step does not hide the second one. */
  lemma PawnSecondStepSurvivesBlockedFirst()
    ensures PawnMove(Square(6, 4), false, false, [Square(5, 4)]) == [Square(4, 4)]
  {
    var p, o := Square(6, 4), [Square(5, 4)];
    var cands: seq<RawPair> := [RawPair(Some(4), Some(5)), RawPair(Some(4), Some(4))];
    assert DropOccupied(cands[1..], o) == [RawPair(Some(4), Some(4))] + DropOccupied(cands[2..], o);
    assert PawnForward(p, false, false, o) == [RawPair(Some(4), Some(4))];
    var k: seq<Square> := [Square(5, 5), Square(3, 5)];
    assert PawnKill(Square(4, 6), false) == k;
    assert Captures(k[1..], o) == [] + Captures(k[2..], o);
    assert Captures(k, o) == [];
  }

  /** The generator table indexed by piece kind (`moves[...]`). Only the
      sliding pieces and the pawn look at `occupied`. */
  function Moves(kind: Kind, p: Square, moved: bool, fromTop: bool, occupied: seq<Square>): seq<Square> {
    match kind
    case King => KingMove(p)
    case Queen => QueenMove(p, occupied)
    case Bishop => BishopMove(p, occupied)
    case Knight => KnightMove(p)
    case Rook => RookMove(p, occupied)
    case Pawn => PawnMove(p, moved, fromTop, occupied)
  }
}
