/** The threat scan run after every move: gather the candidate squares of
    every non-king piece of one side and look for the other side's king
    among them. The page's `setAttribute` call is returned as data. */
module Simulate {
  import opened Types
  import opened Movements

  /** `pawnMoved`: a heuristic that treats a black piece below row 1, or a
      white piece above row 6, as having left its starting rank. */
  predicate PawnMoved(p: Piece) {
    (Side(p.id) == Some('b') && p.value.row > 1) || (Side(p.id) == Some('w') && p.value.row < 6)
  }

  /** `getCurrentPieceColor`: the colour letter of the side that scans. */
  function ScanColor(whiteMoved: bool): char {
    if whiteMoved then 'w' else 'b'
  }

  predicate IsKingOf(p: Piece, color: char) {
    p.title == "king" && Side(p.id) == Some(color)
  }

  /** The square of the first king of colour `color` in board order, if any. */
  function FirstKing(position: seq<Piece>, color: char): (r: Option<Square>)
    ensures r.None? <==> forall i :: 0 <= i < |position| ==> !IsKingOf(position[i], color)
    ensures r.Some? ==> exists i :: 0 <= i < |position| && IsKingOf(position[i], color) && position[i].value == r.value
                                 && forall j :: 0 <= j < i ==> !IsKingOf(position[j], color)
  {
    if |position| == 0 then None
    else if IsKingOf(position[0], color) then Some(position[0].value)
    else
      var rest := FirstKing(position[1..], color);
      assert forall i :: 1 <= i < |position| ==> position[i] == position[1..][i - 1];
      rest
  }

  /** `getOpponentKingPosition`: the king of the side that did not scan. */
  function OpponentKing(position: seq<Piece>, whiteMoved: bool): Option<Square> {
    FirstKing(position, ScanColor(!whiteMoved))
  }

  /** The pieces whose moves the scan collects: non-kings of the scanning colour. */
  predicate Scans(p: Piece, color: char) {
    p.title != "king" && Side(p.id) == Some(color)
  }

  /** Every scanning piece names a generator; any other title makes the
      lookup `moves[title + 'Move']` undefined and the call throw. */
  predicate ScannersKnown(position: seq<Piece>, color: char) {
    forall i :: 0 <= i < |position| && Scans(position[i], color) ==> KindOf(position[i].title).Some?
  }

  /** The moves one piece contributes; a pawn uses `pawnMoved` and "is
      black" as its direction. */
  function MovesOf(p: Piece, occupied: seq<Square>): seq<Square>
    requires KindOf(p.title).Some?
  {
    Moves(KindOf(p.title).value, p.value, PawnMoved(p), Side(p.id) == Some('b'), occupied)
  }

  /** `allMoves`: the concatenation, in board order, of the moves of every
      scanning piece. */
  function AllMoves(position: seq<Piece>, color: char, occupied: seq<Square>): (r: seq<Square>)
    requires ScannersKnown(position, color)
    ensures forall s :: s in r <==>
      exists i :: 0 <= i < |position| && Scans(position[i], color) && s in MovesOf(position[i], occupied)
    decreases |position|
  {
    if |position| == 0 then []
    else
      var p := position[0];
      assert forall i :: 1 <= i < |position| ==> position[i] == position[1..][i - 1];
      var rest := AllMoves(position[1..], color, occupied);
      (if Scans(p, color) then MovesOf(p, occupied) else []) + rest
  }

  /** What the scan reports: whether the opponent king is attacked and the
      id of the element it marks as threatened. */
  datatype ScanResult = ScanResult(threatened: bool, marked: Option<string>)

  /** `simulate`. It spreads the looked-up king square, which throws
      when there is none, and calls a generator for every scanning piece. */
  function Scan(position: seq<Piece>, whiteMoved: bool, occupied: seq<Square>): (r: ScanResult)
    requires OpponentKing(position, whiteMoved).Some?
    requires ScannersKnown(position, ScanColor(whiteMoved))
    ensures r.threatened <==> exists i :: 0 <= i < |position| && Scans(position[i], ScanColor(whiteMoved))
                                        && OpponentKing(position, whiteMoved).value in MovesOf(position[i], occupied)
    ensures r.marked.Some? <==> r.threatened
    ensures r.marked.Some? ==> r.marked.value == [ScanColor(whiteMoved)] + "k1"
    ensures r.marked.Some? ==> Side(r.marked.value) == Some(ScanColor(whiteMoved))
  {
    var color := ScanColor(whiteMoved);
    var threatened := OpponentKing(position, whiteMoved).value in AllMoves(position, color, occupied);
    ScanResult(threatened, if threatened then Some([color] + "k1") else None)
  }

  /** The element marked is never the king that is attacked: its colour
      letter is the scanning side's, the king's is the other side's. */
  lemma MarkIsNotOpponentKing(position: seq<Piece>, whiteMoved: bool, occupied: seq<Square>, i: int)
    requires OpponentKing(position, whiteMoved).Some?
    requires ScannersKnown(position, ScanColor(whiteMoved))
    requires 0 <= i < |position| && IsKingOf(position[i], ScanColor(!whiteMoved))
    ensures Scan(position, whiteMoved, occupied).marked != Some(position[i].id)
  {
  }

  lemma KnownAppend(a: seq<Piece>, b: seq<Piece>, color: char)
    requires ScannersKnown(a, color) && ScannersKnown(b, color)
    ensures ScannersKnown(a + b, color)
  {
    assert forall i :: 0 <= i < |a + b| ==> (a + b)[i] == if i < |a| then a[i] else b[i - |a|];
  }

  lemma KnownTail(a: seq<Piece>, color: char)
    requires |a| > 0 && ScannersKnown(a, color)
    ensures ScannersKnown(a[1..], color)
  {
    assert forall i :: 1 <= i < |a| ==> a[i] == a[1..][i - 1];
  }

  /** The collected moves split over a split board. */
  lemma {:induction false} AllMovesAppend(a: seq<Piece>, b: seq<Piece>, color: char, occupied: seq<Square>)
    requires ScannersKnown(a, color) && ScannersKnown(b, color)
    ensures ScannersKnown(a + b, color)
    ensures AllMoves(a + b, color, occupied) == AllMoves(a, color, occupied) + AllMoves(b, color, occupied)
    decreases |a|
  {
    KnownAppend(a, b, color);
    if |a| == 0 {
      assert a + b == b;
    } else {
      KnownTail(a, color);
      assert (a + b)[0] == a[0];
      assert (a + b)[1..] == a[1..] + b;
      AllMovesAppend(a[1..], b, color, occupied);
    }
  }

  /** A piece contributes exactly its own generator output when it scans,
      and nothing otherwise. */
  lemma OnePieceContribution(position: seq<Piece>, p: Piece, color: char, occupied: seq<Square>)
    requires ScannersKnown(position, color)
    requires Scans(p, color) ==> KindOf(p.title).Some?
    ensures ScannersKnown(position + [p], color)
    ensures Scans(p, color) ==> AllMoves(position + [p], color, occupied) == AllMoves(position, color, occupied) + MovesOf(p, occupied)
    ensures !Scans(p, color) ==> AllMoves(position + [p], color, occupied) == AllMoves(position, color, occupied)
  {
    assert AllMoves([p], color, occupied) == (if Scans(p, color) then MovesOf(p, occupied) else []) + AllMoves([], color, occupied);
    AllMovesAppend(position, [p], color, occupied);
  }
}
