/** The decisions one board square makes: which pieces it shows, how a
    dropped piece is relocated, and which kill list a captured token joins. */
module SquareView {
  import opened Types
  import opened Simulate
  import opened BoardReducer

  /** The board without the pieces that carry `id`, in board order. */
  function WithoutId(board: seq<Piece>, id: string): (r: seq<Piece>)
    ensures |r| <= |board|
    ensures forall p :: p in r <==> p in board && p.id != id
  {
    if |board| == 0 then []
    else
      var rest := WithoutId(board[1..], id);
      assert forall p :: p in board <==> p == board[0] || p in board[1..];
      (if board[0].id != id then [board[0]] else []) + rest
  }

  /** Removing an id no piece carries changes nothing. */
  lemma {:induction false} WithoutAbsentId(board: seq<Piece>, id: string)
    requires forall i :: 0 <= i < |board| ==> board[i].id != id
    ensures WithoutId(board, id) == board
  {
    if |board| > 0 {
      assert forall i :: 1 <= i < |board| ==> board[i] == board[1..][i - 1];
      WithoutAbsentId(board[1..], id);
      assert board == [board[0]] + board[1..];
    }
  }

  lemma UniqueTail(board: seq<Piece>)
    requires |board| > 0 && UniqueIds(board)
    ensures UniqueIds(board[1..])
    ensures forall i :: 0 <= i < |board[1..]| ==> board[1..][i].id != board[0].id
  {
    assert forall i :: 1 <= i < |board| ==> board[i] == board[1..][i - 1];
  }

  lemma WithoutFirst(board: seq<Piece>, id: string)
    requires |board| > 0 && UniqueIds(board) && board[0].id == id
    ensures WithoutId(board, id) == board[1..]
  {
    UniqueTail(board);
    WithoutAbsentId(board[1..], id);
  }

  lemma WithoutLater(board: seq<Piece>, k: int, id: string)
    requires 0 < k < |board| && board[0].id != id
    requires WithoutId(board[1..], id) == board[1..][..k - 1] + board[1..][k..]
    ensures WithoutId(board, id) == board[..k] + board[k + 1..]
  {
    assert WithoutId(board, id) == [board[0]] + WithoutId(board[1..], id);
    assert board[..k] + board[k + 1..] == [board[0]] + (board[1..][..k - 1] + board[1..][k..]);
  }

  /** With unique ids, removing the id of piece `k` cuts exactly that piece out. */
  lemma {:induction false} WithoutUniqueId(board: seq<Piece>, k: int, id: string)
    requires UniqueIds(board)
    requires 0 <= k < |board| && board[k].id == id
    ensures WithoutId(board, id) == board[..k] + board[k + 1..]
  {
    if k == 0 {
      WithoutFirst(board, id);
    } else {
      UniqueTail(board);
      assert board[1..][k - 1] == board[k];
      WithoutUniqueId(board[1..], k - 1, id);
      WithoutLater(board, k, id);
    }
  }

  /** The relocation step of `movePiece`: the piece with `id` is taken out
      and appended at `drop`, keeping its id and title and losing `moved`.
      Without such a piece the board is left alone. */
  function MovePiece(board: seq<Piece>, id: string, drop: Square): (r: seq<Piece>)
    ensures FindById(board, id).None? ==> r == board
    ensures FindById(board, id).Some? ==>
      && |r| > 0
      && r[|r| - 1].id == id && r[|r| - 1].value == drop && r[|r| - 1].moved.None?
      && (exists i :: 0 <= i < |board| && board[i].id == id && board[i].title == r[|r| - 1].title)
      && (forall p :: p in r[..|r| - 1] <==> p in board && p.id != id)
  {
    match FindById(board, id)
    case None => board
    case Some(current) => WithoutId(board, id) + [Piece(current.id, current.title, drop, None)]
  }

  /** With unique ids the board keeps its length, every other piece keeps
      its square and its relative order, and the mover ends up last. */
  lemma MovePieceUnique(board: seq<Piece>, k: int, drop: Square)
    requires UniqueIds(board)
    requires 0 <= k < |board|
    ensures MovePiece(board, board[k].id, drop) == board[..k] + board[k + 1..] + [Piece(board[k].id, board[k].title, drop, None)]
    ensures |MovePiece(board, board[k].id, drop)| == |board|
  {
    var id := board[k].id;
    WithoutUniqueId(board, k, id);
    var found := FindById(board, id);
    assert found.Some?;
    var i :| 0 <= i < |board| && board[i] == found.value && board[i].id == id;
    assert i == k;
  }

  /** `renderBoardMatrix`: the pieces whose square is this square, in board order. */
  function PiecesAt(board: seq<Piece>, square: Square): (r: seq<Piece>)
    ensures |r| <= |board|
    ensures forall p :: p in r <==> p in board && p.value == square
  {
    if |board| == 0 then []
    else
      var rest := PiecesAt(board[1..], square);
      assert forall p :: p in board <==> p == board[0] || p in board[1..];
      (if board[0].value == square then [board[0]] else []) + rest
  }

  /** Relocation does not take a captured piece off the board: after the
      move the drop square shows both the mover and its former occupant. */
  lemma OccupantSurvivesMove(board: seq<Piece>, id: string, drop: Square, j: int)
    requires 0 <= j < |board| && board[j].value == drop && board[j].id != id
    requires FindById(board, id).Some?
    ensures board[j] in PiecesAt(MovePiece(board, id, drop), drop)
    ensures exists q :: q in PiecesAt(MovePiece(board, id, drop), drop) && q.id == id
  {
    var r := MovePiece(board, id, drop);
    assert board[j] in r[..|r| - 1];
    assert r[|r| - 1] in r;
  }

  /** The board after a drop and the scan that follows it. */
  datatype DropOutcome = DropOutcome(state: BoardState, scan: ScanResult)

  /** `movePiece` as a whole: the relocation is dispatched when the piece
      exists, the turn toggle `!whiteMoved` always is, and the scan runs on
      the position, turn and occupancy captured when the square rendered,
      so it does not see the move it follows. */
  function MoveAndScan(st: BoardState, id: string, drop: Square, initial: seq<Piece>): (r: DropOutcome)
    requires OpponentKing(st.position, st.whiteMoved).Some?
    requires ScannersKnown(st.position, ScanColor(st.whiteMoved))
    ensures r.state == st.(position := MovePiece(st.position, id, drop), whiteMoved := !st.whiteMoved)
    ensures r.scan.threatened <==> OpponentKing(st.position, st.whiteMoved).value in AllMoves(st.position, ScanColor(st.whiteMoved), st.occupied)
    ensures r.scan == Scan(st.position, st.whiteMoved, st.occupied)
  {
    var moved := MovePiece(st.position, id, drop);
    SetPositionUpdates(st, moved, initial);
    var relocated := if FindById(st.position, id).Some? then Reduce(st, SetPosition(moved), initial) else st;
    SetWhiteMovedUpdates(relocated, !st.whiteMoved, initial);
    var toggled := Reduce(relocated, SetWhiteMoved(!st.whiteMoved), initial);
    DropOutcome(toggled, Scan(st.position, st.whiteMoved, st.occupied))
  }

  /** The two kill lists a captured token can join. */
  datatype KillList = WhiteKills | BlackKills

  /** The routing in `handleDrop`: a non-empty token ending in 'W' goes to
      the white list, everything else, an absent token included, to the black one. */
  function KillListFor(token: Token): KillList {
    if token.Some? && |token.value| > 0 && token.value[|token.value| - 1] == 'W' then WhiteKills else BlackKills
  }

  /** The `data-piece` token a rendered piece carries: its title followed by
      'W' when its id contains a 'w', and 'B' otherwise. */
  function PieceToken(p: Piece): string {
    p.title + (if 'w' in p.id then "W" else "B")
  }

  /** A captured piece's token is routed by the colour its id shows. */
  lemma TokenRoutedByColour(p: Piece)
    ensures KillListFor(Some(PieceToken(p))) == WhiteKills <==> 'w' in p.id
  {
    var t := PieceToken(p);
    assert t[|t| - 1] == if 'w' in p.id then 'W' else 'B';
  }

  /** The dispatch `updateWhiteKill` / `updateBlackKill` makes for a token. */
  function KillAction(st: BoardState, token: Token): Action {
    if KillListFor(token) == WhiteKills then SetWhiteKilled(st.whiteKilled + [token])
    else SetBlackKilled(st.blackKilled + [token])
  }

  /** One kill dispatch appends the token to exactly one list and leaves
      every other field alone. */
  lemma KillDispatchAppends(st: BoardState, token: Token, initial: seq<Piece>)
    ensures var next := Reduce(st, KillAction(st, token), initial);
      && next.whiteKilled + next.blackKilled != st.whiteKilled + st.blackKilled
      && (KillListFor(token) == WhiteKills ==> next.whiteKilled == st.whiteKilled + [token] && next.blackKilled == st.blackKilled)
      && (KillListFor(token) == BlackKills ==> next.blackKilled == st.blackKilled + [token] && next.whiteKilled == st.whiteKilled)
      && next.position == st.position && next.whiteMoved == st.whiteMoved && next.occupied == st.occupied
  {
    var next := Reduce(st, KillAction(st, token), initial);
    assert |next.whiteKilled + next.blackKilled| == |st.whiteKilled + st.blackKilled| + 1;
  }

  /** The index of the last token routed to `list`, or -1 when there is none. */
  function LastRoutedIndex(tokens: seq<Token>, list: KillList): (r: int)
    ensures -1 <= r < |tokens|
    ensures r >= 0 ==> KillListFor(tokens[r]) == list
    ensures forall j :: r < j < |tokens| ==> KillListFor(tokens[j]) != list
  {
    if |tokens| == 0 then -1
    else if KillListFor(tokens[|tokens| - 1]) == list then |tokens| - 1
    else
      var front := tokens[..|tokens| - 1];
      assert forall i :: 0 <= i < |front| ==> front[i] == tokens[i];
      LastRoutedIndex(front, list)
  }

  /** The last token of `tokens` that is routed to `list`, if any. */
  function LastRouted(tokens: seq<Token>, list: KillList): (r: Option<Token>)
    ensures r.None? <==> forall i :: 0 <= i < |tokens| ==> KillListFor(tokens[i]) != list
    ensures r.Some? ==> exists i :: 0 <= i < |tokens| && tokens[i] == r.value && KillListFor(tokens[i]) == list
                          && forall j :: i < j < |tokens| ==> KillListFor(tokens[j]) != list
  {
    var k := LastRoutedIndex(tokens, list);
    if k < 0 then None else Some(tokens[k])
  }

  /** A kill list with an optional token appended. */
  function WithLast(list: seq<Token>, last: Option<Token>): seq<Token> {
    match last
    case None => list
    case Some(t) => list + [t]
  }

  /** A kill dispatch built from the render-time state `st` and applied to
      the current state `cur`. */
  lemma KillActionUpdates(cur: BoardState, st: BoardState, token: Token, initial: seq<Piece>)
    ensures Reduce(cur, KillAction(st, token), initial) ==
      if KillListFor(token) == WhiteKills then cur.(whiteKilled := st.whiteKilled + [token])
      else cur.(blackKilled := st.blackKilled + [token])
  {
  }

  /** The kill sweep of `handleDrop` on a kill square. `tokens` are the
      `data-piece` tokens of the first element of every square marked for a
      kill, in document order. The sweep's guard compares an attribute that
      neither square element carries, so it holds for every marked square,
      not only the drop target. Every dispatch builds its payload from the
      kill lists captured at render time, so each list ends up as it was
      plus the last token routed to it, and all earlier ones are lost. */
  method KillSweep(st: BoardState, tokens: seq<Token>, initial: seq<Piece>) returns (r: BoardState)
    ensures r == st.(whiteKilled := WithLast(st.whiteKilled, LastRouted(tokens, WhiteKills)),
                     blackKilled := WithLast(st.blackKilled, LastRouted(tokens, BlackKills)))
    ensures |r.whiteKilled| <= |st.whiteKilled| + 1 && |r.blackKilled| <= |st.blackKilled| + 1
  {
    r := st;
    var i := 0;
    while i < |tokens|
      invariant 0 <= i <= |tokens|
      invariant r == st.(whiteKilled := WithLast(st.whiteKilled, LastRouted(tokens[..i], WhiteKills)),
                         blackKilled := WithLast(st.blackKilled, LastRouted(tokens[..i], BlackKills)))
    {
      KillActionUpdates(r, st, tokens[i], initial);
      assert tokens[..i + 1][..i] == tokens[..i];
      r := Reduce(r, KillAction(st, tokens[i]), initial);
      i := i + 1;
    }
    assert tokens[..|tokens|] == tokens;
  }
}
