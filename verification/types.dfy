/** Shared data model of the chess board: squares, pieces, the board-state
    record and the small string helpers every component uses. */
module Types {

  /** A TypeScript `T | undefined` or `T | null`. */
  datatype Option<+T> = None | Some(value: T)

  /** A board square, react-chessy's `[row, col]` pair; row 0 is the top edge. */
  datatype Square = Square(row: int, col: int)

  /** One entry of a generator's working list, column first as the
      generators build it (`[x, y]` with `x` the column); `None` stands for the
      `null` an out-of-range coordinate becomes. */
  datatype RawPair = RawPair(x: Option<int>, y: Option<int>)

  predicate InBounds(s: Square) {
    0 <= s.row <= 7 && 0 <= s.col <= 7
  }

  /** A piece record: `id` such as "wp3", `title` such as "pawn", `value` its square. */
  datatype Piece = Piece(id: string, title: string, value: Square, moved: Option<bool>)

  /** The colour letter, the first character of an id; absent for an empty id. */
  function Side(id: string): Option<char> {
    if |id| == 0 then None else Some(id[0])
  }

  datatype Kind = King | Queen | Bishop | Knight | Rook | Pawn

  /** The piece titles that name a move generator. */
  function KindOf(title: string): Option<Kind> {
    if title == "king" then Some(King)
    else if title == "queen" then Some(Queen)
    else if title == "bishop" then Some(Bishop)
    else if title == "knight" then Some(Knight)
    else if title == "rook" then Some(Rook)
    else if title == "pawn" then Some(Pawn)
    else None
  }

  /** The first piece in board order that carries `id`, if any. */
  function FindById(board: seq<Piece>, id: string): (r: Option<Piece>)
    ensures r.None? <==> forall i :: 0 <= i < |board| ==> board[i].id != id
    ensures r.Some? ==> exists i :: 0 <= i < |board| && board[i] == r.value && board[i].id == id
                          && forall j :: 0 <= j < i ==> board[j].id != id
  {
    if |board| == 0 then None
    else if board[0].id == id then Some(board[0])
    else
      var rest := FindById(board[1..], id);
      assert forall i :: 1 <= i < |board| ==> board[i] == board[1..][i - 1];
      rest
  }

  predicate UniqueIds(board: seq<Piece>) {
    forall i, j :: 0 <= i < j < |board| ==> board[i].id != board[j].id
  }

  /** A `moveColor` entry: a square key and the colour painted on it. */
  datatype MoveColor = MoveColor(id: string, color: string)

  /** A captured-piece token as pushed onto a kill list (`getAttribute`
      may yield `null`). */
  type Token = Option<string>

  datatype KingPosition = KingPosition(white: Option<Square>, black: Option<Square>)

  /** The reducer's state record. */
  datatype BoardState = BoardState(
    occupied: seq<Square>,
    position: seq<Piece>,
    moveColor: seq<MoveColor>,
    whiteKilled: seq<Token>,
    blackKilled: seq<Token>,
    whiteMoved: bool,
    kingPosition: KingPosition,
    firstUpdate: bool)
}
