/** The board's reducer: one replace-one-field transition per `SET_*`
    action, `RESET` back to the initial state, and a no-op for anything
    else. The starting layout `initialPosition` lives in a data file this
    model does not have, so it is a parameter `initial` throughout. */
module BoardReducer {
  import opened Types

  /** The dispatched actions, each carrying the payload its field takes.
      `Other` stands for any `type` string the reducer does not name. */
  datatype Action =
    | SetOccupied(squares: seq<Square>)
    | SetPosition(pieces: seq<Piece>)
    | SetMoveColor(colors: seq<MoveColor>)
    | SetBlackKilled(blackTokens: seq<Token>)
    | SetWhiteKilled(whiteTokens: seq<Token>)
    | SetWhiteMoved(moved: bool)
    | SetKingPosition(kings: KingPosition)
    | SetFirstUpdate(first: bool)
    | Reset
    | Other(kind: string)

  /** The fields of the state record, and a uniform view of their values. */
  datatype Field = Occupied | Position | MoveColors | BlackKilled | WhiteKilled | WhiteMoved | Kings | FirstUpdate

  datatype Value =
    | Squares(squares: seq<Square>)
    | Pieces(pieces: seq<Piece>)
    | Colors(colors: seq<MoveColor>)
    | Tokens(tokens: seq<Token>)
    | Flag(flag: bool)
    | KingSquares(kings: KingPosition)

  function Get(s: BoardState, f: Field): Value {
    match f
    case Occupied => Squares(s.occupied)
    case Position => Pieces(s.position)
    case MoveColors => Colors(s.moveColor)
    case BlackKilled => Tokens(s.blackKilled)
    case WhiteKilled => Tokens(s.whiteKilled)
    case WhiteMoved => Flag(s.whiteMoved)
    case Kings => KingSquares(s.kingPosition)
    case FirstUpdate => Flag(s.firstUpdate)
  }

  /** The field a `SET_*` action names. */
  function Target(a: Action): Option<Field> {
    match a
    case SetOccupied(_) => Some(Occupied)
    case SetPosition(_) => Some(Position)
    case SetMoveColor(_) => Some(MoveColors)
    case SetBlackKilled(_) => Some(BlackKilled)
    case SetWhiteKilled(_) => Some(WhiteKilled)
    case SetWhiteMoved(_) => Some(WhiteMoved)
    case SetKingPosition(_) => Some(Kings)
    case SetFirstUpdate(_) => Some(FirstUpdate)
    case Reset => None
    case Other(_) => None
  }

  /** The payload of a `SET_*` action, as a field value. */
  function Payload(a: Action): Value
    requires Target(a).Some?
  {
    match a
    case SetOccupied(v) => Squares(v)
    case SetPosition(v) => Pieces(v)
    case SetMoveColor(v) => Colors(v)
    case SetBlackKilled(v) => Tokens(v)
    case SetWhiteKilled(v) => Tokens(v)
    case SetWhiteMoved(v) => Flag(v)
    case SetKingPosition(v) => KingSquares(v)
    case SetFirstUpdate(v) => Flag(v)
  }

  /** Two states that agree on every field are the same state. */
  lemma {:induction false} FieldsDetermineState(s: BoardState, t: BoardState)
    requires forall f :: Get(s, f) == Get(t, f)
    ensures s == t
  {
    assert Get(s, Occupied) == Get(t, Occupied);
    assert Get(s, Position) == Get(t, Position);
    assert Get(s, MoveColors) == Get(t, MoveColors);
    assert Get(s, BlackKilled) == Get(t, BlackKilled);
    assert Get(s, WhiteKilled) == Get(t, WhiteKilled);
    assert Get(s, WhiteMoved) == Get(t, WhiteMoved);
    assert Get(s, Kings) == Get(t, Kings);
    assert Get(s, FirstUpdate) == Get(t, FirstUpdate);
  }

  /** `initialState`: both king entries look up the piece "wk1". */
  function InitialState(initial: seq<Piece>): (r: BoardState)
    ensures r.position == initial
    ensures !r.whiteMoved && r.firstUpdate
    ensures r.occupied == [] && r.whiteKilled == [] && r.blackKilled == []
    ensures r.moveColor == [MoveColor("", "")]
    ensures r.kingPosition.white == r.kingPosition.black
    ensures r.kingPosition.white.Some? <==> exists i :: 0 <= i < |initial| && initial[i].id == "wk1"
    ensures r.kingPosition.white.Some? ==>
      exists i :: 0 <= i < |initial| && initial[i].id == "wk1" && initial[i].value == r.kingPosition.white.value
        && forall j :: 0 <= j < i ==> initial[j].id != "wk1"
  {
    var wk := FindById(initial, "wk1");
    var square := if wk.Some? then Some(wk.value.value) else None;
    BoardState([], initial, [MoveColor("", "")], [], [], false, KingPosition(square, square), true)
  }

  /** `boardReducer`. */
  function Reduce(s: BoardState, a: Action, initial: seq<Piece>): (r: BoardState)
    ensures a.Reset? ==> r == InitialState(initial)
    ensures a.Other? ==> r == s
    ensures Target(a).Some? ==> Get(r, Target(a).value) == Payload(a)
    ensures Target(a).Some? ==> forall f :: f != Target(a).value ==> Get(r, f) == Get(s, f)
  {
    match a
    case SetOccupied(v) => s.(occupied := v)
    case SetPosition(v) => s.(position := v)
    case SetMoveColor(v) => s.(moveColor := v)
    case SetBlackKilled(v) => s.(blackKilled := v)
    case SetWhiteKilled(v) => s.(whiteKilled := v)
    case SetWhiteMoved(v) => s.(whiteMoved := v)
    case SetKingPosition(v) => s.(kingPosition := v)
    case SetFirstUpdate(v) => s.(firstUpdate := v)
    case Reset => InitialState(initial)
    case Other(_) => s
  }

  /** The two transitions a drop dispatches, in record-update form. */
  lemma SetPositionUpdates(s: BoardState, v: seq<Piece>, initial: seq<Piece>)
    ensures Reduce(s, SetPosition(v), initial) == s.(position := v)
  {
  }

  lemma SetWhiteMovedUpdates(s: BoardState, v: bool, initial: seq<Piece>)
    ensures Reduce(s, SetWhiteMoved(v), initial) == s.(whiteMoved := v)
  {
  }

  /** Setting a field twice with the same payload is setting it once. */
  lemma SetIdempotent(s: BoardState, a: Action, initial: seq<Piece>)
    requires Target(a).Some?
    ensures Reduce(Reduce(s, a, initial), a, initial) == Reduce(s, a, initial)
  {
    var once := Reduce(s, a, initial);
    var twice := Reduce(once, a, initial);
    forall f ensures Get(twice, f) == Get(once, f) {
    }
    FieldsDetermineState(twice, once);
  }

  /** Of two successive sets of the same field, the second one wins. */
  lemma LastSetWins(s: BoardState, a: Action, b: Action, initial: seq<Piece>)
    requires Target(a).Some? && Target(a) == Target(b)
    ensures Reduce(Reduce(s, a, initial), b, initial) == Reduce(s, b, initial)
  {
    var left := Reduce(Reduce(s, a, initial), b, initial);
    var right := Reduce(s, b, initial);
    forall f ensures Get(left, f) == Get(right, f) {
    }
    FieldsDetermineState(left, right);
  }

  /** Sets of two different fields commute. */
  lemma DistinctSetsCommute(s: BoardState, a: Action, b: Action, initial: seq<Piece>)
    requires Target(a).Some? && Target(b).Some? && Target(a) != Target(b)
    ensures Reduce(Reduce(s, a, initial), b, initial) == Reduce(Reduce(s, b, initial), a, initial)
  {
    var left := Reduce(Reduce(s, a, initial), b, initial);
    var right := Reduce(Reduce(s, b, initial), a, initial);
    forall f ensures Get(left, f) == Get(right, f) {
    }
    FieldsDetermineState(left, right);
  }

  /** The board's turn toggle sends `!whiteMoved`; two toggles restore the state. */
  lemma ToggleTwiceRestores(s: BoardState, initial: seq<Piece>)
    ensures var once := Reduce(s, SetWhiteMoved(!s.whiteMoved), initial);
            Reduce(once, SetWhiteMoved(!once.whiteMoved), initial) == s
  {
    var once := Reduce(s, SetWhiteMoved(!s.whiteMoved), initial);
    var twice := Reduce(once, SetWhiteMoved(!once.whiteMoved), initial);
    assert Get(once, WhiteMoved) == Flag(!s.whiteMoved);
    forall f ensures Get(twice, f) == Get(s, f) {
    }
    FieldsDetermineState(twice, s);
  }
}
