/**
 * The value classes of the game: the six piece kinds, a square that may hold
 * a piece, and a player. Each of them only has readers in this snapshot, so
 * each is a datatype; the Ruby constructors with default arguments become
 * functions with default parameters.
 */
module Pieces {

  datatype Option<T> = None | Some(value: T)

  /** The six classes nested in Piece. */
  datatype Kind = Pawn | Bishop | Knight | Rook | Queen | King

  /** The colour every piece constructor defaults to. */
  const DefaultColor: string := "Black"

  /** The name a player gets when none is given. */
  const DefaultPlayerName: string := "Player"

  /** The `@name` each piece class stores, the class's own name. */
  function KindName(kind: Kind): (name: string)
  {
    match kind
    case Pawn => "Pawn"
    case Bishop => "Bishop"
    case Knight => "Knight"
    case Rook => "Rook"
    case Queen => "Queen"
    case King => "King"
  }

  /** A piece: its kind fixes its name; its colour is whatever text it was given. */
  datatype Piece = Piece(kind: Kind, color: string)
  {
    function Name(): (name: string)
    {
      KindName(kind)
    }
  }

  /** `Piece::<Kind>.new(color = "Black")`. */
  function NewPiece(kind: Kind, color: string := DefaultColor): (piece: Piece)
  {
    Piece(kind, color)
  }

  /** Different kinds carry different names, so a name identifies its kind. */
  lemma KindNameInjective(a: Kind, b: Kind)
    ensures KindName(a) == KindName(b) <==> a == b
  {
  }

  /** A new piece has the name of its kind and, unless told otherwise, the colour "Black". */
  lemma NewPieceAttributes(kind: Kind, color: string)
    ensures NewPiece(kind).Name() == KindName(kind) && NewPiece(kind).color == "Black"
    ensures NewPiece(kind, color).kind == kind && NewPiece(kind, color).color == color
  {
  }

  datatype Square = Square(piece: Option<Piece>)
  {
    /** occupied?: whether a piece stands on the square. */
    predicate Occupied(): (occupied: bool)
    {
      piece.Some?
    }
  }

  /** `Square.new(piece = nil)`. */
  function NewSquare(piece: Option<Piece> := None): (square: Square)
  {
    Square(piece)
  }

  /** A square built without a piece is empty; one built with a piece holds exactly it. */
  lemma NewSquareOccupancy(p: Piece)
    ensures !NewSquare().Occupied()
    ensures NewSquare(Some(p)).Occupied() && NewSquare(Some(p)).piece == Some(p)
  {
  }

  datatype Player = Player(name: string)

  /** `Player.new(name = "Player")`. */
  function NewPlayer(name: string := DefaultPlayerName): (player: Player)
  {
    Player(name)
  }

  lemma NewPlayerName(name: string)
    ensures NewPlayer().name == "Player"
    ensures NewPlayer(name).name == name
  {
  }
}
