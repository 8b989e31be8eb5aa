/**
 * The Board class: an 8x8 grid of squares, indexed [row, column], and the
 * lookup of a square by its text coordinate.
 */
module Boards {
  import opened Pieces
  import opened Coordinates

  /** The number of rows, and of squares in a row. */
  const Size: nat := 8

  /** The nested array the spec file expects, `Array.new(8) { Array.new(8, square) }`, as a sequence of rows. */
  function Grid(square: Square): (grid: seq<seq<Square>>)
  {
    seq(Size, _ => seq(Size, _ => square))
  }

  /** The 8 rows of a grid each hold 8 squares, all of them the given one. */
  lemma GridShape(square: Square)
    ensures |Grid(square)| == 8
    ensures forall i :: 0 <= i < 8 ==> |Grid(square)[i]| == 8
    ensures forall i, j :: 0 <= i < 8 && 0 <= j < 8 ==> Grid(square)[i][j] == square
  {
  }

  class Board {
    /** `@squares`, read through `attr_reader :squares`; assigned once, by the constructor. */
    const squares: array2<Square>

    ghost predicate Valid()
    {
      squares.Length0 == Size && squares.Length1 == Size
    }

    /** The grid as the nested array the Ruby object holds: a sequence of rows. */
    ghost function Rows(): (rows: seq<seq<Square>>)
      requires Valid()
      reads squares
      ensures |rows| == Size
      ensures forall i :: 0 <= i < Size ==> |rows[i]| == Size
      ensures forall i, j :: 0 <= i < Size && 0 <= j < Size ==> rows[i][j] == squares[i, j]
    {
      seq(Size, i requires 0 <= i < Size reads squares =>
        seq(Size, j requires 0 <= j < Size reads squares => squares[i, j]))
    }

    /**
     * `Board.new(square = nil)`: every cell holds the given square, or an
     * empty one when none is given.
     */
    constructor (square: Option<Square> := None)
      ensures Valid() && fresh(squares)
      ensures square.Some? ==> Rows() == Grid(square.value)
      ensures square.None? ==> Rows() == Grid(NewSquare())
    {
      var filler := if square.Some? then square.value else NewSquare();
      squares := new Square[Size, Size]((_, _) => filler);
      new;
      forall i | 0 <= i < Size ensures Rows()[i] == Grid(filler)[i] {
        assert forall j :: 0 <= j < Size ==> Rows()[i][j] == filler;
      }
    }

    /**
     * get_square, for a coordinate that has passed validation (the state in
     * which the source's retry loop exits). A lowercase file letter yields
     * the square at [rank - 1, file - 1]; an uppercase one makes the
     * conversion raise NoMethodError.
     */
    method GetSquare(position: string) returns (r: Result<Square>)
      requires Valid()
      requires ValidPosition(position)
      ensures r.Ok? <==> 'a' <= position[0] <= 'h'
      ensures r.Ok? ==> r.value == squares[position[1] as int - '1' as int, position[0] as int - 'a' as int]
      ensures r.Err? ==> r.error == NoMethodError
    {
      var arrayPosition := HumanToArrayPosition(position);
      if arrayPosition.Err? {
        UppercaseCoordinateFails(position);
        return Err(arrayPosition.error);
      }
      ArrayPositionOfLowercase(position);
      r := Ok(squares[arrayPosition.value.row, arrayPosition.value.col]);
    }

    /**
     * get_square with the conversion lowercasing the coordinate first, as
     * the validator does: every validated coordinate yields its square.
     */
    method GetSquareAnyCase(position: string) returns (square: Square)
      requires Valid()
      requires ValidPosition(position)
      ensures square == squares[position[1] as int - '1' as int, Lower(position[0]) as int - 'a' as int]
    {
      var arrayPosition := CaseInsensitiveArrayPosition(position);
      square := squares[arrayPosition.row, arrayPosition.col];
    }
  }

  /**
   * A client of the contracts above: the board of the spec file's
   * "#initialize" example, built around one square, and two lookups.
   */
  method OneSquareBoard(square: Square)
  {
    var board := new Board(Some(square));
    GridShape(square);
    assert board.Rows() == Grid(square);
    var e4 := board.GetSquare("e4");
    assert e4 == Ok(square);
    var upper := board.GetSquare("E4");
    assert upper == Err(NoMethodError);
    var anyCase := board.GetSquareAnyCase("E4");
    assert anyCase == square;
  }
}
