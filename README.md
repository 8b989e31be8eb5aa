# ruby-chess: board, coordinates and pieces

This project models the board part of a small Ruby chess program, `lib/chess.rb`:

- the `Board` class builds an 8x8 grid of squares and looks a square up by a text coordinate such as `"e4"`;
- its private helpers validate a coordinate (`valid_position?`), turn a file letter into a number (`letter_to_number`) and turn a coordinate into a `[row, column]` index pair (`human_to_array_position`);
- `Square` holds an optional piece and answers `occupied?`;
- the six piece classes (`Pawn`, `Bishop`, `Knight`, `Rook`, `Queen`, `King`) each carry a fixed name and a colour that defaults to `"Black"`;
- `Player` carries a name that defaults to `"Player"`.

Files:

- `coordinates.dfy` (module `Coordinates`) holds the parsers. The regular expression `/^[a-h][1-8]$/` is a sequence of character classes, matched against the whole string. `String#downcase` is `Downcase`. `letter_to_number` is a method with the source's loop and early return, proved against the search function `FileNumber`. `human_to_array_position` is a total function that returns `Err(NoMethodError)` where the Ruby code raises.
- `pieces.dfy` (module `Pieces`) holds `Kind`, `Piece`, `Square` and `Player`. These are datatypes, because the source only gives them readers. Their constructors with default arguments are functions with default parameters.
- `board.dfy` (module `Boards`) holds the `Board` class. Its `squares` field is an `array2<Square>`. `Rows()` views that array as the nested Ruby array.

A piece's colour is free text, as in the source: any string is accepted, and `"Black"` is only the default.

## Model

| member | source | states |
|---|---|---|
| `Coordinates.Lower` | lib/chess.rb:32 | a character lowercases into a–h exactly when it is a–h or A–H; digits are unchanged; no uppercase letter remains |
| `Coordinates.Downcase` | lib/chess.rb:32 | lowercasing keeps the length and lowercases each character in its place |
| `Coordinates.DowncaseIdempotent` | lib/chess.rb:32 | lowercasing twice is lowercasing once |
| `Coordinates.MatchesWhole` | lib/chess.rb:32 | no contract of its own: the anchored match of `=~ /^[a-h][1-8]$/`; `Coordinates.MatchesWholeChars` states it |
| `Coordinates.MatchesWholeChars` | lib/chess.rb:32 | a string matches an anchored pattern of character classes exactly when it has one character per class and each character lies in its class |
| `Coordinates.ValidPosition` | lib/chess.rb:31-33 | a coordinate is valid exactly when it has two characters, the first lowercases to a letter a–h and the second is a digit 1–8 |
| `Coordinates.ValidPositionIgnoresCase` | lib/chess.rb:32 | validation gives the same answer for a string and its lowercase form |
| `Coordinates.FindFrom` | lib/chess.rb:26-27 | the search from place i finds the first later place holding the letter, or reports the Range when no place from i on holds it |
| `Coordinates.FileNumber` | lib/chess.rb:25-29 | letter_to_number gives a number exactly when the letter is in "a".."h", and then the first 1-based place holding it |
| `Coordinates.LetterToNumber` | lib/chess.rb:25-29 | the loop returns the 1-based place of the letter in "a".."h" when the letter is there (and then "a".."h" holds that letter at that place), and the Range otherwise |
| `Coordinates.FileNumberClosedForm` | lib/chess.rb:25-29 | letter_to_number sends each of a–h to its distance from 'a' plus one (1..8), and every other character, uppercase letters included, to the Range |
| `Coordinates.FileNumberOrdered` | lib/chess.rb:25-29 | on a–h letter_to_number always gives a number, and keeps the order of the letters, so it is injective |
| `Coordinates.DigitToI` | lib/chess.rb:22 | `position[1].to_i` is 0..9; a digit 1–8 gives its place in "12345678"; any non-digit gives 0 |
| `Coordinates.HumanToArrayPosition` | lib/chess.rb:21-23 | the conversion as written succeeds exactly when the first character is in "a".."h", and then gives the column whose letter it is and the row `position[1].to_i - 1` (−1 when there is no second character); otherwise it raises NoMethodError |
| `Coordinates.ArrayPositionOfLowercase` | lib/chess.rb:21-23 | a valid coordinate with a lowercase file converts to [rank − 1, file − 1], both inside 0..7 |
| `Coordinates.ArrayPositionInjective` | lib/chess.rb:21-29 | two valid lowercase coordinates that convert to the same pair are the same string |
| `Coordinates.ArrayPositionSurjective` | lib/chess.rb:21-29 | every pair in [0,7]×[0,7] is what some valid lowercase coordinate converts to; with injectivity the conversion is a bijection between the 64 coordinates and the 64 pairs |
| `Coordinates.UppercaseCoordinateFails` | lib/chess.rb:21-33 | a coordinate that passes validation with an uppercase file A–H makes the conversion raise NoMethodError |
| `Coordinates.LineBreakInputsLeaveGrid` | lib/chess.rb:22 | the conversion as written turns "e9\ne4" into row 8 and "e0\ne4" and "e\ne4" into row −1, both outside 0..7 |
| `Coordinates.CaseInsensitiveArrayPosition` | lib/chess.rb:21-23 | the corrected conversion sends every validated coordinate to [rank − 1, lowercase file − 1], inside 0..7 |
| `Pieces.KindName` | lib/chess.rb:57 | no contract of its own: the name stored by each piece class; `Pieces.KindNameInjective` states that the names are distinct |
| `Pieces.Piece.Name` | lib/chess.rb:54-57 | no contract of its own: a piece's `name`; `Pieces.NewPieceAttributes` states that it is the name of the piece's kind |
| `Pieces.NewPiece` | lib/chess.rb:56-59 | no contract of its own: the six piece constructors; `Pieces.NewPieceAttributes` states their kind, name and (default) colour |
| `Pieces.KindNameInjective` | lib/chess.rb:52-105 | two kinds have the same name exactly when they are the same kind |
| `Pieces.NewPieceAttributes` | lib/chess.rb:52-105 | a new piece is named after its kind, keeps the colour it is given, and is "Black" when it is given none |
| `Pieces.NewSquare` | lib/chess.rb:43-45 | no contract of its own: `Square.new(piece = nil)`; `Pieces.NewSquareOccupancy` states what it holds |
| `Pieces.Square.Occupied` | lib/chess.rb:47-49 | no contract of its own: `occupied?`; `Pieces.NewSquareOccupancy` states that it is false for a square built without a piece and true for one built with a piece |
| `Pieces.NewSquareOccupancy` | lib/chess.rb:40-49 | a square built without a piece is not occupied; a square built with a piece is occupied and holds that piece |
| `Pieces.NewPlayer` | lib/chess.rb:111-113 | no contract of its own: `Player.new(name = "Player")`; `Pieces.NewPlayerName` states the name it keeps |
| `Pieces.NewPlayerName` | lib/chess.rb:108-114 | a player keeps the name it is given and is named "Player" when it is given none |
| `Boards.Grid` | spec/chess_spec.rb:9 | no contract of its own: the nested array `Array.new(8) { Array.new(8, square) }` that the test expects; `Boards.GridShape` states its shape and contents |
| `Boards.Board.Rows` | lib/chess.rb:2-5 | abstraction function: `@squares` as the nested array `attr_reader :squares` returns, 8 rows of 8 cells, cell [i][j] being squares[i, j] |
| `Boards.GridShape` | spec/chess_spec.rb:8-9 | the grid built from one square has 8 rows of 8 cells, and every cell is that square |
| `Boards.Board.constructor` | lib/chess.rb:4-6 | a new board's squares form the 8x8 grid of the given square, or of an empty square when none is given |
| `Boards.Board.GetSquare` | lib/chess.rb:8-16 | for a validated coordinate, the lookup succeeds exactly when the file letter is lowercase, and then returns squares[rank − 1, file − 1]; otherwise it fails with NoMethodError; it never indexes outside the grid |
| `Boards.Board.GetSquareAnyCase` | lib/chess.rb:8-16 | the lookup with the corrected conversion returns squares[rank − 1, lowercase file − 1] for every validated coordinate |
| `Boards.OneSquareBoard` | spec/chess_spec.rb:8-9 | no contract of its own: the example of the spec file, a board built around one square is the 8x8 grid of it; "e4" yields that square, "E4" fails, and the corrected lookup of "E4" yields it |

## Left out

- The retry loop in `get_square` (lib/chess.rb:9-12) and `invalid_position_message` (lib/chess.rb:35-37) are console input and output. `Board.GetSquare` instead requires a coordinate that passes validation, which is the state in which that loop exits.
- `Coordinates.ValidPosition`: Ruby's `^` and `$` match at line boundaries, not only at the ends of the string. So the source also accepts strings such as `"e4\n"` or `"x\ne4"`. The model matches the two-character string exactly. Of those extra strings, one such as `"x\ne4"` or `"\ne4"` then hands `letter_to_number` a first character outside a–h, so line 22 raises NoMethodError: a second failure path besides the uppercase file, which `Coordinates.HumanToArrayPosition` shows but `Boards.Board.GetSquare` does not reach. A string such as `"e9\ne4"` gives row 8, and line 15 then raises NoMethodError on nil. One such as `"e0\ne4"` or `"e\ne4"` gives row −1, and Ruby's negative indexing sends it to row 7, the wrong square. So the promise of `Boards.Board.GetSquare` that it never indexes outside the grid holds only for the exact-match validator; `Coordinates.LineBreakInputsLeaveGrid` shows those rows.
- `Coordinates.Downcase`: lowercases ASCII letters only. Ruby's `String#downcase` also handles letters outside ASCII. No such letter lowercases to a–h, so the answer for coordinates is the same.
- Ruby truthiness is not modelled. `Board.new(false)` would build fresh squares, and `occupied?` tests any truthy value. In the model these are `Option` values.
- Object identity is not modelled. `Board.new(square)` puts one and the same square object in all 64 cells, and `Board.new` puts 64 distinct empty ones. Squares are immutable, so the model compares them by value.
- `driver.rb` calls `place_piece`, `show` and `get_diagonal_moves`; a call to `populate` is commented out. None of them is defined in `lib/chess.rb`, so they are not part of this model. Nor are move generation, check, checkmate, stalemate, move validation and promotion: none of them exists in this source.

## Findings

| source | as written | input that shows it | evidently intended | confidence | as-written member | corrected member |
|---|---|---|---|---|---|---|
| lib/chess.rb:22-32 | `valid_position?` lowercases before it matches, but `letter_to_number` compares the raw letter with "a".."h". An uppercase file therefore falls through the loop and returns the Range, and `Range - 1` on line 22 raises NoMethodError | `"E4"` | conversion as case-insensitive as validation, giving the square at [3, 4] | not executed | `Coordinates.UppercaseCoordinateFails` | `Coordinates.CaseInsensitiveArrayPosition` |

`Boards.Board.GetSquare` models the lookup as written. `Boards.Board.GetSquareAnyCase` models the lookup with the corrected conversion.
