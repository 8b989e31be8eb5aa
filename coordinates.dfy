/**
 * Text coordinates such as "e4" and their conversion into a [row, column]
 * index pair of the board's 8x8 grid. These are the private helpers of the
 * Board class (valid_position?, letter_to_number, human_to_array_position);
 * none of them reads a field of the board, so they are modelled as functions
 * of their argument, except letter_to_number, whose loop is kept as a method.
 */
module Coordinates {

  /** The only run-time error the conversion can raise in this snapshot. */
  datatype Error = NoMethodError

  datatype Result<T> = Ok(value: T) | Err(error: Error)

  /** The [row, column] pair human_to_array_position returns. */
  datatype ArrayPosition = ArrayPosition(row: int, col: int)

  /** The file letters, in the order the Range "a".."h" enumerates them. */
  const Files: string := "abcdefgh"

  /** The rank digits accepted by the character class [1-8]. */
  const Ranks: string := "12345678"

  // ---------------------------------------------------------------------
  // Lowercasing (String#downcase, restricted to ASCII)
  // ---------------------------------------------------------------------

  /**
   * A character lowercases into a-h exactly when it is a-h or A-H; digits
   * are left alone, and no uppercase letter remains.
   */
  function Lower(c: char): (r: char)
    ensures 'a' <= r <= 'h' <==> 'a' <= c <= 'h' || 'A' <= c <= 'H'
    ensures '0' <= c <= '9' ==> r == c
    ensures !('A' <= r <= 'Z')
  {
    if 'A' <= c <= 'Z' then (c as int + 32) as char else c
  }

  /** `position.downcase`: every character lowercased, the length unchanged. */
  function Downcase(s: string): (r: string)
    ensures |r| == |s|
    ensures forall i :: 0 <= i < |s| ==> r[i] == Lower(s[i])
  {
    if s == [] then [] else [Lower(s[0])] + Downcase(s[1..])
  }

  lemma {:induction false} DowncaseIdempotent(s: string)
    ensures Downcase(Downcase(s)) == Downcase(s)
  {
    var d := Downcase(s);
    var dd := Downcase(d);
    assert |dd| == |d|;
    forall i | 0 <= i < |d| ensures dd[i] == d[i] {
      assert d[i] == Lower(s[i]);
    }
  }

  // ---------------------------------------------------------------------
  // The regular expression /^[a-h][1-8]$/
  // ---------------------------------------------------------------------

  /** One bracketed character class `[lo-hi]`. */
  datatype CharClass = CharClass(lo: char, hi: char)

  /** The pattern of valid_position?, one class per character. */
  const CoordinatePattern: seq<CharClass> := [CharClass('a', 'h'), CharClass('1', '8')]

  /**
   * Whether the whole of `s` matches the classes of `p` one character each,
   * that is, the pattern anchored at both ends of the string.
   */
  function MatchesWhole(s: string, p: seq<CharClass>): (matches: bool)
    decreases p
  {
    if p == [] then s == []
    else s != [] && p[0].lo <= s[0] <= p[0].hi && MatchesWhole(s[1..], p[1..])
  }

  lemma {:induction false} MatchesWholeChars(s: string, p: seq<CharClass>)
    decreases p
    ensures MatchesWhole(s, p) <==>
            |s| == |p| && forall i :: 0 <= i < |s| ==> p[i].lo <= s[i] <= p[i].hi
  {
    if p != [] && s != [] {
      MatchesWholeChars(s[1..], p[1..]);
      if |s| == |p| && forall i :: 0 <= i < |s| ==> p[i].lo <= s[i] <= p[i].hi {
        forall i | 0 <= i < |s[1..]| ensures p[1..][i].lo <= s[1..][i] <= p[1..][i].hi {
          assert s[1..][i] == s[i + 1] && p[1..][i] == p[i + 1];
        }
      }
      if MatchesWhole(s, p) {
        forall i | 0 <= i < |s| ensures p[i].lo <= s[i] <= p[i].hi {
          if i > 0 {
            assert s[1..][i - 1] == s[i] && p[1..][i - 1] == p[i];
          }
        }
      }
    }
  }

  /**
   * valid_position?: the lowercased string is one file letter a-h followed
   * by one rank digit 1-8, and nothing else.
   */
  function ValidPosition(position: string): (valid: bool)
    ensures valid <==>
            |position| == 2 && 'a' <= Lower(position[0]) <= 'h' && '1' <= position[1] <= '8'
  {
    MatchesWholeChars(Downcase(position), CoordinatePattern);
    MatchesWhole(Downcase(position), CoordinatePattern)
  }

  /** Validation does not depend on the case of the input. */
  lemma ValidPositionIgnoresCase(position: string)
    ensures ValidPosition(Downcase(position)) == ValidPosition(position)
  {
    DowncaseIdempotent(position);
  }

  // ---------------------------------------------------------------------
  // letter_to_number
  // ---------------------------------------------------------------------

  /**
   * The value of letter_to_number: the 1-based place of the letter in
   * "a".."h", or, when the loop runs to completion, the Range itself, which
   * is what each_with_index returns.
   */
  datatype LetterNumber = Number(n: int) | FileRange

  /** The search letter_to_number performs, from index `i` on. */
  function FindFrom(c: char, i: nat): (r: LetterNumber)
    decreases |Files| - i
    ensures r.Number? ==> i < r.n <= |Files| && Files[r.n - 1] == c && c !in Files[i..r.n - 1]
    ensures r.FileRange? && i <= |Files| ==> c !in Files[i..]
  {
    if i >= |Files| then FileRange
    else if Files[i] == c then Number(i + 1)
    else FindFrom(c, i + 1)
  }

  function FileNumber(c: char): (r: LetterNumber)
    ensures r.Number? <==> c in Files
    ensures r.Number? ==> 1 <= r.n <= |Files| && Files[r.n - 1] == c && c !in Files[..r.n - 1]
  {
    FindFrom(c, 0)
  }

  /** letter_to_number: the loop over "a".."h" with an index and an early return. */
  method LetterToNumber(givenLetter: char) returns (r: LetterNumber)
    ensures r == FileNumber(givenLetter)
    ensures r.Number? <==> givenLetter in Files
    ensures r.Number? ==> 1 <= r.n <= |Files| && Files[r.n - 1] == givenLetter
  {
    var index := 0;
    while index < |Files|
      invariant 0 <= index <= |Files|
      invariant givenLetter !in Files[..index]
      invariant FindFrom(givenLetter, index) == FileNumber(givenLetter)
    {
      if givenLetter == Files[index] {
        return Number(index + 1);
      }
      index := index + 1;
    }
    return FileRange;
  }

  lemma {:induction false} FindFromClosedForm(c: char, i: nat)
    requires i <= |Files|
    requires 'a' <= c <= 'h' ==> 'a' as int + i <= c as int
    decreases |Files| - i
    ensures FindFrom(c, i) ==
            if 'a' as int + i <= c as int <= 'h' as int then Number(c as int - 'a' as int + 1) else FileRange
  {
    if i < |Files| {
      assert Files[i] as int == 'a' as int + i;
      if Files[i] != c {
        FindFromClosedForm(c, i + 1);
      }
    }
  }

  /** letter_to_number sends "a".."h" to 1..8 and every other character to the Range. */
  lemma FileNumberClosedForm(c: char)
    ensures FileNumber(c) == if 'a' <= c <= 'h' then Number(c as int - 'a' as int + 1) else FileRange
  {
    FindFromClosedForm(c, 0);
  }

  /** letter_to_number is strictly increasing, hence injective, on "a".."h". */
  lemma FileNumberOrdered(c: char, d: char)
    requires 'a' <= c <= 'h' && 'a' <= d <= 'h'
    ensures FileNumber(c).Number? && FileNumber(d).Number?
    ensures c < d <==> FileNumber(c).n < FileNumber(d).n
    ensures c == d <==> FileNumber(c) == FileNumber(d)
  {
    FileNumberClosedForm(c);
    FileNumberClosedForm(d);
  }

  // ---------------------------------------------------------------------
  // human_to_array_position
  // ---------------------------------------------------------------------

  /** String#to_i of the one-character string `position[1]`; nil.to_i is 0. */
  function DigitToI(c: char): (n: int)
    ensures 0 <= n <= 9
    ensures '1' <= c <= '8' ==> 1 <= n <= 8 && Ranks[n - 1] == c
    ensures !('0' <= c <= '9') ==> n == 0
  {
    if '0' <= c <= '9' then c as int - '0' as int else 0
  }

  /**
   * human_to_array_position, as written: [file - 1, rank - 1].reverse.
   * `Range - 1` is undefined, so a first character outside "a".."h" (or a
   * missing one) raises NoMethodError before the rank is read.
   */
  function HumanToArrayPosition(position: string): (r: Result<ArrayPosition>)
    ensures r.Ok? <==> |position| > 0 && position[0] in Files
    ensures r.Ok? ==> 0 <= r.value.col < |Files| && Files[r.value.col] == position[0]
    ensures r.Ok? && |position| < 2 ==> r.value.row == -1
    ensures r.Ok? && |position| >= 2 ==> r.value.row == DigitToI(position[1]) - 1
  {
    var file := if |position| == 0 then FileRange else FileNumber(position[0]);
    var rank := if |position| < 2 then 0 else DigitToI(position[1]);
    match file
    case FileRange => Err(NoMethodError)
    case Number(n) => Ok(ArrayPosition(rank - 1, n - 1))
  }

  /** A valid coordinate whose file letter is already lowercase. */
  predicate LowercaseCoordinate(position: string)
  {
    ValidPosition(position) && 'a' <= position[0] <= 'h'
  }

  /**
   * A valid lowercase coordinate converts to [rank - 1, file - 1], both
   * inside 0..7.
   */
  lemma ArrayPositionOfLowercase(position: string)
    requires LowercaseCoordinate(position)
    ensures HumanToArrayPosition(position) ==
            Ok(ArrayPosition(position[1] as int - '1' as int, position[0] as int - 'a' as int))
    ensures 0 <= HumanToArrayPosition(position).value.row < 8
    ensures 0 <= HumanToArrayPosition(position).value.col < 8
  {
    FileNumberClosedForm(position[0]);
  }

  /** Two valid lowercase coordinates with the same index pair are the same text. */
  lemma ArrayPositionInjective(s: string, t: string)
    requires LowercaseCoordinate(s) && LowercaseCoordinate(t)
    requires HumanToArrayPosition(s) == HumanToArrayPosition(t)
    ensures s == t
  {
    ArrayPositionOfLowercase(s);
    ArrayPositionOfLowercase(t);
    assert s == [s[0], s[1]] && t == [t[0], t[1]];
  }

  /** Every index pair of the 8x8 grid is the image of a valid lowercase coordinate. */
  lemma ArrayPositionSurjective(row: int, col: int)
    requires 0 <= row < 8 && 0 <= col < 8
    ensures exists s :: LowercaseCoordinate(s) && HumanToArrayPosition(s) == Ok(ArrayPosition(row, col))
  {
    var s := [Files[col], Ranks[row]];
    assert Files[col] as int == 'a' as int + col;
    assert Ranks[row] as int == '1' as int + row;
    ArrayPositionOfLowercase(s);
  }

  /**
   * An uppercase file letter passes valid_position? (which lowercases), but
   * letter_to_number compares the raw letter, falls through, and the
   * conversion raises NoMethodError; "E4" is such an input.
   */
  lemma UppercaseCoordinateFails(position: string)
    requires ValidPosition(position) && 'A' <= position[0] <= 'H'
    ensures HumanToArrayPosition(position) == Err(NoMethodError)
  {
    FileNumberClosedForm(position[0]);
  }

  /**
   * Strings with a line break, which the source's line-anchored pattern also
   * accepts, convert to rows outside 0..7: "e9\ne4" to row 8 and "e0\ne4" to
   * row -1.
   */
  lemma LineBreakInputsLeaveGrid()
    ensures HumanToArrayPosition("e9\ne4") == Ok(ArrayPosition(8, 4))
    ensures HumanToArrayPosition("e0\ne4") == Ok(ArrayPosition(-1, 4))
    ensures HumanToArrayPosition("e\ne4") == Ok(ArrayPosition(-1, 4))
  {
  }

  /**
   * The conversion as evidently intended: lowercase first, as the validator
   * does, so that every coordinate the validator accepts converts.
   */
  function CaseInsensitiveArrayPosition(position: string): (p: ArrayPosition)
    requires ValidPosition(position)
    ensures p == ArrayPosition(position[1] as int - '1' as int, Lower(position[0]) as int - 'a' as int)
    ensures 0 <= p.row < 8 && 0 <= p.col < 8
  {
    var lowered := Downcase(position);
    ArrayPositionOfLowercase(lowered);
    HumanToArrayPosition(lowered).value
  }
}
