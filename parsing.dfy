/**
 * The text a player types and the text the game prints: the symbol choice (X or O),
 * a move such as "1A" or "c3", and the printed form of a move. Text is taken as a
 * sequence of ASCII characters.
 */
module Parsing {
  import opened Symbols
  import opened Wrappers
  import opened Rules

  /** Why a text was refused; the source carries the same information in its error message. */
  datatype ParseError =
    | TooLong(text: string)     // "Input .. too lang": the trimmed text has the wrong length
    | NotASymbol(ch: char)      // "'..' is not one of 'X', 'x', 'O', 'o'"
    | Unparsable(text: string)  // "Could not parse: .."

  /** ASCII whitespace: space, and the control characters tab, line feed, vertical tab, form feed and carriage return. */
  predicate IsSpace(ch: char) {
    ch == ' ' || '\t' <= ch <= '\r'
  }

  /** The index of the first character at or after i that is not whitespace, or |s| if there is none. */
  function SkipSpaces(s: string, i: nat): (r: nat)
    requires i <= |s|
    ensures i <= r <= |s|
    ensures forall k :: i <= k < r ==> IsSpace(s[k])
    ensures r < |s| ==> !IsSpace(s[r])
    decreases |s| - i
  {
    if i < |s| && IsSpace(s[i]) then SkipSpaces(s, i + 1) else i
  }

  /** The end of s[a..j] once its trailing whitespace is dropped. */
  function DropSpaces(s: string, a: nat, j: nat): (r: nat)
    requires a <= j <= |s|
    ensures a <= r <= j
    ensures forall k :: r <= k < j ==> IsSpace(s[k])
    ensures r > a ==> !IsSpace(s[r - 1])
    decreases j
  {
    if j > a && IsSpace(s[j - 1]) then DropSpaces(s, a, j - 1) else j
  }

  /** The text with its leading and trailing whitespace removed. */
  function Trim(s: string): string {
    var a := SkipSpaces(s, 0);
    s[a..DropSpaces(s, a, |s|)]
  }

  /** Trim gives a slice of s that neither starts nor ends with whitespace, with only whitespace around it. */
  lemma TrimIsSlice(s: string)
    ensures var r, a := Trim(s), SkipSpaces(s, 0);
      && (r == [] || (!IsSpace(r[0]) && !IsSpace(r[|r| - 1])))
      && a + |r| <= |s| && r == s[a..a + |r|]
      && (forall k :: 0 <= k < a ==> IsSpace(s[k]))
      && (forall k :: a + |r| <= k < |s| ==> IsSpace(s[k]))
  {
  }

  /** Text with whitespace at neither end is left as it is by Trim. */
  lemma TrimUntouched(s: string)
    requires s == [] || (!IsSpace(s[0]) && !IsSpace(s[|s| - 1]))
    ensures Trim(s) == s
  {
  }

  // ---------------------------------------------------------------------------
  // The symbol choice

  /** A symbol choice: after trimming, a single 'X', 'x', 'O' or 'o'. */
  function ParseBoardChar(s: string): (r: Result<BoardChar, ParseError>)
    ensures r == Success(X) <==> Trim(s) == "X" || Trim(s) == "x"
    ensures r == Success(O) <==> Trim(s) == "O" || Trim(s) == "o"
    ensures r.Success? ==> r.value != Empty
  {
    var tr := Trim(s);
    if |tr| > 1 then Failure(TooLong(tr))
    else if |tr| == 1 then
      match tr[0]
      case 'X' => Success(X)
      case 'x' => Success(X)
      case 'O' => Success(O)
      case 'o' => Success(O)
      case _ => Failure(NotASymbol(tr[0]))
    else Failure(Unparsable(tr))
  }

  /** A refused symbol choice says why: too long, one wrong character, or nothing but whitespace. */
  lemma ParseBoardCharErrors(s: string)
    ensures |Trim(s)| > 1 ==> ParseBoardChar(s) == Failure(TooLong(Trim(s)))
    ensures |Trim(s)| == 1 && Trim(s) !in ["X", "x", "O", "o"] ==> ParseBoardChar(s) == Failure(NotASymbol(Trim(s)[0]))
    ensures |Trim(s)| == 0 ==> ParseBoardChar(s) == Failure(Unparsable([]))
  {
    var tr := Trim(s);
    if |tr| == 1 && tr !in ["X", "x", "O", "o"] {
      assert tr == [tr[0]];
    }
  }

  // ---------------------------------------------------------------------------
  // Moves

  /** The column a character names: A, B, C in either case. */
  function ColumnOf(ch: char): Option<nat> {
    match ch
    case 'A' => Some(0)
    case 'a' => Some(0)
    case 'B' => Some(1)
    case 'b' => Some(1)
    case 'C' => Some(2)
    case 'c' => Some(2)
    case _ => None
  }

  /** The row a character names: the digits 1, 2, 3 stand for rows 0, 1, 2. */
  function RowOf(ch: char): Option<nat> {
    match ch
    case '1' => Some(0)
    case '2' => Some(1)
    case '3' => Some(2)
    case _ => None
  }

  /** The column named by the last column letter of t, if any. */
  function LastColumn(t: string): Option<nat>
  {
    if t == [] then None
    else if ColumnOf(t[|t| - 1]).Some? then ColumnOf(t[|t| - 1])
    else LastColumn(t[..|t| - 1])
  }

  /** The row named by the last row digit of t, if any. */
  function LastRow(t: string): Option<nat>
  {
    if t == [] then None
    else if RowOf(t[|t| - 1]).Some? then RowOf(t[|t| - 1])
    else LastRow(t[..|t| - 1])
  }

  /** The move a text names: after trimming, exactly two characters, among them a row
      digit and a column letter; the last of each kind read is the one used. */
  function MoveFromText(s: string): (r: Result<Move, ParseError>)
  {
    var tr := Trim(s);
    if |tr| != 2 then Failure(TooLong(tr))
    else if LastRow(tr).Some? && LastColumn(tr).Some? then Success(Move(LastRow(tr).value, LastColumn(tr).value))
    else Failure(Unparsable(tr))
  }

  /** The reading loop of the move parser: each character may set the row or the column. */
  method ParseMove(s: string) returns (r: Result<Move, ParseError>)
    ensures r == MoveFromText(s)
  {
    var tr := Trim(s);
    if |tr| != 2 {
      return Failure(TooLong(tr));
    }
    var col: Option<nat> := None;
    var row: Option<nat> := None;
    for k := 0 to |tr|
      invariant col == LastColumn(tr[..k])
      invariant row == LastRow(tr[..k])
    {
      assert tr[..k + 1][..k] == tr[..k];
      match tr[k]
      case 'A' => col := Some(0);
      case 'a' => col := Some(0);
      case 'B' => col := Some(1);
      case 'b' => col := Some(1);
      case 'C' => col := Some(2);
      case 'c' => col := Some(2);
      case '1' => row := Some(0);
      case '2' => row := Some(1);
      case '3' => row := Some(2);
      case _ =>
    }
    assert tr[..|tr|] == tr;
    if row.Some? && col.Some? {
      return Success(Move(row.value, col.value));
    }
    return Failure(Unparsable(tr));
  }

  /** A move text is accepted exactly when, after trimming, it is a row digit and a
      column letter in either order; the move is the cell those two name. */
  lemma MoveFromTextAccepts(s: string)
    ensures MoveFromText(s).Success? <==>
      var tr := Trim(s);
      |tr| == 2 && ((RowOf(tr[0]).Some? && ColumnOf(tr[1]).Some?) || (ColumnOf(tr[0]).Some? && RowOf(tr[1]).Some?))
    ensures MoveFromText(s).Success? ==>
      var tr := Trim(s);
      var m := MoveFromText(s).value;
      && m.row < 3 && m.col < 3
      && (if RowOf(tr[0]).Some? then RowOf(tr[0]) == Some(m.row) && ColumnOf(tr[1]) == Some(m.col)
          else ColumnOf(tr[0]) == Some(m.col) && RowOf(tr[1]) == Some(m.row))
  {
    var tr := Trim(s);
    if |tr| == 2 {
      var t1 := tr[..1];
      assert t1[|t1| - 1] == tr[0] && t1[..0] == [];
      assert LastRow(t1) == RowOf(tr[0]);
      assert LastColumn(t1) == ColumnOf(tr[0]);
    }
  }

  /** The digit character for d. */
  function DigitChar(d: nat): (ch: char)
    requires d < 10
    ensures '0' <= ch <= '9'
  {
    (('0' as int) + d) as char
  }

  /** The decimal form of n, without leading zeros. */
  function DecimalText(n: nat): (r: string)
    ensures |r| >= 1 && forall k :: 0 <= k < |r| ==> '0' <= r[k] <= '9'
    ensures |r| == 1 <==> n < 10
  {
    if n < 10 then [DigitChar(n)] else DecimalText(n / 10) + [DigitChar(n % 10)]
  }

  /** The column letter of a printed move; a column outside 0..2 prints as a space. */
  function ColumnLetter(col: nat): char {
    match col
    case 0 => 'A'
    case 1 => 'B'
    case 2 => 'C'
    case _ => ' '
  }

  /** The printed form of a move: the row counted from 1, then the column letter. */
  function FormatMove(m: Move): string {
    DecimalText(m.row + 1) + [ColumnLetter(m.col)]
  }

  /** Printing a move of the grid gives a row digit 1..3 and an upper-case column letter A..C. */
  lemma FormatMoveShape(m: Move)
    requires m.row < 3 && m.col < 3
    ensures var t := FormatMove(m);
      |t| == 2 && RowOf(t[0]) == Some(m.row) && ColumnOf(t[1]) == Some(m.col) && 'A' <= t[1] <= 'C'
  {
  }

  /** In a row digit followed by a column letter, the last digit and the last letter are those two. */
  lemma DigitThenLetter(t: string)
    requires |t| == 2 && RowOf(t[0]).Some? && ColumnOf(t[1]).Some?
    ensures LastRow(t) == RowOf(t[0]) && LastColumn(t) == ColumnOf(t[1])
  {
    assert t[..1][0] == t[0] && t[..1][..0] == [];
  }

  /** A row digit followed by a column letter is read as the cell they name. */
  lemma DigitThenLetterParses(t: string, m: Move)
    requires |t| == 2 && RowOf(t[0]) == Some(m.row) && ColumnOf(t[1]) == Some(m.col)
    ensures MoveFromText(t) == Success(m)
  {
    TrimUntouched(t);
    DigitThenLetter(t);
  }

  /** Reading back the printed form of a move of the grid gives the same move. */
  lemma FormatThenParse(m: Move)
    requires m.row < 3 && m.col < 3
    ensures MoveFromText(FormatMove(m)) == Success(m)
  {
    FormatMoveShape(m);
    DigitThenLetterParses(FormatMove(m), m);
  }
}
