/** The cell range `GraphSession.update_excel_range` (GraphSession.py)
    writes: a non-empty rectangular block of values placed at a top-left
    cell such as `B3`, giving an Excel address such as `B3:D7`. The HTTP
    request that sends the values is not modelled. */
module GraphRanges {
  import opened Common

  predicate IsLetter(c: char) {
    'A' <= c <= 'Z' || 'a' <= c <= 'z'
  }

  predicate IsUpper(c: char) {
    'A' <= c <= 'Z'
  }

  predicate AllLetters(s: string) {
    forall i :: 0 <= i < |s| ==> IsLetter(s[i])
  }

  // ---------------------------------------------------------------------
  // Cell references
  // ---------------------------------------------------------------------

  /** The length of the run of letters that starts `s`. */
  function LetterRun(s: string): (n: nat)
    ensures n <= |s| && AllLetters(s[..n])
    ensures n == |s| || !IsLetter(s[n])
  {
    if s != [] && IsLetter(s[0]) then
      var rest := LetterRun(s[1..]);
      assert s[..1 + rest] == [s[0]] + s[1..][..rest];
      1 + rest
    else 0
  }

  /** The length of the run of ASCII digits that starts `s`. */
  function DigitRun(s: string): (n: nat)
    ensures n <= |s| && AllDigits(s[..n])
    ensures n == |s| || !IsDigit(s[n])
  {
    if s != [] && IsDigit(s[0]) then
      var rest := DigitRun(s[1..]);
      assert s[..1 + rest] == [s[0]] + s[1..][..rest];
      1 + rest
    else 0
  }

  /** `re.match(r"([A-Za-z]+)(\d+)", cell)`: the leading letters and the
      digits right after them, or None when either run is empty. Anything
      after the digits is ignored. */
  function ParseCell(cell: string): (r: Option<(string, string)>)
    ensures r.Some? ==> |r.value.0| >= 1 && AllLetters(r.value.0) && |r.value.1| >= 1 && AllDigits(r.value.1)
    ensures r.Some? ==> |r.value.0| + |r.value.1| <= |cell| && cell[..|r.value.0| + |r.value.1|] == r.value.0 + r.value.1
  {
    var k := LetterRun(cell);
    var d := DigitRun(cell[k..]);
    if k == 0 || d == 0 then None
    else
      assert cell[..k + d] == cell[..k] + cell[k..][..d];
      Some((cell[..k], cell[k..][..d]))
  }

  /** A cell reference followed by text that does not continue its digits
      parses back to its column and row. */
  lemma ParseCellOf(col: string, row: string, tail: string)
    requires |col| >= 1 && AllLetters(col) && |row| >= 1 && AllDigits(row)
    requires tail == [] || !IsDigit(tail[0])
    ensures ParseCell(col + row + tail) == Some((col, row))
  {
    var cell := col + row + tail;
    LetterRunOf(col, row + tail);
    assert col + row + tail == col + (row + tail);
    assert cell[|col|..] == row + tail;
    DigitRunOf(row, tail);
  }

  lemma {:induction false} LetterRunOf(letters: string, rest: string)
    requires AllLetters(letters) && (rest == [] || !IsLetter(rest[0]))
    ensures LetterRun(letters + rest) == |letters|
    decreases |letters|
  {
    if letters != [] {
      assert (letters + rest)[1..] == letters[1..] + rest;
      LetterRunOf(letters[1..], rest);
    } else {
      assert letters + rest == rest;
    }
  }

  lemma {:induction false} DigitRunOf(digits: string, rest: string)
    requires AllDigits(digits) && (rest == [] || !IsDigit(rest[0]))
    ensures DigitRun(digits + rest) == |digits|
    decreases |digits|
  {
    if digits != [] {
      assert (digits + rest)[1..] == digits[1..] + rest;
      DigitRunOf(digits[1..], rest);
    } else {
      assert digits + rest == rest;
    }
  }

  // ---------------------------------------------------------------------
  // Column letters
  // ---------------------------------------------------------------------

  /** A column letter's place in the alphabet, 1 to 26, either case. */
  function LetterValue(c: char): (v: nat)
    requires IsLetter(c)
    ensures 1 <= v <= 26
  {
    if IsUpper(c) then c as int - 'A' as int + 1 else c as int - 'a' as int + 1
  }

  /** Excel's column number of a column name: A is 1, Z is 26, AA is 27. */
  function ColumnIndex(col: string): nat
    requires AllLetters(col)
  {
    if col == [] then 0
    else ColumnIndex(col[..|col| - 1]) * 26 + LetterValue(col[|col| - 1])
  }

  /** The column name of a column number, in capitals. */
  function ColumnName(n: nat): (s: string)
    requires n >= 1
    ensures |s| >= 1 && forall i :: 0 <= i < |s| ==> IsUpper(s[i])
    decreases n
  {
    var last := ('A' as int + (n - 1) % 26) as char;
    if n <= 26 then [last] else ColumnName((n - 1) / 26) + [last]
  }

  /** Naming a column number and reading the name back gives the number. */
  lemma {:induction false} ColumnRoundTrip(n: nat)
    requires n >= 1
    ensures AllLetters(ColumnName(n)) && ColumnIndex(ColumnName(n)) == n
    decreases n
  {
    var s := ColumnName(n);
    if n > 26 {
      ColumnRoundTrip((n - 1) / 26);
      assert s[..|s| - 1] == ColumnName((n - 1) / 26);
    }
  }

  /** Every capitalised column name is the name of its own number, so
      column names and numbers correspond one to one. */
  lemma {:induction false} ColumnNameOfIndex(col: string)
    requires |col| >= 1 && AllLetters(col) && forall i :: 0 <= i < |col| ==> IsUpper(col[i])
    ensures ColumnIndex(col) >= 1 && ColumnName(ColumnIndex(col)) == col
    decreases |col|
  {
    var init := col[..|col| - 1];
    var v := LetterValue(col[|col| - 1]);
    if init == [] {
      assert col == [col[0]];
    } else {
      ColumnNameOfIndex(init);
      var q := ColumnIndex(init);
      assert (q * 26 + v - 1) / 26 == q && (q * 26 + v - 1) % 26 == v - 1;
      assert col == init + [col[|col| - 1]];
    }
  }

  // ---------------------------------------------------------------------
  // The range
  // ---------------------------------------------------------------------

  datatype RangeError =
    | EmptyValues          // `values[0]` on an empty list
    | RaggedRow(row: nat)  // the 1-based number of the first row whose width differs
    | BadCell              // the top-left cell does not start with letters then digits
    | NoColumns            // the rows are empty, so there is nothing to address

  /** The corners of the written block: the start column and row text as
      the caller wrote them, the end column and the end row. */
  datatype CellRange = CellRange(startCol: string, startRow: string, endCol: string, endRow: nat)

  datatype RangeResult = Range(range: CellRange) | Failed(error: RangeError)

  /** The address text, `start_col start_row ":" end_col end_row`. */
  function Address(r: CellRange): string {
    r.startCol + r.startRow + ":" + r.endCol + NatToDecimal(r.endRow)
  }

  /** The rectangularity loop: the 0-based index of the first row whose
      width differs from the first row's, None when all agree. */
  method FirstRaggedRow<V>(values: seq<seq<V>>) returns (r: Option<nat>)
    requires |values| >= 1
    ensures r.None? <==> forall i :: 0 <= i < |values| ==> |values[i]| == |values[0]|
    ensures r.Some? ==> && r.value < |values| && |values[r.value]| != |values[0]|
                        && forall i :: 0 <= i < r.value ==> |values[i]| == |values[0]|
  {
    var width := |values[0]|;
    var index := 0;
    while index < |values|
      invariant index <= |values|
      invariant forall i :: 0 <= i < index ==> |values[i]| == width
    {
      if |values[index]| != width {
        return Some(index);
      }
      index := index + 1;
    }
    return None;
  }

  /** The range `update_excel_range` addresses: the values must be a
      non-empty rectangle (the first ragged row is reported by its 1-based
      number), the top-left cell must parse, and the block spans as many
      rows as there are value rows and as many columns as the first row
      is wide, counted in Excel's column numbering. */
  method UpdateRange<V>(values: seq<seq<V>>, topLeft: string) returns (r: RangeResult)
    ensures r.Failed? && r.error == EmptyValues <==> |values| == 0
    ensures r.Failed? && r.error.RaggedRow? ==>
              && 2 <= r.error.row <= |values| && |values[r.error.row - 1]| != |values[0]|
              && forall i :: 0 <= i < r.error.row - 1 ==> |values[i]| == |values[0]|
    ensures r.Range? <==>
              && |values| >= 1 && (forall i :: 0 <= i < |values| ==> |values[i]| == |values[0]|)
              && ParseCell(topLeft).Some? && |values[0]| >= 1
    ensures r.Range? ==> && ParseCell(topLeft) == Some((r.range.startCol, r.range.startRow))
                         && Spans(r.range, |values|, |values[0]|)
  {
    if |values| == 0 {
      return Failed(EmptyValues);
    }
    var ragged := FirstRaggedRow(values);
    if ragged.Some? {
      return Failed(RaggedRow(ragged.value + 1));
    }
    var cell := ParseCell(topLeft);
    if cell.None? {
      return Failed(BadCell);
    }
    var width := |values[0]|;
    if width == 0 {
      return Failed(NoColumns);
    }
    var (col, row) := cell.value;
    var endCol := ColumnName(ColumnIndex(col) + width - 1);
    var endRow := DecimalValue(row) + |values| - 1;
    r := Range(CellRange(col, row, endCol, endRow));
    ColumnRoundTrip(ColumnIndex(col) + width - 1);
  }

  /** `c` covers exactly `rows` rows and `cols` columns. */
  predicate Spans(c: CellRange, rows: nat, cols: nat) {
    && AllLetters(c.startCol) && AllDigits(c.startRow) && AllLetters(c.endCol)
    && ColumnIndex(c.endCol) - ColumnIndex(c.startCol) + 1 == cols
    && c.endRow - DecimalValue(c.startRow) + 1 == rows
  }

  /** The address text reads back as its two corners: the left of the
      colon parses to the start cell, the right to the end cell. */
  lemma AddressCorners(c: CellRange)
    requires |c.startCol| >= 1 && AllLetters(c.startCol) && |c.startRow| >= 1 && AllDigits(c.startRow)
    requires |c.endCol| >= 1 && AllLetters(c.endCol)
    ensures var a := Address(c);
            var colon := |c.startCol| + |c.startRow|;
            && colon < |a| && a[colon] == ':'
            && ParseCell(a) == Some((c.startCol, c.startRow))
            && ParseCell(a[colon + 1..]) == Some((c.endCol, NatToDecimal(c.endRow)))
            && DecimalValue(NatToDecimal(c.endRow)) == c.endRow
  {
    var right := c.endCol + NatToDecimal(c.endRow);
    AddressSplit(c, right);
    ParseCellOf(c.startCol, c.startRow, [':'] + right);
    assert right == c.endCol + NatToDecimal(c.endRow) + [];
    ParseCellOf(c.endCol, NatToDecimal(c.endRow), []);
    DecimalRoundTrip(c.endRow);
  }

  /** The address is the start cell, a colon, and the end cell. */
  lemma AddressSplit(c: CellRange, right: string)
    requires right == c.endCol + NatToDecimal(c.endRow)
    ensures var colon := |c.startCol| + |c.startRow|;
            && Address(c) == c.startCol + c.startRow + ([':'] + right)
            && colon < |Address(c)| && Address(c)[colon] == ':' && Address(c)[colon + 1..] == right
  {
  }

  // ---------------------------------------------------------------------
  // The end column as the source computes it
  // ---------------------------------------------------------------------

  /** `chr(ord(start_col) + width - 1)`: the end column as a code point, for
      a one-character start column (a longer one makes `ord` raise). It
      names the right column only while the block ends at or before Z: past
      Z the right name has two letters, 27 columns from A give `[`, and an
      empty row gives a column before the start. */
  function EndColumnAsWritten(startCol: char, width: nat): (code: int)
    ensures IsUpper(startCol) && width >= 1 && code <= 'Z' as int ==>
              var name := ColumnName(ColumnIndex([startCol]) + width - 1);
              |name| == 1 && name[0] as int == code
    ensures IsUpper(startCol) && width >= 1 && code > 'Z' as int ==>
              |ColumnName(ColumnIndex([startCol]) + width - 1)| >= 2
    ensures startCol == 'A' && width == 27 ==> code == '[' as int && !IsLetter(code as char)
    ensures width == 0 ==> code < startCol as int
  {
    assert IsUpper(startCol) ==> ColumnIndex([startCol]) == ColumnIndex([]) * 26 + LetterValue(startCol);
    startCol as int + width - 1
  }

  /** Where the character arithmetic is right: a single capital start
      column whose block ends at or before Z gets the same end column from
      both computations. */
  lemma EndColumnAgreesWithinAlphabet(startCol: char, width: nat)
    requires IsUpper(startCol) && width >= 1 && startCol as int + width - 1 <= 'Z' as int
    ensures ColumnName(ColumnIndex([startCol]) + width - 1) == [EndColumnAsWritten(startCol, width) as char]
  {
    assert ColumnIndex([startCol]) == ColumnIndex([]) * 26 + LetterValue(startCol);
  }

  /** Where it is wrong: 27 columns from A end at column AA, but the
      character arithmetic gives `[`, which is not a column at all; and
      an empty first row from B gives A, a block that runs backwards. */
  lemma EndColumnPastZ()
    ensures EndColumnAsWritten('A', 27) == '[' as int && !IsLetter('[')
    ensures ColumnName(ColumnIndex("A") + 27 - 1) == "AA"
    ensures EndColumnAsWritten('B', 0) == 'A' as int
  {
    assert ColumnIndex("A") == ColumnIndex([]) * 26 + LetterValue('A');
    assert ColumnName(27) == ColumnName(1) + ['A'];
  }
}
