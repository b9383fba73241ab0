/** A1-style cell references and the cached worksheet snapshot (`GSheet`):
    the `POS_RE` prefix match, point lookup (`_get_value`, `value`,
    `unformatted_value`) and rectangular range lookup (`value_range`). */
module Cells {
  import opened Results
  import opened Text
  import opened Columns

  /** A fetched worksheet grid: rows of cell texts, rows possibly ragged. */
  type Grid = seq<seq<string>>

  /** The two groups of a `POS_RE` match: the column letters and the row digits. */
  datatype A1 = A1(letters: string, digits: string)

  /** `POS_RE.match(pos)` for `([A-Z]+)(\d+)`: the longest run of upper-case
      letters at the start of `pos`, then the longest run of digits after it.
      Whatever follows the digits is not looked at. */
  function MatchA1(pos: string): (m: Option<A1>)
    ensures m.Some? ==> |m.value.letters| >= 1 && AllUpper(m.value.letters)
    ensures m.Some? ==> |m.value.digits| >= 1 && AllDigits(m.value.digits)
    ensures m.Some? ==> |m.value.letters| + |m.value.digits| <= |pos|
    ensures m.Some? ==> pos[..|m.value.letters| + |m.value.digits|] == m.value.letters + m.value.digits
  {
    var n := Span(pos, IsUpper);
    var k := Span(pos[n..], IsDigit);
    if n == 0 || k == 0 then None
    else
      assert pos[..n + k] == pos[..n] + pos[n..n + k];
      Some(A1(pos[..n], pos[n..n + k]))
  }

  /** `pos` starts with one or more upper-case letters followed by one or more digits. */
  ghost predicate HasA1Prefix(pos: string) {
    exists i, j | 1 <= i < j <= |pos| :: AllUpper(pos[..i]) && AllDigits(pos[i..j])
  }

  /** The match fails exactly when `pos` has no letters-then-digits prefix. */
  lemma MatchA1FailsIffNoPrefix(pos: string)
    ensures MatchA1(pos).None? <==> !HasA1Prefix(pos)
  {
    var n := Span(pos, IsUpper);
    if HasA1Prefix(pos) {
      var i, j :| 1 <= i < j <= |pos| && AllUpper(pos[..i]) && AllDigits(pos[i..j]);
      assert forall q :: 0 <= q < i ==> IsUpper(pos[..i][q]);
      assert IsDigit(pos[i..j][0]);
      assert n == i;
      assert pos[n..][0] == pos[i];
    }
    if MatchA1(pos).Some? {
      var k := Span(pos[n..], IsDigit);
      assert pos[..n + k][n..n + k] == pos[n..n + k];
      assert AllUpper(pos[..n]) && AllDigits(pos[n..n + k]);
    }
  }

  /** Text after the digits is ignored, provided it does not continue the digits. */
  lemma TrailingTextIgnored(letters: string, digits: string, rest: string)
    requires |letters| >= 1 && AllUpper(letters)
    requires |digits| >= 1 && AllDigits(digits)
    requires |rest| == 0 || !IsDigit(rest[0])
    ensures MatchA1(letters + digits + rest) == Some(A1(letters, digits))
  {
    var pos := letters + (digits + rest);
    assert pos == letters + digits + rest;
    var n := |letters|;
    assert forall q :: 0 <= q < n ==> IsUpper(pos[q]);
    assert !IsUpper(pos[n]);
    SpanIs(pos, IsUpper, n);
    var tail := pos[n..];
    assert tail == digits + rest;
    assert forall q :: 0 <= q < |digits| ==> IsDigit(tail[q]);
    SpanIs(tail, IsDigit, |digits|);
    assert pos[..n] == letters;
    assert pos[n..n + |digits|] == digits;
  }

  /** Python's `seq[i]`: a negative index counts from the end, anything else
      outside the sequence is an `IndexError` (here `None`). */
  function PyIndex<T>(s: seq<T>, i: int): (r: Option<T>)
    ensures r.Some? <==> -|s| <= i < |s|
    ensures r.Some? ==> r.value in s
  {
    if 0 <= i < |s| then Some(s[i])
    else if -|s| <= i < 0 then Some(s[|s| + i])
    else None
  }

  /** The zero-based column of a match (`letter2num(letters)`). */
  function ColumnOf(a: A1): int {
    Letter2Num(a.letters, true)
  }

  /** The zero-based row of a match (`int(digits) - 1`). */
  function RowOf(a: A1): int {
    DecimalValue(a.digits) - 1
  }

  /** `v` is the text of some cell of the grid. */
  predicate InGrid(source: Grid, v: string) {
    exists i :: 0 <= i < |source| && v in source[i]
  }

  /** `GSheet._get_value(source, pos)` as written: the explicit guard uses `>`,
      and whatever it lets through is indexed the Python way, so a boundary
      index still fails (with Python's own `IndexError`) while row -1 wraps
      round to the last row. */
  function GetValue(source: Grid, pos: string): (r: Result<string>)
    ensures r.Err? ==> r.error == NoA1Position || r.error == CellOutOfBounds
    ensures r == Err(NoA1Position) <==> MatchA1(pos).None?
    ensures r.Ok? ==> InGrid(source, r.value)
  {
    match MatchA1(pos)
    case None => Err(NoA1Position)
    case Some(a) =>
      var col := ColumnOf(a);
      var row := RowOf(a);
      if row > |source| then Err(CellOutOfBounds)
      else
        match PyIndex(source, row)
        case None => Err(CellOutOfBounds)
        case Some(cells) =>
          if col > |cells| then Err(CellOutOfBounds)
          else
            match PyIndex(cells, col)
            case None => Err(CellOutOfBounds)
            case Some(v) => Ok(v)
  }

  /** The format error is raised exactly when the prefix match fails, and no
      other error is ever a format error. */
  lemma GetValueFormatError(source: Grid, pos: string)
    ensures GetValue(source, pos) == Err(NoA1Position) <==> MatchA1(pos).None?
    ensures GetValue(source, pos).Err? ==>
              GetValue(source, pos).error in {NoA1Position, CellOutOfBounds}
  {
  }

  /** For a row number of at least 1 the as-written lookup returns
      `source[row - 1][col]` exactly when that cell exists, and the bounds error
      otherwise. */
  lemma GetValueInRange(source: Grid, pos: string)
    requires MatchA1(pos).Some? && DecimalValue(MatchA1(pos).value.digits) >= 1
    ensures var a := MatchA1(pos).value;
            var row, col := RowOf(a), ColumnOf(a);
            && (GetValue(source, pos).Ok? <==> row < |source| && col < |source[row]|)
            && (GetValue(source, pos).Ok? ==> GetValue(source, pos).value == source[row][col])
            && (GetValue(source, pos).Err? ==> GetValue(source, pos).error == CellOutOfBounds)
  {
    Letter2NumInjective(MatchA1(pos).value.letters, MatchA1(pos).value.letters, true);
  }

  /** Row digit 0 gives row -1, which Python's indexing wraps to the last row:
      "A0" reads the first cell of the bottom row instead of failing. */
  lemma RowZeroReadsLastRow(source: Grid, pos: string)
    requires MatchA1(pos).Some? && DecimalValue(MatchA1(pos).value.digits) == 0
    requires |source| >= 1 && ColumnOf(MatchA1(pos).value) < |source[|source| - 1]|
    ensures GetValue(source, pos) == Ok(source[|source| - 1][ColumnOf(MatchA1(pos).value)])
  {
    Letter2NumInjective(MatchA1(pos).value.letters, MatchA1(pos).value.letters, true);
  }

  lemma RowZeroExample()
    ensures GetValue([["a"], ["b"]], "A0") == Ok("b")
  {
    TrailingTextIgnored("A", "0", "");
    assert "A" + "0" + "" == "A0";
    assert "0"[..0] == "";
    Letter2NumExamples();
    RowZeroReadsLastRow([["a"], ["b"]], "A0");
  }

  /** The lookup as evidently intended: a row number below 1 is out of bounds,
      like every other cell outside the grid. */
  function GetValueChecked(source: Grid, pos: string): (r: Result<string>)
    ensures r.Err? ==> r.error == NoA1Position || r.error == CellOutOfBounds
    ensures r.Ok? ==> InGrid(source, r.value)
  {
    match MatchA1(pos)
    case None => Err(NoA1Position)
    case Some(a) =>
      var col := ColumnOf(a);
      var row := RowOf(a);
      if 0 <= row < |source| && 0 <= col < |source[row]| then Ok(source[row][col])
      else Err(CellOutOfBounds)
  }

  /** The intended lookup fails with the format error exactly when the prefix
      match fails, and agrees with the as-written lookup on every address whose
      row number is at least 1. */
  lemma GetValueCheckedIsIntended(source: Grid, pos: string)
    ensures GetValueChecked(source, pos) == Err(NoA1Position) <==> MatchA1(pos).None?
    ensures MatchA1(pos).Some? && DecimalValue(MatchA1(pos).value.digits) == 0 ==>
              GetValueChecked(source, pos) == Err(CellOutOfBounds)
    ensures MatchA1(pos).None? || DecimalValue(MatchA1(pos).value.digits) >= 1 ==>
              GetValueChecked(source, pos) == GetValue(source, pos)
  {
    if MatchA1(pos).Some? {
      Letter2NumInjective(MatchA1(pos).value.letters, MatchA1(pos).value.letters, true);
      if DecimalValue(MatchA1(pos).value.digits) >= 1 {
        GetValueInRange(source, pos);
      }
    }
  }

  /** The A1 name of the cell at zero-based row `row` and column `col`: the
      column's letters followed by the 1-based row number. */
  function CellAddress(row: nat, col: nat): string {
    ColumnLetters(col + 1) + ShowNat(row + 1)
  }

  /** The A1 name of a cell matches `POS_RE`, and its groups give back the
      cell's row and column. */
  lemma CellAddressParses(row: nat, col: nat)
    ensures MatchA1(CellAddress(row, col)).Some?
    ensures ColumnOf(MatchA1(CellAddress(row, col)).value) == col
    ensures RowOf(MatchA1(CellAddress(row, col)).value) == row
  {
    var letters, digits := ColumnLetters(col + 1), ShowNat(row + 1);
    var pos := CellAddress(row, col);
    assert pos == letters + digits + "";
    TrailingTextIgnored(letters, digits, "");
    var a := A1(letters, digits);
    assert MatchA1(pos) == Some(a);
    assert ColumnOf(a) == col by {
      ColumnRoundTrip(letters, col + 1);
      Letter2NumInjective(letters, letters, true);
    }
    assert RowOf(a) == row by {
      DecimalValueOfShowNat(row + 1);
    }
  }

  /** Every cell of the grid is reached through its own A1 name, by the
      intended lookup and by the as-written one alike. */
  lemma CellAddressReadsCell(source: Grid, row: nat, col: nat)
    requires row < |source| && col < |source[row]|
    ensures GetValueChecked(source, CellAddress(row, col)) == Ok(source[row][col])
    ensures GetValue(source, CellAddress(row, col)) == Ok(source[row][col])
  {
    CellAddressParses(row, col);
    GetValueInRange(source, CellAddress(row, col));
  }

  /** The A1 name of a cell beyond the end of its row is out of bounds. */
  lemma CellAddressPastRow(source: Grid, row: nat, col: nat)
    requires row < |source| && |source[row]| <= col
    ensures GetValueChecked(source, CellAddress(row, col)) == Err(CellOutOfBounds)
  {
    CellAddressParses(row, col);
  }

  // ---------------------------------------------------------------------------
  // The snapshot

  /** The formatted and the unformatted value grids of one worksheet tab,
      fetched once by `init()`. */
  datatype Snapshot = Snapshot(values: Grid, unformatted: Grid)

  /** `GSheet.value(pos)`, with the row-0 wrap corrected. */
  function Value(sheet: Snapshot, pos: string): (r: Result<string>)
    ensures r.Err? ==> r.error == NoA1Position || r.error == CellOutOfBounds
    ensures r == Err(NoA1Position) <==> MatchA1(pos).None?
    ensures r.Ok? ==> InGrid(sheet.values, r.value)
  {
    GetValueChecked(sheet.values, pos)
  }

  /** `GSheet.unformatted_value(pos)`, with the row-0 wrap corrected. */
  function UnformattedValue(sheet: Snapshot, pos: string): (r: Result<string>)
    ensures r.Err? ==> r.error == NoA1Position || r.error == CellOutOfBounds
    ensures r == Err(NoA1Position) <==> MatchA1(pos).None?
    ensures r.Ok? ==> InGrid(sheet.unformatted, r.value)
  {
    GetValueChecked(sheet.unformatted, pos)
  }

  /** The point lookups over the two-by-two grid `a b / c d`. */
  lemma ValueExamples()
    ensures Value(Snapshot([["a", "b"], ["c", "d"]], []), "A1") == Ok("a")
    ensures Value(Snapshot([["a", "b"], ["c", "d"]], []), "B2") == Ok("d")
    ensures Value(Snapshot([["a", "b"], ["c", "d"]], []), "C1") == Err(CellOutOfBounds)
  {
    var grid := [["a", "b"], ["c", "d"]];
    assert CellAddress(0, 0) == "A1";
    CellAddressReadsCell(grid, 0, 0);
    assert CellAddress(1, 1) == "B2";
    CellAddressReadsCell(grid, 1, 1);
    assert CellAddress(0, 2) == "C1";
    CellAddressPastRow(grid, 0, 2);
  }

  // ---------------------------------------------------------------------------
  // Range lookup

  /** The inclusive rectangle of a range, 1-based, as `a1_to_rowcol` gives it. */
  datatype Bounds = Bounds(firstRow: int, firstCol: int, lastRow: int, lastCol: int)

  /** `a1_to_rowcol(address)`: the same letters/digits split, both parts 1-based. */
  function A1ToRowCol(address: string): (r: Result<(int, int)>)
    ensures r.Ok? ==> r.value.0 >= 0 && r.value.1 >= 1
  {
    match MatchA1(address)
    case None => Err(IncorrectCellLabel(address))
    case Some(a) =>
      Letter2NumInjective(a.letters, a.letters, false);
      Ok((DecimalValue(a.digits), Letter2Num(a.letters, false)))
  }

  /** An address of letters then digits converts to its 1-based row and column. */
  lemma A1ToRowColOf(letters: string, digits: string)
    requires |letters| >= 1 && AllUpper(letters)
    requires |digits| >= 1 && AllDigits(digits)
    ensures A1ToRowCol(letters + digits) == Ok((DecimalValue(digits), Letter2Num(letters, false)))
  {
    TrailingTextIgnored(letters, digits, "");
    assert letters + digits + "" == letters + digits;
  }

  /** `start, end = rng.split(':')` followed by `a1_to_rowcol` of both ends. */
  function ParseRange(rng: string): (r: Result<Bounds>)
    ensures r.Ok? ==> r.value.firstRow >= 0 && r.value.lastRow >= 0
    ensures r.Ok? ==> r.value.firstCol >= 1 && r.value.lastCol >= 1
  {
    var ends := Split(rng, ':');
    if |ends| != 2 then Err(RangeNotTwoEnds)
    else
      var first :- A1ToRowCol(ends[0]);
      var last :- A1ToRowCol(ends[1]);
      Ok(Bounds(first.0, first.1, last.0, last.1))
  }

  /** The bounds a range `l1d1:l2d2` names: rows from the digits, columns from
      the letters. */
  function BoundsOf(l1: string, d1: string, l2: string, d2: string): Bounds {
    Bounds(DecimalValue(d1), Letter2Num(l1, false), DecimalValue(d2), Letter2Num(l2, false))
  }

  /** An address (letters then digits) holds no colon. */
  lemma AddressHasNoColon(letters: string, digits: string)
    requires AllUpper(letters) && AllDigits(digits)
    ensures ':' !in letters + digits
  {
    var a := letters + digits;
    forall k | 0 <= k < |a|
      ensures a[k] != ':'
    {
      if k < |letters| {
        assert a[k] == letters[k];
      } else {
        assert a[k] == digits[k - |letters|];
      }
    }
  }

  lemma JoinRange(a: string, b: string)
    ensures Join([a, b], ':') == a + ":" + b
  {
    assert [a, b][1..] == [b];
  }

  lemma RegroupRange(l1: string, d1: string, l2: string, d2: string)
    ensures l1 + d1 + ":" + l2 + d2 == (l1 + d1) + ":" + (l2 + d2)
  {
  }

  /** `a1_range_to_grid_range` on any two well-formed ends: the first end gives
      the top-left corner and the second the bottom-right. */
  lemma ParseRangeOf(l1: string, d1: string, l2: string, d2: string)
    requires |l1| >= 1 && AllUpper(l1) && |d1| >= 1 && AllDigits(d1)
    requires |l2| >= 1 && AllUpper(l2) && |d2| >= 1 && AllDigits(d2)
    ensures ParseRange(l1 + d1 + ":" + l2 + d2) == Ok(BoundsOf(l1, d1, l2, d2))
  {
    var a, b := l1 + d1, l2 + d2;
    AddressHasNoColon(l1, d1);
    AddressHasNoColon(l2, d2);
    JoinRange(a, b);
    RegroupRange(l1, d1, l2, d2);
    SplitJoin([a, b], ':');
    assert Split(l1 + d1 + ":" + l2 + d2, ':') == [a, b];
    A1ToRowColOf(l1, d1);
    A1ToRowColOf(l2, d2);
  }

  /** Python's clamping of a slice bound `i` against a length `n`. */
  function SliceBound(i: int, n: nat): (b: nat)
    ensures b <= n
  {
    if i < 0 then (if i + n < 0 then 0 else i + n)
    else if i > n then n
    else i
  }

  /** Python's `s[i:j]`: never fails, and never reaches outside `s`. */
  function PySlice<T>(s: seq<T>, i: int, j: int): (r: seq<T>)
    ensures |r| <= |s|
    ensures SliceBound(i, |s|) <= SliceBound(j, |s|) ==> |r| == SliceBound(j, |s|) - SliceBound(i, |s|)
    ensures SliceBound(i, |s|) >= SliceBound(j, |s|) ==> |r| == 0
    ensures forall k :: 0 <= k < |r| ==> r[k] == s[SliceBound(i, |s|) + k]
  {
    var lo := SliceBound(i, |s|);
    var hi := SliceBound(j, |s|);
    if lo < hi then s[lo..hi] else []
  }

  function Flatten<T>(rows: seq<seq<T>>): seq<T>
    decreases |rows|
  {
    if |rows| == 0 then [] else rows[0] + Flatten(rows[1..])
  }

  /** The rows of the range, each cut down to the range's columns. */
  function RowSlices(grid: Grid, b: Bounds): seq<seq<string>> {
    var rows := PySlice(grid, b.firstRow - 1, b.lastRow);
    seq(|rows|, k requires 0 <= k < |rows| => PySlice(rows[k], b.firstCol - 1, b.lastCol))
  }

  /** `GSheet.value_range(rng)`: every row slice of the range, extended onto one
      list in order. */
  function ValueRange(grid: Grid, rng: string): (r: Result<seq<string>>)
    ensures r.Ok? <==> ParseRange(rng).Ok?
    ensures r.Err? ==> r.error == ParseRange(rng).error
  {
    var b :- ParseRange(rng);
    Ok(Flatten(RowSlices(grid, b)))
  }

  lemma {:induction false} FlattenMember<T>(rows: seq<seq<T>>, x: T) returns (i: nat, j: nat)
    requires x in Flatten(rows)
    ensures i < |rows| && j < |rows[i]| && rows[i][j] == x
    decreases |rows|
  {
    if x in rows[0] {
      i := 0;
      j :| 0 <= j < |rows[0]| && rows[0][j] == x;
    } else {
      var i', j' := FlattenMember(rows[1..], x);
      i, j := i' + 1, j';
    }
  }

  lemma {:induction false} FlattenLengthBound<T>(rows: seq<seq<T>>, w: nat)
    requires forall i :: 0 <= i < |rows| ==> |rows[i]| <= w
    ensures |Flatten(rows)| <= |rows| * w
    decreases |rows|
  {
    if |rows| > 0 {
      FlattenLengthBound(rows[1..], w);
      MulStep(|rows|, w);
    }
  }

  lemma {:induction false} FlattenUniformLength<T>(rows: seq<seq<T>>, w: nat)
    requires forall i :: 0 <= i < |rows| ==> |rows[i]| == w
    ensures |Flatten(rows)| == |rows| * w
    decreases |rows|
  {
    if |rows| > 0 {
      FlattenUniformLength(rows[1..], w);
      MulStep(|rows|, w);
    }
  }

  /** Concatenating rows of one width `w` lays them out row-major: cell `j` of
      row `i` lands at position `i * w + j`. */
  lemma {:induction false} FlattenUniformAt<T>(rows: seq<seq<T>>, w: nat, i: int, j: int)
    requires forall i :: 0 <= i < |rows| ==> |rows[i]| == w
    requires 0 <= i < |rows| && 0 <= j < w
    ensures 0 <= i * w + j < |Flatten(rows)| && Flatten(rows)[i * w + j] == rows[i][j]
    decreases i
  {
    MulMonotone(0, i, w);
    MulMonotone(0, |rows| - 1, w);
    MulStep(|rows|, w);
    FlattenUniformLength(rows, w);
    FlattenUniformLength(rows[1..], w);
    assert Flatten(rows) == rows[0] + Flatten(rows[1..]);
    if i > 0 {
      FlattenUniformAt(rows[1..], w, i - 1, j);
      MulStep(i, w);
    }
  }

  /** The cells `value_range` returns for the rectangle `b`. */
  function RangeValues(grid: Grid, b: Bounds): seq<string> {
    Flatten(RowSlices(grid, b))
  }

  lemma ValueRangeIsRangeValues(grid: Grid, rng: string)
    ensures ValueRange(grid, rng).Ok? <==> ParseRange(rng).Ok?
    ensures ValueRange(grid, rng).Ok? ==> ValueRange(grid, rng).value == RangeValues(grid, ParseRange(rng).value)
  {
  }

  /** The shape of the row slices of a rectangle whose corners are numbered
      from 1: slice `i` is a column slice of grid row `firstRow - 1 + i`. */
  lemma RowSlicesShape(grid: Grid, b: Bounds)
    requires b.firstRow >= 1 && b.firstCol >= 1 && b.lastRow >= 0 && b.lastCol >= 0
    ensures var slices := RowSlices(grid, b);
            && |slices| <= (if b.lastRow >= b.firstRow then b.lastRow - b.firstRow + 1 else 0)
            && forall i :: 0 <= i < |slices| ==>
                 && b.firstRow - 1 + i < b.lastRow && b.firstRow - 1 + i < |grid|
                 && slices[i] == PySlice(grid[b.firstRow - 1 + i], b.firstCol - 1, b.lastCol)
  {
    var rows := PySlice(grid, b.firstRow - 1, b.lastRow);
    assert forall i :: 0 <= i < |rows| ==> rows[i] == grid[b.firstRow - 1 + i];
  }

  /** Slice `i` of a range is the column slice of grid row `firstRow - 1 + i`. */
  lemma RowSliceAt(grid: Grid, b: Bounds, i: int)
    requires b.firstRow >= 1 && b.firstCol >= 1 && b.lastRow >= 0 && b.lastCol >= 0
    requires 0 <= i < |RowSlices(grid, b)|
    ensures b.firstRow - 1 + i < b.lastRow && b.firstRow - 1 + i < |grid|
    ensures RowSlices(grid, b)[i] == PySlice(grid[b.firstRow - 1 + i], b.firstCol - 1, b.lastCol)
  {
    RowSlicesShape(grid, b);
  }

  /** Peeling one factor off a product. */
  lemma MulStep(a: int, w: int)
    ensures a * w == w + (a - 1) * w
  {
  }

  lemma MulMonotone(a: int, b: int, c: int)
    requires 0 <= a <= b && c >= 0
    ensures a * c <= b * c
  {
  }

  /** Element `k` of a slice with non-negative bounds `i` and `j` is element
      `i + k` of the sequence, and that lies below `j` and inside it. */
  lemma PySliceElement<T>(s: seq<T>, i: int, j: int, k: int)
    requires i >= 0 && j >= 0 && 0 <= k < |PySlice(s, i, j)|
    ensures i + k < j && i + k < |s| && PySlice(s, i, j)[k] == s[i + k]
  {
  }

  /** The number of cells of a range is at most (rows spanned) x (columns spanned). */
  lemma RangeSizeBound(grid: Grid, b: Bounds)
    requires b.firstRow >= 1 && b.firstCol >= 1 && b.lastRow >= 0 && b.lastCol >= 0
    ensures |RangeValues(grid, b)| <= (if b.lastRow >= b.firstRow then b.lastRow - b.firstRow + 1 else 0)
                                      * (if b.lastCol >= b.firstCol then b.lastCol - b.firstCol + 1 else 0)
  {
    var slices := RowSlices(grid, b);
    var h := if b.lastRow >= b.firstRow then b.lastRow - b.firstRow + 1 else 0;
    var w := if b.lastCol >= b.firstCol then b.lastCol - b.firstCol + 1 else 0;
    RowSlicesShape(grid, b);
    forall i | 0 <= i < |slices| ensures |slices[i]| <= w {
      var row := grid[b.firstRow - 1 + i];
      assert slices[i] == PySlice(row, b.firstCol - 1, b.lastCol);
    }
    FlattenLengthBound(slices, w);
    MulMonotone(|slices|, h, w);
  }

  /** Cell `j` of row slice `i` is the grid cell `(firstRow - 1 + i, firstCol - 1 + j)`,
      which lies inside both the grid and the rectangle. */
  lemma RowSliceCell(grid: Grid, b: Bounds, i: int, j: int)
    requires b.firstRow >= 1 && b.firstCol >= 1 && b.lastRow >= 0 && b.lastCol >= 0
    requires 0 <= i < |RowSlices(grid, b)| && 0 <= j < |RowSlices(grid, b)[i]|
    ensures var r, c := b.firstRow - 1 + i, b.firstCol - 1 + j;
            && r < b.lastRow && r < |grid| && c < b.lastCol && c < |grid[r]|
            && RowSlices(grid, b)[i][j] == grid[r][c]
  {
    RowSliceAt(grid, b, i);
    PySliceElement(grid[b.firstRow - 1 + i], b.firstCol - 1, b.lastCol, j);
  }

  /** A cell of a row slice is a grid cell inside the rectangle. */
  lemma SliceCellInside(grid: Grid, b: Bounds, i: int, j: int, x: string)
    requires b.firstRow >= 1 && b.firstCol >= 1 && b.lastRow >= 0 && b.lastCol >= 0
    requires 0 <= i < |RowSlices(grid, b)| && 0 <= j < |RowSlices(grid, b)[i]|
    requires RowSlices(grid, b)[i][j] == x
    ensures exists r, c :: b.firstRow - 1 <= r < b.lastRow && 0 <= r < |grid|
                           && b.firstCol - 1 <= c < b.lastCol && 0 <= c < |grid[r]|
                           && grid[r][c] == x
  {
    RowSliceCell(grid, b, i, j);
    CellInside(grid, b, b.firstRow - 1 + i, b.firstCol - 1 + j, x);
  }

  /** The cell at row `r` and column `c` witnesses a cell of the rectangle holding `x`. */
  lemma CellInside(grid: Grid, b: Bounds, r: int, c: int, x: string)
    requires b.firstRow - 1 <= r < b.lastRow && 0 <= r < |grid|
    requires b.firstCol - 1 <= c < b.lastCol && 0 <= c < |grid[r]| && grid[r][c] == x
    ensures exists r, c :: b.firstRow - 1 <= r < b.lastRow && 0 <= r < |grid|
                           && b.firstCol - 1 <= c < b.lastCol && 0 <= c < |grid[r]|
                           && grid[r][c] == x
  {
  }

  /** `value_range` never reads outside the grid nor outside the requested
      rectangle, and returns at most (rows spanned) x (columns spanned) cells. */
  lemma RangeWithinRectangle(grid: Grid, b: Bounds)
    requires b.firstRow >= 1 && b.firstCol >= 1 && b.lastRow >= 0 && b.lastCol >= 0
    ensures var out := RangeValues(grid, b);
            && |out| <= (if b.lastRow >= b.firstRow then b.lastRow - b.firstRow + 1 else 0)
                        * (if b.lastCol >= b.firstCol then b.lastCol - b.firstCol + 1 else 0)
            && forall x :: x in out ==>
                 exists r, c :: b.firstRow - 1 <= r < b.lastRow && 0 <= r < |grid|
                                && b.firstCol - 1 <= c < b.lastCol && 0 <= c < |grid[r]|
                                && grid[r][c] == x
  {
    RangeSizeBound(grid, b);
    var slices := RowSlices(grid, b);
    forall x | x in Flatten(slices)
      ensures exists r, c :: b.firstRow - 1 <= r < b.lastRow && 0 <= r < |grid|
                             && b.firstCol - 1 <= c < b.lastCol && 0 <= c < |grid[r]|
                             && grid[r][c] == x
    {
      var i, j := FlattenMember(slices, x);
      SliceCellInside(grid, b, i, j, x);
    }
  }

  predicate CoversRectangle(grid: Grid, b: Bounds) {
    && 1 <= b.firstRow <= b.lastRow <= |grid|
    && 1 <= b.firstCol <= b.lastCol
    && forall r :: b.firstRow - 1 <= r < b.lastRow ==> |grid[r]| >= b.lastCol
  }

  lemma PySliceInside<T>(s: seq<T>, i: int, j: int)
    requires 0 <= i <= j <= |s|
    ensures PySlice(s, i, j) == s[i..j]
  {
  }

  lemma RowSlicesCovered(grid: Grid, b: Bounds)
    requires CoversRectangle(grid, b)
    ensures var slices := RowSlices(grid, b);
            && |slices| == b.lastRow - b.firstRow + 1
            && forall i :: 0 <= i < |slices| ==>
                 && |slices[i]| == b.lastCol - b.firstCol + 1
                 && slices[i] == grid[b.firstRow - 1 + i][b.firstCol - 1..b.lastCol]
  {
    var slices := RowSlices(grid, b);
    RowSlicesShape(grid, b);
    PySliceInside(grid, b.firstRow - 1, b.lastRow);
    forall i | 0 <= i < |slices|
      ensures && |slices[i]| == b.lastCol - b.firstCol + 1
              && slices[i] == grid[b.firstRow - 1 + i][b.firstCol - 1..b.lastCol]
    {
      assert |grid[b.firstRow - 1 + i]| >= b.lastCol;
      PySliceInside(grid[b.firstRow - 1 + i], b.firstCol - 1, b.lastCol);
    }
  }

  /** When the grid covers the whole rectangle, `value_range` returns exactly its
      cells, left to right and top to bottom: it holds (rows x columns) cells,
      and the cell `j` columns right of and `i` rows below the top-left corner
      is element `i * width + j` of the result. */
  lemma RangeRowMajor(grid: Grid, b: Bounds, i: int, j: int)
    requires CoversRectangle(grid, b)
    requires 0 <= i < b.lastRow - b.firstRow + 1 && 0 <= j < b.lastCol - b.firstCol + 1
    ensures |RangeValues(grid, b)| == (b.lastRow - b.firstRow + 1) * (b.lastCol - b.firstCol + 1)
    ensures var k := i * (b.lastCol - b.firstCol + 1) + j;
            && 0 <= k < |RangeValues(grid, b)|
            && RangeValues(grid, b)[k] == grid[b.firstRow - 1 + i][b.firstCol - 1 + j]
  {
    var slices, w := RowSlices(grid, b), b.lastCol - b.firstCol + 1;
    var values := RangeValues(grid, b);
    assert values == Flatten(slices);
    RowSlicesWidth(grid, b);
    FlattenUniformLength(slices, w);
    assert |values| == |slices| * w;
    FlattenUniformAt(slices, w, i, j);
    assert values[i * w + j] == slices[i][j];
    RowSliceCell(grid, b, i, j);
  }

  /** Over a covered rectangle there is one row slice per row, each as wide as
      the rectangle. */
  lemma RowSlicesWidth(grid: Grid, b: Bounds)
    requires CoversRectangle(grid, b)
    ensures |RowSlices(grid, b)| == b.lastRow - b.firstRow + 1
    ensures forall i :: 0 <= i < |RowSlices(grid, b)| ==> |RowSlices(grid, b)[i]| == b.lastCol - b.firstCol + 1
  {
    RowSlicesShape(grid, b);
    PySliceInside(grid, b.firstRow - 1, b.lastRow);
    forall i | 0 <= i < |RowSlices(grid, b)|
      ensures |RowSlices(grid, b)[i]| == b.lastCol - b.firstCol + 1
    {
      RowSliceAt(grid, b, i);
      assert |grid[b.firstRow - 1 + i]| >= b.lastCol;
    }
  }

  /** A one-column range over rows that all reach that column reads the column
      top to bottom, as far down as the range goes or the grid reaches,
      whichever ends first. */
  lemma ColumnRange(grid: Grid, b: Bounds)
    requires b.firstRow >= 1 && b.firstCol >= 1 && b.lastCol == b.firstCol && b.lastRow >= 0
    requires forall r :: b.firstRow - 1 <= r < b.lastRow && r < |grid| ==> |grid[r]| >= b.firstCol
    ensures var out := RangeValues(grid, b);
            && |out| == |PySlice(grid, b.firstRow - 1, b.lastRow)|
            && forall i :: 0 <= i < |out| ==> out[i] == grid[b.firstRow - 1 + i][b.firstCol - 1]
  {
    var slices := RowSlices(grid, b);
    RowSlicesShape(grid, b);
    forall i | 0 <= i < |slices|
      ensures |slices[i]| == 1 && slices[i][0] == grid[b.firstRow - 1 + i][b.firstCol - 1]
    {
      var row := grid[b.firstRow - 1 + i];
      PySliceInside(row, b.firstCol - 1, b.lastCol);
    }
    FlattenUniformLength(slices, 1);
    forall i | 0 <= i < |slices|
      ensures Flatten(slices)[i] == grid[b.firstRow - 1 + i][b.firstCol - 1]
    {
      FlattenUniformAt(slices, 1, i, 0);
    }
  }

  lemma FlattenPair<T>(x: seq<T>, y: seq<T>)
    ensures Flatten([x, y]) == x + y
  {
    assert [y][1..] == [];
    assert Flatten([y]) == y + Flatten([y][1..]) == y;
    assert [x, y][1..] == [y];
  }

  lemma SplitA1B2()
    ensures Split("A1:B2", ':') == ["A1", "B2"]
  {
    assert Join(["A1", "B2"], ':') == "A1:B2";
    SplitJoin(["A1", "B2"], ':');
  }

  lemma A1ToRowColExamples()
    ensures A1ToRowCol("A1") == Ok((1, 1))
    ensures A1ToRowCol("B2") == Ok((2, 2))
  {
    TrailingTextIgnored("A", "1", "");
    assert "A" + "1" + "" == "A1";
    TrailingTextIgnored("B", "2", "");
    assert "B" + "2" + "" == "B2";
    assert "1"[..0] == "" && "2"[..0] == "";
    assert Upper("A") == "A" && Upper("B") == "B";
    assert DecimalValue("1") == 1 && DecimalValue("2") == 2;
    assert Letter2Num("A", false) == 1 && Letter2Num("B", false) == 2;
  }

  lemma ParseA1B2()
    ensures ParseRange("A1:B2") == Ok(Bounds(1, 1, 2, 2))
  {
    SplitA1B2();
    A1ToRowColExamples();
  }

  lemma RangeValuesExample(grid: Grid)
    requires grid == [["a", "b"], ["c", "d"]]
    ensures RangeValues(grid, Bounds(1, 1, 2, 2)) == ["a", "b", "c", "d"]
  {
    TwoByTwoRange(grid);
    assert grid[0] + grid[1] == ["a", "b", "c", "d"];
  }

  /** The range of rows 1 to 2 and columns 1 to 2 of a two-by-two grid is its
      first row followed by its second. */
  lemma TwoByTwoRange(grid: Grid)
    requires |grid| == 2 && |grid[0]| == 2 && |grid[1]| == 2
    ensures RangeValues(grid, Bounds(1, 1, 2, 2)) == grid[0] + grid[1]
  {
    TwoByTwoSlices(grid);
    FlattenPair(grid[0], grid[1]);
  }

  lemma TwoByTwoSlices(grid: Grid)
    requires |grid| == 2 && |grid[0]| == 2 && |grid[1]| == 2
    ensures RowSlices(grid, Bounds(1, 1, 2, 2)) == [grid[0], grid[1]]
  {
    var b := Bounds(1, 1, 2, 2);
    assert CoversRectangle(grid, b);
    RowSlicesCovered(grid, b);
    var slices := RowSlices(grid, b);
    assert slices[0] == grid[0][0..2] == grid[0];
    assert slices[1] == grid[1][0..2] == grid[1];
  }

  /** `value_range` on a range that parses to a rectangle the grid covers
      lists the rectangle's cells row by row: the cell i rows below and j
      columns right of the top-left corner is element i × width + j.
      `ParseRangeOf` says which ranges parse, and to which bounds. */
  lemma ValueRangeRowMajor(grid: Grid, rng: string, b: Bounds, i: int, j: int)
    requires ParseRange(rng) == Ok(b) && CoversRectangle(grid, b)
    requires 0 <= i < b.lastRow - b.firstRow + 1 && 0 <= j < b.lastCol - b.firstCol + 1
    ensures var v, k := ValueRange(grid, rng), i * (b.lastCol - b.firstCol + 1) + j;
            && v.Ok?
            && |v.value| == (b.lastRow - b.firstRow + 1) * (b.lastCol - b.firstCol + 1)
            && 0 <= k < |v.value|
            && v.value[k] == grid[b.firstRow - 1 + i][b.firstCol - 1 + j]
  {
    ValueRangeIsRangeValues(grid, rng);
    RangeRowMajor(grid, b, i, j);
  }

  /** `value_range` on a range that parses and starts at row 1 or below
      returns at most the rectangle's cell count, and only cells inside both
      the grid and the rectangle. */
  lemma ValueRangeWithinRectangle(grid: Grid, rng: string, b: Bounds)
    requires ParseRange(rng) == Ok(b) && b.firstRow >= 1
    ensures var v := ValueRange(grid, rng);
            && v.Ok?
            && |v.value| <= (if b.lastRow >= b.firstRow then b.lastRow - b.firstRow + 1 else 0)
                            * (if b.lastCol >= b.firstCol then b.lastCol - b.firstCol + 1 else 0)
            && forall x :: x in v.value ==>
                 exists r, c :: b.firstRow - 1 <= r < b.lastRow && 0 <= r < |grid|
                                && b.firstCol - 1 <= c < b.lastCol && 0 <= c < |grid[r]|
                                && grid[r][c] == x
  {
    ValueRangeIsRangeValues(grid, rng);
    RangeWithinRectangle(grid, b);
  }


  /** The range `A1:B2` of the grid `a b / c d` reads `a, b, c, d`. */
  lemma ValueRangeExample(grid: Grid)
    requires grid == [["a", "b"], ["c", "d"]]
    ensures ValueRange(grid, "A1:B2") == Ok(["a", "b", "c", "d"])
  {
    ParseA1B2();
    RangeValuesExample(grid);
    ValueRangeIsRangeValues(grid, "A1:B2");
  }
}
