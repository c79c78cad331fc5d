/**
 * The schedule CSV cleaner: locate the "Session" header row in a raw grid of
 * cells, normalise the header names, drop everything up to the header, drop
 * rows with a blank `Class` cell, and turn the rest into header-to-cell records.
 *
 * The raw CSV is a grid of string cells as a header-less pandas read gives it:
 * every row has the same width, at least one. Whitespace is the ASCII set that
 * Python's `str.strip()` removes (code points 9 to 13 and 28 to 32).
 */
module ScheduleParser {
  import opened Wrappers
  import opened Sequences

  type Cell = string

  /** A header-less DataFrame's cells: rectangular, at least one column. */
  predicate IsFrameGrid(grid: seq<seq<Cell>>) {
    forall i :: 0 <= i < |grid| ==> |grid[i]| == |grid[0]| >= 1
  }

  /** The cleaned table: the normalised header names and the kept data rows. */
  datatype Frame = Frame(columns: seq<string>, rows: seq<seq<Cell>>)

  predicate WellFormed(frame: Frame) {
    forall row :: row in frame.rows ==> |row| == |frame.columns|
  }

  datatype CleanError =
    | NoHeaderRow          // no row starts with "Session"
    | MissingClassColumn   // `df["Class"]` finds no column
    | DuplicateClassColumn // `df["Class"]` selects several columns, which have no `.str`

  predicate IsWhitespace(c: char) {
    9 <= c as int <= 13 || 28 <= c as int <= 32
  }

  /** `s.lstrip()`. */
  function StripStart(s: string): (r: string)
    ensures |r| <= |s| && r == s[|s| - |r|..]
    ensures forall i :: 0 <= i < |s| - |r| ==> IsWhitespace(s[i])
    ensures r == [] || !IsWhitespace(r[0])
    decreases |s|
  {
    if s != [] && IsWhitespace(s[0]) then StripStart(s[1..]) else s
  }

  /** `s.rstrip()`. */
  function StripEnd(s: string): (r: string)
    ensures |r| <= |s| && r == s[..|r|]
    ensures forall i :: |r| <= i < |s| ==> IsWhitespace(s[i])
    ensures r == [] || !IsWhitespace(r[|r| - 1])
    decreases |s|
  {
    if s != [] && IsWhitespace(s[|s| - 1]) then StripEnd(s[..|s| - 1]) else s
  }

  /** `r` is the piece of `s` at position `i`, and everything around it is whitespace. */
  predicate TrimmedAt(s: string, r: string, i: int) {
    0 <= i && i + |r| <= |s| && r == s[i..i + |r|] &&
    (forall k :: 0 <= k < i ==> IsWhitespace(s[k])) &&
    (forall k :: i + |r| <= k < |s| ==> IsWhitespace(s[k]))
  }

  /** `s.strip()`: a contiguous piece of `s` with only whitespace cut off either end. */
  function Strip(s: string): (r: string)
    ensures exists i :: TrimmedAt(s, r, i)
    ensures r == [] || (!IsWhitespace(r[0]) && !IsWhitespace(r[|r| - 1]))
  {
    var t := StripStart(s);
    var r := StripEnd(t);
    TrimmedPieces(s, t, r);
    r
  }

  /** A whitespace-only prefix cut, then a whitespace-only suffix cut, leave a trimmed piece. */
  lemma TrimmedPieces(s: string, t: string, r: string)
    requires |t| <= |s| && t == s[|s| - |t|..]
    requires forall k :: 0 <= k < |s| - |t| ==> IsWhitespace(s[k])
    requires |r| <= |t| && r == t[..|r|]
    requires forall k :: |r| <= k < |t| ==> IsWhitespace(t[k])
    ensures TrimmedAt(s, r, |s| - |t|)
  {
    var i := |s| - |t|;
    assert forall k :: i <= k < |s| ==> s[k] == t[k - i];
    assert s[i..i + |r|] == t[..|r|];
  }

  /** A string with no whitespace at either end is left as it is. */
  lemma StripUnchanged(s: string)
    requires s == [] || (!IsWhitespace(s[0]) && !IsWhitespace(s[|s| - 1]))
    ensures Strip(s) == s
  {
    assert StripStart(s) == s;
    assert StripEnd(s) == s;
  }

  lemma StripIdempotent(s: string)
    ensures Strip(Strip(s)) == Strip(s)
  {
    StripUnchanged(Strip(s));
  }

  /** `s.replace(" ", "_")`. */
  function ReplaceSpaces(s: string): (r: string)
    ensures |r| == |s| && ' ' !in r
    ensures forall i :: 0 <= i < |s| ==> r[i] == (if s[i] == ' ' then '_' else s[i])
  {
    seq(|s|, i requires 0 <= i < |s| => if s[i] == ' ' then '_' else s[i])
  }

  /** `h.strip().replace(" ", "_")`. */
  function NormalizeHeader(h: string): string {
    ReplaceSpaces(Strip(h))
  }

  /** A normalised header has no space, no surrounding whitespace, and is stable under normalising again. */
  lemma NormalizeHeaderProperties(h: string)
    ensures ' ' !in NormalizeHeader(h)
    ensures var n := NormalizeHeader(h); n == [] || (!IsWhitespace(n[0]) && !IsWhitespace(n[|n| - 1]))
    ensures NormalizeHeader(NormalizeHeader(h)) == NormalizeHeader(h)
  {
    var t := Strip(h);
    ReplaceSpacesKeepsEnds(t);
    var n := ReplaceSpaces(t);
    StripUnchanged(n);
    ReplaceSpacesWithoutSpace(n);
  }

  /** Replacing spaces cannot put whitespace at an end that had none, since a space is whitespace. */
  lemma ReplaceSpacesKeepsEnds(t: string)
    requires t == [] || (!IsWhitespace(t[0]) && !IsWhitespace(t[|t| - 1]))
    ensures var n := ReplaceSpaces(t); n == [] || (!IsWhitespace(n[0]) && !IsWhitespace(n[|n| - 1]))
  {
  }

  /** A string without spaces is left as it is. */
  lemma ReplaceSpacesWithoutSpace(n: string)
    requires ' ' !in n
    ensures ReplaceSpaces(n) == n
  {
    assert forall i :: 0 <= i < |n| ==> n[i] != ' ';
  }

  /** The header list comprehension: one normalised name per header cell, in column order. */
  function NormalizeHeaders(headers: seq<string>): (r: seq<string>)
    ensures |r| == |headers|
    ensures forall i :: 0 <= i < |r| ==> r[i] == ReplaceSpaces(Strip(headers[i]))
    ensures forall i :: 0 <= i < |r| ==> ' ' !in r[i]
  {
    seq(|headers|, i requires 0 <= i < |headers| => NormalizeHeader(headers[i]))
  }

  /** `str(row[0]).strip() == "Session"`. */
  predicate IsHeaderRow(row: seq<Cell>) {
    |row| > 0 && Strip(row[0]) == "Session"
  }

  /** Row `h` is the first header row of the grid. */
  predicate IsFirstHeader(grid: seq<seq<Cell>>, h: int) {
    0 <= h < |grid| && IsHeaderRow(grid[h]) && forall j :: 0 <= j < h ==> !IsHeaderRow(grid[j])
  }

  /** There is at most one first header row. */
  lemma FirstHeaderUnique(grid: seq<seq<Cell>>, h1: int, h2: int)
    requires IsFirstHeader(grid, h1) && IsFirstHeader(grid, h2)
    ensures h1 == h2
  {
  }

  /** The loop that scans for the header row and stops at the first match. */
  method FindHeaderRow(grid: seq<seq<Cell>>) returns (headerIndex: Option<nat>)
    ensures headerIndex.Some? ==> IsFirstHeader(grid, headerIndex.value)
    ensures headerIndex.None? <==> forall j :: 0 <= j < |grid| ==> !IsHeaderRow(grid[j])
  {
    headerIndex := None;
    var i := 0;
    while i < |grid|
      invariant 0 <= i <= |grid|
      invariant forall j :: 0 <= j < i ==> !IsHeaderRow(grid[j])
    {
      if IsHeaderRow(grid[i]) {
        headerIndex := Some(i);
        break;
      }
      i := i + 1;
    }
  }

  /** The position of the first occurrence of `name`. */
  function FirstIndex(names: seq<string>, name: string): (r: Option<nat>)
    ensures r.None? <==> name !in names
    ensures r.Some? ==> r.value < |names| && names[r.value] == name && name !in names[..r.value]
    decreases names
  {
    if names == [] then None
    else if names[0] == name then Some(0)
    else match FirstIndex(names[1..], name)
      case None => None
      case Some(k) =>
        assert names[..k + 1] == [names[0]] + names[1..][..k];
        Some(k + 1)
  }

  /** `df["Class"]`: the one column named "Class", or the error pandas raises. */
  function ClassColumn(columns: seq<string>): (r: Result<nat, CleanError>)
    ensures r.Success? ==>
      && r.value < |columns| && columns[r.value] == "Class"
      && forall j :: 0 <= j < |columns| && j != r.value ==> columns[j] != "Class"
    ensures r == Failure(MissingClassColumn) <==> "Class" !in columns
    ensures r == Failure(DuplicateClassColumn) <==>
      exists i, j :: 0 <= i < j < |columns| && columns[i] == "Class" && columns[j] == "Class"
    ensures r.Failure? ==> r.error != NoHeaderRow
  {
    match FirstIndex(columns, "Class")
    case None => Failure(MissingClassColumn)
    case Some(k) =>
      if "Class" in columns[k + 1..] then
        Failure(DuplicateClassColumn)
      else
        assert forall j :: 0 <= j < k ==> columns[j] in columns[..k];
        assert forall j :: k < j < |columns| ==> columns[j] in columns[k + 1..];
        Success(k)
  }

  /** The test `df["Class"].str.strip() != ""` on one row. */
  predicate ClassFilled(row: seq<Cell>, column: nat) {
    column < |row| && Strip(row[column]) != ""
  }

  function HasClass(column: nat): seq<Cell> -> bool {
    (row: seq<Cell>) => ClassFilled(row, column)
  }

  /** Everything after the header row is found: lines 21 to 31 of the cleaner for header row `h`. */
  function CleanBelow(grid: seq<seq<Cell>>, h: nat): (r: Result<Frame, CleanError>)
    requires IsFrameGrid(grid) && h < |grid|
    ensures r.Failure? <==> ClassColumn(NormalizeHeaders(grid[h])).Failure?
    ensures r.Failure? ==> r.error == ClassColumn(NormalizeHeaders(grid[h])).error
    ensures r.Success? ==> r.value.columns == NormalizeHeaders(grid[h]) && WellFormed(r.value)
    ensures r.Success? ==>
      var c := ClassColumn(r.value.columns).value;
      && IsSubsequence(r.value.rows, grid[h + 1..])
      && forall row :: row in r.value.rows <==> row in grid[h + 1..] && ClassFilled(row, c)
  {
    var columns := NormalizeHeaders(grid[h]);
    var below := grid[h + 1..];
    match ClassColumn(columns)
    case Failure(e) => Failure(e)
    case Success(c) =>
      var kept := Select(below, HasClass(c));
      SelectIsSubsequence(below, HasClass(c));
      assert forall row :: row in kept ==> row in below;
      assert forall i :: h < i < |grid| ==> grid[i] == below[i - h - 1];
      assert forall row :: row in below ==> |row| == |columns|;
      Success(Frame(columns, kept))
  }

  /** `load_clean_csv` on an already read grid. */
  method LoadCleanCsv(grid: seq<seq<Cell>>) returns (r: Result<Frame, CleanError>)
    requires IsFrameGrid(grid)
    ensures r == Failure(NoHeaderRow) <==> forall j :: 0 <= j < |grid| ==> !IsHeaderRow(grid[j])
    ensures forall h :: IsFirstHeader(grid, h) ==> r == CleanBelow(grid, h)
  {
    var headerIndex := FindHeaderRow(grid);
    if headerIndex.None? {
      return Failure(NoHeaderRow);
    }
    var h := headerIndex.value;
    forall h' | IsFirstHeader(grid, h')
      ensures h' == h
    {
      FirstHeaderUnique(grid, h, h');
    }
    var headers := NormalizeHeaders(grid[h]);
    var rows := grid[h + 1..];
    var classColumn := ClassColumn(headers);
    if classColumn.Failure? {
      return Failure(classColumn.error);
    }
    rows := Select(rows, HasClass(classColumn.value));
    r := Success(Frame(headers, rows));
    CleanBelowSteps(grid, h);
  }

  /** The steps of the cleaner after the header search, one at a time. */
  lemma CleanBelowSteps(grid: seq<seq<Cell>>, h: nat)
    requires IsFrameGrid(grid) && h < |grid|
    ensures var columns := NormalizeHeaders(grid[h]);
      CleanBelow(grid, h) == match ClassColumn(columns)
        case Failure(e) => Failure(e)
        case Success(c) => Success(Frame(columns, Select(grid[h + 1..], HasClass(c))))
  {
  }

  /** Later rows that start with "Session" are data rows like any other. */
  lemma LaterSessionRowsAreData(grid: seq<seq<Cell>>, h: nat, k: nat)
    requires IsFrameGrid(grid) && IsFirstHeader(grid, h) && h < k < |grid|
    ensures CleanBelow(grid, h).Success? ==>
      var f := CleanBelow(grid, h).value;
      grid[k] in f.rows <==> ClassFilled(grid[k], ClassColumn(f.columns).value)
  {
    assert grid[k] == grid[h + 1..][k - h - 1];
  }

  /** Every copy of a kept row survives: a row occurs in the result as often as below the header, or not at all. */
  lemma CleanBelowKeepsCopies(grid: seq<seq<Cell>>, h: nat)
    requires IsFrameGrid(grid) && h < |grid|
    ensures CleanBelow(grid, h).Success? ==>
      var f := CleanBelow(grid, h).value;
      forall row :: multiset(f.rows)[row] ==
        if ClassFilled(row, ClassColumn(f.columns).value) then multiset(grid[h + 1..])[row] else 0
  {
    CleanBelowSteps(grid, h);
    var columns := NormalizeHeaders(grid[h]);
    if ClassColumn(columns).Success? {
      SelectCount(grid[h + 1..], HasClass(ClassColumn(columns).value));
    }
  }

  /** The kept rows never outnumber the rows below the header. */
  lemma CleanBelowCount(grid: seq<seq<Cell>>, h: nat)
    requires IsFrameGrid(grid) && h < |grid|
    ensures CleanBelow(grid, h).Success? ==> |CleanBelow(grid, h).value.rows| <= |grid| - h - 1
  {
    var columns := NormalizeHeaders(grid[h]);
    if ClassColumn(columns).Success? {
      CleanBelowSteps(grid, h);
      var below := grid[h + 1..];
      var kept := Select(below, HasClass(ClassColumn(columns).value));
      assert CleanBelow(grid, h).value.rows == kept;
      assert |kept| <= |below|;
    }
  }

  /**
   * `dict(zip(columns, row))`: one entry per distinct column name; a name that
   * occurs more than once takes the cell of its last occurrence, since later
   * pairs overwrite earlier ones.
   */
  function Record(columns: seq<string>, row: seq<Cell>): (m: map<string, Cell>)
    requires |row| == |columns|
    ensures forall c :: c in m <==> c in columns
    ensures forall k :: 0 <= k < |columns| && columns[k] !in columns[k + 1..] ==> m[columns[k]] == row[k]
    decreases |columns|
  {
    if columns == [] then map[]
    else
      var rest := Record(columns[1..], row[1..]);
      assert forall k :: 1 <= k < |columns| ==> columns[1..][k - 1] == columns[k] && columns[1..][k..] == columns[k + 1..];
      if columns[0] in rest then rest else rest[columns[0] := row[0]]
  }

  /** With distinct column names every record maps each column to the cell at its position. */
  lemma RecordDistinct(columns: seq<string>, row: seq<Cell>, k: nat)
    requires |row| == |columns| && k < |columns|
    requires forall i, j :: 0 <= i < j < |columns| ==> columns[i] != columns[j]
    ensures Record(columns, row)[columns[k]] == row[k]
  {
    var later := columns[k + 1..];
    assert forall j :: 0 <= j < |later| ==> later[j] == columns[k + 1 + j];
  }

  /** `df_to_json`: one record per kept row, in row order. */
  function DfToJson(frame: Frame): (records: seq<map<string, Cell>>)
    requires WellFormed(frame)
    ensures |records| == |frame.rows|
    ensures forall i, c :: 0 <= i < |records| ==> (c in records[i] <==> c in frame.columns)
    ensures forall i, k :: 0 <= i < |records| && 0 <= k < |frame.columns| && frame.columns[k] !in frame.columns[k + 1..] ==>
      frame.columns[k] in records[i] && records[i][frame.columns[k]] == frame.rows[i][k]
  {
    assert forall i :: 0 <= i < |frame.rows| ==> frame.rows[i] in frame.rows;
    seq(|frame.rows|, i requires 0 <= i < |frame.rows| => Record(frame.columns, frame.rows[i]))
  }
}
