/**
 * The exam table's presentation pipeline: the check/uncheck toggle on the
 * ordered list of checked rows, the case-insensitive search over three text
 * fields, and the arrangement that pins checked rows above the search results.
 *
 * The component's React state (`checkedItems`, `filter`) is threaded through
 * these functions as plain values. Rows are compared by identity: a row's `id`
 * stands for the JavaScript object it is, so two rows with equal text but
 * different ids are different rows.
 */
module ExamTable {
  import opened Sequences

  type RowId = nat

  /** One exam entry; `classCode` is the entry's `class` field. */
  datatype Row = Row(
    id: RowId,
    classCode: string,
    courseTitle: string,
    instructor: string,
    day: string,
    date: string,
    startTime: string,
    endTime: string,
    room: string)

  /** `checkedItems.includes(item)`: some checked row is this very row. Also the checkbox state. */
  predicate IsChecked(checked: seq<Row>, item: Row) {
    exists x :: x in checked && x.id == item.id
  }

  /** No row occurs twice. */
  predicate DistinctIds(rows: seq<Row>) {
    forall i, j :: 0 <= i < j < |rows| ==> rows[i].id != rows[j].id
  }

  /** The test `i !== item`. */
  function IsNot(item: Row): Row -> bool {
    (x: Row) => x.id != item.id
  }

  /** The test `!checkedItems.includes(item)`. */
  function NotChecked(checked: seq<Row>): Row -> bool {
    (x: Row) => !IsChecked(checked, x)
  }

  /** `prev.filter((i) => i !== item)`: the checked list without the row. */
  function Uncheck(checked: seq<Row>, item: Row): seq<Row> {
    Select(checked, IsNot(item))
  }

  /** The updater passed by `handleCheck`: remove the row if it is checked, else append it. */
  function Toggle(checked: seq<Row>, item: Row): (r: seq<Row>)
    ensures IsChecked(r, item) <==> !IsChecked(checked, item)
    ensures forall x: Row :: x.id != item.id ==> (IsChecked(r, x) <==> IsChecked(checked, x))
    ensures !IsChecked(checked, item) ==> r == checked + [item]
    ensures IsChecked(checked, item) ==> IsSubsequence(r, checked) && |r| < |checked|
  {
    if IsChecked(checked, item) then
      SelectIsSubsequence(checked, IsNot(item));
      Uncheck(checked, item)
    else
      assert item in checked + [item];
      checked + [item]
  }

  lemma {:induction false} SelectKeepsDistinctIds(s: seq<Row>, keep: Row -> bool)
    requires DistinctIds(s)
    ensures DistinctIds(Select(s, keep))
    decreases s
  {
    if s != [] {
      SelectKeepsDistinctIds(s[1..], keep);
      if keep(s[0]) {
        var rest := Select(s[1..], keep);
        forall j | 0 <= j < |rest|
          ensures rest[j].id != s[0].id
        {
          assert rest[j] in s[1..];
          var k :| 0 <= k < |s[1..]| && s[1..][k] == rest[j];
          assert s[k + 1] == rest[j];
        }
      }
    }
  }

  /** Toggling keeps a duplicate-free checked list duplicate-free. */
  lemma ToggleKeepsDistinct(checked: seq<Row>, item: Row)
    requires DistinctIds(checked)
    ensures DistinctIds(Toggle(checked, item))
  {
    if IsChecked(checked, item) {
      SelectKeepsDistinctIds(checked, IsNot(item));
    } else {
      forall i | 0 <= i < |checked|
        ensures checked[i].id != item.id
      {
        assert checked[i] in checked;
      }
    }
  }

  /** Checking a row and unchecking it again restores the list. */
  lemma ToggleTwiceRestores(checked: seq<Row>, item: Row)
    requires !IsChecked(checked, item)
    ensures Toggle(Toggle(checked, item), item) == checked
  {
    SelectAppend(checked, [item], IsNot(item));
    assert Select([item], IsNot(item)) == [];
  }

  /** Unchecking a row and checking it again moves it to the end of the list. */
  lemma ToggleTwiceMovesToEnd(checked: seq<Row>, item: Row)
    requires IsChecked(checked, item)
    ensures Toggle(Toggle(checked, item), item) == Uncheck(checked, item) + [item]
    ensures Toggle(Toggle(checked, item), item) == checked <==> |checked| > 0 && checked[|checked| - 1] == item && !IsChecked(checked[..|checked| - 1], item)
  {
    var u := Uncheck(checked, item);
    assert Toggle(checked, item) == u;
    assert !IsChecked(u, item);
    assert Toggle(u, item) == u + [item];
    MovedBackIsSame(checked, item);
  }

  /** Moving the row to the end leaves the list as it was exactly when it already was last, once. */
  lemma MovedBackIsSame(checked: seq<Row>, item: Row)
    ensures Uncheck(checked, item) + [item] == checked <==> |checked| > 0 && checked[|checked| - 1] == item && !IsChecked(checked[..|checked| - 1], item)
  {
    var n := |checked|;
    var u := Uncheck(checked, item);
    if n > 0 && checked[n - 1] == item && !IsChecked(checked[..n - 1], item) {
      assert checked == checked[..n - 1] + [item];
      UncheckLast(checked[..n - 1], item);
    }
    if u + [item] == checked {
      assert checked[..n - 1] == u;
      assert !IsChecked(u, item);
    }
  }

  /** Unchecking the row that was appended last to a list without it gives back that list. */
  lemma UncheckLast(prefix: seq<Row>, item: Row)
    requires !IsChecked(prefix, item)
    ensures Uncheck(prefix + [item], item) == prefix
  {
    SelectAppend(prefix, [item], IsNot(item));
    assert Select(prefix, IsNot(item)) == prefix;
    assert Select([item], IsNot(item)) == [];
  }

  /** ASCII lower case of one character. */
  function LowerChar(c: char): char {
    if 'A' <= c <= 'Z' then (c as int + 32) as char else c
  }

  /** `toLowerCase`, restricted to the ASCII letters. */
  function Lower(s: string): (r: string)
    ensures |r| == |s|
    ensures forall i :: 0 <= i < |r| ==> !('A' <= r[i] <= 'Z')
    ensures forall i :: 0 <= i < |r| ==> r[i] == s[i] || ('A' <= s[i] <= 'Z' && r[i] as int == s[i] as int + 32)
  {
    seq(|s|, i requires 0 <= i < |s| => LowerChar(s[i]))
  }

  lemma LowerIdempotent(s: string)
    ensures Lower(Lower(s)) == Lower(s)
  {
  }

  /** `hay.includes(needle)`: the needle occurs at some position of the hay. */
  predicate Includes(hay: string, needle: string)
    decreases |hay|
  {
    needle <= hay || (hay != [] && Includes(hay[1..], needle))
  }

  /** The needle occurs in the hay starting at position `k`. */
  predicate OccursAt(hay: string, needle: string, k: int) {
    0 <= k && k + |needle| <= |hay| && hay[k..k + |needle|] == needle
  }

  /** `Includes` agrees with the positional definition of a substring. */
  lemma {:induction false} IncludesAt(hay: string, needle: string)
    ensures Includes(hay, needle) <==> exists k :: OccursAt(hay, needle, k)
    decreases |hay|
  {
    if needle <= hay {
      assert OccursAt(hay, needle, 0);
    } else if hay != [] {
      IncludesAt(hay[1..], needle);
      if exists k :: OccursAt(hay, needle, k) {
        var k :| OccursAt(hay, needle, k);
        if k > 0 {
          ShiftOccurrence(hay, needle, k - 1);
        }
      }
      if Includes(hay[1..], needle) {
        var k :| OccursAt(hay[1..], needle, k);
        ShiftOccurrence(hay, needle, k);
      }
    }
  }

  /** An occurrence in the tail of the hay is an occurrence one position later in the hay. */
  lemma ShiftOccurrence(hay: string, needle: string, k: nat)
    requires hay != []
    ensures OccursAt(hay[1..], needle, k) <==> OccursAt(hay, needle, k + 1)
  {
    if k + |needle| <= |hay| - 1 {
      assert hay[1..][k..k + |needle|] == hay[k + 1..k + 1 + |needle|];
    }
  }

  /** The search test of `filteredData`. */
  predicate Matches(row: Row, query: string) {
    var q := Lower(query);
    Includes(Lower(row.instructor), q) || Includes(Lower(row.classCode), q) || Includes(Lower(row.courseTitle), q)
  }

  function MatchesQuery(query: string): Row -> bool {
    (row: Row) => Matches(row, query)
  }

  /** `filteredData`: the rows the search keeps. */
  function Search(rows: seq<Row>, query: string): (r: seq<Row>)
    ensures forall x :: x in r <==> x in rows && Matches(x, query)
  {
    Select(rows, MatchesQuery(query))
  }

  /** A row passes the search iff the lower-cased query occurs in one of its three lower-cased fields. */
  lemma MatchesAt(row: Row, query: string)
    ensures Matches(row, query) <==>
      (exists k :: OccursAt(Lower(row.instructor), Lower(query), k)) ||
      (exists k :: OccursAt(Lower(row.classCode), Lower(query), k)) ||
      (exists k :: OccursAt(Lower(row.courseTitle), Lower(query), k))
  {
    IncludesAt(Lower(row.instructor), Lower(query));
    IncludesAt(Lower(row.classCode), Lower(query));
    IncludesAt(Lower(row.courseTitle), Lower(query));
  }

  /** The search keeps rows in their order. */
  lemma SearchIsSubsequence(rows: seq<Row>, query: string)
    ensures IsSubsequence(Search(rows, query), rows)
  {
    SelectIsSubsequence(rows, MatchesQuery(query));
  }

  /** An empty search box shows every row, in order. */
  lemma SearchEmptyQuery(rows: seq<Row>)
    ensures Search(rows, "") == rows
  {
    forall x | x in rows
      ensures Matches(x, "")
    {
      assert Includes(Lower(x.instructor), Lower(""));
    }
  }

  /** Searching the search result again with the same query changes nothing. */
  lemma SearchIdempotent(rows: seq<Row>, query: string)
    ensures Search(Search(rows, query), query) == Search(rows, query)
  {
    SelectIdempotent(rows, MatchesQuery(query));
  }

  /** `sortedData`: the checked rows in check order, then the unchecked search results. */
  function Arrange(checked: seq<Row>, filtered: seq<Row>): (r: seq<Row>)
    ensures |checked| <= |r| <= |checked| + |filtered|
    ensures r[..|checked|] == checked
    ensures forall i :: 0 <= i < |r| ==> (IsChecked(checked, r[i]) <==> i < |checked|)
    ensures forall x :: x in r <==> x in checked || (x in filtered && !IsChecked(checked, x))
  {
    var rest := Select(filtered, NotChecked(checked));
    var r := checked + rest;
    assert forall i :: 0 <= i < |checked| ==> r[i] == checked[i] && r[i] in checked;
    assert forall i :: |checked| <= i < |r| ==> r[i] == rest[i - |checked|] && r[i] in rest;
    r
  }

  /** Every checked row is listed above every unchecked row. */
  lemma CheckedRowsFirst(checked: seq<Row>, filtered: seq<Row>)
    ensures var r := Arrange(checked, filtered);
      forall i, j :: 0 <= i < |r| && 0 <= j < |r| && IsChecked(checked, r[i]) && !IsChecked(checked, r[j]) ==> i < j
  {
  }

  /** The unchecked part of the display keeps the search order. */
  lemma ArrangeKeepsSearchOrder(checked: seq<Row>, filtered: seq<Row>)
    ensures IsSubsequence(Arrange(checked, filtered)[|checked|..], filtered)
  {
    SelectIsSubsequence(filtered, NotChecked(checked));
    assert Arrange(checked, filtered)[|checked|..] == Select(filtered, NotChecked(checked));
  }

  /** With duplicate-free inputs no row is shown twice, and only already-checked results are dropped. */
  lemma ArrangeDistinct(checked: seq<Row>, filtered: seq<Row>)
    requires DistinctIds(checked) && DistinctIds(filtered)
    ensures DistinctIds(Arrange(checked, filtered))
    ensures |Arrange(checked, filtered)| <= |checked| + |filtered|
    ensures |Arrange(checked, filtered)| == |checked| + |filtered| <==> forall x :: x in filtered ==> !IsChecked(checked, x)
  {
    var rest := Select(filtered, NotChecked(checked));
    SelectKeepsDistinctIds(filtered, NotChecked(checked));
    AppendDistinct(checked, rest);
    assert Arrange(checked, filtered) == checked + rest;
  }

  /** Two duplicate-free lists with no row in common make a duplicate-free list. */
  lemma AppendDistinct(a: seq<Row>, b: seq<Row>)
    requires DistinctIds(a) && DistinctIds(b)
    requires forall x :: x in b ==> !IsChecked(a, x)
    ensures DistinctIds(a + b)
  {
    var r := a + b;
    forall i, j | 0 <= i < j < |r|
      ensures r[i].id != r[j].id
    {
      if j < |a| {
        assert r[i] == a[i] && r[j] == a[j];
      } else if i >= |a| {
        assert r[i] == b[i - |a|] && r[j] == b[j - |a|];
      } else {
        assert r[i] in a;
        assert r[j] in b;
      }
    }
  }

  /** The displayed list for a data set, a search query and a checked list. */
  function Display(rows: seq<Row>, query: string, checked: seq<Row>): seq<Row> {
    Arrange(checked, Search(rows, query))
  }

  /** A row is shown iff it is checked, or it is an unchecked row that passes the search. */
  lemma DisplayShows(rows: seq<Row>, query: string, checked: seq<Row>, x: Row)
    ensures x in Display(rows, query, checked) <==>
      x in checked || (x in rows && Matches(x, query) && !IsChecked(checked, x))
  {
  }

  /** With nothing checked and an empty search box, the display is the data in order. */
  lemma DisplayInitially(rows: seq<Row>)
    ensures Display(rows, "", []) == rows
  {
    SearchEmptyQuery(rows);
  }
}
