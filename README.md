# NYIT finals exam scheduler: a verified model of its core

This project models the logic of an exam-schedule viewer in Dafny. The viewer
shows a table of final exams in the browser. It has three parts with real
logic, and each one is a module here:

- **ExamTable** (`src/assets/Table.jsx`). This is the table's presentation
  pipeline. A check/uncheck toggle maintains an ordered list of checked rows. A
  case-insensitive search keeps the rows whose instructor, class or course
  title contains the query. The display list pins the checked rows, in the
  order they were checked, above the unchecked search results. The React state
  (`checkedItems`, `filter`) is passed through pure functions as plain values.
  Rows are compared by identity, not by content: each `Row` carries an `id`
  that stands for the JavaScript object, and `includes` and `!==` compare ids.
- **ScheduleParser** (`parser.py`). This is the CSV cleaner that produces the
  exam data. The raw CSV is a grid of string cells. The cleaner finds the first
  row whose first cell, stripped, is `Session`, and normalises those header
  names. It drops every row up to and including the header, drops rows whose
  `Class` cell is blank, and turns the remaining rows into header-to-cell
  records. The header search is a loop, so it is a method with an invariant.
  The other steps are functions.
- **ExamCache** (`src/cacheUtils.js`). This is a cache of the exam data,
  stored under two keys of the browser's local store and valid for one hour.
  The store is a `Storage` class with a map field. The clock is a `now`
  parameter, and the fetch is an injected outcome (`Fetched(data)` or
  `FetchFailed`). `parseInt` and `Number.toString` are modelled on strings, so
  the timestamp round trip is proved rather than assumed.

`Sequences.Select` is the one order-preserving filter. It models both
`Array.prototype.filter` and the pandas boolean-mask row selection.
`Wrappers` holds `Option` (for `null`) and `Result` (for the cleaner's errors).

Some facts about the code that the model follows:

- the search has no campus filter;
- there is no sorting and no row normaliser;
- `fetchSampleData` never reads the cache before it fetches;
- selection uses object identity, not a content key;
- the expiration window is the constant 60·60·1000 ms (one hour), even
  though the comment beside it (`src/cacheUtils.js:5`) says "24 hours".

## Model

| member | source | states |
|---|---|---|
| `Sequences.Select` | src/assets/Table.jsx:14-19 | an element is kept iff it is in the input and passes the test; everything passes iff nothing is dropped, and then the output is the input |
| `Sequences.SelectIsSubsequence` | parser.py:31 | a filtered sequence is a subsequence of its input: the same elements in the same relative order |
| `Sequences.SelectCount` | parser.py:31 | every copy of a passing element is kept: an element occurs in the result exactly as often as in the input if it passes the test, and not at all otherwise |
| `ExamTable.Toggle` | src/assets/Table.jsx:8-12 | toggling flips the row's checked state and no other row's; an unchecked row is appended at the end; a checked row is removed, which leaves a strictly shorter subsequence in the same order |
| `ExamTable.ToggleKeepsDistinct` | src/assets/Table.jsx:8-12 | a checked list without duplicates stays without duplicates after any toggle |
| `ExamTable.ToggleTwiceRestores` | src/assets/Table.jsx:8-12 | checking an unchecked row and then unchecking it restores the original list |
| `ExamTable.ToggleTwiceMovesToEnd` | src/assets/Table.jsx:8-12 | unchecking a checked row and checking it again moves it to the end of the list; the list comes back unchanged iff the row was already last and occurred only once |
| `ExamTable.Lower` | src/assets/Table.jsx:16-18 | lower-casing keeps the length, leaves no upper-case ASCII letter, and changes only upper-case letters, each into its lower-case form |
| `ExamTable.LowerIdempotent` | src/assets/Table.jsx:16-18 | lower-casing an already lower-cased string changes nothing |
| `ExamTable.IncludesAt` | src/assets/Table.jsx:16-18 | `includes` holds iff the needle occurs at some position of the hay, so the empty query occurs everywhere |
| `ExamTable.MatchesAt` | src/assets/Table.jsx:14-19 | a row passes the search iff the lower-cased query occurs in the lower-cased instructor, class or course title |
| `ExamTable.Search` | src/assets/Table.jsx:14-19 | a row is in the search result iff it is a data row that passes the search |
| `ExamTable.SearchIsSubsequence` | src/assets/Table.jsx:14-19 | the search result keeps the rows in their data order |
| `ExamTable.SearchEmptyQuery` | src/assets/Table.jsx:14-19 | an empty query keeps every row, in order |
| `ExamTable.SearchIdempotent` | src/assets/Table.jsx:14-19 | searching the search result again with the same query changes nothing |
| `ExamTable.Arrange` | src/assets/Table.jsx:21-24 | the display starts with the checked list in check order; the row at position i is ticked iff i is inside that prefix; a row is shown iff it is checked, or it is a search result that is not checked |
| `ExamTable.CheckedRowsFirst` | src/assets/Table.jsx:21-24 | every checked row is shown above every unchecked row |
| `ExamTable.ArrangeKeepsSearchOrder` | src/assets/Table.jsx:21-24 | after the checked rows, the unchecked search results follow in search order |
| `ExamTable.ArrangeDistinct` | src/assets/Table.jsx:21-24 | with duplicate-free checked and result lists, no row is shown twice; the display holds at most both lengths combined, exactly that many iff no search result is checked |
| `ExamTable.DisplayShows` | src/assets/Table.jsx:14-24 | a row is displayed iff it is checked (even if it fails the search), or it is an unchecked data row that passes the search |
| `ExamTable.DisplayInitially` | src/assets/Table.jsx:5-24 | with nothing checked and an empty search box, the display is the data in its order |
| `ScheduleParser.StripStart` | parser.py:13 | the result is a suffix of the input, only whitespace was removed, and it does not start with whitespace |
| `ScheduleParser.StripEnd` | parser.py:13 | the result is a prefix of the input, only whitespace was removed, and it does not end with whitespace |
| `ScheduleParser.Strip` | parser.py:13 | the result is a contiguous piece of the input with only whitespace around it, and it neither starts nor ends with whitespace |
| `ScheduleParser.StripIdempotent` | parser.py:13 | stripping an already stripped string changes nothing |
| `ScheduleParser.ReplaceSpaces` | parser.py:22 | every space becomes `_`, every other character is kept, and no space remains |
| `ScheduleParser.NormalizeHeaderProperties` | parser.py:22 | a normalised header has no space and no surrounding whitespace, and normalising it again changes nothing |
| `ScheduleParser.NormalizeHeaders` | parser.py:21-22 | there is one name per header cell, in column order: name i is header cell i stripped and with every space replaced by `_`; so the header count equals the header row's width, and no name contains a space |
| `ScheduleParser.FirstHeaderUnique` | parser.py:11-15 | at most one row is the first `Session` row |
| `ScheduleParser.FindHeaderRow` | parser.py:11-15 | the search returns the index of the first row whose stripped first cell is `Session`, and returns none iff no row has one |
| `ScheduleParser.FirstIndex` | parser.py:31 | the result is the first position of the name, and there is none iff the name is absent |
| `ScheduleParser.ClassColumn` | parser.py:28-31 | the `Class` column is found iff exactly one column has that name; no such column is a missing-column error; two or more is a duplicate-column error |
| `ScheduleParser.CleanBelow` | parser.py:21-31 | for header row h: the columns are the normalised header cells, and the rows are a subsequence of the rows below h; a row below h is kept iff its `Class` cell is non-blank after stripping, and `CleanBelowKeepsCopies` adds that every copy of a kept row survives; a failure happens exactly when the `Class` column lookup fails |
| `ScheduleParser.CleanBelowKeepsCopies` | parser.py:31 | identical data rows are all kept or all dropped: a row occurs in the cleaned frame exactly as often as below the header if its `Class` cell is non-blank, and not at all otherwise |
| `ScheduleParser.LoadCleanCsv` | parser.py:6-33 | the cleaner fails with no-header-row iff no row starts with `Session`; otherwise the result is the cleaning below the first header row |
| `ScheduleParser.LaterSessionRowsAreData` | parser.py:11-31 | any row after the first header row, including a later row starting with `Session`, is a data row, kept iff its `Class` cell is non-blank |
| `ScheduleParser.CleanBelowCount` | parser.py:25-31 | the kept rows never outnumber the rows below the header |
| `ScheduleParser.Record` | parser.py:37 | a record's keys are exactly the column names; a column whose name does not occur later maps to the cell at its own position |
| `ScheduleParser.RecordDistinct` | parser.py:37 | with distinct column names, every column maps to the cell at its position |
| `ScheduleParser.DfToJson` | parser.py:36-38 | there is one record per kept row, in row order; each record has the column names as keys and maps each last-occurring name to its row's cell |
| `ExamCache.SkipJsWhitespace` | src/cacheUtils.js:14 | the result is a suffix of the input, only whitespace was skipped, and it does not start with whitespace |
| `ExamCache.DigitPrefix` | src/cacheUtils.js:14 | the result is the longest prefix of decimal digits, and the whole input when it is all digits |
| `ExamCache.ParseInt` | src/cacheUtils.js:14 | `parseInt` is NaN iff no digit follows the leading whitespace and the optional sign; a plain digit string reads as its value |
| `ExamCache.ParseIntParts` | src/cacheUtils.js:14 | for text made of leading whitespace, an optional `-` or `+`, a non-empty run of digits and then anything that does not start with a digit, `parseInt` gives the value of the digits, negated after a `-` |
| `ExamCache.DecimalString` | src/cacheUtils.js:23 | `toString` of a non-negative integer gives non-empty decimal digits with no leading zero |
| `ExamCache.DecimalStringValue` | src/cacheUtils.js:23 | the digits written for n denote n |
| `ExamCache.ParseIntOfDecimalString` | src/cacheUtils.js:14-23 | a stored clock reading is parsed back as the same number |
| `ExamCache.GetCachedData` | src/cacheUtils.js:7-19 | the stored payload is returned iff both entries are present and truthy, the timestamp parses, and now minus the timestamp is less than 3,600,000 ms; otherwise null; the method has no modifies clause, so the store is never changed |
| `ExamCache.ExpiryIsStrict` | src/cacheUtils.js:14 | an entry exactly 3,600,000 ms old is a miss; before that, a hit depends only on the entries being present and truthy |
| `ExamCache.UnparsableTimestampMisses` | src/cacheUtils.js:14 | a timestamp that does not parse as an integer never gives a hit |
| `ExamCache.AfterSet` | src/cacheUtils.js:21-24 | after a store, the payload entry holds the data and the timestamp entry is non-empty text that parses to the store time; every other key is unchanged |
| `ExamCache.SetThenGet` | src/cacheUtils.js:11-24 | data stored at time t is a hit at time t' iff t' − t < 3,600,000 ms, and the hit returns that data |
| `ExamCache.SetCachedData` | src/cacheUtils.js:21-24 | the store becomes the old store with exactly the two cache keys written |
| `ExamCache.FetchSampleData` | src/cacheUtils.js:26-39 | on success, the fetched data is stored with the current time and returned; on failure, the empty list is returned and the store is unchanged |
| `ExamCache.FetchThenRead` | src/cacheUtils.js:11-34 | after a successful fetch, reading the cache within the next hour returns the fetched data |

## Left out

- The JSX markup and the React `useState` machinery (`src/assets/Table.jsx:26-75`) are not modelled. Only the tick state of the checkbox (line 58) is, as `ExamTable.IsChecked`.
- `src/App.jsx` is not modelled. It only renders a heading and the table.
- The sample data modules `../sampleData` and `./data` are not part of this model. Row contents and the fetched payload are inputs.
- ExamTable.Lower: lower-cases only the ASCII letters A to Z. It does not model full Unicode case mapping (`toLowerCase`).
- ScheduleParser.Strip: strips only the ASCII whitespace that Python's `str.strip()` removes (code points 9 to 13 and 28 to 32). It does not strip non-ASCII Unicode whitespace.
- ScheduleParser.LoadCleanCsv: requires a rectangular grid with at least one column, which is the shape of a DataFrame. Reading the CSV file with pandas (`parser.py:8`) is not modelled: no quoting, no ragged rows, no empty file.
- The script entry point (`parser.py:41-48`) is not modelled. It writes `output.json` and prints a count, which is file I/O only.
- ScheduleParser.ClassColumn: treats a duplicated `Class` column as an error, because `df["Class"]` then selects a DataFrame, which has no `.str`. pandas' exact exception types are not modelled.
- ExamCache.GetCachedData: requires that, on a hit, the payload entry holds JSON text of a payload. `JSON.parse` of foreign text, which could throw or yield another value, is not modelled.
- ExamCache.ParseInt: reads the value as an unbounded integer. It does not model floating-point rounding above 2^53.
- ExamCache.DecimalString: does not model exponent notation, which `toString` uses from 10^21. No clock reading reaches that.
- ExamCache.FetchSampleData: the simulated fetch (`src/cacheUtils.js:29-31`) always resolves and never rejects. So the catch at lines 35-38 is reached only when `setCachedData` throws: `JSON.stringify` fails, or `setItem` raises a quota error. `FetchFailed` stands for that case, and the model treats it as leaving the store unchanged. That does not cover the case where the first `setItem` (line 22) succeeds and the second (line 23) throws, which leaves a new payload beside the old timestamp. The `console.error` log line is not modelled.
- The 1-second `setTimeout` and the Promise in `fetchSampleData` (`src/cacheUtils.js:29-31`) are timing only. The fetch is an injected outcome.
- Campus filtering, multi-key sorting, date/time comparison, row normalisation, calendar export and background refresh are not modelled. None of them appears in the modelled source files.
