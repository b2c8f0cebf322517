# image-size-analyzer, modelled in Dafny

The image-size-analyzer repository holds two Python scripts and a Go program. They share no code; the plotter reads the CSV format the Go program writes.

- **Size-diff reporter** (`analyze_dive_json.py`). It reads two `dive` JSON reports of a container image. It sums the sizes of the real files under every directory, joins the two directory tables on the path, and prints the directories that grew most and those that shrank most.
- **Registry scanner** (Go). `internal/registry/registry.go` fetches the configuration and manifest of each tag that matches the tag filter (a regular expression) and skips every tag whose image, configuration or manifest cannot be fetched; that file is not part of this model. `ToCSV` then writes one CSV row per record it is given, after a title record and a header record, sorted by push time.
- **Plotter** (`plot.py`). It reads such a CSV file and draws one line per Minor version. It recovers the image name from the title record. It then shows the chart on screen, or saves it under the CSV file's path with every `.csv` replaced by `.svg`.

The model covers the logic of these tools without their I/O:

- `DirSizes`: the directory aggregation `get_dir_sizes`.
  - `GetDirSizes` is an imperative method made of the same loops as the source: pool the files, add each size to every parent, assign the root.
  - It is proved equal to a specification function. The specification states directly which keys exist and what each total is.
  - Lemmas prove the properties of that table.
- `Compare`: the pure part of `compare_data` (outer join, fill, difference, filter, sort, head), plus the method `CompareData`.
  - `CompareData` loads both snapshots before printing anything.
  - It reports either both tables or a single error line.
- `Sorting`: `SortData`, an in-place insertion sort of an `array` by push time, proved sorted and a permutation.
- `CsvOutput`: `ToCSV`, with the CSV writer as a class whose `records` sequence grows with every accepted write.
  - The method sorts the caller's array.
  - It then writes the title, the header and the rows. It stops at the first refused write, whose error it wraps.
- `Plot`: the non-graphical parts of `plot_data`:
  - the title-line parse;
  - the grouping by Minor value in order of first appearance;
  - the ordering of each group by push time;
  - the output file name;
  - the error lines.
- `Text` and `Seqs`: the string and sequence operations these tools take from Python and Go, such as `split`, `join`, `replace`, `strip`, decimal formatting, string order, a sort by key, an order-keeping filter and `head`.

Two behaviours of the code are worth stating outright:

- **Order of the grown list.** The grown list is in descending order of difference. With `/x` growing by 50 and `/y` new with 20, it lists `/x` before `/y` (`Compare.ExampleGrown`).
- **Absolute paths.** The code builds keys as `"/" + str(parent)`. An absolute path in a report therefore yields keys that start with `//`, such as `//a` and `//` (`DirSizes.AncestorsExamples`).

## Model

| member | source | states |
|---|---|---|
| DirSizes.QualifyingIn | analyze_dive_json.py:33-35 | one file list keeps no more records than it has entries, each with a positive size |
| DirSizes.QualifyingInMeaning | analyze_dive_json.py:33-35 | a record is kept from a file list exactly when it is the (path, size) of one of its entries whose size (0 when missing) is positive and whose directory flag (false when missing) is false |
| DirSizes.Pooled | analyze_dive_json.py:31-35 | every record of `all_files` has a positive size |
| DirSizes.PooledMeaning | analyze_dive_json.py:31-35 | a record is in `all_files` exactly when it is the record of a qualifying entry of some layer |
| DirSizes.PoolFiles | analyze_dive_json.py:31-35 | the nested append loop builds exactly `Pooled(snapshot)` |
| DirSizes.Ancestors | analyze_dive_json.py:42-49 | a file's size goes to one key per parent other than `.`, written `"/" + parent`, from the nearest parent outwards |
| DirSizes.AddToEach | analyze_dive_json.py:45-49 | the inner loop's `defaultdict` increments: keys it meets are created at 0, each gets `+ size` once, and all other keys keep their values |
| DirSizes.SumIntoParents | analyze_dive_json.py:39-49 | after the second loop, the keys are exactly the directories some file lies beneath, and each key holds the sum of the sizes of the files beneath it |
| DirSizes.GetDirSizes | analyze_dive_json.py:31-53 | the whole aggregation returns `DirSizes(Pooled(snapshot))`: the directory totals, plus `/` assigned the total of all files |
| DirSizes.AncestorsDistinct | analyze_dive_json.py:45-49 | no key is incremented twice for the same file |
| DirSizes.RootNotAncestor | analyze_dive_json.py:48-49 | no parent key is `/` |
| DirSizes.RootNotInKeys | analyze_dive_json.py:49-53 | `/` is never among the accumulated keys, so the final assignment overwrites nothing accumulated |
| DirSizes.DirTotalOutsideKeys | analyze_dive_json.py:39-49 | a directory no file lies beneath has total 0 |
| DirSizes.KeyOfFile | analyze_dive_json.py:39-49 | every parent key of a pooled file is a key of the table |
| DirSizes.FileOfKey | analyze_dive_json.py:39-49 | every key of the table has a pooled file beneath it |
| DirSizes.KeysMeaning | analyze_dive_json.py:39-49 | a string is a key exactly when some pooled file lies beneath it (both directions) |
| DirSizes.DirTotalAtMostTotal | analyze_dive_json.py:39-53 | no directory total exceeds the sum of all file sizes |
| DirSizes.DirTotalPositive | analyze_dive_json.py:34-49 | since every kept size is positive, every directory key has a positive total |
| DirSizes.TableBounds | analyze_dive_json.py:39-53 | `/` is always in the table and holds the sum of all qualifying sizes; every other entry is positive and at most the `/` entry |
| DirSizes.PooledConcat | analyze_dive_json.py:32-35 | the layers contribute independently: pooling two layer lists put together gives the two pools put together |
| DirSizes.TotalConcat | analyze_dive_json.py:52-52 | the total of two file lists put together is the sum of their totals |
| DirSizes.DuplicateCountedTwice | analyze_dive_json.py:31-53 | a file listed in two layers counts twice in `/` |
| DirSizes.NoQualifyingInList | analyze_dive_json.py:33-35 | a file list with no qualifying entry contributes no record |
| DirSizes.NoQualifyingNoFiles | analyze_dive_json.py:31-35 | a snapshot with no qualifying entry pools no file |
| DirSizes.NoFilesOnlyRoot | analyze_dive_json.py:51-53 | a snapshot with no qualifying file gives the single entry `/` with 0 |
| DirSizes.TopLevelFileHasNoParentKey | analyze_dive_json.py:45-49 | a one-segment relative path adds to no directory key, because its only parent is `.` |
| DirSizes.AncestorsExamples | analyze_dive_json.py:42-49 | `a/b/c.txt` adds to `/a/b` and `/a`; `/a/b/c.txt` adds to `//a/b`, `//a` and `//` |
| DirSizes.TwoFilesExample | analyze_dive_json.py:31-53 | files `a/b/f1` (10) and `a/g` (5) give `/a/b` 10, `/a` 15 and `/` 15 |
| Compare.SortedPaths | analyze_dive_json.py:68-68 | the outer join's paths: every path of either table exactly once, in ascending string order |
| Compare.Merge | analyze_dive_json.py:68-72 | one row per path of either table, no path twice, paths ascending, each row holding the sizes from the two tables with a missing side filled with 0 |
| Compare.Grown | analyze_dive_json.py:79-84 | the grown list is a top-`limit` selection, by descending difference, of the rows with a positive difference: as long as it can be, ordered, and no left-out row grew more than a selected one |
| Compare.Shrunk | analyze_dive_json.py:92-96 | the shrunk list is the same selection, by ascending difference, of the rows with a negative difference |
| Seqs.Take | analyze_dive_json.py:84-84 | `head(n)`: the first `n` rows, or all of them when there are fewer |
| Compare.GrownShrunkDisjoint | analyze_dive_json.py:79-96 | no path is in both lists |
| Compare.NoneRanked | analyze_dive_json.py:79-92 | rows that all have difference 0 give two empty lists: zero-difference rows are in neither list |
| Compare.SelfDiffZero | analyze_dive_json.py:68-72 | joining a table with itself gives difference 0 in every row |
| Compare.SelfCompareEmpty | analyze_dive_json.py:72-92 | comparing a table with itself gives two empty lists |
| Compare.NewDirIsGrown | analyze_dive_json.py:68-84 | a directory only in the later table with a positive size is in the grown list (before 0), once the limit admits every row |
| Compare.RemovedDirIsShrunk | analyze_dive_json.py:68-96 | a directory only in the earlier table with a positive size is in the shrunk list (after 0), once the limit admits every row |
| Compare.LimitOneGrown | analyze_dive_json.py:79-84 | with limit 1 and some grown row, the grown list is one row, and no row grew more |
| Compare.LimitOneShrunk | analyze_dive_json.py:92-96 | with limit 1 and some shrunk row, the shrunk list is one row, and no row shrank more |
| Compare.SortedPathsPair | analyze_dive_json.py:68-68 | two distinct paths come out of the join in string order |
| Compare.ExampleRows | analyze_dive_json.py:68-72 | `/x` 100→150 and `/y` new with 20 join to the rows `/x` (100, 150) and `/y` (0, 20) |
| Compare.ExampleGrown | analyze_dive_json.py:79-84 | in that example the grown list is `/x` (growth 50) and then `/y` (growth 20) |
| Compare.ExampleGrownTop | analyze_dive_json.py:79-84 | in that example a limit of 1 keeps only `/x` |
| Compare.ExampleShrunk | analyze_dive_json.py:92-96 | in that example the shrunk list is empty |
| Compare.ErrorText | analyze_dive_json.py:102-105 | a missing file gives a message with the file's path between the fixed prefix and suffix; any other error gives `An error occurred: ` followed by its text; the two kinds are told apart by the first character |
| Compare.CompareData | analyze_dive_json.py:58-105 | both tables are reported exactly when both snapshots load. Otherwise only the first failing load's message is reported, and the earlier snapshot is checked first. That message is `ErrorText` of the failing load's own path and error. With both loaded, the tables are the grown and shrunk lists of the joined tables, and a snapshot compared with itself gives two empty lists |
| Sorting.SortData | internal/output/sort.go:8-11 | in place, the array ends ordered by non-decreasing push time and holds the same multiset of records |
| Sorting.InsertLast | internal/output/sort.go:8-11 | one insertion step: a push-ordered prefix grows by one element, the elements after it are unchanged, and the multiset is kept |
| Sorting.ResortKeepsPushTimes | internal/output/sort.go:9-11 | any two push-ordered arrangements of the same records have the same sequence of push times, so re-sorting sorted data leaves the times unchanged whatever the tie order |
| CsvOutput.CsvWriter.Write | internal/output/csv.go:49-51 | a write appends the record when the sink accepts it, and otherwise returns the sink's error and leaves the records alone |
| CsvOutput.Title | internal/output/csv.go:17-17 | the title starts with `#` and ends with `)`, and has no line break when none of the four names has one |
| CsvOutput.HeaderColumns | internal/output/csv.go:22-22 | the header has seven distinct column names, with `Version`, `SizeMiB`, `LastPush` and `Minor` in the first, second, third and fifth places |
| CsvOutput.MajorGuard | internal/output/csv.go:28-28 | the Major guard, as written, holds exactly when the record is not the all-zero version |
| CsvOutput.MinorGuard | internal/output/csv.go:32-32 | the Minor guard, as written, holds exactly when the record is not the all-zero version |
| CsvOutput.PatchGuard | internal/output/csv.go:36-36 | the Patch guard, as written, holds exactly when the record is not the all-zero version, so the three guards are equivalent |
| CsvOutput.DataRow | internal/output/csv.go:26-48 | seven cells: Version and Prerelease copied verbatim into the first and last cells, size and time formatted in between. Major, Minor and Patch are all empty for the all-zero version and all non-empty otherwise, being `Major`, `"Major.Minor"` and `Patch` in decimal |
| CsvOutput.Document | internal/output/csv.go:17-51 | the full output: `len(data) + 2` records, the one-field title first, the seven-field header second, then one row per record in array order |
| CsvOutput.Accepted | internal/output/csv.go:18-51 | how many records a sink with the given capacity takes before it refuses one |
| CsvOutput.Context | internal/output/csv.go:18-51 | each error context starts with `writing CSV ` and ends with `: ` |
| CsvOutput.ContextsDistinct | internal/output/csv.go:18-51 | the title, header and row writes wrap errors with three different contexts, and every row write uses the same one |
| CsvOutput.StoppedAt | internal/output/csv.go:18-51 | a run whose `k`-th write is refused has written exactly the first `k` records and attempted nothing after the refused one |
| CsvOutput.WroteAll | internal/output/csv.go:26-54 | a run that wrote every record ends with no error |
| CsvOutput.ToCSV | internal/output/csv.go:11-55 | the caller's array is re-ordered by push time (a permutation). The sink then holds its earlier records followed by the longest prefix of the document it accepted. No error is returned exactly when the whole document was written. Otherwise the error is the refused write's context (`writing CSV title/header/record: `) followed by the sink's error, and no later write was attempted |
| CsvOutput.WriteDocument | internal/output/csv.go:17-54 | writing the title, the header and the rows leaves the sink in the state `ToCSV` promises |
| CsvOutput.WriteRows | internal/output/csv.go:26-54 | the row loop continues a run whose title and header were taken |
| CsvOutput.WriteNext | internal/output/csv.go:18-51 | one write of the run: on success one more record of the document is taken; on refusal the wrapped error is returned and the run's final state is reached |
| CsvOutput.VersionCellsReadBack | internal/output/csv.go:28-37 | for a versioned record, the Major and Patch cells read back as the numbers, and the Minor cell splits at its single dot into the major and minor numbers |
| Text.Split | plot.py:30-30 | `str.split`: the pieces joined with the separator give the text back, and no piece contains the separator |
| Text.Replace | plot.py:76-76 | `str.replace`: a text without the target is unchanged, and the result's length is the text's length changed by the length difference once per occurrence found by the split |
| Text.ReplaceAtFirst | plot.py:76-76 | `str.replace` keeps the text before the first occurrence, puts the replacement in its place, and goes on replacing in the rest |
| Text.Strip | plot.py:28-28 | `strip()`: the result is a contiguous slice of the text with no white space at either end, and everything cut off on either side is white space |
| Text.StripTrailing | plot.py:28-28 | `strip()` of a visible line followed by white space gives the line |
| Text.Decimal | internal/output/csv.go:29-29 | `FormatUint(n, 10)` is a non-empty digit string without a leading zero unless it is `0` |
| Text.DecimalRoundTrip | internal/output/csv.go:29-37 | reading a formatted number back gives the number |
| Text.OneLineConcat | plot.py:28-28 | a concatenation has no line break exactly when neither part has one |
| Plot.LineEnd | plot.py:28-28 | the index of the first `\r` or `\n` of the content, or its length when there is none |
| Plot.FirstLine | plot.py:28-28 | `readline()` in text mode, which reads `\r`, `\n` and `\r\n` as line ends: either the whole content when it has no line break, or the content before its first `\r` or `\n` followed by `\n`; no break occurs before the last character |
| Plot.TitleLine | plot.py:28-28 | the stripped first line holds no line break and has no white space at either end |
| Plot.ImageName | plot.py:30-30 | the parse fails exactly when the title line has no `" for "`, and then fails with the index error |
| Plot.CarriageReturnEndsTitle | plot.py:27-30 | a file whose first line is ended by a lone `\r` before `" for "` gets the index error and no chart, because text mode ends the line there |
| Plot.ImageNameAfterFirstFor | plot.py:30-30 | the image name is the text after the first `" for "`, cut at a second `" for "` and then at the first `" ("` |
| Plot.ImageNameWholeRemainder | plot.py:30-30 | with `" for "` but no second `" for "` and no `" ("`, the whole remainder is the image name |
| Plot.ForPieceKeepsParen | plot.py:30-30 | splitting a title remainder `x + " (" + y` at `" for "`, with `x` free of spaces, keeps `x + " ("` at the front of the first piece |
| Plot.TitleRoundTrip | plot.py:28-31 | for a registry name and an image name without spaces, line breaks, commas or double quotes, and OS and architecture names without line breaks, reading the image name from the title the CSV export writes gives `registry + "/" + image` |
| Plot.Unique | plot.py:42-42 | `unique()`: every value once, and only values that occur, in order of first appearance |
| Plot.Group | plot.py:52-57 | a group holds exactly the rows with its Minor value, as many times as they occur, ordered by push time |
| Plot.SeriesOf | plot.py:42-57 | one series per distinct Minor value, in order of first appearance, each holding that value's group |
| Plot.InGroupIff | plot.py:53-53 | a row of the file is in a value's group exactly when it carries that value |
| Plot.RowInItsSeriesOnly | plot.py:42-57 | every row is drawn, in the series of its own Minor value and in no other |
| Plot.SeriesTimesIgnoreRowOrder | plot.py:52-57 | a series' push times do not depend on the order of the rows in the file |
| Plot.OutputFileName | plot.py:76-76 | the output name has the length of the input path, since `.csv` and `.svg` are equally long, and a path without `.csv` is kept as it is |
| Plot.OutputNameOfCsv | plot.py:76-76 | `stem.csv` becomes `stem.svg` when the stem has no `.csv` |
| Plot.OutputNameAtFirstCsv | plot.py:76-76 | the first `.csv` of the path becomes `.svg`, the text before it is kept, and the rest of the path is renamed the same way; with the no-`.csv` case of `OutputFileName`, `x.csv.bak` becomes `x.svg.bak` |
| Plot.OutputNameEachCsv | plot.py:76-76 | a path of dot-free pieces joined by `.csv` is saved under the same pieces joined by `.svg`: every `.csv` changes, so `a.csv/b.csv` becomes `a.svg/b.svg` |
| Plot.PlotData | plot.py:21-83 | a chart is produced exactly when the file exists, its title line has `" for "` and the rows parse. A missing file gives the not-found message naming the path, and a title without `" for "` gives `An error occurred: ` with the index error, both worded as `Compare.ErrorText` states. A chart is titled with the image name, has the series of the rows, and is saved under the `.svg` name unless interactive |

## Left out

- Floating-point MiB conversion and formatting (`analyze_dive_json.py:75-76`, `csv.go:42`) are left out. So are the time formatting of `csv.go:43` and tabulate's grid rendering. Sizes are integer bytes. The row formatters are parameters of `DataRow`.
- JSON reading, CSV reading, `pd.to_datetime` and pandas type inference are left out.
  - A snapshot arrives as a list of layers of file entries, or as a load error.
  - The plotter's rows arrive parsed, or as an error message.
  - `read_csv` may turn a Minor cell `1.10` into the float 1.1, and an empty Minor cell into NaN, which matches no group. Minor is an opaque label here.
- `pathlib` normalisation is left out. Paths are lists of non-empty segments, none of them `.`.
- Printing is left out. `CompareData` returns the two lists instead of printing the headings and tables, and `PlotData` returns the chart it would draw or the error line it would print.
- Compare.CompareData: `limit` is a natural number. pandas `head` with a negative argument drops rows from the end instead, which is not modelled.
- Compare.Grown: Python's unstable `sort_values` leaves the order of equal differences open. The contract states the top-`limit` relation, which every admissible order meets, and does not pin one order.
- Compare.Shrunk: as for `Grown`, equal differences may come in any order.
- Plot.PlotData: a save that fails is not modelled. `savefig` into a directory that does not exist (every `.csv` in the path is replaced, directories included) raises FileNotFoundError, and plot.py then prints the not-found line for the CSV file although that file exists. The model's chart outcome assumes the save succeeds. In the interactive branch the model records only that no file is saved; `plt.show` is left out.
- Plot.Group: pandas' `sort_values` uses an unstable sort by default, so the order of rows with equal push times within a series is open. The model sorts stably, which keeps them in file order, one of the admissible orders; `SeriesTimesIgnoreRowOrder` states what holds for every order.
- Sorting.SortData: `sort.Slice` is not stable. The contract states sortedness and the permutation, not the position of records with equal push times. Insertion sort is one admissible order.
- CsvOutput.ToCSV: the sink's failure is abstracted as a writer that accepts a fixed number of records and then refuses every write with one error text. The real `csv.Writer` buffers, so a failing sink shows up at a buffer boundary. CSV quoting and the deferred `Flush`, whose error is discarded, are left out.
- The Plot module leaves out all matplotlib work (figure, lines, labels, legend, saving, showing), the colour-map sampling and the debug prints. `PlotData` names the file it would save to.
- Other exceptions Python could raise inside `plot_data` and `compare_data` are not modelled. Examples are a missing `LastPush` or `Minor` column, or a missing `path` key, which would be caught by the generic handler.
- The registry scanner `internal/registry/registry.go` is not part of this model: network calls, version parsing and layer-size sums. Only its `ImageData` record is modelled.
- The command-line entry point `cmd/image-size-analyzer/main.go` is not part of this model: flags, file creation and exit codes.
