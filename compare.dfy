/** The comparison half of the size-diff reporter (`compare_data` in
    analyze_dive_json.py): outer-join the directory tables of two snapshots on the
    path, fill a missing side with 0, take after minus before, and rank the grown and
    the shrunk directories. */
module Compare {
  import opened Wrappers
  import opened Text
  import opened Seqs
  import opened DirSizes

  /** One row of the merged frame: `Path`, `Size_before`, `Size_after`. */
  datatype Row = Row(path: string, before: nat, after: nat)

  /** `Size_diff = Size_after - Size_before` */
  function Diff(r: Row): int
  {
    r.after - r.before
  }

  /** The ranking key of the grown list, whose order is by descending difference. */
  function Growth(r: Row): int
  {
    -Diff(r)
  }

  predicate HasGrown(r: Row)
  {
    Diff(r) > 0
  }

  predicate HasShrunk(r: Row)
  {
    Diff(r) < 0
  }

  /** A table's size for a path, 0 where the outer join left it missing (`fillna(0)`). */
  function SizeIn(t: DirTable, path: string): nat
  {
    if path in t then t[path] else 0
  }

  /** `m` is a least element of `s` in string order. */
  predicate IsLeast(m: string, s: set<string>)
  {
    m in s && forall x :: x in s ==> LexLe(m, x)
  }

  /** Every non-empty finite set of strings has a least element. */
  lemma {:induction false} LeastExists(s: set<string>)
    requires s != {}
    ensures exists m :: IsLeast(m, s)
    decreases |s|
  {
    var y :| y in s;
    LexLeTotal(y, y);
    if s == {y} {
      assert IsLeast(y, s);
    } else {
      var rest := s - {y};
      LeastExists(rest);
      var m :| IsLeast(m, rest);
      LexLeTotal(y, m);
      if LexLe(y, m) {
        forall x | x in s ensures LexLe(y, x) {
          if x != y { LexLeTransitive(y, m, x); }
        }
        assert IsLeast(y, s);
      } else {
        assert IsLeast(m, s);
      }
    }
  }

  /** The least element is unique. */
  lemma LeastUnique(s: set<string>)
    ensures forall m, m' :: IsLeast(m, s) && IsLeast(m', s) ==> m == m'
  {
    forall m, m' | IsLeast(m, s) && IsLeast(m', s)
      ensures m == m'
    {
      LexLeAntisymmetric(m, m');
    }
  }

  /** The paths of a set in ascending string order, the order in which an outer merge
      returns its keys. */
  function SortedPaths(s: set<string>): (r: seq<string>)
    ensures |r| == |s|
    ensures forall x :: x in r <==> x in s
    ensures forall i, j :: 0 <= i < j < |r| ==> LexLe(r[i], r[j]) && r[i] != r[j]
    decreases |s|
  {
    if s == {} then []
    else
      LeastExists(s);
      LeastUnique(s);
      var m :| IsLeast(m, s);
      var rest := SortedPaths(s - {m});
      [m] + rest
  }

  /** The merged row of one path. */
  function RowFor(before: DirTable, after: DirTable, path: string): Row
  {
    Row(path, SizeIn(before, path), SizeIn(after, path))
  }

  /** The merged rows of a list of paths, in the list's order. */
  function RowsFor(before: DirTable, after: DirTable, paths: seq<string>): (rows: seq<Row>)
    ensures |rows| == |paths|
    ensures forall i :: 0 <= i < |rows| ==> rows[i] == RowFor(before, after, paths[i])
  {
    if paths == [] then [] else [RowFor(before, after, paths[0])] + RowsFor(before, after, paths[1..])
  }

  /** Some row of `rows` is for `path`. */
  predicate HasRow(rows: seq<Row>, path: string)
  {
    exists i :: 0 <= i < |rows| && rows[i].path == path
  }

  /** Every path of either table has a row. */
  predicate CoversBoth(rows: seq<Row>, before: DirTable, after: DirTable)
  {
    forall k :: k in before.Keys + after.Keys ==> HasRow(rows, k)
  }

  /** Every row is for a path of either table and carries that path's sizes, 0 for a
      missing side. */
  predicate FilledFrom(rows: seq<Row>, before: DirTable, after: DirTable)
  {
    forall i :: 0 <= i < |rows| ==>
      && (rows[i].path in before || rows[i].path in after)
      && rows[i].before == SizeIn(before, rows[i].path)
      && rows[i].after == SizeIn(after, rows[i].path)
  }

  /** Paths strictly ascend along the rows, so no path has two rows. */
  predicate AscendingPaths(rows: seq<Row>)
  {
    forall i, j :: 0 <= i < j < |rows| ==> LexLe(rows[i].path, rows[j].path) && rows[i].path != rows[j].path
  }

  lemma RowsForCover(before: DirTable, after: DirTable, paths: seq<string>)
    requires forall x :: x in paths <==> x in before.Keys + after.Keys
    ensures CoversBoth(RowsFor(before, after, paths), before, after)
  {
    var rows := RowsFor(before, after, paths);
    forall k | k in before.Keys + after.Keys ensures HasRow(rows, k) {
      assert k in before.Keys + after.Keys;
      assert k in paths;
      var i :| 0 <= i < |paths| && paths[i] == k;
      assert rows[i].path == k;
    }
  }

  lemma RowsForFilled(before: DirTable, after: DirTable, paths: seq<string>)
    requires forall x :: x in paths <==> x in before.Keys + after.Keys
    ensures FilledFrom(RowsFor(before, after, paths), before, after)
  {
    var rows := RowsFor(before, after, paths);
    forall i | 0 <= i < |rows| ensures rows[i].path in before || rows[i].path in after {
      assert rows[i].path == paths[i] && paths[i] in paths;
    }
  }

  lemma RowsForAscending(before: DirTable, after: DirTable, paths: seq<string>)
    requires forall i, j :: 0 <= i < j < |paths| ==> LexLe(paths[i], paths[j]) && paths[i] != paths[j]
    ensures AscendingPaths(RowsFor(before, after, paths))
  {
    var rows := RowsFor(before, after, paths);
    forall i, j | 0 <= i < j < |rows| ensures LexLe(rows[i].path, rows[j].path) && rows[i].path != rows[j].path {
      assert rows[i].path == paths[i] && rows[j].path == paths[j];
    }
  }

  /** The outer join on `Path` with missing sides filled with 0: one row per path of
      either table, in ascending path order. */
  function Merge(before: DirTable, after: DirTable): (rows: seq<Row>)
    ensures |rows| == |before.Keys + after.Keys|
    ensures FilledFrom(rows, before, after)
    ensures CoversBoth(rows, before, after)
    ensures AscendingPaths(rows)
  {
    var paths := SortedPaths(before.Keys + after.Keys);
    RowsForCover(before, after, paths);
    RowsForFilled(before, after, paths);
    RowsForAscending(before, after, paths);
    RowsFor(before, after, paths)
  }

  /** Rows drawn from a filter of `rows` are rows that pass the filter. */
  lemma SelectedFromRows(r: seq<Row>, rows: seq<Row>, p: Row -> bool)
    requires multiset(r) <= multiset(Filter(rows, p))
    ensures forall i :: 0 <= i < |r| ==> r[i] in rows && p(r[i])
  {
    forall i | 0 <= i < |r| ensures r[i] in rows && p(r[i]) {
      assert r[i] in multiset(r);
      assert multiset(Filter(rows, p))[r[i]] > 0;
    }
  }

  /** The grown list: rows whose difference is positive, largest difference first, at
      most `limit` of them. */
  function Grown(rows: seq<Row>, limit: nat): (r: seq<Row>)
    ensures IsTopBy(r, Filter(rows, HasGrown), Growth, limit)
    ensures forall i :: 0 <= i < |r| ==> r[i] in rows && HasGrown(r[i])
  {
    var cands := Filter(rows, HasGrown);
    TakeOfSortedIsTop(cands, Growth, limit);
    var r := Take(SortBy(cands, Growth), limit);
    SelectedFromRows(r, rows, HasGrown);
    r
  }

  /** The shrunk list: rows whose difference is negative, most negative first, at most
      `limit` of them. */
  function Shrunk(rows: seq<Row>, limit: nat): (r: seq<Row>)
    ensures IsTopBy(r, Filter(rows, HasShrunk), Diff, limit)
    ensures forall i :: 0 <= i < |r| ==> r[i] in rows && HasShrunk(r[i])
  {
    var cands := Filter(rows, HasShrunk);
    TakeOfSortedIsTop(cands, Diff, limit);
    var r := Take(SortBy(cands, Diff), limit);
    SelectedFromRows(r, rows, HasShrunk);
    r
  }

  /** No directory is in both lists. */
  lemma GrownShrunkDisjoint(before: DirTable, after: DirTable, limit: nat)
    ensures forall i, j :: 0 <= i < |Grown(Merge(before, after), limit)| && 0 <= j < |Shrunk(Merge(before, after), limit)| ==>
      Grown(Merge(before, after), limit)[i].path != Shrunk(Merge(before, after), limit)[j].path
  {
    var rows := Merge(before, after);
    var g, sh := Grown(rows, limit), Shrunk(rows, limit);
    forall i, j | 0 <= i < |g| && 0 <= j < |sh| ensures g[i].path != sh[j].path {
      assert g[i] in rows && sh[j] in rows;
    }
  }

  /** A filter that no row passes selects nothing. */
  lemma NothingPasses(rows: seq<Row>, p: Row -> bool)
    requires forall i :: 0 <= i < |rows| ==> !p(rows[i])
    ensures Filter(rows, p) == []
  {
  }

  /** Every row of a table joined with itself has difference zero. */
  lemma SelfDiffZero(t: DirTable)
    ensures forall i :: 0 <= i < |Merge(t, t)| ==> Diff(Merge(t, t)[i]) == 0
  {
    assert FilledFrom(Merge(t, t), t, t);
  }

  /** Comparing a table with itself leaves both lists empty. */
  lemma SelfCompareEmpty(t: DirTable, limit: nat)
    ensures Grown(Merge(t, t), limit) == []
    ensures Shrunk(Merge(t, t), limit) == []
  {
    SelfDiffZero(t);
    NoneRanked(Merge(t, t), limit);
  }

  /** Rows that all have difference zero give two empty lists. */
  lemma NoneRanked(rows: seq<Row>, limit: nat)
    requires forall i :: 0 <= i < |rows| ==> Diff(rows[i]) == 0
    ensures Grown(rows, limit) == [] && Shrunk(rows, limit) == []
  {
    NothingPasses(rows, HasGrown);
    NothingPasses(rows, HasShrunk);
  }

  /** When the limit admits every row, every row passing the filter is selected. */
  lemma AllSelected(rows: seq<Row>, p: Row -> bool, key: Row -> int, limit: nat, x: Row)
    requires limit >= |rows| && x in rows && p(x)
    ensures x in Take(SortBy(Filter(rows, p), key), limit)
  {
    var cands := Filter(rows, p);
    assert multiset(cands)[x] > 0;
    assert Take(SortBy(cands, key), limit) == SortBy(cands, key);
    assert x in multiset(SortBy(cands, key));
  }

  /** The row of `path`, whichever position it has. */
  lemma RowOf(before: DirTable, after: DirTable, path: string) returns (i: nat)
    requires path in before || path in after
    ensures i < |Merge(before, after)| && Merge(before, after)[i] == RowFor(before, after, path)
  {
    var rows := Merge(before, after);
    assert path in before.Keys + after.Keys;
    assert HasRow(rows, path);
    i :| 0 <= i < |rows| && rows[i].path == path;
    assert FilledFrom(rows, before, after);
  }

  /** A directory only in the "after" table, with a positive size, is in the grown list
      once the limit admits every row. */
  lemma NewDirIsGrown(before: DirTable, after: DirTable, path: string, limit: nat)
    requires path !in before && path in after && after[path] > 0
    requires limit >= |Merge(before, after)|
    ensures Row(path, 0, after[path]) in Grown(Merge(before, after), limit)
  {
    var rows := Merge(before, after);
    var i := RowOf(before, after, path);
    assert rows[i] == Row(path, 0, after[path]);
    AllSelected(rows, HasGrown, Growth, limit, rows[i]);
    assert Grown(rows, limit) == Take(SortBy(Filter(rows, HasGrown), Growth), limit);
  }

  /** A directory only in the "before" table, with a positive size, is in the shrunk
      list (its difference is minus that size) once the limit admits every row. */
  lemma RemovedDirIsShrunk(before: DirTable, after: DirTable, path: string, limit: nat)
    requires path in before && path !in after && before[path] > 0
    requires limit >= |Merge(before, after)|
    ensures Row(path, before[path], 0) in Shrunk(Merge(before, after), limit)
  {
    var rows := Merge(before, after);
    var i := RowOf(before, after, path);
    assert rows[i] == Row(path, before[path], 0);
    assert HasShrunk(rows[i]);
    AllSelected(rows, HasShrunk, Diff, limit, rows[i]);
    assert Shrunk(rows, limit) == Take(SortBy(Filter(rows, HasShrunk), Diff), limit);
  }

  /** With a limit of 1, the grown list is the single row of largest growth. */
  lemma LimitOneGrown(rows: seq<Row>, x: Row)
    requires x in rows && HasGrown(x)
    ensures |Grown(rows, 1)| == 1 && Diff(x) <= Diff(Grown(rows, 1)[0])
  {
    var cands := Filter(rows, HasGrown);
    var r := Grown(rows, 1);
    assert multiset(cands)[x] > 0;
    if r[0] != x {
      assert multiset(r)[x] == 0;
      assert x in multiset(cands) - multiset(r);
    }
  }

  /** With a limit of 1, the shrunk list is the single row of largest shrinkage. */
  lemma LimitOneShrunk(rows: seq<Row>, x: Row)
    requires x in rows && HasShrunk(x)
    ensures |Shrunk(rows, 1)| == 1 && Diff(Shrunk(rows, 1)[0]) <= Diff(x)
  {
    var cands := Filter(rows, HasShrunk);
    var r := Shrunk(rows, 1);
    assert multiset(cands)[x] > 0;
    if r[0] != x {
      assert multiset(r)[x] == 0;
      assert x in multiset(cands) - multiset(r);
    }
  }

  /** Two distinct paths come out of the join in string order. */
  lemma SortedPathsPair(a: string, b: string)
    requires LexLe(a, b) && a != b
    ensures SortedPaths({a, b}) == [a, b]
  {
    var r := SortedPaths({a, b});
    assert |{a, b}| == 2;
    assert r[0] in {a, b} && r[1] in {a, b};
    if r[0] == b {
      LexLeAntisymmetric(a, b);
    }
  }

  /** Rows of the worked example: "/x" grows from 100 to 150 and "/y" is new with 20. */
  const ExampleBefore: DirTable := map["/x" := 100]
  const ExampleAfter: DirTable := map["/x" := 150, "/y" := 20]

  lemma ExampleRows()
    ensures Merge(ExampleBefore, ExampleAfter) == [Row("/x", 100, 150), Row("/y", 0, 20)]
  {
    assert ExampleBefore.Keys + ExampleAfter.Keys == {"/x", "/y"};
    assert LexLe("/x", "/y") by {
      assert "/x"[1..] == "x" && "/y"[1..] == "y";
    }
    SortedPathsPair("/x", "/y");
  }

  lemma ExampleCandidates()
    ensures Filter([Row("/x", 100, 150), Row("/y", 0, 20)], HasGrown) == [Row("/x", 100, 150), Row("/y", 0, 20)]
    ensures Filter([Row("/x", 100, 150), Row("/y", 0, 20)], HasShrunk) == []
  {
    var x, y := Row("/x", 100, 150), Row("/y", 0, 20);
    assert [x, y][1..] == [y];
    assert Filter([y], HasGrown) == [y];
  }

  lemma ExampleOrder()
    ensures SortBy([Row("/x", 100, 150), Row("/y", 0, 20)], Growth) == [Row("/x", 100, 150), Row("/y", 0, 20)]
  {
    var x, y := Row("/x", 100, 150), Row("/y", 0, 20);
    assert [x, y][1..] == [y];
    assert SortBy([y], Growth) == [y];
    assert Insert(x, [y], Growth) == [x, y];
  }

  /** The grown list of the example holds "/x" (growth 50) before "/y" (growth 20). */
  lemma ExampleGrown()
    ensures Grown(Merge(ExampleBefore, ExampleAfter), 20) == [Row("/x", 100, 150), Row("/y", 0, 20)]
  {
    ExampleRows();
    ExampleCandidates();
    ExampleOrder();
  }

  /** A limit of 1 keeps only "/x", the directory that grew most. */
  lemma ExampleGrownTop()
    ensures Grown(Merge(ExampleBefore, ExampleAfter), 1) == [Row("/x", 100, 150)]
  {
    ExampleRows();
    ExampleCandidates();
    ExampleOrder();
  }

  /** Nothing shrank in the example. */
  lemma ExampleShrunk()
    ensures Shrunk(Merge(ExampleBefore, ExampleAfter), 20) == []
  {
    ExampleRows();
    ExampleCandidates();
  }

  /** Why a snapshot could not be loaded: its file does not exist, or reading or
      decoding it raised some other error, carried as that error's text. */
  datatype LoadError = FileNotFound | Failed(message: string)

  /** What the comparison prints: the two tables, or one error line. */
  datatype Report = Tables(grown: seq<Row>, shrunk: seq<Row>) | Message(text: string)

  const NotFoundPrefix: string := "Error: The file '"
  const NotFoundSuffix: string := "' was not found."
  const FailurePrefix: string := "An error occurred: "

  /** The line printed when loading the snapshot at `path` fails. A missing file gives
      a line that names the path; any other error gives a line that carries its text.
      The two kinds of line are told apart by their first character. */
  function ErrorText(path: string, e: LoadError): (line: string)
    ensures e.FileNotFound? ==>
      |line| == |NotFoundPrefix| + |path| + |NotFoundSuffix|
      && line[|NotFoundPrefix|..|NotFoundPrefix| + |path|] == path
    ensures e.Failed? ==> |line| == |FailurePrefix| + |e.message| && line[|FailurePrefix|..] == e.message
    ensures e.FileNotFound? <==> line[0] == 'E'
  {
    match e
    case FileNotFound => NotFoundPrefix + path + NotFoundSuffix
    case Failed(message) => FailurePrefix + message
  }

  /** Loads the snapshots at `beforePath` and `afterPath` (the "before" one first),
      builds both directory tables, and ranks the difference. A load error replaces
      both tables by its message, which names the path of the load that failed. */
  method CompareData(beforePath: string, afterPath: string,
                     before: Result<Snapshot, LoadError>, after: Result<Snapshot, LoadError>, limit: nat)
    returns (report: Report)
    ensures report.Tables? <==> before.Ok? && after.Ok?
    ensures before.Err? ==> report == Message(ErrorText(beforePath, before.error))
    ensures before.Ok? && after.Err? ==> report == Message(ErrorText(afterPath, after.error))
    ensures before.Ok? && after.Ok? ==>
      var rows := Merge(DirSizes.DirSizes(Pooled(before.value)), DirSizes.DirSizes(Pooled(after.value)));
      report == Tables(Grown(rows, limit), Shrunk(rows, limit))
    ensures before.Ok? && before == after ==> report == Tables([], [])
  {
    if before.Err? {
      return Message(ErrorText(beforePath, before.error));
    }
    var tableBefore := GetDirSizes(before.value);
    if after.Err? {
      return Message(ErrorText(afterPath, after.error));
    }
    var tableAfter := GetDirSizes(after.value);
    var rows := Merge(tableBefore, tableAfter);
    if before == after {
      SelfCompareEmpty(tableBefore, limit);
    }
    report := Tables(Grown(rows, limit), Shrunk(rows, limit));
  }
}
