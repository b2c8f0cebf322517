/** The directory-size aggregation of the size-diff reporter (`get_dir_sizes` in
    analyze_dive_json.py): pool the files of every layer of a dive snapshot, keep the
    real ones, add each one's size to every proper parent directory, and record the
    grand total under "/". */
module DirSizes {
  import opened Wrappers

  /** One component of a path as `pathlib` keeps it: non-empty, without a separator,
      and not "." (which `pathlib` drops). */
  type Segment = s: string | |s| > 0 && '/' !in s && s != "." witness "a"

  /** A path of a file list: absolute when it starts with "/". */
  datatype FilePath = FilePath(absolute: bool, segments: seq<Segment>)

  /** One object of a layer's `fileList`. `size` and `isDir` may be missing from the
      document. */
  datatype FileEntry = FileEntry(path: FilePath, size: Option<int>, isDir: Option<bool>)

  /** A layer's `fileList` (a missing list reads as empty). */
  type Layer = seq<FileEntry>

  /** A snapshot's `layer` list (a missing list reads as empty). */
  type Snapshot = seq<Layer>

  /** An entry of `all_files`: a real file and its size in bytes. */
  datatype FileRecord = FileRecord(path: FilePath, size: nat)

  /** Directory key to total size in bytes. */
  type DirTable = map<string, nat>

  const Root: string := "/"

  /** `file_info.get('size', 0)` */
  function SizeOf(e: FileEntry): int
  {
    if e.size.Some? then e.size.value else 0
  }

  /** `file_info.get('isDir', False)` */
  predicate IsDirOf(e: FileEntry)
  {
    e.isDir.Some? && e.isDir.value
  }

  /** A real file: positive size and not a directory. */
  predicate Qualifies(e: FileEntry)
  {
    SizeOf(e) > 0 && !IsDirOf(e)
  }

  /** The `all_files` entry of a qualifying entry. */
  function RecordOf(e: FileEntry): FileRecord
    requires Qualifies(e)
  {
    FileRecord(e.path, SizeOf(e) as nat)
  }

  /** The records of the qualifying entries of one file list, in list order. */
  function QualifyingIn(entries: seq<FileEntry>): (r: seq<FileRecord>)
    ensures |r| <= |entries|
    ensures forall k :: 0 <= k < |r| ==> r[k].size > 0
  {
    if entries == [] then []
    else
      var last := entries[|entries| - 1];
      QualifyingIn(entries[..|entries| - 1])
        + (if Qualifies(last) then [RecordOf(last)] else [])
  }

  /** `all_files`: the qualifying entries of all layers, layer after layer, with no
      de-duplication. */
  function Pooled(snapshot: Snapshot): (r: seq<FileRecord>)
    ensures forall k :: 0 <= k < |r| ==> r[k].size > 0
  {
    if snapshot == [] then []
    else Pooled(snapshot[..|snapshot| - 1]) + QualifyingIn(snapshot[|snapshot| - 1])
  }

  /** The segments joined with "/". */
  function JoinSegments(segs: seq<Segment>): string
  {
    if |segs| == 0 then ""
    else if |segs| == 1 then segs[0]
    else JoinSegments(segs[..|segs| - 1]) + "/" + segs[|segs| - 1]
  }

  /** The key written for the parent made of the first `k` segments of `p`: "/" in
      front of `str(parent)`, which is "/" alone for the top of an absolute path. */
  function DirKey(p: FilePath, k: nat): string
    requires k <= |p.segments|
  {
    "/" + (if p.absolute then "/" else "") + JoinSegments(p.segments[..k])
  }

  /** The shortest prefix that names a parent other than ".": the empty prefix of a
      relative path is "." and is skipped. */
  function FirstParent(p: FilePath): nat
  {
    if p.absolute then 0 else 1
  }

  /** The keys a file's size is added to, one per entry of `p.parents` other than
      ".", deepest first. */
  function Ancestors(p: FilePath): (r: seq<string>)
    ensures |r| == if |p.segments| > FirstParent(p) then |p.segments| - FirstParent(p) else 0
    ensures forall i :: 0 <= i < |r| ==> r[i] == DirKey(p, |p.segments| - 1 - i)
  {
    var n, lo := |p.segments|, FirstParent(p);
    if n <= lo then [] else seq(n - lo, i requires 0 <= i < n - lo => DirKey(p, n - 1 - i))
  }

  /** Sum of the sizes of `files` (`total_size`). */
  function Total(files: seq<FileRecord>): nat
  {
    if files == [] then 0 else Total(files[..|files| - 1]) + files[|files| - 1].size
  }

  /** Sum of the sizes of the files of `files` that lie strictly beneath the directory
      `key`, that is, that have `key` among their ancestors. */
  function DirTotal(files: seq<FileRecord>, key: string): nat
  {
    if files == [] then 0
    else
      var last := files[|files| - 1];
      DirTotal(files[..|files| - 1], key) + (if key in Ancestors(last.path) then last.size else 0)
  }

  /** Every directory key some file of `files` lies beneath. */
  function Keys(files: seq<FileRecord>): set<string>
  {
    if files == [] then {}
    else
      var a := Ancestors(files[|files| - 1].path);
      Keys(files[..|files| - 1]) + set i | 0 <= i < |a| :: a[i]
  }

  /** The table `get_dir_sizes` returns for the pooled files: each directory with files
      beneath it mapped to their total, and "/" to the total of all files. */
  function DirSizes(files: seq<FileRecord>): DirTable
  {
    map k | k in Keys(files) + {Root} :: if k == Root then Total(files) else DirTotal(files, k)
  }

  /** `get_dir_sizes` after the document is read: pool the qualifying entries of all
      layers, add each file's size to each of its parent keys, then write the total of
      all files under "/". */
  method GetDirSizes(snapshot: Snapshot) returns (table: DirTable)
    ensures table == DirSizes(Pooled(snapshot))
  {
    var allFiles := PoolFiles(snapshot);
    var dirSizes := SumIntoParents(allFiles);
    RootNotInKeys(allFiles);
    dirSizes := dirSizes[Root := Total(allFiles)];
    table := dirSizes;
  }

  /** The first loop of `get_dir_sizes`: append every qualifying entry of every layer
      to `all_files`. */
  method PoolFiles(snapshot: Snapshot) returns (allFiles: seq<FileRecord>)
    ensures allFiles == Pooled(snapshot)
  {
    allFiles := [];
    for i := 0 to |snapshot|
      invariant allFiles == Pooled(snapshot[..i])
    {
      var fileList := snapshot[i];
      for j := 0 to |fileList|
        invariant allFiles == Pooled(snapshot[..i]) + QualifyingIn(fileList[..j])
      {
        var fileInfo := fileList[j];
        if SizeOf(fileInfo) > 0 && !IsDirOf(fileInfo) {
          allFiles := allFiles + [FileRecord(fileInfo.path, SizeOf(fileInfo) as nat)];
        }
        assert fileList[..j + 1][..j] == fileList[..j];
      }
      assert fileList[..|fileList|] == fileList;
      assert snapshot[..i + 1][..i] == snapshot[..i];
    }
    assert snapshot[..|snapshot|] == snapshot;
  }

  /** The second loop of `get_dir_sizes`: the `defaultdict` after every file's size has
      been added to each of its parent keys. */
  method SumIntoParents(allFiles: seq<FileRecord>) returns (dirSizes: DirTable)
    ensures forall k :: k in dirSizes <==> k in Keys(allFiles)
    ensures forall k :: k in dirSizes ==> dirSizes[k] == DirTotal(allFiles, k)
  {
    dirSizes := map[];
    for i := 0 to |allFiles|
      invariant forall k :: k in dirSizes <==> k in Keys(allFiles[..i])
      invariant forall k :: k in dirSizes ==> dirSizes[k] == DirTotal(allFiles[..i], k)
    {
      var parents := Ancestors(allFiles[i].path);
      AncestorsDistinct(allFiles[i].path);
      forall k ensures k !in Keys(allFiles[..i]) ==> DirTotal(allFiles[..i], k) == 0 {
        DirTotalOutsideKeys(allFiles[..i], k);
      }
      dirSizes := AddToEach(dirSizes, parents, allFiles[i].size);
      assert allFiles[..i + 1][..i] == allFiles[..i];
    }
    assert allFiles[..|allFiles|] == allFiles;
  }

  /** The inner loop: `dir_sizes[key] += size` for every key of `keys`, a missing key
      starting from 0. */
  method AddToEach(m: DirTable, keys: seq<string>, size: nat) returns (r: DirTable)
    requires forall i, j :: 0 <= i < j < |keys| ==> keys[i] != keys[j]
    ensures forall k :: k in r <==> k in m || k in keys
    ensures forall k :: k in r ==> r[k] == (if k in m then m[k] else 0) + (if k in keys then size else 0)
  {
    r := m;
    for j := 0 to |keys|
      invariant forall k :: k in r <==> k in m || k in keys[..j]
      invariant forall k :: k in r ==> r[k] == (if k in m then m[k] else 0) + (if k in keys[..j] then size else 0)
    {
      var key := keys[j];
      assert key !in keys[..j];
      r := r[key := (if key in r then r[key] else 0) + size];
      assert keys[..j + 1] == keys[..j] + [key];
    }
    assert keys[..|keys|] == keys;
  }

  /** Joining one more segment makes the joined string strictly longer. */
  lemma JoinGrows(segs: seq<Segment>, k: nat)
    requires k < |segs|
    ensures |JoinSegments(segs[..k])| < |JoinSegments(segs[..k + 1])|
  {
    assert segs[..k + 1][..k] == segs[..k];
  }

  /** Longer prefixes give longer keys. */
  lemma {:induction false} DirKeyLengthGrows(p: FilePath, j: nat, k: nat)
    requires j < k <= |p.segments|
    ensures |DirKey(p, j)| < |DirKey(p, k)|
    decreases k - j
  {
    JoinGrows(p.segments, j);
    if j + 1 < k {
      DirKeyLengthGrows(p, j + 1, k);
    }
  }

  /** No key is added to twice for the same file. */
  lemma AncestorsDistinct(p: FilePath)
    ensures forall i, j :: 0 <= i < j < |Ancestors(p)| ==> Ancestors(p)[i] != Ancestors(p)[j]
  {
    var a, n := Ancestors(p), |p.segments|;
    forall i, j | 0 <= i < j < |a| ensures a[i] != a[j] {
      DirKeyLengthGrows(p, n - 1 - j, n - 1 - i);
    }
  }

  /** Every parent key is at least two characters long, so none of them is "/". */
  lemma RootNotAncestor(p: FilePath)
    ensures Root !in Ancestors(p)
  {
    var a, n := Ancestors(p), |p.segments|;
    forall i | 0 <= i < |a| ensures a[i] != Root {
      if !p.absolute {
        JoinGrows(p.segments, 0);
        assert |DirKey(p, n - 1 - i)| >= 2 by {
          if n - 1 - i > 1 { DirKeyLengthGrows(p, 1, n - 1 - i); }
        }
      }
    }
  }

  /** "/" is never a directory key of a file, so assigning it overwrites nothing. */
  lemma {:induction false} RootNotInKeys(files: seq<FileRecord>)
    ensures Root !in Keys(files)
  {
    if files != [] {
      RootNotInKeys(files[..|files| - 1]);
      RootNotAncestor(files[|files| - 1].path);
    }
  }

  /** A key no file lies beneath has total zero. */
  lemma {:induction false} DirTotalOutsideKeys(files: seq<FileRecord>, key: string)
    ensures key !in Keys(files) ==> DirTotal(files, key) == 0
  {
    if files != [] {
      DirTotalOutsideKeys(files[..|files| - 1], key);
    }
  }

  /** A record is kept from a file list exactly when it is the record of one of the
      list's qualifying entries. */
  lemma {:induction false} QualifyingInMeaning(entries: seq<FileEntry>, rec: FileRecord)
    ensures rec in QualifyingIn(entries) <==>
      exists j :: 0 <= j < |entries| && Qualifies(entries[j]) && rec == RecordOf(entries[j])
  {
    if entries != [] {
      var init, last := entries[..|entries| - 1], entries[|entries| - 1];
      QualifyingInMeaning(init, rec);
      if rec in QualifyingIn(init) {
        var j :| 0 <= j < |init| && Qualifies(init[j]) && rec == RecordOf(init[j]);
        assert entries[j] == init[j];
      }
      if exists j :: 0 <= j < |entries| && Qualifies(entries[j]) && rec == RecordOf(entries[j]) {
        var j :| 0 <= j < |entries| && Qualifies(entries[j]) && rec == RecordOf(entries[j]);
        if j < |init| {
          assert init[j] == entries[j];
        }
      }
    }
  }

  /** A record is pooled exactly when it is the record of a qualifying entry of some
      layer. */
  lemma {:induction false} PooledMeaning(snapshot: Snapshot, rec: FileRecord)
    ensures rec in Pooled(snapshot) <==>
      exists i, j :: 0 <= i < |snapshot| && 0 <= j < |snapshot[i]| && Qualifies(snapshot[i][j])
        && rec == RecordOf(snapshot[i][j])
  {
    if snapshot != [] {
      var init, last := snapshot[..|snapshot| - 1], snapshot[|snapshot| - 1];
      PooledMeaning(init, rec);
      QualifyingInMeaning(last, rec);
      if rec in Pooled(init) {
        var i, j :| 0 <= i < |init| && 0 <= j < |init[i]| && Qualifies(init[i][j]) && rec == RecordOf(init[i][j]);
        assert snapshot[i] == init[i];
      }
      if rec in QualifyingIn(last) {
        var j :| 0 <= j < |last| && Qualifies(last[j]) && rec == RecordOf(last[j]);
        assert snapshot[|snapshot| - 1][j] == last[j];
      }
      if exists i, j :: 0 <= i < |snapshot| && 0 <= j < |snapshot[i]| && Qualifies(snapshot[i][j])
          && rec == RecordOf(snapshot[i][j]) {
        var i, j :| 0 <= i < |snapshot| && 0 <= j < |snapshot[i]| && Qualifies(snapshot[i][j])
          && rec == RecordOf(snapshot[i][j]);
        if i < |init| {
          assert init[i] == snapshot[i];
        }
      }
    }
  }

  /** A directory some file lies beneath is a key. */
  lemma {:induction false} KeyOfFile(files: seq<FileRecord>, i: nat, key: string)
    requires i < |files| && key in Ancestors(files[i].path)
    ensures key in Keys(files)
  {
    var init, a := files[..|files| - 1], Ancestors(files[|files| - 1].path);
    if i == |files| - 1 {
      var j :| 0 <= j < |a| && a[j] == key;
    } else {
      assert init[i] == files[i];
      KeyOfFile(init, i, key);
    }
  }

  /** Every key has a file beneath it. */
  lemma {:induction false} FileOfKey(files: seq<FileRecord>, key: string) returns (i: nat)
    requires key in Keys(files)
    ensures i < |files| && key in Ancestors(files[i].path)
  {
    var init, a := files[..|files| - 1], Ancestors(files[|files| - 1].path);
    if key in a {
      i := |files| - 1;
    } else {
      assert key !in set j | 0 <= j < |a| :: a[j];
      i := FileOfKey(init, key);
      assert init[i] == files[i];
    }
  }

  /** A directory is a key exactly when some file lies beneath it. */
  lemma KeysMeaning(files: seq<FileRecord>, key: string)
    ensures key in Keys(files) <==> exists i :: 0 <= i < |files| && key in Ancestors(files[i].path)
  {
    if key in Keys(files) {
      var i := FileOfKey(files, key);
    }
    if exists i :: 0 <= i < |files| && key in Ancestors(files[i].path) {
      var i :| 0 <= i < |files| && key in Ancestors(files[i].path);
      KeyOfFile(files, i, key);
    }
  }

  /** A directory total never exceeds the total of all files. */
  lemma {:induction false} DirTotalAtMostTotal(files: seq<FileRecord>, key: string)
    ensures DirTotal(files, key) <= Total(files)
  {
    if files != [] {
      DirTotalAtMostTotal(files[..|files| - 1], key);
    }
  }

  /** When every file has a positive size, every directory key has a positive total. */
  lemma {:induction false} DirTotalPositive(files: seq<FileRecord>, key: string)
    requires forall i :: 0 <= i < |files| ==> files[i].size > 0
    requires key in Keys(files)
    ensures DirTotal(files, key) > 0
  {
    var init, last := files[..|files| - 1], files[|files| - 1];
    var a := Ancestors(last.path);
    if key !in a {
      assert key !in set i | 0 <= i < |a| :: a[i];
      DirTotalPositive(init, key);
    }
  }

  /** The table of a snapshot always has "/", holding the total of all qualifying
      files; every other key holds a positive total no larger than that of "/". */
  lemma TableBounds(snapshot: Snapshot)
    ensures var files := Pooled(snapshot); var t := DirSizes(files);
      && Root in t && t[Root] == Total(files)
      && forall k :: k in t && k != Root ==> 0 < t[k] <= t[Root]
  {
    var files := Pooled(snapshot);
    var t := DirSizes(files);
    forall k | k in t && k != Root ensures 0 < t[k] <= t[Root] {
      DirTotalPositive(files, k);
      DirTotalAtMostTotal(files, k);
    }
  }

  /** Layers contribute independently: the files of two snapshots put together are
      the files of the first followed by those of the second. */
  lemma {:induction false} PooledConcat(s1: Snapshot, s2: Snapshot)
    ensures Pooled(s1 + s2) == Pooled(s1) + Pooled(s2)
    decreases |s2|
  {
    if s2 != [] {
      var init := s2[..|s2| - 1];
      assert (s1 + s2)[..|s1 + s2| - 1] == s1 + init;
      assert (s1 + s2)[|s1 + s2| - 1] == s2[|s2| - 1];
      PooledConcat(s1, init);
    } else {
      assert s1 + s2 == s1;
    }
  }

  /** The total of two lists of files put together is the sum of their totals. */
  lemma {:induction false} TotalConcat(a: seq<FileRecord>, b: seq<FileRecord>)
    ensures Total(a + b) == Total(a) + Total(b)
    decreases |b|
  {
    if b != [] {
      assert (a + b)[..|a + b| - 1] == a + b[..|b| - 1];
      assert (a + b)[|a + b| - 1] == b[|b| - 1];
      TotalConcat(a, b[..|b| - 1]);
    } else {
      assert a + b == a;
    }
  }

  /** There is no de-duplication: a file listed in two layers counts twice in "/". */
  lemma DuplicateCountedTwice(e: FileEntry)
    requires Qualifies(e)
    ensures DirSizes(Pooled([[e], [e]]))[Root] == 2 * SizeOf(e)
  {
    var once := Pooled([[e]]);
    var rec := FileRecord(e.path, SizeOf(e) as nat);
    assert QualifyingIn([e]) == [rec] by { assert [e][..0] == []; }
    assert once == [rec] by {
      assert [[e]][..0] == [];
      assert Pooled([[e]]) == Pooled([]) + QualifyingIn([e]);
    }
    assert Total(once) == rec.size by { assert once[..0] == []; }
    assert [[e], [e]] == [[e]] + [[e]];
    PooledConcat([[e]], [[e]]);
    TotalConcat(once, once);
  }

  /** A snapshot without qualifying files yields the single entry "/" with 0. */
  lemma {:induction false} NoFilesOnlyRoot(snapshot: Snapshot)
    requires forall i, j :: 0 <= i < |snapshot| && 0 <= j < |snapshot[i]| ==> !Qualifies(snapshot[i][j])
    ensures DirSizes(Pooled(snapshot)) == map[Root := 0]
  {
    NoQualifyingNoFiles(snapshot);
  }

  lemma {:induction false} NoQualifyingNoFiles(snapshot: Snapshot)
    requires forall i, j :: 0 <= i < |snapshot| && 0 <= j < |snapshot[i]| ==> !Qualifies(snapshot[i][j])
    ensures Pooled(snapshot) == []
  {
    if snapshot != [] {
      var init := snapshot[..|snapshot| - 1];
      NoQualifyingNoFiles(init);
      NoQualifyingInList(snapshot[|snapshot| - 1]);
    }
  }

  lemma {:induction false} NoQualifyingInList(entries: seq<FileEntry>)
    requires forall j :: 0 <= j < |entries| ==> !Qualifies(entries[j])
    ensures QualifyingIn(entries) == []
  {
    if entries != [] {
      NoQualifyingInList(entries[..|entries| - 1]);
    }
  }

  /** A top-level file of a relative path adds to no directory: its only parent is ".". */
  lemma TopLevelFileHasNoParentKey(name: Segment)
    ensures Ancestors(FilePath(false, [name])) == []
  {
  }

  /** The parent keys of `a/b/c.txt` and of `/a/b/c.txt`. */
  lemma AncestorsExamples()
    ensures Ancestors(FilePath(false, ["a", "b", "c.txt"])) == ["/a/b", "/a"]
    ensures Ancestors(FilePath(true, ["a", "b", "c.txt"])) == ["//a/b", "//a", "//"]
  {
    var segs: seq<Segment> := ["a", "b", "c.txt"];
    assert segs[..1] == ["a"] && segs[..2] == ["a", "b"] && segs[..0] == [];
    assert JoinSegments(segs[..1]) == "a";
    assert JoinSegments(segs[..2]) == "a/b" by { assert segs[..2][..1] == ["a"]; }
    var rel, abs := FilePath(false, segs), FilePath(true, segs);
    assert DirKey(rel, 2) == "/a/b" && DirKey(rel, 1) == "/a";
    assert DirKey(abs, 2) == "//a/b" && DirKey(abs, 1) == "//a" && DirKey(abs, 0) == "//";
  }

  /** Files `a/b/f1` (10 bytes) and `a/g` (5 bytes) give `/a/b` 10, `/a` 15 and `/` 15. */
  lemma TwoFilesExample()
    ensures DirSizes(Pooled([[FileEntry(FilePath(false, ["a", "b", "f1"]), Some(10), None),
                              FileEntry(FilePath(false, ["a", "g"]), Some(5), None)]]))
         == map["/a/b" := 10, "/a" := 15, "/" := 15]
  {
    var p1, p2 := FilePath(false, ["a", "b", "f1"]), FilePath(false, ["a", "g"]);
    var e1, e2 := FileEntry(p1, Some(10), None), FileEntry(p2, Some(5), None);
    var f1, f2 := FileRecord(p1, 10), FileRecord(p2, 5);
    assert QualifyingIn([e1, e2]) == [f1, f2] by {
      assert [e1, e2][..1] == [e1] && [e1][..0] == [];
    }
    assert Pooled([[e1, e2]]) == [f1, f2] by { assert [[e1, e2]][..0] == []; }
    ExampleTable(p1, p2);
  }

  lemma ExampleTable(p1: FilePath, p2: FilePath)
    requires p1 == FilePath(false, ["a", "b", "f1"]) && p2 == FilePath(false, ["a", "g"])
    ensures DirSizes([FileRecord(p1, 10), FileRecord(p2, 5)]) == map["/a/b" := 10, "/a" := 15, "/" := 15]
  {
    var files := [FileRecord(p1, 10), FileRecord(p2, 5)];
    ExampleKeys(p1, p2);
    ExampleTotals(p1, p2);
    var t := DirSizes(files);
    assert t.Keys == {"/a/b", "/a", "/"};
  }

  lemma ExampleKeys(p1: FilePath, p2: FilePath)
    requires p1 == FilePath(false, ["a", "b", "f1"]) && p2 == FilePath(false, ["a", "g"])
    ensures Keys([FileRecord(p1, 10), FileRecord(p2, 5)]) == {"/a/b", "/a"}
  {
    var f1, f2 := FileRecord(p1, 10), FileRecord(p2, 5);
    var files := [f1, f2];
    assert files[..1] == [f1] && [f1][..0] == [];
    ExampleAncestors(p1, p2);
    var a1, a2 := Ancestors(p1), Ancestors(p2);
    assert (set i | 0 <= i < |a1| :: a1[i]) == {"/a/b", "/a"} by {
      var S := set i | 0 <= i < |a1| :: a1[i];
      assert a1[0] in S by { assert 0 <= 0 < |a1|; }
      assert a1[1] in S;
      forall x | x in S ensures x == "/a/b" || x == "/a" {
        var i :| 0 <= i < |a1| && a1[i] == x;
      }
    }
    assert (set i | 0 <= i < |a2| :: a2[i]) == {"/a"} by {
      var S := set i | 0 <= i < |a2| :: a2[i];
      assert a2[0] in S by { assert 0 <= 0 < |a2|; }
    }
    assert Keys([f1]) == {"/a/b", "/a"};
  }

  lemma ExampleTotals(p1: FilePath, p2: FilePath)
    requires p1 == FilePath(false, ["a", "b", "f1"]) && p2 == FilePath(false, ["a", "g"])
    ensures var files := [FileRecord(p1, 10), FileRecord(p2, 5)];
      DirTotal(files, "/a/b") == 10 && DirTotal(files, "/a") == 15 && Total(files) == 15
  {
    var f1, f2 := FileRecord(p1, 10), FileRecord(p2, 5);
    var files := [f1, f2];
    assert files[..1] == [f1] && [f1][..0] == [];
    ExampleAncestors(p1, p2);
    var a1, a2 := Ancestors(p1), Ancestors(p2);
    assert DirTotal([f1], "/a/b") == 10;
    assert "/a/b" !in a2;
    assert DirTotal([f1], "/a") == 10 by { assert "/a" == a1[1]; }
    assert "/a" in a2;
    assert Total([f1]) == 10;
  }

  lemma ExampleAncestors(p1: FilePath, p2: FilePath)
    requires p1 == FilePath(false, ["a", "b", "f1"]) && p2 == FilePath(false, ["a", "g"])
    ensures Ancestors(p1) == ["/a/b", "/a"] && Ancestors(p2) == ["/a"]
  {
    assert p1.segments[..1] == ["a"] && p1.segments[..2] == ["a", "b"];
    assert p2.segments[..1] == ["a"];
    assert JoinSegments(["a", "b"]) == "a/b" by { assert ["a", "b"][..1] == ["a"]; }
    assert DirKey(p1, 2) == "/a/b" && DirKey(p1, 1) == "/a";
    assert DirKey(p2, 1) == "/a";
  }
}
