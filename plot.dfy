/** The non-graphical part of the size plotter (`plot_data` in plot.py): reading the
    image name from the title line, grouping rows into one series per Minor value,
    ordering each series by push time, and naming the output file. */
module Plot {
  import opened Wrappers
  import opened Text
  import opened Seqs
  import CsvOutput
  import Compare

  /** The index of the first line break in `s`, or `|s|` when there is none. */
  function LineEnd(s: string): (i: nat)
    ensures i <= |s|
    ensures forall k :: 0 <= k < i ==> !IsBreak(s[k])
    ensures i == |s| || IsBreak(s[i])
  {
    if s == [] || IsBreak(s[0]) then 0
    else
      var i := LineEnd(s[1..]);
      assert forall k :: 1 <= k < i + 1 ==> s[k] == s[1..][k - 1];
      i + 1
  }

  /** `f.readline()` on a file opened in text mode, whose universal newlines read "\n",
      "\r" and "\r\n" alike as "\n": the text up to the first line break, with that
      break read as "\n", or all of the text when it has no line break. */
  function FirstLine(content: string): (line: string)
    ensures forall k :: 0 <= k < |line| - 1 ==> !IsBreak(line[k])
    ensures || (line == content && OneLine(content))
            || (0 < |line| <= |content| && IsBreak(content[|line| - 1])
                && line == content[..|line| - 1] + "\n")
  {
    var i := LineEnd(content);
    if i == |content| then content else content[..i] + "\n"
  }

  /** The stripped first line of the file: no line break, and no white space at
      either end. */
  function TitleLine(content: string): (line: string)
    ensures OneLine(line)
    ensures line == [] || (!IsSpace(line[0]) && !IsSpace(line[|line| - 1]))
  {
    var first := FirstLine(content);
    var line := Strip(first);
    var a := SpaceEnd(first, 0);
    forall k | 0 <= k < |line| ensures !IsBreak(line[k]) {
      assert line[k] == first[a + k];
      if a + k == |first| - 1 {
        assert k == |line| - 1;
      }
    }
    line
  }

  /** Python's message for indexing past the end of a list. */
  const IndexErrorText: string := "list index out of range"

  /** `title_line.split(" for ")[1].split(" (")[0]`: the text after the first " for ",
      up to a second " for ", cut at the first " (". Indexing a one-piece split fails
      with Python's message. */
  function ImageName(line: string): (r: Result<string, string>)
    ensures r.Err? <==> !Contains(line, " for ")
    ensures r.Err? ==> r.error == IndexErrorText
  {
    var parts := Split(line, " for ");
    if |parts| < 2 then
      assert !Contains(line, " for ") by {
        assert JoinWith(parts, " for ") == parts[0];
      }
      Err(IndexErrorText)
    else
      assert Contains(line, " for ") by {
        ContainsSeparator(parts, " for ");
      }
      Ok(Split(parts[1], " (")[0])
  }

  /** Joining two or more parts puts the separator in the result. */
  lemma ContainsSeparator(parts: seq<string>, sep: string)
    requires |parts| >= 2
    ensures Contains(JoinWith(parts, sep), sep)
  {
    var rest := parts[1..];
    assert parts == [parts[0]] + rest;
    JoinWithCons(parts[0], rest, sep);
    var s := JoinWith(parts, sep);
    var i := |parts[0]|;
    assert s[i..i + |sep|] == sep;
    assert OccursAt(s, sep, i);
  }

  /** The image name is what follows the first " for ", up to a second " for ", cut at
      the first " (". */
  lemma ImageNameAfterFirstFor(pre: string, rest: string)
    requires forall j :: 0 <= j < |pre| ==> !OccursAt(pre + " for " + rest, " for ", j)
    ensures ImageName(pre + " for " + rest) == Ok(Split(Split(rest, " for ")[0], " (")[0])
  {
    var line := pre + " for " + rest;
    assert line[|pre|..|pre| + 5] == " for ";
    SplitAtFirst(line, " for ", |pre|);
    assert line[|pre| + 5..] == rest;
  }

  /** With no second " for " and no " (", the whole remainder is the image name. */
  lemma ImageNameWholeRemainder(pre: string, rest: string)
    requires forall j :: 0 <= j < |pre| ==> !OccursAt(pre + " for " + rest, " for ", j)
    requires !Contains(rest, " for ") && !Contains(rest, " (")
    ensures ImageName(pre + " for " + rest) == Ok(rest)
  {
    ImageNameAfterFirstFor(pre, rest);
    SplitAbsent(rest, " for ");
    SplitAbsent(rest, " (");
  }

  /** A field `csv.Writer` writes as it is and that holds no space or line break. */
  predicate PlainField(s: string)
  {
    forall k :: 0 <= k < |s| ==> s[k] !in {' ', '\n', '\r', ',', '"'}
  }

  /** The first line of a file is read up to its first line break. */
  lemma FirstLineOf(t: string, rest: string)
    requires OneLine(t)
    ensures FirstLine(t + "\n" + rest) == t + "\n"
  {
    var content := t + "\n" + rest;
    assert content[|t|] == '\n';
    assert forall k :: 0 <= k < |t| ==> content[k] == t[k];
    assert LineEnd(content) == |t|;
    assert content[..|t|] == t;
  }

  /** No " for " starts within `x + " ("` when `x` has no space: each such start is a
      character of `x` or the "(" that follows the space. */
  lemma NoForBeforeParen(x: string, y: string)
    requires ' ' !in x
    ensures forall j :: 0 <= j <= |x| + 1 ==> !OccursAt(x + " (" + y, " for ", j)
  {
    var r := x + " (" + y;
    forall j | 0 <= j <= |x| + 1 ensures !OccursAt(r, " for ", j) {
      if j + 5 <= |r| {
        var w := r[j..j + 5];
        assert w[0] == r[j] && w[1] == r[j + 1];
        if j < |x| {
          assert r[j] == x[j];
        } else if j == |x| {
          assert r[j + 1] == '(';
        } else {
          assert r[j] == '(';
        }
      }
    }
  }

  /** Cutting `x + " (" + y` at its first " for " keeps `x + " ("` and some prefix of
      `y`, when `x` has no space. */
  lemma ForPieceKeepsParen(x: string, y: string) returns (kept: string)
    requires ' ' !in x
    ensures Split(x + " (" + y, " for ")[0] == x + " (" + kept
  {
    var r := x + " (" + y;
    NoForBeforeParen(x, y);
    match Find(r, " for ", 0)
    case None =>
      kept := y;
    case Some(i) =>
      kept := y[..i - |x| - 2];
      assert r[..i] == x + " (" + kept;
  }

  /** " (" first occurs in `x + " (" + y` right after `x`. */
  lemma FirstParen(x: string, y: string)
    requires ' ' !in x
    ensures Split(x + " (" + y, " (")[0] == x
  {
    var r := x + " (" + y;
    assert r[|x|..|x| + 2] == " (";
    forall j | 0 <= j < |x| ensures !OccursAt(r, " (", j) {
      assert r[j..j + 2][0] == r[j] == x[j];
    }
    SplitFirstPiece(r, " (", |x|);
    assert r[..|x|] == x;
  }

  /** " for " first occurs in the title right after its fixed prefix. */
  lemma FirstForInTitle(rest: string)
    ensures forall j :: 0 <= j < |CsvOutput.TitleHead| ==> !OccursAt(CsvOutput.TitleHead + " for " + rest, " for ", j)
  {
    var line := CsvOutput.TitleHead + " for " + rest;
    forall j | 0 <= j < |CsvOutput.TitleHead| ensures !OccursAt(line, " for ", j) {
      assert line[j] == CsvOutput.TitleHead[j];
      assert line[j + 1] == (CsvOutput.TitleHead + " ")[j + 1];
    }
  }

  /** The title record read back as the first line of the file is the title. */
  lemma TitleLineOfTitle(t: string, rest: string)
    requires |t| > 0 && t[0] == '#' && t[|t| - 1] == ')'
    requires OneLine(t)
    ensures TitleLine(t + "\n" + rest) == t
  {
    FirstLineOf(t, rest);
    StripTrailing(t, "\n");
  }

  /** A plain field has no space and no line break. */
  lemma PlainSpaceFree(s: string)
    requires PlainField(s)
    ensures ' ' !in s && OneLine(s)
  {
    forall k | 0 <= k < |s| ensures s[k] != ' ' && !IsBreak(s[k]) {
      assert s[k] !in {' ', '\n', '\r', ',', '"'};
    }
  }

  /** Reading the image name back from the title the CSV export writes gives
      `registry/image`, as long as registry and image need no CSV quoting and hold no
      space, and the platform names hold no line break. */
  lemma TitleRoundTrip(registryName: string, image: string, osName: string, arch: string, rest: string)
    requires PlainField(registryName) && PlainField(image)
    requires OneLine(osName) && OneLine(arch)
    ensures ImageName(TitleLine(CsvOutput.Title(registryName, image, osName, arch) + "\n" + rest))
      == Ok(registryName + "/" + image)
  {
    PlainSpaceFree(registryName);
    PlainSpaceFree(image);
    var x := registryName + "/" + image;
    var y := osName + "/" + arch + ")";
    var r := x + " (" + y;
    var t := CsvOutput.Title(registryName, image, osName, arch);
    assert t == CsvOutput.TitleHead + " for " + r;
    TitleLineOfTitle(t, rest);
    FirstForInTitle(r);
    ImageNameAfterFirstFor(CsvOutput.TitleHead, r);
    var kept := ForPieceKeepsParen(x, y);
    FirstParen(x, kept);
  }

  /** One data row of the file after parsing: the cells the plot uses. `Minor` is an
      opaque label and `LastPush` an instant as an integer. */
  datatype PlotRow = PlotRow(version: string, sizeMiB: real, lastPush: int, minor: string)

  function RowTime(r: PlotRow): int
  {
    r.lastPush
  }

  /** The index of the first occurrence of `x` in `s`. */
  function FirstIndex(s: seq<string>, x: string): (i: nat)
    requires x in s
    ensures i < |s| && s[i] == x
    ensures forall j :: 0 <= j < i ==> s[j] != x
  {
    if s[0] == x then 0 else 1 + FirstIndex(s[1..], x)
  }

  /** `Series.unique()`: each value once, in order of first appearance. */
  function Unique(s: seq<string>): (u: seq<string>)
    ensures forall x :: x in u <==> x in s
    ensures forall i, j :: 0 <= i < j < |u| ==> u[i] != u[j]
    ensures forall i, j :: 0 <= i < j < |u| ==> FirstIndex(s, u[i]) < FirstIndex(s, u[j])
  {
    if s == [] then []
    else
      var init := s[..|s| - 1];
      var x := s[|s| - 1];
      var u := Unique(init);
      assert s == init + [x];
      FirstIndexInPrefix(init, x);
      if x in u then u else u + [x]
  }

  /** Appending a value leaves the first occurrences of the earlier values alone, and a
      new value's first occurrence is the last index. */
  lemma FirstIndexInPrefix(init: seq<string>, x: string)
    ensures forall y :: y in init ==> FirstIndex(init + [x], y) == FirstIndex(init, y)
    ensures x !in init ==> FirstIndex(init + [x], x) == |init|
  {
    var s := init + [x];
    forall y | y in init ensures FirstIndex(s, y) == FirstIndex(init, y) {
      var a, b := FirstIndex(s, y), FirstIndex(init, y);
      assert s[b] == y;
    }
    if x !in init {
      assert forall j :: 0 <= j < |init| ==> s[j] == init[j];
    }
  }

  /** The Minor labels of the rows, in row order. */
  function Minors(rows: seq<PlotRow>): (m: seq<string>)
    ensures |m| == |rows| && forall i :: 0 <= i < |rows| ==> m[i] == rows[i].minor
  {
    seq(|rows|, i requires 0 <= i < |rows| => rows[i].minor)
  }

  /** The rows of one Minor label, ordered by push time. */
  function Group(rows: seq<PlotRow>, minor: string): (g: seq<PlotRow>)
    ensures forall r :: multiset(g)[r] == if r.minor == minor then multiset(rows)[r] else 0
    ensures SortedBy(g, RowTime)
  {
    SortBy(Filter(rows, (r: PlotRow) => r.minor == minor), RowTime)
  }

  /** One line of the chart: a Minor label and its rows. */
  datatype Series = Series(minor: string, rows: seq<PlotRow>)

  /** The series the plot draws, one per distinct Minor label in order of first
      appearance. */
  function SeriesOf(rows: seq<PlotRow>): (series: seq<Series>)
    ensures |series| == |Unique(Minors(rows))|
    ensures forall g :: 0 <= g < |series| ==>
      series[g].minor == Unique(Minors(rows))[g] && series[g].rows == Group(rows, series[g].minor)
  {
    var labels := Unique(Minors(rows));
    seq(|labels|, g requires 0 <= g < |labels| => Series(labels[g], Group(rows, labels[g])))
  }

  /** A row of the file is in the group of a label exactly when it carries that label. */
  lemma InGroupIff(rows: seq<PlotRow>, minor: string, x: PlotRow)
    requires x in rows
    ensures x in Group(rows, minor) <==> x.minor == minor
  {
    assert multiset(rows)[x] > 0;
    assert x in Group(rows, minor) <==> multiset(Group(rows, minor))[x] > 0;
  }

  /** The label of every row is among the series labels. */
  lemma LabelOfRow(rows: seq<PlotRow>, k: nat) returns (g: nat)
    requires k < |rows|
    ensures g < |Unique(Minors(rows))| && Unique(Minors(rows))[g] == rows[k].minor
  {
    var labels := Unique(Minors(rows));
    assert Minors(rows)[k] == rows[k].minor;
    assert rows[k].minor in labels;
    g :| 0 <= g < |labels| && labels[g] == rows[k].minor;
  }

  /** Every row is drawn in exactly one series: the one of its own Minor label. */
  lemma RowInItsSeriesOnly(rows: seq<PlotRow>, k: nat)
    requires k < |rows|
    ensures exists g :: 0 <= g < |SeriesOf(rows)| && SeriesOf(rows)[g].minor == rows[k].minor
    ensures forall g :: 0 <= g < |SeriesOf(rows)| ==>
      (rows[k] in SeriesOf(rows)[g].rows <==> SeriesOf(rows)[g].minor == rows[k].minor)
  {
    var series := SeriesOf(rows);
    var g := LabelOfRow(rows, k);
    assert series[g].minor == rows[k].minor;
    forall h | 0 <= h < |series| ensures rows[k] in series[h].rows <==> series[h].minor == rows[k].minor {
      InGroupIff(rows, series[h].minor, rows[k]);
    }
  }

  /** The push times a series is drawn at do not depend on the order of the rows in
      the file. */
  lemma SeriesTimesIgnoreRowOrder(rows: seq<PlotRow>, shuffled: seq<PlotRow>, minor: string)
    requires multiset(shuffled) == multiset(rows)
    ensures KeysOf(Group(shuffled, minor), RowTime) == KeysOf(Group(rows, minor), RowTime)
  {
    var a, b := Group(shuffled, minor), Group(rows, minor);
    assert multiset(a) == multiset(b) by {
      forall r ensures multiset(a)[r] == multiset(b)[r] { }
    }
    SortedPermutationsAgreeOnKeys(a, b, RowTime);
  }

  /** `csv_file.replace('.csv', '.svg')`: a name of the same length, and a name
      without ".csv" is used as it is. */
  function OutputFileName(csvFile: string): (name: string)
    ensures |name| == |csvFile|
    ensures !Contains(csvFile, ".csv") ==> name == csvFile
  {
    Replace(csvFile, ".csv", ".svg")
  }

  /** A name ending in its only ".csv" gets ".svg" instead. */
  lemma OutputNameOfCsv(stem: string)
    requires !Contains(stem, ".csv")
    ensures OutputFileName(stem + ".csv") == stem + ".svg"
  {
    var s := stem + ".csv";
    var n := |stem|;
    assert s[n..n + 4] == ".csv";
    forall j | 0 <= j < n ensures !OccursAt(s, ".csv", j) {
      if j + 4 <= n {
        assert s[j..j + 4] == stem[j..j + 4];
        assert !OccursAt(stem, ".csv", j);
      } else {
        assert s[n] == '.' && ".csv"[n - j] != '.';
        assert s[j..j + 4][n - j] == s[n];
      }
    }
    SplitAtFirst(s, ".csv", n);
    assert s[..n] == stem && s[n + 4..] == [];
    SplitAbsent([], ".csv");
    JoinWithCons(stem, [[]], ".svg");
  }

  /** Every ".csv" is turned into ".svg", left to right: the first one becomes ".svg"
      and the rest of the name is renamed the same way. */
  lemma OutputNameAtFirstCsv(a: string, b: string)
    requires forall j :: 0 <= j < |a| ==> !OccursAt(a + ".csv" + b, ".csv", j)
    ensures OutputFileName(a + ".csv" + b) == a + ".svg" + OutputFileName(b)
  {
    ReplaceAtFirst(a, ".csv", b, ".svg");
  }

  /** A path made of dot-free pieces joined by ".csv" is saved under the same pieces
      joined by ".svg": every ".csv" changes, so "a.csv/b.csv" becomes "a.svg/b.svg". */
  lemma {:induction false} OutputNameEachCsv(parts: seq<string>)
    requires |parts| >= 1
    requires forall k :: 0 <= k < |parts| ==> '.' !in parts[k]
    ensures OutputFileName(JoinWith(parts, ".csv")) == JoinWith(parts, ".svg")
  {
    var a := parts[0];
    if |parts| == 1 {
      forall j | 0 <= j <= |a| ensures !OccursAt(a, ".csv", j) {
        if j + 4 <= |a| {
          assert a[j..j + 4][0] == a[j] && a[j] in a;
        }
      }
    } else {
      var b := JoinWith(parts[1..], ".csv");
      JoinWithCons(a, parts[1..], ".csv");
      assert [a] + parts[1..] == parts;
      forall j | 0 <= j < |a| ensures !OccursAt(a + ".csv" + b, ".csv", j) {
        assert (a + ".csv" + b)[j..j + 4][0] == a[j] && a[j] in a;
      }
      OutputNameAtFirstCsv(a, b);
      OutputNameEachCsv(parts[1..]);
      JoinWithCons(a, parts[1..], ".svg");
    }
  }

  /** The start of the chart's title, before the image name. */
  const ChartHead: string := "Image Size Analysis for "

  /** What a run of the plotter comes to: a chart, shown on screen or saved under a
      file name, or one error line. */
  datatype Outcome = Chart(title: string, series: seq<Series>, savedAs: Option<string>) | Message(text: string)

  /** The plotter over a file whose text is `content` (`None` when it does not exist)
      and whose data rows parse to `rows` (or fail with a message). */
  function PlotData(csvFile: string, content: Option<string>, rows: Result<seq<PlotRow>, string>, interactive: bool)
    : (o: Outcome)
    ensures o.Chart? <==> content.Some? && Contains(TitleLine(content.value), " for ") && rows.Ok?
    ensures content.None? ==> o == Message(Compare.ErrorText(csvFile, Compare.FileNotFound))
    ensures content.Some? && !Contains(TitleLine(content.value), " for ") ==>
      o == Message(Compare.ErrorText(csvFile, Compare.Failed(IndexErrorText)))
    ensures o.Chart? ==>
      && o.title == ChartHead + ImageName(TitleLine(content.value)).value
      && o.series == SeriesOf(rows.value)
      && o.savedAs == (if interactive then None else Some(OutputFileName(csvFile)))
  {
    match content
    case None => Message(Compare.ErrorText(csvFile, Compare.FileNotFound))
    case Some(text) =>
      match ImageName(TitleLine(text))
      case Err(e) => Message(Compare.ErrorText(csvFile, Compare.Failed(e)))
      case Ok(name) =>
        match rows
        case Err(e) => Message(Compare.ErrorText(csvFile, Compare.Failed(e)))
        case Ok(parsed) =>
          Chart(ChartHead + name, SeriesOf(parsed), if interactive then None else Some(OutputFileName(csvFile)))
  }

  /** A lone carriage return ends the title line, so a " for " after it is not seen:
      the file `# T\r for x (y)\n…` gets the index error and no chart. */
  lemma CarriageReturnEndsTitle(csvFile: string, rows: Result<seq<PlotRow>, string>, interactive: bool)
    ensures PlotData(csvFile, Some("# T\r for x (y)\n"), rows, interactive)
            == Message(Compare.ErrorText(csvFile, Compare.Failed(IndexErrorText)))
  {
    var c := "# T\r for x (y)\n";
    assert !IsBreak(c[0]) && !IsBreak(c[1]) && !IsBreak(c[2]) && IsBreak(c[3]);
    assert LineEnd(c) == 3;
    assert FirstLine(c) == "# T" + "\n";
    StripTrailing("# T", "\n");
    assert TitleLine(c) == "# T";
    assert !Contains("# T", " for ");
  }
}
