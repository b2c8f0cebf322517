/** The CSV export of internal/output/csv.go: a title record, a header record, and
    one row per image record in push-time order. */
module CsvOutput {
  import opened Wrappers
  import opened Text
  import opened Seqs
  import opened ImageRecords
  import opened Sorting

  /** A CSV writer over a sink that takes `capacity` records (all of them when
      `None`) and afterwards refuses every write with the error text `failure`. */
  class CsvWriter {
    /** The records written so far. */
    var records: seq<seq<string>>
    /** How many writes were attempted, refused ones included. */
    var attempts: nat
    const capacity: Option<nat>
    const failure: string

    constructor (capacity: Option<nat>, failure: string)
      ensures records == [] && attempts == 0
      ensures this.capacity == capacity && this.failure == failure
    {
      records := [];
      attempts := 0;
      this.capacity := capacity;
      this.failure := failure;
    }

    /** The next write succeeds. */
    predicate Accepts()
      reads this
    {
      capacity.None? || |records| < capacity.value
    }

    /** `csv.Writer.Write`: appends `record`, or reports the sink's error and leaves
        the written records as they were. */
    method Write(record: seq<string>) returns (err: Option<string>)
      modifies this
      ensures err == if old(Accepts()) then None else Some(failure)
      ensures records == if old(Accepts()) then old(records) + [record] else old(records)
      ensures attempts == old(attempts) + 1
    {
      attempts := attempts + 1;
      if Accepts() {
        records := records + [record];
        err := None;
      } else {
        err := Some(failure);
      }
    }
  }

  /** The fixed start of the title, before " for " and the image. */
  const TitleHead: string := "# Image Size Analysis"

  /** The title record's single field: a comment line naming the image and its
      platform, which holds a line break only when one of the four names does. */
  function Title(registryName: string, image: string, osName: string, arch: string): (t: string)
    ensures |t| > 0 && t[0] == '#' && t[|t| - 1] == ')'
    ensures OneLine(registryName) && OneLine(image) && OneLine(osName) && OneLine(arch) ==> OneLine(t)
  {
    var head := TitleHead + " for ";
    assert OneLine(head);
    assert OneLine("/") && OneLine(" (") && OneLine(")");
    OneLineConcat(head, registryName);
    OneLineConcat(head + registryName, "/");
    OneLineConcat(head + registryName + "/", image);
    OneLineConcat(head + registryName + "/" + image, " (");
    OneLineConcat(head + registryName + "/" + image + " (", osName);
    OneLineConcat(head + registryName + "/" + image + " (" + osName, "/");
    OneLineConcat(head + registryName + "/" + image + " (" + osName + "/", arch);
    OneLineConcat(head + registryName + "/" + image + " (" + osName + "/" + arch, ")");
    head + registryName + "/" + image + " (" + osName + "/" + arch + ")"
  }

  const Header: seq<string> := ["Version", "SizeMiB", "LastPush", "Major", "Minor", "Patch", "Prerelease"]

  /** The header names seven distinct columns, among them the four the plotter reads
      back by name. */
  lemma HeaderColumns()
    ensures |Header| == 7
    ensures forall i, j :: 0 <= i < j < |Header| ==> Header[i] != Header[j]
    ensures Header[0] == "Version" && Header[1] == "SizeMiB" && Header[2] == "LastPush" && Header[4] == "Minor"
  {
    forall i, j | 0 <= i < j < |Header| ensures Header[i] != Header[j] {
      assert Header[i][0] != Header[j][0] || Header[i][1] != Header[j][1];
    }
  }

  /** The guard of the Major cell, as written. */
  function MajorGuard(d: ImageData): (b: bool)
    ensures b <==> !IsZeroVersion(d)
  {
    d.major != 0 || (d.major == 0 && (d.minor != 0 || d.patch != 0 || d.prerelease != ""))
  }

  /** The guard of the Minor cell, as written. */
  function MinorGuard(d: ImageData): (b: bool)
    ensures b <==> !IsZeroVersion(d)
  {
    d.minor != 0 || (d.minor == 0 && (d.major != 0 || d.patch != 0 || d.prerelease != ""))
  }

  /** The guard of the Patch cell, as written. */
  function PatchGuard(d: ImageData): (b: bool)
    ensures b <==> !IsZeroVersion(d)
  {
    d.patch != 0 || (d.patch == 0 && (d.major != 0 || d.minor != 0 || d.prerelease != ""))
  }

  /** The seven cells of one record. The size and the push time are formatted by the
      given functions (two decimals, and `2006-01-02 15:04:05`). */
  function DataRow(d: ImageData, formatSize: real -> string, formatTime: int -> string): (row: seq<string>)
    ensures |row| == |Header| == 7
    ensures row[0] == d.version && row[6] == d.prerelease
    ensures row[1] == formatSize(d.sizeMiB) && row[2] == formatTime(d.lastPush)
    ensures IsZeroVersion(d) ==> row[3] == "" && row[4] == "" && row[5] == ""
    ensures !IsZeroVersion(d) ==> row[3] != "" && row[4] != "" && row[5] != ""
    ensures !IsZeroVersion(d) ==>
      row[3] == Decimal(d.major) && row[4] == Decimal(d.major) + "." + Decimal(d.minor) && row[5] == Decimal(d.patch)
  {
    var major := if MajorGuard(d) then Decimal(d.major) else "";
    var minor := if MinorGuard(d) then Decimal(d.major) + "." + Decimal(d.minor) else "";
    var patch := if PatchGuard(d) then Decimal(d.patch) else "";
    [d.version, formatSize(d.sizeMiB), formatTime(d.lastPush), major, minor, patch, d.prerelease]
  }

  /** Everything the export writes when no write fails. */
  function Document(data: seq<ImageData>, registryName: string, image: string, osName: string, arch: string,
                    formatSize: real -> string, formatTime: int -> string): (doc: seq<seq<string>>)
    ensures |doc| == |data| + 2
    ensures doc[0] == [Title(registryName, image, osName, arch)] && doc[1] == Header
    ensures forall i :: 2 <= i < |doc| ==> |doc[i]| == 7 && doc[i][0] == data[i - 2].version
    ensures forall i :: 0 <= i < |data| ==> doc[i + 2] == DataRow(data[i], formatSize, formatTime)
  {
    [[Title(registryName, image, osName, arch)], Header]
      + seq(|data|, i requires 0 <= i < |data| => DataRow(data[i], formatSize, formatTime))
  }

  /** How many of `count` further records a sink that already holds `held` records
      takes before it refuses one. */
  function Accepted(held: nat, capacity: Option<nat>, count: nat): (n: nat)
    ensures n <= count
    ensures capacity.None? ==> n == count
    ensures capacity.Some? && n < count ==> held + n >= capacity.value
    ensures capacity.Some? && n > 0 ==> held + n <= capacity.value
  {
    match capacity
    case None => count
    case Some(c) => if c <= held then 0 else if count <= c - held then count else c - held
  }

  /** The text put in front of the sink's error when the `k`-th write (from 0) fails:
      it says which kind of record was being written and ends in ": ". */
  function Context(k: nat): (c: string)
    ensures |c| > 13 && c[..12] == "writing CSV " && c[|c| - 2..] == ": "
  {
    if k == 0 then "writing CSV title: "
    else if k == 1 then "writing CSV header: "
    else "writing CSV record: "
  }

  /** The title, the header and the data rows have different contexts, and all data
      rows share one. */
  lemma ContextsDistinct(k: nat)
    requires k >= 2
    ensures Context(0) != Context(1) && Context(1) != Context(k) && Context(0) != Context(k)
    ensures Context(k) == Context(2)
  {
    assert Context(0)[12] == 't' && Context(1)[12] == 'h' && Context(k)[12] == 'r';
  }

  /** The state a run of writes over `doc` leaves behind: the sink took the first
      `n` records, where `n` is what its capacity admits; the run ends with no error
      when all were taken and otherwise with the context of the refused one; and every
      write up to and including the refused one was attempted, none after it. */
  predicate WroteDocument(records: seq<seq<string>>, attempts: nat, held: seq<seq<string>>, tried: nat,
                          capacity: Option<nat>, failure: string, doc: seq<seq<string>>, err: Option<string>)
  {
    var n := Accepted(|held|, capacity, |doc|);
    && records == held + doc[..n]
    && (err.None? <==> n == |doc|)
    && (err.Some? ==> err.value == Context(n) + failure)
    && attempts == tried + (if err.Some? then n + 1 else n)
  }

  /** A run that wrote the first `k` records and had the next one refused. */
  lemma StoppedAt(records: seq<seq<string>>, held: seq<seq<string>>, tried: nat,
                  capacity: Option<nat>, failure: string, doc: seq<seq<string>>, k: nat)
    requires k < |doc| && records == held + doc[..k]
    requires capacity.Some? && |held| + k >= capacity.value
    requires k == 0 || |held| + k <= capacity.value
    ensures WroteDocument(records, tried + k + 1, held, tried, capacity, failure, doc, Some(Context(k) + failure))
  {
  }

  /** A run that wrote every record. */
  lemma WroteAll(records: seq<seq<string>>, held: seq<seq<string>>, tried: nat,
                 capacity: Option<nat>, failure: string, doc: seq<seq<string>>)
    requires records == held + doc
    requires capacity.Some? ==> |held| + |doc| <= capacity.value
    ensures WroteDocument(records, tried + |doc|, held, tried, capacity, failure, doc, None)
  {
    assert doc[..|doc|] == doc;
  }

  /** Sorts `data` by push time in place, then writes the title, the header and one row
      per record. The first refused write ends the export with that write's context and
      the sink's error; nothing after it is attempted. */
  method ToCSV(data: array<ImageData>, w: CsvWriter, registryName: string, image: string, osName: string, arch: string,
               formatSize: real -> string, formatTime: int -> string)
    returns (err: Option<string>)
    modifies data, w
    ensures SortedBy(data[..], PushTime)
    ensures multiset(data[..]) == multiset(old(data[..]))
    ensures WroteDocument(w.records, w.attempts, old(w.records), old(w.attempts), w.capacity, w.failure,
                          Document(data[..], registryName, image, osName, arch, formatSize, formatTime), err)
  {
    SortData(data);
    err := WriteDocument(data, w, registryName, image, osName, arch, formatSize, formatTime);
  }

  /** The writing half of `ToCSV`, over records already in order. */
  method WriteDocument(data: array<ImageData>, w: CsvWriter, registryName: string, image: string, osName: string, arch: string,
                       formatSize: real -> string, formatTime: int -> string)
    returns (err: Option<string>)
    modifies w
    ensures WroteDocument(w.records, w.attempts, old(w.records), old(w.attempts), w.capacity, w.failure,
                          Document(data[..], registryName, image, osName, arch, formatSize, formatTime), err)
  {
    ghost var recs := data[..];
    ghost var doc := Document(recs, registryName, image, osName, arch, formatSize, formatTime);
    ghost var held, tried := w.records, w.attempts;
    err := WriteNext(w, [Title(registryName, image, osName, arch)], held, tried, doc, 0);
    if err.Some? {
      return;
    }
    err := WriteNext(w, Header, held, tried, doc, 1);
    if err.Some? {
      return;
    }
    err := WriteRows(data, w, formatSize, formatTime, held, tried, doc);
  }

  /** The data rows of `ToCSV`, written after the title and the header were taken. */
  method WriteRows(data: array<ImageData>, w: CsvWriter, formatSize: real -> string, formatTime: int -> string,
                   ghost held: seq<seq<string>>, ghost tried: nat, ghost doc: seq<seq<string>>)
    returns (err: Option<string>)
    requires |doc| == data.Length + 2
    requires forall i :: 0 <= i < data.Length ==> doc[i + 2] == DataRow(data[i], formatSize, formatTime)
    requires w.records == held + doc[..2] && w.attempts == tried + 2
    requires w.capacity.Some? ==> |held| + 2 <= w.capacity.value
    modifies w
    ensures WroteDocument(w.records, w.attempts, held, tried, w.capacity, w.failure, doc, err)
  {
    for i := 0 to data.Length
      modifies w
      invariant w.records == held + doc[..i + 2]
      invariant w.attempts == tried + i + 2
      invariant w.capacity.Some? ==> |held| + i + 2 <= w.capacity.value
    {
      err := WriteNext(w, DataRow(data[i], formatSize, formatTime), held, tried, doc, i + 2);
      if err.Some? {
        return;
      }
    }
    WroteAll(w.records, held, tried, w.capacity, w.failure, doc);
    return None;
  }

  /** Writes `doc[k]` after the first `k` records of `doc` were taken. On refusal the
      sink's error comes back wrapped with the context of the write, and the run's final
      state is reached. */
  method WriteNext(w: CsvWriter, record: seq<string>, ghost held: seq<seq<string>>, ghost tried: nat,
                   ghost doc: seq<seq<string>>, k: nat)
    returns (err: Option<string>)
    requires k < |doc| && record == doc[k]
    requires w.records == held + doc[..k] && w.attempts == tried + k
    requires k > 0 && w.capacity.Some? ==> |held| + k <= w.capacity.value
    modifies w
    ensures err.None? ==> w.records == held + doc[..k + 1] && w.attempts == tried + k + 1
    ensures err.None? ==> w.capacity.Some? ==> |held| + k + 1 <= w.capacity.value
    ensures err.Some? ==> WroteDocument(w.records, w.attempts, held, tried, w.capacity, w.failure, doc, err)
  {
    err := w.Write(record);
    if err.Some? {
      err := Some(Context(k) + err.value);
      StoppedAt(w.records, held, tried, w.capacity, w.failure, doc, k);
    } else {
      assert doc[..k + 1] == doc[..k] + [doc[k]];
    }
  }

  /** A string of digits has no dot. */
  lemma DigitsHaveNoDot(s: string)
    requires IsDigits(s)
    ensures forall j :: 0 <= j <= |s| ==> !OccursAt(s, ".", j)
    ensures !Contains(s, ".")
  {
    forall j | 0 <= j <= |s| ensures !OccursAt(s, ".", j) {
      if j < |s| {
        assert s[j..j + 1][0] == s[j];
      }
    }
  }

  /** A versioned record's Minor cell reads back, split at its dot, as the major and
      minor numbers; its Major and Patch cells read back as those numbers. */
  lemma VersionCellsReadBack(d: ImageData, formatSize: real -> string, formatTime: int -> string)
    requires !IsZeroVersion(d)
    ensures var row := DataRow(d, formatSize, formatTime);
      && Split(row[4], ".") == [Decimal(d.major), Decimal(d.minor)]
      && IsDigits(row[3]) && ParseDecimal(row[3]) == d.major
      && IsDigits(row[5]) && ParseDecimal(row[5]) == d.patch
      && ParseDecimal(Split(row[4], ".")[0]) == d.major
      && ParseDecimal(Split(row[4], ".")[1]) == d.minor
  {
    var a, b := Decimal(d.major), Decimal(d.minor);
    var cell := a + "." + b;
    var i := |a|;
    assert cell[i..i + 1] == ".";
    forall j | 0 <= j < i ensures !OccursAt(cell, ".", j) {
      assert cell[j..j + 1][0] == a[j];
    }
    SplitAtFirst(cell, ".", i);
    assert cell[..i] == a && cell[i + 1..] == b;
    DigitsHaveNoDot(b);
    SplitAbsent(b, ".");
    DecimalRoundTrip(d.major);
    DecimalRoundTrip(d.minor);
    DecimalRoundTrip(d.patch);
  }
}
