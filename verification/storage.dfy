/**
  Where and how a consumer persists a batch: the daily paths of
  `get_write_path`, the header-once append discipline of `write_csv` and the
  overwrite of `dump_json`. The file system is a map from path to the lines
  of the file; a path in `denied` cannot be opened, which both writers catch.
 */
module Storage {
  import opened Wrappers
  import opened Strings
  import opened Json
  import opened Clock
  import opened Records
  import opened Seqs

  /** One line of a file: the CSV header, one CSV row, or a whole JSON document. */
  datatype Line = HeaderLine(names: seq<string>) | RowLine(row: Row) | JsonLine(doc: Json)

  datatype FileSystem = FileSystem(files: map<string, seq<Line>>, denied: set<string>)

  /** `os.path.join(a, b)` on POSIX for two components. */
  function PathJoin(a: string, b: string): (r: string)
    ensures |b| > 0 && b[0] == '/' ==> r == b
    ensures !(|b| > 0 && b[0] == '/') ==> r == RootPrefix(a) + b
  {
    if |b| > 0 && b[0] == '/' then b
    else if a == "" || EndsWith(a, '/') then a + b
    else a + "/" + b
  }

  /** The directory of one day's output, `<SCRAP_DATA>/<YYYY-MM-DD>`. */
  function DayDir(root: string, at: DateTime): (r: string)
    requires Valid(at)
    ensures r == RootPrefix(root) + DateString(at)
  {
    assert DateString(at)[0] != '/' by {
      assert DateString(at)[..4][0] == DateString(at)[0];
    }
    PathJoin(root, DateString(at))
  }

  /** The prefix `os.path.join(root, x)` puts before any relative `x`. */
  function RootPrefix(root: string): string {
    if root == "" || EndsWith(root, '/') then root else root + "/"
  }

  lemma JoinRelative(a: string, b: string)
    requires !(|b| > 0 && b[0] == '/')
    ensures PathJoin(a, b) == RootPrefix(a) + b
  {
  }

  lemma DayDirShape(root: string, at: DateTime)
    requires Valid(at)
    ensures DayDir(root, at) == RootPrefix(root) + DateString(at)
    ensures DayDir(root, at) != "" && !EndsWith(DayDir(root, at), '/')
  {
    var ds := DateString(at);
    assert ds[0] != '/' && ds[9] != '/';
    JoinRelative(root, ds);
    var d := RootPrefix(root) + ds;
    assert d[|d| - 1] == ds[9];
  }

  /**
    `get_write_path(datetime)`: the day's `processed.csv` and a JSON file
    under the day's `dump` directory named after `stamp`, the text of
    `str(datetime.timestamp())`, with every '.' replaced by '_'. (A stamp
    starting with '/' would make `join` drop the directories; the text of a
    float never does.)
   */
  function WritePaths(root: string, at: DateTime, stamp: string): (paths: (string, string))
    requires Valid(at)
    ensures paths.0 == RootPrefix(root) + DateString(at) + "/" + "processed.csv"
    ensures !(|stamp| > 0 && stamp[0] == '/') ==>
      paths.1 == RootPrefix(root) + DateString(at) + "/" + "dump" + "/" + ReplaceChar(stamp, '.', '_') + ".json"
    ensures paths.0 != paths.1
  {
    var day := DayDir(root, at);
    var name := ReplaceChar(stamp, '.', '_');
    var csv := PathJoin(day, "processed.csv");
    var dump := PathJoin(PathJoin(day, "dump"), name + ".json");
    DayDirShape(root, at);
    PathFacts(RootPrefix(root) + DateString(at), name, stamp);
    (csv, dump)
  }

  lemma PathFacts(day: string, name: string, stamp: string)
    requires day != "" && !EndsWith(day, '/')
    requires name == ReplaceChar(stamp, '.', '_')
    ensures PathJoin(day, "processed.csv") == day + "/" + "processed.csv"
    ensures !(|stamp| > 0 && stamp[0] == '/') ==>
      PathJoin(PathJoin(day, "dump"), name + ".json") == day + "/" + "dump" + "/" + name + ".json"
    ensures PathJoin(day, "processed.csv") != PathJoin(PathJoin(day, "dump"), name + ".json")
  {
    var csv := CsvPath(day);
    var dump := DumpPath(day, name, stamp);
    assert csv[|csv| - 1] != dump[|dump| - 1];
  }

  /** The CSV file's path, which ends as "processed.csv" does. */
  lemma CsvPath(day: string) returns (csv: string)
    requires day != "" && !EndsWith(day, '/')
    ensures csv == PathJoin(day, "processed.csv") == day + "/" + "processed.csv"
    ensures csv[|csv| - 1] == 'v'
  {
    csv := PathJoin(day, "processed.csv");
    LastOfConcat(day + "/", "processed.csv");
  }

  /** The dump file's path, which ends as ".json" does. */
  lemma DumpPath(day: string, name: string, stamp: string) returns (dump: string)
    requires day != "" && !EndsWith(day, '/')
    requires name == ReplaceChar(stamp, '.', '_')
    ensures dump == PathJoin(PathJoin(day, "dump"), name + ".json")
    ensures !(|stamp| > 0 && stamp[0] == '/') ==> dump == day + "/" + "dump" + "/" + name + ".json"
    ensures dump[|dump| - 1] == 'n'
  {
    var dir := PathJoin(day, "dump");
    assert dir == day + "/" + "dump";
    var j := name + ".json";
    LastOfConcat(name, ".json");
    DumpJoin(dir, j);
    dump := PathJoin(dir, j);
    if !(|stamp| > 0 && stamp[0] == '/') {
      assert !(|j| > 0 && j[0] == '/');
      AppendAssoc(dir + "/", name, ".json");
    }
  }

  lemma LastOfConcat(a: string, b: string)
    requires |b| > 0
    ensures (a + b)[|a + b| - 1] == b[|b| - 1]
  {
  }

  lemma DumpJoin(dir: string, j: string)
    requires dir != "" && !EndsWith(dir, '/') && |j| > 0
    ensures (|j| > 0 && j[0] == '/') ==> PathJoin(dir, j) == j
    ensures !(|j| > 0 && j[0] == '/') ==> PathJoin(dir, j) == dir + "/" + j
    ensures PathJoin(dir, j)[|PathJoin(dir, j)| - 1] == j[|j| - 1]
  {
    LastOfConcat(dir + "/", j);
  }

  /** Every batch of one day goes to the same CSV file, and batches of different days to different ones. */
  lemma SameFileIffSameDay(root: string, a: DateTime, b: DateTime, stampA: string, stampB: string)
    requires Valid(a) && Valid(b)
    ensures WritePaths(root, a, stampA).0 == WritePaths(root, b, stampB).0 <==> SameDay(a, b)
  {
    DateStringInjective(a, b);
    if WritePaths(root, a, stampA).0 == WritePaths(root, b, stampB).0 {
      MiddleEqual(RootPrefix(root), DateString(a), DateString(b), "/", "processed.csv");
    }
  }

  /** Texts of equal length between the same prefix and suffixes are equal. */
  lemma MiddleEqual(p: string, x: string, y: string, q: string, q': string)
    requires |x| == |y| && p + x + q + q' == p + y + q + q'
    ensures x == y
  {
    assert (p + x + q + q')[|p|..|p| + |x|] == x;
    assert (p + y + q + q')[|p|..|p| + |y|] == y;
  }

  /** The CSV lines of `rows`, one per row, in order. */
  function RowLines(rows: seq<Row>): (lines: seq<Line>)
    ensures |lines| == |rows|
    ensures forall i :: 0 <= i < |rows| ==> lines[i] == RowLine(rows[i])
  {
    seq(|rows|, i requires 0 <= i < |rows| => RowLine(rows[i]))
  }

  /** A `processed.csv` as `DictWriter` leaves it: one header line of the seven field names, then rows only. */
  predicate WellFormedCsv(lines: seq<Line>) {
    |lines| > 0 && lines[0] == HeaderLine(FieldNames)
    && forall i :: 1 <= i < |lines| ==> lines[i].RowLine?
  }

  /** The rows a well-formed CSV file holds, in file order. */
  function ReadRows(lines: seq<Line>): (rows: seq<Row>)
    requires WellFormedCsv(lines)
    ensures |rows| == |lines| - 1
    ensures forall i :: 0 <= i < |rows| ==> lines[i + 1] == RowLine(rows[i])
  {
    seq(|lines| - 1, i requires 0 <= i < |lines| - 1 => lines[i + 1].row)
  }

  /** The rows already stored at `path`: none for a missing (or foreign) file. */
  function StoredRows(fs: FileSystem, path: string): seq<Row> {
    if path in fs.files && WellFormedCsv(fs.files[path]) then ReadRows(fs.files[path]) else []
  }

  /** A file the CSV writer can extend without breaking its shape. */
  predicate CsvReady(fs: FileSystem, path: string) {
    path !in fs.files || WellFormedCsv(fs.files[path])
  }

  /**
    `write_csv(data, path)`: append the rows to an existing file, or create
    it with the header first. A file that cannot be opened is logged and left
    alone. The source reads the field names off `data[0]`, so it needs at
    least one row; its only caller guarantees that.
   */
  function WriteCsv(fs: FileSystem, rows: seq<Row>, path: string): (r: FileSystem)
    requires |rows| > 0
    ensures r.denied == fs.denied
    ensures r.files - {path} == fs.files - {path}
    ensures path in fs.denied ==> r == fs
    ensures path !in fs.denied ==> path in r.files
    ensures path !in fs.denied && CsvReady(fs, path) ==>
      WellFormedCsv(r.files[path]) && ReadRows(r.files[path]) == StoredRows(fs, path) + rows
    ensures path !in fs.denied && path in fs.files ==>
      fs.files[path] <= r.files[path] && |r.files[path]| == |fs.files[path]| + |rows|
      && forall i :: 0 <= i < |rows| ==> r.files[path][|fs.files[path]| + i] == RowLine(rows[i])
  {
    if path in fs.denied then fs
    else if path in fs.files then
      var lines := fs.files[path] + RowLines(rows);
      FileSystem(fs.files[path := lines], fs.denied)
    else
      FileSystem(fs.files[path := [HeaderLine(FieldNames)] + RowLines(rows)], fs.denied)
  }

  /** `dump_json(data, path)`: replace the file by the document, unless it cannot be opened. */
  function DumpJson(fs: FileSystem, doc: Json, path: string): (r: FileSystem)
    ensures r.denied == fs.denied
    ensures r.files - {path} == fs.files - {path}
    ensures path in fs.denied ==> r == fs
    ensures path !in fs.denied ==> path in r.files && r.files[path] == [JsonLine(doc)]
  {
    if path in fs.denied then fs else FileSystem(fs.files[path := [JsonLine(doc)]], fs.denied)
  }

  /** Dumping twice to one path keeps only the second document. */
  lemma DumpOverwrites(fs: FileSystem, a: Json, b: Json, path: string)
    ensures DumpJson(DumpJson(fs, a, path), b, path) == DumpJson(fs, b, path)
  {
  }

  /** Two batches of one day land in one file under a single header, the earlier batch first. */
  lemma TwoBatchesOneHeader(fs: FileSystem, first: seq<Row>, second: seq<Row>, path: string)
    requires |first| > 0 && |second| > 0
    requires path !in fs.denied && path !in fs.files
    ensures var after := WriteCsv(WriteCsv(fs, first, path), second, path);
      WellFormedCsv(after.files[path]) && ReadRows(after.files[path]) == first + second
      && after.files[path][0] == HeaderLine(FieldNames)
      && forall i :: 1 <= i < |after.files[path]| ==> after.files[path][i] != HeaderLine(FieldNames)
  {
    var mid := WriteCsv(fs, first, path);
    assert StoredRows(mid, path) == first;
  }
}
