/**
  A consumer thread of the scraper (`WorkerThread`): its FIFO queue, the
  `DATA_PROCESSOR` role check, and what processing one `ScrapMessage` does to
  the file system. An exception escaping `process_message` ends the thread.
 */
module Worker {
  import opened Wrappers
  import opened Json
  import opened Clock
  import opened Records
  import opened Storage

  /** The one role whose worker writes anything. */
  const DataProcessor: string := "DATA_PROCESSOR"

  /** What a queue can hold: `put_message` accepts anything, `run` only processes `ScrapMessage`s. */
  datatype Item = Scrap(message: Message) | Other

  /** A worker: its role, its queue (front first) and whether its thread is still running. */
  datatype Worker = Worker(role: string, inbox: seq<Item>, alive: bool)

  /** Messages built by the producer carry a real `datetime.now()`. */
  predicate WellTimed(items: seq<Item>) {
    forall i :: 0 <= i < |items| ==> (items[i].Scrap? ==> Valid(items[i].message.datetime))
  }

  /** `put_message`: enqueue at the back. */
  function PutMessage(w: Worker, item: Item): (r: Worker)
    ensures r.role == w.role && r.alive == w.alive
    ensures |r.inbox| == |w.inbox| + 1 && r.inbox[|w.inbox|] == item
    ensures w.inbox <= r.inbox
  {
    w.(inbox := w.inbox + [item])
  }

  /** `queue.get()`: the front item and the rest; `None` stands for blocking on an empty queue. */
  function Take(w: Worker): (r: Option<(Item, Worker)>)
    ensures r.None? <==> |w.inbox| == 0
    ensures r.Some? ==> r.value.1.role == w.role && r.value.1.alive == w.alive
    ensures r.Some? ==> [r.value.0] + r.value.1.inbox == w.inbox
  {
    if |w.inbox| == 0 then None else Some((w.inbox[0], w.(inbox := w.inbox[1..])))
  }

  function PutAll(w: Worker, items: seq<Item>): Worker
    decreases |items|
  {
    if |items| == 0 then w else PutAll(PutMessage(w, items[0]), items[1..])
  }

  /** Everything `Take` hands out, in order, until the queue is empty. */
  function Drain(w: Worker): seq<Item>
    decreases |w.inbox|
  {
    match Take(w)
    case None => []
    case Some((item, rest)) => [item] + Drain(rest)
  }

  lemma {:induction false} DrainIsInbox(w: Worker)
    ensures Drain(w) == w.inbox
    decreases |w.inbox|
  {
    if |w.inbox| > 0 {
      DrainIsInbox(w.(inbox := w.inbox[1..]));
    }
  }

  lemma {:induction false} PutAllAppends(w: Worker, items: seq<Item>)
    ensures PutAll(w, items) == w.(inbox := w.inbox + items)
    decreases |items|
  {
    if |items| > 0 {
      PutAllAppends(PutMessage(w, items[0]), items[1..]);
      assert w.inbox + [items[0]] + items[1..] == w.inbox + items;
    }
  }

  /** The queue is first in, first out: items come out in the order they were put, after those already waiting. */
  lemma FifoOrder(w: Worker, items: seq<Item>)
    ensures Drain(PutAll(w, items)) == w.inbox + items
  {
    PutAllAppends(w, items);
    DrainIsInbox(PutAll(w, items));
  }

  /**
    `process_message`: only the data processor acts. The rows of the batch
    are flattened (a missing `res` or reading raises); a batch without rows
    writes nothing; otherwise the rows are appended to the day's CSV and the
    first response's `res` is dumped to the JSON file named by `stamp`.
   */
  function ProcessMessage(role: string, msg: Message, fs: FileSystem, root: string, stamp: string): (r: Result<FileSystem, PyError>)
    requires Valid(msg.datetime)
    ensures role != DataProcessor ==> r == Ok(fs)
    ensures role == DataProcessor ==> (r.Err? <==> !Flattenable(msg.data))
    ensures r.Ok? ==> r.value.denied == fs.denied
    ensures role == DataProcessor && Flattenable(msg.data) && |Entries(msg.data)| == 0 ==> r == Ok(fs)
    ensures role == DataProcessor && Flattenable(msg.data) && |Entries(msg.data)| > 0 ==>
      Written(fs, r.value, msg, WritePaths(root, msg.datetime, stamp))
  {
    if role != DataProcessor then Ok(fs)
    else
      FlattenRows(msg.data, msg.datetime);
      var rows :- Flatten(msg.data, msg.datetime);
      if |rows| == 0 then Ok(fs)
      else
        var paths := WritePaths(root, msg.datetime, stamp);
        var written := WriteCsv(fs, rows, paths.0);
        var dumped := DumpJson(written, ResOf(msg.data[0]), paths.1);
        WrittenIntro(fs, written, dumped, msg, rows, paths);
        Ok(dumped)
  }

  /**
    What a processed batch leaves behind: only its two files change; the CSV
    (when it could be opened) gains exactly one row per panel entry of the
    batch, in order; the JSON file (when it could be opened) holds the first
    response's `res`.
   */
  predicate Written(fs: FileSystem, after: FileSystem, msg: Message, paths: (string, string))
    requires |Entries(msg.data)| > 0
  {
    var (csv, dump) := paths;
    after.files - {csv, dump} == fs.files - {csv, dump}
    && (csv !in fs.denied ==>
      csv in after.files
      && RowsReadBack(fs, csv, after.files[csv], Entries(msg.data), msg.datetime)
      && LinesAppended(fs, csv, after.files[csv], Entries(msg.data), msg.datetime))
    && (dump !in fs.denied ==> dump in after.files && after.files[dump] == [JsonLine(ResOf(msg.data[0]))])
    && Untouched(fs.files, after.files, csv, fs.denied)
    && Untouched(fs.files, after.files, dump, fs.denied)
  }

  /** A CSV that could be extended reads back as its old rows followed by one row per entry. */
  predicate RowsReadBack(fs: FileSystem, csv: string, lines: seq<Line>, entries: seq<(string, Json)>, at: DateTime) {
    CsvReady(fs, csv) ==>
      WellFormedCsv(lines)
      && |ReadRows(lines)| == |StoredRows(fs, csv)| + |entries|
      && ReadRows(lines)[..|StoredRows(fs, csv)|] == StoredRows(fs, csv)
      && forall i :: 0 <= i < |entries| ==>
        RowFor(ReadRows(lines)[|StoredRows(fs, csv)| + i], entries[i].0, entries[i].1, at)
  }

  /** An existing CSV keeps its lines and gains one row line per entry. */
  predicate LinesAppended(fs: FileSystem, csv: string, lines: seq<Line>, entries: seq<(string, Json)>, at: DateTime) {
    csv in fs.files ==>
      fs.files[csv] <= lines
      && |lines| == |fs.files[csv]| + |entries|
      && forall i :: 0 <= i < |entries| ==>
        (lines[|fs.files[csv]| + i].RowLine?
         && RowFor(lines[|fs.files[csv]| + i].row, entries[i].0, entries[i].1, at))
  }

  /** A path that cannot be opened is neither created, removed nor changed. */
  predicate Untouched(before: map<string, seq<Line>>, after: map<string, seq<Line>>, path: string, denied: set<string>) {
    path in denied ==>
      (path in after <==> path in before) && (path in before ==> after[path] == before[path])
  }

  lemma WrittenIntro(fs: FileSystem, written: FileSystem, dumped: FileSystem, msg: Message, rows: seq<Row>, paths: (string, string))
    requires |rows| > 0 && |msg.data| > 0
    requires |rows| == |Entries(msg.data)|
    requires forall i :: 0 <= i < |rows| ==> RowFor(rows[i], Entries(msg.data)[i].0, Entries(msg.data)[i].1, msg.datetime)
    requires paths.0 != paths.1
    requires written == WriteCsv(fs, rows, paths.0)
    requires dumped == DumpJson(written, ResOf(msg.data[0]), paths.1)
    ensures Written(fs, dumped, msg, paths)
  {
    var (csv, dump) := paths;
    OthersKept(fs.files, written.files, dumped.files, csv, dump);
    KeptAt(written.files, dumped.files, dump, csv);
    KeptAt(fs.files, written.files, csv, dump);
    if csv !in fs.denied {
      CsvWritten(fs, rows, Entries(msg.data), msg.datetime, csv);
    }
  }

  /** What `write_csv` leaves at its own path when the file can be opened. */
  lemma CsvWritten(fs: FileSystem, rows: seq<Row>, entries: seq<(string, Json)>, at: DateTime, csv: string)
    requires |rows| > 0 && |rows| == |entries| && csv !in fs.denied
    requires forall i :: 0 <= i < |rows| ==> RowFor(rows[i], entries[i].0, entries[i].1, at)
    ensures csv in WriteCsv(fs, rows, csv).files
    ensures RowsReadBack(fs, csv, WriteCsv(fs, rows, csv).files[csv], entries, at)
    ensures LinesAppended(fs, csv, WriteCsv(fs, rows, csv).files[csv], entries, at)
  {
    if CsvReady(fs, csv) {
      RowsAppended(StoredRows(fs, csv), rows, entries, at);
    }
  }

  /** A write to one path leaves any other path as it was. */
  lemma KeptAt<V>(before: map<string, V>, after: map<string, V>, written: string, path: string)
    requires after - {written} == before - {written}
    requires path != written
    ensures path in after <==> path in before
    ensures path in before ==> after[path] == before[path]
  {
    assert path in after <==> path in after - {written};
    assert path in before <==> path in before - {written};
    if path in before {
      assert after[path] == (after - {written})[path] == (before - {written})[path] == before[path];
    }
  }

  /** Two writes, each to its own path, leave every other path as it was. */
  lemma OthersKept<V>(before: map<string, V>, middle: map<string, V>, after: map<string, V>, csv: string, dump: string)
    requires middle - {csv} == before - {csv} && after - {dump} == middle - {dump}
    ensures after - {csv, dump} == before - {csv, dump}
  {
    assert after - {csv, dump} == (after - {dump}) - {csv};
    assert before - {csv, dump} == (before - {csv}) - {dump};
    assert middle - {csv, dump} == (middle - {dump}) - {csv};
    assert middle - {csv, dump} == (middle - {csv}) - {dump};
  }

  /** Rows appended behind the stored ones sit at the stored count onwards. */
  lemma RowsAppended(stored: seq<Row>, rows: seq<Row>, entries: seq<(string, Json)>, at: DateTime)
    requires |rows| == |entries|
    requires forall i :: 0 <= i < |rows| ==> RowFor(rows[i], entries[i].0, entries[i].1, at)
    ensures |stored + rows| == |stored| + |entries| && (stored + rows)[..|stored|] == stored
    ensures forall i :: 0 <= i < |entries| ==> RowFor((stored + rows)[|stored| + i], entries[i].0, entries[i].1, at)
  {
    assert (stored + rows)[..|stored|] == stored;
    forall i | 0 <= i < |rows|
      ensures RowFor((stored + rows)[|stored| + i], entries[i].0, entries[i].1, at)
    {
      assert (stored + rows)[|stored| + i] == rows[i];
    }
  }

  /**
    One turn of `run`: take the front item (block on an empty queue); a
    `ScrapMessage` is processed, anything else dropped; an exception ends
    the thread, which then takes nothing more.
   */
  function Step(w: Worker, fs: FileSystem, root: string, stamp: string): (r: (Worker, FileSystem))
    requires WellTimed(w.inbox)
    ensures !w.alive || |w.inbox| == 0 ==> r == (w, fs)
    ensures w.alive && |w.inbox| > 0 ==> r.0.role == w.role && r.0.inbox == w.inbox[1..]
    ensures w.alive && |w.inbox| > 0 && w.inbox[0].Other? ==> r == (w.(inbox := w.inbox[1..]), fs)
    ensures w.alive && |w.inbox| > 0 && w.inbox[0].Scrap? ==>
      var result := ProcessMessage(w.role, w.inbox[0].message, fs, root, stamp);
      (r.0.alive <==> result.Ok?) && r.1 == (if result.Ok? then result.value else fs)
    ensures WellTimed(r.0.inbox)
  {
    if !w.alive then (w, fs)
    else match Take(w)
      case None => (w, fs)
      case Some((Other, rest)) => (rest, fs)
      case Some((Scrap(msg), rest)) =>
        match ProcessMessage(w.role, msg, fs, root, stamp)
        case Ok(after) => (rest, after)
        case Err(_) => (rest.(alive := false), fs)
  }

  /** `|stamps|` turns of `run`, the i-th writing under `stamps[i]`. */
  function Run(w: Worker, fs: FileSystem, root: string, stamps: seq<string>): (r: (Worker, FileSystem))
    requires WellTimed(w.inbox)
    ensures r.0.role == w.role
    ensures !w.alive ==> r == (w, fs)
    ensures r.0.alive ==> w.alive
    ensures Suffix(r.0.inbox, w.inbox)
    ensures |w.inbox| - |r.0.inbox| <= |stamps|
    decreases |stamps|
  {
    if |stamps| == 0 then (w, fs)
    else
      var (w', fs') := Step(w, fs, root, stamps[0]);
      var r := Run(w', fs', root, stamps[1..]);
      assert Suffix(r.0.inbox, w.inbox) by {
        if w.alive && |w.inbox| > 0 {
          assert w.inbox[1..][|w'.inbox| - |r.0.inbox|..] == w.inbox[|w.inbox| - |r.0.inbox|..];
        }
      }
      r
  }

  /** `rest` is what is left of `all` once some items are taken from its front. */
  predicate Suffix<T(==)>(rest: seq<T>, all: seq<T>) {
    |rest| <= |all| && rest == all[|all| - |rest|..]
  }

  lemma {:induction false} RunKeepsRole(w: Worker, fs: FileSystem, root: string, stamps: seq<string>)
    requires WellTimed(w.inbox)
    ensures Run(w, fs, root, stamps).0.role == w.role
    decreases |stamps|
  {
    if |stamps| > 0 {
      var (w', fs') := Step(w, fs, root, stamps[0]);
      RunKeepsRole(w', fs', root, stamps[1..]);
    }
  }

  /** A worker of any other role consumes its queue without writing and never stops. */
  lemma {:induction false} OthersNeverWrite(w: Worker, fs: FileSystem, root: string, stamps: seq<string>)
    requires WellTimed(w.inbox) && w.role != DataProcessor && w.alive
    ensures Run(w, fs, root, stamps).1 == fs
    ensures Run(w, fs, root, stamps).0.alive
    decreases |stamps|
  {
    if |stamps| > 0 {
      var (w', fs') := Step(w, fs, root, stamps[0]);
      OthersNeverWrite(w', fs', root, stamps[1..]);
    }
  }

  /** Once its thread has ended, a worker takes nothing more, whatever arrives. */
  lemma {:induction false} CrashIsFinal(w: Worker, fs: FileSystem, root: string, stamps: seq<string>)
    requires WellTimed(w.inbox) && !w.alive
    ensures Run(w, fs, root, stamps) == (w, fs)
    decreases |stamps|
  {
    if |stamps| > 0 {
      CrashIsFinal(w, fs, root, stamps[1..]);
    }
  }

  /**
    A batch whose files cannot be opened is logged, not raised: the thread
    survives with the file system as it was, and takes the next message.
   */
  lemma DeniedWriteDoesNotCrash(w: Worker, fs: FileSystem, root: string, stamp: string)
    requires WellTimed(w.inbox) && w.alive && |w.inbox| > 0 && w.inbox[0].Scrap?
    requires w.role == DataProcessor && Flattenable(w.inbox[0].message.data)
    requires var paths := WritePaths(root, w.inbox[0].message.datetime, stamp);
      paths.0 in fs.denied && paths.1 in fs.denied
    ensures Step(w, fs, root, stamp) == (w.(inbox := w.inbox[1..]), fs)
  {
    var msg := w.inbox[0].message;
    FlattenRows(msg.data, msg.datetime);
    var rows := Flatten(msg.data, msg.datetime).value;
    if |rows| > 0 {
      var paths := WritePaths(root, msg.datetime, stamp);
      assert WriteCsv(fs, rows, paths.0) == fs;
      assert DumpJson(fs, ResOf(msg.data[0]), paths.1) == fs;
    }
    assert ProcessMessage(w.role, msg, fs, root, stamp) == Ok(fs);
  }
}
