/**
  The flattening step of `WorkerThread.process_message`: every intercepted
  response `{res: {panel: reading, ...}}` of a batch becomes one row per
  panel, stamped with the batch's time.
 */
module Records {
  import opened Wrappers
  import opened Json
  import opened Clock
  import opened Seqs

  /** `ScrapMessage`: the instant of the read and the page's buffered responses. */
  datatype Message = ScrapMessage(datetime: DateTime, data: seq<Json>)

  /** One CSV row: the panel key, its five readings as found, and the batch time. */
  datatype Row = Row(panel: string, energy: Json, units: Json, unscaledEnergy: Json,
                     moduleEnergy: Json, relayState: Json, date: DateTime)

  /** The keys of a row dict, in the order the dict literal lists them (the CSV header). */
  const FieldNames: seq<string> := ["panel", "energy", "units", "unscaledEnergy", "moduleEnergy", "relayState", "date"]

  /** The fields every panel reading is indexed by. */
  const ReadingFields: seq<string> := ["energy", "units", "unscaledEnergy", "moduleEnergy", "relayState"]

  predicate HasReadings(reading: Json) {
    && Lookup(reading, "energy").Ok?
    && Lookup(reading, "units").Ok?
    && Lookup(reading, "unscaledEnergy").Ok?
    && Lookup(reading, "moduleEnergy").Ok?
    && Lookup(reading, "relayState").Ok?
  }

  /** `row` is what the dict literal builds for panel `key` with value `reading` at `at`. */
  predicate RowFor(row: Row, key: string, reading: Json, at: DateTime) {
    && row.panel == key
    && Lookup(reading, "energy") == Ok(row.energy)
    && Lookup(reading, "units") == Ok(row.units)
    && Lookup(reading, "unscaledEnergy") == Ok(row.unscaledEnergy)
    && Lookup(reading, "moduleEnergy") == Ok(row.moduleEnergy)
    && Lookup(reading, "relayState") == Ok(row.relayState)
    && row.date == at
  }

  /** The dict literal of one panel; a missing reading raises at the first field lacking. */
  function PanelRow(key: string, reading: Json, at: DateTime): (r: Result<Row, PyError>)
    ensures r.Ok? <==> HasReadings(reading)
    ensures r.Ok? ==> RowFor(r.value, key, reading, at)
    ensures r.Err? && reading.Object? ==> r.error.KeyError? && r.error.key in ReadingFields
    ensures r.Err? && !reading.Object? ==> r.error == TypeError
  {
    var energy :- Lookup(reading, "energy");
    var units :- Lookup(reading, "units");
    var unscaledEnergy :- Lookup(reading, "unscaledEnergy");
    var moduleEnergy :- Lookup(reading, "moduleEnergy");
    var relayState :- Lookup(reading, "relayState");
    Ok(Row(key, energy, units, unscaledEnergy, moduleEnergy, relayState, at))
  }

  predicate AllHaveReadings(members: seq<(string, Json)>) {
    forall i :: 0 <= i < |members| ==> HasReadings(members[i].1)
  }

  /** The inner `for x, y in data.items()` loop. */
  function PanelRows(members: seq<(string, Json)>, at: DateTime): (r: Result<seq<Row>, PyError>)
    ensures r.Ok? <==> AllHaveReadings(members)
    ensures r.Ok? ==> (|r.value| == |members|
      && forall i :: 0 <= i < |members| ==> RowFor(r.value[i], members[i].0, members[i].1, at))
  {
    if |members| == 0 then Ok([])
    else
      var row :- PanelRow(members[0].0, members[0].1, at);
      var rest :- PanelRows(members[1..], at);
      assert forall i :: 1 <= i < |members| ==> members[i] == members[1..][i - 1];
      Ok([row] + rest)
  }

  /** `scrap_response['res']` when present (anything else stands for the missing value). */
  function ResOf(response: Json): Json {
    match Lookup(response, "res")
    case Ok(res) => res
    case Err(_) => Null
  }

  /** The panel entries a response contributes: those of `res` if it is a non-empty dict, else none. */
  function PanelEntries(res: Json): seq<(string, Json)> {
    if IsNonEmptyObject(res) then res.members else []
  }

  /** Every (panel, reading) entry of a batch, response by response, in dict order. */
  function Entries(responses: seq<Json>): seq<(string, Json)> {
    if |responses| == 0 then [] else PanelEntries(ResOf(responses[0])) + Entries(responses[1..])
  }

  /** A response that flattens without raising: it has `res`, and each of its panels every reading. */
  predicate ResponseOk(response: Json) {
    Lookup(response, "res").Ok? && AllHaveReadings(PanelEntries(ResOf(response)))
  }

  predicate Flattenable(responses: seq<Json>) {
    forall i :: 0 <= i < |responses| ==> ResponseOk(responses[i])
  }

  /** The rows of one response. */
  function ResponseRows(response: Json, at: DateTime): (r: Result<seq<Row>, PyError>)
    ensures r.Ok? <==> ResponseOk(response)
    ensures r.Ok? ==> (|r.value| == |PanelEntries(ResOf(response))|
      && forall i :: 0 <= i < |r.value| ==> RowFor(r.value[i], PanelEntries(ResOf(response))[i].0, PanelEntries(ResOf(response))[i].1, at))
  {
    var res :- Lookup(response, "res");
    if IsNonEmptyObject(res) then PanelRows(res.members, at) else Ok([])
  }

  /** The rows of `first` followed by those of `rest`; the first exception raised wins. */
  function Then(first: Result<seq<Row>, PyError>, rest: Result<seq<Row>, PyError>): Result<seq<Row>, PyError> {
    match first
    case Err(e) => Err(e)
    case Ok(rows) => match rest
      case Err(e) => Err(e)
      case Ok(more) => Ok(rows + more)
  }

  /** The outer loop over `message.data`. */
  function Flatten(responses: seq<Json>, at: DateTime): (r: Result<seq<Row>, PyError>)
    ensures r.Err? ==> FailsFirstAt(responses, at, r.error)
  {
    if |responses| == 0 then Ok([])
    else
      var first := ResponseRows(responses[0], at);
      var rest := Flatten(responses[1..], at);
      if first.Ok? && rest.Err? then
        FailsFirstAtCons(responses, at, rest.error);
        Then(first, rest)
      else
        assert first.Err? ==> ResponseRows(responses[0], at) == Err(first.error);
        Then(first, rest)
  }

  /** Some response raises `e`, and every response before it flattens. */
  predicate FailsFirstAt(responses: seq<Json>, at: DateTime, e: PyError) {
    exists i :: 0 <= i < |responses| && ResponseRows(responses[i], at) == Err(e)
      && (forall j :: 0 <= j < i ==> ResponseOk(responses[j]))
  }

  lemma FailsFirstAtCons(responses: seq<Json>, at: DateTime, e: PyError)
    requires |responses| > 0 && ResponseOk(responses[0])
    requires FailsFirstAt(responses[1..], at, e)
    ensures FailsFirstAt(responses, at, e)
  {
    var i :| 0 <= i < |responses[1..]| && ResponseRows(responses[1..][i], at) == Err(e)
      && (forall j :: 0 <= j < i ==> ResponseOk(responses[1..][j]));
    assert responses[i + 1] == responses[1..][i];
    assert forall j :: 1 <= j < i + 1 ==> responses[j] == responses[1..][j - 1];
  }

  /** Rows in `a + b` correspond to entries in `ea + eb` when each part corresponds. */
  lemma RowsForConcat(a: seq<Row>, ea: seq<(string, Json)>, b: seq<Row>, eb: seq<(string, Json)>, at: DateTime)
    requires |a| == |ea| && forall i :: 0 <= i < |a| ==> RowFor(a[i], ea[i].0, ea[i].1, at)
    requires |b| == |eb| && forall i :: 0 <= i < |b| ==> RowFor(b[i], eb[i].0, eb[i].1, at)
    ensures forall i :: 0 <= i < |a + b| ==> RowFor((a + b)[i], (ea + eb)[i].0, (ea + eb)[i].1, at)
  {
    var matches := (row: Row, entry: (string, Json)) => RowFor(row, entry.0, entry.1, at);
    Pointwise(a, ea, b, eb, matches);
  }

  /** A relation holding position by position on two pairs of lists holds on their concatenations. */
  lemma Pointwise<A, B>(a: seq<A>, ea: seq<B>, b: seq<A>, eb: seq<B>, rel: (A, B) -> bool)
    requires |a| == |ea| && forall i :: 0 <= i < |a| ==> rel(a[i], ea[i])
    requires |b| == |eb| && forall i :: 0 <= i < |b| ==> rel(b[i], eb[i])
    ensures forall i :: 0 <= i < |a + b| ==> rel((a + b)[i], (ea + eb)[i])
  {
    forall i | 0 <= i < |a + b|
      ensures rel((a + b)[i], (ea + eb)[i])
    {
      if i < |a| {
        assert (a + b)[i] == a[i] && (ea + eb)[i] == ea[i];
      } else {
        assert (a + b)[i] == b[i - |a|] && (ea + eb)[i] == eb[i - |a|];
      }
    }
  }

  /**
    Flattening succeeds exactly when every response has `res` and every
    panel every reading; it then yields one row per (response, panel) entry,
    in response order then key order, each built from its entry and stamped
    with the batch time.
   */
  lemma {:induction false} FlattenRows(responses: seq<Json>, at: DateTime)
    ensures Flatten(responses, at).Ok? <==> Flattenable(responses)
    ensures Flatten(responses, at).Ok? ==>
      var rows := Flatten(responses, at).value;
      |rows| == |Entries(responses)|
      && forall j :: 0 <= j < |rows| ==> RowFor(rows[j], Entries(responses)[j].0, Entries(responses)[j].1, at)
  {
    if |responses| > 0 {
      FlattenRows(responses[1..], at);
      FlattenableCons(responses);
      FlattenCons(responses, at);
      var first := ResponseRows(responses[0], at);
      var rest := Flatten(responses[1..], at);
      if first.Ok? && rest.Ok? {
        RowsForConcat(first.value, PanelEntries(ResOf(responses[0])), rest.value, Entries(responses[1..]), at);
      }
    }
  }

  lemma FlattenableCons(responses: seq<Json>)
    requires |responses| > 0
    ensures Flattenable(responses) <==> ResponseOk(responses[0]) && Flattenable(responses[1..])
  {
    assert forall i :: 1 <= i < |responses| ==> responses[i] == responses[1..][i - 1];
  }

  lemma FlattenCons(responses: seq<Json>, at: DateTime)
    requires |responses| > 0
    ensures Flatten(responses, at) == Then(ResponseRows(responses[0], at), Flatten(responses[1..], at))
  {
  }

  /** Flattening distributes over concatenated batches. */
  lemma {:induction false} FlattenAppend(a: seq<Json>, b: seq<Json>, at: DateTime)
    requires Flatten(a, at).Ok? && Flatten(b, at).Ok?
    ensures Flatten(a + b, at) == Ok(Flatten(a, at).value + Flatten(b, at).value)
    decreases |a|
  {
    if |a| == 0 {
      assert a + b == b;
      assert Flatten(a, at).value == [];
      assert [] + Flatten(b, at).value == Flatten(b, at).value;
    } else {
      FlattenCons(a, at);
      FlattenAppend(a[1..], b, at);
      FlattenAppendStep(a, b, at);
    }
  }

  lemma FlattenAppendStep(a: seq<Json>, b: seq<Json>, at: DateTime)
    requires |a| > 0 && Flatten(a, at).Ok? && Flatten(b, at).Ok? && Flatten(a[1..], at).Ok?
    requires Flatten(a[1..] + b, at) == Ok(Flatten(a[1..], at).value + Flatten(b, at).value)
    ensures Flatten(a + b, at) == Ok(Flatten(a, at).value + Flatten(b, at).value)
  {
    var x, y := Flatten(a[1..], at).value, Flatten(b, at).value;
    FlattenCons(a, at);
    var f := ResponseRows(a[0], at).value;
    ConsAppend(a, b);
    FlattenCons(a + b, at);
    AppendAssoc(f, x, y);
  }

  /** A response whose `res` is null or not a non-empty dict contributes no rows. */
  lemma EmptyResponseContributesNothing(response: Json, rest: seq<Json>, at: DateTime)
    requires Lookup(response, "res").Ok? && !IsNonEmptyObject(Lookup(response, "res").value)
    ensures Flatten([response] + rest, at) == Flatten(rest, at)
  {
    assert ([response] + rest)[0] == response;
    assert ([response] + rest)[1..] == rest;
    assert ResponseRows(response, at) == Ok([]);
    if Flatten(rest, at).Ok? {
      assert [] + Flatten(rest, at).value == Flatten(rest, at).value;
    }
  }

  /** A batch of one response holding one panel flattens to exactly one row, built from that panel. */
  lemma OnePanelResponse(key: string, reading: Json, at: DateTime)
    requires HasReadings(reading)
    ensures var r := Flatten([Object([("res", Object([(key, reading)]))])], at);
      r.Ok? && |r.value| == 1 && RowFor(r.value[0], key, reading, at)
  {
    var response := Object([("res", Object([(key, reading)]))]);
    var members := [(key, reading)];
    assert Lookup(response, "res") == Ok(Object(members));
    assert AllHaveReadings(members);
    assert [response][1..] == [];
    var rows := ResponseRows(response, at).value;
    assert rows + [] == rows;
  }
}
