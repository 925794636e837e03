/**
  The helpers the browser extension injects into the monitoring page: the
  `scrap_response` buffer the scraper reads, the XHR intercept filter, the
  query-string parser and the date comparison. `decodeURIComponent` and
  `new URL` are not modelled; they are parameters of the functions using them.
 */
module PageScript {
  import opened Wrappers
  import opened Strings
  import opened Json

  /** The JavaScript exceptions these helpers can raise. */
  datatype JsError = TypeError | URIError | ReferenceError

  /**
    The page-global state the helpers touch: whether the injected script ran,
    `window.scrap_response` (`None` while undefined), whether
    `window.process_scrap_response` is defined, and whether the page shows
    the button `__scrap_data` clicks.
   */
  datatype Page = Page(injected: bool, buffer: Option<seq<Json>>, hooked: bool, button: bool)

  // ---------------------------------------------------------------------
  // The response buffer
  // ---------------------------------------------------------------------

  /** Running the injected script: define the buffer and the hook only where they are undefined. */
  function Init(p: Page): (r: Page)
    ensures r.injected && r.hooked && r.button == p.button
    ensures p.buffer.Some? ==> r.buffer == p.buffer
    ensures p.buffer.None? ==> r.buffer == Some([])
  {
    Page(true, if p.buffer.None? then Some([]) else p.buffer, true, p.button)
  }

  /** Injecting twice is injecting once: a second run never clears what the first collected. */
  lemma InitIdempotent(p: Page, arrivals: seq<Json>)
    ensures Init(Init(p)) == Init(p)
    ensures PushAll(Init(Init(p)), arrivals) == PushAll(Init(p), arrivals)
  {
  }

  /** `__process_scrap_response(data)`: push onto the buffer; a `TypeError` while it is undefined. */
  function ProcessScrapResponse(p: Page, data: Json): (r: Result<Page, JsError>)
    ensures r.Err? <==> p.buffer.None?
    ensures r.Ok? ==> (r.value.buffer.Some?
      && |r.value.buffer.value| == |p.buffer.value| + 1
      && r.value.buffer.value[..|p.buffer.value|] == p.buffer.value
      && r.value.buffer.value[|p.buffer.value|] == data)
    ensures r.Ok? ==> r.value.(buffer := p.buffer) == p
  {
    match p.buffer
    case None => Err(JsError.TypeError)
    case Some(items) => Ok(p.(buffer := Some(items + [data])))
  }

  /** The intercepted responses arriving one after another. */
  function PushAll(p: Page, arrivals: seq<Json>): Result<Page, JsError>
    decreases |arrivals|
  {
    if |arrivals| == 0 then Ok(p)
    else
      var next :- ProcessScrapResponse(p, arrivals[0]);
      PushAll(next, arrivals[1..])
  }

  /** Arrivals land at the back of a defined buffer in arrival order, and touch nothing else. */
  lemma {:induction false} PushAllAppends(p: Page, arrivals: seq<Json>)
    requires p.buffer.Some?
    ensures PushAll(p, arrivals) == Ok(p.(buffer := Some(p.buffer.value + arrivals)))
    decreases |arrivals|
  {
    if |arrivals| > 0 {
      var next := p.(buffer := Some(p.buffer.value + [arrivals[0]]));
      assert ProcessScrapResponse(p, arrivals[0]) == Ok(next);
      assert PushAll(p, arrivals) == PushAll(next, arrivals[1..]);
      PushAllAppends(next, arrivals[1..]);
      assert p.buffer.value + [arrivals[0]] + arrivals[1..] == p.buffer.value + arrivals;
      assert next.(buffer := Some(next.buffer.value + arrivals[1..])) == p.(buffer := Some(p.buffer.value + arrivals));
    } else {
      assert p.buffer.value + arrivals == p.buffer.value;
    }
  }

  /** `__scrap_data()`: empty the buffer, then click the button if the page has one; says whether it clicked. */
  function ScrapData(p: Page): (r: (Page, bool))
    ensures r.0.buffer == Some([])
    ensures r.1 <==> p.button
    ensures r.0.(buffer := p.buffer) == p
  {
    (p.(buffer := Some([])), p.button)
  }

  /** `__get_data()`: the buffer as it is (`None` while undefined). */
  function GetData(p: Page): (r: Option<seq<Json>>)
    ensures r.None? <==> p.buffer.None?
    ensures r.Some? ==> r.value == p.buffer.value
  {
    p.buffer
  }

  /** What arrives after a reset is exactly what the next read returns, in order. */
  lemma ReadAfterReset(p: Page, arrivals: seq<Json>)
    ensures PushAll(ScrapData(p).0, arrivals).Ok?
    ensures GetData(PushAll(ScrapData(p).0, arrivals).value) == Some(arrivals)
  {
    PushAllAppends(ScrapData(p).0, arrivals);
    assert [] + arrivals == arrivals;
  }

  /** Reading does not consume: a later read sees everything an earlier one saw, then the newer arrivals. */
  lemma ReadDoesNotConsume(p: Page, arrivals: seq<Json>)
    requires p.buffer.Some?
    ensures PushAll(p, arrivals).Ok?
    ensures GetData(PushAll(p, arrivals).value) == Some(GetData(p).value + arrivals)
  {
    PushAllAppends(p, arrivals);
  }

  // ---------------------------------------------------------------------
  // __intercept_url__call
  // ---------------------------------------------------------------------

  /** The two parts of a parsed URL the filter reads: `host` (with any port) and `pathname`. */
  datatype Url = Url(host: string, pathname: string)

  const Hosts: seq<string> := ["monitoringpublic.solaredge.com"]
  const Paths: seq<string> := ["/solaredge-apigw/api/sites/1047995/layout/energy"]

  /**
    Whether a request to `url` (relative to the page) is one whose response is
    captured. `parse` stands for `new URL`, `None` for the `TypeError` it
    throws on text that is not a URL.
   */
  function InterceptUrl(origin: string, url: string, parse: string -> Option<Url>): (r: Result<bool, JsError>)
    ensures r.Err? <==> parse(origin + url).None?
    ensures r.Err? ==> r.error == JsError.TypeError
    ensures r.Ok? ==> (r.value <==>
      parse(origin + url).value.host == "monitoringpublic.solaredge.com"
      && parse(origin + url).value.pathname == "/solaredge-apigw/api/sites/1047995/layout/energy")
  {
    match parse(origin + url)
    case None => Err(JsError.TypeError)
    case Some(u) => Ok(u.host in Hosts && u.pathname in Paths)
  }

  /** The energy request of another site, or another request of this site, is let through uncaptured. */
  lemma OnlyTheEnergyCallIsCaptured(origin: string, url: string, parse: string -> Option<Url>)
    requires parse(origin + url).Some?
    requires parse(origin + url).value.pathname != Paths[0]
    ensures InterceptUrl(origin, url, parse) == Ok(false)
  {
  }

  // ---------------------------------------------------------------------
  // __parseQuery
  // ---------------------------------------------------------------------

  /** The query without one leading '?'. */
  function StripQuestion(qs: string): (r: string)
    ensures |qs| > 0 && qs[0] == '?' ==> [qs[0]] + r == qs
    ensures !(|qs| > 0 && qs[0] == '?') ==> r == qs
  {
    if |qs| > 0 && qs[0] == '?' then qs[1..] else qs
  }

  /** The text before the first '='. */
  function PairKey(segment: string): (k: string)
    ensures '=' !in k
  {
    Split(segment, '=')[0]
  }

  /** The text between the first and the second '=', or "" when there is none. */
  function PairValue(segment: string): (v: string)
    ensures '=' !in v
  {
    var parts := Split(segment, '=');
    if |parts| > 1 then parts[1] else ""
  }

  /** Both halves of a segment decode. */
  predicate Decodes(segment: string, decode: string -> Option<string>) {
    decode(PairKey(segment)).Some? && decode(PairValue(segment)).Some?
  }

  predicate AllDecode(segments: seq<string>, decode: string -> Option<string>) {
    forall i :: 0 <= i < |segments| ==> Decodes(segments[i], decode)
  }

  function KeyOf(segment: string, decode: string -> Option<string>): string
    requires Decodes(segment, decode)
  {
    decode(PairKey(segment)).value
  }

  function ValueOf(segment: string, decode: string -> Option<string>): string
    requires Decodes(segment, decode)
  {
    decode(PairValue(segment)).value
  }

  /**
    The value key `k` holds after the segments are assigned in order on top
    of `acc`: that of the last segment with key `k`, else `acc`'s.
   */
  function LastAssigned(segments: seq<string>, acc: map<string, string>, k: string, decode: string -> Option<string>): Option<string>
    requires AllDecode(segments, decode)
    decreases |segments|
  {
    if |segments| == 0 then (if k in acc then Some(acc[k]) else None)
    else if KeyOf(segments[|segments| - 1], decode) == k then Some(ValueOf(segments[|segments| - 1], decode))
    else LastAssigned(segments[..|segments| - 1], acc, k, decode)
  }

  function Decoded(decode: string -> Option<string>, s: string): (r: Result<string, JsError>)
    ensures r.Ok? <==> decode(s).Some?
    ensures r.Ok? ==> r.value == decode(s).value
    ensures r.Err? ==> r.error == URIError
  {
    match decode(s)
    case None => Err(URIError)
    case Some(t) => Ok(t)
  }

  /**
    The `for` loop over the segments, as the state after the last one: each
    segment assigns its decoded value to its decoded key; one failed decode
    throws `URIError`.
   */
  function ParsePairs(segments: seq<string>, acc: map<string, string>, decode: string -> Option<string>): (r: Result<map<string, string>, JsError>)
    ensures r.Ok? <==> AllDecode(segments, decode)
    ensures r.Err? ==> r.error == URIError
    ensures r.Ok? ==> forall k :: k in r.value <==> LastAssigned(segments, acc, k, decode).Some?
    ensures r.Ok? ==> forall k :: k in r.value ==> r.value[k] == LastAssigned(segments, acc, k, decode).value
    decreases |segments|
  {
    if |segments| == 0 then Ok(acc)
    else
      var n := |segments| - 1;
      assert forall i :: 0 <= i < n ==> segments[..n][i] == segments[i];
      var m :- ParsePairs(segments[..n], acc, decode);
      var key :- Decoded(decode, PairKey(segments[n]));
      var value :- Decoded(decode, PairValue(segments[n]));
      Ok(m[key := value])
  }

  /** The last segment with key `k` decides its value: a later duplicate overwrites an earlier one. */
  lemma {:induction false} LastWins(segments: seq<string>, acc: map<string, string>, i: nat, decode: string -> Option<string>)
    requires AllDecode(segments, decode) && i < |segments|
    requires forall j :: i < j < |segments| ==> KeyOf(segments[j], decode) != KeyOf(segments[i], decode)
    ensures LastAssigned(segments, acc, KeyOf(segments[i], decode), decode) == Some(ValueOf(segments[i], decode))
    decreases |segments|
  {
    var n := |segments| - 1;
    if i < n {
      var prefix := DropLast(segments, acc, KeyOf(segments[i], decode), decode);
      assert prefix[i] == segments[i];
      LastWins(prefix, acc, i, decode);
    }
  }

  /** A last segment with another key leaves `k` as the segments before it set it. */
  lemma DropLast(segments: seq<string>, acc: map<string, string>, k: string, decode: string -> Option<string>)
    returns (prefix: seq<string>)
    requires AllDecode(segments, decode) && |segments| > 0
    requires KeyOf(segments[|segments| - 1], decode) != k
    ensures prefix == segments[..|segments| - 1] && AllDecode(prefix, decode)
    ensures forall j :: 0 <= j < |prefix| ==> prefix[j] == segments[j]
    ensures LastAssigned(segments, acc, k, decode) == LastAssigned(prefix, acc, k, decode)
  {
    prefix := segments[..|segments| - 1];
    assert forall j :: 0 <= j < |prefix| ==> prefix[j] == segments[j];
  }

  /** A key no segment has keeps `acc`'s value, or stays absent. */
  lemma {:induction false} Untouched(segments: seq<string>, acc: map<string, string>, k: string, decode: string -> Option<string>)
    requires AllDecode(segments, decode)
    requires forall j :: 0 <= j < |segments| ==> KeyOf(segments[j], decode) != k
    ensures LastAssigned(segments, acc, k, decode) == (if k in acc then Some(acc[k]) else None)
    decreases |segments|
  {
    if |segments| > 0 {
      var prefix := DropLast(segments, acc, k, decode);
      Untouched(prefix, acc, k, decode);
    }
  }

  /** The segments of a query: everything after one leading '?', cut at every '&'. */
  function Segments(qs: string): (segments: seq<string>)
    ensures |segments| >= 1
    ensures Join(segments, '&') == StripQuestion(qs)
    ensures forall i :: 0 <= i < |segments| ==> '&' !in segments[i]
  {
    JoinSplit(StripQuestion(qs), '&');
    Split(StripQuestion(qs), '&')
  }

  /**
    `__parseQuery(queryString)`: the decoded key/value pairs of a query
    string; every key is that of some segment and holds the value of the
    last segment with that key.
   */
  function ParseQuery(qs: string, decode: string -> Option<string>): (r: Result<map<string, string>, JsError>)
    ensures r.Ok? <==> AllDecode(Segments(qs), decode)
    ensures r.Err? ==> r.error == URIError
    ensures r.Ok? ==> forall k :: k in r.value <==> LastAssigned(Segments(qs), map[], k, decode).Some?
    ensures r.Ok? ==> forall k :: k in r.value ==> r.value[k] == LastAssigned(Segments(qs), map[], k, decode).value
  {
    ParsePairs(Segments(qs), map[], decode)
  }

  /** Every key of the result is some segment's, and each holds its last segment's value. */
  lemma ParseQueryKeys(qs: string, decode: string -> Option<string>)
    requires ParseQuery(qs, decode).Ok?
    ensures var r := ParseQuery(qs, decode).value; var segments := Segments(qs);
      (forall k :: k in r <==> exists i :: 0 <= i < |segments| && KeyOf(segments[i], decode) == k)
      && forall i :: 0 <= i < |segments| && (forall j :: i < j < |segments| ==> KeyOf(segments[j], decode) != KeyOf(segments[i], decode)) ==>
        r[KeyOf(segments[i], decode)] == ValueOf(segments[i], decode)
  {
    var r := ParseQuery(qs, decode).value;
    var segments := Segments(qs);
    forall i | 0 <= i < |segments| && (forall j :: i < j < |segments| ==> KeyOf(segments[j], decode) != KeyOf(segments[i], decode))
      ensures KeyOf(segments[i], decode) in r && r[KeyOf(segments[i], decode)] == ValueOf(segments[i], decode)
    {
      LastWins(segments, map[], i, decode);
    }
    forall k
      ensures k in r <==> exists i :: 0 <= i < |segments| && KeyOf(segments[i], decode) == k
    {
      if exists i :: 0 <= i < |segments| && KeyOf(segments[i], decode) == k {
        var i :| 0 <= i < |segments| && KeyOf(segments[i], decode) == k;
        var last := LastIndexWithKey(segments, i, decode);
        LastWins(segments, map[], last, decode);
      } else {
        Untouched(segments, map[], k, decode);
      }
    }
  }

  /** The last segment at or after `i` with the key of segment `i`. */
  lemma LastIndexWithKey(segments: seq<string>, i: nat, decode: string -> Option<string>) returns (last: nat)
    requires AllDecode(segments, decode) && i < |segments|
    ensures i <= last < |segments| && KeyOf(segments[last], decode) == KeyOf(segments[i], decode)
    ensures forall j :: last < j < |segments| ==> KeyOf(segments[j], decode) != KeyOf(segments[i], decode)
    decreases |segments| - i
  {
    if exists j :: i < j < |segments| && KeyOf(segments[j], decode) == KeyOf(segments[i], decode) {
      var j :| i < j < |segments| && KeyOf(segments[j], decode) == KeyOf(segments[i], decode);
      last := LastIndexWithKey(segments, j, decode);
    } else {
      last := i;
    }
  }

  /** One leading '?' is dropped, so the query reads the same with or without it. */
  lemma QuestionMarkOptional(qs: string, decode: string -> Option<string>)
    requires !(|qs| > 0 && qs[0] == '?')
    ensures ParseQuery("?" + qs, decode) == ParseQuery(qs, decode)
  {
    assert ("?" + qs)[1..] == qs;
  }

  /** The empty query is one empty segment: the single key "" with value "". */
  lemma EmptyQuery(decode: string -> Option<string>)
    requires decode("") == Some("")
    ensures ParseQuery("", decode) == Ok(map["" := ""])
  {
    assert Split("", '&') == [""];
    assert Split("", '=') == [""];
    var r := ParseQuery("", decode);
    assert LastAssigned([""], map[], "", decode) == Some("");
    assert r.Ok? && r.value.Keys == {""};
  }

  /** Text with no '=' is a single part. */
  lemma SplitNone(s: string)
    requires '=' !in s
    ensures Split(s, '=') == [s]
  {
  }

  /** The part before the first '=' is cut off, and the rest split on. */
  lemma SplitAtFirst(k: string, rest: string)
    requires '=' !in k
    ensures Split(k + "=" + rest, '=') == [k] + Split(rest, '=')
  {
    var s := k + "=" + rest;
    assert s[|k|] == '=';
    assert s[..|k|] == k;
    assert s[..|k|] == k;
    assert s[|k| + 1..] == rest;
  }

  /** A segment `k=v` has key `k` and value `v`; a bare `k` has value "". */
  lemma SegmentParts(k: string, v: string)
    requires '=' !in k && '=' !in v
    ensures PairKey(k + "=" + v) == k && PairValue(k + "=" + v) == v
    ensures PairKey(k) == k && PairValue(k) == ""
  {
    SplitAtFirst(k, v);
    SplitNone(v);
    SplitNone(k);
  }

  /** Text after a second '=' is dropped: `k=v=w` has value `v`. */
  lemma SecondEqualsDropsRest(k: string, v: string, w: string)
    requires '=' !in k && '=' !in v
    ensures PairKey(k + "=" + v + "=" + w) == k && PairValue(k + "=" + v + "=" + w) == v
  {
    assert k + "=" + v + "=" + w == k + "=" + (v + "=" + w);
    SplitAtFirst(k, v + "=" + w);
    SplitAtFirst(v, w);
  }

  /** The query text `k1=v1&k2=v2&…` of a list of pairs. */
  function EncodeQuery(pairs: seq<(string, string)>): string {
    Join(PairTexts(pairs), '&')
  }

  function PairTexts(pairs: seq<(string, string)>): (texts: seq<string>)
    ensures |texts| == |pairs|
    ensures forall i :: 0 <= i < |pairs| ==> texts[i] == pairs[i].0 + "=" + pairs[i].1
  {
    seq(|pairs|, i requires 0 <= i < |pairs| => pairs[i].0 + "=" + pairs[i].1)
  }

  /** Pairs whose parts hold neither separator, the first key not starting with '?'. */
  predicate Encodable(pairs: seq<(string, string)>) {
    |pairs| >= 1 && !(|pairs[0].0| > 0 && pairs[0].0[0] == '?')
    && forall i :: 0 <= i < |pairs| ==>
      '&' !in pairs[i].0 && '=' !in pairs[i].0 && '&' !in pairs[i].1 && '=' !in pairs[i].1
  }

  /** Encoding such pairs and cutting the text up again gives back one segment per pair. */
  lemma EncodeSegments(pairs: seq<(string, string)>)
    requires Encodable(pairs)
    ensures Segments(EncodeQuery(pairs)) == PairTexts(pairs)
  {
    var texts := PairTexts(pairs);
    var qs := EncodeQuery(pairs);
    forall i | 0 <= i < |pairs|
      ensures '&' !in texts[i]
    {
      assert texts[i] == pairs[i].0 + "=" + pairs[i].1;
    }
    if |qs| > 0 && qs[0] == '?' {
      JoinHead(texts);
      assert false;
    }
    SplitJoin(texts, '&');
  }

  /**
    Encoding pairs and parsing the text back (with a decoder that changes
    nothing) gives every key, each with the value of its last occurrence,
    and no other key.
   */
  lemma EncodeThenParse(pairs: seq<(string, string)>, decode: string -> Option<string>)
    requires Encodable(pairs)
    requires forall s :: decode(s) == Some(s)
    ensures var r := ParseQuery(EncodeQuery(pairs), decode);
      r.Ok?
      && (forall k :: k in r.value <==> exists i :: 0 <= i < |pairs| && pairs[i].0 == k)
      && forall i :: 0 <= i < |pairs| && (forall j :: i < j < |pairs| ==> pairs[j].0 != pairs[i].0) ==>
        r.value[pairs[i].0] == pairs[i].1
  {
    var qs := EncodeQuery(pairs);
    var segments := EncodedSegmentsDecode(pairs, decode);
    ParseQueryKeys(qs, decode);
    KeysCarryOver(segments, pairs, ParseQuery(qs, decode).value, decode);
  }

  /**
    A map built from segments that decode one by one to the given pairs
    says about the pairs what it says about the segments.
   */
  lemma KeysCarryOver(segments: seq<string>, pairs: seq<(string, string)>, r: map<string, string>, decode: string -> Option<string>)
    requires |segments| == |pairs| && AllDecode(segments, decode)
    requires forall i :: 0 <= i < |pairs| ==> KeyOf(segments[i], decode) == pairs[i].0 && ValueOf(segments[i], decode) == pairs[i].1
    requires forall k :: k in r <==> exists i :: 0 <= i < |segments| && KeyOf(segments[i], decode) == k
    requires forall i :: 0 <= i < |segments| && (forall j :: i < j < |segments| ==> KeyOf(segments[j], decode) != KeyOf(segments[i], decode)) ==>
      r[KeyOf(segments[i], decode)] == ValueOf(segments[i], decode)
    ensures forall k :: k in r <==> exists i :: 0 <= i < |pairs| && pairs[i].0 == k
    ensures forall i :: 0 <= i < |pairs| && (forall j :: i < j < |pairs| ==> pairs[j].0 != pairs[i].0) ==>
      r[pairs[i].0] == pairs[i].1
  {
    forall k
      ensures k in r <==> exists i :: 0 <= i < |pairs| && pairs[i].0 == k
    {
      if k in r {
        var i :| 0 <= i < |segments| && KeyOf(segments[i], decode) == k;
        assert pairs[i].0 == k;
      }
    }
    forall i | 0 <= i < |pairs| && (forall j :: i < j < |pairs| ==> pairs[j].0 != pairs[i].0)
      ensures r[pairs[i].0] == pairs[i].1
    {
      assert forall j :: i < j < |segments| ==> KeyOf(segments[j], decode) != KeyOf(segments[i], decode);
    }
  }

  /** Each segment of an encoded query decodes to its pair. */
  lemma EncodedSegmentsDecode(pairs: seq<(string, string)>, decode: string -> Option<string>) returns (segments: seq<string>)
    requires Encodable(pairs)
    requires forall s :: decode(s) == Some(s)
    ensures segments == Segments(EncodeQuery(pairs))
    ensures |segments| == |pairs| && AllDecode(segments, decode)
    ensures forall i :: 0 <= i < |pairs| ==>
      KeyOf(segments[i], decode) == pairs[i].0 && ValueOf(segments[i], decode) == pairs[i].1
  {
    EncodeSegments(pairs);
    segments := Segments(EncodeQuery(pairs));
    forall i | 0 <= i < |pairs|
      ensures PairKey(PairTexts(pairs)[i]) == pairs[i].0 && PairValue(PairTexts(pairs)[i]) == pairs[i].1
    {
      SegmentParts(pairs[i].0, pairs[i].1);
    }
  }

  /** The joined text starts with the first part when that part is not empty. */
  lemma JoinHead(texts: seq<string>)
    requires |texts| >= 1 && |texts[0]| > 0
    ensures |Join(texts, '&')| > 0 && Join(texts, '&')[0] == texts[0][0]
  {
  }

  // ---------------------------------------------------------------------
  // __compare_dates
  // ---------------------------------------------------------------------

  /** The largest magnitude of a valid JavaScript time value, in milliseconds. */
  const MaxTime: int := 8_640_000_000_000_000

  /** The number of leading decimal digits of `s`. */
  function DigitRun(s: string): (n: nat)
    ensures n <= |s| && AllDigits(s[..n])
    ensures n < |s| ==> !IsDigit(s[n])
  {
    if |s| == 0 || !IsDigit(s[0]) then 0
    else
      var n := 1 + DigitRun(s[1..]);
      assert s[..n] == [s[0]] + s[1..][..n - 1];
      n
  }

  /**
    `parseInt(text)` on decimal text: an optional sign, then the longest run
    of digits; `None` (NaN) when there is no digit.
   */
  function ParseInt(text: string): (r: Option<int>)
    ensures |text| == 0 ==> r.None?
    ensures |text| > 0 && '0' <= text[0] <= '9' ==> r.Some?
    ensures r.Some? && |text| > 0 && text[0] == '-' ==> r.value <= 0
    ensures r.Some? && !(|text| > 0 && text[0] == '-') ==> r.value >= 0
  {
    var negative := |text| > 0 && text[0] == '-';
    var rest := if |text| > 0 && (text[0] == '-' || text[0] == '+') then text[1..] else text;
    match Magnitude(rest)
    case None => None
    case Some(m) => Some(if negative then -(m as int) else m)
  }

  /** The value of the leading run of digits; `None` when there is none. */
  function Magnitude(rest: string): (r: Option<nat>)
    ensures r.None? <==> DigitRun(rest) == 0
  {
    var n := DigitRun(rest);
    if n == 0 then None else Some(ParseDigits(rest[..n]))
  }

  /** The decimal text of an integer, as `String(n)` writes it. */
  function IntText(n: int): string {
    if n < 0 then "-" + NatToDigits(-n) else NatToDigits(n)
  }

  /** `parseInt` reads back the text of any integer, whatever non-digit text follows it. */
  lemma ParseIntText(n: int, tail: string)
    requires |tail| > 0 ==> !IsDigit(tail[0])
    ensures ParseInt(IntText(n) + tail) == Some(n)
  {
    if n < 0 {
      ParseNegativeText(n, tail);
    } else {
      ParseUnsigned(NatToDigits(n), tail);
    }
  }

  lemma ParseNegativeText(n: int, tail: string)
    requires n < 0
    requires |tail| > 0 ==> !IsDigit(tail[0])
    ensures ParseInt(IntText(n) + tail) == Some(n)
  {
    var digits := NatToDigits(-n);
    var text := IntText(n) + tail;
    assert text == ['-'] + (digits + tail);
    assert text[1..] == digits + tail;
    ParseSigned(text, digits, tail);
  }

  /** Digits followed by a non-digit are read as their value. */
  lemma ParseUnsigned(digits: string, tail: string)
    requires |digits| > 0 && AllDigits(digits)
    requires |tail| > 0 ==> !IsDigit(tail[0])
    ensures ParseInt(digits + tail) == Some(ParseDigits(digits))
  {
    assert (digits + tail)[0] == digits[0];
    ReadDigits(digits, tail);
  }

  /** A minus sign, then digits followed by a non-digit, are read as the negated value. */
  lemma ParseSigned(text: string, digits: string, tail: string)
    requires |digits| > 0 && AllDigits(digits)
    requires |tail| > 0 ==> !IsDigit(tail[0])
    requires |text| > 0 && text[0] == '-' && text[1..] == digits + tail
    ensures ParseInt(text) == Some(-(ParseDigits(digits) as int))
  {
    ReadDigits(digits, tail);
  }

  lemma ReadDigits(digits: string, tail: string)
    requires |digits| > 0 && AllDigits(digits)
    requires |tail| > 0 ==> !IsDigit(tail[0])
    ensures Magnitude(digits + tail) == Some(ParseDigits(digits))
  {
    DigitRunOfDigits(digits, tail);
    assert (digits + tail)[..|digits|] == digits;
  }

  lemma {:induction false} DigitRunOfDigits(digits: string, tail: string)
    requires AllDigits(digits)
    requires |tail| > 0 ==> !IsDigit(tail[0])
    ensures DigitRun(digits + tail) == |digits|
    decreases |digits|
  {
    if |digits| > 0 {
      assert (digits + tail)[1..] == digits[1..] + tail;
      DigitRunOfDigits(digits[1..], tail);
    }
  }

  /** `new Date(ms)`: the time value, or `None` (an invalid date) beyond the representable range. */
  function TimeClip(ms: int): (r: Option<int>)
    ensures r.Some? <==> -MaxTime <= ms <= MaxTime
    ensures r.Some? ==> r.value == ms
  {
    if -MaxTime <= ms <= MaxTime then Some(ms) else None
  }

  /**
    `__compare_dates(last, post)`: whether the post's time, `parseInt(post)`
    seconds, lies strictly after the last scrape time `last` (in ms, `None`
    for an invalid date). A comparison with NaN is false.
   */
  function CompareDates(last: Option<int>, post: string): (newer: bool)
    ensures newer <==> (last.Some? && ParseInt(post).Some?
                        && -MaxTime <= ParseInt(post).value * 1000 <= MaxTime
                        && ParseInt(post).value * 1000 > last.value)
  {
    match ParseInt(post)
    case None => false
    case Some(seconds) =>
      match TimeClip(seconds * 1000)
      case None => false
      case Some(ms) => last.Some? && ms > last.value
  }

  /** On valid inputs the comparison is one of whole seconds: the post is after iff its second is after the last one's. */
  lemma CompareBySeconds(last: int, post: string)
    requires ParseInt(post).Some? && -MaxTime <= ParseInt(post).value * 1000 <= MaxTime
    ensures CompareDates(Some(last), post) <==> ParseInt(post).value > last / 1000
  {
    var s := ParseInt(post).value;
    var q := last / 1000;
    assert last == q * 1000 + last % 1000;
    if s > q {
      assert s * 1000 >= q * 1000 + 1000;
    } else {
      assert s * 1000 <= q * 1000;
    }
  }

  /** An unreadable post date, an out-of-range one, or an invalid last date never counts as newer. */
  lemma InvalidNeverNewer(last: Option<int>, post: string)
    requires last.None? || ParseInt(post).None? || !(-MaxTime <= ParseInt(post).value * 1000 <= MaxTime)
    ensures !CompareDates(last, post)
  {
  }
}
