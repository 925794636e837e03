/**
  The producer thread's loop (`ScrappingThread.run`): each turn reads the
  page buffer and dispatches it when non-empty, resets the buffer and clicks
  the refresh button, lets the responses arrive, then reads and dispatches
  again. Responses arriving while the thread waits are `between`; those
  arriving during the settling pause after the click are `during`.
 */
module Producer {
  import opened Wrappers
  import opened Json
  import opened Clock
  import opened Records
  import opened Seqs
  import opened PageScript
  import opened Worker
  import opened Dispatch

  /** How a turn ended: normally, on a `JavascriptException` (logged), or on an uncaught error that ends the thread. */
  datatype TurnEnd = Completed | ScriptFailed(error: JsError) | Crashed

  /** The page after a turn, the messages dispatched during it in order, and how it ended. */
  datatype Turn = Turn(page: Page, sent: seq<Message>, end: TurnEnd)

  /** One turn's inputs: the responses before the first read and its time, then those after the click and the second read's time. */
  datatype Round = Round(between: seq<Json>, firstAt: DateTime, during: seq<Json>, secondAt: DateTime)

  /** Intercepted responses arriving on the page; none are captured where the script is missing or the buffer undefined. */
  function Arrive(page: Page, responses: seq<Json>): (r: Page)
    ensures page.injected && page.buffer.Some? ==> r == page.(buffer := Some(page.buffer.value + responses))
    ensures !(page.injected && page.buffer.Some?) ==> r == page
  {
    if page.injected && page.buffer.Some? then
      PushAllAppends(page, responses);
      PushAll(page, responses).value
    else page
  }

  /**
    `return __get_data()` followed by `if data and len(data['data'])`: the
    message to dispatch, if the buffer holds anything. Without the script
    the call raises `JavascriptException`; an undefined buffer makes `len`
    raise a `TypeError`, which nothing catches.
   */
  function Read(page: Page, at: DateTime): (r: Result<seq<Message>, TurnEnd>)
    ensures r.Err? <==> !page.injected || page.buffer.None?
    ensures !page.injected ==> r == Err(ScriptFailed(ReferenceError))
    ensures page.injected && page.buffer.None? ==> r == Err(Crashed)
    ensures r.Ok? ==> (|page.buffer.value| == 0 <==> r.value == [])
    ensures r.Ok? && r.value != [] ==> r.value == [ScrapMessage(at, page.buffer.value)]
  {
    if !page.injected then Err(ScriptFailed(ReferenceError))
    else match GetData(page)
      case None => Err(Crashed)
      case Some(items) => Ok(if |items| > 0 then [ScrapMessage(at, items)] else [])
  }

  /**
    One turn, as written: read and dispatch, `__scrap_data()`, the settling
    pause, read and dispatch again. The buffer keeps what the second read
    returned.
   */
  function TurnAsWritten(page: Page, round: Round): (r: Turn)
    ensures r.page.injected == page.injected && r.page.button == page.button
    ensures page.injected && page.buffer.Some? ==>
      r.end == Completed
      && r.page.buffer == Some(round.during)
      && Contents(r.sent) == page.buffer.value + round.between + round.during
    ensures !page.injected ==> r == Turn(page, [], ScriptFailed(ReferenceError))
  {
    var before := Arrive(page, round.between);
    match Read(before, round.firstAt)
    case Err(end) => Turn(before, [], end)
    case Ok(first) =>
      var after := Arrive(ScrapData(before).0, round.during);
      match Read(after, round.secondAt)
      case Err(end) => Turn(after, first, end)
      case Ok(second) =>
        SentContents(before, round.firstAt, after, round.secondAt);
        assert [] + round.during == round.during;
        Turn(after, first + second, Completed)
  }

  /**
    One turn as evidently intended: as written, except that what the second
    read returned is cleared from the buffer, so no response is sent twice.
   */
  function TurnCorrected(page: Page, round: Round): (r: Turn)
    ensures r.page.injected == page.injected && r.page.button == page.button
    ensures page.injected && page.buffer.Some? ==>
      r.end == Completed
      && r.page.buffer == Some([])
      && Contents(r.sent) == page.buffer.value + round.between + round.during
    ensures !page.injected ==> r == Turn(page, [], ScriptFailed(ReferenceError))
  {
    var t := TurnAsWritten(page, round);
    if t.end == Completed then t.(page := t.page.(buffer := Some([]))) else t
  }

  /** The responses a list of messages carries, in order. */
  function Contents(sent: seq<Message>): seq<Json> {
    if |sent| == 0 then [] else sent[0].data + Contents(sent[1..])
  }

  lemma {:induction false} ContentsAppend(a: seq<Message>, b: seq<Message>)
    ensures Contents(a + b) == Contents(a) + Contents(b)
    decreases |a|
  {
    if |a| == 0 {
      assert a + b == b;
    } else {
      assert (a + b)[1..] == a[1..] + b;
      ContentsAppend(a[1..], b);
    }
  }

  lemma SentContents(before: Page, firstAt: DateTime, after: Page, secondAt: DateTime)
    requires Read(before, firstAt).Ok? && Read(after, secondAt).Ok?
    ensures Contents(Read(before, firstAt).value + Read(after, secondAt).value)
      == before.buffer.value + after.buffer.value
  {
    var first, second := Read(before, firstAt).value, Read(after, secondAt).value;
    ContentsAppend(first, second);
    if first != [] {
      assert Contents(first) == before.buffer.value + Contents([]);
    }
    if second != [] {
      assert Contents(second) == after.buffer.value + Contents([]);
    }
  }

  /** Turns in a row, as written, stopping at the first that does not complete. */
  function RunAsWritten(page: Page, rounds: seq<Round>): (r: (Page, seq<Message>))
    ensures r.0.injected == page.injected && r.0.button == page.button
    ensures !page.injected ==> r == (page, [])
    decreases |rounds|
  {
    if |rounds| == 0 then (page, [])
    else
      var t := TurnAsWritten(page, rounds[0]);
      if t.end != Completed then (t.page, t.sent)
      else
        var (last, rest) := RunAsWritten(t.page, rounds[1..]);
        (last, t.sent + rest)
  }

  /** Turns in a row with the buffer cleared after each second read. */
  function RunCorrected(page: Page, rounds: seq<Round>): (r: (Page, seq<Message>))
    ensures r.0.injected == page.injected && r.0.button == page.button
    ensures !page.injected ==> r == (page, [])
    decreases |rounds|
  {
    if |rounds| == 0 then (page, [])
    else
      var t := TurnCorrected(page, rounds[0]);
      if t.end != Completed then (t.page, t.sent)
      else
        var (last, rest) := RunCorrected(t.page, rounds[1..]);
        (last, t.sent + rest)
  }

  /** Every response that arrived, round by round, in arrival order. */
  function Arrivals(rounds: seq<Round>): seq<Json> {
    if |rounds| == 0 then [] else rounds[0].between + rounds[0].during + Arrivals(rounds[1..])
  }

  /**
    Corrected, every response is dispatched exactly once and in arrival
    order: what was sent, followed by what still waits in the buffer, is
    what was in the buffer at the start followed by everything that arrived,
    round after round; after any turn nothing waits.
   */
  lemma {:induction false} CorrectedSendsEachOnce(page: Page, rounds: seq<Round>)
    requires page.injected && page.buffer.Some?
    ensures var (last, sent) := RunCorrected(page, rounds);
      last.injected && last.buffer.Some?
      && Contents(sent) + last.buffer.value == page.buffer.value + Arrivals(rounds)
      && (|rounds| > 0 ==> last.buffer == Some([]))
    decreases |rounds|
  {
    if |rounds| > 0 {
      var t := TurnCorrected(page, rounds[0]);
      CorrectedSendsEachOnce(t.page, rounds[1..]);
      var (last, rest) := RunCorrected(t.page, rounds[1..]);
      ContentsAppend(t.sent, rest);
      var b, x, y, tail := page.buffer.value, rounds[0].between, rounds[0].during, Arrivals(rounds[1..]);
      assert Contents(rest) + last.buffer.value == tail;
      assert |rounds[1..]| == 0 ==> last.buffer.value == [] && rest == [];
      AppendAssoc(Contents(t.sent), Contents(rest), last.buffer.value);
      AppendAssoc(b + x, y, tail);
      AppendAssoc(b, x, y + tail);
      AppendAssoc(x, y, tail);
    } else {
      assert page.buffer.value + [] == page.buffer.value;
    }
  }

  /**
    As written, whatever the second read of a turn returned is sent again
    by the first read of the next turn.
   */
  lemma AsWrittenResends(page: Page, first: Round, second: Round)
    requires page.injected && page.buffer.Some? && |first.during| > 0
    ensures var t := TurnAsWritten(page, first);
      var next := TurnAsWritten(t.page, second);
      |next.sent| > 0 && next.sent[0].data[..|first.during|] == first.during
  {
    var t := TurnAsWritten(page, first);
    var before := Arrive(t.page, second.between);
    assert before.buffer.value == first.during + second.between;
  }

  /** Two quiet turns after one response arrived: as written it is sent twice, corrected once. */
  lemma DuplicateExample(page: Page, response: Json, at: DateTime)
    requires page.injected && page.buffer == Some([])
    ensures var rounds := [Round([], at, [response], at), Round([], at, [], at)];
      Contents(RunAsWritten(page, rounds).1) == [response, response]
      && Contents(RunCorrected(page, rounds).1) == [response]
  {
    var rounds := [Round([], at, [response], at), Round([], at, [], at)];
    var t1 := TurnAsWritten(page, rounds[0]);
    assert t1.page.buffer == Some([response]);
    var t2 := TurnAsWritten(t1.page, rounds[1]);
    assert Contents(t2.sent) == [response];
    assert RunAsWritten(t2.page, rounds[1..][1..]) == (t2.page, []);
    ContentsAppend(t2.sent, []);
    assert rounds[1..][1..] == [];
    ContentsAppend(t1.sent, t2.sent);
    assert t1.sent + (t2.sent + []) == t1.sent + t2.sent;
    CorrectedSendsEachOnce(page, rounds);
    assert Arrivals(rounds[1..][1..]) == [];
  }

  /** `dispatch_message` for each message in turn. */
  function Publish(hub: Hub, sent: seq<Message>): (r: Hub)
    requires Dispatch.Valid(hub)
    ensures Dispatch.Valid(r) && r.interested == hub.interested && r.workers.Keys == hub.workers.Keys
    decreases |sent|
  {
    if |sent| == 0 then hub else Publish(DispatchMessage(hub, Scrap(sent[0])), sent[1..])
  }

  /** The queue items of a list of messages. */
  function Items(sent: seq<Message>): (items: seq<Item>)
    ensures |items| == |sent| && forall i :: 0 <= i < |sent| ==> items[i] == Scrap(sent[i])
  {
    seq(|sent|, i requires 0 <= i < |sent| => Scrap(sent[i]))
  }

  /** A worker registered once receives every published message, once each, in order, behind what it already had. */
  lemma {:induction false} PublishDelivers(hub: Hub, sent: seq<Message>, w: WorkerId)
    requires Dispatch.Valid(hub) && w in hub.workers && multiset(hub.interested)[w] == 1
    ensures Publish(hub, sent).workers[w].inbox == hub.workers[w].inbox + Items(sent)
    decreases |sent|
  {
    if |sent| == 0 {
      assert hub.workers[w].inbox + Items(sent) == hub.workers[w].inbox;
    } else {
      var next := DispatchMessage(hub, Scrap(sent[0]));
      assert Publish(hub, sent) == Publish(next, sent[1..]);
      ReceivedOnceIfRegistered(hub, Scrap(sent[0]), w);
      PublishDelivers(next, sent[1..], w);
      ItemsCons(sent);
      AppendAssoc(hub.workers[w].inbox, [Scrap(sent[0])], Items(sent[1..]));
    }
  }

  lemma ItemsCons(sent: seq<Message>)
    requires |sent| > 0
    ensures Items(sent) == [Scrap(sent[0])] + Items(sent[1..])
  {
  }
}
