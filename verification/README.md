# solaredge scraper — a Dafny model of its core

The solaredge scraper keeps a browser on the public SolarEdge monitoring page
of one site. A browser extension injects a script into that page. The script
captures the site's energy API responses into a page-global buffer. A
producer thread periodically reads that buffer, asks the page to refresh its
data, and reads the buffer again. Every non-empty read is wrapped in a
`ScrapMessage` (the time plus the list of responses) and put into the queue
of every registered worker. The `DATA_PROCESSOR` worker does three things
with each message:

- flattens the panel readings of the responses into CSV rows;
- appends the rows to the day's `processed.csv`, writing the header only when it creates the file;
- when the batch yields at least one row, dumps the `res` of the batch's first response to a JSON file named after the message's timestamp.

Around this sit two bounded-retry helpers used with the browser:

- a decorator that re-runs a failing call after re-opening a start page;
- a navigator that retries page loads that time out.

There are also small pacing helpers: jittered pauses and the randomized wait
between cycles.

This project models that core as pure functions over immutable data. Where
the source runs a loop against the browser, a method with loop invariants is
proved equal to the functional definition. It proves these properties of
the code:

- Retries are bounded. Each retry re-opens the right page.
- A batch's rows match its panel entries one for one.
- A day's batches share one CSV with one header.
- Queues are first in, first out, and every registered worker receives every message once.
- The query parser keeps the last value of a duplicated key.
- Responses that arrive after a buffer reset are read back in order.

Browser calls, clocks and random draws are parameters:

- an outcome sequence indexed by attempt number;
- the instant `now`;
- a finite sequence of draws.

The file system is a map from path to lines, with a set of paths that cannot
be opened.

Modules, one per file:

- `Wrappers`: `Option`, `Result` and the Python errors involved.
- `Strings`: `split`/`join`, character replacement and decimal digits.
- `Seqs`: repeated elements and concatenation facts shared by the other modules.
- `Json`: parsed JSON values and `dict[key]` lookup.
- `Clock`: `datetime` values, `str(date)` and `get_time`.
- `Pacing`: `randomize_time`, `sleep`, `set_sleep_percentage` and `get_random`.
- `Retry`: the `retry` decorator.
- `Navigator`: `web_address_navigator`.
- `Records`: `ScrapMessage` and the flattening of a batch into rows.
- `Storage`: `get_write_path`, `write_csv` and `dump_json`.
- `Worker`: the `WorkerThread` queue and `process_message`.
- `Dispatch`: `register_interest` and `dispatch_message`.
- `PageScript`: the injected page helpers of `content.js`.
- `Producer`: the producer's cycle.

## Model

| member | source | states |
|---|---|---|
| Strings.Split | solaredge/extension/firefox_extension/content.js:58-62 | JavaScript `split` on one character always yields at least one part, and no part contains the separator |
| Strings.JoinSplit | solaredge/extension/firefox_extension/content.js:58-62 | joining the parts of a split with the separator gives back the original text |
| Strings.SplitJoin | solaredge/extension/firefox_extension/content.js:58-62 | splitting the join of separator-free parts gives back exactly those parts |
| Strings.ReplaceChar | solaredge/scrapper.py:154 | `replace('.', '_')` keeps the length, changes exactly the '.' characters, and leaves none behind |
| Strings.ZeroPad | solaredge/scrapper.py:146-147 | a zero-padded field is all digits, reads back as the number, and has exactly the field width when the number fits |
| Strings.NatToDigits | solaredge/scrapper.py:146-147 | the decimal text of a number is non-empty, all digits, and reads back as that number |
| Clock.DateString | solaredge/scrapper.py:146-147 | `str(date)` is ten characters `YYYY-MM-DD`: dashes at positions 4 and 7, digit fields, and no '/' or '.' that could change a path |
| Clock.DateStringInjective | solaredge/scrapper.py:146-147 | two valid instants print the same date exactly when they fall on the same day |
| Clock.TimeEntries | solaredge/utils.py:81-91 | one entry per recognised label, in label order. There are as many entries as labels exactly when every label is recognised, and then entry i is label i's own text |
| Clock.TimeEntriesSingle | solaredge/utils.py:83-91 | one label gives its own text when recognised and no entry otherwise |
| Clock.TimeEntriesAppend | solaredge/utils.py:83-91 | the entries of two label lists in a row are the entries of each, concatenated |
| Clock.GetTime | solaredge/utils.py:75-93 | a non-list argument counts as one label. No recognised label raises `IndexError`. A single entry is returned bare, and it is the only entry of the labels. Several entries are returned as the list of all entries, in label order |
| Clock.EntriesEmptyIffNoneRecognised | solaredge/utils.py:83-93 | the result list is empty exactly when no label is recognised |
| Clock.SingleEntryHasLabel | solaredge/utils.py:93 | a lone returned entry is the text of one of the labels passed |
| Pacing.RandomizeTime | solaredge/utils.py:47-55 | the result lies within half the mean of the mean and is the first accepted draw; all earlier draws were rejected; a zero mean returns 0 without drawing; a negative mean accepts nothing |
| Pacing.Sleep | solaredge/utils.py:64-68 | the pause is the first accepted draw times the custom or global percentage (0 for t = 0), so it is non-negative and lies in [0.5·t·p, 1.5·t·p]. `time.sleep` raises `ValueError` exactly when t > 0, the percentage is negative and some draw is accepted. The draws never end exactly for a negative time, or a positive one whose every draw is rejected |
| Pacing.SetSleepPercentage | solaredge/utils.py:58-61 | the stored factor is the percentage over 100 times a jitter in [0.9, 1.1], so 100 gives a factor in [0.9, 1.1] |
| Pacing.GetRandom | solaredge/scrapper.py:66-67 | the wait between producer cycles is an integer of [60, 120] seconds |
| Pacing.GetRandomCoversRange | solaredge/scrapper.py:66-67 | every integer of [60, 120] is a possible wait |
| Retry.FirstRemote | solaredge/local_browser.py:137-142 | the browser found is the first positional `Remote`; there is none exactly when no argument is one |
| Retry.FindBrowser | solaredge/local_browser.py:137-150 | keyword arguments are searched, in insertion order, only when no positional argument is a browser |
| Retry.RecoveryTarget | solaredge/local_browser.py:160-162 | the page re-opened after a failure is the start page when one is given and non-empty, otherwise the browser's URL at call time |
| Retry.Loop | solaredge/local_browser.py:164-183 | the loop never runs more than `max_retry_count + 1` attempts, and every attempt before the last failed |
| Retry.Retry | solaredge/local_browser.py:123-187 | attempts are between 1 and `max+1`, and all but the last failed. The ending is the last attempt's value, its exception, or the recovery's exception. Raising after retries means exactly `max+1` attempts. One `browser.get(start page)` follows each failure that is retried, always on the browser found |
| Retry.Once | solaredge/local_browser.py:152-158 | the unprotected call makes one attempt and no re-open, returning the value or raising the exception of that attempt |
| Retry.RetryCall | solaredge/local_browser.py:131-183 | the decorator's imperative loop computes exactly `Retry` |
| Retry.LoopShape | solaredge/local_browser.py:164-183 | each run of the loop ends in one of three ways, and the recovery calls it makes are the ones that ending implies |
| Retry.NoBrowserRunsOnce | solaredge/local_browser.py:152-154 | without a browser among the arguments the call runs exactly once, unprotected |
| Retry.ZeroRetriesRunsOnce | solaredge/local_browser.py:156-158 | with `max_retry_count == 0` the call runs exactly once and nothing is re-opened |
| Retry.LoopFailThenSucceed | solaredge/local_browser.py:166-181 | inside the loop, k failures then a success give k+1 attempts and k recoveries |
| Retry.FailThenSucceed | solaredge/local_browser.py:164-183 | k ≤ max failures followed by a success return that value after k+1 attempts and k re-opens of the start page |
| Retry.LoopExhausted | solaredge/local_browser.py:170-176 | inside the loop, failing through the last allowed attempt raises that attempt's exception |
| Retry.Exhausted | solaredge/local_browser.py:164-183 | failing every time raises the last exception after exactly `max+1` attempts and `max` re-opens |
| Retry.DefaultAlwaysFailing | solaredge/local_browser.py:123-183 | with the default `max_retry_count=3`, a call that keeps failing is attempted four times and re-opens its page three times before the fourth exception is raised |
| Retry.NegativeRetriesRaiseFirstFailure | solaredge/local_browser.py:172-176 | a negative `max_retry_count` re-raises the first failure without re-opening anything |
| Navigator.NeedsNavigation | solaredge/utils.py:170-181 | an unknown current URL always navigates; an identical URL never does; for URLs without a trailing slash, navigation happens exactly when they differ |
| Navigator.FetchedUrl | solaredge/utils.py:174-181 | the URL requested is the link exactly as given, after the slash is stripped and restored |
| Navigator.GetLoop | solaredge/utils.py:182-196 | the timeout loop issues at most 8 requests for the same URL, and all but the last timed out. It stops at a load, an error or giving up. It gives up exactly when the 8th request also times out |
| Navigator.WebAddressNavigator | solaredge/utils.py:164-196 | nothing is requested exactly when the current URL equals the link up to one trailing slash. Otherwise every request is for the link. The loop stops at the first load, the first other error, or the 8th timeout, which raises |
| Navigator.NavigateCall | solaredge/utils.py:164-196 | the imperative navigator computes exactly `WebAddressNavigator` |
| Navigator.GetWithTimeouts | solaredge/utils.py:182-196 | the imperative retry loop computes exactly `GetLoop` from zero timeouts |
| Navigator.UnknownPageNavigates | solaredge/utils.py:180 | an unknown current URL always navigates |
| Navigator.TrailingSlashIgnored | solaredge/utils.py:170-178 | one trailing slash on either URL, or on both, does not change whether to navigate |
| Navigator.LoopGivesUp | solaredge/utils.py:190-195 | inside the loop, timeouts up to the limit end in giving up |
| Navigator.EightTimeoutsGiveUp | solaredge/utils.py:182-196 | eight timeouts in a row raise `TimeoutException` after exactly eight requests |
| Navigator.LoopLoadsAfter | solaredge/utils.py:185-196 | inside the loop, a load after further timeouts below the limit returns normally |
| Navigator.LoadAfterTimeouts | solaredge/utils.py:182-196 | a load after k ≤ 7 timeouts returns normally after k+1 requests |
| Json.Lookup | solaredge/scrapper.py:170 | `value[key]` fails exactly on a non-dict or a missing key, and a missing key of a dict raises `KeyError(key)`. A hit returns the value stored under `key`, from the first member with that key |
| Json.Member | solaredge/scrapper.py:170 | a dict's members give `KeyError(key)` exactly when none has the key, and otherwise the value of the first member with that key |
| Json.FirstWithKeyAt | solaredge/scrapper.py:170 | the value a hit returns belongs to a member `(key, value)` of the dict, and no earlier member has that key; conversely every such member is the one found |
| Records.PanelRow | solaredge/scrapper.py:173-181 | a panel's row exists exactly when its reading has all five fields, and it then carries the panel name, those five values and the message time. A dict missing a field raises `KeyError` naming one of the five; a reading that is not a dict raises `TypeError` |
| Records.PanelRows | solaredge/scrapper.py:172-182 | the rows of a dict are produced exactly when every reading is complete; there is one row per entry, in dict order |
| Records.ResponseRows | solaredge/scrapper.py:169-182 | a response without `res` raises. A `res` that is empty or not a dict contributes no rows. Otherwise there is one row per panel entry |
| Records.FlattenRows | solaredge/scrapper.py:168-182 | the rows of a batch exist exactly when every response flattens, and then they are one per panel entry of all responses, in order |
| Records.Flatten | solaredge/scrapper.py:168-182 | when a batch raises, the exception is that of some response, and every response before that one flattens |
| Records.FlattenAppend | solaredge/scrapper.py:169-182 | when two batches both flatten, flattening them together gives the first batch's rows followed by the second's |
| Records.EmptyResponseContributesNothing | solaredge/scrapper.py:171 | a response whose `res` is empty or not a dict changes nothing about the batch's rows |
| Records.OnePanelResponse | solaredge/scrapper.py:168-182 | a batch of one response with one panel (every reading present) gives exactly one row, built from that panel |
| Storage.PathJoin | solaredge/scrapper.py:147 | an absolute second component replaces the first; otherwise it is appended after the first and a single '/' |
| Storage.DayDir | solaredge/scrapper.py:146-147 | the day's directory is the root, a '/' when the root lacks one, then `YYYY-MM-DD` |
| Storage.WritePaths | solaredge/scrapper.py:145-154 | the CSV is `<root>/<YYYY-MM-DD>/processed.csv`; the dump is `<root>/<date>/dump/<stamp with '.'→'_'>.json`; the two never coincide |
| Storage.SameFileIffSameDay | solaredge/scrapper.py:145-150 | two batches share a CSV file exactly when they fall on the same day |
| Storage.WriteCsv | solaredge/scrapper.py:126-143 | a file that cannot be opened is left as it was and nothing else changes. Otherwise any existing file keeps its old lines and gains exactly one row line per new row, in order; a well-formed file then reads back as its old rows followed by the new ones. A new file starts with the single header |
| Storage.ReadRows | solaredge/scrapper.py:134-137 | the model's reader of the file format these lines write (the source has no reader): a well-formed CSV reads back as the rows of its lines after the single header, in order |
| Storage.DumpJson | solaredge/scrapper.py:156-162 | the JSON file is replaced by the document unless it cannot be opened; no other file changes |
| Storage.DumpOverwrites | solaredge/scrapper.py:156-160 | dumping twice to one path keeps only the second document |
| Storage.TwoBatchesOneHeader | solaredge/scrapper.py:131-138 | two batches written to a new file leave one header followed by the first batch's rows, then the second's |
| Worker.PutMessage | solaredge/scrapper.py:188-189 | `put_message` adds the item at the back and keeps everything already queued |
| Worker.Take | solaredge/scrapper.py:122 | `queue.get` hands out the front item and keeps the rest in order; an empty queue blocks |
| Worker.FifoOrder | solaredge/scrapper.py:115-122 | items leave the queue in the order they were put, after those already waiting |
| Worker.ProcessMessage | solaredge/scrapper.py:164-186 | only `DATA_PROCESSOR` writes. An incomplete response raises. A batch without rows writes nothing. Otherwise only the day's CSV and the dump change. The CSV gains one row per panel entry, in order, after its old lines, even when those are not a CSV of this shape. The dump holds the first response's `res`. A file that cannot be opened is neither created nor changed |
| Worker.Step | solaredge/scrapper.py:118-124 | a turn takes the front item, processes a `ScrapMessage` and drops anything else; an exception ends the thread and keeps the file system unchanged |
| Worker.Run | solaredge/scrapper.py:118-124 | turns keep the worker's role, a dead worker does nothing, the worker ends live only if it started live, and each turn consumes at most one item from the front of the queue |
| Worker.OthersNeverWrite | solaredge/scrapper.py:164-166 | a worker of any other role consumes its queue, writes nothing and never stops |
| Worker.CrashIsFinal | solaredge/scrapper.py:118-124 | once an exception has ended the thread, it processes nothing more |
| Worker.DeniedWriteDoesNotCrash | solaredge/scrapper.py:139-162 | a batch whose files cannot be opened is logged; the worker survives with the file system unchanged and moves to the next message |
| Dispatch.Register | solaredge/scrapper.py:104-105 | registering adds one more registration of that worker and none of any other |
| Dispatch.DispatchTo | solaredge/scrapper.py:108-109 | each worker's queue gains the message once per registration, at the back; roles and liveness are untouched |
| Dispatch.DispatchMessage | solaredge/scrapper.py:107-109 | dispatching appends the message to every registered worker's queue as many times as it is registered, and to no other |
| Dispatch.ReceivedOnceIfRegistered | solaredge/scrapper.py:107-109 | a worker registered once receives the message exactly once; an unregistered one receives nothing |
| Dispatch.DispatchOrder | solaredge/scrapper.py:107-109 | a worker sees two dispatched messages in dispatch order |
| Dispatch.LateRegistrationMissesEarlier | solaredge/scrapper.py:104-109 | a worker registered after a dispatch does not receive that message |
| PageScript.Init | solaredge/extension/firefox_extension/content.js:90-91 | loading the script defines the buffer and the hook only where undefined, and never clears an existing buffer |
| PageScript.InitIdempotent | solaredge/extension/firefox_extension/content.js:90-91 | running the script twice is the same as running it once, also for everything that arrives afterwards |
| PageScript.ProcessScrapResponse | solaredge/extension/firefox_extension/content.js:79-81 | a response is added at the back of the buffer and nothing else changes; an undefined buffer throws `TypeError` |
| PageScript.PushAllAppends | solaredge/extension/firefox_extension/content.js:79-81 | responses arriving one after another land at the back of the buffer in arrival order |
| PageScript.ScrapData | solaredge/extension/firefox_extension/content.js:82-86 | the buffer is emptied, the button is clicked exactly when the page has it, and nothing else changes |
| PageScript.ReadAfterReset | solaredge/extension/firefox_extension/content.js:82-89 | after a reset, a read returns exactly what arrived since, in order |
| PageScript.ReadDoesNotConsume | solaredge/extension/firefox_extension/content.js:87-89 | reading does not consume the buffer: a later read returns what the earlier one did, followed by newer arrivals |
| PageScript.GetData | solaredge/extension/firefox_extension/content.js:87-89 | `__get_data` returns the buffer as it stands, `undefined` included, without consuming it |
| PageScript.InterceptUrl | solaredge/extension/firefox_extension/content.js:67-78 | a request is captured exactly when its host is `monitoringpublic.solaredge.com` and its path is the site's layout energy API; an unparsable URL throws `TypeError` |
| PageScript.OnlyTheEnergyCallIsCaptured | solaredge/extension/firefox_extension/content.js:72-77 | any other path is let through uncaptured |
| PageScript.StripQuestion | solaredge/extension/firefox_extension/content.js:58-59 | exactly one leading '?' is removed, and nothing else |
| PageScript.ParsePairs | solaredge/extension/firefox_extension/content.js:61-64 | the loop succeeds exactly when every key and value decodes. Each key then holds the value of its last assignment. A failed decode throws `URIError` |
| PageScript.ParseQuery | solaredge/extension/firefox_extension/content.js:56-66 | the query parses exactly when every segment decodes; its keys and values are those its segments assign last |
| PageScript.LastWins | solaredge/extension/firefox_extension/content.js:61-64 | a later duplicate key overwrites an earlier one |
| PageScript.ParseQueryKeys | solaredge/extension/firefox_extension/content.js:56-66 | every key of the result is some segment's key, and each holds the value of the last segment with that key |
| PageScript.QuestionMarkOptional | solaredge/extension/firefox_extension/content.js:58-60 | a query reads the same with or without one leading '?' |
| PageScript.EmptyQuery | solaredge/extension/firefox_extension/content.js:58-64 | the empty query gives the single key "" with value "" |
| PageScript.SegmentParts | solaredge/extension/firefox_extension/content.js:62-63 | `k=v` has key `k` and value `v`; a bare `k` has value "" |
| PageScript.SecondEqualsDropsRest | solaredge/extension/firefox_extension/content.js:62-63 | in `k=v=w` the text after the second '=' is dropped |
| PageScript.EncodeThenParse | solaredge/extension/firefox_extension/content.js:56-66 | parsing `k1=v1&k2=v2&…` gives back every key, each with its last value, and no other key |
| PageScript.ParseIntText | solaredge/extension/firefox_extension/content.js:53 | `parseInt` reads back the decimal text of any integer, whatever non-digit text follows it |
| PageScript.TimeClip | solaredge/extension/firefox_extension/content.js:53 | `new Date(ms)` is valid exactly within ±8.64·10¹⁵ ms |
| PageScript.ParseInt | solaredge/extension/firefox_extension/content.js:53 | empty text is NaN, text starting with a digit is a number, and the sign of the result follows the leading `-` |
| PageScript.CompareDates | solaredge/extension/firefox_extension/content.js:52-55 | the post is newer exactly when both dates are valid and its seconds, as ms, exceed the last scrape time; a comparison with an invalid date is false |
| PageScript.CompareBySeconds | solaredge/extension/firefox_extension/content.js:52-55 | for valid times, the post is newer exactly when its whole second is after the last scrape's second |
| PageScript.InvalidNeverNewer | solaredge/extension/firefox_extension/content.js:52-55 | an unreadable or out-of-range post date, or an invalid last date, never counts as newer |
| Producer.Read | solaredge/scrapper.py:88-92 | a read produces a message exactly when the buffer is non-empty, carrying the whole buffer. Without the script it is a `JavascriptException`. An undefined buffer makes `len` raise a `TypeError`, which `except JavascriptException` does not catch, so the thread ends (`Crashed`) |
| Producer.TurnAsWritten | solaredge/scrapper.py:81-102 | a turn on a loaded page sends the earlier buffer, what arrived before the first read, and what arrived after the click, in that order; the buffer then still holds the last arrivals |
| Producer.TurnCorrected | solaredge/scrapper.py:81-102 | the corrected turn sends the same and leaves the buffer empty |
| Producer.RunAsWritten | solaredge/scrapper.py:81-102 | successive turns as written keep the page's script and button; with no script nothing is sent |
| Producer.RunCorrected | solaredge/scrapper.py:81-102 | successive corrected turns keep the page's script and button; with no script nothing is sent |
| Producer.CorrectedSendsEachOnce | solaredge/scrapper.py:81-102 | over any number of corrected turns, what was sent followed by what still waits equals the initial buffer followed by every arrival, each once, in order |
| Producer.AsWrittenResends | solaredge/scrapper.py:88-100 | as written, the next turn's first message begins with what the previous turn's second read already sent |
| Producer.DuplicateExample | solaredge/scrapper.py:88-100 | one response and two turns: as written it is sent twice, corrected once |
| Producer.Publish | solaredge/scrapper.py:107-109 | dispatching a list of messages keeps the registry valid and unchanged |
| Producer.PublishDelivers | solaredge/scrapper.py:107-109 | a worker registered once receives every published message once, in order, behind what it already had |

## Left out

- Threads, the global lock, `RefreshThread`, `EXIT_SIG` and the signal handlers: only the sequential queue, dispatch and turn semantics are modelled, and a turn's pauses (`time.sleep`) are not.
- `create_proxied_browser_instance`, driver provisioning, proxy authentication and extension zipping: these are I/O against foreign libraries.
- `explicit_wait`, `get_page_title`, `is_page_available`, `get_current_url` and `reload_webpage`: the current URL and every `browser.get` outcome are inputs.
- Logging and its handlers: every "logged and ignored" exception is modelled only as "ignored".
- `os.mkdir` in `get_write_path` and `make_dir`/`mkdirs`: the file system is a map from path to lines, and directories are not modelled. A failing `mkdir` (which the source does not catch) is therefore not modelled either.
- CSV quoting and escaping, and the JSON text layout: a CSV line is a header or a row record, and a dump is the JSON value itself.
- The XHR patching, the anti-detection overrides, `__sleep` and `background.js`: arrivals of captured responses are the inputs `between` and `during` of a turn.
- `gauss` and `uniform`: they are a finite sequence of draws and a jitter in [0.9, 1.1]. `random.randint` is `low + entropy mod (high − low + 1)`.
- `decodeURIComponent` and `new URL`: uninterpreted function parameters.
- PageScript.ParseQuery: the result is a map, so JavaScript's property order (integer-like keys first) and the special key `__proto__` are not modelled.
- PageScript.ParseInt: leading whitespace and the `0x` prefix, which `parseInt` without a radix also accepts, are not modelled; nor is rounding of values beyond 2⁵³.
- Clock.GetTime: the source reads the clock once per label; the model reads one instant `now` for the whole call.
- Worker.Step: the source sleeps a minute before each `queue.get`; timing is not modelled.
- Python floats are modelled as exact reals: the acceptance test of `randomize_time` and the product `x * percentage` (solaredge/utils.py:47-68) round in the source and do not in the model.
- Navigator.WebAddressNavigator: the randomized `sleep(2)` after each successful `browser.get` and after each timeout (solaredge/utils.py:188, solaredge/utils.py:195) is not modelled; only the sequence of requests and the final outcome are.
- Worker.ProcessMessage: a missing `res` or reading field (solaredge/scrapper.py:169-181) raises out of `process_message` and ends the worker thread; only failures inside `write_csv` and `dump_json` are caught. See also `Worker.Step` and `Worker.CrashIsFinal`.
- Storage.WriteCsv: the `try` of `write_csv` (solaredge/scrapper.py:128-138) also covers `writeheader` and `writerows`. A failure after the file is opened can leave a partly written file. The model only knows a file that cannot be opened (left unchanged) or a write that completes.
- Storage.DumpJson: likewise, a failure inside `json.dump` (solaredge/scrapper.py:157-160) can leave a truncated dump. The model only knows a file that cannot be opened or a dump that completes.
- Retry.Retry: `except Exception` (solaredge/local_browser.py:170) does not catch `BaseException`s such as `KeyboardInterrupt` or `SystemExit`. Those propagate on the attempt that raised them, with no re-open. The model's outcomes are all ordinary exceptions.
- Storage.WritePaths and Worker.ProcessMessage: the dump's `stamp` is a free string parameter. The source derives it from `at` via `str(datetime.timestamp())` (solaredge/scrapper.py:154); float formatting is not modelled.

## Findings

| source | as written | input that shows it | evidently intended | confidence | as-written member | corrected member |
|---|---|---|---|---|---|---|
| solaredge/scrapper.py:88-100 | the second read of a turn dispatches the buffer but never clears it, so the next turn's first read dispatches the same responses again and their rows are appended to the CSV twice | a loaded page with an empty buffer; one response arrives after the click of turn 1, nothing else arrives; turn 2's first read re-sends it | each captured response is dispatched once: clear the buffer once its contents have been dispatched | medium, not executed | Producer.DuplicateExample | Producer.CorrectedSendsEachOnce |
