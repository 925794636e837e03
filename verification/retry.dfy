/**
  The `retry(max_retry_count, start_page)` decorator of `local_browser.py`.

  The wrapped function is modelled by its outcome on each attempt
  (`op(i)` is what attempt `i` does, counting from 0) and the recovery
  navigation `browser.get(page)` by whether it raises (`recover(j)` is the
  exception, if any, of the `j`-th recovery navigation). A run reports how it
  ended, how many attempts it made and every `browser.get` it issued.
 */
module Retry {
  import opened Wrappers
  import opened Seqs

  type BrowserId = nat

  /** An argument of the wrapped call: a WebDriver `Remote` instance or anything else. */
  datatype Arg = Remote(browser: BrowserId) | Plain

  datatype Outcome<V, E> = Succeeded(value: V) | Failed(error: E)

  datatype Ending<V, E> =
    | Returned(value: V)          // the wrapped function's return value
    | Raised(error: E)            // the wrapped function's own exception, re-raised
    | RecoveryRaised(error: E)    // the recovery `browser.get` raised instead

  datatype Get = Get(browser: BrowserId, url: string)

  datatype Run<V, E> = Run(ending: Ending<V, E>, attempts: nat, gets: seq<Get>)

  /** The default `max_retry_count` of the decorator. */
  const DefaultMaxRetry: int := 3

  function FirstRemote(args: seq<Arg>): (r: Option<BrowserId>)
    ensures r.None? <==> forall i :: 0 <= i < |args| ==> args[i].Plain?
    ensures r.Some? ==> exists i :: (0 <= i < |args| && args[i] == Remote(r.value)
                                     && forall j :: 0 <= j < i ==> args[j].Plain?)
  {
    if |args| == 0 then None
    else if args[0].Remote? then Some(args[0].browser)
    else
      var r := FirstRemote(args[1..]);
      assert forall i :: 1 <= i < |args| ==> args[i] == args[1..][i - 1];
      assert r.Some? ==> exists i :: (0 <= i < |args| && args[i] == Remote(r.value)
                                      && forall j :: 0 <= j < i ==> args[j].Plain?) by {
        if r.Some? {
          var i :| 0 <= i < |args[1..]| && args[1..][i] == Remote(r.value)
            && forall j :: 0 <= j < i ==> args[1..][j].Plain?;
          assert args[i + 1] == Remote(r.value);
        }
      }
      r
  }

  /**
    The browser the decorator works with: the first positional `Remote`;
    keyword arguments (in their insertion order) are searched only when no
    positional argument is one.
   */
  function FindBrowser(args: seq<Arg>, kwargs: seq<(string, Arg)>): (r: Option<BrowserId>)
    ensures FirstRemote(args).Some? ==> r == FirstRemote(args)
    ensures FirstRemote(args).None? ==> r == FirstRemote(Values(kwargs))
  {
    match FirstRemote(args)
    case Some(b) => Some(b)
    case None => FirstRemote(Values(kwargs))
  }

  function Values(kwargs: seq<(string, Arg)>): (r: seq<Arg>)
    ensures |r| == |kwargs|
    ensures forall i :: 0 <= i < |kwargs| ==> r[i] == kwargs[i].1
  {
    if |kwargs| == 0 then [] else [kwargs[0].1] + Values(kwargs[1..])
  }

  /** `if not start_page: _start_page = browser.current_url`; an empty page counts as none. */
  function RecoveryTarget(startPage: Option<string>, currentUrl: string): (target: string)
    ensures startPage.Some? && startPage.value != "" ==> target == startPage.value
    ensures startPage.None? || startPage.value == "" ==> target == currentUrl
  {
    match startPage
    case Some(page) => if page != "" then page else currentUrl
    case None => currentUrl
  }

  /** The `while True` loop, entered with `retry_count` failures behind it. */
  function Loop<V, E>(op: nat -> Outcome<V, E>, recover: nat -> Option<E>, maxRetry: int,
                      browser: BrowserId, target: string, retryCount: nat): (r: Run<V, E>)
    requires retryCount == 0 || retryCount <= maxRetry
    ensures retryCount < r.attempts
    ensures r.attempts <= (if maxRetry < 0 then 1 else maxRetry + 1)
    ensures forall i :: retryCount <= i < r.attempts - 1 ==> op(i).Failed?
    decreases maxRetry - retryCount
  {
    var recovery := Get(browser, target);
    match op(retryCount)
    case Succeeded(v) => Run(Returned(v), retryCount + 1, Repeat(recovery, retryCount))
    case Failed(e) =>
      if retryCount + 1 > maxRetry then Run(Raised(e), retryCount + 1, Repeat(recovery, retryCount))
      else match recover(retryCount)
        case Some(navError) => Run(RecoveryRaised(navError), retryCount + 1, Repeat(recovery, retryCount + 1))
        case None => Loop(op, recover, maxRetry, browser, target, retryCount + 1)
  }

  /** One call of the function the decorator wrapped, with the decorator's parameters. */
  function Retry<V, E>(maxRetry: int, startPage: Option<string>, args: seq<Arg>, kwargs: seq<(string, Arg)>,
                       currentUrl: BrowserId -> string, op: nat -> Outcome<V, E>, recover: nat -> Option<E>): (r: Run<V, E>)
    ensures 1 <= r.attempts <= (if maxRetry < 1 then 1 else maxRetry + 1)
    ensures forall i :: 0 <= i < r.attempts - 1 ==> op(i).Failed?
    ensures r.ending.Returned? ==> op(r.attempts - 1) == Succeeded(r.ending.value)
    ensures r.ending.Raised? ==> op(r.attempts - 1) == Failed(r.ending.error)
    ensures r.ending.RecoveryRaised? ==> op(r.attempts - 1).Failed? && recover(r.attempts - 1) == Some(r.ending.error)
    ensures r.ending.Raised? && r.attempts > 1 ==> r.attempts == maxRetry + 1
    ensures |r.gets| == (if r.ending.RecoveryRaised? then r.attempts else r.attempts - 1)
    ensures forall j :: 0 <= j < r.attempts - 1 ==> recover(j).None?
    ensures forall k :: 0 <= k < |r.gets| ==> (FindBrowser(args, kwargs).Some?
      && r.gets[k] == Get(FindBrowser(args, kwargs).value, RecoveryTarget(startPage, currentUrl(FindBrowser(args, kwargs).value))))
  {
    match FindBrowser(args, kwargs)
    case None => Once(op)
    case Some(browser) =>
      if maxRetry == 0 then Once(op)
      else
        var r := Loop(op, recover, maxRetry, browser, RecoveryTarget(startPage, currentUrl(browser)), 0);
        LoopShape(op, recover, maxRetry, browser, RecoveryTarget(startPage, currentUrl(browser)), 0);
        r
  }

  /** A single, unprotected call of the wrapped function. */
  function Once<V, E>(op: nat -> Outcome<V, E>): (r: Run<V, E>)
    ensures r.attempts == 1 && r.gets == []
    ensures op(0).Succeeded? ==> r.ending == Returned(op(0).value)
    ensures op(0).Failed? ==> r.ending == Raised(op(0).error)
  {
    match op(0)
    case Succeeded(v) => Run(Returned(v), 1, [])
    case Failed(e) => Run(Raised(e), 1, [])
  }

  /** How a run of the loop ended and which `browser.get` calls it issued. */
  lemma {:induction false} LoopShape<V, E>(op: nat -> Outcome<V, E>, recover: nat -> Option<E>, maxRetry: int,
                                          browser: BrowserId, target: string, retryCount: nat)
    requires retryCount == 0 || retryCount <= maxRetry
    ensures var r := Loop(op, recover, maxRetry, browser, target, retryCount);
      && (r.ending.Returned? ==> op(r.attempts - 1) == Succeeded(r.ending.value) && |r.gets| == r.attempts - 1)
      && (r.ending.Raised? ==> (op(r.attempts - 1) == Failed(r.ending.error) && |r.gets| == r.attempts - 1
                                && r.attempts == (if maxRetry < 0 then 1 else maxRetry + 1)))
      && (r.ending.RecoveryRaised? ==> (op(r.attempts - 1).Failed? && recover(r.attempts - 1) == Some(r.ending.error)
                                        && |r.gets| == r.attempts))
      && (forall j :: retryCount <= j < r.attempts - 1 ==> recover(j).None?)
      && r.gets == Repeat(Get(browser, target), |r.gets|)
    decreases maxRetry - retryCount
  {
    match op(retryCount)
    case Succeeded(v) =>
    case Failed(e) =>
      if retryCount + 1 <= maxRetry && recover(retryCount).None? {
        LoopShape(op, recover, maxRetry, browser, target, retryCount + 1);
      }
  }

  /** The loop as the decorator writes it; it computes exactly `Retry`. */
  method RetryCall<V, E>(maxRetry: int, startPage: Option<string>, args: seq<Arg>, kwargs: seq<(string, Arg)>,
                         currentUrl: BrowserId -> string, op: nat -> Outcome<V, E>, recover: nat -> Option<E>)
    returns (ending: Ending<V, E>, attempts: nat, gets: seq<Get>)
    ensures Run(ending, attempts, gets) == Retry(maxRetry, startPage, args, kwargs, currentUrl, op, recover)
  {
    var found := FindBrowser(args, kwargs);
    gets := [];
    if found.None? || maxRetry == 0 {
      attempts := 1;
      match op(0) {
        case Succeeded(v) => ending := Returned(v);
        case Failed(e) => ending := Raised(e);
      }
      return;
    }
    var browser := found.value;
    var target := RecoveryTarget(startPage, currentUrl(browser));
    var retryCount: nat := 0;
    while true
      invariant retryCount == 0 || retryCount <= maxRetry
      invariant gets == Repeat(Get(browser, target), retryCount)
      invariant Loop(op, recover, maxRetry, browser, target, retryCount)
             == Retry(maxRetry, startPage, args, kwargs, currentUrl, op, recover)
      decreases maxRetry - retryCount
    {
      match op(retryCount) {
        case Succeeded(v) =>
          ending, attempts := Returned(v), retryCount + 1;
          return;
        case Failed(e) =>
          if retryCount + 1 > maxRetry {
            ending, attempts := Raised(e), retryCount + 1;
            return;
          }
          gets := gets + [Get(browser, target)];
          match recover(retryCount) {
            case Some(navError) =>
              ending, attempts := RecoveryRaised(navError), retryCount + 1;
              return;
            case None =>
          }
          retryCount := retryCount + 1;
      }
    }
  }

  /** Without a browser among the arguments the function runs exactly once, unprotected. */
  lemma NoBrowserRunsOnce<V, E>(maxRetry: int, startPage: Option<string>, args: seq<Arg>, kwargs: seq<(string, Arg)>,
                                currentUrl: BrowserId -> string, op: nat -> Outcome<V, E>, recover: nat -> Option<E>)
    requires forall i :: 0 <= i < |args| ==> args[i].Plain?
    requires forall i :: 0 <= i < |kwargs| ==> kwargs[i].1.Plain?
    ensures Retry(maxRetry, startPage, args, kwargs, currentUrl, op, recover) == Once(op)
  {
    assert FirstRemote(Values(kwargs)).None?;
  }

  /** With `max_retry_count == 0` the function runs exactly once and nothing is re-navigated. */
  lemma ZeroRetriesRunsOnce<V, E>(startPage: Option<string>, args: seq<Arg>, kwargs: seq<(string, Arg)>,
                                  currentUrl: BrowserId -> string, op: nat -> Outcome<V, E>, recover: nat -> Option<E>)
    ensures Retry(0, startPage, args, kwargs, currentUrl, op, recover) == Once(op)
  {
  }

  lemma {:induction false} LoopFailThenSucceed<V, E>(op: nat -> Outcome<V, E>, recover: nat -> Option<E>, maxRetry: int,
                                                    browser: BrowserId, target: string, retryCount: nat, k: nat)
    requires retryCount <= k <= maxRetry
    requires forall i :: retryCount <= i < k ==> op(i).Failed? && recover(i).None?
    requires op(k).Succeeded?
    ensures Loop(op, recover, maxRetry, browser, target, retryCount)
         == Run(Returned(op(k).value), k + 1, Repeat(Get(browser, target), k))
    decreases k - retryCount
  {
    if retryCount < k {
      LoopFailThenSucceed(op, recover, maxRetry, browser, target, retryCount + 1, k);
    }
  }

  /**
    `k` failures followed by a success, with `k <= max_retry_count`: the value
    is returned after `k + 1` attempts and exactly `k` recovery navigations,
    all to the same page.
   */
  lemma FailThenSucceed<V, E>(maxRetry: int, startPage: Option<string>, args: seq<Arg>, kwargs: seq<(string, Arg)>,
                              currentUrl: BrowserId -> string, op: nat -> Outcome<V, E>, recover: nat -> Option<E>, k: nat)
    requires FindBrowser(args, kwargs).Some? && maxRetry >= 1 && k <= maxRetry
    requires forall i :: 0 <= i < k ==> op(i).Failed? && recover(i).None?
    requires op(k).Succeeded?
    ensures var b := FindBrowser(args, kwargs).value;
      Retry(maxRetry, startPage, args, kwargs, currentUrl, op, recover)
        == Run(Returned(op(k).value), k + 1, Repeat(Get(b, RecoveryTarget(startPage, currentUrl(b))), k))
  {
    var b := FindBrowser(args, kwargs).value;
    LoopFailThenSucceed(op, recover, maxRetry, b, RecoveryTarget(startPage, currentUrl(b)), 0, k);
  }

  lemma {:induction false} LoopExhausted<V, E>(op: nat -> Outcome<V, E>, recover: nat -> Option<E>, maxRetry: int,
                                              browser: BrowserId, target: string, retryCount: nat)
    requires retryCount <= maxRetry
    requires forall i :: retryCount <= i <= maxRetry ==> op(i).Failed?
    requires forall i :: retryCount <= i < maxRetry ==> recover(i).None?
    ensures Loop(op, recover, maxRetry, browser, target, retryCount)
         == Run(Raised(op(maxRetry).error), maxRetry + 1, Repeat(Get(browser, target), maxRetry))
    decreases maxRetry - retryCount
  {
    if retryCount < maxRetry {
      LoopExhausted(op, recover, maxRetry, browser, target, retryCount + 1);
    }
  }

  /**
    More failures than `max_retry_count` allows: the last exception is re-raised
    after exactly `max_retry_count + 1` attempts and `max_retry_count` navigations.
   */
  lemma Exhausted<V, E>(maxRetry: int, startPage: Option<string>, args: seq<Arg>, kwargs: seq<(string, Arg)>,
                        currentUrl: BrowserId -> string, op: nat -> Outcome<V, E>, recover: nat -> Option<E>)
    requires FindBrowser(args, kwargs).Some? && maxRetry >= 1
    requires forall i :: 0 <= i <= maxRetry ==> op(i).Failed?
    requires forall i :: 0 <= i < maxRetry ==> recover(i).None?
    ensures var b := FindBrowser(args, kwargs).value;
      Retry(maxRetry, startPage, args, kwargs, currentUrl, op, recover)
        == Run(Raised(op(maxRetry).error), maxRetry + 1, Repeat(Get(b, RecoveryTarget(startPage, currentUrl(b))), maxRetry))
  {
    var b := FindBrowser(args, kwargs).value;
    LoopExhausted(op, recover, maxRetry, b, RecoveryTarget(startPage, currentUrl(b)), 0);
  }

  /**
    Under the decorator's default `max_retry_count`, a function that keeps
    failing is attempted four times and its page is re-opened three times.
   */
  lemma DefaultAlwaysFailing<V, E>(startPage: Option<string>, args: seq<Arg>, kwargs: seq<(string, Arg)>,
                                   currentUrl: BrowserId -> string, op: nat -> Outcome<V, E>, recover: nat -> Option<E>)
    requires FindBrowser(args, kwargs).Some?
    requires forall i :: 0 <= i <= DefaultMaxRetry ==> op(i).Failed?
    requires forall i :: 0 <= i < DefaultMaxRetry ==> recover(i).None?
    ensures var r := Retry(DefaultMaxRetry, startPage, args, kwargs, currentUrl, op, recover);
      r.ending == Raised(op(3).error) && r.attempts == 4 && |r.gets| == 3
  {
    Exhausted(DefaultMaxRetry, startPage, args, kwargs, currentUrl, op, recover);
  }

  /** A negative `max_retry_count` re-raises the first failure without navigating. */
  lemma NegativeRetriesRaiseFirstFailure<V, E>(maxRetry: int, startPage: Option<string>, args: seq<Arg>, kwargs: seq<(string, Arg)>,
                                               currentUrl: BrowserId -> string, op: nat -> Outcome<V, E>, recover: nat -> Option<E>)
    requires maxRetry < 0 && op(0).Failed?
    ensures Retry(maxRetry, startPage, args, kwargs, currentUrl, op, recover) == Run(Raised(op(0).error), 1, [])
  {
  }
}
