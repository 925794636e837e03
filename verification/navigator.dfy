/**
  `web_address_navigator(browser, link)` of `utils.py`: compare the page the
  browser is on with `link`, ignoring one trailing slash on each, and only
  when they differ (or the current URL is unknown) issue `browser.get`,
  retrying on timeouts until the eighth consecutive one.

  `current` is what `get_current_url` reported (`None` when both ways of
  reading it failed); `get(i)` is the outcome of the `i`-th `browser.get`.
 */
module Navigator {
  import opened Wrappers
  import opened Strings
  import opened Seqs

  datatype GetOutcome<E> = Loaded | TimedOut | GetFailed(error: E)

  datatype Ending<E> =
    | Stayed           // already on the page: no `browser.get` at all
    | Navigated        // a `browser.get` completed
    | GaveUp           // the `TimeoutException` raised after the last timeout
    | Failed(error: E) // any other exception of `browser.get`, propagated

  /** How the call ended and the URL of every `browser.get` it issued, in order. */
  datatype Navigation<E> = Navigation(ending: Ending<E>, gets: seq<string>)

  /** `total_timeouts >= 7` gives up: the timeout that finds seven before it is the last. */
  const TimeoutLimit: nat := 7

  /** The most `browser.get` calls one navigation issues. */
  const MaxGets: nat := TimeoutLimit + 1

  /** Whether the current page differs from `link` once one trailing '/' is dropped from each. */
  predicate NeedsNavigation(current: Option<string>, link: string): (r: bool)
    ensures current.None? ==> r
    ensures current.Some? && current.value == link ==> !r
    ensures current.Some? && !EndsWith(current.value, '/') && !EndsWith(link, '/') ==> (r <==> current.value != link)
  {
    current.None? || StripTrailing(current.value, '/') != StripTrailing(link, '/')
  }

  /** The URL handed to `browser.get`: the stripped link, with its slash restored for a directory. */
  function FetchedUrl(link: string): (r: string)
    ensures r == link
  {
    if EndsWith(link, '/') then StripTrailing(link, '/') + "/" else link
  }

  /** The `while True` loop after `total` timeouts. */
  function GetLoop<E>(get: nat -> GetOutcome<E>, url: string, total: nat): (r: Navigation<E>)
    requires total <= TimeoutLimit
    ensures total < |r.gets| <= MaxGets
    ensures forall i :: 0 <= i < |r.gets| ==> r.gets[i] == url
    ensures forall i :: total <= i < |r.gets| - 1 ==> get(i).TimedOut?
    ensures r.ending.Navigated? || r.ending.GaveUp? || r.ending.Failed?
    ensures r.ending.Navigated? ==> get(|r.gets| - 1).Loaded?
    ensures r.ending.Failed? ==> get(|r.gets| - 1) == GetFailed(r.ending.error)
    ensures r.ending.GaveUp? <==> |r.gets| == MaxGets && get(TimeoutLimit).TimedOut?
    decreases TimeoutLimit - total
  {
    match get(total)
    case Loaded => Navigation(Navigated, Repeat(url, total + 1))
    case GetFailed(e) => Navigation(Failed(e), Repeat(url, total + 1))
    case TimedOut =>
      if total >= TimeoutLimit then Navigation(GaveUp, Repeat(url, total + 1))
      else GetLoop(get, url, total + 1)
  }

  function WebAddressNavigator<E>(current: Option<string>, link: string, get: nat -> GetOutcome<E>): (r: Navigation<E>)
    ensures r.ending.Stayed? <==> !NeedsNavigation(current, link)
    ensures r.ending.Stayed? <==> r.gets == []
    ensures |r.gets| <= MaxGets
    ensures forall i :: 0 <= i < |r.gets| ==> r.gets[i] == link
    ensures forall i :: 0 <= i < |r.gets| - 1 ==> get(i).TimedOut?
    ensures r.ending.Navigated? ==> get(|r.gets| - 1).Loaded?
    ensures r.ending.Failed? ==> get(|r.gets| - 1) == GetFailed(r.ending.error)
    ensures r.ending.GaveUp? ==> |r.gets| == MaxGets && forall i :: 0 <= i < MaxGets ==> get(i).TimedOut?
  {
    if !NeedsNavigation(current, link) then Navigation(Stayed, [])
    else
      GetLoop(get, FetchedUrl(link), 0)
  }

  /** The loop as `utils.py` writes it; it computes exactly `WebAddressNavigator`. */
  method NavigateCall<E>(current: Option<string>, link: string, get: nat -> GetOutcome<E>)
    returns (ending: Ending<E>, gets: seq<string>)
    ensures Navigation(ending, gets) == WebAddressNavigator(current, link, get)
  {
    var currentUrl := current;
    if currentUrl.Some? && EndsWith(currentUrl.value, '/') {
      currentUrl := Some(currentUrl.value[..|currentUrl.value| - 1]);
    }
    var target := link;
    var isDir := false;
    if EndsWith(target, '/') {
      target := target[..|target| - 1];
      isDir := true;
    }
    assert currentUrl.Some? <==> current.Some?;
    assert currentUrl.Some? ==> currentUrl.value == StripTrailing(current.value, '/');
    assert target == StripTrailing(link, '/') && isDir == EndsWith(link, '/');
    gets := [];
    if currentUrl.Some? && currentUrl.value == target {
      assert !NeedsNavigation(current, link);
      ending := Stayed;
      return;
    }
    assert NeedsNavigation(current, link);
    var url := if isDir then target + "/" else target;
    assert url == FetchedUrl(link);
    assert WebAddressNavigator(current, link, get) == GetLoop(get, url, 0);
    ending, gets := GetWithTimeouts(get, url);
  }

  /** The timeout loop: `browser.get(url)` until it loads, fails otherwise, or times out an eighth time. */
  method GetWithTimeouts<E>(get: nat -> GetOutcome<E>, url: string) returns (ending: Ending<E>, gets: seq<string>)
    ensures Navigation(ending, gets) == GetLoop(get, url, 0)
  {
    gets := [];
    var total: nat := 0;
    while true
      invariant total <= TimeoutLimit
      invariant gets == Repeat(url, total)
      invariant GetLoop(get, url, total) == GetLoop(get, url, 0)
      decreases TimeoutLimit - total
    {
      RepeatSnoc(url, total);
      gets := gets + [url];
      match get(total) {
        case Loaded =>
          ending := Navigated;
          return;
        case GetFailed(e) =>
          ending := Failed(e);
          return;
        case TimedOut =>
          if total >= TimeoutLimit {
            ending := GaveUp;
            return;
          }
          total := total + 1;
      }
    }
  }

  /** An unknown current URL always navigates. */
  lemma UnknownPageNavigates<E>(link: string, get: nat -> GetOutcome<E>)
    ensures !WebAddressNavigator(None, link, get).ending.Stayed?
    ensures |WebAddressNavigator(None, link, get).gets| >= 1
  {
  }

  /** A single trailing '/' on either URL does not change the decision. */
  lemma TrailingSlashIgnored(current: string, link: string)
    requires !EndsWith(current, '/') && !EndsWith(link, '/')
    ensures NeedsNavigation(Some(current + "/"), link) == NeedsNavigation(Some(current), link)
    ensures NeedsNavigation(Some(current), link + "/") == NeedsNavigation(Some(current), link)
    ensures !NeedsNavigation(Some(current + "/"), link) <==> current == link
    ensures NeedsNavigation(Some(current + "/"), link + "/") == NeedsNavigation(Some(current), link)
  {
    assert StripTrailing(current + "/", '/') == current;
    assert StripTrailing(link + "/", '/') == link;
  }

  lemma {:induction false} LoopGivesUp<E>(get: nat -> GetOutcome<E>, url: string, total: nat)
    requires total <= TimeoutLimit
    requires forall i :: total <= i < MaxGets ==> get(i).TimedOut?
    ensures GetLoop(get, url, total) == Navigation(GaveUp, Repeat(url, MaxGets))
    decreases TimeoutLimit - total
  {
    if total < TimeoutLimit {
      LoopGivesUp(get, url, total + 1);
    }
  }

  /** Eight consecutive timeouts end in `TimeoutException` after exactly eight `browser.get` calls. */
  lemma EightTimeoutsGiveUp<E>(current: Option<string>, link: string, get: nat -> GetOutcome<E>)
    requires NeedsNavigation(current, link)
    requires forall i :: 0 <= i < MaxGets ==> get(i).TimedOut?
    ensures WebAddressNavigator(current, link, get) == Navigation(GaveUp, Repeat(link, MaxGets))
  {
    LoopGivesUp(get, FetchedUrl(link), 0);
  }

  lemma {:induction false} LoopLoadsAfter<E>(get: nat -> GetOutcome<E>, url: string, total: nat, k: nat)
    requires total <= k <= TimeoutLimit
    requires forall i :: total <= i < k ==> get(i).TimedOut?
    requires get(k).Loaded?
    ensures GetLoop(get, url, total) == Navigation(Navigated, Repeat(url, k + 1))
    decreases k - total
  {
    if total < k {
      LoopLoadsAfter(get, url, total + 1, k);
    }
  }

  /** A load after `k <= 7` timeouts returns normally after `k + 1` calls. */
  lemma LoadAfterTimeouts<E>(current: Option<string>, link: string, get: nat -> GetOutcome<E>, k: nat)
    requires NeedsNavigation(current, link)
    requires k <= TimeoutLimit
    requires forall i :: 0 <= i < k ==> get(i).TimedOut?
    requires get(k).Loaded?
    ensures WebAddressNavigator(current, link, get) == Navigation(Navigated, Repeat(link, k + 1))
  {
    LoopLoadsAfter(get, FetchedUrl(link), 0, k);
  }
}
