/**
  Calendar instants and the text forms the scraper prints them in: the
  `str(date)` directory name of each day's output and the `strftime` labels
  of `get_time`.
 */
module Clock {
  import opened Wrappers
  import opened Strings

  datatype DateTime = DateTime(year: nat, month: nat, day: nat, hour: nat, minute: nat, second: nat, microsecond: nat)

  predicate IsLeapYear(y: nat) {
    (y % 4 == 0 && y % 100 != 0) || y % 400 == 0
  }

  function DaysInMonth(y: nat, m: nat): nat
    requires 1 <= m <= 12
  {
    if m == 2 then (if IsLeapYear(y) then 29 else 28)
    else if m == 4 || m == 6 || m == 9 || m == 11 then 30
    else 31
  }

  /** The range Python's `datetime` accepts. */
  predicate Valid(t: DateTime) {
    && 1 <= t.year <= 9999
    && 1 <= t.month <= 12
    && 1 <= t.day <= DaysInMonth(t.year, t.month)
    && t.hour < 24 && t.minute < 60 && t.second < 60 && t.microsecond < 1000000
  }

  predicate SameDay(a: DateTime, b: DateTime) {
    a.year == b.year && a.month == b.month && a.day == b.day
  }

  /** `str(t.date())`: `YYYY-MM-DD`, each field zero-padded. */
  function DateString(t: DateTime): (s: string)
    requires Valid(t)
    ensures |s| == 10
    ensures s[4] == '-' && s[7] == '-'
    ensures AllDigits(s[..4]) && AllDigits(s[5..7]) && AllDigits(s[8..])
    ensures '/' !in s && '.' !in s
  {
    var y := ZeroPad(t.year, 4);
    var m := ZeroPad(t.month, 2);
    var d := ZeroPad(t.day, 2);
    DateLayout(y, m, d);
    y + "-" + m + "-" + d
  }

  /** Digit fields of widths 4, 2 and 2 joined by dashes. */
  lemma DateLayout(y: string, m: string, d: string)
    requires |y| == 4 && |m| == 2 && |d| == 2 && AllDigits(y) && AllDigits(m) && AllDigits(d)
    ensures var s := y + "-" + m + "-" + d;
      |s| == 10 && s[4] == '-' && s[7] == '-'
      && s[..4] == y && s[5..7] == m && s[8..] == d
      && '/' !in s && '.' !in s
  {
    var s := y + "-" + m + "-" + d;
    assert s[..4] == y && s[5..7] == m && s[8..] == d;
    assert forall i :: 0 <= i < |s| && i != 4 && i != 7 ==> IsDigit(s[i]);
  }

  /** Two valid instants print the same date exactly when they fall on the same day. */
  lemma DateStringInjective(a: DateTime, b: DateTime)
    requires Valid(a) && Valid(b)
    ensures DateString(a) == DateString(b) <==> SameDay(a, b)
  {
    if DateString(a) == DateString(b) {
      DateFields(a);
      DateFields(b);
      ZeroPadInjective(a.year, b.year, 4);
      ZeroPadInjective(a.month, b.month, 2);
      ZeroPadInjective(a.day, b.day, 2);
    }
  }

  /** Where the year, month and day sit in the printed date. */
  lemma DateFields(t: DateTime)
    requires Valid(t)
    ensures DateString(t)[..4] == ZeroPad(t.year, 4)
    ensures DateString(t)[5..7] == ZeroPad(t.month, 2)
    ensures DateString(t)[8..] == ZeroPad(t.day, 2)
  {
    DateLayout(ZeroPad(t.year, 4), ZeroPad(t.month, 2), ZeroPad(t.day, 2));
  }

  /** A `get_time` label and the text it yields for the instant `now`. */
  function LabelText(name: string, now: DateTime): Option<string>
    requires Valid(now)
  {
    if name == "this_minute" then Some(ZeroPad(now.minute, 2))
    else if name == "this_hour" then Some(ZeroPad(now.hour, 2))
    else if name == "today" then Some(DateString(now))
    else None
  }

  lemma LabelTextCases(name: string, now: DateTime)
    requires Valid(now)
    ensures var t := LabelText(name, now);
      t.Some? ==> t.value == ZeroPad(now.minute, 2) || t.value == ZeroPad(now.hour, 2) || t.value == DateString(now)
  {
  }

  /** The argument of `get_time`: a list of labels, or anything else, which is wrapped in a list. */
  datatype Labels = OneLabel(name: string) | LabelList(labels: seq<string>)

  /** What `get_time` returns: the single entry itself, or the list of entries. */
  datatype TimeValue = Single(text: string) | Several(texts: seq<string>)

  /** The entries the loop of `get_time` collects, one per recognised label. */
  function TimeEntries(labels: seq<string>, now: DateTime): (r: seq<string>)
    requires Valid(now)
    ensures |r| <= |labels|
    ensures |r| == |labels| <==> forall i :: 0 <= i < |labels| ==> LabelText(labels[i], now).Some?
    ensures |r| == |labels| ==> forall i :: 0 <= i < |labels| ==> LabelText(labels[i], now) == Some(r[i])
    ensures forall i :: 0 <= i < |r| ==>
      r[i] == ZeroPad(now.minute, 2) || r[i] == ZeroPad(now.hour, 2) || r[i] == DateString(now)
  {
    if |labels| == 0 then []
    else
      var rest := TimeEntries(labels[1..], now);
      assert forall i :: 1 <= i < |labels| ==> labels[i] == labels[1..][i - 1];
      LabelTextCases(labels[0], now);
      match LabelText(labels[0], now)
      case Some(text) => [text] + rest
      case None => rest
  }

  /** A single label yields its own text when it is recognised and nothing otherwise. */
  lemma TimeEntriesSingle(name: string, now: DateTime)
    requires Valid(now)
    ensures TimeEntries([name], now) == (if LabelText(name, now).Some? then [LabelText(name, now).value] else [])
  {
    assert [name][1..] == [];
  }

  /** Entries keep the order of their labels: the entries of a concatenation concatenate. */
  lemma {:induction false} TimeEntriesAppend(a: seq<string>, b: seq<string>, now: DateTime)
    requires Valid(now)
    ensures TimeEntries(a + b, now) == TimeEntries(a, now) + TimeEntries(b, now)
  {
    if |a| > 0 {
      assert (a + b)[1..] == a[1..] + b;
      TimeEntriesAppend(a[1..], b, now);
    } else {
      assert a + b == b;
    }
  }

  /** `get_time(labels)`: several entries as a list, one entry unwrapped, none an `IndexError`. */
  function GetTime(labels: Labels, now: DateTime): (r: Result<TimeValue, PyError>)
    requires Valid(now)
    ensures var all := if labels.OneLabel? then [labels.name] else labels.labels;
      && (r == Err(IndexError) <==> forall i :: 0 <= i < |all| ==> LabelText(all[i], now).None?)
      && (r.Ok? && r.value.Single? ==> exists i :: 0 <= i < |all| && LabelText(all[i], now) == Some(r.value.text))
      && (r.Ok? && r.value.Several? ==> |r.value.texts| > 1 && r.value.texts == TimeEntries(all, now))
      && (r.Ok? && r.value.Single? ==> TimeEntries(all, now) == [r.value.text])
    ensures r.Err? ==> r.error == IndexError
  {
    var all := if labels.OneLabel? then [labels.name] else labels.labels;
    var entries := TimeEntries(all, now);
    EntriesEmptyIffNoneRecognised(all, now);
    if |entries| > 1 then Ok(Several(entries))
    else if |entries| == 1 then
      SingleEntryHasLabel(all, now);
      Ok(Single(entries[0]))
    else Err(IndexError)
  }

  lemma {:induction false} EntriesEmptyIffNoneRecognised(labels: seq<string>, now: DateTime)
    requires Valid(now)
    ensures |TimeEntries(labels, now)| == 0 <==> forall i :: 0 <= i < |labels| ==> LabelText(labels[i], now).None?
  {
    if |labels| > 0 {
      EntriesEmptyIffNoneRecognised(labels[1..], now);
      assert forall i :: 1 <= i < |labels| ==> labels[i] == labels[1..][i - 1];
    }
  }

  lemma {:induction false} SingleEntryHasLabel(labels: seq<string>, now: DateTime)
    requires Valid(now)
    requires |TimeEntries(labels, now)| == 1
    ensures exists i :: 0 <= i < |labels| && LabelText(labels[i], now) == Some(TimeEntries(labels, now)[0])
  {
    var rest := TimeEntries(labels[1..], now);
    if LabelText(labels[0], now).Some? {
      assert LabelText(labels[0], now) == Some(TimeEntries(labels, now)[0]);
    } else {
      SingleEntryHasLabel(labels[1..], now);
      var i :| 0 <= i < |labels[1..]| && LabelText(labels[1..][i], now) == Some(rest[0]);
      assert labels[i + 1] == labels[1..][i];
    }
  }
}
