/**
  Jittered pauses of `utils.py` and the extraction cadence of `scrapper.py`.
  Random draws are not computed: each draw is an input (a finite supply of
  `gauss` results, a `uniform` result, an arbitrary integer for `randint`),
  so every statement below holds whatever the random source produced.
 */
module Pacing {
  import opened Wrappers

  /** `STDEV`: the accepted half-width of a pause, as a fraction of its mean. */
  const Stdev: real := 0.5

  function Abs(x: real): real {
    if x < 0.0 then -x else x
  }

  /** The exit test of the `while abs(mean - t) > allowed_range` loop. */
  predicate Accepted(mean: real, t: real) {
    Abs(mean - t) <= mean * Stdev
  }

  /**
    `randomize_time(mean)`: resample until a draw lies within half the mean
    of the mean. `draws` are the successive `gauss` results; `None` means the
    supply ran out with the loop still going, which is all the source can do
    for a negative mean.
   */
  method RandomizeTime(mean: real, draws: seq<real>) returns (t: Option<real>, used: nat)
    ensures used <= |draws|
    ensures t.Some? ==> Accepted(mean, t.value) && 0.5 * mean <= t.value <= 1.5 * mean
    ensures mean == 0.0 ==> t == Some(0.0) && used == 0
    ensures mean != 0.0 && t.Some? ==> used >= 1 && t.value == draws[used - 1]
    ensures forall i :: 0 <= i < used - 1 ==> !Accepted(mean, draws[i])
    ensures t.None? ==> used == |draws| && forall i :: 0 <= i < |draws| ==> !Accepted(mean, draws[i])
    ensures mean < 0.0 ==> t.None?
  {
    var x := 0.0;
    used := 0;
    while !Accepted(mean, x)
      invariant used <= |draws|
      invariant used == 0 ==> x == 0.0
      invariant mean == 0.0 ==> used == 0
      invariant used > 0 ==> x == draws[used - 1]
      invariant forall i :: 0 <= i < used - 1 ==> !Accepted(mean, draws[i])
      decreases |draws| - used
    {
      if used == |draws| {
        return None, used;
      }
      x := draws[used];
      used := used + 1;
    }
    t := Some(x);
  }

  /** What `sleep(t, custom_percentage)` comes to. */
  datatype Pause =
    | Slept(seconds: real)    // `original_sleep(time)` with a non-negative `time`
    | Raised(error: PyError)  // `time.sleep` refuses a negative length
    | Endless                 // `randomize_time` is still drawing when the supply runs out

  /**
    `sleep(t, custom_percentage)`: the randomized `t` scaled by the custom
    percentage, or the global one when none is given, handed to `time.sleep`.
   */
  method Sleep(t: real, customPercentage: Option<real>, sleepPercentage: real, draws: seq<real>)
    returns (pause: Pause)
    ensures var p := if customPercentage.Some? then customPercentage.value else sleepPercentage;
      && (pause.Slept? ==> 0.0 <= pause.seconds && 0.5 * t * p <= pause.seconds <= 1.5 * t * p)
      && (pause.Slept? && t != 0.0 ==>
            exists i :: (0 <= i < |draws| && Accepted(t, draws[i])
                         && (forall j :: 0 <= j < i ==> !Accepted(t, draws[j])) && pause.seconds == draws[i] * p))
      && (pause.Slept? && t == 0.0 ==> pause.seconds == 0.0)
      && (pause.Raised? <==> t > 0.0 && p < 0.0 && exists i :: 0 <= i < |draws| && Accepted(t, draws[i]))
    ensures pause.Raised? ==> pause.error == ValueError
    ensures pause.Endless? <==> t < 0.0 || (t > 0.0 && forall i :: 0 <= i < |draws| ==> !Accepted(t, draws[i]))
  {
    var percentage := if customPercentage.None? then sleepPercentage else customPercentage.value;
    var r, used := RandomizeTime(t, draws);
    if r.None? {
      return Endless;
    }
    var x := r.value;
    if t != 0.0 {
      assert Accepted(t, draws[used - 1]) && x == draws[used - 1];
    }
    if percentage >= 0.0 {
      ScaleBetween(0.5 * t, x, 1.5 * t, percentage);
    } else if t > 0.0 {
      NegativeScale(x, percentage);
    }
    var time := x * percentage;
    if time < 0.0 {
      return Raised(ValueError);
    }
    pause := Slept(time);
  }

  lemma NegativeScale(x: real, p: real)
    requires x > 0.0 && p < 0.0
    ensures x * p < 0.0
  {
  }

  lemma ScaleBetween(lo: real, x: real, hi: real, p: real)
    requires lo <= x <= hi && p >= 0.0
    ensures lo * p <= x * p <= hi * p
  {
  }

  /** `set_sleep_percentage(percentage)`: the percentage as a factor, jittered by a `uniform(0.9, 1.1)` draw. */
  function SetSleepPercentage(percentage: real, jitter: real): (factor: real)
    requires 0.9 <= jitter <= 1.1
    ensures percentage >= 0.0 ==> 0.009 * percentage <= factor <= 0.011 * percentage
    ensures percentage == 100.0 ==> 0.9 <= factor <= 1.1
  {
    ScaleFactor(percentage, jitter);
    percentage / 100.0 * jitter
  }

  lemma ScaleFactor(percentage: real, jitter: real)
    requires 0.9 <= jitter <= 1.1
    ensures percentage >= 0.0 ==> 0.009 * percentage <= percentage / 100.0 * jitter <= 0.011 * percentage
  {
    if percentage >= 0.0 {
      ScaleBetween(0.9, jitter, 1.1, percentage / 100.0);
    }
  }

  /** `random.randint(60, 2 * 60)`, with the random source's output as `entropy`. */
  function GetRandom(entropy: int): (seconds: int)
    ensures 60 <= seconds <= 120
  {
    RandInt(60, 2 * 60, entropy)
  }

  /** `random.randint(low, high)`: some integer of `[low, high]`, chosen by `entropy`. */
  function RandInt(low: int, high: int, entropy: int): (r: int)
    requires low <= high
    ensures low <= r <= high
  {
    low + entropy % (high - low + 1)
  }

  /** Every wait of the cadence is possible: `GetRandom` covers `[60, 120]`. */
  lemma GetRandomCoversRange(seconds: int)
    requires 60 <= seconds <= 120
    ensures GetRandom(seconds - 60) == seconds
  {
  }
}
