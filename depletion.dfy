/**
 * The depletion estimate of a subscription card (src/components/subs/SubsCard.tsx): from the
 * latest reading and power, when the balance reaches zero and which countdown to show, and
 * the per-tick countdown text. The clock is a parameter `nowMs`.
 */
module Depletion {
  import opened Wrappers
  import opened Text
  import opened Format

  /** The display mode: "none", "second" (countdown to the second) or "hour" (days and hours). */
  datatype Mode = Off | Second | Hour

  /** What the memoised estimate yields: the depletion instant in ms, or null, and the mode. */
  datatype Estimate = Estimate(depleteAtMs: Option<real>, mode: Mode)

  const OneDayMs: real := 24.0 * 3600.0 * 1000.0
  const ThreeDaysMs: real := 3.0 * OneDayMs

  /** `(last_ts + last_kwh / -last_kw * 3600) * 1000`: the instant the balance reaches zero at the current draw. */
  function DepleteAtMs(lastTs: int, lastKwh: real, lastKw: real): real
    requires lastKw < 0.0
  {
    (lastTs as real + (lastKwh / -lastKw) * 3600.0) * 1000.0
  }

  /**
   * The `useMemo` estimate. A depletion instant is kept only when the mode is not "none", and it
   * then lies in the future: within a day for "second", within one to three days for "hour".
   */
  function EstimateDepletion(lastTs: int, lastKwh: real, lastKw: Option<real>, nowMs: real): (e: Estimate)
    ensures e.mode == Off <==> e.depleteAtMs.None?
    ensures e.mode != Off ==> nowMs < e.depleteAtMs.value
    ensures e.mode == Second ==> e.depleteAtMs.value - nowMs <= OneDayMs
    ensures e.mode == Hour ==> OneDayMs < e.depleteAtMs.value - nowMs <= ThreeDaysMs
  {
    if lastKw.None? || lastKw.value >= 0.0 then Estimate(None, Off)
    else
      var hoursToZero := lastKwh / -lastKw.value;
      if hoursToZero <= 0.0 then Estimate(None, Off)
      else
        var depleteAtMs := DepleteAtMs(lastTs, lastKwh, lastKw.value);
        var delta := depleteAtMs - nowMs;
        if delta <= 0.0 then Estimate(None, Off)
        else if delta <= OneDayMs then Estimate(Some(depleteAtMs), Second)
        else if delta <= ThreeDaysMs then Estimate(Some(depleteAtMs), Hour)
        else Estimate(None, Off)
  }

  /** No power reading, or a power that is not a draw, means no estimate. */
  lemma NotDischargingIsOff(lastTs: int, lastKwh: real, lastKw: Option<real>, nowMs: real)
    requires lastKw.None? || lastKw.value >= 0.0
    ensures EstimateDepletion(lastTs, lastKwh, lastKw, nowMs) == Estimate(None, Off)
  {
  }

  /** A balance already at or below zero means no estimate, whatever the draw. */
  lemma EmptyBalanceIsOff(lastTs: int, lastKwh: real, lastKw: real, nowMs: real)
    requires lastKw < 0.0 && lastKwh <= 0.0
    ensures EstimateDepletion(lastTs, lastKwh, Some(lastKw), nowMs) == Estimate(None, Off)
  {
    assert lastKwh / -lastKw <= 0.0;
  }

  /**
   * The tiers, for a positive balance under a draw: with `delta` the time left until the
   * depletion instant, "second" exactly when `0 < delta <= 1 day`, "hour" exactly when
   * `1 day < delta <= 3 days`, and then the instant kept is `DepleteAtMs`.
   */
  lemma DepletionTiers(lastTs: int, lastKwh: real, lastKw: real, nowMs: real)
    requires lastKw < 0.0 && lastKwh > 0.0
    ensures var e := EstimateDepletion(lastTs, lastKwh, Some(lastKw), nowMs);
      var delta := DepleteAtMs(lastTs, lastKwh, lastKw) - nowMs;
      && (e.mode == Second <==> 0.0 < delta <= OneDayMs)
      && (e.mode == Hour <==> OneDayMs < delta <= ThreeDaysMs)
      && (e.mode != Off ==> e.depleteAtMs == Some(DepleteAtMs(lastTs, lastKwh, lastKw)))
  {
    assert lastKwh / -lastKw > 0.0;
  }

  /** 5 kWh left at a draw of 5 kW: one hour after the reading, shown to the second at the reading's own instant. */
  lemma OneHourLeftExample(lastTs: int)
    ensures EstimateDepletion(lastTs, 5.0, Some(-5.0), lastTs as real * 1000.0)
         == Estimate(Some((lastTs as real + 3600.0) * 1000.0), Second)
  {
    assert 5.0 / -(-5.0) == 1.0;
  }

  /** Where the time left puts the card: 0 too far away, 1 the hour tier, 2 the second tier, 3 already past. */
  function Phase(delta: real): (p: nat)
    ensures p <= 3
  {
    if delta > ThreeDaysMs then 0 else if delta > OneDayMs then 1 else if delta > 0.0 then 2 else 3
  }

  /** The mode each phase shows. */
  function PhaseMode(p: nat): Mode
  {
    if p == 1 then Hour else if p == 2 then Second else Off
  }

  /**
   * For fixed readings, a later clock never moves the card back: too far, then "hour", then
   * "second", then nothing once the instant is past.
   */
  lemma TierMovesForward(lastTs: int, lastKwh: real, lastKw: real, now1: real, now2: real)
    requires lastKw < 0.0 && lastKwh > 0.0 && now1 <= now2
    ensures var d := DepleteAtMs(lastTs, lastKwh, lastKw);
      && Phase(d - now1) <= Phase(d - now2)
      && EstimateDepletion(lastTs, lastKwh, Some(lastKw), now1).mode == PhaseMode(Phase(d - now1))
      && EstimateDepletion(lastTs, lastKwh, Some(lastKw), now2).mode == PhaseMode(Phase(d - now2))
  {
    DepletionTiers(lastTs, lastKwh, lastKw, now1);
    DepletionTiers(lastTs, lastKwh, lastKw, now2);
  }

  /** `tick()`: no countdown once the instant is reached, else the text for the mode. */
  function Tick(depleteAtMs: real, mode: Mode, nowMs: real): (countdown: Option<string>)
    ensures countdown.None? <==> depleteAtMs - nowMs <= 0.0
  {
    var left := depleteAtMs - nowMs;
    if left <= 0.0 then None
    else if mode == Second then Some(FormatHMS(left) + " before depletion")
    else Some("Depletes in " + FormatDaysHours(left))
  }

  /** What the countdown effect sets up: the first tick's text and the timer period, if any. */
  datatype Schedule = Schedule(countdown: Option<string>, intervalMs: Option<int>)

  /** `!depleteAtMs`: null, and also the number 0. */
  predicate Falsy(depleteAtMs: Option<real>)
  {
    depleteAtMs.None? || depleteAtMs.value == 0.0
  }

  /**
   * The countdown effect: without an instant or with mode "none" there is no countdown and no
   * timer; otherwise one tick at once and a timer of one second ("second") or one hour.
   */
  function StartCountdown(depleteAtMs: Option<real>, mode: Mode, nowMs: real): (s: Schedule)
    ensures s.intervalMs.None? <==> Falsy(depleteAtMs) || mode == Off
    ensures s.intervalMs.Some? ==> s.intervalMs.value == (if mode == Second then 1000 else 3600000)
    ensures s.intervalMs.None? ==> s.countdown.None?
  {
    if Falsy(depleteAtMs) || mode == Off then Schedule(None, None)
    else
      var interval := if mode == Second then 1000 else 60 * 60 * 1000;
      Schedule(Tick(depleteAtMs.value, mode, nowMs), Some(interval))
  }

  /** An estimate made at a non-negative instant always starts its countdown when its mode is not "none". */
  lemma EstimateStartsCountdown(lastTs: int, lastKwh: real, lastKw: Option<real>, nowMs: real)
    requires nowMs >= 0.0
    ensures var e := EstimateDepletion(lastTs, lastKwh, lastKw, nowMs);
      var s := StartCountdown(e.depleteAtMs, e.mode, nowMs);
      (e.mode != Off <==> s.intervalMs.Some?) && (e.mode != Off ==> s.countdown.Some?)
  {
  }

  /**
   * Within a day of depletion the "second" text is "hh:mm:ss before depletion" with two-digit
   * hours (at most 24), 25 characters in all, and it reads back as the whole seconds left.
   */
  lemma SecondTierText(left: real)
    requires 0.0 < left <= OneDayMs
    ensures TotalSeconds(left) <= 86400
    ensures |FormatHMS(left) + " before depletion"| == 25
    ensures ParseHMS(FormatHMS(left)) == Some(TotalSeconds(left))
  {
    var n := TotalSeconds(left);
    assert (n as real) * 1000.0 <= 86400000.0;
    FormatHMSWideHours(left);
    var hms := SplitSeconds(n);
    Pad2Digits(hms.0);
    Pad2Digits(hms.1);
    Pad2Digits(hms.2);
    FormatHMSRoundTrip(left);
  }

  /**
   * Within three days of depletion the "hour" text counts at most 3 days (at least 1 when more
   * than a day is left), and it reads back as the whole hours left.
   */
  lemma HourTierText(left: real)
    requires 0.0 < left <= ThreeDaysMs
    ensures TotalHours(left) <= 72 && SplitHours(TotalHours(left)).0 <= 3
    ensures left > OneDayMs ==> SplitHours(TotalHours(left)).0 >= 1
    ensures ParseDaysHours(FormatDaysHours(left)) == Some(TotalHours(left))
  {
    var n := TotalHours(left);
    assert (n as real) * 3600000.0 <= 259200000.0;
    if left > OneDayMs {
      assert (n as real + 1.0) * 3600000.0 > 86400000.0;
    }
    FormatDaysHoursRoundTrip(left);
  }

  /**
   * Every tick of a "second" countdown, from the estimate's instant on and before depletion,
   * shows the 25-character text for the whole seconds left.
   */
  lemma SecondCountdownTicks(lastTs: int, lastKwh: real, lastKw: Option<real>, estimatedAt: real, nowMs: real)
    requires estimatedAt <= nowMs
    requires EstimateDepletion(lastTs, lastKwh, lastKw, estimatedAt).mode == Second
    ensures var d := EstimateDepletion(lastTs, lastKwh, lastKw, estimatedAt).depleteAtMs.value;
      var c := Tick(d, Second, nowMs);
      d - nowMs > 0.0 ==> c.Some? && |c.value| == 25 && ParseHMS(c.value[..8]) == Some(TotalSeconds(d - nowMs))
  {
    var d := EstimateDepletion(lastTs, lastKwh, lastKw, estimatedAt).depleteAtMs.value;
    var left := d - nowMs;
    if left > 0.0 {
      SecondTierText(left);
      PrefixParses(FormatHMS(left), " before depletion", TotalSeconds(left));
    }
  }

  /**
   * Within three days of depletion an "hour" tick shows "Depletes in " followed by a text that
   * reads back as the whole hours left.
   */
  lemma HourTickText(d: real, nowMs: real)
    requires 0.0 < d - nowMs <= ThreeDaysMs
    ensures var c := Tick(d, Hour, nowMs);
      && c.Some? && |c.value| >= 12 && c.value[..12] == "Depletes in "
      && ParseDaysHours(c.value[12..]) == Some(TotalHours(d - nowMs))
  {
    var left := d - nowMs;
    HourTierText(left);
    HeadAndTail("Depletes in ", FormatDaysHours(left));
  }

  /**
   * Every tick of an "hour" countdown, from the estimate's instant on and before depletion,
   * shows "Depletes in " and the whole hours left.
   */
  lemma HourCountdownTicks(lastTs: int, lastKwh: real, lastKw: Option<real>, estimatedAt: real, nowMs: real)
    requires estimatedAt <= nowMs
    requires EstimateDepletion(lastTs, lastKwh, lastKw, estimatedAt).mode == Hour
    ensures var d := EstimateDepletion(lastTs, lastKwh, lastKw, estimatedAt).depleteAtMs.value;
      var c := Tick(d, Hour, nowMs);
      d - nowMs > 0.0 ==>
        c.Some? && |c.value| >= 12 && c.value[..12] == "Depletes in "
        && ParseDaysHours(c.value[12..]) == Some(TotalHours(d - nowMs))
  {
    var d := EstimateDepletion(lastTs, lastKwh, lastKw, estimatedAt).depleteAtMs.value;
    if d - nowMs > 0.0 {
      HourTickText(d, nowMs);
    }
  }

  /** A concatenation splits back into its two parts. */
  lemma HeadAndTail(a: string, b: string)
    ensures (a + b)[..|a|] == a && (a + b)[|a|..] == b
  {
  }

  /** An eight-character time keeps its reading as the head of a longer text. */
  lemma PrefixParses(t: string, suffix: string, v: nat)
    requires |t| + |suffix| == 25 && |suffix| == 17 && ParseHMS(t) == Some(v)
    ensures |t + suffix| == 25 && ParseHMS((t + suffix)[..8]) == Some(v)
  {
    assert (t + suffix)[..8] == t;
  }
}
