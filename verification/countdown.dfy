/**
  The discount countdown: the time left until an end instant, split into
  days, hours, minutes and seconds, the display that follows from it, and its
  colour and motion thresholds. Instants are milliseconds since the epoch;
  the clock reading is a parameter. An end time that does not parse as a date
  is `None`, and JavaScript then computes with `NaN`.
*/
module Countdown {
  import opened Wrappers
  import opened Text

  const SecondMs := 1000
  const MinuteMs := 60 * SecondMs
  const HourMs := 60 * MinuteMs
  const DayMs := 24 * HourMs

  const DefaultEndedText := "할인이 종료되었습니다."

  /** `getTimeLeft`'s result; `Unknown` is the all-`NaN` result of an invalid end time. */
  datatype TimeLeft =
    | Remaining(total: nat, days: nat, hours: nat, minutes: nat, seconds: nat)
    | Unknown

  /**
    `getTimeLeft`: the non-negative time left and its parts. For a
    non-negative `x`, the floor of `x % 24` is the floor of `x` taken modulo
    24, so the parts are integer quotients and remainders.
  */
  function GetTimeLeft(end: Option<int>, now: int): (t: TimeLeft)
    ensures end.None? <==> t.Unknown?
    ensures t.Remaining? ==>
      && t.total == (if end.value - now > 0 then end.value - now else 0)
      && t.days >= 0
      && 0 <= t.hours < 24 && 0 <= t.minutes < 60 && 0 <= t.seconds < 60
  {
    match end
    case None => Unknown
    case Some(e) =>
      var diff := if e - now > 0 then e - now else 0;
      Remaining(diff, diff / DayMs, (diff / HourMs) % 24, (diff / MinuteMs) % 60, (diff / SecondMs) % 60)
  }

  /** The parts add back up to the time left, up to the milliseconds below a second. */
  lemma TimeLeftDecomposes(end: int, now: int)
    ensures var t := GetTimeLeft(Some(end), now);
      && t.Remaining?
      && 0 <= t.total - (t.days * DayMs + t.hours * HourMs + t.minutes * MinuteMs + t.seconds * SecondMs) < SecondMs
  {
    var t := GetTimeLeft(Some(end), now);
    var d := t.total;
    var s := d / SecondMs;
    var m := s / 60;
    var h := m / 60;
    assert d == 1000 * s + d % 1000;
    assert s == 60 * m + s % 60;
    assert m == 60 * h + m % 60;
    assert d / 60000 == m;
    assert d / 3600000 == h;
    assert d / 86400000 == h / 24;
  }

  /** `isEnded`: no time is left. An unknown time left never ends. */
  predicate IsEnded(t: TimeLeft) {
    t.Remaining? && t.total <= 0
  }

  predicate IsUnderOneHour(t: TimeLeft) {
    t.Remaining? && t.total <= HourMs
  }

  predicate IsUnderTenMinutes(t: TimeLeft) {
    t.Remaining? && t.total <= 10 * MinuteMs
  }

  datatype Tone = Red | White

  /** The digits' styling: red within the hour, pulsing within ten minutes while running. */
  datatype Style = Style(tone: Tone, pulse: bool)

  function StyleOf(t: TimeLeft): (s: Style)
    ensures s.tone == Red <==> IsUnderOneHour(t)
    ensures s.pulse <==> IsUnderTenMinutes(t) && !IsEnded(t)
  {
    Style(if IsUnderOneHour(t) then Red else White, IsUnderTenMinutes(t) && !IsEnded(t))
  }

  /** `String(value).padStart(2, "0")` for a whole number of time units. */
  function Pad(n: nat): (r: string)
    ensures |r| >= 2 && AllDigits(r)
    ensures ParseDigits(r) == n
    ensures n < 10 ==> |r| == 2 && r[0] == '0'
    ensures n >= 10 ==> r == NatToString(n)
  {
    var s := NatToString(n);
    ParseNatToString(n);
    if |s| >= 2 then s
    else
      assert ParseDigits("0" + s) == ParseDigits(s) by {
        assert ("0" + s)[..1] == "0";
      }
      "0" + s
  }

  /** What the component shows. */
  datatype Shown =
    | EndedText(text: string)
    | Clock(days: Option<string>, hours: string, minutes: string, seconds: string)

  function Show(t: TimeLeft, endedText: string): (s: Shown)
    ensures s.EndedText? <==> IsEnded(t)
    ensures s.EndedText? ==> s.text == endedText
    ensures s.Clock? && t.Remaining? ==>
      && AllDigits(s.hours) && AllDigits(s.minutes) && AllDigits(s.seconds)
      && (s.days.Some? ==> AllDigits(s.days.value))
      && ParseDigits(s.hours) == t.hours && ParseDigits(s.minutes) == t.minutes
      && ParseDigits(s.seconds) == t.seconds
      && (s.days.Some? <==> t.days > 0)
      && (s.days.Some? ==> ParseDigits(s.days.value) == t.days)
    ensures t.Unknown? ==> s == Clock(None, "NaN", "NaN", "NaN")
  {
    match t
    case Unknown => Clock(None, "NaN", "NaN", "NaN")
    case Remaining(total, days, hours, minutes, seconds) =>
      if total <= 0 then EndedText(endedText)
      else Clock(if days > 0 then Some(Pad(days)) else None, Pad(hours), Pad(minutes), Pad(seconds))
  }

  /** The countdown has ended exactly when the end instant is not after now. */
  lemma EndedIffPast(end: int, now: int)
    ensures IsEnded(GetTimeLeft(Some(end), now)) <==> end <= now
  {
  }

  /** Ten minutes left is also under an hour, and the pulse stops once ended. */
  lemma ThresholdsNest(t: TimeLeft)
    ensures IsUnderTenMinutes(t) ==> IsUnderOneHour(t)
    ensures IsEnded(t) ==> IsUnderOneHour(t) && !StyleOf(t).pulse
  {
  }

  /** As the clock advances, the time left never grows. */
  lemma TimeLeftMonotone(end: int, now1: int, now2: int)
    requires now1 <= now2
    ensures GetTimeLeft(Some(end), now2).total <= GetTimeLeft(Some(end), now1).total
  {
  }
}
