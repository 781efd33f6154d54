/** The in-patient board: how long ago each patient was admitted, the style
    of each status badge and whether a scheduled alert is due this minute. */
module HospitalizationPage {
  import opened Wrappers
  import opened Text
  import opened Calendar
  import Schedule

  /** `getTime()`: milliseconds from the epoch, in local time. */
  function TimeValue(dt: DateTime): int {
    dt.day * MsPerDay + dt.time
  }

  function Abs(x: int): nat {
    if x < 0 then -x else x
  }

  /** `Math.floor(Math.abs(now.getTime() - start.getTime()) / (1000 * 60 * 60 * 24))`:
      the whole days between the two instants. */
  function DaysElapsed(now: DateTime, start: DateTime): (n: nat)
    ensures n * MsPerDay <= Abs(TimeValue(now) - TimeValue(start)) < (n + 1) * MsPerDay
  {
    Abs(TimeValue(now) - TimeValue(start)) / MsPerDay
  }

  /** Which of the two instants comes first does not matter. */
  lemma DaysElapsedSymmetric(a: DateTime, b: DateTime)
    ensures DaysElapsed(a, b) == DaysElapsed(b, a)
  {
    assert Abs(TimeValue(a) - TimeValue(b)) == Abs(TimeValue(b) - TimeValue(a));
  }

  const Today: string := "Ingresó hoy"
  const Yesterday: string := "Ingresó ayer"
  const AgoPrefix: string := "Ingresó hace "
  const AgoSuffix: string := " días"

  /** The admission label for a number of elapsed days. */
  function DaysLabel(n: nat): string {
    if n == 0 then Today
    else if n == 1 then Yesterday
    else AgoPrefix + DecimalString(n) + AgoSuffix
  }

  /** `getDaysElapsed(entry_date)`; an entry date that does not parse gives
      `NaN` days, which is neither 0 nor 1. */
  function AdmissionLabel(now: DateTime, entry: Option<DateTime>): string {
    match entry
    case Some(start) => DaysLabel(DaysElapsed(now, start))
    case None => AgoPrefix + "NaN" + AgoSuffix
  }

  /** Different day counts never share a label: the label tells the count. */
  lemma DaysLabelInjective(a: nat, b: nat)
    requires DaysLabel(a) == DaysLabel(b)
    ensures a == b
  {
    if a >= 2 && b >= 2 {
      MiddleEqual(AgoPrefix, DecimalString(a), DecimalString(b), AgoSuffix);
      DecimalStringValue(a);
      DecimalStringValue(b);
    } else if a >= 2 || b >= 2 {
      AgoLabelAt(if a >= 2 then a else b);
    }
  }

  /** The label of two or more days reads `Ingresó ha` at its start. */
  lemma AgoLabelAt(n: nat)
    requires n >= 2
    ensures |DaysLabel(n)| > 9 && DaysLabel(n)[8] == 'h' && DaysLabel(n)[9] == 'a'
  {
    PrefixIndex(AgoPrefix, DecimalString(n) + AgoSuffix, 8);
    PrefixIndex(AgoPrefix, DecimalString(n) + AgoSuffix, 9);
    assert DaysLabel(n) == AgoPrefix + (DecimalString(n) + AgoSuffix);
  }

  lemma PrefixIndex(p: string, s: string, i: nat)
    requires i < |p|
    ensures (p + s)[i] == p[i]
  {
  }

  /** Equal strings with the same frame have the same middle. */
  lemma MiddleEqual(p: string, x: string, y: string, q: string)
    requires p + x + q == p + y + q
    ensures x == y
  {
    assert |x| == |y|;
    assert x == (p + x + q)[|p|..|p| + |x|];
    assert y == (p + y + q)[|p|..|p| + |y|];
  }

  /** A status badge: its colour family and whether it pulses. */
  datatype Style = Style(palette: string, pulse: bool)

  /** `getStatusStyle(status)`. */
  function StatusStyle(status: string): Style {
    if status == "Crítico" then Style("red", true)
    else if status == "Estable" then Style("emerald", false)
    else if status == "Alta" then Style("blue", false)
    else if status == "Observación" then Style("amber", false)
    else Style("slate", false)
  }

  /** The class list of a badge: `text-`, `bg-` and `border-` shades of the
      palette, and `animate-pulse-slow` when it pulses. */
  function ClassName(style: Style): string {
    "text-" + style.palette + "-600 bg-" + style.palette + "-50 border-" + style.palette + "-100"
      + (if style.pulse then " animate-pulse-slow" else "")
  }

  /** Only a critical patient's badge pulses; the four statuses have four
      different palettes and every other value the neutral one. */
  lemma StatusStyles(status: string)
    ensures StatusStyle(status).pulse <==> status == "Crítico"
    ensures status !in {"Crítico", "Estable", "Alta", "Observación"} ==> StatusStyle(status) == Style("slate", false)
    ensures forall other :: other in {"Crítico", "Estable", "Alta", "Observación"} && other != status ==>
      StatusStyle(other) != StatusStyle(status)
  {
  }

  /** The clock text `toLocaleTimeString` gives with two-digit hour and minute
      and a 24-hour clock. */
  function ClockText(now: DateTime): string
    requires now.Valid()
  {
    Schedule.FormatTime(Hours(now), Minutes(now))
  }

  /** `isAlertActive(alert_time)`: never without an alert time, otherwise
      exactly when it equals the clock text. */
  function IsAlertActive(alertTime: Option<string>, now: DateTime): bool
    requires now.Valid()
  {
    match alertTime
    case None => false
    case Some(t) => t != "" && t == ClockText(now)
  }

  /** An alert set for `HH:MM` is active exactly during that minute. */
  lemma AlertActiveDuringItsMinute(h: nat, m: nat, now: DateTime)
    requires now.Valid()
    ensures IsAlertActive(Some(Schedule.FormatTime(h, m)), now) <==> Hours(now) == h && Minutes(now) == m
  {
    Schedule.TimeRoundTrip(h, m);
    Schedule.TimeRoundTrip(Hours(now), Minutes(now));
    assert |Schedule.FormatTime(h, m)| > 0;
  }

  /** An absent or empty alert time is never active. */
  lemma NoAlertWithoutTime(now: DateTime)
    requires now.Valid()
    ensures !IsAlertActive(None, now) && !IsAlertActive(Some(""), now)
  {
  }
}
