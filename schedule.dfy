/** The agenda page: the days shown by the day, week and month views, period
    navigation, the placement of appointment blocks on the hour grid, the
    `HH:MM` time field and the edits the page makes to the appointment list. */
module Schedule {
  import opened Wrappers
  import opened Text
  import opened Calendar
  import opened Seqs

  /** The view selector: 'Día', 'Semana', 'Mes'. */
  datatype View = DayView | WeekView | MonthView

  datatype AppointmentType = Consulta | Vacuna | Cirugia | Examen

  datatype TypeInfo = TypeInfo(duration: int, color: string, icon: string)

  /** The page's own `APPOINTMENT_TYPES` table. */
  function TypeTable(t: AppointmentType): TypeInfo {
    match t
    case Consulta => TypeInfo(39, "bg-primary", "stethoscope")
    case Vacuna => TypeInfo(20, "bg-emerald-500", "vaccines")
    case Cirugia => TypeInfo(120, "bg-secondary", "precision_manufacturing")
    case Examen => TypeInfo(30, "bg-accent", "biotech")
  }

  datatype Appointment = Appointment(
    id: string, petName: string, ownerName: string, kind: AppointmentType,
    doctor: string, assistant: string, startTime: DateTime, duration: int)

  /** The modal's form; `date` is the civil date of the date field. */
  datatype Form = Form(
    petName: string, ownerName: string, kind: AppointmentType,
    doctor: string, assistant: string, time: string, date: CivilDate)

  // ---------------------------------------------------------------------
  // Visible days

  /** `startOfWeek.setDate(currentDate.getDate() - currentDate.getDay())`:
      the Sunday on or before the anchor, at the anchor's time of day. */
  function StartOfWeek(anchor: DateTime): (s: DateTime)
    ensures s == DateTime(anchor.day - WeekDay(anchor.day), anchor.time)
  {
    SetDateShift(anchor, -WeekDay(anchor.day));
    SetDate(anchor, CivilFromDay(anchor.day).date - WeekDay(anchor.day))
  }

  /** `d.setDate(startOfWeek.getDate() + i)` on a copy of the week's start. */
  function WeekDayFrom(start: DateTime, i: int): (d: DateTime)
    ensures d == DateTime(start.day + i, start.time)
  {
    SetDateShift(start, i);
    SetDate(start, CivilFromDay(start.day).date + i)
  }

  /** The seven days of the week view: from the Sunday on or before the anchor. */
  function WeekDays(anchor: DateTime): (days: seq<DateTime>)
    ensures |days| == 7
  {
    var sunday := anchor.day - WeekDay(anchor.day);
    seq(7, i requires 0 <= i < 7 => DateTime(sunday + i, anchor.time))
  }

  /** The days of the month view: midnight of the 1st to midnight of the last day. */
  function MonthDays(anchor: DateTime): (days: seq<DateTime>)
  {
    var y, m := CivilFromDay(anchor.day).year, CivilFromDay(anchor.day).month;
    Midnights(DayFromCivil(CivilDate(y, m, 1)), DaysInMonth(y, m))
  }

  /** Midnight of `n` consecutive days from day `first`. */
  function Midnights(first: int, n: nat): (days: seq<DateTime>)
    ensures |days| == n && forall i :: 0 <= i < n ==> days[i] == DateTime(first + i, 0)
  {
    seq(n, i requires 0 <= i < n => DateTime(first + i, 0))
  }

  /** The days each view shows, as the specification of `DaysToShow`. */
  function VisibleDays(view: View, anchor: DateTime): seq<DateTime> {
    match view
    case DayView => [anchor]
    case WeekView => WeekDays(anchor)
    case MonthView => MonthDays(anchor)
  }

  /** `getDaysToShow`: the month branch walks a date from the 1st with
      `setDate(getDate() + 1)` while it is not after the last day. */
  method DaysToShow(view: View, anchor: DateTime) returns (days: seq<DateTime>)
    ensures days == VisibleDays(view, anchor)
  {
    if view == DayView {
      return [anchor];
    }
    if view == WeekView {
      days := WeekDaysToShow(anchor);
      return;
    }
    days := MonthDaysToShow(anchor);
  }

  /** The week branch: the seven days counted from the start of the week. */
  method WeekDaysToShow(anchor: DateTime) returns (days: seq<DateTime>)
    ensures days == WeekDays(anchor)
  {
    var start := StartOfWeek(anchor);
    days := SevenDaysFrom(start);
    assert start.day == anchor.day - WeekDay(anchor.day);
    forall i | 0 <= i < 7
      ensures days[i] == WeekDays(anchor)[i]
    {
    }
  }

  /** `Array.from({ length: 7 }, (_, i) => ...)`: day `i` is `i` days after
      `start`, at its time of day. */
  method SevenDaysFrom(start: DateTime) returns (days: seq<DateTime>)
    ensures |days| == 7 && forall i :: 0 <= i < 7 ==> days[i] == DateTime(start.day + i, start.time)
  {
    days := seq(7, i requires 0 <= i < 7 => WeekDayFrom(start, i));
  }

  /** `d.setDate(d.getDate() + 1)`: the next day at the same time of day. */
  function NextDay(d: DateTime): (r: DateTime)
    ensures r == DateTime(d.day + 1, d.time)
  {
    SetDateShift(d, 1);
    SetDate(d, CivilFromDay(d.day).date + 1)
  }

  /** `new Date(year, month, 1)`: midnight of the first day of the anchor's month. */
  function StartOfMonth(anchor: DateTime): (r: DateTime)
    ensures r == DateTime(DayFromCivil(CivilDate(CivilFromDay(anchor.day).year, CivilFromDay(anchor.day).month, 1)), 0)
  {
    var c := CivilFromDay(anchor.day);
    MonthBounds(c.year, c.month);
    NewDate(c.year, c.month, 1)
  }

  /** `new Date(year, month + 1, 0)`: midnight of the last day of the anchor's month. */
  function EndOfMonth(anchor: DateTime): (r: DateTime)
    ensures r == DateTime(StartOfMonth(anchor).day + DaysInMonth(CivilFromDay(anchor.day).year, CivilFromDay(anchor.day).month) - 1, 0)
  {
    var c := CivilFromDay(anchor.day);
    MonthBounds(c.year, c.month);
    NewDate(c.year, c.month + 1, 0)
  }

  /** `new Date(y, m, 1)` and `new Date(y, m + 1, 0)` are the first and last day of month `m`. */
  lemma MonthBounds(y: int, m: int)
    requires 0 <= m < 12
    ensures NewDate(y, m, 1).day == DayFromCivil(CivilDate(y, m, 1))
    ensures NewDate(y, m + 1, 0).day == DayFromCivil(CivilDate(y, m, 1)) + DaysInMonth(y, m) - 1
  {
    assert m / 12 == 0 && m % 12 == m;
    if m == 11 {
      DecemberEnd(y);
    } else {
      MonthEndWithinYear(y, m);
    }
  }

  /** `new Date(y, 12, 0)` is December 31: month 12 carries into the next year. */
  lemma DecemberEnd(y: int)
    ensures NewDate(y, 12, 0).day == DayFromCivil(CivilDate(y, 11, 1)) + 30
  {
    assert 12 / 12 == 1 && 12 % 12 == 0;
    assert NewDate(y, 12, 0).day == DayFromYear(y + 1) - 1;
    DayFromYearStep(y);
  }

  /** Before December, `new Date(y, m + 1, 0)` is the last day of month `m`. */
  lemma MonthEndWithinYear(y: int, m: int)
    requires 0 <= m < 11
    ensures NewDate(y, m + 1, 0).day == DayFromCivil(CivilDate(y, m, 1)) + DaysInMonth(y, m) - 1
  {
    assert (m + 1) / 12 == 0 && (m + 1) % 12 == m + 1;
  }

  /** The month branch of `getDaysToShow`. */
  method MonthDaysToShow(anchor: DateTime) returns (days: seq<DateTime>)
    ensures days == MonthDays(anchor)
  {
    var startOfMonth := StartOfMonth(anchor);
    var endOfMonth := EndOfMonth(anchor);
    days := MidnightsThrough(startOfMonth, endOfMonth);
    MonthSpan(anchor, startOfMonth.day, endOfMonth.day);
  }

  /** The month's days are the midnights from its first to its last day. */
  lemma MonthSpan(anchor: DateTime, first: int, last: int)
    requires first == DayFromCivil(CivilDate(CivilFromDay(anchor.day).year, CivilFromDay(anchor.day).month, 1))
    requires last == first + DaysInMonth(CivilFromDay(anchor.day).year, CivilFromDay(anchor.day).month) - 1
    ensures MonthDays(anchor) == Midnights(first, last - first + 1)
  {
  }

  /** The walk of `getDaysToShow`: from midnight of `start`, one day at a time
      with `setDate(getDate() + 1)`, while the date is not after `end`. */
  method MidnightsThrough(start: DateTime, end: DateTime) returns (days: seq<DateTime>)
    requires start.time == 0 && end.time == 0 && start.day <= end.day + 1
    ensures days == Midnights(start.day, end.day - start.day + 1)
  {
    ghost var n := end.day - start.day + 1;
    days := [];
    var d := start;
    while AtOrBefore(d, end)
      invariant |days| <= n
      invariant d == DateTime(start.day + |days|, 0)
      invariant forall i :: 0 <= i < |days| ==> days[i] == DateTime(start.day + i, 0)
      decreases n - |days|
    {
      days := days + [d];
      d := NextDay(d);
    }
    ConsecutiveMidnights(days, start.day, n);
  }

  /** A list of `n` days holding midnight of `first`, `first + 1`, ... in turn. */
  lemma ConsecutiveMidnights(days: seq<DateTime>, first: int, n: nat)
    requires |days| == n && forall i :: 0 <= i < n ==> days[i] == DateTime(first + i, 0)
    ensures days == Midnights(first, n)
  {
  }

  /** The day view shows exactly the anchor. */
  lemma DayViewIsAnchor(anchor: DateTime)
    ensures VisibleDays(DayView, anchor) == [anchor]
  {
  }

  /** The week view: seven consecutive days from a Sunday, the anchor among them,
      each at the anchor's time of day. */
  lemma WeekViewProperties(anchor: DateTime)
    ensures var w := VisibleDays(WeekView, anchor);
      && |w| == 7
      && WeekDay(w[0].day) == 0
      && (forall i :: 0 <= i < 7 ==> w[i].day == w[0].day + i && w[i].time == anchor.time)
      && w[WeekDay(anchor.day)] == anchor
  {
    WeekDaysShape(anchor, VisibleDays(WeekView, anchor), WeekDay(anchor.day));
    StartOfWeekIsSunday(anchor.day);
  }

  /** Day `i` of the week is `i` days after the Sunday, and the anchor is
      day `wd`. */
  lemma WeekDaysShape(anchor: DateTime, w: seq<DateTime>, wd: int)
    requires w == WeekDays(anchor) && wd == WeekDay(anchor.day)
    ensures |w| == 7 && 0 <= wd < 7 && w[0].day == anchor.day - wd && w[wd] == anchor
    ensures forall i :: 0 <= i < 7 ==> w[i].day == w[0].day + i && w[i].time == anchor.time
  {
  }

  /** Going back by the week day lands on a Sunday. */
  lemma StartOfWeekIsSunday(day: int)
    ensures WeekDay(day - WeekDay(day)) == 0
  {
    var sunday := day - WeekDay(day);
    DivExact(sunday + 4, 7, (day + 4) / 7, 0);
  }

  /** The month view: every day of the anchor's month, ascending from the 1st,
      as many as the month has. */
  lemma MonthViewProperties(anchor: DateTime)
    ensures var ds := VisibleDays(MonthView, anchor);
      var y, m := CivilFromDay(anchor.day).year, CivilFromDay(anchor.day).month;
      && |ds| == DaysInMonth(y, m)
      && (forall i :: 0 <= i < |ds| ==> CivilFromDay(ds[i].day) == CivilDate(y, m, i + 1) && ds[i].time == 0)
      && (forall i, j :: 0 <= i < j < |ds| ==> ds[i].day < ds[j].day)
  {
    var c := CivilFromDay(anchor.day);
    MonthMidnights(c.year, c.month, VisibleDays(MonthView, anchor));
  }

  /** The midnights of month `m`, from its 1st, are its dates in order. */
  lemma MonthMidnights(y: int, m: int, ds: seq<DateTime>)
    requires 0 <= m < 12 && ds == Midnights(DayFromCivil(CivilDate(y, m, 1)), DaysInMonth(y, m))
    ensures |ds| == DaysInMonth(y, m)
    ensures forall i :: 0 <= i < |ds| ==> CivilFromDay(ds[i].day) == CivilDate(y, m, i + 1) && ds[i].time == 0
    ensures forall i, j :: 0 <= i < j < |ds| ==> ds[i].day < ds[j].day
  {
    forall i | 0 <= i < |ds|
      ensures CivilFromDay(ds[i].day) == CivilDate(y, m, i + 1)
    {
      MonthDayAt(y, m, i, ds[i].day);
    }
  }

  /** Day `i` after the 1st of a month is its date `i + 1`. */
  lemma MonthDayAt(y: int, m: int, i: int, d: int)
    requires 0 <= m < 12 && 0 <= i < DaysInMonth(y, m)
    requires d == DayFromCivil(CivilDate(y, m, 1)) + i
    ensures CivilFromDay(d) == CivilDate(y, m, i + 1)
  {
    assert DayFromCivil(CivilDate(y, m, i + 1)) == d;
    CivilRoundTrip(CivilDate(y, m, i + 1));
  }

  // ---------------------------------------------------------------------
  // Navigation

  /** `handleNavigate(direction)`: one day, seven days, or `setMonth(getMonth() + direction)`. */
  function Navigate(view: View, anchor: DateTime, direction: int): DateTime {
    match view
    case DayView => SetDate(anchor, CivilFromDay(anchor.day).date + direction)
    case WeekView => SetDate(anchor, CivilFromDay(anchor.day).date + direction * 7)
    case MonthView => SetMonth(anchor, CivilFromDay(anchor.day).month + direction)
  }

  /** Day and week steps move the anchor by `direction` days or weeks and keep the time of day. */
  lemma NavigateShiftsDays(view: View, anchor: DateTime, direction: int)
    requires view != MonthView
    ensures var r := Navigate(view, anchor, direction);
      r.time == anchor.time &&
      r.day == anchor.day + (if view == DayView then direction else 7 * direction)
  {
    MakeDayShift(anchor.day, if view == DayView then direction else direction * 7);
  }

  /** In the day and week views a step forward and a step back return to the anchor. */
  lemma NavigateRoundTrip(view: View, anchor: DateTime, direction: int)
    requires view != MonthView
    ensures Navigate(view, Navigate(view, anchor, direction), -direction) == anchor
  {
    NavigateShiftsDays(view, anchor, direction);
    NavigateShiftsDays(view, Navigate(view, anchor, direction), -direction);
  }

  /** The month and year that a month step aims at: `month + direction` with the year carried. */
  function TargetMonth(anchor: DateTime, direction: int): (c: CivilDate)
    ensures 0 <= c.month < 12
  {
    var m := CivilFromDay(anchor.day).month + direction;
    CivilDate(CivilFromDay(anchor.day).year + m / 12, m % 12, 1)
  }

  /** A month step keeps the date when the target month has that date, and
      otherwise overflows into the month after it: it lands in the target
      month exactly when the anchor's date fits there. */
  lemma NavigateMonthLandsInTarget(anchor: DateTime, direction: int)
    ensures var r := Navigate(MonthView, anchor, direction);
      var t := TargetMonth(anchor, direction);
      var dt := CivilFromDay(anchor.day).date;
      && r.time == anchor.time
      && (CivilFromDay(r.day) == CivilDate(t.year, t.month, dt) <==> dt <= DaysInMonth(t.year, t.month))
      && (dt <= DaysInMonth(t.year, t.month) <==> CivilFromDay(r.day).month == t.month)
  {
    var t := TargetMonth(anchor, direction);
    var dt := CivilFromDay(anchor.day).date;
    NavigateMonthDay(anchor, direction, t, dt);
    DateInMonth(t.year, t.month, dt, Navigate(MonthView, anchor, direction).day);
  }

  /** Date `dt` of month `m`, counted from its 1st, is that date exactly when
      the month has it, and otherwise falls in another month. */
  lemma DateInMonth(y: int, m: int, dt: int, d: int)
    requires 0 <= m < 12 && 1 <= dt <= 31
    requires d == DayFromCivil(CivilDate(y, m, 1)) + dt - 1
    ensures CivilFromDay(d) == CivilDate(y, m, dt) <==> dt <= DaysInMonth(y, m)
    ensures dt <= DaysInMonth(y, m) <==> CivilFromDay(d).month == m
  {
    if dt <= DaysInMonth(y, m) {
      assert DayFromCivil(CivilDate(y, m, dt)) == d;
      CivilRoundTrip(CivilDate(y, m, dt));
    } else {
      OverflowIntoNextMonth(y, m, dt, d);
      assert CivilFromDay(d) != CivilDate(y, m, dt);
    }
  }

  /** The month step asks `MakeDay` for the anchor's date in the target month. */
  lemma NavigateMonthDay(anchor: DateTime, direction: int, t: CivilDate, dt: int)
    requires t == TargetMonth(anchor, direction) && dt == CivilFromDay(anchor.day).date
    ensures 1 <= dt <= 31
    ensures Navigate(MonthView, anchor, direction) ==
      DateTime(DayFromCivil(CivilDate(t.year, t.month, 1)) + dt - 1, anchor.time)
  {
  }

  /** A date past the end of month `m` runs on into the month after it. */
  lemma OverflowIntoNextMonth(y: int, m: int, dt: int, d: int)
    requires 0 <= m < 12 && DaysInMonth(y, m) < dt <= 31
    requires d == DayFromCivil(CivilDate(y, m, 1)) + dt - 1
    ensures CivilFromDay(d).month != m
  {
    var dim := DaysInMonth(y, m);
    var next := if m == 11 then CivilDate(y + 1, 0, dt - dim) else CivilDate(y, m + 1, dt - dim);
    if m == 11 { DayFromYearStep(y); }
    assert DayFromCivil(next) == d;
    CivilRoundTrip(next);
  }

  /** From January 31 of any year a step forward in the month view lands in
      March, on the 3rd (the 2nd in a leap year): February is skipped. */
  lemma MonthStepSkipsFebruary(y: int)
    ensures var jan31 := DateTime(DayFromCivil(CivilDate(y, 0, 31)), 0);
      CivilFromDay(Navigate(MonthView, jan31, 1).day) == CivilDate(y, 2, if IsLeapYear(y) then 2 else 3)
  {
    var mar := CivilDate(y, 2, if IsLeapYear(y) then 2 else 3);
    var d := DayFromCivil(CivilDate(y, 0, 31));
    StepFromJanuary31(y, d);
    February31(y, mar);
    CivilRoundTrip(mar);
  }

  /** The month step from January 31 asks for February 31. */
  lemma StepFromJanuary31(y: int, d: int)
    requires d == DayFromCivil(CivilDate(y, 0, 31))
    ensures Navigate(MonthView, DateTime(d, 0), 1).day == MakeDay(y, 1, 31)
  {
    var c := CivilDate(y, 0, 31);
    CivilRoundTrip(c);
    var dt := DateTime(d, 0);
    assert Navigate(MonthView, dt, 1) == SetMonth(dt, c.month + 1);
    SetMonthOfCivil(dt, c, 1);
  }

  /** `setMonth` keeps the year and date of the day it starts from. */
  lemma SetMonthOfCivil(dt: DateTime, c: CivilDate, month: int)
    requires CivilFromDay(dt.day) == c
    ensures SetMonth(dt, month).day == MakeDay(c.year, month, c.date)
  {
  }

  /** February 31 runs on into March. */
  lemma February31(y: int, mar: CivilDate)
    requires mar == CivilDate(y, 2, if IsLeapYear(y) then 2 else 3)
    ensures MakeDay(y, 1, 31) == DayFromCivil(mar)
  {
  }

  /** A month step that clamps the date to the length of the target month. */
  function NavigateMonthClamped(anchor: DateTime, direction: int): DateTime {
    var t := TargetMonth(anchor, direction);
    var dt := CivilFromDay(anchor.day).date;
    var dim := DaysInMonth(t.year, t.month);
    DateTime(DayFromCivil(CivilDate(t.year, t.month, if dt <= dim then dt else dim)), anchor.time)
  }

  /** The clamped month step always lands in the target month, keeps the date
      when it can and the time of day always. */
  lemma NavigateMonthClampedLandsInTarget(anchor: DateTime, direction: int)
    ensures var r := NavigateMonthClamped(anchor, direction);
      var t := TargetMonth(anchor, direction);
      var dt := CivilFromDay(anchor.day).date;
      var dim := DaysInMonth(t.year, t.month);
      && r.time == anchor.time
      && CivilFromDay(r.day) == CivilDate(t.year, t.month, if dt <= dim then dt else dim)
  {
    var t := TargetMonth(anchor, direction);
    var dt := CivilFromDay(anchor.day).date;
    var dim := DaysInMonth(t.year, t.month);
    CivilRoundTrip(CivilDate(t.year, t.month, if dt <= dim then dt else dim));
  }

  /** `handleNavigate` with the month step clamped: the day and week steps as
      written, the month step landing in the target month. */
  function NavigateClamped(view: View, anchor: DateTime, direction: int): DateTime {
    if view == MonthView then NavigateMonthClamped(anchor, direction) else Navigate(view, anchor, direction)
  }

  /** Where the two month steps agree: whenever the anchor's date fits the target month. */
  lemma NavigateMonthClampedAgrees(anchor: DateTime, direction: int)
    ensures CivilFromDay(anchor.day).date <= DaysInMonth(TargetMonth(anchor, direction).year, TargetMonth(anchor, direction).month)
      <==> NavigateMonthClamped(anchor, direction) == Navigate(MonthView, anchor, direction)
  {
    NavigateMonthLandsInTarget(anchor, direction);
    NavigateMonthClampedLandsInTarget(anchor, direction);
  }

  // ---------------------------------------------------------------------
  // Block geometry: one hour row is 96 pixels

  function MinuteOfDay(start: DateTime): (k: int)
    requires start.Valid()
    ensures 0 <= k < 1440
  {
    Hours(start) * 60 + Minutes(start)
  }

  /** `top` of an appointment block. */
  function BlockTop(start: DateTime): real
    requires start.Valid()
  {
    (Hours(start) * 96) as real + (Minutes(start) * 96) as real / 60.0 + 4.0
  }

  /** `height` of an appointment block. */
  function BlockHeight(duration: int): real {
    (duration * 96) as real / 60.0 - 8.0
  }

  /** `top` is linear in the minute of the day: 1.6 pixels a minute, 4 pixels of inset. */
  lemma BlockTopLinear(start: DateTime)
    requires start.Valid()
    ensures BlockTop(start) == (MinuteOfDay(start) as real) * 8.0 / 5.0 + 4.0
  {
  }

  /** A later start in the day is placed strictly lower. */
  lemma BlockTopIncreasing(a: DateTime, b: DateTime)
    requires a.Valid() && b.Valid()
    requires MinuteOfDay(a) < MinuteOfDay(b)
    ensures BlockTop(a) < BlockTop(b)
  {
    BlockTopLinear(a);
    BlockTopLinear(b);
  }

  /** The start set by `setHours(h, m)` is read back by `getHours` and `getMinutes`. */
  lemma HoursMinutesOfSetHours(dt: DateTime, h: int, m: int)
    requires 0 <= h < 24 && 0 <= m < 60
    ensures var s := SetHours(dt, h, m); s.Valid() && Hours(s) == h && Minutes(s) == m
  {
    var s := SetHours(dt, h, m);
    assert s.time == h * MsPerHour + m * MsPerMinute;
    DivExact(s.time, MsPerHour, h, m * MsPerMinute);
    DivExact(s.time, MsPerMinute, h * 60 + m, 0);
    DivExact(h * 60 + m, 60, h, m);
  }

  /** Starting 60 minutes later moves the block down by exactly one 96-pixel row. */
  lemma BlockTopHourLater(dt: DateTime, h: int, m: int)
    requires 0 <= h < 23 && 0 <= m < 60
    ensures BlockTop(SetHours(dt, h + 1, m)) == BlockTop(SetHours(dt, h, m)) + 96.0
  {
    HoursMinutesOfSetHours(dt, h, m);
    HoursMinutesOfSetHours(dt, h + 1, m);
  }

  /** A 09:30 start is drawn at 916 pixels and a 39-minute block is 54.4 pixels high. */
  lemma BlockExample(dt: DateTime)
    ensures BlockTop(SetHours(dt, 9, 30)) == 916.0
    ensures BlockHeight(39) == 54.4
  {
    HoursMinutesOfSetHours(dt, 9, 30);
  }

  /** The appointments drawn in a day's column: those on the same calendar day, in list order. */
  function AppointmentsOn(appointments: seq<Appointment>, day: DateTime): (r: seq<Appointment>)
    ensures forall i :: 0 <= i < |r| ==> r[i] in appointments && SameDay(r[i].startTime, day)
    ensures forall i :: 0 <= i < |appointments| && SameDay(appointments[i].startTime, day) ==> appointments[i] in r
  {
    Filter(appointments, (a: Appointment) => SameDay(a.startTime, day))
  }

  // ---------------------------------------------------------------------
  // The time field

  /** `n.toString().padStart(2, '0')`. */
  function Pad2(n: nat): (s: string)
    ensures |s| >= 2 && AllDigits(s) && ':' !in s
  {
    PadStart(DecimalString(n), 2, '0')
  }

  /** The form's time text of a start: `HH:MM` of `getHours()` and `getMinutes()`. */
  function FormatTime(h: nat, m: nat): string {
    Pad2(h) + ":" + Pad2(m)
  }

  /** `time.split(':').map(Number)` destructured into hours and minutes;
      `None` when either is `NaN` (or the minutes are missing). */
  function ParseTime(s: string): Option<(int, int)> {
    var parts := Split(s, ':');
    if |parts| < 2 then None
    else
      match (Number(parts[0]), Number(parts[1]))
      case (Some(h), Some(m)) => Some((h, m))
      case _ => None
  }

  lemma {:induction false} LeadingZerosValue(s: string, k: nat)
    requires AllDigits(s)
    ensures AllDigits(Zeros(k) + s) && DigitsValue(Zeros(k) + s) == DigitsValue(s)
    decreases |s|
  {
    var z := Zeros(k) + s;
    if s == [] {
      assert z == Zeros(k);
      ZerosValue(k);
    } else {
      assert z[..|z| - 1] == Zeros(k) + s[..|s| - 1];
      LeadingZerosValue(s[..|s| - 1], k);
    }
  }

  function Zeros(k: nat): (z: string)
    ensures |z| == k && forall i :: 0 <= i < k ==> z[i] == '0'
  {
    seq(k, i => '0')
  }

  lemma {:induction false} ZerosValue(k: nat)
    ensures AllDigits(Zeros(k)) && DigitsValue(Zeros(k)) == 0
  {
    if k > 0 {
      assert Zeros(k)[..k - 1] == Zeros(k - 1);
      ZerosValue(k - 1);
    }
  }

  /** A text that ends in `s` and has only `'0'` before it is zeros then `s`,
      as `padStart(width, '0')` leaves it. */
  lemma ZerosThen(p: string, s: string)
    requires |s| <= |p| && p[|p| - |s|..] == s
    requires forall i :: 0 <= i < |p| - |s| ==> p[i] == '0'
    ensures p == Zeros(|p| - |s|) + s
  {
    var k := |p| - |s|;
    assert p[..k] == Zeros(k);
    assert p == p[..k] + p[k..];
  }

  lemma Pad2Value(n: nat)
    ensures DigitsValue(Pad2(n)) == n
  {
    var d := DecimalString(n);
    var p := PadStart(d, 2, '0');
    ZerosThen(p, d);
    LeadingZerosValue(d, |p| - |d|);
    DecimalStringValue(n);
    assert Pad2(n) == p;
  }

  /** Two runs of digits around a colon read as their two values. */
  lemma ParseTimeOfDigits(a: string, b: string)
    requires a != [] && b != [] && AllDigits(a) && AllDigits(b) && ':' !in a && ':' !in b
    ensures ParseTime(a + [':'] + b) == Some((DigitsValue(a), DigitsValue(b)))
  {
    SplitPair(a, b, ':');
    NumberOfDigits(a);
    NumberOfDigits(b);
  }

  /** Formatting `HH:MM` and splitting it back on `:` gives the hours and minutes again. */
  lemma TimeRoundTrip(h: nat, m: nat)
    ensures ParseTime(FormatTime(h, m)) == Some((h, m))
  {
    var a, b := Pad2(h), Pad2(m);
    assert FormatTime(h, m) == a + [':'] + b;
    ParseTimeOfDigits(a, b);
    Pad2Value(h);
    Pad2Value(m);
  }

  // ---------------------------------------------------------------------
  // Edits of the appointment list

  /** `appointments.map(a => a.id === id ? app : a)`. */
  function ReplaceById(appointments: seq<Appointment>, id: string, app: Appointment): (r: seq<Appointment>)
    ensures |r| == |appointments|
    ensures forall i :: 0 <= i < |r| ==>
      r[i] == if appointments[i].id == id then app else appointments[i]
  {
    seq(|appointments|, i requires 0 <= i < |appointments| =>
      if appointments[i].id == id then app else appointments[i])
  }

  /** `appointments.filter(a => a.id !== id)`. */
  function DeleteById(appointments: seq<Appointment>, id: string): (r: seq<Appointment>)
    ensures forall i :: 0 <= i < |r| ==> r[i].id != id && r[i] in appointments
    ensures forall i :: 0 <= i < |appointments| && appointments[i].id != id ==> appointments[i] in r
    ensures IsSubsequence(r, appointments)
  {
    FilterIsSubsequence(appointments, (a: Appointment) => a.id != id);
    Filter(appointments, (a: Appointment) => a.id != id)
  }

  /** Deleting from a list with no entry of that id changes nothing. */
  lemma DeleteAbsentId(appointments: seq<Appointment>, id: string)
    requires forall i :: 0 <= i < |appointments| ==> appointments[i].id != id
    ensures DeleteById(appointments, id) == appointments
  {
    FilterKeepsAll(appointments, (a: Appointment) => a.id != id);
  }

  /** Deletion acts on each part of a list separately, so the survivors keep their order. */
  lemma DeleteByIdAppend(a: seq<Appointment>, b: seq<Appointment>, id: string)
    ensures DeleteById(a + b, id) == DeleteById(a, id) + DeleteById(b, id)
  {
    FilterAppend(a, b, (x: Appointment) => x.id != id);
  }

  /** The appointment `handleSaveAppointment` builds from the form: the edited
      id or a fresh one, the start at the form's date and time, and the
      duration of the type's row in `APPOINTMENT_TYPES`. */
  function AppointmentFromForm(form: Form, editing: Option<Appointment>, freshId: string): (app: Appointment)
    requires ParseTime(form.time).Some?
    ensures app.duration == TypeTable(form.kind).duration
    ensures app.id == if editing.Some? then editing.value.id else freshId
    ensures app.petName == form.petName && app.ownerName == form.ownerName && app.kind == form.kind
    ensures app.doctor == form.doctor && app.assistant == form.assistant
    ensures app.startTime.Valid()
    ensures var (h, m) := ParseTime(form.time).value;
      ValidCivil(form.date) && 0 <= h < 24 && 0 <= m < 60 ==>
        CivilFromDay(app.startTime.day) == form.date && app.startTime.time == h * MsPerHour + m * MsPerMinute
  {
    CivilOfNewDate(form.date);
    var (hours, minutes) := ParseTime(form.time).value;
    var start := SetHours(NewDate(form.date.year, form.date.month, form.date.date), hours, minutes);
    Appointment(
      if editing.Some? then editing.value.id else freshId,
      form.petName, form.ownerName, form.kind, form.doctor, form.assistant,
      start, TypeTable(form.kind).duration)
  }

  /** `new Date(date)` of a valid civil date falls on that date. */
  lemma CivilOfNewDate(c: CivilDate)
    ensures ValidCivil(c) ==> CivilFromDay(NewDate(c.year, c.month, c.date).day) == c
  {
    if ValidCivil(c) {
      MakeDayOfCivil(c);
    }
  }

  /** The form `handleOpenModal(app)` fills in from an appointment. */
  function FormFromAppointment(app: Appointment): Form
    requires app.startTime.Valid()
  {
    Form(app.petName, app.ownerName, app.kind, app.doctor, app.assistant,
      FormatTime(Hours(app.startTime), Minutes(app.startTime)),
      CivilFromDay(app.startTime.day))
  }

  /** Opening an appointment and saving it unchanged keeps everything except
      the seconds of its start, which drop, and its duration, which is reset
      to the type's duration. */
  lemma EditUnchangedKeepsAppointment(app: Appointment, freshId: string)
    requires app.startTime.Valid()
    ensures ParseTime(FormatTime(Hours(app.startTime), Minutes(app.startTime))).Some?
    ensures AppointmentFromForm(FormFromAppointment(app), Some(app), freshId) ==
      app.(startTime := DateTime(app.startTime.day, Hours(app.startTime) * MsPerHour + Minutes(app.startTime) * MsPerMinute),
           duration := TypeTable(app.kind).duration)
  {
    var h, m := Hours(app.startTime), Minutes(app.startTime);
    var form := FormFromAppointment(app);
    FormTimeParses(app);
    SavedForm(form, Some(app), freshId, h, m);
    FormDateStart(app.startTime, h, m);
  }

  /** The appointment saved from a form whose time reads as `h:m`. */
  lemma SavedForm(form: Form, editing: Option<Appointment>, freshId: string, h: int, m: int)
    requires ParseTime(form.time) == Some((h, m))
    ensures AppointmentFromForm(form, editing, freshId) ==
      Appointment(if editing.Some? then editing.value.id else freshId,
        form.petName, form.ownerName, form.kind, form.doctor, form.assistant,
        SetHours(NewDate(form.date.year, form.date.month, form.date.date), h, m),
        TypeTable(form.kind).duration)
  {
  }

  /** The form's time text reads back as the start's hours and minutes. */
  lemma FormTimeParses(app: Appointment)
    requires app.startTime.Valid()
    ensures ParseTime(FormFromAppointment(app).time) == Some((Hours(app.startTime), Minutes(app.startTime)))
  {
    TimeRoundTrip(Hours(app.startTime), Minutes(app.startTime));
  }

  /** The form's date at the start's hours and minutes is the start, seconds dropped. */
  lemma FormDateStart(start: DateTime, h: int, m: int)
    requires 0 <= h < 24 && 0 <= m < 60
    ensures var c := CivilFromDay(start.day);
      SetHours(NewDate(c.year, c.month, c.date), h, m) == DateTime(start.day, h * MsPerHour + m * MsPerMinute)
  {
    MakeDayOfCivil(CivilFromDay(start.day));
  }

  /** The agenda page's state. */
  class SchedulePage {
    var view: View
    var currentDate: DateTime
    var isModalOpen: bool
    var editing: Option<Appointment>
    var form: Form
    var appointments: seq<Appointment>

    /** The blank form of a new appointment: Consulta at 09:00 today. */
    static function BlankForm(today: CivilDate): Form {
      Form("", "", Consulta, "", "", "09:00", today)
    }

    constructor (now: DateTime, today: CivilDate, initial: seq<Appointment>)
      ensures view == WeekView && currentDate == now && !isModalOpen && editing == None
      ensures form == BlankForm(today) && appointments == initial
    {
      view := WeekView;
      currentDate := now;
      isModalOpen := false;
      editing := None;
      form := BlankForm(today);
      appointments := initial;
    }

    method SetView(v: View)
      modifies this`view
      ensures view == v
    {
      view := v;
    }

    /** `handleNavigate`, with the month step clamped to the target month. */
    method HandleNavigate(direction: int)
      modifies this`currentDate
      ensures currentDate == NavigateClamped(view, old(currentDate), direction)
    {
      var newDate := currentDate;
      if view == DayView {
        newDate := SetDate(newDate, CivilFromDay(currentDate.day).date + direction);
      } else if view == WeekView {
        newDate := SetDate(newDate, CivilFromDay(currentDate.day).date + direction * 7);
      } else if view == MonthView {
        newDate := NavigateMonthClamped(newDate, direction);
      }
      currentDate := newDate;
    }

    /** `handleOpenModal(app)`: edit an existing appointment or start a new one. */
    method HandleOpenModal(app: Option<Appointment>, today: CivilDate)
      requires app.Some? ==> app.value.startTime.Valid()
      modifies this`editing, this`form, this`isModalOpen
      ensures editing == app && isModalOpen
      ensures form == if app.Some? then FormFromAppointment(app.value) else BlankForm(today)
    {
      if app.Some? {
        editing := app;
        form := FormFromAppointment(app.value);
      } else {
        editing := None;
        form := BlankForm(today);
      }
      isModalOpen := true;
    }

    /** `handleSaveAppointment`: replace the edited appointment in place, or append a new one. */
    method HandleSaveAppointment(freshId: string)
      requires ParseTime(form.time).Some?
      modifies this`appointments, this`isModalOpen
      ensures var app := AppointmentFromForm(form, editing, freshId);
        appointments == if editing.Some? then ReplaceById(old(appointments), editing.value.id, app)
                        else old(appointments) + [app]
      ensures !isModalOpen
    {
      var app := AppointmentFromForm(form, editing, freshId);
      if editing.Some? {
        appointments := ReplaceById(appointments, editing.value.id, app);
      } else {
        appointments := appointments + [app];
      }
      isModalOpen := false;
    }

    /** `handleDelete`: only an edited appointment, and only once confirmed. */
    method HandleDelete(confirmed: bool)
      modifies this`appointments, this`isModalOpen
      ensures editing.Some? && confirmed ==>
        appointments == DeleteById(old(appointments), editing.value.id) && !isModalOpen
      ensures !(editing.Some? && confirmed) ==>
        appointments == old(appointments) && isModalOpen == old(isModalOpen)
    {
      if editing.Some? && confirmed {
        appointments := DeleteById(appointments, editing.value.id);
        isModalOpen := false;
      }
    }
  }
}
