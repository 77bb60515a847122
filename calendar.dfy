/** components/ui/calendar.tsx: the month grid, the click handler and the per-day task bars.
    Dates are built the way `new Date(year, month, day)` builds them in local time. */
module Calendar {
  import opened Wrappers
  import opened Types
  import opened Seqs

  /** `new Date(y, ...)` reads a year from 0 to 99 as 1900 + y. */
  function FullYear(y: int): int
  {
    if 0 <= y <= 99 then 1900 + y else y
  }

  predicate IsLeapYear(y: int)
  {
    y % 4 == 0 && (y % 100 != 0 || y % 400 == 0)
  }

  /** Days of month `m` (0 = January) of the proleptic Gregorian year `y`. */
  function DaysIn(y: int, m: int): (n: int)
    requires 0 <= m < 12
    ensures 28 <= n <= 31
  {
    if m == 1 then (if IsLeapYear(y) then 29 else 28)
    else if m == 3 || m == 5 || m == 8 || m == 10 then 30
    else 31
  }

  /** `new Date(y, m, 0).getDate()`: day 0 of month `m` is the last day of month `m - 1`, with the
      month carried into the year as `Date` does (month -1 is December of the year before). */
  function LastDayBefore(y: int, m: int): (n: int)
    ensures 28 <= n <= 31
  {
    var index := FullYear(y) * 12 + m - 1;
    DaysIn(index / 12, index % 12)
  }

  /** Days from 1970-01-01 to 1 March of year `yy`, counting in 400-year eras. */
  function MarchFirst(yy: int): int
  {
    var era := yy / 400;
    var yoe := yy - era * 400;
    era * 146097 + yoe * 365 + yoe / 4 - yoe / 100 - 719468
  }

  /** Days from 1970-01-01 to the civil date `y-(m+1)-d`. The year is counted from 1 March, so
      January and February belong to the year before. */
  function DaysFromCivil(y: int, m: int, d: int): int
    requires 0 <= m < 12
  {
    var month := m + 1;
    var yy := if month <= 2 then y - 1 else y;
    var doy := (153 * (if month > 2 then month - 3 else month + 9) + 2) / 5 + d - 1;
    MarchFirst(yy) + doy
  }

  lemma DivStep4(x: int)
    requires x >= 0
    ensures (x + 1) / 4 - x / 4 == if (x + 1) % 4 == 0 then 1 else 0
  {
  }

  lemma DivStep100(x: int)
    requires x >= 0
    ensures (x + 1) / 100 - x / 100 == if (x + 1) % 100 == 0 then 1 else 0
  {
  }

  /** The leap-year rule repeats every 400 years. */
  lemma LeapPeriodic(era: int, x: int)
    ensures IsLeapYear(era * 400 + x) == IsLeapYear(x)
  {
    Mod4Periodic(era * 100, x);
    Mod100Periodic(era * 4, x);
    Mod400Periodic(era, x);
  }

  lemma Mod4Periodic(q: int, x: int)
    ensures (q * 4 + x) % 4 == x % 4
  {
  }

  lemma Mod100Periodic(q: int, x: int)
    ensures (q * 100 + x) % 100 == x % 100
  {
  }

  lemma Mod400Periodic(q: int, x: int)
    ensures (q * 400 + x) % 400 == x % 400
  {
  }

  /** Within an era, the count of days before 1 March grows by the length of the year ending there. */
  lemma YearOfEraLength(x: int)
    requires 0 <= x < 399
    ensures (x + 1) * 365 + (x + 1) / 4 - (x + 1) / 100 == x * 365 + x / 4 - x / 100 + 365 + (if IsLeapYear(x + 1) then 1 else 0)
  {
    DivStep4(x);
    DivStep100(x);
    assert (x + 1) % 400 != 0;
  }

  /** The year from 1 March of `yy` to 1 March of `yy + 1` has 366 days exactly when its
      February, that of `yy + 1`, has a 29th. */
  lemma {:induction false} MarchYearLength(yy: int)
    ensures MarchFirst(yy + 1) == MarchFirst(yy) + (if IsLeapYear(yy + 1) then 366 else 365)
  {
    var era := yy / 400;
    var yoe := yy - era * 400;
    if yoe < 399 {
      assert yy + 1 == era * 400 + (yoe + 1);
      assert (yy + 1) / 400 == era;
      YearOfEraLength(yoe);
      LeapPeriodic(era, yoe + 1);
    } else {
      assert yy + 1 == (era + 1) * 400 + 0;
      assert (yy + 1) / 400 == era + 1;
      LeapPeriodic(era + 1, 0);
    }
  }

  /** `new Date(y, m, 1).getDay()`: 0 is Sunday; 1970-01-01 was a Thursday. */
  function FirstDayOfWeek(y: int, m: int): (w: int)
    requires 0 <= m < 12
    ensures 0 <= w <= 6
  {
    (DaysFromCivil(FullYear(y), m, 1) + 4) % 7
  }

  /** The 1st of a month falls `DaysIn` days after the 1st of the month before. */
  lemma {:induction false} NextMonthStart(y: int, m: int)
    requires 0 <= m < 11
    ensures DaysFromCivil(y, m + 1, 1) == DaysFromCivil(y, m, 1) + DaysIn(y, m)
  {
    if m == 1 {
      MarchYearLength(y - 1);
    }
  }

  /** January 1st falls 31 days after December 1st of the year before. */
  lemma {:induction false} NextYearStart(y: int)
    ensures DaysFromCivil(y + 1, 0, 1) == DaysFromCivil(y, 11, 1) + 31
  {
  }

  /** The weekday of each 1st advances by the length of the month before it, modulo 7; within a
      year, and across a year end where `FullYear` does not jump (from 99 to 100, or from -1 to 0). */
  lemma FirstDayOfWeekStep(y: int, m: int)
    requires 0 <= m < 12
    requires m == 11 ==> y != 99 && y != -1
    ensures m < 11 ==> FirstDayOfWeek(y, m + 1) == (FirstDayOfWeek(y, m) + DaysIn(FullYear(y), m)) % 7
    ensures m == 11 ==> FirstDayOfWeek(y + 1, 0) == (FirstDayOfWeek(y, 11) + 31) % 7
  {
    var a := DaysFromCivil(FullYear(y), m, 1) + 4;
    if m < 11 {
      NextMonthStart(FullYear(y), m);
      WeekdayShift(a, DaysIn(FullYear(y), m));
    } else {
      NextYearStart(FullYear(y));
      assert FullYear(y + 1) == FullYear(y) + 1;
      WeekdayShift(a, 31);
    }
  }

  lemma WeekdayShift(a: int, n: int)
    ensures (a + n) % 7 == (a % 7 + n) % 7
  {
  }

  /** The anchor: 1 January 1970 was a Thursday. */
  lemma EpochIsThursday()
    ensures DaysFromCivil(1970, 0, 1) == 0
    ensures FirstDayOfWeek(1970, 0) == 4
  {
  }

  /** The 42 cells of the view: the tail of the month before, the month, the head of the next. */
  datatype MonthGrid = MonthGrid(prevMonthDays: seq<int>, daysInMonth: int, nextMonthDays: seq<int>)

  const TotalCells: int := 42

  function GridFrom(firstDayOfWeek: int, daysInMonth: int, daysInPrevMonth: int): (g: MonthGrid)
    requires 0 <= firstDayOfWeek <= 6 && 28 <= daysInMonth <= 31
  {
    MonthGrid(
      seq(firstDayOfWeek, i requires 0 <= i < firstDayOfWeek => daysInPrevMonth - firstDayOfWeek + i + 1),
      daysInMonth,
      seq(TotalCells - (firstDayOfWeek + daysInMonth), i requires 0 <= i < TotalCells - (firstDayOfWeek + daysInMonth) => i + 1))
  }

  /** The leading cells count down to `daysInPrevMonth` one by one, and the three parts fill
      exactly six weeks with the trailing cells numbered from 1. */
  lemma GridShape(firstDayOfWeek: int, daysInMonth: int, daysInPrevMonth: int)
    requires 0 <= firstDayOfWeek <= 6 && 28 <= daysInMonth <= 31
    ensures var g := GridFrom(firstDayOfWeek, daysInMonth, daysInPrevMonth);
      && |g.prevMonthDays| == firstDayOfWeek
      && (forall i | 0 < i < firstDayOfWeek :: g.prevMonthDays[i] == g.prevMonthDays[i - 1] + 1)
      && (firstDayOfWeek > 0 ==> g.prevMonthDays[firstDayOfWeek - 1] == daysInPrevMonth)
      && |g.prevMonthDays| + g.daysInMonth + |g.nextMonthDays| == TotalCells
      && (forall i | 0 <= i < |g.nextMonthDays| :: g.nextMonthDays[i] == i + 1)
  {
  }

  /** The grid as written: `daysInPrevMonth` comes from `new Date(year, month - 1, 0)`, which is
      the last day of the month two before the viewed one. */
  function GridAsWritten(year: int, month: int): (g: MonthGrid)
    requires 0 <= month < 12
  {
    GridFrom(FirstDayOfWeek(year, month), LastDayBefore(year, month + 1), LastDayBefore(year, month - 1))
  }

  /** The grid as intended: the leading cells end on the last day of the previous month. */
  function Grid(year: int, month: int): (g: MonthGrid)
    requires 0 <= month < 12
  {
    GridFrom(FirstDayOfWeek(year, month), LastDayBefore(year, month + 1), LastDayBefore(year, month))
  }

  /** The viewed month's own length is `daysInMonth`. */
  lemma {:induction false} DaysInMonthIsViewedMonth(year: int, month: int)
    requires 0 <= month < 12
    ensures Grid(year, month).daysInMonth == DaysIn(FullYear(year), month)
  {
    var index := FullYear(year) * 12 + month + 1 - 1;
    assert index / 12 == FullYear(year) && index % 12 == month;
  }

  /** Corrected: the leading cells are the last days of the previous month, ending on its last. */
  lemma {:induction false} GridPrevFillEndsPreviousMonth(year: int, month: int)
    requires 0 <= month < 12
    ensures var g, w := Grid(year, month), FirstDayOfWeek(year, month);
      var prevLen := if month == 0 then DaysIn(FullYear(year) - 1, 11) else DaysIn(FullYear(year), month - 1);
      && |g.prevMonthDays| == w
      && (w > 0 ==> g.prevMonthDays[w - 1] == prevLen)
      && (forall i | 0 <= i < w :: 1 <= g.prevMonthDays[i] <= prevLen)
  {
    var index := FullYear(year) * 12 + month - 1;
    if month == 0 {
      assert index / 12 == FullYear(year) - 1 && index % 12 == 11;
    } else {
      assert index / 12 == FullYear(year) && index % 12 == month - 1;
    }
  }

  /** As written, the leading cells end on the length of the month two before, so they are right
      only when that month is as long as the previous one (or no leading cell is shown). */
  lemma GridAsWrittenRightIff(year: int, month: int)
    requires 0 <= month < 12
    ensures GridAsWritten(year, month) == Grid(year, month) <==>
      FirstDayOfWeek(year, month) == 0 || LastDayBefore(year, month - 1) == LastDayBefore(year, month)
  {
    var w := FirstDayOfWeek(year, month);
    if w > 0 && GridAsWritten(year, month) == Grid(year, month) {
      assert GridAsWritten(year, month).prevMonthDays[w - 1] == Grid(year, month).prevMonthDays[w - 1];
    }
  }

  /** March 2025 starts on a Saturday; the six leading cells should read 23..28 (February 2025),
      but as written they read 26..31 (January's length). */
  lemma GridAsWrittenMarch2025()
    ensures FirstDayOfWeek(2025, 2) == 6
    ensures GridAsWritten(2025, 2).prevMonthDays == [26, 27, 28, 29, 30, 31]
    ensures Grid(2025, 2).prevMonthDays == [23, 24, 25, 26, 27, 28]
    ensures DaysIn(2025, 1) == 28
  {
    assert LastDayBefore(2025, 1) == 31;
    assert LastDayBefore(2025, 2) == 28;
  }

  /** A calendar date as the component builds it. */
  datatype CivilDate = CivilDate(year: int, month: int, day: int)

  /** The component's own state: the month on view and the last clicked date. */
  class CalendarView {
    var viewYear: int
    var viewMonth: int
    var currentDate: CivilDate

    constructor (today: CivilDate)
      requires 0 <= today.month < 12
      ensures viewYear == today.year && viewMonth == today.month && currentDate == today
    {
      viewYear, viewMonth, currentDate := today.year, today.month, today;
    }

    /** `handleDateClick`: cells outside the viewed month are ignored; a cell of the month becomes
        the current date and is what `onDateSelect` receives. */
    method HandleDateClick(day: int, isCurrentMonth: bool) returns (selected: Option<CivilDate>)
      modifies this`currentDate
      ensures !isCurrentMonth ==> selected == None && currentDate == old(currentDate)
      ensures isCurrentMonth ==> selected == Some(CivilDate(viewYear, viewMonth, day)) && currentDate == selected.value
    {
      if !isCurrentMonth {
        return None;
      }
      var clicked := CivilDate(viewYear, viewMonth, day);
      currentDate := clicked;
      selected := Some(clicked);
    }
  }

  /** The task spans the local midnight `dayStart` of the cell. */
  predicate SpansDay(t: Task, dayStart: int)
  {
    t.startDate <= dayStart <= t.endDate
  }

  function Spans(dayStart: int): Task -> bool
  {
    (t: Task) => SpansDay(t, dayStart)
  }

  /** `getTasksForDate(day)`, with `dayStart` the timestamp of `new Date(year, month, day)`. */
  function TasksForDay(tasks: seq<Task>, dayStart: int): (r: seq<Task>)
  {
    Filter(tasks, Spans(dayStart))
  }

  /** A task is on a day exactly when the day's midnight lies within `[startDate, endDate]`. */
  lemma TasksForDayExact(tasks: seq<Task>, dayStart: int, t: Task)
    ensures t in TasksForDay(tasks, dayStart) <==> t in tasks && t.startDate <= dayStart <= t.endDate
    ensures IsSubsequence(TasksForDay(tasks, dayStart), tasks)
  {
    FilterIsSubsequence(tasks, Spans(dayStart));
  }

  /** The fallback bar classes bg-green-500, bg-blue-500, bg-red-500 and bg-yellow-500. */
  datatype Fallback = Green | Blue | Red | Yellow

  const DefaultColor: string := "#3b82f6"

  datatype Indicator = Indicator(
    task: Task, isStart: bool, isEnd: bool, isMiddle: bool, colorHex: string, fallbackClass: Fallback)

  /** One bar of `getTaskIndicators`. `dayOf` gives a timestamp's local calendar day, which is
      what comparing `toDateString()` results decides. */
  function IndicatorFor(t: Task, dayStart: int, dayOf: int -> int): (ind: Indicator)
    ensures ind.task == t
    ensures ind.isStart <==> dayOf(dayStart) == dayOf(t.startDate)
    ensures ind.isEnd <==> dayOf(dayStart) == dayOf(t.endDate)
    ensures ind.isMiddle <==> t.startDate < dayStart < t.endDate
    ensures ind.colorHex == (if t.color != "" then t.color else DefaultColor)
    ensures ind.fallbackClass == Green <==> t.completed
    ensures ind.fallbackClass == Blue <==> !t.completed && ind.isStart
    ensures ind.fallbackClass == Red <==> !t.completed && !ind.isStart && ind.isEnd
  {
    var isStart := dayOf(dayStart) == dayOf(t.startDate);
    var isEnd := dayOf(dayStart) == dayOf(t.endDate);
    Indicator(t, isStart, isEnd, t.startDate < dayStart < t.endDate,
      if t.color != "" then t.color else DefaultColor,
      if t.completed then Green else if isStart then Blue else if isEnd then Red else Yellow)
  }

  function TaskIndicators(tasks: seq<Task>, dayStart: int, dayOf: int -> int): (r: seq<Indicator>)
    ensures |r| == |TasksForDay(tasks, dayStart)|
    ensures forall i | 0 <= i < |r| :: r[i] == IndicatorFor(TasksForDay(tasks, dayStart)[i], dayStart, dayOf)
  {
    var onDay := TasksForDay(tasks, dayStart);
    seq(|onDay|, i requires 0 <= i < |onDay| => IndicatorFor(onDay[i], dayStart, dayOf))
  }

  function StartsHere(): Indicator -> bool
  {
    (ind: Indicator) => ind.isStart
  }

  function ContinuesHere(): Indicator -> bool
  {
    (ind: Indicator) => !ind.isStart
  }

  /** `orderedIndicators`: start bars first, then the rest, each group in its original order. */
  function OrderedIndicators(indicators: seq<Indicator>): (r: seq<Indicator>)
  {
    Filter(indicators, StartsHere()) + Filter(indicators, ContinuesHere())
  }

  /** Reordering the bars is a permutation of them. */
  lemma OrderedIndicatorsPermutes(indicators: seq<Indicator>)
    ensures multiset(OrderedIndicators(indicators)) == multiset(indicators)
    ensures |OrderedIndicators(indicators)| == |indicators|
  {
    FilterPartition(indicators, StartsHere(), ContinuesHere());
  }

  /** After reordering, every start bar comes before every other bar. */
  lemma {:induction false} OrderedIndicatorsStartsFirst(indicators: seq<Indicator>, i: int, j: int)
    requires 0 <= i < j < |OrderedIndicators(indicators)|
    requires !OrderedIndicators(indicators)[i].isStart
    ensures !OrderedIndicators(indicators)[j].isStart
  {
    var starts := Filter(indicators, StartsHere());
    var rest := Filter(indicators, ContinuesHere());
    var r := starts + rest;
    assert r == OrderedIndicators(indicators);
    if i < |starts| {
      assert false;
    }
    assert r[j] == rest[j - |starts|];
    assert ContinuesHere()(rest[j - |starts|]);
  }

  /** The reordering keeps each group in its original order: the start bars come first as a
      subsequence of the input, and the remaining bars follow as a subsequence of the input. */
  lemma OrderedIndicatorsKeepsGroupOrder(indicators: seq<Indicator>)
    ensures var r, k := OrderedIndicators(indicators), |Filter(indicators, StartsHere())|;
      && k <= |r|
      && (forall i | 0 <= i < k :: r[i].isStart)
      && IsSubsequence(r[..k], indicators)
      && IsSubsequence(r[k..], indicators)
  {
    var starts, rest := Filter(indicators, StartsHere()), Filter(indicators, ContinuesHere());
    FilterIsSubsequence(indicators, StartsHere());
    FilterIsSubsequence(indicators, ContinuesHere());
    assert (starts + rest)[..|starts|] == starts;
    assert (starts + rest)[|starts|..] == rest;
  }

  /** What a day cell draws: at most three bars, and a "+k more" note when there are more. */
  function VisibleBars(ordered: seq<Indicator>): (r: seq<Indicator>)
    ensures |r| == (if |ordered| <= 3 then |ordered| else 3)
    ensures r == ordered[..|r|]
  {
    if |ordered| <= 3 then ordered else ordered[..3]
  }

  function MoreNote(ordered: seq<Indicator>): (k: Option<nat>)
    ensures k.Some? <==> |ordered| > 3
    ensures k.Some? ==> k.value + |VisibleBars(ordered)| == |ordered|
  {
    if |ordered| > 3 then Some(|ordered| - 3) else None
  }

  /** How a bar is coloured: the inline hex colour when there is one, else the fallback class. */
  datatype BarFill = HexFill(hex: string) | ClassFill(fallback: Fallback)

  function BarFillOf(ind: Indicator): BarFill
  {
    if ind.colorHex != "" then HexFill(ind.colorHex) else ClassFill(ind.fallbackClass)
  }

  /** Since `colorHex` falls back to the default colour, no bar is ever drawn with its fallback
      class: the completed / start / end colours never show. */
  lemma FallbackClassNeverShown(tasks: seq<Task>, dayStart: int, dayOf: int -> int)
    ensures forall ind | ind in TaskIndicators(tasks, dayStart, dayOf) :: BarFillOf(ind).HexFill?
  {
  }
}
