/**
 * The booking page's script: a month calendar laid out Sunday first, the
 * previous/next month buttons, the selection of a day, and the request the
 * form sends to `POST /book-meeting` with the selected day's `data-date`.
 */
module Calendar {
  import opened Common
  import opened Store
  import Meeting

  const MonthNames: seq<string> :=
    ["January", "February", "March", "April", "May", "June",
     "July", "August", "September", "October", "November", "December"]

  // ---------------------------------------------------------------------------
  // The JavaScript `Date` arithmetic the page relies on
  // ---------------------------------------------------------------------------

  /** The `Date(year, month, ...)` constructor reads a year 0..99 as 1900..1999. */
  function JsYear(year: int): int {
    if 0 <= year <= 99 then 1900 + year else year
  }

  /** Days from 0001-01-01 to January 1 of `year`, proleptic Gregorian. */
  function DaysBeforeYear(year: int): int {
    var p := year - 1;
    365 * p + p / 4 - p / 100 + p / 400
  }

  /** Days of the months of `year` before month index `month` (0 = January). */
  function DaysBeforeMonth(year: int, month: int): nat
    requires 0 <= month <= 11
  {
    if month == 0 then 0 else DaysBeforeMonth(year, month - 1) + DaysInMonth(year, month)
  }

  /** Days from 0001-01-01 to the first of month index `month` of `year`. */
  function DayNumber(year: int, month: int): int
    requires 0 <= month <= 11
  {
    DaysBeforeYear(year) + DaysBeforeMonth(year, month)
  }

  /** `new Date(year, month).getDay()`: the weekday of the first of the month,
      Sunday 0 to Saturday 6 (0001-01-01 was a Monday). */
  function FirstWeekday(year: int, month: int): (w: int)
    requires 0 <= month <= 11
    ensures 0 <= w <= 6
  {
    (DayNumber(JsYear(year), month) + 1) % 7
  }

  /** `new Date(year, month, day).getDate()` for a day number `day >= 1` that
      may run past the end of month index `month`: the surplus rolls over into
      the following months. */
  function RolledDate(year: int, month: int, day: int): (r: int)
    requires 0 <= month <= 11 && day >= 1
    ensures 1 <= r <= 31
    decreases day, year
  {
    var n := DaysInMonth(year, month + 1);
    if day <= n then day
    else if month == 11 then RolledDate(year + 1, 0, day - n)
    else RolledDate(year, month + 1, day - n)
  }

  /** `32 - new Date(year, month, 32).getDate()`: the length of the month. */
  function MonthLength(year: int, month: int): (n: int)
    requires 0 <= month <= 11
    ensures n == DaysInMonth(JsYear(year), month + 1)
  {
    RolledPastEnd(JsYear(year), month);
    32 - RolledDate(JsYear(year), month, 32)
  }

  /** Day 32 of any month is a few days into the next one. */
  lemma RolledPastEnd(year: int, month: int)
    requires 0 <= month <= 11
    ensures RolledDate(year, month, 32) == 32 - DaysInMonth(year, month + 1)
  {
    var rest := 32 - DaysInMonth(year, month + 1);
    if month == 11 {
      assert RolledDate(year + 1, 0, rest) == rest;
    } else {
      assert RolledDate(year, month + 1, rest) == rest;
    }
  }

  /** Counting a year's days from January 1 of the next year. */
  lemma DaysBeforeYearStep(year: int)
    ensures DaysBeforeYear(year + 1) == DaysBeforeYear(year) + DaysInYear(year)
  {
    var p := year - 1;
    Quarter(p);
    Century(p);
    FourCenturies(p);
    LeapCount(year);
    assert DaysBeforeYear(year + 1) == 365 * p + 365 + (p + 1) / 4 - (p + 1) / 100 + (p + 1) / 400;
  }

  /** The three divisibility tests add up to the length of the year. */
  lemma LeapCount(year: int)
    ensures (if year % 4 == 0 then 1 else 0) - (if year % 100 == 0 then 1 else 0)
      + (if year % 400 == 0 then 1 else 0) == DaysInYear(year) - 365
  {
    if year % 400 == 0 {
      HundredsOfFourHundred(year);
      FoursOfHundred(year);
    } else if year % 100 == 0 {
      FoursOfHundred(year);
    }
  }

  lemma FoursOfHundred(year: int)
    requires year % 100 == 0
    ensures year % 4 == 0
  {
    assert year == 4 * (25 * (year / 100));
  }

  lemma HundredsOfFourHundred(year: int)
    requires year % 400 == 0
    ensures year % 100 == 0
  {
    assert year == 100 * (4 * (year / 400));
  }

  lemma Quarter(p: int)
    ensures (p + 1) / 4 - p / 4 == if (p + 1) % 4 == 0 then 1 else 0
  {
  }

  lemma Century(p: int)
    ensures (p + 1) / 100 - p / 100 == if (p + 1) % 100 == 0 then 1 else 0
  {
  }

  lemma FourCenturies(p: int)
    ensures (p + 1) / 400 - p / 400 == if (p + 1) % 400 == 0 then 1 else 0
  {
  }

  /** The months before month index `month` and those from it on make up the
      year. */
  lemma {:induction false} MonthsSplit(year: int, month: int)
    requires 0 <= month <= 11
    ensures DaysBeforeMonth(year, month) + DaysFrom(year, month + 1) == DaysFrom(year, 1)
  {
    if month > 0 {
      MonthsSplit(year, month - 1);
      MonthsSplitStep(year, month);
    }
  }

  lemma MonthsSplitStep(year: int, month: int)
    requires 0 < month <= 11
    ensures DaysBeforeMonth(year, month) + DaysFrom(year, month + 1)
         == DaysBeforeMonth(year, month - 1) + DaysFrom(year, month)
  {
  }

  /** The `n`-th day after the first of month index `month` is where the month
      count says it is. */
  lemma MonthStart(year: int, month: int, n: nat)
    requires 0 <= month <= 11 && n < DaysFrom(year, month + 1)
    ensures DaysBeforeMonth(year, month) + DaysFrom(year, month + 1) == DaysFrom(year, 1)
    ensures MonthAndDay(year, 1, DaysBeforeMonth(year, month) + n) == MonthAndDay(year, month + 1, n)
  {
    MonthsSplit(year, month);
    SkipMonths(year, 1, month + 1, n);
  }

  /** Counting from month `k`, the months before `target` are skipped whole. */
  lemma {:induction false} SkipMonths(year: int, k: int, target: int, n: nat)
    requires 1 <= k <= target <= 12 && n < DaysFrom(year, target)
    ensures DaysFrom(year, target) <= DaysFrom(year, k)
    ensures MonthAndDay(year, k, DaysFrom(year, k) - DaysFrom(year, target) + n) == MonthAndDay(year, target, n)
    decreases target - k
  {
    if k < target {
      SkipMonths(year, k + 1, target, n);
    }
  }

  /** The days of the years from `first` up to, not including, `year`. */
  function YearsBetween(first: int, year: int): nat
    requires first <= year
    decreases year - first
  {
    if year == first then 0 else YearsBetween(first, year - 1) + DaysInYear(year - 1)
  }

  /** The closed formula counts the same days as adding up the years. */
  lemma {:induction false} DaysBeforeYearCounts(first: int, year: int)
    requires first <= year
    ensures DaysBeforeYear(year) - DaysBeforeYear(first) == YearsBetween(first, year)
    decreases year - first
  {
    if year > first {
      DaysBeforeYearCounts(first, year - 1);
      DaysBeforeYearStep(year - 1);
    }
  }

  /** Peeling the first year off a run of years. */
  lemma {:induction false} YearsBetweenFirst(first: int, year: int)
    requires first < year
    ensures YearsBetween(first, year) == DaysInYear(first) + YearsBetween(first + 1, year)
    decreases year - first
  {
    if year > first + 1 {
      YearsBetweenFirst(first, year - 1);
    }
  }

  /** Counting the days of whole years from January 1 of `first` reaches
      January 1 of `year`. */
  lemma {:induction false} YearStart(first: int, year: int, n: nat)
    requires 1 <= first <= year
    ensures DateFrom(first, YearsBetween(first, year) + n) == DateFrom(year, n)
    decreases year - first
  {
    if year > first {
      YearsBetweenFirst(first, year);
      YearStart(first + 1, year, n);
    }
  }

  /** The day count behind `FirstWeekday` lands on the first of the month in
      the same calendar the backend reads instants with. */
  lemma FirstOfMonth(year: int, month: int)
    requires year >= 1 && 0 <= month <= 11
    ensures DayNumber(year, month) >= 0
    ensures DateFrom(1, DayNumber(year, month)) == Date(year, month + 1, 1)
  {
    var before := DaysBeforeMonth(year, month);
    DaysBeforeYearCounts(1, year);
    assert DaysBeforeYear(1) == 0;
    assert DayNumber(year, month) == YearsBetween(1, year) + before;
    YearStart(1, year, before);
    MonthsSplit(year, month);
    FirstDay(year, month + 1);
    DaysInYearByMonths(year);
    DateFromWithinYear(year, before);
    MonthStart(year, month, 0);
    FirstDay(year, month + 1);
  }

  lemma FirstDay(year: int, month: int)
    requires 1 <= month <= 12
    ensures 0 < DaysFrom(year, month)
    ensures MonthAndDay(year, month, 0) == Date(year, month, 1)
  {
  }

  /** A day count below the length of the year stays in that year. */
  lemma DateFromWithinYear(year: int, n: nat)
    requires year >= 1 && n < DaysInYear(year)
    ensures DaysInYear(year) == DaysFrom(year, 1)
    ensures DateFrom(year, n) == MonthAndDay(year, 1, n)
  {
    DaysInYearByMonths(year);
  }

  /** Each month starts on the weekday after its predecessor's last day,
      across the turn of the year too. */
  lemma WeekdayAdvance(year: int, month: int)
    requires year >= 100 && 0 <= month <= 11
    ensures month < 11 ==>
      FirstWeekday(year, month + 1) == (FirstWeekday(year, month) + MonthLength(year, month)) % 7
    ensures month == 11 ==>
      FirstWeekday(year + 1, 0) == (FirstWeekday(year, 11) + MonthLength(year, 11)) % 7
  {
    var d := DayNumber(year, month);
    var len := MonthLength(year, month);
    if month < 11 {
      assert DayNumber(year, month + 1) == d + len;
    } else {
      NewYear(year);
    }
    ShiftWeekday(d, len);
  }

  /** January 1 follows the 31 days of December. */
  lemma NewYear(year: int)
    requires year >= 100
    ensures DayNumber(year + 1, 0) == DayNumber(year, 11) + MonthLength(year, 11)
  {
    DaysBeforeYearStep(year);
    MonthsSplit(year, 11);
    DaysInYearByMonths(year);
  }

  lemma ShiftWeekday(d: int, k: int)
    ensures (d + k + 1) % 7 == ((d + 1) % 7 + k) % 7
  {
  }

  /** January 1, 2024 was a Monday and February 1, 2024 a Thursday. */
  lemma Weekdays2024()
    ensures FirstWeekday(2024, 0) == 1 && FirstWeekday(2024, 1) == 4
  {
    assert DaysBeforeYear(2024) == 738885;
  }

  // ---------------------------------------------------------------------------
  // Rendering
  // ---------------------------------------------------------------------------

  /** The `data-date` of day `date` of month index `month`: the year as
      `String(year)`, month and day zero-padded to two places. */
  function FormatDate(year: int, month: int, date: int): (r: string)
    requires 0 <= month <= 11 && date >= 1
    ensures |IntToString(year)| <= |r| && r[..|IntToString(year)|] == IntToString(year)
    ensures date < 100 ==>
      var n := |r|;
      && n == |IntToString(year)| + 6 && r[n - 6] == '-' && r[n - 3] == '-'
      && AllDigits(r[n - 5..n - 3]) && DigitsValue(r[n - 5..n - 3]) == month + 1
      && AllDigits(r[n - 2..]) && DigitsValue(r[n - 2..]) == date
  {
    var y := IntToString(year);
    var mm := PadZero(NatToString(month + 1), 2);
    var dd := PadZero(NatToString(date), 2);
    DateFields(y, mm, dd);
    PadZeroTwoDigits(month + 1);
    if date < 100 then PadZeroTwoDigits(date); y + "-" + mm + "-" + dd
    else y + "-" + mm + "-" + dd
  }

  /** Where the year, the month and the day sit in `year-mm-dd`. */
  lemma DateFields(y: string, mm: string, dd: string)
    requires |mm| == 2
    ensures var r := y + "-" + mm + "-" + dd;
      && r[..|y|] == y && r[|y|] == '-' && r[|y| + 1..|y| + 3] == mm && r[|y| + 3] == '-'
      && r[|y| + 4..] == dd
  {
  }

  /** A table cell: an empty `<td>` before the first of the month, or a
      clickable day; a day cell remembers the year and month index it was
      drawn for, and its `data-date` attribute is `DataDate` of it. */
  datatype Cell = Blank | Day(year: int, month: int, date: int)

  function DataDate(c: Cell): string
    requires c.Day? && 0 <= c.month <= 11 && c.date >= 1
  {
    FormatDate(c.year, c.month, c.date)
  }

  function Blanks(n: nat): (b: seq<Cell>)
    ensures |b| == n && forall i :: 0 <= i < n ==> b[i] == Blank
  {
    if n == 0 then [] else Blanks(n - 1) + [Blank]
  }

  /** Days 1 to `n` of the month, in order. */
  function DayCells(year: int, month: int, n: nat): (c: seq<Cell>)
    requires 0 <= month <= 11
    ensures |c| == n
  {
    if n == 0 then [] else DayCells(year, month, n - 1) + [Day(year, month, n)]
  }

  /** The `k`-th cell, from 0, is day `k + 1` with that day's `data-date`. */
  lemma {:induction false} DayCellAt(year: int, month: int, n: nat, k: nat)
    requires 0 <= month <= 11 && k < n
    ensures DayCells(year, month, n)[k] == Day(year, month, k + 1)
  {
    if k < n - 1 {
      DayCellAt(year, month, n - 1, k);
    }
  }

  /** The cells of the table row by row. */
  function Flatten(rows: seq<seq<Cell>>): seq<Cell> {
    if rows == [] then [] else Flatten(rows[..|rows| - 1]) + rows[|rows| - 1]
  }

  lemma FlattenAppend(rows: seq<seq<Cell>>, row: seq<Cell>)
    ensures Flatten(rows + [row]) == Flatten(rows) + row
  {
    assert (rows + [row])[..|rows|] == rows;
  }

  lemma Associative(a: seq<Cell>, b: seq<Cell>, c: seq<Cell>)
    ensures (a + b) + c == a + (b + c)
  {
  }

  /** The number of days placed once `n` cells past the leading blanks have
      been visited, in a month of `days` days. */
  function Placed(n: int, days: int): int {
    if n < 0 then 0 else if n > days then days else n
  }

  function Min(a: int, b: int): int {
    if a <= b then a else b
  }

  /** Row `i` of a table that lays `cells` out seven to a row, one column per
      weekday: the next seven cells, or as many as are left. */
  function Week(cells: seq<Cell>, i: nat): seq<Cell> {
    cells[Min(7 * i, |cells|)..Min(7 * i + 7, |cells|)]
  }

  lemma {:induction false} DayCellsPrefix(year: int, month: int, n: nat, m: nat)
    requires 0 <= month <= 11 && n <= m
    ensures DayCells(year, month, m)[..n] == DayCells(year, month, n)
  {
    if n < m {
      DayCellsPrefix(year, month, n, m - 1);
      assert DayCells(year, month, m)[..m - 1] == DayCells(year, month, m - 1);
    }
  }

  /** The blanks and the first `k` days are the table's first cells. */
  lemma CellsPrefix(year: int, month: int, firstDay: nat, k: nat, days: nat)
    requires 0 <= month <= 11 && k <= days
    ensures (Blanks(firstDay) + DayCells(year, month, days))[..firstDay + k]
         == Blanks(firstDay) + DayCells(year, month, k)
  {
    DayCellsPrefix(year, month, k, days);
    assert (Blanks(firstDay) + DayCells(year, month, days))[..firstDay + k]
        == Blanks(firstDay) + DayCells(year, month, days)[..k];
  }

  /** In a table laid out by weeks, day `d` sits in row `r` and column `c`
      where `firstDay + d - 1 == 7 * r + c`: the column of the first day's
      weekday, moved on by `d - 1` days. */
  lemma DayUnderWeekday(rows: seq<seq<Cell>>, year: int, month: int, firstDay: nat, days: nat, d: int,
                        r: int, c: int)
    requires 0 <= month <= 11 && firstDay <= 6 && days <= 31 && 1 <= d <= days
    requires 0 <= c < 7 && firstDay + d - 1 == 7 * r + c
    requires |rows| == 6
    requires forall i :: 0 <= i < 6 ==> rows[i] == Week(Blanks(firstDay) + DayCells(year, month, days), i)
    ensures 0 <= r < 6 && c < |rows[r]|
    ensures rows[r][c] == Day(year, month, d)
  {
    var cells := Blanks(firstDay) + DayCells(year, month, days);
    assert Min(7 * r, |cells|) == 7 * r && 7 * r + c < Min(7 * r + 7, |cells|);
    assert rows[r][c] == cells[7 * r + c];
    DayCellAt(year, month, days, d - 1);
  }

  /** `renderCalendar(month, year)`: the header text and six table rows. Row
      `i` holds the next seven cells of the leading blanks followed by the
      month's days, or what is left of them, so each day falls under its
      weekday (`DayUnderWeekday`), and every day appears once, in order. */
  method RenderCalendar(month: int, year: int) returns (title: string, rows: seq<seq<Cell>>)
    requires 0 <= month <= 11
    ensures title == MonthNames[month] + " " + IntToString(year)
    ensures |rows| == 6 && |rows[0]| == 7
    ensures forall i :: 0 <= i < 6 ==>
      rows[i] == Week(Blanks(FirstWeekday(year, month)) + DayCells(year, month, MonthLength(year, month)), i)
    ensures Flatten(rows) == Blanks(FirstWeekday(year, month)) + DayCells(year, month, MonthLength(year, month))
  {
    title := MonthNames[month] + " " + IntToString(year);
    var firstDay := FirstWeekday(year, month);
    var daysInMonth := MonthLength(year, month);
    rows := Grid(year, month, firstDay, daysInMonth);
  }

  /** The outer loop of `renderCalendar`: six table rows. */
  method Grid(year: int, month: int, firstDay: int, daysInMonth: int) returns (rows: seq<seq<Cell>>)
    requires 0 <= month <= 11 && 0 <= firstDay <= 6 && 28 <= daysInMonth <= 31
    ensures |rows| == 6 && |rows[0]| == 7
    ensures forall i :: 0 <= i < 6 ==> rows[i] == Week(Blanks(firstDay) + DayCells(year, month, daysInMonth), i)
    ensures Flatten(rows) == Blanks(firstDay) + DayCells(year, month, daysInMonth)
  {
    ghost var cells := Blanks(firstDay) + DayCells(year, month, daysInMonth);
    var date := 1;
    rows := [];
    var i := 0;
    while i < 6
      invariant 0 <= i <= 6 && |rows| == i
      invariant date - 1 == Placed(7 * i - firstDay, daysInMonth)
      invariant Flatten(rows) == Blanks(if i == 0 then 0 else firstDay) + DayCells(year, month, date - 1)
      invariant forall k :: 0 <= k < i ==> rows[k] == Week(cells, k)
      invariant i > 0 ==> |rows[0]| == 7
    {
      var row;
      ghost var date0 := date;
      row, date := FillRow(year, month, firstDay, daysInMonth, i, date, Flatten(rows));
      RowIsWeek(year, month, firstDay, daysInMonth, i, date0, date, Flatten(rows), row);
      FlattenAppend(rows, row);
      WeeksExtend(rows, row, cells);
      rows := rows + [row];
      i := i + 1;
    }
  }

  lemma WeeksExtend(rows: seq<seq<Cell>>, row: seq<Cell>, cells: seq<Cell>)
    requires forall k :: 0 <= k < |rows| ==> rows[k] == Week(cells, k)
    requires row == Week(cells, |rows|)
    ensures forall k :: 0 <= k < |rows| + 1 ==> (rows + [row])[k] == Week(cells, k)
  {
  }

  /** The inner loop of `renderCalendar`: row `i`, from day `date0` on; the
      row ends early, by `break`, once the month's days are used up, so it is
      a full week while at least seven cells remain. */
  method FillRow(year: int, month: int, firstDay: int, daysInMonth: int, i: int, date0: int,
                 ghost before: seq<Cell>)
    returns (row: seq<Cell>, date: int)
    requires 0 <= month <= 11 && 0 <= firstDay <= 6 && 28 <= daysInMonth <= 31 && 0 <= i < 6
    requires date0 - 1 == Placed(7 * i - firstDay, daysInMonth)
    requires before == Blanks(if i == 0 then 0 else firstDay) + DayCells(year, month, date0 - 1)
    ensures date - 1 == Placed(7 * (i + 1) - firstDay, daysInMonth)
    ensures |row| == Min(7 * i + 7, firstDay + daysInMonth) - Min(7 * i, firstDay + daysInMonth)
    ensures before + row == Blanks(firstDay) + DayCells(year, month, date - 1)
  {
    date := date0;
    ghost var blanks := if i == 0 then 0 else firstDay;
    row := [];
    var j := 0;
    while j < 7
      invariant 0 <= j <= 7 && |row| == j
      invariant blanks == if i == 0 && j < firstDay then j else firstDay
      invariant date - 1 == Placed(7 * i + j - firstDay, daysInMonth)
      invariant before + row == Blanks(blanks) + DayCells(year, month, date - 1)
    {
      if i == 0 && j < firstDay {
        PadBlank(before, row, blanks, year, month);
        row := row + [Blank];
        blanks := blanks + 1;
      } else if date > daysInMonth {
        break;
      } else {
        var cell := Day(year, month, date);
        PlaceDay(before, row, blanks, year, month, date - 1);
        row := row + [cell];
        date := date + 1;
      }
      j := j + 1;
    }
    RowIsWeek(year, month, firstDay, daysInMonth, i, date0, date, before, row);
  }

  /** One more leading blank, while no day has been placed. */
  lemma PadBlank(before: seq<Cell>, row: seq<Cell>, blanks: nat, year: int, month: int)
    requires 0 <= month <= 11
    requires before + row == Blanks(blanks) + DayCells(year, month, 0)
    ensures before + (row + [Blank]) == Blanks(blanks + 1) + DayCells(year, month, 0)
  {
    Associative(before, row, [Blank]);
  }

  /** One more day cell after the first `k` days. */
  lemma PlaceDay(before: seq<Cell>, row: seq<Cell>, blanks: nat, year: int, month: int, k: nat)
    requires 0 <= month <= 11
    requires before + row == Blanks(blanks) + DayCells(year, month, k)
    ensures before + (row + [Day(year, month, k + 1)]) == Blanks(blanks) + DayCells(year, month, k + 1)
  {
    Associative(before, row, [Day(year, month, k + 1)]);
    Associative(Blanks(blanks), DayCells(year, month, k), [Day(year, month, k + 1)]);
  }

  /** A row that carries the table from `date0 - 1` to `date - 1` placed days
      is the table's `i`-th week. */
  lemma RowIsWeek(year: int, month: int, firstDay: int, daysInMonth: int, i: int, date0: int, date: int,
                  before: seq<Cell>, row: seq<Cell>)
    requires 0 <= month <= 11 && 0 <= firstDay <= 6 && 28 <= daysInMonth <= 31 && 0 <= i < 6
    requires date0 - 1 == Placed(7 * i - firstDay, daysInMonth)
    requires date - 1 == Placed(7 * (i + 1) - firstDay, daysInMonth)
    requires before == Blanks(if i == 0 then 0 else firstDay) + DayCells(year, month, date0 - 1)
    requires before + row == Blanks(firstDay) + DayCells(year, month, date - 1)
    ensures |row| == Min(7 * i + 7, firstDay + daysInMonth) - Min(7 * i, firstDay + daysInMonth)
    ensures row == Week(Blanks(firstDay) + DayCells(year, month, daysInMonth), i)
  {
    var cells := Blanks(firstDay) + DayCells(year, month, daysInMonth);
    assert |before| == Min(7 * i, |cells|);
    assert |before + row| == Min(7 * i + 7, |cells|);
    CellsPrefix(year, month, firstDay, date - 1, daysInMonth);
    assert row == (before + row)[|before|..];
  }

  // ---------------------------------------------------------------------------
  // The page
  // ---------------------------------------------------------------------------

  /** The calendar's state: the month on show, the rendered rows, which day
      cell carries the `selected` class, and the `data-date` of the
      selected-date display, which survives a change of month. */
  class CalendarPage {
    var month: int
    var year: int
    var title: string
    var rows: seq<seq<Cell>>
    var selected: array<bool>
    var selectedDate: Option<string>

    /** The month on show is drawn as `RenderCalendar` draws it, week by
        week, with one highlight flag per day. */
    ghost predicate Valid()
      reads this
    {
      && 0 <= month <= 11
      && |rows| == 6
      && Flatten(rows) == Blanks(FirstWeekday(year, month)) + DayCells(year, month, MonthLength(year, month))
      && (forall i :: 0 <= i < 6 ==>
            rows[i] == Week(Blanks(FirstWeekday(year, month)) + DayCells(year, month, MonthLength(year, month)), i))
      && selected.Length == MonthLength(year, month)
    }

    /** Opening the page on today's month. */
    constructor(todayMonth: int, todayYear: int)
      requires 0 <= todayMonth <= 11
      ensures Valid()
      ensures month == todayMonth && year == todayYear && selectedDate == None
      ensures title == MonthNames[month] + " " + IntToString(year)
      ensures forall i :: 0 <= i < selected.Length ==> !selected[i]
    {
      month, year := todayMonth, todayYear;
      selectedDate := None;
      var t, r := RenderCalendar(todayMonth, todayYear);
      title, rows := t, r;
      selected := new bool[MonthLength(todayYear, todayMonth)](_ => false);
    }

    /** The `prev` button: one month back, the year following when the month
        wraps to December; the page is drawn afresh with nothing highlighted. */
    method Prev()
      requires Valid()
      modifies this`month, this`year, this`title, this`rows, this`selected
      ensures Valid()
      ensures 12 * year + month == 12 * old(year) + old(month) - 1
      ensures title == MonthNames[month] + " " + IntToString(year)
      ensures fresh(selected) && forall i :: 0 <= i < selected.Length ==> !selected[i]
    {
      month := if month == 0 then 11 else month - 1;
      year := if month == 11 then year - 1 else year;
      title, rows := RenderCalendar(month, year);
      selected := new bool[MonthLength(year, month)](_ => false);
    }

    /** The `next` button: one month forward. */
    method Next()
      requires Valid()
      modifies this`month, this`year, this`title, this`rows, this`selected
      ensures Valid()
      ensures 12 * year + month == 12 * old(year) + old(month) + 1
      ensures title == MonthNames[month] + " " + IntToString(year)
      ensures fresh(selected) && forall i :: 0 <= i < selected.Length ==> !selected[i]
    {
      month := if month == 11 then 0 else month + 1;
      year := if month == 0 then year + 1 else year;
      title, rows := RenderCalendar(month, year);
      selected := new bool[MonthLength(year, month)](_ => false);
    }

    /** A click on day `k + 1`: every day loses the highlight, that one gains
        it, and its `data-date` becomes the selected date. */
    method SelectDay(k: int)
      requires Valid() && 0 <= k < selected.Length
      modifies selected, this`selectedDate
      ensures Valid()
      ensures forall i :: 0 <= i < selected.Length ==> selected[i] == (i == k)
      ensures selectedDate == Some(FormatDate(year, month, k + 1))
    {
      var i := 0;
      while i < selected.Length
        invariant 0 <= i <= selected.Length
        invariant forall t :: 0 <= t < i ==> !selected[t]
      {
        selected[i] := false;
        i := i + 1;
      }
      selected[k] := true;
      assert forall i :: 0 <= i < selected.Length ==> selected[i] == (i == k);
      DayCellAt(year, month, selected.Length, k);
      selectedDate := Some(DataDate(DayCells(year, month, selected.Length)[k]));
    }
  }

  /** Month and year are determined by the month count `12 * year + month`, so
      `Next` after `Prev` (or `Prev` after `Next`) brings back the same month
      and year. */
  lemma MonthCountDetermines(year: int, month: int, year': int, month': int)
    requires 0 <= month <= 11 && 0 <= month' <= 11
    requires 12 * year + month == 12 * year' + month'
    ensures year == year' && month == month'
  {
  }

  // ---------------------------------------------------------------------------
  // Submitting the form
  // ---------------------------------------------------------------------------

  /** The JSON body the form posts; `phone` and `time` are always empty. */
  datatype BookingRequest =
    BookingRequest(name: string, email: string, agenda: string, date: string, phone: string, time: string)

  /** The submit handler: without a selected date (absent or empty) nothing is
      sent and the user is alerted; otherwise the request is posted. */
  function SubmitRequest(name: string, email: string, agenda: string, date: Option<string>)
    : (r: Option<BookingRequest>)
    ensures r.None? <==> date.None? || date.value == ""
    ensures r.Some? ==> r.value.date == date.value && r.value.phone == "" && r.value.time == ""
    ensures r.Some? ==> r.value.name == name && r.value.email == email && r.value.agenda == agenda
  {
    if date.None? || date.value == "" then None
    else Some(BookingRequest(name, email, agenda, date.value, "", ""))
  }

  /** What the backend keeps of the body: the model has no `phone` or `time`
      field, so those two are dropped. */
  function Received(b: BookingRequest): Store.Meeting {
    Store.Meeting(b.name, b.email, b.agenda, b.date)
  }

  /** For a four-digit year, the selected day's `data-date` is the ISO date of
      that day, so the backend's date check accepts it as that very day. */
  lemma SelectedDayAccepted(name: string, email: string, agenda: string, year: int, month: int, day: int)
    requires 1000 <= year <= 9999 && 0 <= month <= 11 && 1 <= day <= MonthLength(year, month)
    ensures var r := SubmitRequest(name, email, agenda, Some(FormatDate(year, month, day)));
      r.Some? && Meeting.ParseDate(Received(r.value).date) == Some(Date(year, month + 1, day))
  {
    var d := Date(year, month + 1, day);
    assert ValidDate(d);
    var text := FormatDate(year, month, day);
    FormatIsIso(year, month, day);
    Meeting.ParseIsoDate(d);
    Forwarded(name, email, agenda, text);
  }

  /** A non-empty selected date reaches the backend unchanged. */
  lemma Forwarded(name: string, email: string, agenda: string, text: string)
    requires text != ""
    ensures var r := SubmitRequest(name, email, agenda, Some(text));
      r.Some? && Received(r.value).date == text
  {
  }

  /** For a four-digit year the `data-date` text is the ISO date. */
  lemma FormatIsIso(year: int, month: int, day: int)
    requires 1000 <= year <= 9999 && 0 <= month <= 11 && 1 <= day <= DaysInMonth(year, month + 1)
    ensures FormatDate(year, month, day) == IsoDate(Date(year, month + 1, day))
  {
    var y := NatToString(year);
    assert Pow10(3) == 1000 && Pow10(4) == 10000;
    NatToStringLength(year, 3);
    assert IntToString(year) == y == PadZero(y, 4);
    PadZeroTwoDigits(month + 1);
    PadZeroTwoDigits(day);
    SameText(y, TwoDigits(month + 1), TwoDigits(day));
  }

  lemma SameText(y: string, mm: string, dd: string)
    requires |y| == 4
    ensures y + "-" + mm + "-" + dd == PadZero(y, 4) + "-" + mm + "-" + dd
  {
  }

  /** A year below 1000 is written without padding, and the backend refuses
      the date. */
  lemma ShortYearRefused()
    ensures Meeting.ParseDate(FormatDate(999, 0, 1)) == None
  {
    assert FormatDate(999, 0, 1)[3] == '-';
  }
}
