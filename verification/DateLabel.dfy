/** The relative date label of the sidebar badge, and the fixtures built to show it. */
module DateLabel {
  import opened Decimal
  import opened Wrappers

  datatype Date = Date(year: int, month: int, day: int)

  predicate Leap(year: int) {
    year % 4 == 0 && (year % 100 != 0 || year % 400 == 0)
  }

  function DaysInMonth(year: int, month: int): (n: int)
    requires 1 <= month <= 12
    ensures 28 <= n <= 31
  {
    if month == 2 then (if Leap(year) then 29 else 28)
    else if month == 4 || month == 6 || month == 9 || month == 11 then 30
    else 31
  }

  predicate Valid(d: Date) {
    1 <= d.year <= 9999 && 1 <= d.month <= 12 && 1 <= d.day <= DaysInMonth(d.year, d.month)
  }

  predicate Before(a: Date, b: Date) {
    || a.year < b.year
    || (a.year == b.year && (a.month < b.month || (a.month == b.month && a.day < b.day)))
  }

  /** The order of the calendar, dates being read as year, month and day digits. */
  lemma BeforeIsCalendarOrder(a: Date, b: Date)
    requires Valid(a) && Valid(b)
    ensures Before(a, b) <==> a.year * 10000 + a.month * 100 + a.day < b.year * 10000 + b.month * 100 + b.day
  {
  }

  function DaysBeforeMonth(year: int, month: int): int
    requires 1 <= month <= 12
  {
    if month == 1 then 0 else DaysBeforeMonth(year, month - 1) + DaysInMonth(year, month - 1)
  }

  /** Days since 1 January of year 1, which was a Monday. */
  function DayNumber(d: Date): int
    requires Valid(d)
  {
    var y := d.year - 1;
    365 * y + y / 4 - y / 100 + y / 400 + DaysBeforeMonth(d.year, d.month) + d.day - 1
  }

  function Weekday(n: int): char {
    "月火水木金土日"[n % 7]
  }

  function JapaneseWeekday(d: Date): char
    requires Valid(d)
  {
    Weekday(DayNumber(d))
  }

  function NextDay(d: Date): Date
    requires Valid(d)
  {
    if d.day < DaysInMonth(d.year, d.month) then Date(d.year, d.month, d.day + 1)
    else if d.month < 12 then Date(d.year, d.month + 1, 1)
    else Date(d.year + 1, 1, 1)
  }

  lemma YearLength(year: int)
    ensures DaysBeforeMonth(year, 12) + 31 == if Leap(year) then 366 else 365
  {
    assert DaysBeforeMonth(year, 2) == 31;
    assert DaysBeforeMonth(year, 3) == 31 + DaysInMonth(year, 2);
    assert DaysBeforeMonth(year, 5) == 92 + DaysInMonth(year, 2);
    assert DaysBeforeMonth(year, 7) == DaysBeforeMonth(year, 5) + 61;
    assert DaysBeforeMonth(year, 9) == DaysBeforeMonth(year, 7) + 62;
    assert DaysBeforeMonth(year, 11) == DaysBeforeMonth(year, 9) + 61;
  }

  lemma LeapDays(year: int)
    requires 1 <= year
    ensures year / 4 - year / 100 + year / 400 - ((year - 1) / 4 - (year - 1) / 100 + (year - 1) / 400)
         == if Leap(year) then 1 else 0
  {
    Quotient(year, 4);
    Quotient(year, 100);
    Quotient(year, 400);
  }

  lemma Quotient(n: int, d: int)
    requires 1 <= n && d in {4, 100, 400}
    ensures n / d == (n - 1) / d + if n % d == 0 then 1 else 0
  {
  }

  lemma NextDayNumber(d: Date)
    requires Valid(d) && Valid(NextDay(d))
    ensures DayNumber(NextDay(d)) == DayNumber(d) + 1
  {
    if d.day == DaysInMonth(d.year, d.month) && d.month == 12 {
      YearLength(d.year);
      LeapDays(d.year);
    }
  }

  lemma WeekdayAfter(n: int)
    ensures (Weekday(n), Weekday(n + 1)) in
              {('月', '火'), ('火', '水'), ('水', '木'), ('木', '金'),
               ('金', '土'), ('土', '日'), ('日', '月')}
  {
    var k := n % 7;
    assert n + 1 == 7 * (n / 7) + (k + 1);
    assert (n + 1) % 7 == if k == 6 then 0 else k + 1;
  }

  /** The weekdays follow each other in their usual order, and 1 January 2024 was a Monday. */
  lemma WeekdaysFollow(d: Date)
    requires Valid(d) && Valid(NextDay(d))
    ensures (JapaneseWeekday(d), JapaneseWeekday(NextDay(d))) in
              {('月', '火'), ('火', '水'), ('水', '木'), ('木', '金'),
               ('金', '土'), ('土', '日'), ('日', '月')}
    ensures JapaneseWeekday(Date(2024, 1, 1)) == '月'
  {
    NextDayNumber(d);
    WeekdayAfter(DayNumber(d));
    assert DayNumber(Date(2024, 1, 1)) == 738885;
  }

  // ---- The label

  predicate InPreviousMonth(d: Date, today: Date) {
    if today.month > 1 then d.year == today.year && d.month == today.month - 1
    else d.year == today.year - 1 && d.month == 12
  }

  /** The same day of last month, clamped to that month; nothing in the calendar's first month. */
  function Boundary(today: Date): (b: Option<Date>)
    requires Valid(today)
    ensures b.Some? ==> Valid(b.value)
  {
    var month := if today.month > 1 then today.month - 1 else 12;
    var year := if today.month > 1 then today.year else today.year - 1;
    var day := if today.day < DaysInMonth(year, month) then today.day else DaysInMonth(year, month);
    if year < 1 then None else Some(Date(year, month, day))
  }

  /** `(曜)` on recent dates, nothing otherwise. */
  function WeekdaySuffix(value: Date, today: Date): (suffix: string)
    requires Valid(value) && Valid(today) && Boundary(today).Some?
    ensures suffix != [] ==> suffix[0] == '('
  {
    if !Before(value, Boundary(today).value) && Before(value, today) then ['(', JapaneseWeekday(value), ')'] else ""
  }

  function DayText(day: nat, weekday: string): string {
    Print(day) + ("日" + weekday)
  }

  function MonthDayText(month: nat, day: nat, weekday: string): string {
    Print(month) + ("/" + (Print(day) + weekday))
  }

  function FullText(yy: nat, month: nat, day: nat, weekday: string): string
    requires yy < 100
  {
    "'" + (Pad2(yy) + ("/" + MonthDayText(month, day, weekday)))
  }

  /** The label, or nothing where the boundary date does not exist. */
  function RelativeLabel(value: Date, today: Date): Option<string>
    requires Valid(value) && Valid(today)
  {
    if value == today then Some("本日")
    else if Boundary(today).None? then None
    else
      var weekday := WeekdaySuffix(value, today);
      if value.year == today.year && value.month == today.month then Some(DayText(value.day, weekday))
      else if value.year == today.year then Some(MonthDayText(value.month, value.day, weekday))
      else Some(FullText(value.year % 100, value.month, value.day, weekday))
  }

  /** Length of the digits a text starts with. */
  function DigitRun(s: string): (n: nat)
    ensures n <= |s| && AllDigits(s[..n])
    ensures n < |s| ==> !IsDigit(s[n])
  {
    if s == [] || !IsDigit(s[0]) then 0
    else
      var n := 1 + DigitRun(s[1..]);
      assert s[..n] == [s[0]] + s[1..][..n - 1];
      n
  }

  /** A printed number followed by a non-digit is read back whole. */
  lemma DigitRunOfPrinted(n: nat, rest: string)
    requires rest != [] ==> !IsDigit(rest[0])
    ensures DigitRun(Print(n) + rest) == |Print(n)|
    ensures (Print(n) + rest)[..|Print(n)|] == Print(n) && (Print(n) + rest)[|Print(n)|..] == rest
  {
    var s := Print(n) + rest;
    var k := DigitRun(s);
    assert s == s[..k] + s[k..];
    DigitRunUnique(Print(n), s[..k], rest, s[k..]);
  }

  /** The number a text starts with, and the text after one separator. */
  function Leading(s: string): nat {
    Value(s[..DigitRun(s)])
  }

  function AfterSeparator(s: string): string {
    if DigitRun(s) < |s| then s[DigitRun(s) + 1..] else ""
  }

  datatype Shape = TodayShape | DayShape | MonthDayShape | FullShape

  function ShapeOf(text: string): Shape {
    if text == "本日" then TodayShape
    else if text != [] && text[0] == '\'' then FullShape
    else if DigitRun(text) < |text| && text[DigitRun(text)] == '/' then MonthDayShape
    else DayShape
  }

  /** Reads a label back, given today and the first of the hundred years dates come from. */
  function Decode(text: string, today: Date, firstYear: int): Date {
    match ShapeOf(text)
    case TodayShape => today
    case DayShape => Date(today.year, today.month, Leading(text))
    case MonthDayShape => Date(today.year, Leading(text), Leading(AfterSeparator(text)))
    case FullShape =>
      var digits := text[1..];
      var rest := AfterSeparator(digits);
      Date(firstYear + (Leading(digits) - firstYear) % 100, Leading(rest), Leading(AfterSeparator(rest)))
  }

  /** The label loses nothing on any hundred consecutive years that contain today. */
  lemma {:induction false} LabelHasLeftInverse(value: Date, today: Date, firstYear: int)
    requires Valid(value) && Valid(today)
    requires firstYear <= value.year < firstYear + 100
    requires firstYear <= today.year < firstYear + 100
    requires RelativeLabel(value, today).Some?
    ensures Decode(RelativeLabel(value, today).value, today, firstYear) == value
  {
    if value == today {
    } else {
      var weekday := WeekdaySuffix(value, today);
      if value.year != today.year {
        FullDecoded(value, today, firstYear, weekday);
      } else if value.month != today.month {
        MonthDayReadBack(value.month, value.day, weekday);
      } else {
        DayReadBack(value.day, weekday);
      }
    }
  }

  lemma FullDecoded(value: Date, today: Date, firstYear: int, weekday: string)
    requires Valid(value) && (weekday != [] ==> !IsDigit(weekday[0]))
    requires firstYear <= value.year < firstYear + 100
    ensures Decode(FullText(value.year % 100, value.month, value.day, weekday), today, firstYear) == value
  {
    var yy := value.year % 100;
    FullPartsReadBack(yy, value.month, value.day, weekday, today, firstYear);
    CenturyWindow(value.year, firstYear);
  }

  lemma FullPartsReadBack(yy: nat, month: nat, day: nat, weekday: string, today: Date, firstYear: int)
    requires yy < 100 && (weekday != [] ==> !IsDigit(weekday[0]))
    ensures Decode(FullText(yy, month, day, weekday), today, firstYear)
            == Date(firstYear + (yy - firstYear) % 100, month, day)
  {
    FullReadBack(yy, month, day, weekday);
    MonthDayReadBack(month, day, weekday);
  }

  lemma CenturyWindow(year: int, firstYear: int)
    requires firstYear <= year < firstYear + 100
    ensures firstYear + (year % 100 - firstYear) % 100 == year
  {
    var q := year / 100;
    assert year % 100 - firstYear == year - firstYear - 100 * q;
    assert (year - firstYear - 100 * q) % 100 == year - firstYear;
  }

  lemma DayReadBack(day: nat, weekday: string)
    ensures var s := DayText(day, weekday);
      ShapeOf(s) == DayShape && Leading(s) == day
  {
    var s := DayText(day, weekday);
    DigitRunOfPrinted(day, "日" + weekday);
    assert s[0] == Print(day)[0];
    assert s[|Print(day)|] == s[|Print(day)|..][0] == '日';
  }

  lemma MonthDayReadBack(month: nat, day: nat, weekday: string)
    requires weekday != [] ==> !IsDigit(weekday[0])
    ensures var s := MonthDayText(month, day, weekday);
      && ShapeOf(s) == MonthDayShape
      && Leading(s) == month && Leading(AfterSeparator(s)) == day
  {
    var s := MonthDayText(month, day, weekday);
    DigitRunOfPrinted(month, "/" + (Print(day) + weekday));
    DigitRunOfPrinted(day, weekday);
    assert s[0] == Print(month)[0];
    assert s[|Print(month)|..] == "/" + (Print(day) + weekday);
    assert s[|Print(month)| + 1..] == s[|Print(month)|..][1..] == Print(day) + weekday;
  }

  lemma FullReadBack(yy: nat, month: nat, day: nat, weekday: string)
    requires yy < 100
    ensures var s := FullText(yy, month, day, weekday);
      && ShapeOf(s) == FullShape
      && Leading(s[1..]) == yy && AfterSeparator(s[1..]) == MonthDayText(month, day, weekday)
  {
    var s := FullText(yy, month, day, weekday);
    var rest := MonthDayText(month, day, weekday);
    var digits := s[1..];
    assert digits == Pad2(yy) + ("/" + rest);
    var k := DigitRun(digits);
    assert digits == digits[..k] + digits[k..];
    DigitRunUnique(Pad2(yy), digits[..k], "/" + rest, digits[k..]);
    assert digits[k + 1..] == digits[k..][1..] == rest;
  }

  /** The weekday suffix appears exactly on the dates before today that are no earlier
      than any day of last month up to today's day number. */
  lemma WeekdaySuffixWindow(value: Date, today: Date)
    requires Valid(value) && Valid(today) && RelativeLabel(value, today).Some?
    ensures '(' in RelativeLabel(value, today).value
       <==> Before(value, today)
            && forall b :: Valid(b) && InPreviousMonth(b, today) && b.day <= today.day ==> !Before(value, b)
  {
    if value != today {
      var boundary := Boundary(today).value;
      assert InPreviousMonth(boundary, today) && boundary.day <= today.day;
      assert forall b :: Valid(b) && InPreviousMonth(b, today) && b.day <= today.day ==> b.day <= boundary.day;
      DigitsHaveNoParenthesis(Print(value.day));
      DigitsHaveNoParenthesis(Print(value.month));
      DigitsHaveNoParenthesis(Pad2(value.year % 100));
    }
  }

  lemma DigitsHaveNoParenthesis(s: string)
    requires AllDigits(s)
    ensures '(' !in s
  {
  }

  // ---- Fixtures

  datatype Fixture = Fixture(name: string, date: Date, badge: string)

  /** Five sidebar fixtures derived from today; nothing when one of the dates does not exist. */
  function MakeFixtures(today: Date): Option<seq<Fixture>>
    requires Valid(today)
  {
    var middle := Date(today.year, today.month, if today.day != 1 then 1 else 2);
    var oneDigit := Date(today.year, if today.month != 1 then 1 else 2, 2);
    var atEnd := Date(today.year - 1, today.month, 2);
    if !Valid(middle) || !Valid(oneDigit) || !Valid(atEnd) then None
    else
      var middleLabel, atEndLabel, oneDigitLabel :=
        RelativeLabel(middle, today), RelativeLabel(atEnd, today), RelativeLabel(oneDigit, today);
      if middleLabel.None? || atEndLabel.None? || oneDigitLabel.None? then None
      else Some([
        Fixture("date_at_start", today, "本日"),
        Fixture("date_in_middle", middle, middleLabel.value),
        Fixture("date_at_end", atEnd, atEndLabel.value),
        Fixture("one_digit_month_day", oneDigit, oneDigitLabel.value),
        Fixture("long_name_keeps_badge_visible", today, "本日")])
  }

  lemma LabelShape(value: Date, today: Date)
    requires Valid(value) && Valid(today) && RelativeLabel(value, today).Some?
    ensures ShapeOf(RelativeLabel(value, today).value) ==
            if value == today then TodayShape
            else if value.year == today.year && value.month == today.month then DayShape
            else if value.year == today.year then MonthDayShape
            else FullShape
  {
    if value != today {
      var weekday := WeekdaySuffix(value, today);
      DayReadBack(value.day, weekday);
      MonthDayReadBack(value.month, value.day, weekday);
      FullReadBack(value.year % 100, value.month, value.day, weekday);
    }
  }

  predicate Shows(fixtures: seq<Fixture>, shape: Shape) {
    exists i :: 0 <= i < |fixtures| && ShapeOf(fixtures[i].badge) == shape
  }

  /** The fixtures exist exactly from year 2 on, and then show each of the four shapes. */
  lemma {:induction false} FixturesCoverEveryShape(today: Date)
    requires Valid(today)
    ensures MakeFixtures(today).Some? <==> today.year >= 2
    ensures today.year >= 2 ==>
              forall shape: Shape :: Shows(MakeFixtures(today).value, shape)
  {
    if today.year >= 2 {
      var fixtures := MakeFixtures(today).value;
      LabelShape(fixtures[1].date, today);
      LabelShape(fixtures[2].date, today);
      LabelShape(fixtures[3].date, today);
      assert ShapeOf(fixtures[0].badge) == TodayShape;
      assert ShapeOf(fixtures[1].badge) == DayShape;
      assert ShapeOf(fixtures[2].badge) == FullShape;
      assert ShapeOf(fixtures[3].badge) == MonthDayShape;
    }
  }
}
