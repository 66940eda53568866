/** The Gregorian calendar counted day by day, and the arithmetic of http1/date.v that
    jumps to a day or to its number. */
module Calendar {
  import opened Basics

  datatype Date = Date(year: nat, month: nat, day: nat)

  predicate Leap(y: nat) {
    y % 4 == 0 && (y % 100 != 0 || y % 400 == 0)
  }

  function MonthLength(y: nat, m: nat): (n: nat)
    requires 1 <= m <= 12
    ensures 28 <= n <= 31
  {
    if m == 2 then if Leap(y) then 29 else 28
    else if m == 4 || m == 6 || m == 9 || m == 11 then 30
    else 31
  }

  predicate Valid(d: Date) {
    1 <= d.month <= 12 && 1 <= d.day <= MonthLength(d.year, d.month)
  }

  /** The day after. */
  function Next(d: Date): (r: Date)
    requires Valid(d)
    ensures Valid(r)
  {
    if d.day < MonthLength(d.year, d.month) then d.(day := d.day + 1)
    else if d.month < 12 then Date(d.year, d.month + 1, 1)
    else Date(d.year + 1, 1, 1)
  }

  /** Day n of the epoch, counted from 1 January 1970. */
  function DateOf(n: nat): (d: Date)
    ensures Valid(d) && d.year >= 1970
  {
    if n == 0 then Date(1970, 1, 1) else Next(DateOf(n - 1))
  }

  /** Its weekday, Monday 0; day 0 was a Thursday. */
  function Weekday(n: nat): (w: nat)
    ensures w < 7
  {
    if n == 0 then 3 else (Weekday(n - 1) + 1) % 7
  }

  lemma {:induction false} WeekdayIs(n: nat)
    ensures Weekday(n) == (n + 3) % 7
  {
    if n > 0 {
      WeekdayIs(n - 1);
      SevenOn(n + 2);
    }
  }

  lemma SevenOn(x: nat)
    ensures (x % 7 + 1) % 7 == (x + 1) % 7
  {
    var q, r := x / 7, x % 7;
    if r < 6 {
      DivUnique(x + 1, 7, q, r + 1);
    } else {
      DivUnique(x + 1, 7, q + 1, 0);
    }
  }

  /** A year that begins in March, so that a leap day ends it: the year, and the month from
      March as 0. */
  function MarchYear(d: Date): int {
    if d.month <= 2 then d.year - 1 else d.year
  }

  function MarchMonth(m: nat): (mp: nat)
    requires 1 <= m <= 12
    ensures mp <= 11
  {
    if m > 2 then m - 3 else m + 9
  }

  /** Days before month mp of a March year. */
  function Before(mp: nat): nat {
    (153 * mp + 2) / 5
  }

  /** Days before March year y. */
  function YearStart(y: nat): int {
    365 * y + y / 4 - y / 100 + y / 400
  }

  /** The number of a day, as parse_imf computes it; the day need not be one of the month. */
  function DayNumber(year: nat, month: nat, day: nat): int
    requires 1 <= month <= 12
  {
    var y := if month <= 2 then year - 1 else year;
    var era := y / 400;
    var yoe := y - era * 400;
    era * 146097 + (yoe * 365 + yoe / 4 - yoe / 100 + (Before(MarchMonth(month)) + day - 1)) - 719468
  }

  function DaysFrom(d: Date): int
    requires Valid(d)
  {
    DayNumber(d.year, d.month, d.day)
  }

  lemma EraSplit(era: nat, yoe: nat)
    requires yoe < 400
    ensures YearStart(era * 400 + yoe) == era * 146097 + (yoe * 365 + yoe / 4 - yoe / 100)
  {
    var y := era * 400 + yoe;
    DivUnique(y, 4, era * 100 + yoe / 4, yoe % 4);
    DivUnique(y, 100, era * 4 + yoe / 100, yoe % 100);
    DivUnique(y, 400, era, yoe);
  }

  lemma DaysFromIs(d: Date)
    requires Valid(d) && d.year >= 1
    ensures DaysFrom(d) == YearStart(MarchYear(d)) + Before(MarchMonth(d.month)) + d.day - 1 - 719468
  {
    hide YearStart, Before;
    var y := MarchYear(d);
    EraSplit(y / 400, y - (y / 400) * 400);
  }

  /** A March year is a year long, a leap day more when the next one is a leap year. */
  lemma YearLong(y: nat)
    ensures var next := y + 1; YearStart(next) == YearStart(y) + 365 + if Leap(next) then 1 else 0
  {
    var next := y + 1;
    Counted(y, 4);
    Counted(y, 100);
    Counted(y, 400);
    LeapDivides(next);
  }

  lemma Counted(y: nat, k: nat)
    requires k == 4 || k == 100 || k == 400
    ensures (y + 1) / k == y / k + if (y + 1) % k == 0 then 1 else 0
  {
    var q, r := y / k, y % k;
    assert y == q * k + r;
    if r + 1 < k {
      DivUnique(y + 1, k, q, r + 1);
    } else {
      MulSucc(q, k);
      DivUnique(y + 1, k, q + 1, 0);
    }
  }

  lemma LeapDivides(y: nat)
    ensures y % 400 == 0 ==> y % 100 == 0
    ensures y % 100 == 0 ==> y % 4 == 0
  {
    if y % 400 == 0 {
      DivUnique(y, 100, 4 * (y / 400), 0);
    }
    if y % 100 == 0 {
      DivUnique(y, 4, 25 * (y / 100), 0);
    }
  }

  lemma MonthsFollow(m: nat, y: nat)
    requires 1 <= m <= 12 && m != 2
    ensures MarchMonth(m) <= 10 && Before(MarchMonth(m) + 1) == Before(MarchMonth(m)) + MonthLength(y, m)
  {
  }

  /** One day on is one more. */
  lemma NextCounts(d: Date)
    requires Valid(d) && d.year >= 1
    ensures DaysFrom(Next(d)) == DaysFrom(d) + 1
  {
    hide YearStart, Before, DaysFrom, Leap;
    var e := Next(d);
    DaysFromIs(d);
    DaysFromIs(e);
    if d.day == MonthLength(d.year, d.month) {
      if d.month == 2 {
        YearLong(d.year - 1);
        Starts();
      } else {
        MonthsFollow(d.month, d.year);
      }
    }
  }

  lemma {:induction false} CountsUp(n: nat)
    ensures DaysFrom(DateOf(n)) == n
  {
    hide DaysFrom, Next;
    if n == 0 {
      Epoch();
    } else {
      CountsUp(n - 1);
      NextCounts(DateOf(n - 1));
    }
  }

  lemma Epoch()
    ensures DaysFrom(Date(1970, 1, 1)) == 0
  {
  }

  /** The civil date of a day, as format_imf computes it. */
  function Civil(days: nat): (d: Date) {
    var z := days + 719468;
    var era := z / 146097;
    var doe := z - era * 146097;
    var yoe := YearOfEra(doe);
    var doy := doe - (365 * yoe + yoe / 4 - yoe / 100);
    var mp := (5 * doy + 2) / 153;
    var day := doy - (153 * mp + 2) / 5 + 1;
    var month := if mp < 10 then mp + 3 else mp - 9;
    var year := era * 400 + yoe + if month <= 2 then 1 else 0;
    Date(if year >= 0 then year else 0, if month >= 0 then month else 0, if day >= 0 then day else 0)
  }

  function YearOfEra(doe: int): int {
    (doe - doe / 1460 + doe / 36524 - doe / 146096) / 365
  }

  /** Day doy of year yoe of an era is in year yoe: yoe in centuries, leap cycles and
      years. */
  lemma FindsYear(c: nat, a: nat, b: nat, doy: nat)
    requires c < 4 && a < 25 && b < 4 && doy <= 365 && (doy == 365 ==> b == 3 && (a < 24 || c == 3))
    ensures YearOfEra(36524 * c + 1461 * a + 365 * b + doy) == 100 * c + 4 * a + b
  {
    hide YearOfEra;
    var doe := 36524 * c + 1461 * a + 365 * b + doy;
    Centuries(c, 1461 * a + 365 * b + doy);
    var w := 24 * c + a + 365 * b + doy;
    var q := if w >= 1460 then 1 else 0;
    DivUnique(doe, 1460, 25 * c + a + q, w - 1460 * q);
    DivUnique(365 * (100 * c + 4 * a + b) + doy - q, 365, 100 * c + 4 * a + b, doy - q);
    YearOfEraIs(doe);
  }

  /** The centuries before a day of an era, of which the last may have a day more. */
  lemma Centuries(c: nat, r: nat)
    requires c < 4 && r <= 36524 && (r == 36524 ==> c == 3)
    ensures var doe := 36524 * c + r; doe / 36524 - doe / 146096 == c
  {
    var doe := 36524 * c + r;
    if r == 36524 {
      DivUnique(doe, 36524, 4, 0);
      DivUnique(doe, 146096, 1, 0);
    } else {
      DivUnique(doe, 36524, c, r);
      DivUnique(doe, 146096, 0, doe);
    }
  }

  lemma YearOfEraIs(doe: int)
    ensures YearOfEra(doe) == (doe - doe / 1460 + (doe / 36524 - doe / 146096)) / 365
  {
  }

  lemma YearParts(yoe: nat) returns (c: nat, a: nat, b: nat)
    requires yoe < 400
    ensures c < 4 && a < 25 && b < 4 && yoe == 100 * c + 4 * a + b
    ensures 365 * yoe + yoe / 4 - yoe / 100 == 36524 * c + 1461 * a + 365 * b
  {
    c, a, b := yoe / 100, (yoe % 100) / 4, yoe % 4;
    assert yoe == 100 * c + 4 * a + b;
    DivUnique(yoe, 4, 25 * c + a, b);
  }

  /** The months of a March year found by their days. */
  lemma FindsMonth(mp: nat, day: nat)
    requires mp <= 11 && 1 <= day <= 31 && (if mp < 11 then Before(mp) + day <= Before(mp + 1) else day <= 29)
    ensures (5 * (Before(mp) + day - 1) + 2) / 153 == mp
  {
  }

  lemma MonthFits(d: Date)
    requires Valid(d)
    ensures var mp := MarchMonth(d.month);
            if mp < 11 then Before(mp) + d.day <= Before(mp + 1) else d.day <= 29 && (d.day == 29 ==> Leap(d.year))
  {
    hide Leap;
    if d.month != 2 {
      MonthsFollow(d.month, d.year);
    }
  }

  /** A leap year's number in its era. */
  lemma LeapParts(y: nat, era: nat, c: nat, a: nat, b: nat)
    requires y == era * 400 + 100 * c + 4 * a + b && c < 4 && a < 25 && b < 4 && Leap(y + 1)
    ensures b == 3 && (a < 24 || c == 3)
  {
    var x := y + 1;
    DivUnique(x, 4, era * 100 + 25 * c + a + (b + 1) / 4, (b + 1) % 4);
    if b == 3 && a == 24 {
      DivUnique(x, 100, era * 4 + c + 1, 0);
      if c < 3 {
        DivUnique(x, 400, era, 100 * (c + 1));
      }
    }
  }

  /** Jumping to the number of a date jumps back to the date. */
  lemma CivilOf(d: Date)
    requires Valid(d) && d.year >= 1 && DaysFrom(d) >= 0
    ensures Civil(DaysFrom(d)) == d
  {
    hide YearOfEra, Leap, Before, Civil, DaysFrom, YearStart;
    var y, mp := MarchYear(d), MarchMonth(d.month);
    var era, yoe := y / 400, y % 400;
    var doy := Before(mp) + d.day - 1;
    var c, a, b := YearParts(yoe);
    MonthFits(d);
    Starts();
    BeforeGrows(mp);
    if doy == 365 {
      LeapParts(y, era, c, a, b);
    }
    FindsYear(c, a, b, doy);
    FindsMonth(mp, d.day);
    DaysFromIs(d);
    EraSplit(era, yoe);
    YearStartBelow(c, a, b, doy);
    CivilFrom(era, yoe, mp, d.day, doy);
  }

  lemma YearStartBelow(c: nat, a: nat, b: nat, doy: nat)
    requires c < 4 && a < 25 && b < 4 && doy <= 365 && (doy == 365 ==> b == 3 && (a < 24 || c == 3))
    ensures 36524 * c + 1461 * a + 365 * b + doy < 146097
  {
  }

  /** The arithmetic, step by step. */
  lemma CivilFrom(era: nat, yoe: nat, mp: nat, day: nat, doy: nat)
    requires yoe < 400 && mp <= 11 && day >= 1 && doy == Before(mp) + day - 1
    requires var doe := 365 * yoe + yoe / 4 - yoe / 100 + doy;
             && 0 <= doe < 146097 && YearOfEra(doe) == yoe && era * 146097 + doe >= 719468
    requires (5 * doy + 2) / 153 == mp
    ensures var month := if mp < 10 then mp + 3 else mp - 9;
            Civil(era * 146097 + (365 * yoe + yoe / 4 - yoe / 100 + doy) - 719468)
            == Date(era * 400 + yoe + (if month <= 2 then 1 else 0), month, day)
  {
    hide YearOfEra;
    var doe := 365 * yoe + yoe / 4 - yoe / 100 + doy;
    var z := era * 146097 + doe;
    DivUnique(z, 146097, era, doe);
    BeforeIs(mp);
  }

  lemma Starts()
    ensures Before(0) == 0 && Before(11) == 337
  {
  }

  lemma BeforeIs(mp: nat)
    ensures Before(mp) == (153 * mp + 2) / 5
  {
  }

  lemma BeforeGrows(mp: nat)
    requires mp <= 11
    ensures Before(mp) <= 337 && (mp < 11 ==> Before(mp + 1) <= 337)
  {
  }

  /** The arithmetic names each day as counting them does. */
  lemma CivilCounts(n: nat)
    ensures Civil(n) == DateOf(n)
  {
    hide Civil, DaysFrom, DateOf;
    CountsUp(n);
    CivilOf(DateOf(n));
  }

  lemma {:induction false} YearsGrow(x: nat, y: nat)
    requires x <= y
    ensures YearStart(x) + 365 * (y - x) <= YearStart(y)
  {
    hide YearStart, Leap;
    if x < y {
      YearsGrow(x, y - 1);
      YearLong(y - 1);
    }
  }

  /** The last day of year 9999 is day 2932896. */
  lemma FourDigitYear(n: nat)
    ensures DateOf(n).year <= 9999 <==> n <= 2932896
  {
    hide YearStart, Before, DaysFrom, DateOf, Leap;
    CountsUp(n);
    var d := DateOf(n);
    DaysFromIs(d);
    LateStart();
    BeforeFebruary(MarchMonth(d.month));
    if d.year >= 10000 {
      YearsGrow(9999, MarchYear(d));
    } else {
      BeforeDecember(MarchMonth(d.month));
      YearsGrow(MarchYear(d), 9999);
    }
  }

  lemma BeforeDecember(mp: nat)
    requires mp <= 11
    ensures Before(mp) <= 337 && (mp <= 9 ==> Before(mp) <= 275) && (mp <= 8 ==> Before(mp) <= 245)
  {
  }

  lemma LateStart()
    ensures YearStart(9999) == 3652059
  {
  }

  lemma BeforeFebruary(mp: nat)
    requires mp <= 11
    ensures mp >= 10 ==> Before(mp) >= 306
  {
  }
}
