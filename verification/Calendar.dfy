/** The date phrases procurement accepts, on the Gregorian calendar of years 1 to 9999. */
module Calendar {
  import opened Wrappers

  datatype Date = Date(year: int, month: int, day: int)

  predicate IsLeap(year: int) {
    year % 4 == 0 && (year % 100 != 0 || year % 400 == 0)
  }

  function DaysInMonth(year: int, month: int): int {
    if month == 2 then (if IsLeap(year) then 29 else 28)
    else if month in {4, 6, 9, 11} then 30
    else 31
  }

  predicate IsDate(d: Date) {
    1 <= d.year <= 9999 && 1 <= d.month <= 12 && 1 <= d.day <= DaysInMonth(d.year, d.month)
  }

  function DaysBeforeMonth(year: int, month: int): int
    requires 1 <= month <= 12
    decreases month
  {
    if month == 1 then 0 else DaysBeforeMonth(year, month - 1) + DaysInMonth(year, month - 1)
  }

  function DaysBeforeYear(year: int): int {
    var y := year - 1;
    365 * y + y / 4 - y / 100 + y / 400
  }

  /** Days since the day before the first day of year 1. */
  function Ordinal(d: Date): int
    requires IsDate(d)
  {
    DaysBeforeYear(d.year) + DaysBeforeMonth(d.year, d.month) + d.day
  }

  /** Monday is 0. */
  function Weekday(d: Date): int
    requires IsDate(d)
  {
    (Ordinal(d) + 6) % 7
  }

  /** The following day, or nothing after the last day of year 9999. */
  function NextDay(d: Date): (r: Option<Date>)
    requires IsDate(d)
    ensures r.Some? ==> IsDate(r.value)
  {
    if d.day < DaysInMonth(d.year, d.month) then Some(d.(day := d.day + 1))
    else if d.month < 12 then Some(Date(d.year, d.month + 1, 1))
    else if d.year < 9999 then Some(Date(d.year + 1, 1, 1))
    else None
  }

  function PreviousDay(d: Date): (r: Option<Date>)
    requires IsDate(d)
    ensures r.Some? ==> IsDate(r.value)
  {
    if d.day > 1 then Some(d.(day := d.day - 1))
    else if d.month > 1 then Some(Date(d.year, d.month - 1, DaysInMonth(d.year, d.month - 1)))
    else if d.year > 1 then Some(Date(d.year - 1, 12, 31))
    else None
  }

  function AddDays(d: Date, days: nat): (r: Option<Date>)
    requires IsDate(d)
    ensures r.Some? ==> IsDate(r.value)
    decreases days
  {
    if days == 0 then Some(d)
    else
      var next := NextDay(d);
      if next.None? then None else AddDays(next.value, days - 1)
  }

  /** A full week on a Friday itself. */
  function DaysToFriday(weekday: int): nat {
    var distance := (4 - weekday) % 7;
    if distance == 0 then 7 else distance
  }

  datatype Phrase = InDays(days: nat) | InAMonth | MonthEnd | NextFriday

  /** The date a phrase means; nothing when the calendar overflows, where the source raises. */
  function Meaning(p: Phrase, today: Date): Option<Date>
    requires IsDate(today)
  {
    match p
    case InDays(n) => AddDays(today, n)
    case InAMonth => AddDays(today, 30)
    case MonthEnd =>
      var nextMonth := AddDays(today.(day := 28), 4);
      if nextMonth.None? then None else PreviousDay(nextMonth.value.(day := 1))
    case NextFriday => AddDays(today, DaysToFriday(Weekday(today)))
  }

  lemma YearLength(year: int)
    ensures DaysBeforeYear(year + 1) == DaysBeforeYear(year) + if IsLeap(year) then 366 else 365
  {
    var y := year - 1;
    assert (y + 1) / 4 == y / 4 + if year % 4 == 0 then 1 else 0;
    assert (y + 1) / 100 == y / 100 + if year % 100 == 0 then 1 else 0;
    assert (y + 1) / 400 == y / 400 + if year % 400 == 0 then 1 else 0;
    assert year % 400 == 0 ==> year % 100 == 0;
    assert year % 100 == 0 ==> year % 4 == 0;
  }

  lemma DecemberEndsTheYear(year: int)
    ensures DaysBeforeMonth(year, 12) + 31 == if IsLeap(year) then 366 else 365
  {
    assert DaysBeforeMonth(year, 4) == DaysBeforeMonth(year, 1) + 31 + DaysInMonth(year, 2) + 31;
    assert DaysBeforeMonth(year, 8) == DaysBeforeMonth(year, 4) + 30 + 31 + 30 + 31;
    assert DaysBeforeMonth(year, 12) == DaysBeforeMonth(year, 8) + 31 + 30 + 31 + 30;
  }

  lemma NextDayIsNext(d: Date)
    requires IsDate(d) && NextDay(d).Some?
    ensures Ordinal(NextDay(d).value) == Ordinal(d) + 1
  {
    if d.day == DaysInMonth(d.year, d.month) {
      if d.month == 12 {
        YearLength(d.year);
        DecemberEndsTheYear(d.year);
      } else {
        assert DaysBeforeMonth(d.year, d.month + 1) == DaysBeforeMonth(d.year, d.month) + DaysInMonth(d.year, d.month);
      }
    }
  }

  /** Adding days is addition on ordinals. */
  lemma {:induction false} AddDaysAdds(d: Date, days: nat)
    requires IsDate(d) && AddDays(d, days).Some?
    ensures Ordinal(AddDays(d, days).value) == Ordinal(d) + days
    decreases days
  {
    if days > 0 {
      NextDayIsNext(d);
      AddDaysAdds(NextDay(d).value, days - 1);
    }
  }

  /** Before the last month, any four weeks ahead still exist. */
  lemma {:induction false} AddDaysStays(d: Date, days: nat)
    requires IsDate(d) && (d.year < 9999 || d.month < 12)
    requires days <= DaysInMonth(d.year, d.month) - d.day + 28
    ensures AddDays(d, days).Some?
    decreases days
  {
    if days > 0 {
      var next := NextDay(d).value;
      if next.month == d.month && next.year == d.year {
        AddDaysStays(next, days - 1);
      } else {
        AddWithinMonth(next, days - 1);
      }
    }
  }

  lemma {:induction false} AddWithinMonth(d: Date, days: nat)
    requires IsDate(d) && d.day + days <= DaysInMonth(d.year, d.month)
    ensures AddDays(d, days) == Some(d.(day := d.day + days))
    decreases days
  {
    if days > 0 {
      AddWithinMonth(NextDay(d).value, days - 1);
    }
  }

  /** Four days after the 28th lie in the following month, whatever the month's length. */
  lemma FourDaysAfterThe28th(d: Date)
    requires IsDate(d)
    ensures AddDays(d.(day := 28), 4)
            == if d.month < 12 then Some(Date(d.year, d.month + 1, 32 - DaysInMonth(d.year, d.month)))
               else if d.year < 9999 then Some(Date(d.year + 1, 1, 1))
               else None
  {
    var n := DaysInMonth(d.year, d.month);
    var start, last := d.(day := 28), d.(day := n);
    SplitAdd(start, n - 28, 4 - (n - 28));
    AddWithinMonth(start, n - 28);
    var next := NextDay(last);
    if next.Some? {
      AddWithinMonth(next.value, 31 - n);
    }
  }

  lemma {:induction false} SplitAdd(d: Date, a: nat, b: nat)
    requires IsDate(d)
    ensures AddDays(d, a + b) == (var first := AddDays(d, a); if first.None? then None else AddDays(first.value, b))
    decreases a
  {
    if a > 0 && NextDay(d).Some? {
      SplitAdd(NextDay(d).value, a - 1, b);
    }
  }

  /** The month-end phrase gives the last day of the same month, leap years and December included, and fails exactly
      in the calendar's last month. */
  lemma MonthEndIsLastDay(today: Date)
    requires IsDate(today)
    ensures Meaning(MonthEnd, today)
            == if today.year == 9999 && today.month == 12 then None
               else Some(today.(day := DaysInMonth(today.year, today.month)))
  {
    FourDaysAfterThe28th(today);
  }

  lemma WeekAhead(d: Date, days: nat)
    requires IsDate(d) && (d.year < 9999 || d.month < 12) && days <= 7
    ensures AddDays(d, days).Some? && Ordinal(AddDays(d, days).value) == Ordinal(d) + days
  {
    AddDaysStays(d, days);
    AddDaysAdds(d, days);
  }

  /** Weekday 4, one to seven days ahead, and before any other such day ahead, in day numbers. */
  predicate IsNextFriday(today: int, friday: int, other: int) {
    && (friday + 6) % 7 == 4 && 1 <= friday - today <= 7
    && (other > today && (other + 6) % 7 == 4 ==> other >= friday)
  }

  lemma FridayIsFirst(today: int, weekday: int, other: int)
    requires weekday == (today + 6) % 7
    ensures IsNextFriday(today, today + DaysToFriday(weekday), other)
    ensures DaysToFriday(weekday) <= 7
  {}

  lemma FridayOfOrdinals(today: Date, days: nat, other: int)
    requires IsDate(today) && (today.year < 9999 || today.month < 12) && days <= 7
    requires IsNextFriday(Ordinal(today), Ordinal(today) + days, other)
    ensures AddDays(today, days).Some?
    ensures IsNextFriday(Ordinal(today), Ordinal(AddDays(today, days).value), other)
  {
    WeekAhead(today, days);
  }

  /** Before the calendar's last month, next Friday is a Friday, one to seven days ahead, and no day between is one;
      `other` is any day number. */
  lemma NextFridayIsTheFirstAhead(today: Date, other: int)
    requires IsDate(today) && (today.year < 9999 || today.month < 12)
    ensures Meaning(NextFriday, today).Some?
    ensures IsNextFriday(Ordinal(today), Ordinal(Meaning(NextFriday, today).value), other)
  {
    var days := DaysToFriday(Weekday(today));
    FridayIsFirst(Ordinal(today), Weekday(today), other);
    FridayOfOrdinals(today, days, other);
    assert Meaning(NextFriday, today) == AddDays(today, days);
  }

  // ---------- Weekdays and the end of the calendar ----------

  const FIRST_DAY := Date(1, 1, 1)

  /** The first day of the calendar is a Monday, and the weekdays follow each other. */
  lemma WeekdayOfDay(n: nat)
    requires AddDays(FIRST_DAY, n).Some?
    ensures Weekday(AddDays(FIRST_DAY, n).value) == n % 7
  {
    AddDaysAdds(FIRST_DAY, n);
    FirstDayIsOne();
    WeekdayOfOrdinal(AddDays(FIRST_DAY, n).value, n);
  }

  lemma FirstDayIsOne()
    ensures Ordinal(FIRST_DAY) == 1
  {}

  lemma WeekdayOfOrdinal(d: Date, n: nat)
    requires IsDate(d) && Ordinal(d) == 1 + n
    ensures Weekday(d) == n % 7
  {
    SameRemainder(Ordinal(d), n);
  }

  lemma SameRemainder(ordinal: int, n: int)
    requires ordinal == 1 + n
    ensures (ordinal + 6) % 7 == n % 7
  {}

  /** Every date is so many days after the first one. */
  lemma {:induction false} DayOf(d: Date) returns (n: nat)
    requires IsDate(d)
    ensures AddDays(FIRST_DAY, n) == Some(d)
    decreases d.year, d.month, d.day
  {
    if d == FIRST_DAY {
      n := 0;
    } else {
      var before := PreviousDay(d).value;
      NextOfPrevious(d);
      var m := DayOf(before);
      n := m + 1;
      SplitAdd(FIRST_DAY, m, 1);
      assert AddDays(before, 1) == Some(d);
    }
  }

  lemma NextOfPrevious(d: Date)
    requires IsDate(d) && PreviousDay(d).Some?
    ensures NextDay(PreviousDay(d).value) == Some(d)
  {}

  /** Counted in weeks from that first Monday, next Friday is a fifth day. */
  lemma NextFridayIsAFifthDay(today: Date) returns (n: nat)
    requires IsDate(today) && (today.year < 9999 || today.month < 12)
    ensures AddDays(FIRST_DAY, n) == Meaning(NextFriday, today) && n % 7 == 4
  {
    NextFridayIsTheFirstAhead(today, 0);
    n := DayOf(Meaning(NextFriday, today).value);
    AddDaysAdds(FIRST_DAY, n);
    FifthDay(Ordinal(Meaning(NextFriday, today).value), n);
  }

  lemma FifthDay(ordinal: int, n: nat)
    requires (ordinal + 6) % 7 == 4 && ordinal == 1 + n
    ensures n % 7 == 4
  {}

  const LAST_DAY := Date(9999, 12, 31)

  lemma {:induction false} OrdinalIsBounded(d: Date)
    requires IsDate(d)
    ensures Ordinal(d) <= Ordinal(LAST_DAY)
    decreases 9999 - d.year, 12 - d.month, 31 - d.day
  {
    if d != LAST_DAY {
      OnlyTheLastHasNoNext(d);
      NextDayIsNext(d);
      OrdinalIsBounded(NextDay(d).value);
    }
  }

  lemma OnlyTheLastHasNoNext(d: Date)
    requires IsDate(d)
    ensures NextDay(d) == None <==> d == LAST_DAY
  {}

  /** Days can be added exactly as long as the last day of year 9999 is not passed. */
  lemma {:induction false} AddDaysEndsIff(d: Date, days: nat)
    requires IsDate(d)
    ensures AddDays(d, days).Some? <==> Ordinal(d) + days <= Ordinal(LAST_DAY)
    decreases days
  {
    OrdinalIsBounded(d);
    if days > 0 {
      OnlyTheLastHasNoNext(d);
      if d != LAST_DAY {
        NextDayIsNext(d);
        AddDaysEndsIff(NextDay(d).value, days - 1);
      }
    }
  }

  /** "In n days" and "in a month" are so many days ahead, thirty for the month, and fail exactly behind the calendar's
      last day. */
  lemma DayPhrasesAdd(today: Date, n: nat)
    requires IsDate(today)
    ensures var d := Meaning(InDays(n), today);
            if Ordinal(today) + n <= Ordinal(LAST_DAY) then d.Some? && Ordinal(d.value) == Ordinal(today) + n
            else d == None
    ensures Meaning(InAMonth, today) == Meaning(InDays(30), today)
  {
    AddDaysEndsIff(today, n);
    if AddDays(today, n).Some? {
      AddDaysAdds(today, n);
    }
  }
}
