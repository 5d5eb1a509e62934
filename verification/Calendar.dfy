/** The Gregorian calendar and the year roll-forward of a stated shipment date. */
module Calendar {

  datatype Date = Date(year: int, month: int, day: int)

  predicate Leap(year: int) {
    year % 4 == 0 && (year % 100 != 0 || year % 400 == 0)
  }

  function DaysIn(year: int, month: int): int {
    if month == 2 then (if Leap(year) then 29 else 28)
    else if month == 4 || month == 6 || month == 9 || month == 11 then 30
    else 31
  }

  predicate Exists(d: Date) {
    1 <= d.year && 1 <= d.month <= 12 && 1 <= d.day <= DaysIn(d.year, d.month)
  }

  /** Dates that exist, with no upper bound on the year. */
  type Day = d: Date | Exists(d) witness Date(1, 1, 1)

  /** The last year Python's `date` can hold. */
  const MAX_YEAR: int := 9999

  predicate Before(a: Date, b: Date) {
    a.year < b.year
    || (a.year == b.year && (a.month < b.month || (a.month == b.month && a.day < b.day)))
  }

  /** Earlier means a smaller number, in a year of twelve months of thirty-one days; so any two days are in order. */
  lemma DaysCompareAsNumbers(a: Day, b: Day)
    ensures Before(a, b) <==> 372 * a.year + 31 * a.month + a.day < 372 * b.year + 31 * b.month + b.day
    ensures a == b || Before(a, b) || Before(b, a)
  {
  }

  /** `stated` moved to `year` is a real date that is not before `today`. */
  predicate Works(stated: Date, today: Date, year: int) {
    Exists(stated.(year := year)) && !Before(stated.(year := year), today)
  }

  ghost predicate SomeYearWorks(stated: Date, today: Date, from: int, until: int) {
    exists y :: from <= y <= until && Works(stated, today, y)
  }

  /** The first year, from `year` on, in which the stated day works. */
  function FirstFrom(stated: Day, today: Day, year: int): (r: Day)
    requires today.year <= year && SomeYearWorks(stated, today, year, today.year + 8)
    ensures Works(stated, today, r.year) && r == stated.(year := r.year)
    ensures year <= r.year <= today.year + 8
    ensures forall y :: year <= y < r.year ==> !Works(stated, today, y)
    decreases today.year + 9 - year
  {
    if Works(stated, today, year) then stated.(year := year)
    else
      assert SomeYearWorks(stated, today, year + 1, today.year + 8) by {
        var y :| year <= y <= today.year + 8 && Works(stated, today, y);
        assert y != year;
      }
      FirstFrom(stated, today, year + 1)
  }

  /** How many of the years up to this one are leap years. */
  ghost function LeapYearsTo(year: nat): nat {
    if year == 0 then 0 else LeapYearsTo(year - 1) + if Leap(year) then 1 else 0
  }

  /** Every fourth year, but for the centuries, but for every fourth century: 97 in four hundred years. */
  lemma {:induction false} LeapYearsAreCounted(year: nat)
    ensures LeapYearsTo(year) == year / 4 - year / 100 + year / 400
  {
    if year > 0 {
      LeapYearsAreCounted(year - 1);
      Fourths(year);
      Centuries(year);
      FourCenturies(year);
      LeapInTurn(year);
    }
  }

  lemma Fourths(year: nat)
    requires year > 0
    ensures year / 4 == (year - 1) / 4 + if year % 4 == 0 then 1 else 0
  {
  }

  lemma Centuries(year: nat)
    requires year > 0
    ensures year / 100 == (year - 1) / 100 + if year % 100 == 0 then 1 else 0
  {
  }

  lemma FourCenturies(year: nat)
    requires year > 0
    ensures year / 400 == (year - 1) / 400 + if year % 400 == 0 then 1 else 0
  {
  }

  lemma LeapInTurn(year: nat)
    ensures (if Leap(year) then 1 else 0)
            == (if year % 4 == 0 then 1 else 0) - (if year % 100 == 0 then 1 else 0) + if year % 400 == 0 then 1 else 0
  {
    ACenturyIsAFourth(year);
    AFourthCenturyIsACentury(year);
  }

  lemma ACenturyIsAFourth(year: nat)
    ensures year % 100 == 0 ==> year % 4 == 0
  {
    var q, r := year / 100, year % 100;
    assert year == 100 * q + r;
    if r == 0 {
      FourTimes(25 * q);
      assert year == 4 * (25 * q);
    }
  }

  lemma AFourthCenturyIsACentury(year: nat)
    ensures year % 400 == 0 ==> year % 100 == 0
  {
    var q, r := year / 400, year % 400;
    assert year == 400 * q + r;
    if r == 0 {
      AHundredTimes(4 * q);
      assert year == 100 * (4 * q);
    }
  }

  lemma FourTimes(k: nat)
    ensures (4 * k) % 4 == 0
  {
  }

  lemma AHundredTimes(k: nat)
    ensures (100 * k) % 100 == 0
  {
  }

  /** The months alternate, long and short, and begin again in August; February makes up the year. */
  lemma MonthsMakeAYear(year: int, month: int)
    ensures 1 <= month <= 12 && month != 2 ==> DaysIn(year, month) == 30 + (month + month / 8) % 2
    ensures DaysIn(year, 1) + DaysIn(year, 2) + DaysIn(year, 3) + DaysIn(year, 4) + DaysIn(year, 5) + DaysIn(year, 6)
            + DaysIn(year, 7) + DaysIn(year, 8) + DaysIn(year, 9) + DaysIn(year, 10) + DaysIn(year, 11)
            + DaysIn(year, 12) == if Leap(year) then 366 else 365
  {
  }

  /** A leap year comes along at most eight years on (eight across 1896-1904). */
  lemma LeapYearWithinEight(year: int)
    ensures exists y :: year < y <= year + 8 && Leap(y)
  {
    var a := year + 4 - year % 4;
    assert a % 4 == 0;
    if a % 100 != 0 {
      assert Leap(a);
    } else {
      assert (a + 4) % 100 == 4;
      assert Leap(a + 4);
    }
  }

  lemma EveryDayComesRound(stated: Day, today: Day)
    ensures SomeYearWorks(stated, today, today.year, today.year + 8)
  {
    LeapYearWithinEight(today.year);
    var y :| today.year < y <= today.year + 8 && Leap(y);
    assert Works(stated, today, y);
  }

  /** What `roll_forward_to_today` computes. */
  function Rolled(stated: Day, today: Day): Day {
    if !Before(stated, today) then stated
    else
      EveryDayComesRound(stated, today);
      FirstFrom(stated, today, today.year)
  }

  /** The source's loop: try this year, then the next, until the day exists and is not past. */
  method RollForwardToToday(stated: Day, today: Day) returns (r: Day)
    ensures r == Rolled(stated, today)
  {
    if !Before(stated, today) {
      return stated;
    }
    EveryDayComesRound(stated, today);
    var year := today.year;
    while true
      invariant today.year <= year && SomeYearWorks(stated, today, year, today.year + 8)
      invariant FirstFrom(stated, today, year) == FirstFrom(stated, today, today.year)
      decreases today.year + 9 - year
    {
      var candidate := stated.(year := year);
      if Exists(candidate) {
        if !Before(candidate, today) {
          return candidate;
        }
      }
      year := year + 1;
    }
  }

  /** The result is the stated date when that is not past, and otherwise the earliest
      anniversary of it that is not before today; it is at most eight years away. */
  lemma RolledIsTheNextOccurrence(stated: Day, today: Day)
    ensures !Before(stated, today) ==> Rolled(stated, today) == stated
    ensures !Before(Rolled(stated, today), today)
    ensures Rolled(stated, today).month == stated.month && Rolled(stated, today).day == stated.day
    ensures Before(stated, today) ==>
              forall d: Day :: d.month == stated.month && d.day == stated.day && !Before(d, today)
                               ==> !Before(d, Rolled(stated, today))
    ensures Before(stated, today) ==> today.year <= Rolled(stated, today).year <= today.year + 8
  {
    if Before(stated, today) {
      EveryDayComesRound(stated, today);
      var r := FirstFrom(stated, today, today.year);
      forall d: Day | d.month == stated.month && d.day == stated.day && !Before(d, today)
        ensures !Before(d, r)
      {
        assert d == stated.(year := d.year);
        assert Works(stated, today, d.year);
      }
    }
  }

  /** Rolling again, on the same day or on any earlier one, changes nothing. */
  lemma RollingIsIdempotent(stated: Day, today: Day, again: Day)
    requires !Before(today, again)
    ensures Rolled(Rolled(stated, today), again) == Rolled(stated, today)
  {
    RolledIsTheNextOccurrence(stated, today);
  }

  /** Rolling is monotone in the day it is done: a later day never gives an earlier date. */
  lemma RollingIsMonotone(stated: Day, today: Day, later: Day)
    requires !Before(later, today)
    ensures !Before(Rolled(stated, later), Rolled(stated, today))
  {
    RolledIsTheNextOccurrence(stated, today);
    RolledIsTheNextOccurrence(stated, later);
    assert !Before(Rolled(stated, later), today);
  }

  /** The last date with this month and day that Python's `date` can hold. */
  function LastOccurrence(stated: Day): (r: Day)
    ensures r.month == stated.month && r.day == stated.day && r.year <= MAX_YEAR
    ensures forall d: Day :: d.month == stated.month && d.day == stated.day && d.year <= MAX_YEAR ==> !Before(r, d)
  {
    assert !Leap(9997) && !Leap(9998) && !Leap(9999) && Leap(9996);
    stated.(year := if stated.month == 2 && stated.day == 29 then 9996 else MAX_YEAR)
  }

  /** With dates that end in the year 9999, `date.replace` refuses every later year exactly as it refuses
      29 February, so the loop keeps going. It finds a date if and only if today is not past the last such day
      of that calendar: 29 February 9996, or the same day of 9999. */
  lemma PythonLoopReturnsIffADayIsLeft(stated: Day, today: Day)
    requires today.year <= MAX_YEAR
    ensures SomeYearWorks(stated, today, today.year, MAX_YEAR) <==> !Before(LastOccurrence(stated), today)
  {
    var last := LastOccurrence(stated);
    if !Before(last, today) {
      assert Works(stated, today, last.year);
    }
    if y :| today.year <= y <= MAX_YEAR && Works(stated, today, y) {
      assert !Before(last, stated.(year := y));
    }
  }

  /** When it finds one, it is the date of the calendar without an end. */
  lemma TheAnswerIsTheSame(stated: Day, today: Day)
    requires Before(stated, today) && today.year <= MAX_YEAR
    ensures !Before(LastOccurrence(stated), today) <==> Rolled(stated, today).year <= MAX_YEAR
  {
    RolledIsTheNextOccurrence(stated, today);
    var r, last := Rolled(stated, today), LastOccurrence(stated);
    if !Before(last, today) {
      assert !Before(last, r);
    }
  }

  /** The bound of eight years is reached, and the last years of the calendar do fail. */
  lemma RollForwardExtremes()
    ensures Rolled(Date(1896, 2, 29), Date(1896, 3, 1)) == Date(1904, 2, 29)
    ensures !SomeYearWorks(Date(9996, 2, 29), Date(9997, 1, 1), 9997, MAX_YEAR)
  {
    RolledIsTheNextOccurrence(Date(1896, 2, 29), Date(1896, 3, 1));
    var r := Rolled(Date(1896, 2, 29), Date(1896, 3, 1));
    assert Exists(Date(1904, 2, 29));
    assert !Leap(1897) && !Leap(1898) && !Leap(1899) && !Leap(1900)
           && !Leap(1901) && !Leap(1902) && !Leap(1903);
    assert r.year != 1896;
    assert !Before(Date(1904, 2, 29), r);
    assert !Leap(9997) && !Leap(9998) && !Leap(9999);
  }
}
