/** Calendar days as integers. Day 0 is 1970-01-01, which was a Thursday;
    the weekday numbering is date-fns' `getDay` (0 = Sunday .. 6 = Saturday).
    The current time of day is not modelled: every date is a whole day. */
module Calendar {

  type Day = int

  const Thursday: nat := 4

  function Weekday(d: Day): (w: nat)
    ensures w < 7
  {
    (d + 4) % 7
  }

  /** date-fns `isThursday`. */
  predicate IsThursday(d: Day) {
    Weekday(d) == Thursday
  }

  /** date-fns `addWeeks`. */
  function AddWeeks(d: Day, weeks: int): Day {
    d + 7 * weeks
  }

  /** Moving `j` days forward moves the weekday `j` steps round the week. */
  lemma WeekdayShift(d: Day, j: nat)
    ensures Weekday(d + j) == (Weekday(d) + j) % 7
  {
    var q := (d + 4) / 7;
    assert d + 4 == 7 * q + Weekday(d);
    assert d + j + 4 == 7 * q + (Weekday(d) + j);
  }

  /** A whole number of weeks after a Thursday is a Thursday. */
  lemma AddWeeksKeepsWeekday(d: Day, weeks: nat)
    ensures Weekday(AddWeeks(d, weeks)) == Weekday(d)
  {
    WeekdayShift(d, 7 * weeks);
    assert (Weekday(d) + 7 * weeks) % 7 == Weekday(d);
  }

  /** The first Thursday on or after `minDate`, in closed form. */
  function FirstThursdayFrom(minDate: Day): (t: Day)
    ensures IsThursday(t) && minDate <= t <= minDate + 6
    ensures forall d :: minDate <= d < t ==> !IsThursday(d)
  {
    var w := Weekday(minDate);
    var k: nat := if w <= Thursday then Thursday - w else Thursday + 7 - w;
    WeekdayShift(minDate, k);
    forall d | minDate <= d < minDate + k ensures !IsThursday(d) {
      WeekdayShift(minDate, d - minDate);
      assert minDate + (d - minDate) == d;
    }
    minDate + k
  }

  /** The start-date rule: a Thursday that is not before `minDate`. */
  predicate IsValidStartDate(date: Day, minDate: Day) {
    IsThursday(date) && !(date < minDate)
  }

  /** The valid start dates are exactly the whole weeks after the first
      Thursday on or after `minDate`. */
  lemma ValidStartDateIff(date: Day, minDate: Day)
    ensures IsValidStartDate(date, minDate) <==>
      exists k: nat :: date == AddWeeks(FirstThursdayFrom(minDate), k)
  {
    var t := FirstThursdayFrom(minDate);
    if IsValidStartDate(date, minDate) {
      assert date >= t;
      var diff: nat := date - t;
      WeekdayShift(t, diff);
      assert t + diff == date;
      assert (Thursday + diff) % 7 == Thursday;
      var k: nat := diff / 7;
      assert diff == 7 * k;
      assert date == AddWeeks(t, k);
    }
    forall k: nat | date == AddWeeks(t, k) ensures IsValidStartDate(date, minDate) {
      AddWeeksKeepsWeekday(t, k);
    }
  }
}
