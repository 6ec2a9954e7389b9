/** The integer arithmetic the action screens share: `Math.ceil(a / b)` on
    whole hours, the "one credit per three hours" rate and the end-date
    formula `addWeeks(start, Math.ceil(hours / weekly))`. */
module ActionRules {
  import Calendar

  /** `Math.ceil(a / b)` for whole `a` and positive whole `b`: the least
      number of `b`-sized blocks that cover `a`. */
  function CeilDiv(a: nat, b: nat): (q: nat)
    requires b > 0
    ensures q * b >= a
    ensures q == 0 || (q - 1) * b < a
  {
    (a + b - 1) / b
  }

  /** The two properties in CeilDiv's contract pin the quotient down. */
  lemma CeilDivUnique(a: nat, b: nat, q: nat)
    requires b > 0
    requires q * b >= a && (q == 0 || (q - 1) * b < a)
    ensures q == CeilDiv(a, b)
  {
    var c := CeilDiv(a, b);
    if q < c {
      assert q <= c - 1;
      MulMonotone(q, c - 1, b);
    } else if q > c {
      assert c <= q - 1;
      MulMonotone(c, q - 1, b);
    }
  }

  lemma MulMonotone(x: nat, y: nat, b: nat)
    requires x <= y
    ensures x * b <= y * b
  {
  }

  /** A longer formation never needs fewer blocks. */
  lemma CeilDivMonotoneInDividend(a1: nat, a2: nat, b: nat)
    requires b > 0 && a1 <= a2
    ensures CeilDiv(a1, b) <= CeilDiv(a2, b)
  {
    var q1, q2 := CeilDiv(a1, b), CeilDiv(a2, b);
    if q2 < q1 {
      MulMonotone(q2, q1 - 1, b);
    }
  }

  /** A larger block size never needs more blocks: the end date is
      non-increasing in the weekly dedication. */
  lemma CeilDivAntitoneInDivisor(a: nat, b1: nat, b2: nat)
    requires 0 < b1 <= b2
    ensures CeilDiv(a, b2) <= CeilDiv(a, b1)
  {
    var q1, q2 := CeilDiv(a, b1), CeilDiv(a, b2);
    if q1 < q2 {
      MulMonotone(q1, q2 - 1, b2);
      MulMonotone(b1, b2, q1);
    }
  }

  /** Hours per credit: "1 credit per 3 hours". */
  const HoursPerCredit: nat := 3

  /** `Math.ceil(hours / 3)`: credits each student costs. */
  function CreditsForHours(hours: nat): (c: nat)
    ensures c * HoursPerCredit >= hours
    ensures c == 0 || (c - 1) * HoursPerCredit < hours
    ensures hours > 0 ==> c >= 1
  {
    CeilDiv(hours, HoursPerCredit)
  }

  /** `Math.ceil(totalHours / weeklyHours)`: weeks the formation takes. */
  function WeeksNeeded(hours: nat, weeklyHours: nat): (w: nat)
    requires weeklyHours > 0
    ensures w * weeklyHours >= hours
    ensures w == 0 || (w - 1) * weeklyHours < hours
  {
    CeilDiv(hours, weeklyHours)
  }

  /** `addWeeks(start, Math.ceil(totalHours / weeklyHours))`: a whole number
      of weeks after the start, the fewest whose weekly hours cover the
      formation. */
  function EndDate(start: Calendar.Day, hours: nat, weeklyHours: nat): (e: Calendar.Day)
    requires weeklyHours > 0
    ensures e >= start
    ensures Calendar.Weekday(e) == Calendar.Weekday(start)
    ensures exists w: nat :: e == start + 7 * w && w * weeklyHours >= hours && (w == 0 || (w - 1) * weeklyHours < hours)
  {
    var w := WeeksNeeded(hours, weeklyHours);
    Calendar.AddWeeksKeepsWeekday(start, w);
    Calendar.AddWeeks(start, w)
  }
}
