/** The "edit training action" page: the students already enrolled stay
    selected, new students can be added, and the start date and weekly
    dedication can be changed; the page shows the new credit consumption and
    its difference from the current one. The arithmetic here is shared by
    the edit dialog. */
module EditAction {
  import opened Wrappers
  import Text
  import Calendar
  import ActionRules
  import Roster
  import SD = StudentDirectory

  // ---------------------------------------------------------------------
  // hours, credits and their difference

  /** The hours assumed when an action has no duration. */
  const DefaultHours: nat := 20

  /** getFormationHours: 20 for an empty duration, otherwise the number
      before the first space; None stands for NaN. */
  function FormationHours(duration: string): (h: Option<nat>)
    ensures duration == "" ==> h == Some(DefaultHours)
  {
    if duration == "" then Some(DefaultHours) else Text.ParseHours(duration)
  }

  /** A printed duration gives back its hours. */
  lemma FormationHoursOfPrinted(hours: nat, minutes: nat)
    ensures FormationHours(Text.FormatDuration(hours, minutes)) == Some(hours)
  {
    Text.DurationRoundTrip(hours, minutes);
  }

  /** getCreditsPerStudent: one credit per started block of three hours. */
  function CreditsPerStudent(hours: Option<nat>): (c: Option<nat>)
    ensures c.Some? <==> hours.Some?
    ensures c.Some? ==> c.value * ActionRules.HoursPerCredit >= hours.value
    ensures c.Some? ==> c.value == 0 || (c.value - 1) * ActionRules.HoursPerCredit < hours.value
  {
    if hours.None? then None else Some(ActionRules.CreditsForHours(hours.value))
  }

  /** getCreditsDifference: new consumption minus current consumption. */
  function CreditsDifference(selectedCount: nat, originalCount: nat, credits: nat): (d: int)
    ensures credits > 0 ==> (d == 0 <==> selectedCount == originalCount)
    ensures credits > 0 ==> (d > 0 <==> selectedCount > originalCount)
  {
    var newConsumption := selectedCount * credits;
    var currentConsumption := originalCount * credits;
    ProductOrder(selectedCount, originalCount, credits);
    newConsumption - currentConsumption
  }

  lemma ProductOrder(a: nat, b: nat, c: nat)
    ensures c > 0 ==> (a * c == b * c <==> a == b)
    ensures c > 0 ==> (a * c > b * c <==> a > b)
  {
    if c == 0 {
    } else if a > b {
      assert a * c == b * c + (a - b) * c;
    } else if a < b {
      assert b * c == a * c + (b - a) * c;
    }
  }

  /** The difference is the change in the student count times the credits a
      student costs. */
  lemma CreditsDifferenceIsCountChange(selectedCount: nat, originalCount: nat, credits: nat)
    ensures CreditsDifference(selectedCount, originalCount, credits) == (selectedCount - originalCount) * credits
  {
  }

  /** The difference line under the total: hidden at zero, '+' before a
      positive difference, a negative one printed with its own '-'. */
  function DifferenceLabel(d: int): (text: Option<string>)
    ensures text.None? <==> d == 0
    ensures text.Some? ==> |text.value| > 0 && (text.value[0] == '+' <==> d > 0)
    ensures text.Some? ==> (text.value[0] == '-' <==> d < 0)
  {
    if d == 0 then None
    else Some((if d > 0 then "+" else "") + Text.IntToString(d) + " créditos")
  }

  /** calculateEndDate: whole weeks at the chosen weekly dedication; NaN
      hours give an invalid date (None). */
  function CalculateEndDate(start: Calendar.Day, weeklyHours: nat, hours: Option<nat>): (e: Option<Calendar.Day>)
    requires 2 <= weeklyHours <= 40
    ensures e.Some? <==> hours.Some?
    ensures e.Some? ==> e.value == ActionRules.EndDate(start, hours.value, weeklyHours)
  {
    if hours.None? then None else Some(ActionRules.EndDate(start, hours.value, weeklyHours))
  }

  /** More hours a week never moves the end date later. */
  lemma EndDateAntitoneInDedication(start: Calendar.Day, w1: nat, w2: nat, hours: nat)
    requires 2 <= w1 <= w2 <= 40
    ensures CalculateEndDate(start, w2, Some(hours)).value <= CalculateEndDate(start, w1, Some(hours)).value
  {
    ActionRules.CeilDivAntitoneInDivisor(hours, w1, w2);
  }

  // ---------------------------------------------------------------------
  // the action being edited

  datatype EnrolledStudent = EnrolledStudent(id: int, name: string)

  datatype ActionDetail = ActionDetail(
    id: int, name: string, startDate: string, endDate: string, weeklyDedication: nat,
    duration: string, status: string, students: seq<EnrolledStudent>)

  function EnrolledIds(students: seq<EnrolledStudent>): (r: seq<int>)
    ensures |r| == |students|
    ensures forall k :: 0 <= k < |students| ==> r[k] == students[k].id
  {
    seq(|students|, k requires 0 <= k < |students| => students[k].id)
  }

  const Action1: ActionDetail := ActionDetail(
    1, "SCRUM y metodologías Agile", "2025-08-15", "2025-10-15", 8, "24 h. 30 min.", "solicited",
    [EnrolledStudent(1, "Ana García López"), EnrolledStudent(2, "Carlos Rodríguez Martín"),
     EnrolledStudent(3, "María Fernández Sánchez")])

  const Action2: ActionDetail := ActionDetail(
    2, "Python para Data Science", "2025-04-25", "2025-06-25", 10, "32 h. 15 min.", "scheduled",
    [EnrolledStudent(4, "David López González"), EnrolledStudent(5, "Laura Martínez Ruiz")])

  const Action3: ActionDetail := ActionDetail(
    3, "React y desarrollo web", "2025-03-20", "2025-05-20", 12, "28 h. 45 min.", "in-progress",
    [EnrolledStudent(6, "Pedro Jiménez Morales"), EnrolledStudent(7, "Carmen Ruiz Herrera"),
     EnrolledStudent(8, "Alejandro Torres Vega")])

  /** `mockActionDetails[id] || mockActionDetails[1]`. */
  function LoadAction(id: int): (a: ActionDetail)
    ensures a.id == (if 1 <= id <= 3 then id else 1)
  {
    if id == 2 then Action2 else if id == 3 then Action3 else Action1
  }

  /** Action 1: 24 hours cost 8 credits a student, and at its 8 hours a week
      it takes 3 weeks; without a duration a student costs 7 credits. */
  lemma Action1Figures(start: Calendar.Day)
    ensures FormationHours(Action1.duration) == Some(24)
    ensures CreditsPerStudent(FormationHours(Action1.duration)) == Some(8)
    ensures CalculateEndDate(start, 8, FormationHours(Action1.duration)) == Some(start + 21)
    ensures CreditsPerStudent(FormationHours("")) == Some(7)
  {
    assert Action1.duration == Text.FormatDuration(24, 30);
    FormationHoursOfPrinted(24, 30);
    ActionRules.CeilDivUnique(24, 3, 8);
    ActionRules.CeilDivUnique(24, 8, 3);
    ActionRules.CeilDivUnique(20, 3, 7);
  }

  // ---------------------------------------------------------------------
  // the page

  class EditActionScreen {
    var action: ActionDetail
    var students: seq<SD.Student>
    var selectedStudents: seq<int>
    var studentSearchTerm: string
    var startDate: Calendar.Day
    var weeklyDedication: nat

    /** originalStudentIds: the ids enrolled when the page was loaded. */
    function OriginalIds(): seq<int>
      reads this`action
    {
      EnrolledIds(action.students)
    }

    /** The students list stays non-empty with distinct ids and DNIs, the
        weekly dedication within the form's bounds, and every enrolled
        student stays selected. */
    predicate Valid()
      reads this
    {
      && |students| > 0 && SD.UniqueIds(students) && SD.DistinctDnis(students)
      && 2 <= weeklyDedication <= 40
      && Roster.OriginalsSelected(selectedStudents, OriginalIds())
    }

    /** The load effect: the action by id (action 1 when unknown), the
        selection set to its students' ids and the form to its dedication;
        the start date is the action's, parsed by the caller. */
    constructor(id: int, initialStudents: seq<SD.Student>, initialStart: Calendar.Day)
      requires |initialStudents| > 0 && SD.UniqueIds(initialStudents) && SD.DistinctDnis(initialStudents)
      ensures Valid()
      ensures action == LoadAction(id) && students == initialStudents
      ensures selectedStudents == OriginalIds()
      ensures studentSearchTerm == "" && startDate == initialStart
      ensures weeklyDedication == LoadAction(id).weeklyDedication
    {
      action := LoadAction(id);
      students := initialStudents;
      selectedStudents := EnrolledIds(LoadAction(id).students);
      studentSearchTerm := "";
      startDate := initialStart;
      weeklyDedication := LoadAction(id).weeklyDedication;
    }

    function FilteredStudents(): seq<SD.Student>
      reads this`students, this`studentSearchTerm
    {
      SD.FilterStudents(students, studentSearchTerm)
    }

    function CreditsPerStudentNow(): Option<nat>
      reads this`action
    {
      CreditsPerStudent(FormationHours(action.duration))
    }

    /** getCreditsDifference, NaN (None) when the duration does not parse. */
    function Difference(): (d: Option<int>)
      reads this`action, this`selectedStudents
      ensures d.Some? <==> CreditsPerStudentNow().Some?
      ensures d.Some? ==> d.value == (|selectedStudents| - |action.students|) * CreditsPerStudentNow().value
    {
      match CreditsPerStudentNow()
      case None => None
      case Some(c) =>
        CreditsDifferenceIsCountChange(|selectedStudents|, |action.students|, c);
        Some(CreditsDifference(|selectedStudents|, |action.students|, c))
    }

    /** The end date the form shows for its current values. */
    function EndDate(): Option<Calendar.Day>
      reads this
      requires Valid()
    {
      CalculateEndDate(startDate, weeklyDedication, FormationHours(action.duration))
    }

    /** The save button is disabled while no student is selected. */
    predicate SaveDisabled()
      reads this`selectedStudents
    {
      |selectedStudents| == 0
    }

    method SetStudentSearchTerm(term: string)
      modifies this
      requires Valid()
      ensures Valid()
      ensures studentSearchTerm == term
      ensures action == old(action) && students == old(students) && selectedStudents == old(selectedStudents)
      ensures startDate == old(startDate) && weeklyDedication == old(weeklyDedication)
    {
      studentSearchTerm := term;
    }

    /** handleSelectStudent: enrolled students cannot be deselected. */
    method HandleSelectStudent(id: int)
      modifies this
      requires Valid()
      ensures Valid()
      ensures selectedStudents == Roster.ProtectedToggle(old(selectedStudents), OriginalIds(), id)
      ensures action == old(action) && students == old(students) && studentSearchTerm == old(studentSearchTerm)
      ensures startDate == old(startDate) && weeklyDedication == old(weeklyDedication)
    {
      Roster.ProtectedToggleSpec(selectedStudents, OriginalIds(), id);
      if id in OriginalIds() {
        return;
      }
      selectedStudents := Roster.Toggle(selectedStudents, id);
    }

    /** handleSelectAllStudents over the ids the search shows. */
    method HandleSelectAllStudents()
      modifies this
      requires Valid()
      ensures Valid()
      ensures selectedStudents == Roster.ProtectedSelectAll(old(selectedStudents), OriginalIds(), SD.Ids(old(FilteredStudents())))
      ensures action == old(action) && students == old(students) && studentSearchTerm == old(studentSearchTerm)
      ensures startDate == old(startDate) && weeklyDedication == old(weeklyDedication)
    {
      var filteredIds := SD.Ids(FilteredStudents());
      Roster.ProtectedSelectAllSpec(selectedStudents, OriginalIds(), filteredIds);
      selectedStudents := Roster.ProtectedSelectAll(selectedStudents, OriginalIds(), filteredIds);
    }

    /** addIndividualStudent (see the findings about the e-mail pattern of
        this page and the DNI check). */
    method AddIndividualStudent(form: SD.StudentForm) returns (outcome: Result<SD.Student, SD.AddError>)
      modifies this
      requires Valid()
      ensures Valid()
      ensures outcome == SD.Validate(old(students), form)
      ensures students == SD.AddStudent(old(students), form)
      ensures action == old(action) && selectedStudents == old(selectedStudents)
      ensures studentSearchTerm == old(studentSearchTerm)
      ensures startDate == old(startDate) && weeklyDedication == old(weeklyDedication)
    {
      outcome := SD.Validate(students, form);
      SD.AddStudentKeepsInvariants(students, form);
      students := SD.AddStudent(students, form);
    }

    /** The calendar's onSelect: only a valid day replaces the start date. */
    method SelectStartDate(date: Option<Calendar.Day>, minDate: Calendar.Day)
      modifies this
      requires Valid()
      ensures Valid()
      ensures startDate == (if date.Some? && Calendar.IsValidStartDate(date.value, minDate) then date.value else old(startDate))
      ensures action == old(action) && students == old(students) && selectedStudents == old(selectedStudents)
      ensures studentSearchTerm == old(studentSearchTerm) && weeklyDedication == old(weeklyDedication)
    {
      if date.Some? && Calendar.IsValidStartDate(date.value, minDate) {
        startDate := date.value;
      }
    }

    /** The weekly-dedication select. */
    method SetWeeklyDedication(hours: nat)
      modifies this
      requires Valid() && 2 <= hours <= 40
      ensures Valid()
      ensures weeklyDedication == hours
      ensures action == old(action) && students == old(students) && selectedStudents == old(selectedStudents)
      ensures studentSearchTerm == old(studentSearchTerm) && startDate == old(startDate)
    {
      weeklyDedication := hours;
    }

    /** Because enrolled students stay selected, saving is disabled only for
        an action that had no students. */
    lemma SaveEnabledWithEnrolledStudents()
      requires Valid() && |action.students| > 0
      ensures !SaveDisabled()
    {
      assert OriginalIds()[0] in selectedStudents;
    }

    /** The selection never shrinks below the enrolled count, so the
        difference is never negative. */
    lemma DifferenceNotNegative()
      requires Valid() && Roster.NoDuplicates(OriginalIds())
      ensures Difference().Some? ==> Difference().value >= 0
    {
      SubsetCount(OriginalIds(), selectedStudents);
    }
  }

  /** A duplicate-free list inside another list is no longer than it. */
  lemma {:induction false} SubsetCount(small: seq<int>, big: seq<int>)
    requires Roster.NoDuplicates(small) && forall x :: x in small ==> x in big
    ensures |small| <= |big|
    decreases |small|
  {
    if small != [] {
      var x := small[0];
      var rest := small[1..];
      assert forall i :: 0 < i < |small| ==> small[i] != x;
      assert x !in rest;
      assert Roster.NoDuplicates(rest);
      SubsetCount(rest, Roster.Remove(big, x));
      RemoveShrinks(big, x);
    }
  }

  lemma {:induction false} RemoveShrinks(s: seq<int>, x: int)
    requires x in s
    ensures |Roster.Remove(s, x)| < |s|
  {
    if s[0] != x {
      RemoveShrinks(s[1..], x);
    }
  }

  /** CreateAction always takes `ceil(hours / 3)` weeks: it agrees with this
      page at 3 hours a week only; at action 1's 8 hours a week the two
      differ (3 weeks here, 8 weeks there). */
  lemma CreateAndEditEndDates(start: Calendar.Day, hours: nat)
    ensures CalculateEndDate(start, 3, Some(hours)) == Some(ActionRules.EndDate(start, hours, 3))
    ensures ActionRules.EndDate(start, 24, 3) == start + 56
    ensures CalculateEndDate(start, 8, Some(24)) == Some(start + 21)
  {
    ActionRules.CeilDivUnique(24, 3, 8);
    ActionRules.CeilDivUnique(24, 8, 3);
  }
}
