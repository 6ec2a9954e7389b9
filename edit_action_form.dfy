/** The "edit action" dialog: the same protected roster as the edit page,
    with the standard e-mail pattern, handing the result to its `onSave`
    callback and closing. */
module EditActionForm {
  import opened Wrappers
  import Text
  import Calendar
  import Roster
  import SD = StudentDirectory
  import EA = EditAction

  /** The dialog's `action` prop; its duration is optional. */
  datatype ActionProps = ActionProps(
    id: int, name: string, startDate: string, weeklyDedication: nat,
    students: seq<EA.EnrolledStudent>, duration: Option<string>)

  /** What `onSave` receives. */
  datatype SavePayload = SavePayload(
    studentsCount: nat, startDate: Calendar.Day, weeklyDedication: nat, selectedStudents: seq<int>)

  /** getFormationHours: 20 when the duration is absent or empty. */
  function FormationHours(duration: Option<string>): (h: Option<nat>)
    ensures duration.None? ==> h == Some(EA.DefaultHours)
    ensures duration.Some? ==> h == EA.FormationHours(duration.value)
  {
    if duration.None? || duration.value == "" then Some(EA.DefaultHours)
    else Text.ParseHours(duration.value)
  }

  class EditActionFormDialog {
    var open: bool
    var action: ActionProps
    var students: seq<SD.Student>
    var selectedStudents: seq<int>
    var studentSearchTerm: string
    var startDate: Calendar.Day
    var weeklyDedication: nat

    function OriginalIds(): seq<int>
      reads this`action
    {
      EA.EnrolledIds(action.students)
    }

    predicate Valid()
      reads this
    {
      && |students| > 0 && SD.UniqueIds(students) && SD.DistinctDnis(students)
      && 2 <= weeklyDedication <= 40
      && Roster.OriginalsSelected(selectedStudents, OriginalIds())
    }

    /** The initial state: closed, the selection equal to the enrolled ids
        in the action's order, the form set to the action's dedication. */
    constructor(props: ActionProps, initialStudents: seq<SD.Student>, initialStart: Calendar.Day)
      requires |initialStudents| > 0 && SD.UniqueIds(initialStudents) && SD.DistinctDnis(initialStudents)
      requires 2 <= props.weeklyDedication <= 40
      ensures Valid()
      ensures !open && action == props && students == initialStudents
      ensures selectedStudents == OriginalIds()
      ensures studentSearchTerm == "" && startDate == initialStart
      ensures weeklyDedication == props.weeklyDedication
    {
      open := false;
      action := props;
      students := initialStudents;
      selectedStudents := EA.EnrolledIds(props.students);
      studentSearchTerm := "";
      startDate := initialStart;
      weeklyDedication := props.weeklyDedication;
    }

    function FilteredStudents(): seq<SD.Student>
      reads this`students, this`studentSearchTerm
    {
      SD.FilterStudents(students, studentSearchTerm)
    }

    /** getCreditsDifference, None when the duration does not parse. */
    function Difference(): (d: Option<int>)
      reads this`action, this`selectedStudents
      ensures d.Some? <==> EA.CreditsPerStudent(FormationHours(action.duration)).Some?
      ensures d.Some? ==>
        d.value == (|selectedStudents| - |action.students|) * EA.CreditsPerStudent(FormationHours(action.duration)).value
    {
      match EA.CreditsPerStudent(FormationHours(action.duration))
      case None => None
      case Some(c) =>
        EA.CreditsDifferenceIsCountChange(|selectedStudents|, |action.students|, c);
        Some(EA.CreditsDifference(|selectedStudents|, |action.students|, c))
    }

    function EndDate(): Option<Calendar.Day>
      reads this
      requires Valid()
    {
      EA.CalculateEndDate(startDate, weeklyDedication, FormationHours(action.duration))
    }

    predicate SubmitDisabled()
      reads this`selectedStudents
    {
      |selectedStudents| == 0
    }

    method SetOpen(value: bool)
      modifies this
      requires Valid()
      ensures Valid()
      ensures open == value
      ensures action == old(action) && students == old(students) && selectedStudents == old(selectedStudents)
      ensures studentSearchTerm == old(studentSearchTerm) && startDate == old(startDate)
      ensures weeklyDedication == old(weeklyDedication)
    {
      open := value;
    }

    method SetStudentSearchTerm(term: string)
      modifies this
      requires Valid()
      ensures Valid()
      ensures studentSearchTerm == term
      ensures open == old(open) && action == old(action) && students == old(students)
      ensures selectedStudents == old(selectedStudents)
      ensures startDate == old(startDate) && weeklyDedication == old(weeklyDedication)
    {
      studentSearchTerm := term;
    }

    /** handleSelectStudent: enrolled students cannot be deselected. */
    method HandleSelectStudent(id: int)
      modifies this
      requires Valid()
      ensures Valid()
      ensures selectedStudents == Roster.ProtectedToggle(old(selectedStudents), OriginalIds(), id)
      ensures open == old(open) && action == old(action) && students == old(students)
      ensures studentSearchTerm == old(studentSearchTerm)
      ensures startDate == old(startDate) && weeklyDedication == old(weeklyDedication)
    {
      Roster.ProtectedToggleSpec(selectedStudents, OriginalIds(), id);
      if id in OriginalIds() {
        return;
      }
      selectedStudents := Roster.Toggle(selectedStudents, id);
    }

    /** handleSelectAllStudents over the ids the search shows. */
    method HandleSelectAllStudents()
      modifies this
      requires Valid()
      ensures Valid()
      ensures selectedStudents == Roster.ProtectedSelectAll(old(selectedStudents), OriginalIds(), SD.Ids(old(FilteredStudents())))
      ensures open == old(open) && action == old(action) && students == old(students)
      ensures studentSearchTerm == old(studentSearchTerm)
      ensures startDate == old(startDate) && weeklyDedication == old(weeklyDedication)
    {
      var filteredIds := SD.Ids(FilteredStudents());
      Roster.ProtectedSelectAllSpec(selectedStudents, OriginalIds(), filteredIds);
      selectedStudents := Roster.ProtectedSelectAll(selectedStudents, OriginalIds(), filteredIds);
    }

    /** addIndividualStudent (see the findings about the DNI check). */
    method AddIndividualStudent(form: SD.StudentForm) returns (outcome: Result<SD.Student, SD.AddError>)
      modifies this
      requires Valid()
      ensures Valid()
      ensures outcome == SD.Validate(old(students), form)
      ensures students == SD.AddStudent(old(students), form)
      ensures open == old(open) && action == old(action) && selectedStudents == old(selectedStudents)
      ensures studentSearchTerm == old(studentSearchTerm)
      ensures startDate == old(startDate) && weeklyDedication == old(weeklyDedication)
    {
      outcome := SD.Validate(students, form);
      SD.AddStudentKeepsInvariants(students, form);
      students := SD.AddStudent(students, form);
    }

    /** The calendar's onSelect: only a valid day replaces the start date. */
    method SelectStartDate(date: Option<Calendar.Day>, minDate: Calendar.Day)
      modifies this
      requires Valid()
      ensures Valid()
      ensures startDate == (if date.Some? && Calendar.IsValidStartDate(date.value, minDate) then date.value else old(startDate))
      ensures open == old(open) && action == old(action) && students == old(students)
      ensures selectedStudents == old(selectedStudents)
      ensures studentSearchTerm == old(studentSearchTerm) && weeklyDedication == old(weeklyDedication)
    {
      if date.Some? && Calendar.IsValidStartDate(date.value, minDate) {
        startDate := date.value;
      }
    }

    method SetWeeklyDedication(hours: nat)
      modifies this
      requires Valid() && 2 <= hours <= 40
      ensures Valid()
      ensures weeklyDedication == hours
      ensures open == old(open) && action == old(action) && students == old(students)
      ensures selectedStudents == old(selectedStudents)
      ensures studentSearchTerm == old(studentSearchTerm) && startDate == old(startDate)
    {
      weeklyDedication := hours;
    }

    /** onSubmit: `onSave` receives the selection and its length with the form
        values, and the dialog closes. */
    method OnSubmit() returns (payload: SavePayload)
      modifies this
      requires Valid()
      ensures Valid()
      ensures payload.studentsCount == |payload.selectedStudents|
      ensures payload.selectedStudents == selectedStudents
      ensures payload.startDate == startDate && payload.weeklyDedication == weeklyDedication
      ensures 2 <= payload.weeklyDedication <= 40
      ensures forall id :: id in OriginalIds() ==> id in payload.selectedStudents
      ensures !open
      ensures action == old(action) && students == old(students) && selectedStudents == old(selectedStudents)
      ensures studentSearchTerm == old(studentSearchTerm)
      ensures startDate == old(startDate) && weeklyDedication == old(weeklyDedication)
    {
      payload := SavePayload(|selectedStudents|, startDate, weeklyDedication, selectedStudents);
      open := false;
    }
  }

  /** An action without a duration costs 7 credits a student. */
  lemma MissingDurationCredits()
    ensures EA.CreditsPerStudent(FormationHours(None)) == Some(7)
  {
    EA.Action1Figures(0);
  }
}
