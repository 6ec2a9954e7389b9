/** The three-step "create training action" screen: pick a formation, pick
    the students (at least 18 training hours in total), pick a Thursday to
    start on, then confirm. */
module CreateAction {
  import opened Wrappers
  import Text
  import Calendar
  import ActionRules
  import Roster
  import SD = StudentDirectory

  datatype SubFormation = SubFormation(
    name: string, category: string, duration: string, description: string, credits: nat)

  datatype Formation = Formation(
    id: int, name: string, category: string, courses: nat, duration: string,
    description: string, subFormations: Option<seq<SubFormation>>)

  /** The training hours a bonifiable action must reach across its students. */
  const MinTrainingHours: nat := 18

  // ---------------------------------------------------------------------
  // credits, hours and the student minimum

  /** The `reduce` that adds up the sub-courses' credits, left to right. */
  function SumCredits(subs: seq<SubFormation>): (total: nat)
    ensures subs == [] ==> total == 0
    ensures forall k :: 0 <= k < |subs| ==> subs[k].credits <= total
  {
    if subs == [] then 0 else SumCredits(subs[..|subs| - 1]) + subs[|subs| - 1].credits
  }

  /** Adding up two runs of sub-courses one after the other gives the sum
      of their totals. */
  lemma {:induction false} SumCreditsAppend(a: seq<SubFormation>, b: seq<SubFormation>)
    ensures SumCredits(a + b) == SumCredits(a) + SumCredits(b)
  {
    if b != [] {
      assert (a + b)[..|a + b| - 1] == a + b[..|b| - 1];
      SumCreditsAppend(a, b[..|b| - 1]);
    } else {
      assert a + b == a;
    }
  }

  /** getFormationCredits: the sum of the sub-courses' credits, 0 without a
      formation or without sub-courses. */
  function FormationCredits(f: Option<Formation>): (c: nat)
    ensures f.None? || f.value.subFormations.None? ==> c == 0
    ensures f.Some? && f.value.subFormations.Some? ==>
      forall k :: 0 <= k < |f.value.subFormations.value| ==> f.value.subFormations.value[k].credits <= c
  {
    if f.Some? && f.value.subFormations.Some? then SumCredits(f.value.subFormations.value) else 0
  }

  /** getFormationHours: 0 without a formation, otherwise the number before
      the duration's first space; None stands for NaN. */
  function FormationHours(f: Option<Formation>): (h: Option<nat>)
    ensures f.None? ==> h == Some(0)
    ensures f.Some? && f.value.duration == "" ==> h.None?
  {
    if f.None? then Some(0) else Text.ParseHours(f.value.duration)
  }

  /** getMinimumStudentsRequired. None stands for a minimum no selection
      reaches: `Math.ceil(18 / 0)` is Infinity and NaN hours give NaN. */
  function MinimumStudentsRequired(hours: Option<nat>): (m: Option<nat>)
    ensures m.Some? <==> hours.Some? && hours.value > 0
    ensures m.Some? ==> m.value >= 1 && m.value * hours.value >= MinTrainingHours
    ensures m.Some? ==> m.value == 1 || (m.value - 1) * hours.value < MinTrainingHours
    ensures m.Some? && hours.value >= MinTrainingHours ==> m.value == 1
  {
    match hours
    case None => None
    case Some(h) =>
      if h >= MinTrainingHours then Some(1)
      else if h == 0 then None
      else Some(ActionRules.CeilDiv(MinTrainingHours, h))
  }

  /** canProceedToNextStep: `selected >= minimum`, false against Infinity or NaN. */
  function CanProceed(selectedCount: nat, hours: Option<nat>): (ok: bool)
    ensures ok ==> hours.Some? && hours.value > 0 && selectedCount >= 1
    ensures hours.Some? && hours.value >= MinTrainingHours ==> (ok <==> selectedCount >= 1)
  {
    var m := MinimumStudentsRequired(hours);
    m.Some? && selectedCount >= m.value
  }

  /** The minimum is the least count whose hours reach 18: a selection may
      proceed exactly when its students together reach 18 hours. */
  lemma CanProceedIff(selectedCount: nat, hours: Option<nat>)
    ensures CanProceed(selectedCount, hours) <==>
      hours.Some? && selectedCount * hours.value >= MinTrainingHours
  {
    var m := MinimumStudentsRequired(hours);
    if m.Some? {
      var h := hours.value;
      if selectedCount >= m.value {
        ActionRules.MulMonotone(m.value, selectedCount, h);
      } else if m.value > 1 {
        ActionRules.MulMonotone(selectedCount, m.value - 1, h);
      }
    }
  }

  /** The inline alert next to the step-2 button. */
  datatype MinimumAlert =
    | Hidden
    | Missing(required: nat, short: nat)  // "al menos {required} ... Faltan {short}"
    | MissingUnbounded                    // the count shown is Infinity

  /** Shown while the hours are below 18 and the selection is below the
      minimum (NaN hours hide it). */
  function MinimumAlertFor(hours: Option<nat>, selectedCount: nat): (a: MinimumAlert)
    ensures a != Hidden <==> hours.Some? && hours.value < MinTrainingHours && !CanProceed(selectedCount, hours)
    ensures a.Missing? ==> a.short > 0 && selectedCount + a.short == a.required
    ensures a.Missing? ==> MinimumStudentsRequired(hours) == Some(a.required)
    ensures a.MissingUnbounded? ==> hours == Some(0)
  {
    var m := MinimumStudentsRequired(hours);
    if hours.None? || hours.value >= MinTrainingHours then Hidden
    else if m.None? then MissingUnbounded
    else if selectedCount < m.value then Missing(m.value, m.value - selectedCount)
    else Hidden
  }

  /** getTotalCreditsConsumption. */
  function TotalCreditsConsumption(f: Option<Formation>, selectedCount: nat): (t: nat)
    ensures f.None? || selectedCount == 0 ==> t == 0
  {
    FormationCredits(f) * selectedCount
  }

  /** Each further selected student costs the formation's credits once
      more. */
  lemma TotalCreditsOneMore(f: Option<Formation>, selectedCount: nat)
    ensures TotalCreditsConsumption(f, selectedCount + 1) ==
      TotalCreditsConsumption(f, selectedCount) + FormationCredits(f)
  {
  }

  // ---------------------------------------------------------------------
  // dates

  /** calculateEndDate: `ceil(hours / 3)` weeks after the start, whatever the
      weekly dedication; NaN hours give an invalid date (None). */
  function CalculateEndDate(start: Calendar.Day, hours: Option<nat>): (e: Option<Calendar.Day>)
    ensures e.Some? <==> hours.Some?
    ensures e.Some? ==> e.value == ActionRules.EndDate(start, hours.value, 3)
  {
    if hours.None? then None else Some(ActionRules.EndDate(start, hours.value, 3))
  }

  /** getMinThursday: walk forward a day at a time from `minDate` until a
      Thursday. The page defines it but never calls it: the date picker
      checks `isValidStartDate` instead. */
  method GetMinThursday(minDate: Calendar.Day) returns (nextThursday: Calendar.Day)
    ensures nextThursday == Calendar.FirstThursdayFrom(minDate)
    ensures Calendar.IsValidStartDate(nextThursday, minDate)
  {
    nextThursday := minDate;
    while !Calendar.IsThursday(nextThursday)
      invariant minDate <= nextThursday <= Calendar.FirstThursdayFrom(minDate)
      decreases Calendar.FirstThursdayFrom(minDate) - nextThursday
    {
      nextThursday := nextThursday + 1;
    }
  }

  // ---------------------------------------------------------------------
  // confirmation

  /** The record `handleConfirmAction` prepends to the stored action list;
      the id and both dates come from the clock and date-fns `format`. */
  datatype RequestedAction = RequestedAction(
    id: int, name: string, students: nat, creationDate: string, startDate: string, status: string)

  function ConfirmAction(
    existing: seq<RequestedAction>, formation: Option<Formation>, selectedCount: nat,
    id: int, creationDate: string, startDate: string): (r: seq<RequestedAction>)
    ensures |r| == |existing| + 1 && r[1..] == existing
    ensures r[0].status == "solicited" && r[0].students == selectedCount
    ensures r[0].name == (if formation.Some? then formation.value.name else "")
  {
    var name := if formation.Some? then formation.value.name else "";
    [RequestedAction(id, name, selectedCount, creationDate, startDate, "solicited")] + existing
  }

  // ---------------------------------------------------------------------
  // the screen

  /** The outcome of picking a day in the calendar. */
  datatype DateChange = NoDate | Accepted | Rejected

  class CreateActionScreen {
    var formation: Option<Formation>
    var students: seq<SD.Student>
    var selectedStudents: seq<int>
    var studentSearchTerm: string
    var startDate: Option<Calendar.Day>
    var endDate: Option<Calendar.Day>

    /** The students list is never empty and keeps ids and DNIs distinct;
        the selection never holds an id twice. */
    predicate Valid()
      reads this
    {
      && |students| > 0 && SD.UniqueIds(students) && SD.DistinctDnis(students)
      && Roster.NoDuplicates(selectedStudents)
    }

    constructor(initialStudents: seq<SD.Student>)
      requires |initialStudents| > 0 && SD.UniqueIds(initialStudents) && SD.DistinctDnis(initialStudents)
      ensures Valid()
      ensures formation == None && students == initialStudents && selectedStudents == []
      ensures studentSearchTerm == "" && startDate == None && endDate == None
    {
      formation := None;
      students := initialStudents;
      selectedStudents := [];
      studentSearchTerm := "";
      startDate := None;
      endDate := None;
    }

    /** The students the search shows. */
    function FilteredStudents(): seq<SD.Student>
      reads this`students, this`studentSearchTerm
    {
      SD.FilterStudents(students, studentSearchTerm)
    }

    /** handleSelectFormation: clicking the selected formation unselects it. */
    method HandleSelectFormation(f: Formation)
      modifies this
      ensures formation == (if old(formation).Some? && old(formation).value.id == f.id then None else Some(f))
      ensures students == old(students) && selectedStudents == old(selectedStudents)
      ensures studentSearchTerm == old(studentSearchTerm)
      ensures startDate == old(startDate) && endDate == old(endDate)
    {
      if formation.Some? && formation.value.id == f.id {
        formation := None;
      } else {
        formation := Some(f);
      }
    }

    method SetStudentSearchTerm(term: string)
      modifies this
      requires Valid()
      ensures Valid()
      ensures studentSearchTerm == term
      ensures formation == old(formation) && students == old(students) && selectedStudents == old(selectedStudents)
      ensures startDate == old(startDate) && endDate == old(endDate)
    {
      studentSearchTerm := term;
    }

    /** handleSelectStudent. */
    method HandleSelectStudent(id: int)
      modifies this
      requires Valid()
      ensures Valid()
      ensures selectedStudents == Roster.Toggle(old(selectedStudents), id)
      ensures formation == old(formation) && students == old(students) && studentSearchTerm == old(studentSearchTerm)
      ensures startDate == old(startDate) && endDate == old(endDate)
    {
      Roster.ToggleKeepsNoDuplicates(selectedStudents, id);
      selectedStudents := Roster.Toggle(selectedStudents, id);
    }

    /** handleSelectAllStudents over the ids the search shows. */
    method HandleSelectAllStudents()
      modifies this
      requires Valid()
      ensures Valid()
      ensures selectedStudents == Roster.SelectAllOrNone(old(selectedStudents), SD.Ids(old(FilteredStudents())))
      ensures formation == old(formation) && students == old(students) && studentSearchTerm == old(studentSearchTerm)
      ensures startDate == old(startDate) && endDate == old(endDate)
    {
      var filteredIds := SD.Ids(FilteredStudents());
      SD.FilterKeepsDistinctIds(students, studentSearchTerm);
      selectedStudents := Roster.SelectAllOrNone(selectedStudents, filteredIds);
    }

    /** addIndividualStudent: the form is validated and, when accepted,
        the new student is appended (see the findings about the DNI check). */
    method AddIndividualStudent(form: SD.StudentForm) returns (outcome: Result<SD.Student, SD.AddError>)
      modifies this
      requires Valid()
      ensures Valid()
      ensures outcome == SD.Validate(old(students), form)
      ensures students == SD.AddStudent(old(students), form)
      ensures formation == old(formation) && selectedStudents == old(selectedStudents)
      ensures studentSearchTerm == old(studentSearchTerm)
      ensures startDate == old(startDate) && endDate == old(endDate)
    {
      outcome := SD.Validate(students, form);
      SD.AddStudentKeepsInvariants(students, form);
      students := SD.AddStudent(students, form);
    }

    /** handleStartDateChange: a valid day sets the start and the end date,
        an invalid one only raises a toast, no day changes nothing. */
    method HandleStartDateChange(date: Option<Calendar.Day>, minDate: Calendar.Day) returns (change: DateChange)
      modifies this
      requires Valid()
      ensures Valid()
      ensures change == Accepted <==> date.Some? && Calendar.IsValidStartDate(date.value, minDate)
      ensures change == NoDate <==> date.None?
      ensures change == Accepted ==> startDate == date && endDate == CalculateEndDate(date.value, FormationHours(formation))
      ensures change != Accepted ==> startDate == old(startDate) && endDate == old(endDate)
      ensures formation == old(formation) && students == old(students) && selectedStudents == old(selectedStudents)
      ensures studentSearchTerm == old(studentSearchTerm)
    {
      if date.Some? && Calendar.IsValidStartDate(date.value, minDate) {
        startDate := date;
        endDate := CalculateEndDate(date.value, FormationHours(formation));
        change := Accepted;
      } else if date.Some? {
        change := Rejected;
      } else {
        change := NoDate;
      }
    }
  }

  // ---------------------------------------------------------------------
  // the mock catalogue

  const Formation1: Formation := Formation(
    1, "Automatización en Excel con VBA", "Ofimática", 2, "10 h. 18 min.", "",
    Some([SubFormation("Fundamentos de VBA en Excel", "Ofimática", "4 h. 30 min.",
            "Aprende los conceptos básicos de VBA para automatizar tareas simples en Excel.", 3),
          SubFormation("Automatización avanzada con VBA", "Ofimática", "5 h. 48 min.",
            "Desarrolla macros complejas y automatiza procesos avanzados en Excel.", 4)]))

  const Formation2: Formation := Formation(
    2, "Blockchain: Fundamentos y Aplicaciones Prácticas", "Blockchain", 3, "5 h. 18 min.", "",
    Some([SubFormation("Introducción a Blockchain", "Blockchain", "1 h. 45 min.",
            "Comprende los fundamentos de la tecnología blockchain y sus aplicaciones.", 2),
          SubFormation("Criptomonedas y Bitcoin", "Blockchain", "2 h. 15 min.",
            "Aprende sobre criptomonedas, Bitcoin y el ecosistema financiero digital.", 3),
          SubFormation("Smart Contracts con Ethereum", "Blockchain", "1 h. 18 min.",
            "Desarrolla contratos inteligentes en la plataforma Ethereum.", 2)]))

  /** Formation 1 of the catalogue: 10 hours, 3 + 4 = 7 credits a student,
      so two students are needed. */
  lemma Formation1Figures()
    ensures FormationHours(Some(Formation1)) == Some(10)
    ensures FormationCredits(Some(Formation1)) == 7
    ensures MinimumStudentsRequired(FormationHours(Some(Formation1))) == Some(2)
    ensures TotalCreditsConsumption(Some(Formation1), 2) == 14
  {
    HoursOfPrinted(Formation1.duration, 10, 18);
    CreditsOfTwo(Formation1.subFormations.value);
    CeilDivExample(18, 10, 2);
  }

  lemma HoursOfPrinted(duration: string, hours: nat, minutes: nat)
    requires duration == Text.FormatDuration(hours, minutes)
    ensures Text.ParseHours(duration) == Some(hours)
  {
    Text.DurationRoundTrip(hours, minutes);
  }

  lemma CreditsOfTwo(subs: seq<SubFormation>)
    requires |subs| == 2
    ensures SumCredits(subs) == subs[0].credits + subs[1].credits
  {
    assert subs[..1][..0] == [];
    assert SumCredits(subs[..1]) == subs[0].credits;
  }

  /** Formation 2: 5 hours, so four students are needed. */
  lemma Formation2Figures()
    ensures FormationHours(Some(Formation2)) == Some(5)
    ensures MinimumStudentsRequired(FormationHours(Some(Formation2))) == Some(4)
  {
    HoursOfPrinted(Formation2.duration, 5, 18);
    CeilDivExample(18, 5, 4);
  }

  lemma CeilDivExample(a: nat, b: nat, q: nat)
    requires b > 0 && q * b >= a && (q == 0 || (q - 1) * b < a)
    ensures ActionRules.CeilDiv(a, b) == q
  {
    ActionRules.CeilDivUnique(a, b, q);
  }

  /** Without a chosen formation the screen computes 0 hours, whose minimum
      no selection reaches; the step-2 button stays disabled. */
  lemma NoFormationBlocksStepTwo(selectedCount: nat)
    ensures !CanProceed(selectedCount, FormationHours(None))
    ensures MinimumAlertFor(FormationHours(None), selectedCount) == MissingUnbounded
  {
  }
}
