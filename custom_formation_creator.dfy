/** The custom-formation page: a generated list of courses that can be
    pruned one course at a time, as long as the remaining hours meet the
    minimum for the number of students, and then handed to the create-action
    screen as a formation. */
module CustomFormationCreator {
  import opened Wrappers
  import Text
  import CA = CreateAction

  datatype Course = Course(
    id: int, name: string, category: string, duration: string, description: string, credits: nat)

  datatype CustomFormation = CustomFormation(
    name: string, category: string, courses: seq<Course>, totalDuration: string, totalCredits: nat)

  /** The alert data of a rejected removal. */
  datatype MinHoursData = MinHoursData(currentHours: nat, minHours: nat, additionalStudents: nat)

  /** The number of students typed: `parseInt(value) || 1`. */
  function StudentsInput(parsed: Option<int>): (n: int)
    ensures n != 0
    ensures parsed.Some? && parsed.value != 0 ==> n == parsed.value
  {
    if parsed.None? || parsed.value == 0 then 1 else parsed.value
  }

  // ---------------------------------------------------------------------
  // the hour tiers

  /** getMinHoursRequired: 8 hours up to 5 students, then 12, 16, 20 and 24
      by steps of five students. */
  function MinHoursRequired(students: int): (h: nat)
    ensures 8 <= h <= 24
    ensures students <= 5 ==> h == 8
    ensures students > 20 ==> h == 24
  {
    if students <= 5 then 8
    else if students <= 10 then 12
    else if students <= 15 then 16
    else if students <= 20 then 20
    else 24
  }

  /** More students never need fewer hours. */
  lemma MinHoursMonotone(a: int, b: int)
    requires a <= b
    ensures MinHoursRequired(a) <= MinHoursRequired(b)
  {
  }

  // ---------------------------------------------------------------------
  // totals

  function CourseHours(c: Course): Option<nat> {
    Text.ParseHours(c.duration)
  }

  /** Every course's duration has a number of hours (none is NaN). */
  predicate AllParse(courses: seq<Course>) {
    forall k :: 0 <= k < |courses| ==> CourseHours(courses[k]).Some?
  }

  /** The reduce over `parseFloat(duration.split(' ')[0])`. */
  function TotalHours(courses: seq<Course>): nat
    requires AllParse(courses)
  {
    if courses == [] then 0 else CourseHours(courses[0]).value + TotalHours(courses[1..])
  }

  function TotalCredits(courses: seq<Course>): nat {
    if courses == [] then 0 else courses[0].credits + TotalCredits(courses[1..])
  }

  /** `${Math.floor(h)} h. ${Math.round(h % 1 * 60)} min.` for whole hours. */
  function TotalDuration(hours: nat): string {
    Text.FormatDuration(hours, 0)
  }

  /** The printed total reads back as the hours it was printed from. */
  lemma TotalDurationParses(hours: nat)
    ensures Text.ParseHours(TotalDuration(hours)) == Some(hours)
  {
    Text.DurationRoundTrip(hours, 0);
  }

  /** The stored totals are those of the courses. */
  predicate Consistent(cf: CustomFormation) {
    && AllParse(cf.courses)
    && cf.totalCredits == TotalCredits(cf.courses)
    && cf.totalDuration == TotalDuration(TotalHours(cf.courses))
  }

  /** `courses.filter(course => course.id !== courseId)`. */
  function RemoveById(courses: seq<Course>, id: int): (r: seq<Course>)
    ensures |r| <= |courses|
    ensures forall c :: c in r <==> c in courses && c.id != id
  {
    if courses == [] then []
    else if courses[0].id == id then RemoveById(courses[1..], id)
    else [courses[0]] + RemoveById(courses[1..], id)
  }

  lemma RemoveKeepsParse(courses: seq<Course>, id: int)
    requires AllParse(courses)
    ensures AllParse(RemoveById(courses, id))
  {
    var r := RemoveById(courses, id);
    forall k | 0 <= k < |r| ensures CourseHours(r[k]).Some? {
      assert r[k] in courses;
    }
  }

  /** Removing courses never adds hours. */
  lemma {:induction false} RemoveNeverAddsHours(courses: seq<Course>, id: int)
    requires AllParse(courses)
    ensures AllParse(RemoveById(courses, id))
    ensures TotalHours(RemoveById(courses, id)) <= TotalHours(courses)
  {
    RemoveKeepsParse(courses, id);
    if courses != [] {
      assert AllParse(courses[1..]) by {
        forall k | 0 <= k < |courses[1..]| ensures CourseHours(courses[1..][k]).Some? {
          assert courses[1..][k] == courses[k + 1];
        }
      }
      RemoveNeverAddsHours(courses[1..], id);
    }
  }

  // ---------------------------------------------------------------------
  // the downward search

  /** How many times the loop steps down from `test`: while the count is
      positive and its minimum exceeds the hours. */
  function StepsDown(test: int, totalHours: nat): nat
    decreases test
  {
    if test > 0 && MinHoursRequired(test) > totalHours then 1 + StepsDown(test - 1, totalHours) else 0
  }

  /** The loop of removeCourse: starting one below the student count, step
      down while that count still needs more hours than remain. */
  method SearchFewerStudents(numberOfStudents: int, totalHours: nat) returns (additionalStudents: nat)
    ensures additionalStudents == StepsDown(numberOfStudents - 1, totalHours)
    ensures numberOfStudents - 1 > 0 ==> additionalStudents <= numberOfStudents - 1
    ensures numberOfStudents - 1 <= 0 ==> additionalStudents == 0
    ensures var test := numberOfStudents - 1 - additionalStudents;
      test <= 0 || MinHoursRequired(test) <= totalHours
    ensures forall t :: numberOfStudents - 1 - additionalStudents < t <= numberOfStudents - 1 ==>
      MinHoursRequired(t) > totalHours
  {
    additionalStudents := 0;
    var testStudents := numberOfStudents - 1;
    while testStudents > 0 && MinHoursRequired(testStudents) > totalHours
      invariant additionalStudents + testStudents == numberOfStudents - 1
      invariant additionalStudents > 0 ==> testStudents >= 0
      invariant StepsDown(numberOfStudents - 1, totalHours) == additionalStudents + StepsDown(testStudents, totalHours)
      invariant forall t :: testStudents < t <= numberOfStudents - 1 ==> MinHoursRequired(t) > totalHours
      decreases testStudents
    {
      additionalStudents := additionalStudents + 1;
      testStudents := testStudents - 1;
    }
  }

  // ---------------------------------------------------------------------
  // removing a course

  /** The alert's figures, the suggested reduction found by the search. */
  method AlertData(numberOfStudents: int, currentHours: nat, minHours: nat) returns (data: MinHoursData)
    ensures data == MinHoursData(currentHours, minHours, StepsDown(numberOfStudents - 1, currentHours))
  {
    var additionalStudents := SearchFewerStudents(numberOfStudents, currentHours);
    data := MinHoursData(currentHours, minHours, additionalStudents);
  }

  datatype Removal = Accepted(formation: CustomFormation) | Rejected(data: MinHoursData)

  /** removeCourse on a formation whose totals are consistent. */
  function RemovalOutcome(cf: CustomFormation, numberOfStudents: int, courseId: int): (r: Removal)
    requires Consistent(cf)
    ensures var remaining := RemoveById(cf.courses, courseId);
      && AllParse(remaining)
      && (r.Rejected? <==> TotalHours(remaining) < MinHoursRequired(numberOfStudents))
      && (r.Rejected? ==> r.data.currentHours == TotalHours(remaining)
                          && r.data.minHours == MinHoursRequired(numberOfStudents)
                          && r.data.additionalStudents == StepsDown(numberOfStudents - 1, TotalHours(remaining)))
      && (r.Accepted? ==> r.formation.courses == remaining && Consistent(r.formation)
                          && r.formation.name == cf.name && r.formation.category == cf.category)
  {
    var remaining := RemoveById(cf.courses, courseId);
    RemoveKeepsParse(cf.courses, courseId);
    var hours := TotalHours(remaining);
    var minHours := MinHoursRequired(numberOfStudents);
    if hours < minHours then
      Rejected(MinHoursData(hours, minHours, StepsDown(numberOfStudents - 1, hours)))
    else
      Accepted(cf.(courses := remaining, totalDuration := TotalDuration(hours), totalCredits := TotalCredits(remaining)))
  }

  /** A rejected removal leaves a formation that had enough hours: the
      minimum was met before and is missed after. */
  lemma RejectionNeedsEnoughBefore(cf: CustomFormation, numberOfStudents: int, courseId: int)
    requires Consistent(cf)
    requires TotalHours(cf.courses) >= MinHoursRequired(numberOfStudents)
    requires RemovalOutcome(cf, numberOfStudents, courseId).Rejected?
    ensures exists c :: c in cf.courses && c.id == courseId
  {
    if forall c :: c in cf.courses ==> c.id != courseId {
      RemoveAbsentId(cf.courses, courseId);
    }
  }

  lemma {:induction false} RemoveAbsentId(courses: seq<Course>, id: int)
    requires forall c :: c in courses ==> c.id != id
    ensures RemoveById(courses, id) == courses
  {
    if courses != [] {
      RemoveAbsentId(courses[1..], id);
      assert [courses[0]] + courses[1..] == courses;
    }
  }

  // ---------------------------------------------------------------------
  // the alert's alternative

  /** The alert's "Podrías impartir esta formación a N alumnos o menos", as
      written: N = numberOfStudents - additionalStudents, shown when the
      additional count is positive. */
  function AlternativeAsWritten(numberOfStudents: int, data: MinHoursData): Option<int> {
    if data.additionalStudents > 0 then Some(numberOfStudents - data.additionalStudents) else None
  }

  /** The count the alert suggests as written never fits the hours. */
  lemma AlternativeAsWrittenTooLarge(numberOfStudents: int, totalHours: nat)
    requires HoursBelowMinimum(numberOfStudents, totalHours)
    ensures var data := MinHoursData(totalHours, MinHoursRequired(numberOfStudents), StepsDown(numberOfStudents - 1, totalHours));
      AlternativeAsWritten(numberOfStudents, data).Some? ==>
        MinHoursRequired(AlternativeAsWritten(numberOfStudents, data).value) > totalHours
  {
    var k := StepsDown(numberOfStudents - 1, totalHours);
    if k > 0 {
      StepsDownSkipped(numberOfStudents - 1, totalHours, numberOfStudents - k);
    }
  }

  predicate HoursBelowMinimum(numberOfStudents: int, totalHours: nat) {
    totalHours < MinHoursRequired(numberOfStudents)
  }

  /** Every count the search stepped over needs more hours than remain. */
  lemma {:induction false} StepsDownSkipped(test: int, totalHours: nat, t: int)
    requires test - StepsDown(test, totalHours) < t <= test
    ensures MinHoursRequired(t) > totalHours
    decreases test
  {
    if t < test {
      StepsDownSkipped(test - 1, totalHours, t);
    }
  }

  /** The search stops at a count that fits, or at zero. */
  lemma {:induction false} StepsDownStops(test: int, totalHours: nat)
    ensures var stop := test - StepsDown(test, totalHours);
      stop <= 0 || MinHoursRequired(stop) <= totalHours
    decreases test
  {
    if test > 0 && MinHoursRequired(test) > totalHours {
      StepsDownStops(test - 1, totalHours);
    }
  }

  /** The evidently intended alternative: the count the search stopped at,
      when that is a positive count. */
  function Alternative(numberOfStudents: int, totalHours: nat): (r: Option<int>)
    ensures r.Some? ==> 0 < r.value < numberOfStudents && MinHoursRequired(r.value) <= totalHours
    ensures r.Some? ==> forall t :: r.value < t < numberOfStudents ==> MinHoursRequired(t) > totalHours
    ensures r.None? ==> forall t :: 0 < t < numberOfStudents ==> MinHoursRequired(t) > totalHours
  {
    var stop := numberOfStudents - 1 - StepsDown(numberOfStudents - 1, totalHours);
    StepsDownStops(numberOfStudents - 1, totalHours);
    forall t | stop < t < numberOfStudents ensures MinHoursRequired(t) > totalHours {
      StepsDownSkipped(numberOfStudents - 1, totalHours, t);
    }
    if stop > 0 then Some(stop) else None
  }

  // ---------------------------------------------------------------------
  // continuing to the create-action screen

  function ToSubFormation(c: Course): CA.SubFormation {
    CA.SubFormation(c.name, c.category, c.duration, c.description, c.credits)
  }

  /** handleContinue: no formation or an empty one is refused; otherwise the
      formation handed on counts the courses, carries the total duration and
      maps every course, in order, to a sub-course with the same fields. */
  function ContinuePayload(cf: Option<CustomFormation>, numberOfStudents: int, id: int): (r: Option<CA.Formation>)
    ensures r.None? <==> cf.None? || cf.value.courses == []
    ensures r.Some? ==> r.value.courses == |cf.value.courses| && r.value.duration == cf.value.totalDuration
    ensures r.Some? ==> r.value.name == cf.value.name && r.value.category == cf.value.category
    ensures r.Some? ==> r.value.subFormations.Some? && |r.value.subFormations.value| == |cf.value.courses|
    ensures r.Some? ==> forall k :: 0 <= k < |cf.value.courses| ==>
      var c, s := cf.value.courses[k], r.value.subFormations.value[k];
      s.name == c.name && s.category == c.category && s.duration == c.duration
      && s.description == c.description && s.credits == c.credits
  {
    if cf.None? || cf.value.courses == [] then None
    else
      var courses := cf.value.courses;
      Some(CA.Formation(
        id, cf.value.name, cf.value.category, |courses|, cf.value.totalDuration,
        "Formación personalizada creada para " + Text.IntToString(numberOfStudents) + " alumnos según especificaciones detalladas",
        Some(seq(|courses|, k requires 0 <= k < |courses| => ToSubFormation(courses[k])))))
  }

  lemma {:induction false} SumCreditsOfMapped(courses: seq<Course>, subs: seq<CA.SubFormation>)
    requires |subs| == |courses|
    requires forall k :: 0 <= k < |courses| ==> subs[k].credits == courses[k].credits
    ensures CA.SumCredits(subs) == TotalCredits(courses)
    decreases |courses|
  {
    if courses != [] {
      var n := |courses|;
      SumCreditsOfMapped(courses[..n - 1], subs[..n - 1]);
      TotalCreditsSnoc(courses[..n - 1], courses[n - 1]);
      assert courses[..n - 1] + [courses[n - 1]] == courses;
    }
  }

  lemma {:induction false} TotalCreditsSnoc(courses: seq<Course>, c: Course)
    ensures TotalCredits(courses + [c]) == TotalCredits(courses) + c.credits
  {
    if courses != [] {
      assert (courses + [c])[1..] == courses[1..] + [c];
      TotalCreditsSnoc(courses[1..], c);
    } else {
      assert [c][1..] == [];
    }
  }

  /** The create-action screen reads back the page's totals from the
      formation it is handed: the hours from the duration and the credits
      from the sub-courses. */
  lemma ContinueKeepsTotals(cf: CustomFormation, numberOfStudents: int, id: int)
    requires Consistent(cf) && cf.courses != []
    ensures var f := ContinuePayload(Some(cf), numberOfStudents, id).value;
      && CA.FormationHours(Some(f)) == Some(TotalHours(cf.courses))
      && CA.FormationCredits(Some(f)) == cf.totalCredits
  {
    var f := ContinuePayload(Some(cf), numberOfStudents, id).value;
    SumCreditsOfMapped(cf.courses, f.subFormations.value);
    TotalDurationParses(TotalHours(cf.courses));
  }

  // ---------------------------------------------------------------------
  // the generated formation

  // The descriptions of the generated courses.
  const BasicsText := "Conceptos básicos y fundamentos de "
  const BasicsTextEnd := " basados en los requerimientos especificados"
  const PracticeText := "Ejercicios prácticos y casos de uso específicos según los detalles proporcionados"
  const AdvancedText := "Herramientas y técnicas avanzadas para optimizar el trabajo en "

  /** The three courses the generator produces for a first skill. */
  function GeneratedCourses(firstSkill: string): seq<Course> {
    [Course(1, "Fundamentos de " + firstSkill, "Fundamentos", Text.FormatDuration(3, 30),
            BasicsText + firstSkill + BasicsTextEnd, 3),
     Course(2, "Aplicación práctica", "Práctica", Text.FormatDuration(4, 45),
            PracticeText, 4),
     Course(3, "Herramientas avanzadas", "Avanzado", Text.FormatDuration(2, 15),
            AdvancedText + firstSkill, 2)]
  }

  /** The generated formation, whose stored totals are its courses'. */
  function GeneratedFormation(firstSkill: string): (cf: CustomFormation)
    ensures Consistent(cf)
  {
    GeneratedTotals(firstSkill);
    var courses := GeneratedCourses(firstSkill);
    CustomFormation("Formación personalizada: " + firstSkill, "Personalizada", courses,
                    TotalDuration(9), 9)
  }

  lemma CourseHoursOf(c: Course, hours: nat, minutes: nat)
    requires c.duration == Text.FormatDuration(hours, minutes)
    ensures CourseHours(c) == Some(hours)
  {
    Text.DurationRoundTrip(hours, minutes);
  }

  /** The generated courses' hours and credits: 3, 4 and 2 each. */
  lemma GeneratedCourseFigures(firstSkill: string)
    ensures var cs := GeneratedCourses(firstSkill);
      && |cs| == 3 && cs[0].id == 1 && cs[1].id == 2 && cs[2].id == 3
      && CourseHours(cs[0]) == Some(3) && CourseHours(cs[1]) == Some(4) && CourseHours(cs[2]) == Some(2)
      && cs[0].credits == 3 && cs[1].credits == 4 && cs[2].credits == 2
  {
    var cs := GeneratedCourses(firstSkill);
    CourseHoursOf(cs[0], 3, 30);
    CourseHoursOf(cs[1], 4, 45);
    CourseHoursOf(cs[2], 2, 15);
  }

  /** The first course's figures followed by the rest's. */
  lemma TotalsOfCons(courses: seq<Course>)
    requires courses != [] && AllParse(courses)
    ensures AllParse(courses[1..])
    ensures TotalHours(courses) == CourseHours(courses[0]).value + TotalHours(courses[1..])
    ensures TotalCredits(courses) == courses[0].credits + TotalCredits(courses[1..])
  {
    forall k | 0 <= k < |courses[1..]| ensures CourseHours(courses[1..][k]).Some? {
      assert courses[1..][k] == courses[k + 1];
    }
  }

  /** The figures of a list of two courses. */
  lemma TotalsOfTwo(courses: seq<Course>)
    requires |courses| == 2 && AllParse(courses)
    ensures TotalHours(courses) == CourseHours(courses[0]).value + CourseHours(courses[1]).value
    ensures TotalCredits(courses) == courses[0].credits + courses[1].credits
  {
    TotalsOfCons(courses);
    TotalsOfCons(courses[1..]);
    assert courses[1..][1..] == [];
  }

  /** The figures of a list of three courses. */
  lemma TotalsOfThree(courses: seq<Course>)
    requires |courses| == 3
    requires CourseHours(courses[0]).Some? && CourseHours(courses[1]).Some? && CourseHours(courses[2]).Some?
    ensures AllParse(courses)
    ensures TotalHours(courses) ==
      CourseHours(courses[0]).value + CourseHours(courses[1]).value + CourseHours(courses[2]).value
    ensures TotalCredits(courses) == courses[0].credits + courses[1].credits + courses[2].credits
  {
    assert AllParse(courses) by {
      forall k | 0 <= k < |courses| ensures CourseHours(courses[k]).Some? {
        assert k == 0 || k == 1 || k == 2;
      }
    }
    TotalsOfCons(courses);
    var rest := courses[1..];
    assert rest[0] == courses[1] && rest[1] == courses[2];
    TotalsOfTwo(rest);
  }

  /** The generated courses add up to 3 + 4 + 2 = 9 hours and 3 + 4 + 2 = 9
      credits. */
  lemma GeneratedTotals(firstSkill: string)
    ensures AllParse(GeneratedCourses(firstSkill))
    ensures TotalHours(GeneratedCourses(firstSkill)) == 9 && TotalCredits(GeneratedCourses(firstSkill)) == 9
  {
    GeneratedCourseFigures(firstSkill);
    TotalsOfThree(GeneratedCourses(firstSkill));
  }

  /** Whatever the skill, the generated formation has three courses, nine
      credits and a duration that reads back as nine hours. */
  lemma GeneratedFormationFigures(firstSkill: string)
    ensures var cf := GeneratedFormation(firstSkill);
      && Consistent(cf) && |cf.courses| == 3 && cf.totalCredits == 9
      && Text.ParseHours(cf.totalDuration) == Some(9)
  {
    GeneratedCourseFigures(firstSkill);
    TotalDurationParses(9);
  }

  /** Filtering the generated ids 1, 2 and 3 by one of them leaves the other two. */
  lemma RemoveOneOfThree(cs: seq<Course>, courseId: int)
    requires |cs| == 3 && cs[0].id == 1 && cs[1].id == 2 && cs[2].id == 3
    requires 1 <= courseId <= 3
    ensures RemoveById(cs, courseId) ==
      if courseId == 1 then [cs[1], cs[2]] else if courseId == 2 then [cs[0], cs[2]] else [cs[0], cs[1]]
  {
    assert cs[1..][1..][1..] == [];
    assert RemoveById(cs[1..][1..], courseId) == if courseId == 3 then [] else [cs[2]];
  }

  /** Of three courses of 3, 4 and 2 hours with ids 1, 2 and 3, any two
      add up to at most 7 hours. */
  lemma RemovingOneOfThreeLeavesSeven(cs: seq<Course>, courseId: int)
    requires |cs| == 3 && cs[0].id == 1 && cs[1].id == 2 && cs[2].id == 3
    requires CourseHours(cs[0]) == Some(3) && CourseHours(cs[1]) == Some(4) && CourseHours(cs[2]) == Some(2)
    requires 1 <= courseId <= 3
    ensures AllParse(RemoveById(cs, courseId)) && TotalHours(RemoveById(cs, courseId)) <= 7
  {
    RemoveOneOfThree(cs, courseId);
    TotalsOfTwo(RemoveById(cs, courseId));
  }

  /** With the default 5 students every generated course is needed:
      removing any one of them leaves at most 7 of the 8 hours required. */
  lemma DefaultStudentsKeepEveryCourse(firstSkill: string, courseId: int)
    requires 1 <= courseId <= 3
    ensures RemovalOutcome(GeneratedFormation(firstSkill), 5, courseId).Rejected?
  {
    var cf := GeneratedFormation(firstSkill);
    GeneratedCourseFigures(firstSkill);
    RemovingOneOfThreeLeavesSeven(cf.courses, courseId);
    assert MinHoursRequired(5) == 8;
  }

  // ---------------------------------------------------------------------
  // the page

  class CustomFormationCreatorScreen {
    var customFormation: Option<CustomFormation>
    var showMinHoursAlert: bool
    var minHoursData: Option<MinHoursData>
    var numberOfStudents: int
    var formationDetails: string

    /** A shown formation's totals are those of its courses. */
    predicate Valid()
      reads this`customFormation
    {
      customFormation.Some? ==> Consistent(customFormation.value)
    }

    constructor()
      ensures Valid()
      ensures customFormation == None && !showMinHoursAlert && minHoursData == None
      ensures numberOfStudents == 5 && formationDetails == ""
    {
      customFormation := None;
      showMinHoursAlert := false;
      minHoursData := None;
      numberOfStudents := 5;
      formationDetails := "";
    }

    method SetNumberOfStudents(parsed: Option<int>)
      modifies this
      requires Valid()
      ensures Valid()
      ensures numberOfStudents == StudentsInput(parsed)
      ensures customFormation == old(customFormation) && showMinHoursAlert == old(showMinHoursAlert)
      ensures minHoursData == old(minHoursData) && formationDetails == old(formationDetails)
    {
      numberOfStudents := StudentsInput(parsed);
    }

    /** handleGenerateFormation once its timer fires: blank details are
        refused, otherwise the generated formation for the first skill is
        shown (extracting the first skill is left to the caller). */
    method HandleGenerateFormation(firstSkill: string)
      modifies this
      requires Valid()
      ensures Valid()
      ensures Text.IsBlank(formationDetails) ==> customFormation == old(customFormation)
      ensures !Text.IsBlank(formationDetails) ==> customFormation == Some(GeneratedFormation(firstSkill))
      ensures showMinHoursAlert == old(showMinHoursAlert) && minHoursData == old(minHoursData)
      ensures numberOfStudents == old(numberOfStudents) && formationDetails == old(formationDetails)
    {
      var generated := GeneratedFormation(firstSkill);
      if !Text.IsBlank(formationDetails) {
        customFormation := Some(generated);
      }
    }

    method SetFormationDetails(details: string)
      modifies this
      requires Valid()
      ensures Valid()
      ensures formationDetails == details
      ensures customFormation == old(customFormation) && showMinHoursAlert == old(showMinHoursAlert)
      ensures minHoursData == old(minHoursData) && numberOfStudents == old(numberOfStudents)
    {
      formationDetails := details;
    }

    /** The alert's onOpenChange. */
    method SetShowMinHoursAlert(value: bool)
      modifies this
      requires Valid()
      ensures Valid()
      ensures showMinHoursAlert == value
      ensures customFormation == old(customFormation) && minHoursData == old(minHoursData)
      ensures numberOfStudents == old(numberOfStudents) && formationDetails == old(formationDetails)
    {
      showMinHoursAlert := value;
    }

    /** handleRegenerateFormation: close the alert and generate again. */
    method HandleRegenerateFormation(firstSkill: string)
      modifies this
      requires Valid()
      ensures Valid()
      ensures !showMinHoursAlert
      ensures Text.IsBlank(formationDetails) ==> customFormation == old(customFormation)
      ensures !Text.IsBlank(formationDetails) ==> customFormation == Some(GeneratedFormation(firstSkill))
      ensures minHoursData == old(minHoursData)
      ensures numberOfStudents == old(numberOfStudents) && formationDetails == old(formationDetails)
    {
      showMinHoursAlert := false;
      HandleGenerateFormation(firstSkill);
    }

    /** removeCourse. */
    method RemoveCourse(courseId: int)
      modifies this
      requires Valid()
      ensures Valid()
      ensures old(customFormation).None? ==>
        customFormation == old(customFormation) && showMinHoursAlert == old(showMinHoursAlert)
        && minHoursData == old(minHoursData)
      ensures old(customFormation).Some? ==>
        var r := RemovalOutcome(old(customFormation).value, numberOfStudents, courseId);
        && (r.Accepted? ==> customFormation == Some(r.formation)
                            && showMinHoursAlert == old(showMinHoursAlert) && minHoursData == old(minHoursData))
        && (r.Rejected? ==> customFormation == old(customFormation) && showMinHoursAlert && minHoursData == Some(r.data))
      ensures numberOfStudents == old(numberOfStudents) && formationDetails == old(formationDetails)
    {
      if customFormation.Some? {
        var outcome := RemovalOutcome(customFormation.value, numberOfStudents, courseId);
        match outcome
        case Accepted(updated) =>
          customFormation := Some(updated);
        case Rejected(data) =>
          var alert := AlertData(numberOfStudents, data.currentHours, data.minHours);
          minHoursData := Some(alert);
          showMinHoursAlert := true;
      }
    }

    /** handleContinue: the formation handed on, or None for the
        "incomplete formation" toast. */
    method HandleContinue(id: int) returns (formation: Option<CA.Formation>)
      requires Valid()
      ensures formation == ContinuePayload(customFormation, numberOfStudents, id)
    {
      formation := ContinuePayload(customFormation, numberOfStudents, id);
    }
  }
}
