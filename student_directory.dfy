/** The student list the three action screens share: the student record,
    the search filter over it and the "add individual student" validation
    with its three error messages. */
module StudentDirectory {
  import opened Wrappers
  import Text
  import Email
  import Roster
  import Listing

  datatype Student = Student(
    id: int, name: string, firstName: string, lastName: string,
    dni: string, phone: string, email: string)

  /** The values typed into the add-student form. */
  datatype StudentForm = StudentForm(
    name: string, firstName: string, lastName: string,
    dni: string, phone: string, email: string)

  /** The three rejections, in the order they are checked. */
  datatype AddError = MissingRequiredField | DuplicateDni | MalformedEmail

  /** Which e-mail regular expression a screen compiles. */
  datatype EmailPattern = Standard | DoubleEscaped

  predicate EmailMatches(pattern: EmailPattern, s: string) {
    match pattern
    case Standard => Email.MatchesStandard(s)
    case DoubleEscaped => Email.MatchesDoubleEscaped(s)
  }

  /** `students.map(s => s.id)`. */
  function Ids(students: seq<Student>): (r: seq<int>)
    ensures |r| == |students|
    ensures forall k :: 0 <= k < |students| ==> r[k] == students[k].id
  {
    seq(|students|, k requires 0 <= k < |students| => students[k].id)
  }

  predicate UniqueIds(students: seq<Student>) {
    forall i, j :: 0 <= i < j < |students| ==> students[i].id != students[j].id
  }

  predicate DistinctDnis(students: seq<Student>) {
    forall i, j :: 0 <= i < j < |students| ==> students[i].dni != students[j].dni
  }

  /** `Math.max(...students.map(s => s.id))` on a non-empty list. */
  function MaxId(students: seq<Student>): (m: int)
    requires |students| > 0
    ensures forall k :: 0 <= k < |students| ==> students[k].id <= m
    ensures exists k :: 0 <= k < |students| && students[k].id == m
  {
    if |students| == 1 then students[0].id
    else
      var rest := MaxId(students[1..]);
      assert forall k :: 1 <= k < |students| ==> students[k] == students[1..][k - 1];
      if students[0].id >= rest then students[0].id
      else
        var k :| 0 <= k < |students[1..]| && students[1..][k].id == rest;
        assert students[k + 1].id == rest;
        rest
  }

  /** A required field (name, first or last surname, DNI) is blank. */
  predicate MissingRequired(f: StudentForm) {
    Text.IsBlank(f.name) || Text.IsBlank(f.firstName) || Text.IsBlank(f.lastName) || Text.IsBlank(f.dni)
  }

  /** Some listed student has exactly this DNI. */
  predicate DniTaken(students: seq<Student>, dni: string) {
    exists k :: 0 <= k < |students| && students[k].dni == dni
  }

  /** The DNI as it is stored: trimmed and upper-cased. */
  function NormalizeDni(dni: string): (r: string)
    ensures |r| <= |dni|
  {
    Text.ToUpper(Text.Trim(dni))
  }

  /** The record that is appended: the next id and the trimmed fields. */
  function NewStudent(students: seq<Student>, f: StudentForm): Student
    requires |students| > 0
  {
    Student(MaxId(students) + 1, Text.Trim(f.name), Text.Trim(f.firstName), Text.Trim(f.lastName),
            NormalizeDni(f.dni), Text.Trim(f.phone), Text.Trim(f.email))
  }

  /** The add-student handler as the screens write it: blank required
      fields, then the DNI typed compared as typed with the stored DNIs,
      then a non-empty e-mail against the screen's pattern. */
  function ValidateAsWritten(students: seq<Student>, f: StudentForm, pattern: EmailPattern): (r: Result<Student, AddError>)
    requires |students| > 0
    ensures r == Failure(MissingRequiredField) <==> MissingRequired(f)
    ensures r == Failure(DuplicateDni) <==> !MissingRequired(f) && DniTaken(students, f.dni)
    ensures r == Failure(MalformedEmail) <==>
      !MissingRequired(f) && !DniTaken(students, f.dni) && f.email != "" && !EmailMatches(pattern, f.email)
    ensures r.Success? ==> forall k :: 0 <= k < |students| ==> students[k].id < r.value.id
    ensures r.Success? ==> r.value.id == MaxId(students) + 1
    ensures r.Success? ==>
      && r.value.name == Text.Trim(f.name) && r.value.firstName == Text.Trim(f.firstName)
      && r.value.lastName == Text.Trim(f.lastName) && r.value.dni == Text.ToUpper(Text.Trim(f.dni))
      && r.value.phone == Text.Trim(f.phone) && r.value.email == Text.Trim(f.email)
  {
    if MissingRequired(f) then Failure(MissingRequiredField)
    else if DniTaken(students, f.dni) then Failure(DuplicateDni)
    else if f.email != "" && !EmailMatches(pattern, f.email) then Failure(MalformedEmail)
    else Success(NewStudent(students, f))
  }

  /** The add-student handler with the duplicate check on the DNI as it
      will be stored, and the standard e-mail pattern. */
  function Validate(students: seq<Student>, f: StudentForm): (r: Result<Student, AddError>)
    requires |students| > 0
    ensures r == Failure(MissingRequiredField) <==> MissingRequired(f)
    ensures r == Failure(DuplicateDni) <==> !MissingRequired(f) && DniTaken(students, NormalizeDni(f.dni))
    ensures r == Failure(MalformedEmail) <==>
      !MissingRequired(f) && !DniTaken(students, NormalizeDni(f.dni)) && f.email != "" && !Email.MatchesStandard(f.email)
    ensures r.Success? ==> forall k :: 0 <= k < |students| ==> students[k].id < r.value.id
    ensures r.Success? ==> !DniTaken(students, r.value.dni)
    ensures r.Success? ==> r.value.id == MaxId(students) + 1
    ensures r.Success? ==>
      && r.value.name == Text.Trim(f.name) && r.value.firstName == Text.Trim(f.firstName)
      && r.value.lastName == Text.Trim(f.lastName) && r.value.dni == Text.ToUpper(Text.Trim(f.dni))
      && r.value.phone == Text.Trim(f.phone) && r.value.email == Text.Trim(f.email)
  {
    if MissingRequired(f) then Failure(MissingRequiredField)
    else if DniTaken(students, NormalizeDni(f.dni)) then Failure(DuplicateDni)
    else if f.email != "" && !Email.MatchesStandard(f.email) then Failure(MalformedEmail)
    else Success(NewStudent(students, f))
  }

  /** `setStudents(prev => [...prev, newStudent])` when the form is accepted. */
  function AddStudent(students: seq<Student>, f: StudentForm): (r: seq<Student>)
    requires |students| > 0
    ensures Validate(students, f).Success? ==> r == students + [Validate(students, f).value]
    ensures Validate(students, f).Failure? ==> r == students
  {
    match Validate(students, f)
    case Success(s) => students + [s]
    case Failure(_) => students
  }

  /** Adding a student keeps ids unique and DNIs distinct. */
  lemma AddStudentKeepsInvariants(students: seq<Student>, f: StudentForm)
    requires |students| > 0 && UniqueIds(students) && DistinctDnis(students)
    ensures UniqueIds(AddStudent(students, f)) && DistinctDnis(AddStudent(students, f))
    ensures |AddStudent(students, f)| > 0
  {
    var v := Validate(students, f);
    if v.Success? {
      AppendFreshKeepsInvariants(students, v.value);
    }
  }

  /** A student whose id is above every listed id and whose DNI is not
      listed can be appended without clashing. */
  lemma AppendFreshKeepsInvariants(students: seq<Student>, s: Student)
    requires UniqueIds(students) && DistinctDnis(students)
    requires forall k :: 0 <= k < |students| ==> students[k].id < s.id
    requires !DniTaken(students, s.dni)
    ensures UniqueIds(students + [s]) && DistinctDnis(students + [s])
  {
    var r := students + [s];
    forall i, j | 0 <= i < j < |r| ensures r[i].id != r[j].id && r[i].dni != r[j].dni {
      assert r[i] == students[i];
      if j < |students| {
        assert r[j] == students[j];
      }
    }
  }

  /** On a DNI typed already in its stored form and with the standard
      pattern, the handler as written and the corrected one agree. */
  lemma ValidateAgreesOnNormalizedDni(students: seq<Student>, f: StudentForm)
    requires |students| > 0 && NormalizeDni(f.dni) == f.dni
    ensures ValidateAsWritten(students, f, Standard) == Validate(students, f)
  {
  }

  /** As written, a form whose DNI differs from a stored one only in what
      normalisation changes passes the duplicate check and is stored with
      that student's DNI; the corrected handler rejects it. */
  lemma AsWrittenAdmitsNormalizedDuplicate(students: seq<Student>, f: StudentForm)
    requires |students| > 0 && !MissingRequired(f) && f.email == ""
    requires !DniTaken(students, f.dni) && DniTaken(students, NormalizeDni(f.dni))
    ensures ValidateAsWritten(students, f, Standard).Success?
    ensures DniTaken(students, ValidateAsWritten(students, f, Standard).value.dni)
    ensures Validate(students, f) == Failure(DuplicateDni)
  {
  }

  /** The concrete case: "12345678a" typed next to a stored "12345678A". */
  lemma AsWrittenAdmitsDuplicateDni(students: seq<Student>, f: StudentForm)
    requires students == [Student(1, "Ana", "Garcia", "Lopez", "12345678A", "", "")]
    requires f == StudentForm("Eva", "Ruiz", "Sanz", "12345678a", "", "")
    ensures ValidateAsWritten(students, f, Standard).Success?
    ensures ValidateAsWritten(students, f, Standard).value.dni == students[0].dni
    ensures Validate(students, f) == Failure(DuplicateDni)
  {
    LowerCaseDniExample(students, f.dni);
    RequiredFieldsPresent(f);
    AsWrittenAdmitsNormalizedDuplicate(students, f);
  }

  lemma LowerCaseDniExample(students: seq<Student>, dni: string)
    requires |students| == 1 && students[0].dni == "12345678A"
    requires dni == "12345678a"
    ensures !DniTaken(students, dni) && DniTaken(students, NormalizeDni(dni))
  {
    assert dni[8] != students[0].dni[8];
    NormalizeExample();
  }

  /** A form whose required fields all start with a visible character has
      no missing field. */
  lemma RequiredFieldsPresent(f: StudentForm)
    requires |f.name| > 0 && !Text.IsWhitespace(f.name[0])
    requires |f.firstName| > 0 && !Text.IsWhitespace(f.firstName[0])
    requires |f.lastName| > 0 && !Text.IsWhitespace(f.lastName[0])
    requires |f.dni| > 0 && !Text.IsWhitespace(f.dni[0])
    ensures !MissingRequired(f)
  {
    Text.NotBlankWhenLeadingVisible(f.name);
    Text.NotBlankWhenLeadingVisible(f.firstName);
    Text.NotBlankWhenLeadingVisible(f.lastName);
    Text.NotBlankWhenLeadingVisible(f.dni);
  }

  lemma NormalizeExample()
    ensures NormalizeDni("12345678a") == "12345678A"
  {
    var d := "12345678";
    assert Text.AllDigits(d);
    NormalizeDigitsAndLetter(d, 'a');
    assert d + ['a'] == "12345678a";
    assert d + [Text.UpperChar('a')] == "12345678A";
  }

  /** Digits followed by one lower-case letter normalise to the same
      digits and the capital letter. */
  lemma NormalizeDigitsAndLetter(d: string, c: char)
    requires Text.AllDigits(d) && 'a' <= c <= 'z'
    ensures NormalizeDni(d + [c]) == d + [Text.UpperChar(c)]
  {
    var s := d + [c];
    forall i | 0 <= i < |s| ensures !Text.IsWhitespace(s[i]) {
      if i < |d| {
        assert s[i] == d[i] && Text.IsDigit(d[i]);
      }
    }
    Text.TrimNoWhitespace(s);
    Text.ToUpperOfDigitsThen(d, c);
  }

  /** The EditAction screen's pattern rejects an ordinary address that the
      other screens accept. */
  lemma DoubleEscapedRejectsOrdinaryEmail(students: seq<Student>, f: StudentForm)
    requires students == [Student(1, "Ana", "Garcia", "Lopez", "12345678A", "", "")]
    requires f == StudentForm("Eva", "Ruiz", "Sanz", "87654321B", "", "ana.garcia@email.com")
    ensures ValidateAsWritten(students, f, DoubleEscaped) == Failure(MalformedEmail)
    ensures Validate(students, f).Success?
  {
    FreshDniExample(students, f.dni);
    RequiredFieldsPresent(f);
    Email.DoubleEscapedRejectsTypical();
    Email.StandardAcceptsTypical();
    OnlyThePatternDiffers(students, f);
  }

  /** A form that passes every check but the e-mail pattern, whose address
      the standard pattern accepts and the double-escaped one refuses. */
  lemma OnlyThePatternDiffers(students: seq<Student>, f: StudentForm)
    requires |students| > 0 && !MissingRequired(f)
    requires !DniTaken(students, f.dni) && NormalizeDni(f.dni) == f.dni
    requires f.email != "" && Email.MatchesStandard(f.email) && !Email.MatchesDoubleEscaped(f.email)
    ensures ValidateAsWritten(students, f, DoubleEscaped) == Failure(MalformedEmail)
    ensures Validate(students, f).Success?
  {
  }

  lemma FreshDniExample(students: seq<Student>, dni: string)
    requires |students| == 1 && students[0].dni == "12345678A"
    requires dni == "87654321B"
    ensures !DniTaken(students, dni) && NormalizeDni(dni) == dni
  {
    assert dni[0] != students[0].dni[0];
    Text.TrimNoWhitespace(dni);
  }

  // ---------------------------------------------------------------------
  // search

  /** A student is shown when the lower-cased term occurs in the lower-cased
      name, first surname, last surname or DNI. */
  predicate MatchesSearch(s: Student, term: string) {
    var t := Text.ToLower(term);
    || Text.Includes(Text.ToLower(s.name), t)
    || Text.Includes(Text.ToLower(s.firstName), t)
    || Text.Includes(Text.ToLower(s.lastName), t)
    || Text.Includes(Text.ToLower(s.dni), t)
  }

  /** The search test as a value, for `Listing.Filter`. */
  function SearchTest(term: string): Student -> bool {
    s => MatchesSearch(s, term)
  }

  /** `students.filter(student => MatchesSearch(student, term))`: the matching
      students, in the list's order, each as often as it is listed. */
  function FilterStudents(students: seq<Student>, term: string): (r: seq<Student>)
    ensures |r| <= |students|
    ensures forall s :: s in r <==> s in students && MatchesSearch(s, term)
    ensures Listing.IsSubsequence(r, students)
    ensures forall s :: multiset(r)[s] == if MatchesSearch(s, term) then multiset(students)[s] else 0
  {
    Listing.FilterMultiset(students, SearchTest(term));
    Listing.Filter(students, SearchTest(term))
  }

  /** An empty search shows every student, in order. */
  lemma FilterEmptyTerm(students: seq<Student>)
    ensures FilterStudents(students, "") == students
  {
    forall k | 0 <= k < |students| ensures SearchTest("")(students[k]) {
      EveryoneMatchesEmpty(students[k]);
    }
    Listing.FilterKeepsAll(students, SearchTest(""));
  }

  lemma EveryoneMatchesEmpty(s: Student)
    ensures MatchesSearch(s, "")
  {
    assert Text.ToLower("") == "";
    Text.IncludesEmpty(Text.ToLower(s.name));
  }

  /** The ids of the students a search shows are distinct when the list's
      ids are, so select-all never selects an id twice. */
  lemma FilterKeepsDistinctIds(students: seq<Student>, term: string)
    requires UniqueIds(students)
    ensures Roster.NoDuplicates(Ids(FilterStudents(students, term)))
  {
    KeptIdsDistinct(students, SearchTest(term));
  }

  /** Any filter of a list with distinct ids keeps them distinct. */
  lemma {:induction false} KeptIdsDistinct(students: seq<Student>, keep: Student -> bool)
    requires UniqueIds(students)
    ensures Roster.NoDuplicates(Ids(Listing.Filter(students, keep)))
  {
    if students != [] && keep(students[0]) {
      var rest := Listing.Filter(students[1..], keep);
      KeptIdsDistinct(students[1..], keep);
      OthersHaveOtherIds(students, rest);
      var r := [students[0]] + rest;
      assert Listing.Filter(students, keep) == r;
      forall i, j | 0 <= i < j < |r| ensures Ids(r)[i] != Ids(r)[j] {
        assert r[j] == rest[j - 1];
        if i > 0 {
          assert r[i] == rest[i - 1];
          assert Ids(rest)[i - 1] != Ids(rest)[j - 1];
        }
      }
    } else if students != [] {
      KeptIdsDistinct(students[1..], keep);
    }
  }

  /** Students drawn from the tail of a list with distinct ids do not share
      the head's id. */
  lemma OthersHaveOtherIds(students: seq<Student>, rest: seq<Student>)
    requires UniqueIds(students) && |students| > 0
    requires forall k :: 0 <= k < |rest| ==> rest[k] in students[1..]
    ensures forall k :: 0 <= k < |rest| ==> rest[k].id != students[0].id
  {
    forall k | 0 <= k < |rest| ensures rest[k].id != students[0].id {
      var m :| 0 <= m < |students[1..]| && students[1..][m] == rest[k];
      assert students[m + 1] == rest[k];
    }
  }
}
