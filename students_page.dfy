/** The students list: a search over names and e-mails, an activity filter,
    and a table that stays in list order until a column header is clicked. */
module StudentsPage {
  import opened Wrappers
  import Text
  import Listing

  datatype Activity = Active | Inactive

  function ActivityName(a: Activity): string {
    match a
    case Active => "active"
    case Inactive => "inactive"
  }

  datatype Student = Student(
    id: int, name: string, email: string, lastActivity: string, status: Activity,
    lastCourse: string, currentCourse: Option<string>, completedFormations: int)

  /** The columns whose headers sort. */
  datatype SortField = Name | CompletedFormations | CurrentCourse | LastActivity

  /** The search term (case-insensitive, within the name or the e-mail) and
      the status filter, where "all" lets every status through. */
  predicate Matches(s: Student, searchTerm: string, statusFilter: string) {
    && (Text.Includes(Text.ToLower(s.name), Text.ToLower(searchTerm))
        || Text.Includes(Text.ToLower(s.email), Text.ToLower(searchTerm)))
    && (statusFilter == "all" || ActivityName(s.status) == statusFilter)
  }

  /** What the comparator sees: no column means every pair compares equal;
      strings are lower-cased; a missing current course is undefined. */
  function SortValue(field: Option<SortField>, s: Student): (v: Listing.Value)
    ensures field.None? ==> v == Listing.Undefined
  {
    match field
    case None => Listing.Undefined
    case Some(Name) => Listing.Str(Text.ToLower(s.name))
    case Some(CompletedFormations) => Listing.Num(s.completedFormations)
    case Some(CurrentCourse) =>
      if s.currentCourse.Some? then Listing.Str(Text.ToLower(s.currentCourse.value)) else Listing.Undefined
    case Some(LastActivity) => Listing.Str(Text.ToLower(s.lastActivity))
  }

  /** filteredAndSortedStudents. */
  function FilteredAndSorted(students: seq<Student>, searchTerm: string, statusFilter: string,
                             field: Option<SortField>, dir: Listing.Direction): seq<Student>
  {
    Listing.SortBy(Listing.Filter(students, s => Matches(s, searchTerm, statusFilter)), s => SortValue(field, s), dir)
  }

  /** Before any header is clicked the filtered list keeps its order. */
  lemma UnsortedKeepsOrder(students: seq<Student>, searchTerm: string, statusFilter: string, dir: Listing.Direction)
    ensures FilteredAndSorted(students, searchTerm, statusFilter, None, dir) ==
      Listing.Filter(students, s => Matches(s, searchTerm, statusFilter))
  {
    var filtered := Listing.Filter(students, s => Matches(s, searchTerm, statusFilter));
    Listing.SortByAllUndefined(filtered, s => SortValue(None, s), dir);
  }

  /** The list shows exactly the matching students, and in column order
      unless the column is the current course and some student lacks one. */
  lemma FilteredAndSortedSpec(students: seq<Student>, searchTerm: string, statusFilter: string,
                              field: SortField, dir: Listing.Direction)
    requires field == CurrentCourse ==> forall k :: 0 <= k < |students| ==> students[k].currentCourse.Some?
    ensures var shown := FilteredAndSorted(students, searchTerm, statusFilter, Some(field), dir);
      && multiset(shown) == multiset(Listing.Filter(students, s => Matches(s, searchTerm, statusFilter)))
      && (forall k :: 0 <= k < |shown| ==> shown[k] in students && Matches(shown[k], searchTerm, statusFilter))
      && (forall k :: 0 <= k < |students| && Matches(students[k], searchTerm, statusFilter) ==> students[k] in shown)
      && Listing.Sorted(shown, s => SortValue(Some(field), s), dir)
  {
    var keep := s => Matches(s, searchTerm, statusFilter);
    var key := s => SortValue(Some(field), s);
    assert Listing.OneKind(students, key) by {
      if field == CompletedFormations {
        assert forall k :: 0 <= k < |students| ==> key(students[k]).Num?;
      } else {
        assert forall k :: 0 <= k < |students| ==> key(students[k]).Str?;
      }
    }
    Listing.FilterThenSort(students, keep, key, dir);
  }

  /** The current-course cell: "-" (None) for an inactive student or one
      whose current course is absent or the empty string (both falsy),
      otherwise the course. */
  function CurrentCourseCell(s: Student): (cell: Option<string>)
    ensures cell.None? <==> s.status == Inactive || s.currentCourse.None? || s.currentCourse == Some("")
    ensures cell.Some? ==> cell == s.currentCourse && cell.value != ""
  {
    if s.status == Inactive || s.currentCourse.None? || s.currentCourse.value == "" then None
    else s.currentCourse
  }

  function MockStudents(): seq<Student> {
    [Student(1, "Ana García López", "ana.garcia@empresa.com", "2 días", Active,
             "React Avanzado", Some("React Avanzado"), 3),
     Student(2, "Carlos Martín Ruiz", "carlos.martin@empresa.com", "5 días", Active,
             "Marketing Digital", Some("Marketing Digital"), 1),
     Student(3, "Elena Fernández Castro", "elena.fernandez@empresa.com", "1 semana", Inactive,
             "Gestión de RRHH", None, 2),
     Student(4, "David López Moreno", "david.lopez@empresa.com", "3 semanas", Inactive,
             "Técnicas de Ventas", None, 4)]
  }

  class StudentsScreen {
    const students: seq<Student>
    var searchTerm: string
    var statusFilter: string
    var sortField: Option<SortField>
    var sortDirection: Listing.Direction

    constructor()
      ensures students == MockStudents() && searchTerm == "" && statusFilter == "all"
      ensures sortField == None && sortDirection == Listing.Asc
    {
      students := MockStudents();
      searchTerm := "";
      statusFilter := "all";
      sortField := None;
      sortDirection := Listing.Asc;
    }

    function Shown(): seq<Student>
      reads this
    {
      FilteredAndSorted(students, searchTerm, statusFilter, sortField, sortDirection)
    }

    method SetSearchTerm(term: string)
      modifies this
      ensures searchTerm == term
      ensures statusFilter == old(statusFilter) && sortField == old(sortField) && sortDirection == old(sortDirection)
    {
      searchTerm := term;
    }

    method SetStatusFilter(filter: string)
      modifies this
      ensures statusFilter == filter
      ensures searchTerm == old(searchTerm) && sortField == old(sortField) && sortDirection == old(sortDirection)
    {
      statusFilter := filter;
    }

    /** handleSort; before the first click no field is current. */
    method HandleSort(field: SortField)
      modifies this
      ensures (sortField, sortDirection) == Listing.NextSort(old(sortField), old(sortDirection), Some(field))
      ensures searchTerm == old(searchTerm) && statusFilter == old(statusFilter)
    {
      if sortField == Some(field) {
        sortDirection := Listing.Flip(sortDirection);
      } else {
        sortField := Some(field);
        sortDirection := Listing.Asc;
      }
    }
  }
}
