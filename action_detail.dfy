/** The action-detail page: the enrolled students with their progress, the
    bonifiable count, the edit window and the sortable student table, which
    the page sorts in place. */
module ActionDetail {
  import Listing

  /** A grade is kept in tenths (8.5 is 85). */
  datatype Student = Student(id: int, name: string, progress: int, dedicationTime: int, grade: int)

  datatype Status = Solicited | Scheduled | InProgress | Completed

  datatype Detail = Detail(
    id: int, name: string, startDate: string, endDate: string, weeklyDedication: nat,
    duration: string, status: Status, students: seq<Student>)

  datatype SortField = Name | Progress | DedicationTime | Grade

  /** The progress from which a student counts towards the bonus. */
  const BonusThreshold := 75

  predicate IsBonifiable(s: Student) {
    s.progress >= BonusThreshold
  }

  /** getBonifiableStudentsCount: the students at or over the threshold. */
  function BonifiableCount(students: seq<Student>): (r: nat)
    ensures r <= |students|
    ensures r == |students| <==> forall k :: 0 <= k < |students| ==> IsBonifiable(students[k])
    ensures r == 0 <==> forall k :: 0 <= k < |students| ==> !IsBonifiable(students[k])
  {
    if students == [] then 0
    else
      var rest := BonifiableCount(students[1..]);
      assert forall k :: 1 <= k < |students| ==> students[k] == students[1..][k - 1];
      (if IsBonifiable(students[0]) then 1 else 0) + rest
  }

  /** The count depends only on which students are present and how often:
      reordering the table leaves it unchanged. */
  lemma {:induction false} BonifiableCountOfPermutation(a: seq<Student>, b: seq<Student>)
    requires multiset(a) == multiset(b)
    ensures BonifiableCount(a) == BonifiableCount(b)
    decreases |a|
  {
    if a != [] {
      var x := a[0];
      assert x in multiset(b);
      var k :| 0 <= k < |b| && b[k] == x;
      var b' := b[..k] + b[k + 1..];
      assert b == b[..k] + [x] + b[k + 1..];
      assert a == [x] + a[1..];
      assert multiset(b) == multiset(b[..k]) + multiset([x]) + multiset(b[k + 1..]);
      assert multiset(b') == multiset(b[..k]) + multiset(b[k + 1..]);
      assert multiset(a) == multiset([x]) + multiset(a[1..]);
      assert multiset(a[1..]) == multiset(b') by {
        assert multiset(a[1..]) == multiset(a) - multiset([x]);
        assert multiset(b') == multiset(b) - multiset([x]);
      }
      BonifiableCountOfPermutation(a[1..], b');
      BonifiableCountOfSplit(b[..k], x, b[k + 1..]);
    }
  }

  lemma {:induction false} BonifiableCountOfSplit(p: seq<Student>, x: Student, q: seq<Student>)
    ensures BonifiableCount(p + [x] + q) == BonifiableCount(p + q) + (if IsBonifiable(x) then 1 else 0)
  {
    if p == [] {
      assert p + [x] + q == [x] + q;
      assert p + q == q;
      assert ([x] + q)[1..] == q;
    } else {
      assert (p + [x] + q)[1..] == p[1..] + [x] + q;
      assert (p + q)[1..] == p[1..] + q;
      BonifiableCountOfSplit(p[1..], x, q);
    }
  }

  datatype ProgressColor = Green | Primary

  /** getProgressColor. */
  function ProgressColorOf(progress: int): (c: ProgressColor)
    ensures c == Green <==> progress >= BonusThreshold
  {
    if progress >= 75 then Green else Primary
  }

  /** The bar turns green exactly for the students the count includes. */
  lemma ColourMatchesBadge(s: Student)
    ensures ProgressColorOf(s.progress) == Green <==> BonifiableCount([s]) == 1
  {
    assert [s][1..] == [];
  }

  // ---------------------------------------------------------------------
  // the edit window (the days until the start are given)

  /** hasStarted: the start day is today or past. */
  predicate HasStarted(daysUntilStart: int) {
    daysUntilStart <= 0
  }

  /** isEditDisabled: fewer than four days remain. */
  predicate IsEditDisabled(daysUntilStart: int) {
    daysUntilStart < 4
  }

  /** A started action cannot be edited, and the edit window closes exactly
      three days before the start. */
  lemma StartedDisablesEdit(daysUntilStart: int)
    ensures HasStarted(daysUntilStart) ==> IsEditDisabled(daysUntilStart)
    ensures IsEditDisabled(daysUntilStart) && !HasStarted(daysUntilStart) <==> 1 <= daysUntilStart <= 3
  {
  }

  // ---------------------------------------------------------------------
  // the table order

  /** The number a column compares: `localeCompare` on names is modelled by
      a collation rank, the other columns are numbers. */
  function FieldKey(field: SortField, rank: string -> int, s: Student): int {
    match field
    case Name => rank(s.name)
    case Progress => s.progress
    case DedicationTime => s.dedicationTime
    case Grade => s.grade
  }

  /** `asc ? a - b : b - a` orders by the key, or by its negation descending. */
  function SortKey(field: SortField, dir: Listing.Direction, rank: string -> int): (key: Student -> int)
    ensures forall s :: key(s) == if dir == Listing.Asc then FieldKey(field, rank, s) else -FieldKey(field, rank, s)
  {
    s => if dir == Listing.Asc then FieldKey(field, rank, s) else -FieldKey(field, rank, s)
  }

  predicate SortedByKey(s: seq<Student>, key: Student -> int) {
    forall i, j :: 0 <= i < j < |s| ==> key(s[i]) <= key(s[j])
  }

  /** In descending order the column's values do not increase. */
  lemma DescendingIsReversed(s: seq<Student>, field: SortField, rank: string -> int, i: int, j: int)
    requires SortedByKey(s, SortKey(field, Listing.Desc, rank)) && 0 <= i < j < |s|
    ensures FieldKey(field, rank, s[i]) >= FieldKey(field, rank, s[j])
  {
    assert SortKey(field, Listing.Desc, rank)(s[i]) <= SortKey(field, Listing.Desc, rank)(s[j]);
  }

  /** `students.sort(comparator)` on the array itself: an insertion sort by
      adjacent swaps. */
  method SortInPlace(a: array<Student>, key: Student -> int)
    modifies a
    ensures multiset(a[..]) == multiset(old(a[..]))
    ensures SortedByKey(a[..], key)
  {
    if a.Length == 0 {
      return;
    }
    var i := 1;
    while i < a.Length
      invariant 1 <= i <= a.Length
      invariant multiset(a[..]) == multiset(old(a[..]))
      invariant SortedByKey(a[..i], key)
    {
      InsertNext(a, i, key);
      i := i + 1;
    }
    assert a[..] == a[..a.Length];
  }

  /** One pass: swap `a[i]` down until the prefix through `i` is sorted. */
  method InsertNext(a: array<Student>, i: int, key: Student -> int)
    requires 1 <= i < a.Length && SortedByKey(a[..i], key)
    modifies a
    ensures multiset(a[..]) == multiset(old(a[..]))
    ensures SortedByKey(a[..i + 1], key)
  {
    var j := i;
    assert SortedExceptAt(a[..], i, j, key);
    while j > 0 && key(a[j - 1]) > key(a[j])
      invariant 0 <= j <= i
      invariant multiset(a[..]) == multiset(old(a[..]))
      invariant SortedExceptAt(a[..], i, j, key)
    {
      ghost var before := a[..];
      a[j - 1], a[j] := a[j], a[j - 1];
      SwapDown(before, i, j, key);
      assert a[..] == before[j - 1 := before[j]][j := before[j - 1]];
      j := j - 1;
    }
    SortedWhenSettled(a[..], i, j, key);
  }

  /** The prefix through `i` is sorted apart from the element at `j`, which is
      not after anything behind it. */
  predicate SortedExceptAt(s: seq<Student>, i: int, j: int, key: Student -> int) {
    && 0 <= j <= i < |s|
    && (forall p, q :: 0 <= p < q <= i && p != j && q != j ==> key(s[p]) <= key(s[q]))
    && (forall q :: j < q <= i ==> key(s[j]) <= key(s[q]))
  }

  lemma SwapDown(s: seq<Student>, i: int, j: int, key: Student -> int)
    requires SortedExceptAt(s, i, j, key) && j > 0 && key(s[j - 1]) > key(s[j])
    ensures multiset(s[j - 1 := s[j]][j := s[j - 1]]) == multiset(s)
    ensures SortedExceptAt(s[j - 1 := s[j]][j := s[j - 1]], i, j - 1, key)
  {
    var t := s[j - 1 := s[j]][j := s[j - 1]];
    forall p, q | 0 <= p < q <= i && p != j - 1 && q != j - 1 ensures key(t[p]) <= key(t[q]) {
      if q == j {
        assert t[q] == s[j - 1];
        if p < j - 1 {
          assert t[p] == s[p];
        }
      } else if p == j {
        assert t[p] == s[j - 1] && t[q] == s[q];
      } else {
        assert t[p] == s[p] && t[q] == s[q];
      }
    }
  }

  lemma SortedWhenSettled(s: seq<Student>, i: int, j: int, key: Student -> int)
    requires SortedExceptAt(s, i, j, key) && (j == 0 || key(s[j - 1]) <= key(s[j]))
    ensures SortedByKey(s[..i + 1], key)
  {
    var t := s[..i + 1];
    forall p, q | 0 <= p < q < |t| ensures key(t[p]) <= key(t[q]) {
      if q == j && p < j - 1 {
        assert key(s[p]) <= key(s[j - 1]);
      }
    }
  }

  // ---------------------------------------------------------------------
  // the page

  function MockStudents3(): seq<Student> {
    [Student(8, "Ana García López", 85, 45, 85),
     Student(9, "Carlos Ruiz Martín", 65, 32, 72),
     Student(10, "María Fernández Silva", 92, 52, 91),
     Student(11, "David López González", 45, 28, 68)]
  }

  function MockStudents4(): seq<Student> {
    [Student(12, "Laura Sánchez Torres", 100, 78, 93),
     Student(13, "Miguel García Ruiz", 95, 72, 88),
     Student(14, "Carmen López Silva", 88, 65, 81),
     Student(15, "Antonio Martín Torres", 92, 70, 86),
     Student(16, "Isabel García López", 85, 62, 79)]
  }

  function MockDetail(id: int): Detail {
    if id == 2 then
      Detail(2, "Python para Data Science", "2025-04-25", "2025-06-25", 10, "32 h. 15 min.", Scheduled,
             [Student(4, "Elena Fernández Castro", 0, 0, 0), Student(5, "David López Moreno", 0, 0, 0),
              Student(6, "Laura Sánchez Torres", 0, 0, 0), Student(7, "Miguel García Ruiz", 0, 0, 0)])
    else if id == 3 then
      Detail(3, "React y desarrollo web", "2025-03-20", "2025-05-20", 12, "28 h. 45 min.", InProgress, MockStudents3())
    else if id == 4 then
      Detail(4, "Gestión de proyectos", "2025-02-15", "2025-04-15", 6, "18 h. 20 min.", Completed, MockStudents4())
    else
      Detail(1, "SCRUM y metodologías Agile", "2025-08-15", "2025-10-15", 8, "24 h. 30 min.", Solicited,
             [Student(1, "Ana García López", 0, 0, 0), Student(2, "Carlos Ruiz Martín", 0, 0, 0),
              Student(3, "María Fernández Silva", 0, 0, 0)])
  }

  /** Action 3 has two bonifiable students of four, action 4 all five. */
  lemma MockBonifiableCounts()
    ensures BonifiableCount(MockDetail(3).students) == 2
    ensures BonifiableCount(MockDetail(4).students) == 5
  {
    var s3 := MockStudents3();
    assert s3[1..][1..][1..][1..] == [];
    var s4 := MockStudents4();
    assert s4[1..][1..][1..][1..][1..] == [];
  }

  class ActionDetailScreen {
    var action: Detail
    var sortField: SortField
    var sortDirection: Listing.Direction
    /** The action's student list, which the render sorts in place. */
    var students: array<Student>

    /** The useEffect: the mock with the given id, or action 1; sorted by
        name ascending. */
    constructor(id: int)
      ensures action == MockDetail(id) && students[..] == MockDetail(id).students
      ensures sortField == Name && sortDirection == Listing.Asc
      ensures fresh(students)
    {
      var detail := MockDetail(id);
      action := detail;
      sortField := Name;
      sortDirection := Listing.Asc;
      students := new Student[|detail.students|](k requires 0 <= k < |detail.students| => detail.students[k]);
    }

    method HandleSort(field: SortField)
      modifies this
      ensures (sortField, sortDirection) == Listing.NextSort(old(sortField), old(sortDirection), field)
      ensures action == old(action) && students == old(students)
    {
      if sortField == field {
        sortDirection := Listing.Flip(sortDirection);
      } else {
        sortField := field;
        sortDirection := Listing.Asc;
      }
    }

    /** sortedStudents: the student array reordered in place by the current
        column and direction; the bonifiable count does not change. */
    method SortStudents(rank: string -> int)
      modifies students
      ensures multiset(students[..]) == multiset(old(students[..]))
      ensures SortedByKey(students[..], SortKey(sortField, sortDirection, rank))
      ensures BonifiableCount(students[..]) == BonifiableCount(old(students[..]))
    {
      SortInPlace(students, SortKey(sortField, sortDirection, rank));
      BonifiableCountOfPermutation(students[..], old(students[..]));
    }

    /** The "Alumnos bonificables" figure: count over total. */
    function BonifiableFigure(): (r: (nat, nat))
      reads this, students
      ensures r.0 <= r.1 && r.1 == students.Length
    {
      (BonifiableCount(students[..]), students.Length)
    }
  }
}
