/** The formative-actions list: a search over names, a status filter, and a
    table sortable by name, student count, start and end date, and status.
    Dates are shown as dd/MM/yyyy and compared through the ISO date they
    are rearranged into. */
module FormativeActions {
  import opened Wrappers
  import Text
  import Listing
  import CA = CreateAction

  datatype Status = Solicited | Scheduled | InProgress | Completed

  function StatusName(s: Status): string {
    match s
    case Solicited => "solicited"
    case Scheduled => "scheduled"
    case InProgress => "in-progress"
    case Completed => "completed"
  }

  /** An action of the list. The mock actions carry an end date; a record
      saved by the create-action screen has none (None). */
  datatype Action = Action(id: int, name: string, students: int, startDate: string, endDate: Option<string>, status: Status)

  datatype SortField = Name | Students | StartDate | EndDate | StatusColumn

  /** The search term (case-insensitive, within the name) and the status
      filter, where "all" lets every status through. */
  predicate Matches(a: Action, searchTerm: string, statusFilter: string) {
    && Text.Includes(Text.ToLower(a.name), Text.ToLower(searchTerm))
    && (statusFilter == "all" || StatusName(a.status) == statusFilter)
  }

  // ---------------------------------------------------------------------
  // dates

  /** `date.split('/').reverse().join('-')`. */
  function DateKey(date: string): string {
    Text.Join(Text.Reverse(Text.Split(date, '/')), '-')
  }

  /** The key of day/month/year is year-month-day. */
  lemma DateKeyOfDayMonthYear(d: string, m: string, y: string)
    requires '/' !in d && '/' !in m && '/' !in y
    ensures DateKey(d + "/" + m + "/" + y) == y + "-" + m + "-" + d
  {
    SplitThree(d, m, y);
    ReverseThree(d, m, y);
    JoinThree(y, m, d);
  }

  lemma SplitThree(d: string, m: string, y: string)
    requires '/' !in d && '/' !in m && '/' !in y
    ensures Text.Split(d + "/" + m + "/" + y, '/') == [d, m, y]
  {
    assert d + "/" + m + "/" + y == d + ['/'] + (m + ['/'] + y);
    Text.SplitAt(d, '/', m + ['/'] + y);
    Text.SplitAt(m, '/', y);
    Text.SplitNone(y, '/');
  }

  lemma ReverseThree(d: string, m: string, y: string)
    ensures Text.Reverse([d, m, y]) == [y, m, d]
  {
  }

  lemma JoinThree(y: string, m: string, d: string)
    ensures Text.Join([y, m, d], '-') == y + "-" + m + "-" + d
  {
    assert [y, m, d][1..] == [m, d];
    assert [m, d][1..] == [d];
    assert Text.Join([d], '-') == d;
    assert Text.Join([m, d], '-') == m + ['-'] + d;
    assert Text.Join([y, m, d], '-') == y + ['-'] + (m + ['-'] + d);
  }

  lemma DateKeyExample()
    ensures DateKey("20/05/2022") == "2022-05-20"
  {
    DateKeyOfDayMonthYear("20", "05", "2022");
    ConcatExample();
  }

  lemma ConcatExample()
    ensures "20" + "/" + "05" + "/" + "2022" == "20/05/2022"
    ensures "2022" + "-" + "05" + "-" + "20" == "2022-05-20"
  {
  }

  datatype Ymd = Ymd(year: nat, month: nat, day: nat)

  predicate ValidYmd(x: Ymd) {
    1 <= x.month <= 12 && 1 <= x.day <= 31
  }

  /** A date-only ISO string `yyyy-MM-dd`; anything else is an invalid date. */
  function ParseIso(key: string): (r: Option<Ymd>)
    ensures r.Some? ==> ValidYmd(r.value)
  {
    if |key| == 10 && key[4] == '-' && key[7] == '-'
       && Text.AllDigits(key[..4]) && Text.AllDigits(key[5..7]) && Text.AllDigits(key[8..])
    then
      var x := Ymd(Text.DigitsValue(key[..4]), Text.DigitsValue(key[5..7]), Text.DigitsValue(key[8..]));
      if ValidYmd(x) then Some(x) else None
    else None
  }

  /** A number that orders valid dates as the timestamps do. */
  function DayStamp(x: Ymd): int {
    (x.year * 12 + (x.month - 1)) * 31 + (x.day - 1)
  }

  predicate YmdBefore(a: Ymd, b: Ymd) {
    a.year < b.year || (a.year == b.year && (a.month < b.month || (a.month == b.month && a.day < b.day)))
  }

  /** The stamp orders valid dates by year, then month, then day. */
  lemma DayStampOrder(a: Ymd, b: Ymd)
    requires ValidYmd(a) && ValidYmd(b)
    ensures DayStamp(a) < DayStamp(b) <==> YmdBefore(a, b)
  {
    assert DayStamp(a) == a.year * 372 + (a.month - 1) * 31 + (a.day - 1);
    assert DayStamp(b) == b.year * 372 + (b.month - 1) * 31 + (b.day - 1);
    var ra, rb := (a.month - 1) * 31 + (a.day - 1), (b.month - 1) * 31 + (b.day - 1);
    assert 0 <= ra < 372 && 0 <= rb < 372;
    if a.year < b.year {
      assert a.year * 372 + 372 <= b.year * 372;
    } else if a.year > b.year {
      assert b.year * 372 + 372 <= a.year * 372;
    }
  }

  /** `new Date(key).getTime()` as a compared value: NaN compares as undefined. */
  function DateValue(date: string): Listing.Value {
    match ParseIso(DateKey(date))
    case Some(x) => Listing.Num(DayStamp(x))
    case None => Listing.Undefined
  }

  /** A shown date `dd/MM/yyyy` becomes the date it names. */
  lemma DateValueOfShown(d: string, m: string, y: string)
    requires |d| == 2 && |m| == 2 && |y| == 4 && Text.AllDigits(d) && Text.AllDigits(m) && Text.AllDigits(y)
    requires ValidYmd(Ymd(Text.DigitsValue(y), Text.DigitsValue(m), Text.DigitsValue(d)))
    ensures ParseIso(DateKey(d + "/" + m + "/" + y)) == Some(Ymd(Text.DigitsValue(y), Text.DigitsValue(m), Text.DigitsValue(d)))
    ensures DateValue(d + "/" + m + "/" + y) == Listing.Num(DayStamp(Ymd(Text.DigitsValue(y), Text.DigitsValue(m), Text.DigitsValue(d))))
  {
    NoSlashInDigits(d);
    NoSlashInDigits(m);
    NoSlashInDigits(y);
    DateKeyOfDayMonthYear(d, m, y);
    IsoSlices(y, m, d);
  }

  lemma NoSlashInDigits(s: string)
    requires Text.AllDigits(s)
    ensures '/' !in s
  {
  }

  lemma IsoSlices(y: string, m: string, d: string)
    requires |d| == 2 && |m| == 2 && |y| == 4
    ensures var key := y + "-" + m + "-" + d;
      |key| == 10 && key[..4] == y && key[4] == '-' && key[5..7] == m && key[7] == '-' && key[8..] == d
  {
  }

  // ---------------------------------------------------------------------
  // the list

  /** What the comparator sees: lower-cased strings, numbers, date stamps. */
  function SortValue(field: SortField, a: Action): Listing.Value {
    match field
    case Name => Listing.Str(Text.ToLower(a.name))
    case Students => Listing.Num(a.students)
    case StartDate => DateValue(a.startDate)
    case EndDate => if a.endDate.Some? then DateValue(a.endDate.value) else Listing.Undefined
    case StatusColumn => Listing.Str(Text.ToLower(StatusName(a.status)))
  }

  function MatchTest(searchTerm: string, statusFilter: string): Action -> bool {
    a => Matches(a, searchTerm, statusFilter)
  }

  /** Sorting by end date calls `split` on `undefined`, a TypeError, as
      soon as the comparator meets an action without one; a sort of two or
      more elements passes every element to the comparator. */
  predicate SortThrows(filtered: seq<Action>, field: SortField) {
    field == EndDate && |filtered| >= 2 && exists k :: 0 <= k < |filtered| && filtered[k].endDate.None?
  }

  /** filteredAndSortedActions, built afresh from `actions`; None when the
      sort throws. */
  function FilteredAndSorted(actions: seq<Action>, searchTerm: string, statusFilter: string,
                             field: SortField, dir: Listing.Direction): (r: Option<seq<Action>>)
    ensures field != EndDate ==> r.Some?
    ensures (forall k :: 0 <= k < |actions| ==> actions[k].endDate.Some?) ==> r.Some?
  {
    var filtered := Listing.Filter(actions, MatchTest(searchTerm, statusFilter));
    if SortThrows(filtered, field) then None
    else Some(Listing.SortBy(filtered, a => SortValue(field, a), dir))
  }

  /** The list shows exactly the matching actions, each as often as it
      occurs, and in column order wherever the column's values are dates
      that parse (always, for the other columns). */
  lemma FilteredAndSortedSpec(actions: seq<Action>, searchTerm: string, statusFilter: string,
                              field: SortField, dir: Listing.Direction)
    requires (field == StartDate || field == EndDate) ==>
      forall k :: 0 <= k < |actions| ==> SortValue(field, actions[k]).Num?
    ensures FilteredAndSorted(actions, searchTerm, statusFilter, field, dir).Some?
    ensures var shown := FilteredAndSorted(actions, searchTerm, statusFilter, field, dir).value;
      && multiset(shown) == multiset(Listing.Filter(actions, MatchTest(searchTerm, statusFilter)))
      && (forall k :: 0 <= k < |shown| ==> shown[k] in actions && Matches(shown[k], searchTerm, statusFilter))
      && (forall k :: 0 <= k < |actions| && Matches(actions[k], searchTerm, statusFilter) ==> actions[k] in shown)
      && Listing.Sorted(shown, a => SortValue(field, a), dir)
  {
    var keep := MatchTest(searchTerm, statusFilter);
    var key := a => SortValue(field, a);
    assert Listing.OneKind(actions, key) by {
      if field == StartDate || field == EndDate || field == Students {
        assert forall k :: 0 <= k < |actions| ==> key(actions[k]).Num?;
      } else {
        assert forall k :: 0 <= k < |actions| ==> key(actions[k]).Str?;
      }
    }
    Listing.FilterThenSort(actions, keep, key, dir);
  }

  function MockActions(): seq<Action> {
    [Action(1, "SCRUM y metodologías Agile", 32, "20/05/2022", Some("30/06/2022"), Solicited),
     Action(2, "Python para Data Science", 28, "25/04/2022", Some("15/06/2022"), Scheduled),
     Action(3, "React y desarrollo web", 24, "20/03/2022", Some("10/05/2022"), InProgress),
     Action(4, "Gestión de proyectos", 18, "15/02/2022", Some("30/03/2022"), Completed)]
  }

  /** The record the create-action screen saves, as this page reads it back:
      no end date (its creation date is not part of this page's action). */
  function Loaded(r: CA.RequestedAction): (a: Action)
    requires r.status == "solicited"
    ensures a.id == r.id && a.name == r.name && a.students == r.students && a.startDate == r.startDate
    ensures a.endDate.None? && a.status == Solicited
  {
    Action(r.id, r.name, r.students, r.startDate, None, Solicited)
  }

  /** Once a created action is in the list beside another action the filters
      let through, sorting by end date throws, whatever the direction; the
      other columns still sort. */
  lemma CreatedActionBreaksEndDateSort(r: CA.RequestedAction, actions: seq<Action>, searchTerm: string,
                                       statusFilter: string, dir: Listing.Direction, i: int)
    requires r.status == "solicited" && Matches(Loaded(r), searchTerm, statusFilter)
    requires 0 <= i < |actions| && Matches(actions[i], searchTerm, statusFilter)
    ensures FilteredAndSorted([Loaded(r)] + actions, searchTerm, statusFilter, EndDate, dir).None?
    ensures FilteredAndSorted([Loaded(r)] + actions, searchTerm, statusFilter, StartDate, dir).Some?
  {
    var keep := MatchTest(searchTerm, statusFilter);
    var rest := Listing.Filter(actions, keep);
    Listing.FilterCons(Loaded(r), actions, keep);
    assert actions[i] in rest;
    var filtered := [Loaded(r)] + rest;
    assert filtered[0].endDate.None?;
    assert SortThrows(filtered, EndDate);
  }

  class FormativeActionsScreen {
    var actions: seq<Action>
    var searchTerm: string
    var statusFilter: string
    var sortField: SortField
    var sortDirection: Listing.Direction

    constructor()
      ensures actions == MockActions() && searchTerm == "" && statusFilter == "all"
      ensures sortField == Name && sortDirection == Listing.Asc
    {
      actions := MockActions();
      searchTerm := "";
      statusFilter := "all";
      sortField := Name;
      sortDirection := Listing.Asc;
    }

    /** The rows shown; `actions` itself keeps its order. */
    function Shown(): Option<seq<Action>>
      reads this
    {
      FilteredAndSorted(actions, searchTerm, statusFilter, sortField, sortDirection)
    }

    method SetSearchTerm(term: string)
      modifies this
      ensures searchTerm == term
      ensures actions == old(actions) && statusFilter == old(statusFilter)
      ensures sortField == old(sortField) && sortDirection == old(sortDirection)
    {
      searchTerm := term;
    }

    method SetStatusFilter(filter: string)
      modifies this
      ensures statusFilter == filter
      ensures actions == old(actions) && searchTerm == old(searchTerm)
      ensures sortField == old(sortField) && sortDirection == old(sortDirection)
    {
      statusFilter := filter;
    }

    method HandleSort(field: SortField)
      modifies this
      ensures (sortField, sortDirection) == Listing.NextSort(old(sortField), old(sortDirection), field)
      ensures actions == old(actions) && searchTerm == old(searchTerm) && statusFilter == old(statusFilter)
    {
      if sortField == field {
        sortDirection := Listing.Flip(sortDirection);
      } else {
        sortField := field;
        sortDirection := Listing.Asc;
      }
    }

    /** A solicited action confirmed on the create-action screen goes
        first, without an end date. */
    method AddAction(r: CA.RequestedAction)
      modifies this
      requires r.status == "solicited"
      ensures actions == [Loaded(r)] + old(actions)
      ensures searchTerm == old(searchTerm) && statusFilter == old(statusFilter)
      ensures sortField == old(sortField) && sortDirection == old(sortDirection)
    {
      actions := [Loaded(r)] + actions;
    }
  }
}
