# BonificaPro training-credit console, modelled in Dafny

BonificaPro is a web console a company uses to spend its training credits.
It lists bonifiable *formations* in a catalogue. It turns a chosen
formation into a *formative action* for a group of students. It lets the
action be edited before it starts, and it keeps a wallet of credit
purchases and consumptions.

The business rules have no engine of their own. They are written inline in
the page components, and several pages repeat them with small differences.
This project models each page's rules as that page writes them, and proves
what the pages promise:

- how many hours a formation has;
- how many students an action needs to reach 18 training hours;
- what a student costs in credits;
- which days an action may start on, and when it ends;
- how the student selection changes, and that enrolled students stay selected on the edit screens;
- how a new student is validated and stored;
- when a course may be removed from a custom formation, and which smaller group the removal alert suggests;
- how every list in the console is filtered and ordered;
- the wallet's totals.

Modules follow the source files. Shared logic sits in its own modules.

- `Wrappers`: `Option` and `Result`
- `Text`: `trim`, `toLowerCase`/`toUpperCase`, `includes`, `split`/`reverse`/`join`, the `"H h. M min."` duration string and `parseFloat` of its first token
- `Email`: the two e-mail regular expressions as predicates
- `Roster`: the selection handlers shared by the three action screens
- `Calendar`: days as integers (day 0 is Thursday 1 January 1970), weekdays and weeks
- `ActionRules`: the ceiling divisions behind credits and end dates
- `StudentDirectory`: the student record, the student search and the add-student handler
- `Listing`: the sort-header state machine, JavaScript's `<` on the compared values, the comparators and `Array.prototype.filter`
- `CreateAction`: the three-step create-action page
- `EditAction`: the edit-action page
- `EditActionForm`: the edit-action dialog
- `CustomFormationCreator`: the custom-formation page
- `ActionDetail`: the action-detail page, with its in-place array sort
- `CreditWallet`: the wallet page
- `FormativeActions`: the action list
- `StudentsPage`: the students list
- `Catalog`: the catalogue
- `SmartFormationSelector`: the smart selector panel

Each page whose handlers call `setState` becomes a class with one field per
state variable. Each handler becomes a method that states the whole new
state. Where the page derives a value from its state, the method is tied to
a pure function, and the properties are lemmas about that function.

Some things the pages take from the outside world become explicit
parameters instead:

- the clock, and with it the minimum start date `addBusinessDays(today, 4)`;
- the days until an action starts;
- the collation order `localeCompare` uses;
- the first skill the generator extracts from free text.

## Model

| member | source | states |
|---|---|---|
| `Text.TrimStart` | src/pages/CreateAction.tsx:292 | the result is a suffix of the input, the part dropped is all whitespace, and the first character kept is not whitespace |
| `Text.TrimEnd` | src/pages/CreateAction.tsx:292 | the result is a prefix of the input, the part dropped is all whitespace, and the last character kept is not whitespace |
| `Text.BlankIffAllWhitespace` | src/pages/CreateAction.tsx:292 | `!s.trim()` holds exactly when every character of `s` is whitespace |
| `Text.NotBlankWhenLeadingVisible` | src/pages/CreateAction.tsx:292 | a field whose first character is visible passes the required-field check |
| `Text.TrimNoWhitespace` | src/pages/CreateAction.tsx:323-328 | trimming a string without whitespace returns it unchanged |
| `Text.ToLower` | src/pages/Catalog.tsx:94 | lower-casing keeps the length |
| `Text.ToLowerIdempotent` | src/pages/Catalog.tsx:94 | lower-casing twice is lower-casing once, so terms already lower-cased still match |
| `Text.ToUpperOfDigitsThen` | src/pages/CreateAction.tsx:326 | upper-casing digits followed by one letter changes only that letter |
| `Text.IncludesEmpty` | src/pages/Catalog.tsx:94 | every string includes the empty search |
| `Text.SplitAt` | src/pages/FormativeActions.tsx:104 | `split` at a separator yields the part before it followed by the split of the rest |
| `Text.SplitNone` | src/pages/FormativeActions.tsx:104 | a string without the separator splits into itself alone |
| `Text.Reverse` | src/pages/FormativeActions.tsx:104 | position i of the reversed list holds position n-1-i of the original |
| `Text.LeadingDigits` | src/pages/CreateAction.tsx:347 | the digits `parseFloat` reads: the longest prefix made of digits |
| `Text.FirstToken` | src/pages/CreateAction.tsx:347 | `split(' ')[0]`: the longest prefix without a space, followed by a space or the end |
| `Text.NatToString` | src/pages/CustomFormationCreator.tsx:115 | a number prints as a non-empty run of digits |
| `Text.DigitsValueOfNatToString` | src/pages/CustomFormationCreator.tsx:115 | reading back the printed digits of a number gives that number |
| `Text.LeadingDigitsOfDigits` | src/pages/CreateAction.tsx:347 | the digit prefix of digits followed by a non-digit is those digits |
| `Text.FirstTokenOf` | src/pages/CreateAction.tsx:347 | the first token of a word followed by a space and more text is that word |
| `Text.DurationRoundTrip` | src/pages/CreateAction.tsx:345-348 | the hours read from a printed `"H h. M min."` are H |
| `Email.StandardShape` | src/pages/CreateAction.tsx:312 | an address the standard pattern accepts has no whitespace and exactly one `@` |
| `Email.StandardIsTrimmed` | src/pages/CreateAction.tsx:312-328 | an accepted address is stored unchanged by `trim` |
| `Email.StandardOfParts` | src/pages/CreateAction.tsx:312 | conversely, any three runs without white space or `@`, joined by `@` and `.`, are accepted |
| `Email.StandardAcceptsTypical` | src/components/EditActionForm.tsx:253 | the standard pattern accepts `ana.garcia@email.com` |
| `Email.DoubleEscapedNeedsBackslash` | src/pages/EditAction.tsx:319 | the double-escaped pattern accepts only strings that contain a backslash |
| `Email.DoubleEscapedRejectsTypical` | src/pages/EditAction.tsx:319-320 | the double-escaped pattern rejects `ana.garcia@email.com` |
| `Email.DoubleEscapedAcceptsBackslash` | src/pages/EditAction.tsx:319 | the double-escaped pattern accepts `ana@email\.com` |
| `Roster.Remove` | src/pages/CreateAction.tsx:273 | `filter(id => id !== x)`: x is gone, every other id is kept, and nothing is added |
| `Roster.KeepIn` | src/pages/EditAction.tsx:290 | keeps exactly the ids that are also in the second list |
| `Roster.DropIn` | src/pages/EditAction.tsx:284 | keeps exactly the ids that are not in the second list |
| `Roster.ToggleMembership` | src/pages/CreateAction.tsx:273 | a toggle flips the membership of its id and leaves every other id's membership alone |
| `Roster.RemoveAbsent` | src/pages/CreateAction.tsx:273 | removing an absent id changes nothing |
| `Roster.RemoveConcat` | src/pages/CreateAction.tsx:273 | removal distributes over concatenation |
| `Roster.ToggleOffKeepsOrder` | src/pages/CreateAction.tsx:273 | toggling off an id that occurs once keeps the others in their order |
| `Roster.RemoveKeepsNoDuplicates` | src/pages/CreateAction.tsx:273 | removal keeps a duplicate-free selection duplicate-free |
| `Roster.ToggleKeepsNoDuplicates` | src/pages/CreateAction.tsx:272-274 | toggling keeps a duplicate-free selection duplicate-free |
| `Roster.ToggleTwice` | src/pages/CreateAction.tsx:272-274 | toggling the same id twice restores a duplicate-free selection |
| `Roster.SelectAllOrNone` | src/pages/CreateAction.tsx:275-282 | the selection becomes empty when its length equals the filtered length, and otherwise exactly the filtered ids in filter order |
| `Roster.SelectAllComparesLengthsOnly` | src/pages/CreateAction.tsx:277 | one hidden selected id against one filtered id clears the selection |
| `Roster.ProtectedToggleSpec` | src/pages/EditAction.tsx:269-280 | toggling an original id changes nothing, any other id toggles, and every original stays selected |
| `Roster.ProtectedSelectAllSpec` | src/pages/EditAction.tsx:282-296 | with a filtered non-original present and all of them selected, exactly the originals remain; otherwise the selection holds exactly the originals and the filtered ids, the originals first. Originals stay selected either way |
| `Calendar.Weekday` | src/pages/CreateAction.tsx:369 | a weekday is one of seven |
| `Calendar.WeekdayShift` | src/pages/CreateAction.tsx:370 | j days later the weekday is j further on, modulo 7 |
| `Calendar.AddWeeksKeepsWeekday` | src/pages/CreateAction.tsx:377 | `addWeeks` keeps the weekday |
| `Calendar.FirstThursdayFrom` | src/pages/CreateAction.tsx:362-373 | a Thursday at most six days after `minDate`, with no Thursday between them |
| `Calendar.ValidStartDateIff` | src/pages/CreateAction.tsx:379-382 | a start is valid exactly when it lies a whole number of weeks after the first Thursday on or after `minDate` |
| `ActionRules.CeilDiv` | src/pages/EditAction.tsx:239 | `Math.ceil(a / b)`: the least q with q·b ≥ a |
| `ActionRules.CeilDivUnique` | src/pages/EditAction.tsx:239 | any q with that least-multiple property is the ceiling |
| `ActionRules.CeilDivMonotoneInDividend` | src/pages/EditAction.tsx:244 | more hours never need fewer weeks |
| `ActionRules.CeilDivAntitoneInDivisor` | src/pages/EditAction.tsx:244 | more hours a week never need more weeks |
| `ActionRules.CreditsForHours` | src/pages/EditAction.tsx:237-240 | credits are the least count whose 3-hour blocks cover the hours, and at least 1 for positive hours |
| `ActionRules.WeeksNeeded` | src/pages/EditAction.tsx:244 | the least number of weeks whose weekly hours cover the total |
| `ActionRules.EndDate` | src/pages/EditAction.tsx:242-246 | the end lies a whole number of weeks after the start, on the same weekday: the fewest weeks whose weekly hours cover the formation's hours |
| `StudentDirectory.Ids` | src/pages/CreateAction.tsx:276 | `map(s => s.id)`, position by position |
| `StudentDirectory.MaxId` | src/pages/CreateAction.tsx:322 | `Math.max` of the ids: no id exceeds it and some student has it |
| `StudentDirectory.NormalizeDni` | src/pages/CreateAction.tsx:326 | the stored DNI is no longer than the one typed |
| `StudentDirectory.ValidateAsWritten` | src/pages/CreateAction.tsx:283-330 | the handler as the pages write it. A blank required field fails first. A DNI equal as typed to a stored one fails next. A non-empty e-mail the page's pattern rejects fails after that. Otherwise the new student has the id one above the largest stored id, the trimmed name, surnames, phone and e-mail, and the trimmed, upper-cased DNI |
| `StudentDirectory.Validate` | src/pages/CreateAction.tsx:283-330 | the corrected handler: the same three checks in the same order with their exact conditions, the duplicate check made on the DNI as it will be stored; an accepted student has the id one above the largest, the trimmed fields and the trimmed, upper-cased DNI, and that DNI is new |
| `StudentDirectory.AddStudent` | src/pages/CreateAction.tsx:330 | an accepted student is appended once, and a rejected form leaves the list as it was |
| `StudentDirectory.AddStudentKeepsInvariants` | src/pages/CreateAction.tsx:321-330 | adding keeps the ids unique and the DNIs distinct |
| `StudentDirectory.ValidateAgreesOnNormalizedDni` | src/pages/CreateAction.tsx:302 | for a DNI typed in its stored form, the handler as written and the corrected one agree |
| `StudentDirectory.AsWrittenAdmitsNormalizedDuplicate` | src/pages/CreateAction.tsx:302-326 | whenever the typed DNI differs from a stored DNI only before normalisation, the handler as written accepts a duplicate that the corrected one refuses |
| `StudentDirectory.AsWrittenAdmitsDuplicateDni` | src/pages/CreateAction.tsx:302-326 | lower-case `12345678a` beside a stored `12345678A` is stored as a second `12345678A` |
| `StudentDirectory.LowerCaseDniExample` | src/pages/CreateAction.tsx:302-326 | `12345678a` is not taken as typed, but its stored form is |
| `StudentDirectory.RequiredFieldsPresent` | src/pages/CreateAction.tsx:292 | fields whose first characters are visible pass the required-field check |
| `StudentDirectory.NormalizeExample` | src/pages/CreateAction.tsx:326 | `12345678a` is stored as `12345678A` |
| `StudentDirectory.NormalizeDigitsAndLetter` | src/pages/CreateAction.tsx:326 | digits followed by one lower-case letter are stored with only that letter upper-cased |
| `StudentDirectory.DoubleEscapedRejectsOrdinaryEmail` | src/pages/EditAction.tsx:319-323 | on the edit page a valid new student with the e-mail `ana.garcia@email.com` is refused, and the corrected handler accepts it |
| `StudentDirectory.FreshDniExample` | src/pages/CreateAction.tsx:302 | a DNI typed in stored form and not present is not taken |
| `StudentDirectory.FilterStudents` | src/pages/CreateAction.tsx:338 | the search keeps exactly the students whose name, surnames or DNI include the term, ignoring case, in the list's order and each as often as it is listed |
| `StudentDirectory.KeptIdsDistinct` | src/pages/CreateAction.tsx:338 | any filter of a list with distinct ids shows distinct ids |
| `StudentDirectory.FilterEmptyTerm` | src/pages/CreateAction.tsx:338 | the empty search shows every student, in order |
| `StudentDirectory.FilterKeepsDistinctIds` | src/pages/CreateAction.tsx:338 | the ids the search shows are distinct when the list's ids are |
| `Listing.Flip` | src/pages/ActionDetail.tsx:277 | flipping changes the direction |
| `Listing.NextSort` | src/pages/ActionDetail.tsx:275-282 | the clicked field becomes the sort field; the direction flips when it already was, and resets to ascending when it was not |
| `Listing.ClickTwice` | src/pages/ActionDetail.tsx:275-282 | two clicks on the current header restore its direction, and two clicks on a new header leave it descending |
| `Listing.StrLessAsymmetric` | src/pages/Students.tsx:119-124 | JavaScript's `<` on strings is asymmetric |
| `Listing.StrLessTransitive` | src/pages/Students.tsx:119-124 | and transitive |
| `Listing.StrLessTotal` | src/pages/Students.tsx:119-124 | and total on distinct strings |
| `Listing.Compare` | src/pages/FormativeActions.tsx:111-113 | the comparator: -1, 0 or 1; 0 exactly when neither value is less; ascending gives -1 for the smaller value and descending 1 |
| `Listing.LessAsymmetric` | src/pages/FormativeActions.tsx:111-112 | no two values are each less than the other |
| `Listing.DescReversesAsc` | src/pages/FormativeActions.tsx:111-112 | the descending comparison is the ascending one with its arguments swapped |
| `Listing.CompareAntisymmetric` | src/pages/FormativeActions.tsx:111-113 | swapping the arguments negates the result |
| `Listing.CompareTransitive` | src/pages/FormativeActions.tsx:111-113 | on values of one kind, not-after is transitive |
| `Listing.Insert` | src/pages/FormativeActions.tsx:100 | insertion adds exactly its element |
| `Listing.InsertSorted` | src/pages/FormativeActions.tsx:100-114 | inserting into a comparator-ordered list keeps it ordered |
| `Listing.SortBy` | src/pages/FormativeActions.tsx:100-114 | the sort is a permutation whose neighbours are in comparator order |
| `Listing.SortedOfLocally` | src/pages/FormativeActions.tsx:100-114 | on values of one kind, neighbour order is full order |
| `Listing.SortBySorted` | src/pages/FormativeActions.tsx:100-114 | on values of one kind the sort is a fully ordered permutation |
| `Listing.SortByStable` | src/pages/FormativeActions.tsx:100-114 | the sort is stable: the elements with any one key keep their relative order |
| `Listing.SortByAllUndefined` | src/pages/Students.tsx:106-107 | a comparator that finds no value to compare leaves the list in its order |
| `Listing.InsertBeforeUndefined` | src/pages/Students.tsx:107 | an element with no compared value goes in front of another such element |
| `Listing.NumbersInOrder` | src/pages/FormativeActions.tsx:111-112 | in a sorted list of numbers, earlier is no larger ascending and no smaller descending |
| `Listing.Filter` | src/pages/FormativeActions.tsx:96-99 | `filter` keeps exactly the elements the predicate accepts, in order, as a subsequence |
| `Listing.FilterKeepsAll` | src/pages/Catalog.tsx:93 | a predicate that accepts everything keeps the list as it is |
| `Listing.FilterAgreeing` | src/components/SmartFormationSelector.tsx:60-63 | predicates that agree on the list filter it alike |
| `Listing.FilterThenSort` | src/pages/FormativeActions.tsx:96-114 | filter then sort: exactly the kept elements, each as often as it occurs, in comparator order |
| `CreateAction.SumCredits` | src/pages/CreateAction.tsx:343 | 0 for no sub-courses; no sub-course's credits exceed the sum |
| `CreateAction.SumCreditsAppend` | src/pages/CreateAction.tsx:343 | the sum over two runs of sub-courses is the sum of their sums |
| `CreateAction.FormationCredits` | src/pages/CreateAction.tsx:341-344 | 0 without a formation or without sub-courses; otherwise no sub-course's credits exceed it |
| `CreateAction.FormationHours` | src/pages/CreateAction.tsx:345-348 | 0 without a formation; NaN (None) for an empty duration |
| `CreateAction.TotalCreditsConsumption` | src/pages/CreateAction.tsx:354-356 | 0 without a formation or without students |
| `CreateAction.TotalCreditsOneMore` | src/pages/CreateAction.tsx:354-356 | each further selected student adds the formation's credits once |
| `CreateAction.CanProceed` | src/pages/CreateAction.tsx:357-359 | proceeding needs parsed, positive hours and a student; from 18 hours on, one student is enough |
| `CreateAction.MinimumStudentsRequired` | src/pages/CreateAction.tsx:349-353 | 1 from 18 hours on; below that the least count whose hours reach 18; `Infinity` (None) at 0 hours |
| `CreateAction.CanProceedIff` | src/pages/CreateAction.tsx:357-359 | one may proceed exactly when the selected students' hours together reach 18 |
| `CreateAction.MinimumAlertFor` | src/pages/CreateAction.tsx:862-868 | the alert shows exactly while hours are under 18 and one cannot proceed; the missing count is the minimum minus the selection |
| `CreateAction.CalculateEndDate` | src/pages/CreateAction.tsx:374-378 | `ceil(hours / 3)` weeks after the start, whatever the dedication; none when the hours do not parse |
| `CreateAction.GetMinThursday` | src/pages/CreateAction.tsx:362-373 | the loop stops at the first Thursday on or after `minDate`, a valid start (the page defines this helper but never calls it) |
| `CreateAction.ConfirmAction` | src/pages/CreateAction.tsx:395-408 | the new action goes in front of the stored ones, as solicited, with the formation's name and the selection's size |
| `CreateAction.CreateActionScreen.constructor` | src/pages/CreateAction.tsx:224-238 | no formation, no selection, no search, no dates |
| `CreateAction.CreateActionScreen.HandleSelectFormation` | src/pages/CreateAction.tsx:262-268 | clicking the selected formation unselects it; any other is selected |
| `CreateAction.CreateActionScreen.SetStudentSearchTerm` | src/pages/CreateAction.tsx:654 | only the search changes |
| `CreateAction.CreateActionScreen.HandleSelectStudent` | src/pages/CreateAction.tsx:272-274 | the selection is toggled at that id |
| `CreateAction.CreateActionScreen.HandleSelectAllStudents` | src/pages/CreateAction.tsx:275-282 | the selection becomes all or none of the ids the search shows |
| `CreateAction.CreateActionScreen.AddIndividualStudent` | src/pages/CreateAction.tsx:283-337 | the result is the corrected validation's (see ## Findings); the list grows by the accepted student only; ids and DNIs stay distinct |
| `CreateAction.CreateActionScreen.HandleStartDateChange` | src/pages/CreateAction.tsx:383-394 | a valid day sets the start and the end date; no day or an invalid one changes neither |
| `CreateAction.Formation1Figures` | src/pages/CreateAction.tsx:48-71 | formation 1: 10 hours, 7 credits a student, 2 students needed, 14 credits for two |
| `CreateAction.Formation2Figures` | src/pages/CreateAction.tsx:72-100 | formation 2: 5 hours, 4 students needed |
| `CreateAction.HoursOfPrinted` | src/pages/CreateAction.tsx:345-348 | a printed duration reads back as its hours |
| `CreateAction.CreditsOfTwo` | src/pages/CreateAction.tsx:341-344 | two sub-courses' credits add up |
| `CreateAction.CeilDivExample` | src/pages/CreateAction.tsx:352 | a count with the least-multiple property is `Math.ceil` |
| `CreateAction.NoFormationBlocksStepTwo` | src/pages/CreateAction.tsx:346-359 | without a formation no selection may proceed, and the alert reports an unbounded minimum |
| `EditAction.FormationHours` | src/pages/EditAction.tsx:232-235 | a missing duration counts as 20 hours |
| `EditAction.FormationHoursOfPrinted` | src/pages/EditAction.tsx:232-235 | a printed duration reads back as its hours |
| `EditAction.CreditsPerStudent` | src/pages/EditAction.tsx:237-240 | `ceil(hours / 3)` credits a student |
| `EditAction.CreditsDifference` | src/pages/EditAction.tsx:253-263 | for a positive cost, the difference is 0 exactly when the counts are equal and positive exactly when students were added |
| `EditAction.ProductOrder` | src/pages/EditAction.tsx:261-263 | multiplying by a positive cost keeps equality and order |
| `EditAction.CreditsDifferenceIsCountChange` | src/pages/EditAction.tsx:253-263 | the difference is the change in students times the cost |
| `EditAction.DifferenceLabel` | src/pages/EditAction.tsx:398-400 | no label at 0; a label starting with `+` exactly for an increase and with `-` for a decrease |
| `EditAction.CalculateEndDate` | src/pages/EditAction.tsx:242-246 | `ceil(hours / weekly)` weeks after the start |
| `EditAction.EndDateAntitoneInDedication` | src/pages/EditAction.tsx:242-246 | more hours a week never end later |
| `EditAction.EnrolledIds` | src/pages/EditAction.tsx:229 | the enrolled students' ids, position by position |
| `EditAction.LoadAction` | src/pages/EditAction.tsx:208-209 | the action with the page's id, and action 1 for an unknown id |
| `EditAction.Action1Figures` | src/pages/EditAction.tsx:54-67 | action 1: 24 hours, 8 credits a student, 3 weeks at 8 hours a week; with no duration 7 credits |
| `EditAction.EditActionScreen.constructor` | src/pages/EditAction.tsx:206-217 | the loaded action, with its students selected and its dedication in the form |
| `EditAction.EditActionScreen.Difference` | src/pages/EditAction.tsx:261-263 | the change in students times the cost, or none when the duration does not parse |
| `EditAction.EditActionScreen.SetStudentSearchTerm` | src/pages/EditAction.tsx:420 | only the search changes |
| `EditAction.EditActionScreen.HandleSelectStudent` | src/pages/EditAction.tsx:269-280 | the protected toggle; enrolled students stay selected |
| `EditAction.EditActionScreen.HandleSelectAllStudents` | src/pages/EditAction.tsx:282-296 | the protected select-all over the ids the search shows |
| `EditAction.EditActionScreen.AddIndividualStudent` | src/pages/EditAction.tsx:298-339 | the corrected validation's result; the list grows by the accepted student only |
| `EditAction.EditActionScreen.SelectStartDate` | src/pages/EditAction.tsx:631-636 | only a valid day replaces the start |
| `EditAction.EditActionScreen.SetWeeklyDedication` | src/pages/EditAction.tsx:28 | only the dedication changes, within 2 to 40 |
| `EditAction.EditActionScreen.SaveEnabledWithEnrolledStudents` | src/pages/EditAction.tsx:692 | an action with students can always be saved |
| `EditAction.EditActionScreen.DifferenceNotNegative` | src/pages/EditAction.tsx:253-263 | enrolled students cannot be removed, so the difference is never negative |
| `EditAction.SubsetCount` | src/pages/EditAction.tsx:253-263 | distinct ids inside a selection are no more than its length |
| `EditAction.RemoveShrinks` | src/pages/EditAction.tsx:273-277 | removing a present id shortens the list |
| `EditAction.CreateAndEditEndDates` | src/pages/EditAction.tsx:242-246 | the edit rule and the create rule agree at 3 hours a week; action 1 ends after 3 weeks here and after 8 weeks under the create rule |
| `EditActionForm.FormationHours` | src/components/EditActionForm.tsx:166-169 | a missing duration counts as 20 hours, a present one as on the edit page |
| `EditActionForm.EditActionFormDialog.constructor` | src/components/EditActionForm.tsx:130-140 | closed, with the action's students selected in action order |
| `EditActionForm.EditActionFormDialog.Difference` | src/components/EditActionForm.tsx:187-197 | the change in students times `ceil(hours / 3)` |
| `EditActionForm.EditActionFormDialog.SetOpen` | src/components/EditActionForm.tsx:294 | only the dialog's visibility changes |
| `EditActionForm.EditActionFormDialog.SetStudentSearchTerm` | src/components/EditActionForm.tsx:360 | only the search changes |
| `EditActionForm.EditActionFormDialog.HandleSelectStudent` | src/components/EditActionForm.tsx:203-214 | the protected toggle |
| `EditActionForm.EditActionFormDialog.HandleSelectAllStudents` | src/components/EditActionForm.tsx:216-230 | the protected select-all |
| `EditActionForm.EditActionFormDialog.AddIndividualStudent` | src/components/EditActionForm.tsx:232-275 | the corrected validation's result (see ## Findings); the list grows by the accepted student only |
| `EditActionForm.EditActionFormDialog.SelectStartDate` | src/components/EditActionForm.tsx:565-570 | only a valid day replaces the start |
| `EditActionForm.EditActionFormDialog.SetWeeklyDedication` | src/components/EditActionForm.tsx:27 | only the dedication changes, within 2 to 40 |
| `EditActionForm.EditActionFormDialog.OnSubmit` | src/components/EditActionForm.tsx:282-291 | the payload's count is its list's length, the list is the selection with every enrolled student, and the dialog closes |
| `EditActionForm.MissingDurationCredits` | src/components/EditActionForm.tsx:166-174 | with no duration a student costs 7 credits |
| `CustomFormationCreator.StudentsInput` | src/pages/CustomFormationCreator.tsx:257 | `parseInt(v) \|\| 1`: a parsed non-zero count is kept, otherwise 1 |
| `CustomFormationCreator.MinHoursRequired` | src/pages/CustomFormationCreator.tsx:122-129 | between 8 and 24 hours: 8 up to 5 students, 24 above 20 |
| `CustomFormationCreator.MinHoursMonotone` | src/pages/CustomFormationCreator.tsx:122-129 | more students never need fewer hours |
| `CustomFormationCreator.TotalDurationParses` | src/pages/CustomFormationCreator.tsx:115 | the printed total reads back as its hours |
| `CustomFormationCreator.RemoveById` | src/pages/CustomFormationCreator.tsx:133 | exactly the courses with another id remain |
| `CustomFormationCreator.RemoveKeepsParse` | src/pages/CustomFormationCreator.tsx:133-138 | courses whose durations parse still do after removal |
| `CustomFormationCreator.RemoveNeverAddsHours` | src/pages/CustomFormationCreator.tsx:133-138 | removal never adds hours |
| `CustomFormationCreator.SearchFewerStudents` | src/pages/CustomFormationCreator.tsx:145-150 | the loop ends; it counts its steps down from n-1; it stops at 0 or at a count whose minimum fits; every count it skipped needs more hours |
| `CustomFormationCreator.AlertData` | src/pages/CustomFormationCreator.tsx:143-156 | the alert records the remaining hours, the minimum and the loop's count |
| `CustomFormationCreator.RemovalOutcome` | src/pages/CustomFormationCreator.tsx:131-167 | rejected exactly when the remaining hours fall below the minimum, with the alert's figures; otherwise the remaining courses with consistent totals |
| `CustomFormationCreator.RejectionNeedsEnoughBefore` | src/pages/CustomFormationCreator.tsx:131-159 | a formation that met its minimum is rejected only for an id it contains |
| `CustomFormationCreator.RemoveAbsentId` | src/pages/CustomFormationCreator.tsx:133 | removing an absent id keeps every course |
| `CustomFormationCreator.AlternativeAsWrittenTooLarge` | src/pages/CustomFormationCreator.tsx:373-375 | the group size the alert suggests always needs more hours than remain |
| `CustomFormationCreator.StepsDownSkipped` | src/pages/CustomFormationCreator.tsx:147-150 | every count the loop steps over needs more hours |
| `CustomFormationCreator.StepsDownStops` | src/pages/CustomFormationCreator.tsx:147-150 | the loop stops at 0 or at a count that fits |
| `CustomFormationCreator.Alternative` | src/pages/CustomFormationCreator.tsx:373-375 | the largest smaller group the remaining hours allow, or none when no group fits |
| `CustomFormationCreator.ContinuePayload` | src/pages/CustomFormationCreator.tsx:173-199 | refused for no formation or no courses; otherwise the course count, the total duration and each course, in order, as a sub-course with the same fields |
| `CustomFormationCreator.SumCreditsOfMapped` | src/pages/CustomFormationCreator.tsx:191-198 | the mapped sub-courses carry the courses' credits |
| `CustomFormationCreator.TotalCreditsSnoc` | src/pages/CustomFormationCreator.tsx:134 | the credit fold over one more course adds its credits |
| `CustomFormationCreator.ContinueKeepsTotals` | src/pages/CustomFormationCreator.tsx:184-199 | the formation handed on is worth the same credits and hours |
| `CustomFormationCreator.GeneratedFormation` | src/pages/CustomFormationCreator.tsx:81-117 | the generated formation's totals are its courses' |
| `CustomFormationCreator.CourseHoursOf` | src/pages/CustomFormationCreator.tsx:108 | a course printed with H hours has H hours |
| `CustomFormationCreator.GeneratedCourseFigures` | src/pages/CustomFormationCreator.tsx:81-105 | ids 1, 2, 3 with 3, 4 and 2 hours and credits |
| `CustomFormationCreator.TotalsOfCons` | src/pages/CustomFormationCreator.tsx:106-110 | the folds split at the first course |
| `CustomFormationCreator.TotalsOfTwo` | src/pages/CustomFormationCreator.tsx:106-110 | the folds over two courses |
| `CustomFormationCreator.TotalsOfThree` | src/pages/CustomFormationCreator.tsx:106-110 | the folds over three courses |
| `CustomFormationCreator.GeneratedTotals` | src/pages/CustomFormationCreator.tsx:106-110 | 9 hours and 9 credits |
| `CustomFormationCreator.GeneratedFormationFigures` | src/pages/CustomFormationCreator.tsx:111-117 | three courses, 9 credits, and a duration `"9 h. 0 min."` that reads back as 9 hours |
| `CustomFormationCreator.RemoveOneOfThree` | src/pages/CustomFormationCreator.tsx:133 | removing id 1, 2 or 3 leaves the other two in order |
| `CustomFormationCreator.RemovingOneOfThreeLeavesSeven` | src/pages/CustomFormationCreator.tsx:133-138 | any two of the generated courses add up to at most 7 hours |
| `CustomFormationCreator.DefaultStudentsKeepEveryCourse` | src/pages/CustomFormationCreator.tsx:122-159 | with the default 5 students, removing any generated course is rejected |
| `CustomFormationCreator.CustomFormationCreatorScreen.constructor` | src/pages/CustomFormationCreator.tsx:31-42 | no formation, no alert, 5 students, no details |
| `CustomFormationCreator.CustomFormationCreatorScreen.SetNumberOfStudents` | src/pages/CustomFormationCreator.tsx:257 | only the student count changes |
| `CustomFormationCreator.CustomFormationCreatorScreen.HandleGenerateFormation` | src/pages/CustomFormationCreator.tsx:65-120 | blank details change nothing; otherwise the generated formation is shown |
| `CustomFormationCreator.CustomFormationCreatorScreen.SetFormationDetails` | src/pages/CustomFormationCreator.tsx:267 | only the details change |
| `CustomFormationCreator.CustomFormationCreatorScreen.SetShowMinHoursAlert` | src/pages/CustomFormationCreator.tsx:367 | only the alert's visibility changes |
| `CustomFormationCreator.CustomFormationCreatorScreen.HandleRegenerateFormation` | src/pages/CustomFormationCreator.tsx:169-172 | the alert closes and the formation is generated again |
| `CustomFormationCreator.CustomFormationCreatorScreen.RemoveCourse` | src/pages/CustomFormationCreator.tsx:131-167 | an accepted removal replaces the formation; a rejected one keeps it and opens the alert with its figures |
| `CustomFormationCreator.CustomFormationCreatorScreen.HandleContinue` | src/pages/CustomFormationCreator.tsx:173-199 | the payload for the current formation |
| `ActionDetail.BonifiableCount` | src/pages/ActionDetail.tsx:234-236 | the number of students with progress of at least 75: all of them exactly when all qualify, none exactly when none do |
| `ActionDetail.BonifiableCountOfPermutation` | src/pages/ActionDetail.tsx:293 | reordering the students keeps the count |
| `ActionDetail.BonifiableCountOfSplit` | src/pages/ActionDetail.tsx:234-236 | one student's share of the count |
| `ActionDetail.ProgressColorOf` | src/pages/ActionDetail.tsx:230-232 | green exactly from 75 |
| `ActionDetail.ColourMatchesBadge` | src/pages/ActionDetail.tsx:230-236 | the bar is green exactly for the students the count includes |
| `ActionDetail.StartedDisablesEdit` | src/pages/ActionDetail.tsx:262-268 | a started action cannot be edited, and editing closes on exactly the three days before the start |
| `ActionDetail.SortKey` | src/pages/ActionDetail.tsx:293-329 | the column's value, negated for descending |
| `ActionDetail.DescendingIsReversed` | src/pages/ActionDetail.tsx:319-325 | descending by the key is non-increasing in the column |
| `ActionDetail.SortInPlace` | src/pages/ActionDetail.tsx:293-329 | the array is reordered in place into key order |
| `ActionDetail.InsertNext` | src/pages/ActionDetail.tsx:293 | one insertion step extends the sorted prefix by one |
| `ActionDetail.SwapDown` | src/pages/ActionDetail.tsx:293 | a swap keeps the elements and moves the gap down |
| `ActionDetail.SortedWhenSettled` | src/pages/ActionDetail.tsx:293 | a settled element leaves the prefix sorted |
| `ActionDetail.MockBonifiableCounts` | src/pages/ActionDetail.tsx:106-189 | action 3 has 2 bonifiable students and action 4 has 5 |
| `ActionDetail.ActionDetailScreen.constructor` | src/pages/ActionDetail.tsx:193-197 | the action by id, sorted by name ascending |
| `ActionDetail.ActionDetailScreen.HandleSort` | src/pages/ActionDetail.tsx:275-282 | the header state machine |
| `ActionDetail.ActionDetailScreen.SortStudents` | src/pages/ActionDetail.tsx:293-329 | the students array is a sorted permutation of itself, with the same bonifiable count |
| `ActionDetail.ActionDetailScreen.BonifiableFigure` | src/pages/ActionDetail.tsx:234-236 | the count is at most the array's length |
| `CreditWallet.Purchases` | src/pages/CreditWallet.tsx:88 | exactly the purchases |
| `CreditWallet.Consumptions` | src/pages/CreditWallet.tsx:88 | exactly the consumptions |
| `CreditWallet.SumAmountsAppend` | src/pages/CreditWallet.tsx:87-89 | the amount sum splits over concatenation |
| `CreditWallet.BalanceIsPurchasesMinusConsumptions` | src/pages/CreditWallet.tsx:87-89 | the balance is what was bought minus what was consumed |
| `CreditWallet.TotalCreditsIsPlainSum` | src/pages/CreditWallet.tsx:91-93 | both branches add the stored credits, so the total is their plain sum |
| `CreditWallet.AmountCell` | src/pages/CreditWallet.tsx:215-217 | `+` exactly for a purchase and `-` for a consumption, then the absolute amount |
| `CreditWallet.CreditsCell` | src/pages/CreditWallet.tsx:220-222 | `+` before a purchase's credits; a consumption's credits as stored |
| `CreditWallet.ConsumptionCellIsNegative` | src/pages/CreditWallet.tsx:220-222 | a negative consumption shows one leading `-` |
| `CreditWallet.OrDash` | src/pages/CreditWallet.tsx:224-232 | `-` exactly for an absent or zero value |
| `CreditWallet.LedgerTotals` | src/pages/CreditWallet.tsx:23-93 | the shown ledger totals 1325 credits and 9937.50 euros |
| `CreditWallet.TotalsSnoc` | src/pages/CreditWallet.tsx:87-93 | one more row adds its signed amount and its credits |
| `CreditWallet.LedgerConsumptionsConsistent` | src/pages/CreditWallet.tsx:36-79 | every consumption charges its per-student figures once per student |
| `FormativeActions.DateKeyOfDayMonthYear` | src/pages/FormativeActions.tsx:104 | `d/m/y` becomes `y-m-d` |
| `FormativeActions.SplitThree` | src/pages/FormativeActions.tsx:104 | `d/m/y` splits into its three parts |
| `FormativeActions.ReverseThree` | src/pages/FormativeActions.tsx:104 | the parts reversed |
| `FormativeActions.JoinThree` | src/pages/FormativeActions.tsx:104 | the parts joined with `-` |
| `FormativeActions.DateKeyExample` | src/pages/FormativeActions.tsx:104 | `20/05/2022` becomes `2022-05-20` |
| `FormativeActions.ParseIso` | src/pages/FormativeActions.tsx:104 | a parsed date has a month from 1 to 12 and a day from 1 to 31 |
| `FormativeActions.DayStampOrder` | src/pages/FormativeActions.tsx:104-111 | the stamps order dates by year, then month, then day |
| `FormativeActions.DateValueOfShown` | src/pages/FormativeActions.tsx:103-105 | a shown `dd/MM/yyyy` date compares as the date it names |
| `FormativeActions.IsoSlices` | src/pages/FormativeActions.tsx:104 | the year, month and day sit at their fixed places of the key |
| `FormativeActions.FilteredAndSorted` | src/pages/FormativeActions.tsx:96-114 | only the end-date sort can throw, and not when every action has an end date |
| `FormativeActions.FilteredAndSortedSpec` | src/pages/FormativeActions.tsx:96-114 | the sort does not throw; the matching actions, each as often as it occurs, in column order whenever the dates parse |
| `FormativeActions.Loaded` | src/pages/CreateAction.tsx:397-404 | a record saved by the create page is an action with its id, name, count, start date and `solicited` status, and no end date |
| `FormativeActions.CreatedActionBreaksEndDateSort` | src/pages/FormativeActions.tsx:100-105 | beside any other shown action, a created action makes the end-date sort throw (`split` on `undefined`); the start-date sort still works |
| `FormativeActions.FormativeActionsScreen.constructor` | src/pages/FormativeActions.tsx:49-53 | the sample actions, no search, all statuses, by name ascending |
| `FormativeActions.FormativeActionsScreen.SetSearchTerm` | src/pages/FormativeActions.tsx:127 | only the search changes |
| `FormativeActions.FormativeActionsScreen.SetStatusFilter` | src/pages/FormativeActions.tsx:51 | only the filter changes |
| `FormativeActions.FormativeActionsScreen.HandleSort` | src/pages/FormativeActions.tsx:81-88 | the header state machine; the actions keep their order |
| `FormativeActions.FormativeActionsScreen.AddAction` | src/pages/CreateAction.tsx:397-408 | a confirmed action goes in front of the rest, without an end date |
| `StudentsPage.SortValue` | src/pages/Students.tsx:106-107 | with no sort field nothing is compared |
| `StudentsPage.UnsortedKeepsOrder` | src/pages/Students.tsx:99-107 | with no sort field the filtered order stays |
| `StudentsPage.FilteredAndSortedSpec` | src/pages/Students.tsx:99-126 | the matching students, each as often as it occurs, in column order |
| `StudentsPage.CurrentCourseCell` | src/pages/Students.tsx:278-287 | `-` exactly for an inactive student or a student whose course is absent or empty; otherwise the course, which is non-empty |
| `StudentsPage.StudentsScreen.constructor` | src/pages/Students.tsx:65-68 | no search, all statuses, no sort field |
| `StudentsPage.StudentsScreen.SetSearchTerm` | src/pages/Students.tsx:192 | only the search changes |
| `StudentsPage.StudentsScreen.SetStatusFilter` | src/pages/Students.tsx:66 | only the filter changes |
| `StudentsPage.StudentsScreen.HandleSort` | src/pages/Students.tsx:81-88 | the header state machine, starting from no field |
| `Catalog.FilteredCourses` | src/pages/Catalog.tsx:93-98 | exactly the courses meeting all three criteria, in catalogue order |
| `Catalog.NoCriteriaListsAll` | src/pages/Catalog.tsx:93-98 | no search and both filters on "all" list every course |
| `Catalog.FirstRenderCountsAll` | src/pages/Catalog.tsx:88-98 | with no search and both filters on "all", a non-empty catalogue shows its counter as N of N |
| `Catalog.ResultsCounter` | src/pages/Catalog.tsx:245-247 | shown exactly for a non-empty result, as its length against the total |
| `SmartFormationSelector.SmartFilter` | src/components/SmartFormationSelector.tsx:60-63 | exactly the courses whose title or description includes the details, in order |
| `SmartFormationSelector.SmartFilterIsCatalogSearch` | src/components/SmartFormationSelector.tsx:60-63 | the same selection as the catalogue's search with both filters on "all" |
| `SmartFormationSelector.StudentsLabel` | src/components/SmartFormationSelector.tsx:133 | an empty count is stored as "Sin especificar" |
| `SmartFormationSelector.SmartFormationSelectorPanel.constructor` | src/components/SmartFormationSelector.tsx:44-47 | empty inputs, inactive, nothing found |
| `SmartFormationSelector.SmartFormationSelectorPanel.SetNumStudents` | src/components/SmartFormationSelector.tsx:184 | only the count changes |
| `SmartFormationSelector.SmartFormationSelectorPanel.SetFormationDetails` | src/components/SmartFormationSelector.tsx:168 | only the details change |
| `SmartFormationSelector.SmartFormationSelectorPanel.HandleSmartFilter` | src/components/SmartFormationSelector.tsx:49-72 | blank details change nothing; otherwise the matching courses are shown and their number reported |
| `SmartFormationSelector.SmartFormationSelectorPanel.HandleCreateCustomFormation` | src/components/SmartFormationSelector.tsx:74-140 | nothing for blank details; otherwise the stored parameters, with the generated formation at level "intermedio" |
| `SmartFormationSelector.SmartFormationSelectorPanel.Reset` | src/components/SmartFormationSelector.tsx:146-151 | empty inputs, inactive, nothing found |

## Left out

- The clock, `addBusinessDays`, `Date.now()` ids and the millisecond day differences are left out. `minDate`, the start date and the days until the start are parameters. `isBefore` compares instants, and `minDate` carries the time of day; the model compares whole days. So when `minDate` falls on a Thursday, the page refuses that Thursday itself (the picker passes that day at midnight, which is before `minDate` at any later time of day), while `Calendar.ValidStartDateIff` accepts it; every later Thursday is treated alike.
- Browser storage is left out. The `localStorage` list of actions is modelled only as the prepend (`CreateAction.ConfirmAction`, `FormativeActions.FormativeActionsScreen.AddAction`), with the saved record read back through `FormativeActions.Loaded`; its `creationDate`, which the list page ignores, is dropped. The `sessionStorage` hand-over to the custom-formation page is the returned parameters. Loading those parameters (src/pages/CustomFormationCreator.tsx:46-63) is not modelled.
- The simulated AI generation's timer and the free-text split `/[,.]|\s+y\s+|\s+e\s+/` are left out. The caller passes the first skill in.
- Toasts, navigation, rendering, icons and the disabled states of buttons are left out. The exceptions are the save and submit buttons and the alerts whose conditions are stated above.
- `localeCompare` is a rank function supplied by the caller (`ActionDetail.SortKey`). Unicode case mapping is limited to Latin-1 (`Text.LowerChar`, `Text.UpperChar`). Within it, `Text.UpperChar` leaves `ß`, `ÿ` and `µ` alone, where `toUpperCase` gives `SS`, `Ÿ` (U+0178) and `Μ` (U+039C). `Listing.StrLess` orders strings by code point, where the JavaScript `<` compares UTF-16 code units; the two differ only beyond the Basic Multilingual Plane. `Intl.NumberFormat` and `toLocaleDateString` are left out.
- Fractional hours are left out. `parseFloat` of a duration is modelled as its leading digits (`Text.ParseHours`), which is exact for every duration the pages build. A token without digits (NaN) is None.
- `CreateAction.MinimumStudentsRequired`: 0 hours yields `Infinity`, modelled as None. NaN hours are modelled as None too.
- `Math.max` over an empty student list (`-Infinity`) is left out. Every screen keeps its student list non-empty, because it starts from a sample list and only grows.
- `FormativeActions.ParseIso` accepts any day from 1 to 31 in any month, where JavaScript's `Date` would also check the month's length. `FormativeActions.DayStamp` keeps only the order of the timestamps, not their values.
- `ActionDetail.SortInPlace` is an insertion sort. Its result is a sorted permutation, but it is not proved to be the same permutation as the engine's `Array.prototype.sort`, and stability is not proved.
- `Listing.SortBy` (for the action and student lists) orders lists whose compared values are of one kind. That holds for every column except unparsed dates. With mixed kinds, only neighbours are in order (`Listing.LocallySorted`).
- `StudentsPage.FilteredAndSortedSpec` requires every student to have a course when sorting by current course; otherwise `undefined` compares as neither less nor greater.
- The catalogue's six sample courses are not modelled: the catalogue lemmas hold for any list of courses. Its category and level options, the badge colours and the fixed "340 créditos" texts are left out, because they carry no logic. So are the Settings, Login, SetPassword, FormationDetail and Layout pages.

## Findings

| source | as written | input that shows it | evidently intended | confidence | as-written member | corrected member |
|---|---|---|---|---|---|---|
| src/pages/EditAction.tsx:319 | the e-mail pattern is written `/^[^\\s@]+@[^\\s@]+\\.[^\\s@]+$/` inside a regular-expression literal. There each class excludes a backslash, the letter `s` and `@`, but not white space, and `\\.` requires a literal backslash followed by any character | on the edit page, the new student e-mail `ana.garcia@email.com` is refused as malformed | the pattern of the other two screens, `/^[^\s@]+@[^\s@]+\.[^\s@]+$/` | not executed | `StudentDirectory.DoubleEscapedRejectsOrdinaryEmail` | `StudentDirectory.Validate` |
| src/pages/CreateAction.tsx:302 | the duplicate check compares the DNI as typed, but the stored DNI is trimmed and upper-cased (line 326). The same holds at src/pages/EditAction.tsx:313 and src/components/EditActionForm.tsx:247 | a list holding `12345678A`, and the form DNI `12345678a`: it is accepted and stored as a second `12345678A` | the check on the DNI as it will be stored, so that DNIs stay distinct | not executed | `StudentDirectory.AsWrittenAdmitsDuplicateDni` | `StudentDirectory.Validate` |
| src/pages/CustomFormationCreator.tsx:375 | the alert suggests `numberOfStudents - additionalStudents` students. The search starts at `numberOfStudents - 1`, so this is one more than the count where it stopped: a count it already rejected | 8 students and 9 remaining hours: 7 and 6 students need 12 hours and 5 need 8, so the search stops at 5 after 2 steps. The alert suggests 8 - 2 = 6 students, who still need 12 hours | the count where the search stopped, which fits the hours, and no suggestion when it stopped at 0 | not executed | `CustomFormationCreator.AlternativeAsWrittenTooLarge` | `CustomFormationCreator.Alternative` |
