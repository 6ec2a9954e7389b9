/** The course catalog: six training paths filtered by a search over title
    and description, a category and a level. */
module Catalog {
  import opened Wrappers
  import Text
  import Listing

  datatype Course = Course(
    id: int, title: string, description: string, category: string, duration: string,
    courses: nat, level: string, students: nat, isPopular: bool, credits: nat)

  /** The search term, case-insensitive, within the title or the description. */
  predicate MatchesSearch(c: Course, term: string) {
    Text.Includes(Text.ToLower(c.title), Text.ToLower(term))
    || Text.Includes(Text.ToLower(c.description), Text.ToLower(term))
  }

  /** The three criteria; "all" lets every category or level through. */
  predicate Matches(c: Course, term: string, categoryFilter: string, levelFilter: string) {
    && MatchesSearch(c, term)
    && (categoryFilter == "all" || c.category == categoryFilter)
    && (levelFilter == "all" || c.level == levelFilter)
  }

  /** filteredCourses: exactly the courses meeting all three criteria, in
      catalog order. */
  function FilteredCourses(courses: seq<Course>, term: string, categoryFilter: string, levelFilter: string): (r: seq<Course>)
    ensures forall k :: 0 <= k < |r| ==> r[k] in courses && Matches(r[k], term, categoryFilter, levelFilter)
    ensures forall k :: 0 <= k < |courses| && Matches(courses[k], term, categoryFilter, levelFilter) ==> courses[k] in r
    ensures Listing.IsSubsequence(r, courses)
  {
    Listing.Filter(courses, c => Matches(c, term, categoryFilter, levelFilter))
  }

  /** With no search and both filters on "all" every course is listed. */
  lemma NoCriteriaListsAll(courses: seq<Course>)
    ensures FilteredCourses(courses, "", "all", "all") == courses
  {
    forall k | 0 <= k < |courses| ensures Matches(courses[k], "", "all", "all") {
      Text.IncludesEmpty(Text.ToLower(courses[k].title));
    }
    Listing.FilterKeepsAll(courses, c => Matches(c, "", "all", "all"));
  }

  /** The first render of a non-empty catalogue: every course is listed and
      the counter reads "N of N". */
  lemma FirstRenderCountsAll(courses: seq<Course>)
    requires |courses| > 0
    ensures ResultsCounter(FilteredCourses(courses, "", "all", "all"), |courses|) == Some((|courses|, |courses|))
  {
    NoCriteriaListsAll(courses);
  }

  /** The results line: shown only for a non-empty result, as "N of total". */
  function ResultsCounter(filtered: seq<Course>, total: nat): (line: Option<(nat, nat)>)
    ensures line.Some? <==> |filtered| > 0
    ensures line.Some? ==> line.value == (|filtered|, total)
  {
    if |filtered| > 0 then Some((|filtered|, total)) else None
  }
}
