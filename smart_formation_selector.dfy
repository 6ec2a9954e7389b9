/** The smart formation finder on the catalog page: free-text details narrow
    the catalog, or produce a generated formation handed on to the custom
    formation screen. */
module SmartFormationSelector {
  import opened Wrappers
  import Text
  import Listing
  import Catalog
  import CFC = CustomFormationCreator

  /** What is handed to the custom formation screen. */
  datatype CustomFormationParams = CustomFormationParams(
    numberOfStudents: string, formationDetails: string, level: string,
    generatedFormation: CFC.CustomFormation)

  /** The courses whose description or title contains the details,
      case-insensitively (the details are not trimmed). */
  function SmartFilter(courses: seq<Catalog.Course>, details: string): (r: seq<Catalog.Course>)
    ensures forall k :: 0 <= k < |r| ==> r[k] in courses && Catalog.MatchesSearch(r[k], details)
    ensures forall k :: 0 <= k < |courses| && Catalog.MatchesSearch(courses[k], details) ==> courses[k] in r
    ensures Listing.IsSubsequence(r, courses)
  {
    Listing.Filter(courses, c => Catalog.MatchesSearch(c, details))
  }

  /** The smart filter finds what the catalog search finds for the same
      text with both catalog filters on "all". */
  lemma SmartFilterIsCatalogSearch(courses: seq<Catalog.Course>, details: string)
    ensures SmartFilter(courses, details) == Catalog.FilteredCourses(courses, details, "all", "all")
  {
    Listing.FilterAgreeing(courses, c => Catalog.MatchesSearch(c, details),
                           c => Catalog.Matches(c, details, "all", "all"));
  }

  /** `numStudents || "Sin especificar"`. */
  function StudentsLabel(numStudents: string): (shown: string)
    ensures shown != ""
    ensures numStudents != "" ==> shown == numStudents
    ensures numStudents == "" ==> shown == "Sin especificar"
  {
    if numStudents == "" then "Sin especificar" else numStudents
  }

  class SmartFormationSelectorPanel {
    const courses: seq<Catalog.Course>
    var numStudents: string
    var formationDetails: string
    var isActive: bool
    var filteredCourses: seq<Catalog.Course>

    constructor(courses: seq<Catalog.Course>)
      ensures this.courses == courses
      ensures numStudents == "" && formationDetails == "" && !isActive && filteredCourses == []
    {
      this.courses := courses;
      numStudents := "";
      formationDetails := "";
      isActive := false;
      filteredCourses := [];
    }

    method SetNumStudents(value: string)
      modifies this
      ensures numStudents == value
      ensures formationDetails == old(formationDetails) && isActive == old(isActive)
      ensures filteredCourses == old(filteredCourses)
    {
      numStudents := value;
    }

    method SetFormationDetails(value: string)
      modifies this
      ensures formationDetails == value
      ensures numStudents == old(numStudents) && isActive == old(isActive)
      ensures filteredCourses == old(filteredCourses)
    {
      formationDetails := value;
    }

    /** handleSmartFilter: blank details are refused (found is None, the
        "required field" notice); otherwise the matches are listed and the
        count reported. */
    method HandleSmartFilter() returns (found: Option<nat>)
      modifies this
      ensures found.None? <==> Text.IsBlank(formationDetails)
      ensures found.None? ==> isActive == old(isActive) && filteredCourses == old(filteredCourses)
      ensures found.Some? ==> isActive && filteredCourses == SmartFilter(courses, formationDetails)
      ensures found.Some? ==> found.value == |filteredCourses| <= |courses|
      ensures numStudents == old(numStudents) && formationDetails == old(formationDetails)
    {
      if Text.IsBlank(formationDetails) {
        found := None;
      } else {
        filteredCourses := SmartFilter(courses, formationDetails);
        isActive := true;
        found := Some(|filteredCourses|);
      }
    }

    /** handleCreateCustomFormation: blank details are refused; otherwise
        the parameters stored for the custom formation screen, carrying the
        formation generated for the first skill (extracting it from the
        details is left to the caller). */
    method HandleCreateCustomFormation(firstSkill: string) returns (params: Option<CustomFormationParams>)
      ensures params.None? <==> Text.IsBlank(formationDetails)
      ensures params.Some? ==> params.value == CustomFormationParams(
        StudentsLabel(numStudents), formationDetails, "intermedio", CFC.GeneratedFormation(firstSkill))
    {
      params := None;
      if !Text.IsBlank(formationDetails) {
        var cf := CFC.GeneratedFormation(firstSkill);
        params := Some(CustomFormationParams(StudentsLabel(numStudents), formationDetails, "intermedio", cf));
      }
    }

    method Reset()
      modifies this
      ensures numStudents == "" && formationDetails == "" && !isActive && filteredCourses == []
    {
      numStudents := "";
      formationDetails := "";
      isActive := false;
      filteredCourses := [];
    }
  }
}
