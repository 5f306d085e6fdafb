/**
 * The projects list screen: two independent filters, on category and on
 * status, each either cleared (`null`, matching everything) or set to one
 * value, a reset button that clears both, and a "Showing n of m" count.
 */
module Projects {
  import opened Sequences
  import opened Catalog

  /**
   * Whether a filter takes part in the match. The screen tests the filter's
   * truthiness, so an empty string counts as cleared just like `null`.
   */
  function IsSet(filter: Option<string>): (active: bool)
    ensures filter == None ==> !active
    ensures filter == Some("") ==> !active
    ensures active <==> filter.Some? && |filter.value| > 0
  {
    filter.Some? && filter.value != ""
  }

  /** `(!categoryFilter || project.category === categoryFilter) && (!statusFilter || ...)`. */
  function MatchesBoth(p: Project, categoryFilter: Option<string>, statusFilter: Option<string>): (ok: bool)
    ensures !IsSet(categoryFilter) && !IsSet(statusFilter) ==> ok
    ensures ok && IsSet(categoryFilter) ==> p.category == categoryFilter.value
    ensures ok && IsSet(statusFilter) ==> p.status == statusFilter.value
    ensures categoryFilter == Some(p.category) && statusFilter == Some(p.status) ==> ok
  {
    (!IsSet(categoryFilter) || p.category == categoryFilter.value) &&
    (!IsSet(statusFilter) || p.status == statusFilter.value)
  }

  /** The visible projects: exactly those matching both filters, in catalog order. */
  function FilterProjects(catalog: seq<Project>, categoryFilter: Option<string>, statusFilter: Option<string>): (shown: seq<Project>)
    ensures |shown| <= |catalog|
    ensures IsSubsequence(shown, catalog)
    ensures forall p :: p in shown <==> p in catalog && MatchesBoth(p, categoryFilter, statusFilter)
  {
    var f := (p: Project) => MatchesBoth(p, categoryFilter, statusFilter);
    KeepMembers(catalog, f);
    KeepIsSubsequence(catalog, f);
    Keep(catalog, f)
  }

  /** With both filters cleared the whole catalog is shown, in order. */
  lemma ClearedFiltersShowAll(catalog: seq<Project>)
    ensures FilterProjects(catalog, None, None) == catalog
  {
    KeepAll(catalog, (p: Project) => MatchesBoth(p, None, None));
  }

  /** Filtering the shown list again with the same filters changes nothing. */
  lemma FilterIdempotent(catalog: seq<Project>, categoryFilter: Option<string>, statusFilter: Option<string>)
    ensures FilterProjects(FilterProjects(catalog, categoryFilter, statusFilter), categoryFilter, statusFilter)
      == FilterProjects(catalog, categoryFilter, statusFilter)
  {
    KeepIdempotent(catalog, (p: Project) => MatchesBoth(p, categoryFilter, statusFilter));
  }

  /** Each shown project occurs as often as in the catalog. */
  lemma FilterKeepsMultiplicity(catalog: seq<Project>, categoryFilter: Option<string>, statusFilter: Option<string>, p: Project)
    requires MatchesBoth(p, categoryFilter, statusFilter)
    ensures multiset(FilterProjects(catalog, categoryFilter, statusFilter))[p] == multiset(catalog)[p]
  {
    KeepMultiplicity(catalog, (q: Project) => MatchesBoth(q, categoryFilter, statusFilter), p);
  }

  /** `(categoryFilter || statusFilter) && <reset button>`. */
  function ShowsReset(categoryFilter: Option<string>, statusFilter: Option<string>): (shown: bool)
    ensures shown ==> categoryFilter.Some? || statusFilter.Some?
    ensures shown <== (categoryFilter.Some? && categoryFilter.value != "") || (statusFilter.Some? && statusFilter.value != "")
  {
    IsSet(categoryFilter) || IsSet(statusFilter)
  }

  /** The reset button is shown exactly when some filter narrows the list. */
  lemma ResetShownWhenFiltered(catalog: seq<Project>, categoryFilter: Option<string>, statusFilter: Option<string>)
    requires FilterProjects(catalog, categoryFilter, statusFilter) != catalog
    ensures ShowsReset(categoryFilter, statusFilter)
  {
    if !ShowsReset(categoryFilter, statusFilter) {
      KeepAll(catalog, (p: Project) => MatchesBoth(p, categoryFilter, statusFilter));
    }
  }

  /** The state of the projects screen. */
  class ProjectsScreen {
    const catalog: seq<Project>
    var categoryFilter: Option<string>
    var statusFilter: Option<string>

    /** Both filters start cleared. */
    constructor (catalog: seq<Project>)
      ensures this.catalog == catalog && categoryFilter == None && statusFilter == None
    {
      this.catalog := catalog;
      categoryFilter := None;
      statusFilter := None;
    }

    /** The list the screen shows. */
    function Shown(): (shown: seq<Project>)
      reads this
      ensures IsSubsequence(shown, catalog)
      ensures forall p :: p in shown <==> p in catalog && MatchesBoth(p, categoryFilter, statusFilter)
    {
      FilterProjects(catalog, categoryFilter, statusFilter)
    }

    /** "Showing n of m projects": n never exceeds m. */
    function Counts(): (counts: (nat, nat))
      reads this
      ensures counts.0 == |Shown()|
      ensures counts.0 <= counts.1 == |catalog|
    {
      (|Shown()|, |catalog|)
    }

    /** A category button: "All" clears the filter, the others set it. */
    method SetCategoryFilter(category: Option<string>)
      modifies this
      ensures categoryFilter == category && statusFilter == old(statusFilter)
    {
      categoryFilter := category;
    }

    /** A status button: "All" clears the filter, the others set it. */
    method SetStatusFilter(status: Option<string>)
      modifies this
      ensures statusFilter == status && categoryFilter == old(categoryFilter)
    {
      statusFilter := status;
    }

    /** "Reset Filters" clears both filters, which shows the whole catalog again. */
    method ResetFilters()
      modifies this
      ensures categoryFilter == None && statusFilter == None
      ensures Shown() == catalog && !ShowsReset(categoryFilter, statusFilter)
    {
      categoryFilter := None;
      statusFilter := None;
      ClearedFiltersShowAll(catalog);
    }
  }
}
