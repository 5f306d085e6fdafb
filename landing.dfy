/**
 * The landing screen: the featured subset, the search over title,
 * description and location narrowed by the active filter chip and cut to
 * four results, and the screen state its handlers update.
 */
module Landing {
  import opened Strings
  import opened Sequences
  import opened Catalog
  import opened Filters

  /** How many search results the landing screen shows. */
  const MaxResults: nat := 4

  // ---------------------------------------------------------------------------
  // Featured projects.

  /** `projectData.filter(project => project.featured)`. */
  function Featured(catalog: seq<Project>): (featured: seq<Project>)
    ensures forall p :: p in featured <==> p in catalog && p.featured
    ensures IsSubsequence(featured, catalog)
    ensures forall p :: multiset(featured)[p] == if p.featured then multiset(catalog)[p] else 0
  {
    var isFeatured := (p: Project) => p.featured;
    KeepMembers(catalog, isFeatured);
    KeepCounts(catalog, isFeatured);
    KeepIsSubsequence(catalog, isFeatured);
    Keep(catalog, isFeatured)
  }

  /** The hero card: shown only without a search query, it is the first featured project. */
  function Hero(catalog: seq<Project>, searchQuery: string): (hero: Option<Project>)
    ensures hero.Some? <==> searchQuery == "" && exists p :: p in catalog && p.featured
    ensures hero.Some? ==>
      exists i :: FirstSatisfying(catalog, (p: Project) => p.featured, i) && catalog[i] == hero.value
  {
    var featured := Featured(catalog);
    if searchQuery == "" && |featured| > 0 then
      KeepHead(catalog, (p: Project) => p.featured);
      Some(featured[0])
    else
      None
  }

  // ---------------------------------------------------------------------------
  // Search.

  /** The lower-cased query occurs in the lower-cased title, description or location. */
  function MatchesSearch(p: Project, query: string): (found: bool)
    ensures found <==> FoundIn(p, query)
  {
    var q := Lower(query);
    Includes(Lower(p.title), q) || Includes(Lower(p.description), q) || Includes(Lower(p.location), q)
  }

  /** `'all'` accepts every project; any other value must equal the lower-cased
      category or the lower-cased status. */
  function MatchesFilter(p: Project, activeFilter: string): (passes: bool)
    ensures activeFilter == "all" ==> passes
    ensures passes && activeFilter != "all" ==> IsLowerCase(activeFilter)
  {
    LowerIdempotent(p.category);
    LowerIdempotent(p.status);
    activeFilter == "all" || Lower(p.category) == activeFilter || Lower(p.status) == activeFilter
  }

  /** Every project that matches both the query and the active filter, in catalog order. */
  function Matches(catalog: seq<Project>, query: string, activeFilter: string): (matches: seq<Project>)
    ensures forall p :: p in matches <==> p in catalog && FoundIn(p, query) && MatchesFilter(p, activeFilter)
    ensures IsSubsequence(matches, catalog)
  {
    var f := (p: Project) => MatchesSearch(p, query) && MatchesFilter(p, activeFilter);
    KeepMembers(catalog, f);
    KeepIsSubsequence(catalog, f);
    Keep(catalog, f)
  }

  /** `query ? filtered.slice(0, 4) : []`. */
  function SearchResults(catalog: seq<Project>, query: string, activeFilter: string): (results: seq<Project>)
    ensures |results| <= MaxResults
    ensures query == "" ==> results == []
    ensures query != "" ==> results <= Matches(catalog, query, activeFilter)
    ensures query != "" ==>
      |results| == (if |Matches(catalog, query, activeFilter)| < MaxResults then |Matches(catalog, query, activeFilter)| else MaxResults)
  {
    if query == "" then [] else Take(Matches(catalog, query, activeFilter), MaxResults)
  }

  /** The exact, case-insensitive match the search performs on one project. */
  ghost predicate FoundIn(p: Project, query: string)
  {
    var q := Lower(query);
    Contains(Lower(p.title), q) || Contains(Lower(p.description), q) || Contains(Lower(p.location), q)
  }

  /**
   * Every result comes from the catalog, in catalog order, for a non-empty
   * query, contains the lower-cased query in one of its three text fields,
   * and passes the active filter.
   */
  lemma SearchResultsSound(catalog: seq<Project>, query: string, activeFilter: string)
    ensures IsSubsequence(SearchResults(catalog, query, activeFilter), catalog)
    ensures forall p :: p in SearchResults(catalog, query, activeFilter) ==>
      query != "" && p in catalog && FoundIn(p, query) && MatchesFilter(p, activeFilter)
  {
    var results := SearchResults(catalog, query, activeFilter);
    var f := (p: Project) => MatchesSearch(p, query) && MatchesFilter(p, activeFilter);
    KeepIsSubsequence(catalog, f);
    if query == "" {
      assert EmbedsBy(results, catalog, []);
    } else {
      PrefixIsSubsequence(Keep(catalog, f), catalog, |results|);
      assert results == Keep(catalog, f)[..|results|];
      forall p | p in results
        ensures p in Keep(catalog, f)
      {
        var k :| 0 <= k < |results| && results[k] == p;
      }
    }
  }

  /**
   * A catalog project that contains the query and passes the filter is left
   * out only when the results are full. Since the results are the first
   * matches in catalog order, the project is then a later match than all four.
   */
  lemma SearchResultsComplete(catalog: seq<Project>, query: string, activeFilter: string, p: Project)
    requires query != "" && p in catalog && FoundIn(p, query) && MatchesFilter(p, activeFilter)
    requires p !in SearchResults(catalog, query, activeFilter)
    ensures |SearchResults(catalog, query, activeFilter)| == MaxResults
  {
    KeepComplete(catalog, (q: Project) => MatchesSearch(q, query) && MatchesFilter(q, activeFilter), p);
  }

  /** The search ignores the case of the query. */
  lemma SearchCaseInsensitive(catalog: seq<Project>, query: string, other: string, activeFilter: string)
    requires Lower(query) == Lower(other)
    ensures SearchResults(catalog, query, activeFilter) == SearchResults(catalog, other, activeFilter)
  {
    KeepExtensional(catalog,
      (p: Project) => MatchesSearch(p, query) && MatchesFilter(p, activeFilter),
      (p: Project) => MatchesSearch(p, other) && MatchesFilter(p, activeFilter));
  }

  /** With the filter `'all'` the matches are exactly the catalog projects containing the query. */
  lemma AllFilterMatchesEveryFound(catalog: seq<Project>, query: string)
    ensures forall p :: p in Matches(catalog, query, "all") <==> p in catalog && FoundIn(p, query)
  {
    KeepMembers(catalog, (p: Project) => MatchesSearch(p, query) && MatchesFilter(p, "all"));
  }

  /** Choosing a chip other than `'all'` only narrows the matches of `'all'`, keeping their order. */
  lemma ChipNarrowsMatches(catalog: seq<Project>, query: string, activeFilter: string)
    ensures IsSubsequence(Matches(catalog, query, activeFilter), Matches(catalog, query, "all"))
  {
    KeepRefines(catalog,
      (p: Project) => MatchesSearch(p, query) && MatchesFilter(p, activeFilter),
      (p: Project) => MatchesSearch(p, query) && MatchesFilter(p, "all"));
  }

  /** A chip accepts every project whose category or status reads as the chip's label. */
  lemma ChipAcceptsLabelledProjects(p: Project, i: nat)
    requires i < |FilterValues|
    requires p.category == Label(FilterValues[i]) || p.status == Label(FilterValues[i])
    ensures MatchesFilter(p, FilterValues[i])
  {
    FilterValuesWellFormed();
    LabelRoundTrip(FilterValues[i]);
  }

  // ---------------------------------------------------------------------------
  // Screen state.

  /**
   * The landing screen's state. The debounced search effect is applied at
   * once, so the shown results always belong to the current query and filter.
   */
  class LandingScreen {
    const catalog: seq<Project>
    var selectedProject: Option<Project>
    var searchQuery: string
    var activeFilter: string
    var filteredProjects: seq<Project>
    var isModalVisible: bool

    ghost predicate Valid()
      reads this
    {
      filteredProjects == SearchResults(catalog, searchQuery, activeFilter)
    }

    /** The initial state: `projectData[0]` selected, no query, filter `'all'`, modal hidden. */
    constructor (catalog: seq<Project>)
      ensures Valid()
      ensures this.catalog == catalog
      ensures selectedProject == if catalog == [] then None else Some(catalog[0])
      ensures searchQuery == "" && activeFilter == "all"
      ensures filteredProjects == [] && !isModalVisible
    {
      this.catalog := catalog;
      selectedProject := if catalog == [] then None else Some(catalog[0]);
      searchQuery := "";
      activeFilter := "all";
      filteredProjects := [];
      isModalVisible := false;
    }

    /** Typing in the search box, followed by the search effect. */
    method SetSearchQuery(query: string)
      requires Valid()
      modifies this
      ensures Valid()
      ensures searchQuery == query && activeFilter == old(activeFilter)
      ensures filteredProjects == SearchResults(catalog, query, activeFilter)
      ensures selectedProject == old(selectedProject) && isModalVisible == old(isModalVisible)
    {
      searchQuery := query;
      filteredProjects := SearchResults(catalog, searchQuery, activeFilter);
    }

    /** Pressing filter chip `i`, followed by the search effect. */
    method PressChip(i: nat)
      requires Valid() && i < |FilterValues|
      modifies this
      ensures Valid()
      ensures activeFilter == FilterValues[i] && searchQuery == old(searchQuery)
      ensures filteredProjects == SearchResults(catalog, searchQuery, FilterValues[i])
      ensures selectedProject == old(selectedProject) && isModalVisible == old(isModalVisible)
    {
      activeFilter := Press(activeFilter, i);
      filteredProjects := SearchResults(catalog, searchQuery, activeFilter);
    }

    /** Pull-to-refresh clears the query and resets the filter to `'all'`. */
    method OnRefresh()
      requires Valid()
      modifies this
      ensures Valid()
      ensures searchQuery == "" && activeFilter == "all" && filteredProjects == []
      ensures selectedProject == old(selectedProject) && isModalVisible == old(isModalVisible)
    {
      searchQuery := "";
      activeFilter := "all";
      filteredProjects := SearchResults(catalog, searchQuery, activeFilter);
    }

    /** Pressing a project card selects it and opens the modal. */
    method HandleProjectSelect(project: Project)
      requires Valid()
      modifies this
      ensures Valid()
      ensures selectedProject == Some(project) && isModalVisible
      ensures searchQuery == old(searchQuery) && activeFilter == old(activeFilter)
      ensures filteredProjects == old(filteredProjects)
    {
      selectedProject := Some(project);
      isModalVisible := true;
    }

    /**
     * "View Details": asks for the details route with the selected project's
     * id and hides the modal. With no selected project the handler fails
     * before hiding the modal, so nothing changes and no route is requested.
     */
    method NavigateToDetails() returns (destination: Option<int>)
      requires Valid()
      modifies this
      ensures Valid()
      ensures destination == if old(selectedProject).Some? then Some(old(selectedProject).value.id) else None
      ensures isModalVisible == (old(isModalVisible) && old(selectedProject).None?)
      ensures selectedProject == old(selectedProject)
      ensures searchQuery == old(searchQuery) && activeFilter == old(activeFilter)
      ensures filteredProjects == old(filteredProjects)
    {
      match selectedProject
      case None =>
        destination := None;
      case Some(p) =>
        destination := Some(p.id);
        isModalVisible := false;
    }

    /** "Close", or the system back action, hides the modal. */
    method CloseModal()
      requires Valid()
      modifies this
      ensures Valid()
      ensures !isModalVisible && selectedProject == old(selectedProject)
      ensures searchQuery == old(searchQuery) && activeFilter == old(activeFilter)
      ensures filteredProjects == old(filteredProjects)
    {
      isModalVisible := false;
    }
  }
}
