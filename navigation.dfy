/**
 * The hand-over from the two list screens to the details screen: both ask for
 * the details route with the id of a project they took from the catalog, and
 * the details screen looks that id up again.
 */
module Navigation {
  import opened Catalog
  import opened Landing
  import opened Grouping
  import opened Projects
  import opened Details

  /** `navigation.navigate('Details', { id })`: the route parameters a project card sends. */
  function CardRoute(p: Project): (params: Option<RouteParams>)
    ensures RouteId(params) == Some(p.id)
  {
    Some(RouteParams(Some(p.id)))
  }

  /** With unique ids, the route of any catalog project opens the details of that project. */
  lemma CardOpensDetails(catalog: seq<Project>, p: Project)
    requires UniqueIds(catalog) && p in catalog
    ensures DetailsView(catalog, CardRoute(p)) == Show(p)
  {
    FindOwnId(catalog, p);
  }

  /** A card of the projects list opens the details of the project it shows. */
  lemma ProjectsCardOpensDetails(catalog: seq<Project>, categoryFilter: Option<string>, statusFilter: Option<string>, p: Project)
    requires UniqueIds(catalog) && p in FilterProjects(catalog, categoryFilter, statusFilter)
    ensures DetailsView(catalog, CardRoute(p)) == Show(p)
  {
    CardOpensDetails(catalog, p);
  }

  /**
   * On the landing screen a project is selected from the hero card, a search
   * result or a category section; "View Details" then opens that project.
   */
  lemma LandingSelectionOpensDetails(catalog: seq<Project>, searchQuery: string, activeFilter: string, p: Project)
    requires UniqueIds(catalog)
    requires Hero(catalog, searchQuery) == Some(p)
      || p in SearchResults(catalog, searchQuery, activeFilter)
      || exists c, s :: c in Grouped(catalog).at && s in Grouped(catalog).at[c].at && p in Grouped(catalog).at[c].at[s]
    ensures DetailsView(catalog, CardRoute(p)) == Show(p)
  {
    if Hero(catalog, searchQuery) == Some(p) {
      assert p in Featured(catalog);
    } else if p in SearchResults(catalog, searchQuery, activeFilter) {
      SearchResultsSound(catalog, searchQuery, activeFilter);
    } else {
      var c, s :| c in Grouped(catalog).at && s in Grouped(catalog).at[c].at && p in Grouped(catalog).at[c].at[s];
      GroupedBucketsNonEmpty(catalog, c, s);
    }
    CardOpensDetails(catalog, p);
  }
}
