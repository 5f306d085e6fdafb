/**
 * The details screen: read the `id` route parameter, look the project up
 * with `projectData.find`, and show either the project or "Project not found."
 */
module Details {
  import opened Catalog

  /** The route parameters; `id` is `undefined` when the route does not carry it. */
  datatype RouteParams = RouteParams(id: Option<int>)

  /** `const { id } = route.params || {}`: missing parameters give an undefined id. */
  function RouteId(params: Option<RouteParams>): (id: Option<int>)
    ensures params.None? ==> id.None?
    ensures params.Some? ==> id == params.value.id
  {
    match params
    case None => None
    case Some(p) => p.id
  }

  /** `p.id === id`: a defined catalog id never equals an undefined one. */
  function HasId(p: Project, id: Option<int>): (same: bool)
    ensures id.None? ==> !same
    ensures id.Some? ==> (same <==> id.value == p.id)
  {
    id == Some(p.id)
  }

  /** `projectData.find((p) => p.id === id)`: the first project with the id, if any. */
  function FindById(catalog: seq<Project>, id: Option<int>): (found: Option<Project>)
    ensures found.Some? ==> HasId(found.value, id)
    ensures found.Some? ==> exists i :: 0 <= i < |catalog| && catalog[i] == found.value &&
                                        forall j :: 0 <= j < i ==> !HasId(catalog[j], id)
    ensures found.None? <==> forall p :: p in catalog ==> !HasId(p, id)
  {
    if catalog == [] then None
    else if HasId(catalog[0], id) then Some(catalog[0])
    else
      var rest := FindById(catalog[1..], id);
      assert forall p :: p in catalog ==> p == catalog[0] || p in catalog[1..];
      if rest.Some? then
        var i :| 0 <= i < |catalog[1..]| && catalog[1..][i] == rest.value &&
                 forall j :: 0 <= j < i ==> !HasId(catalog[1..][j], id);
        assert catalog[i + 1] == rest.value;
        rest
      else
        rest
  }

  /** What the screen renders. */
  datatype View = NotFound | Show(project: Project)

  /** The details screen for the given route parameters. */
  function DetailsView(catalog: seq<Project>, params: Option<RouteParams>): (view: View)
    ensures view.NotFound? <==> forall p :: p in catalog ==> !HasId(p, RouteId(params))
    ensures view.Show? ==> Some(view.project.id) == RouteId(params) && view.project in catalog
  {
    match FindById(catalog, RouteId(params))
    case None => NotFound
    case Some(project) => Show(project)
  }

  /** Without route parameters, or without an id among them, the screen reports not found. */
  lemma MissingIdNotFound(catalog: seq<Project>, params: Option<RouteParams>)
    requires params.None? || params.value.id.None?
    ensures DetailsView(catalog, params) == NotFound
  {
  }

  /** Catalog ids are unique. */
  predicate UniqueIds(catalog: seq<Project>)
  {
    forall i, j :: 0 <= i < |catalog| && 0 <= j < |catalog| && catalog[i].id == catalog[j].id ==> i == j
  }

  /** With unique ids, looking up the id of a catalog project finds that very project. */
  lemma FindOwnId(catalog: seq<Project>, p: Project)
    requires UniqueIds(catalog) && p in catalog
    ensures FindById(catalog, Some(p.id)) == Some(p)
  {
    var k :| 0 <= k < |catalog| && catalog[k] == p;
    var found := FindById(catalog, Some(p.id));
    var i :| 0 <= i < |catalog| && catalog[i] == found.value &&
             forall j :: 0 <= j < i ==> !HasId(catalog[j], Some(p.id));
  }
}
