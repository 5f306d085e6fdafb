/**
 * Two catalog records worked through the search, the category filter and
 * the grouping, as concrete instances of the general lemmas.
 */
module Scenario {
  import opened Strings
  import opened Sequences
  import opened Catalog
  import opened Landing
  import opened Grouping
  import opened Projects
  import opened Details

  /** A completed luxury record and an ongoing affordable one. */
  const Condos := Project(1, "Luxury Waterfront Condos", "", "", "Luxury", "Completed", false)
  const Lofts := Project(2, "Urban Loft Apartments", "", "", "Affordable", "Ongoing", false)

  /** Past its first character the condos' title has no 'l'... */
  lemma CondosTitleTailLacksL()
    ensures 'l' !in "Luxury Waterfront Condos"[1..]
  {
    assert "Luxury Waterfront Condos"[1..] == "uxury Waterfront Condos";
  }

  /** ...and no 'L'. */
  lemma CondosTitleTailLacksUpperL()
    ensures 'L' !in "Luxury Waterfront Condos"[1..]
  {
    assert "Luxury Waterfront Condos"[1..] == "uxury Waterfront Condos";
  }

  /** So past its first character the condos' lower-cased title has no 'l'. */
  lemma CondosTitleTail()
    ensures 'l' !in Lower(Condos.title)[1..]
  {
    CondosTitleTailLacksL();
    CondosTitleTailLacksUpperL();
    LowerAvoids(Condos.title, 'l', 1);
  }

  /** The condos' lower-cased title starts with "lu", not "lo". */
  lemma CondosTitleStart()
    ensures |Lower(Condos.title)| >= 4 && Lower(Condos.title)[..4] != "loft"
  {
    assert Lower(Condos.title)[1] == 'u';
    assert Lower(Condos.title)[..4][1] != "loft"[1];
  }

  /** The condos mention "loft" nowhere: the only 'l' of their title starts "lu". */
  lemma CondosLackLoft()
    ensures !MatchesSearch(Condos, "loft")
  {
    assert Lower("loft") == "loft";
    assert Lower("") == "";
    var title := Lower(Condos.title);
    CondosTitleTail();
    CondosTitleStart();
    ContainsStep(title, "loft");
    MissingFirstChar(title[1..], "loft");
  }

  /** The loft apartments' title contains "loft" from its seventh character. */
  lemma LoftsHaveLoft()
    ensures MatchesSearch(Lofts, "loft")
  {
    assert Lower("loft") == "loft";
    assert OccursAt(Lower(Lofts.title), "loft", 6);
  }

  /** Filtering two elements of which only the second passes leaves that one. */
  lemma KeepOnlySecond<T>(x: T, y: T, f: T -> bool)
    requires !f(x) && f(y)
    ensures Keep([x, y], f) == [y]
  {
    KeepSnoc([], x, f);
    KeepSnoc([x], y, f);
    assert [] + [x] == [x];
    assert [x] + [y] == [x, y];
  }

  /** Searching for "loft" with every chip finds only the loft apartments, by their title. */
  lemma SearchLoft()
    ensures SearchResults([Condos, Lofts], "loft", "all") == [Lofts]
  {
    CondosLackLoft();
    LoftsHaveLoft();
    KeepOnlySecond(Condos, Lofts, (p: Project) => MatchesSearch(p, "loft") && MatchesFilter(p, "all"));
  }

  /** Filtering by the category "Luxury" keeps only the condos. */
  lemma FilterLuxury()
    ensures FilterProjects([Condos, Lofts], Some("Luxury"), None) == [Condos]
  {
    var f := (p: Project) => MatchesBoth(p, Some("Luxury"), None);
    KeepSnoc([], Condos, f);
    KeepSnoc([Condos], Lofts, f);
    assert [] + [Condos] == [Condos];
    assert [Condos] + [Lofts] == [Condos, Lofts];
  }

  /** One record gives one category holding one status with one project. */
  lemma GroupCondos()
    ensures Grouped([Condos]) == Dict(["Luxury"], map["Luxury" := Dict(["Completed"], map["Completed" := [Condos]])])
  {
    assert Categories([]) == [];
    assert [] + [Condos] == [Condos];
    GroupedSnocUnseen([], Condos);
    PushIntoEmpty("Completed", Condos);
    assert [] + ["Luxury"] == ["Luxury"];
  }

  /** The loft's category is new, so it is listed after "Luxury". */
  lemma GroupBothStep()
    ensures Grouped([Condos, Lofts]) ==
      Dict(Grouped([Condos]).keys + ["Affordable"], Grouped([Condos]).at["Affordable" := PushInto(EmptyBuckets(), "Ongoing", Lofts)])
  {
    assert Categories([Condos]) == ["Luxury"];
    assert [Condos] + [Lofts] == [Condos, Lofts];
    GroupedSnocUnseen([Condos], Lofts);
  }

  /** Both records grouped: two categories in catalog order, one status each. */
  lemma GroupBoth()
    ensures Grouped([Condos, Lofts]) == Dict(["Luxury", "Affordable"], map[
      "Luxury" := Dict(["Completed"], map["Completed" := [Condos]]),
      "Affordable" := Dict(["Ongoing"], map["Ongoing" := [Lofts]])])
  {
    GroupBothStep();
    GroupCondos();
    PushIntoEmpty("Ongoing", Lofts);
    assert ["Luxury"] + ["Affordable"] == ["Luxury", "Affordable"];
  }

  /** Looking up an id no record has shows the not-found view. */
  lemma LookupMissingId()
    ensures DetailsView([Condos, Lofts], Some(RouteParams(Some(999)))) == NotFound
  {
  }
}
