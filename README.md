# Projenix catalog queries in Dafny

This project models the query logic of a small real-estate catalog app
written in React Native. The app loads a read-only list of projects. Each
project has an id, a title, a description, a location, a category, a status
and an optional `featured` flag. Four screens compute with that list:

- **The landing screen** (`app/Oopindex.tsx`):
  - the featured subset and the hero card;
  - the catalog grouped by category and then by status, built by a `reduce`
    that pushes each project into a nested object in place;
  - a case-insensitive search over title, description and location, narrowed
    by a filter chip and cut to four results;
  - the handlers that select a project, open and close the modal, navigate to
    the details screen and refresh.
- **The filter chips** (`components/Filters/Filters.tsx`): five fixed
  lower-case values, each shown with its first letter upper-cased. The chip
  equal to the active filter is highlighted.
- **The projects list** (`app/Projects.tsx`): two independent filters, one on
  category and one on status, a reset button, and a "Showing n of m" count.
- **The details screen** (`app/Details.tsx`): reads the `id` route parameter,
  finds the project with `find`, and shows either the project or
  "Project not found."

Modules:

| module | file | contents |
|---|---|---|
| `Strings` | `strings.dfy` | ASCII lower/upper case, `includes` |
| `Sequences` | `sequences.dfy` | `filter`, `slice(0, n)`, first-seen order of keys, subsequences |
| `Catalog` | `catalog.dfy` | the `Project` record and `Option` |
| `Filters` | `filters.dfy` | the chip row |
| `Landing` | `landing.dfy` | featured, hero, search, and the landing screen state as a class |
| `Grouping` | `grouping.dfy` | the in-place `reduce` as a loop, and the grouping it computes |
| `Projects` | `projects.dfy` | the two-filter list and its screen state as a class |
| `Details` | `details.dfy` | the route parameter and the lookup |
| `Navigation` | `navigation.dfy` | the list screens hand a project's id to the details screen |
| `Scenario` | `scenario.dfy` | two sample records worked through search, filter, grouping and lookup |

### Modelling decisions

- **JavaScript objects** that the grouping builds are modelled as
  `Grouping.Dict`. A `Dict` is a key list in insertion order plus a map.
  Assigning a new key appends it to the list. This is the order
  `Object.keys` gives for non-numeric string keys.
- **The grouping** is specified twice:
  - `Grouping.Grouped` describes the result without the fold. Categories
    and statuses appear in first-seen order, and each leaf holds the
    matching projects in catalog order.
  - `Grouping.Categorize` is the loop. It is proved equal to `Grouped`.
- **`toLowerCase` and `toUpperCase`** act on ASCII letters only.
- **`undefined` and `null`** are `Catalog.Option.None`. This applies to:
  - a missing route parameter;
  - a cleared filter on the projects screen;
  - the landing screen's `projectData[0]` when the catalog is empty.
- **Truthiness on the projects screen.** `app/Projects.tsx` tests both
  filters with `!filter`, so an empty string acts as a cleared filter, just
  like `null` (`Projects.IsSet`).
- **Navigating without a selection.** If no project is selected,
  `navigateToDetails` fails on `selectedProject.id` before it hides the modal.
  `Landing.LandingScreen.NavigateToDetails` therefore requests no route and
  changes nothing in that case. In the app this case does not arise: the
  modal reads `selectedProject.image` on every render
  (`app/Oopindex.tsx:242`), so with an empty catalog the screen fails before
  any handler can run, and otherwise a project is always selected.
- **The search** is an exact, case-insensitive substring test; there is no
  fuzzy matching. An empty query gives no search results; the category
  sections are shown instead.

## Model

| member | source | states |
|---|---|---|
| Strings.LowerChar | app/Oopindex.tsx:64-66 | `toLowerCase` of one character: 'A'..'Z' move up by 32, every other character is unchanged, and the result is never an upper-case letter |
| Strings.UpperChar | components/Filters/Filters.tsx:33 | `toUpperCase` of one character: 'a'..'z' move down by 32, every other character is unchanged, and the result is never a lower-case letter |
| Strings.Lower | app/Oopindex.tsx:64-66 | `toLowerCase` keeps the length, leaves every non-upper-case character in place, and leaves no upper-case letter |
| Strings.LowerIdempotent | app/Oopindex.tsx:64-66 | lower-casing twice is lower-casing once, and its result is lower case |
| Strings.LowerUpperChar | components/Filters/Filters.tsx:33 | upper-casing a lower-case character and lower-casing it again gives it back |
| Strings.Includes | app/Oopindex.tsx:64-66 | `s.includes(t)` holds exactly when `t` occurs in `s` at some position |
| Strings.LowerAvoids | app/Oopindex.tsx:64-66 | a lower-case letter absent in both cases from a suffix of a string is absent from that suffix of its lower-cased form |
| Strings.MissingFirstChar | app/Oopindex.tsx:64-66 | a string that lacks the first character of `t` does not include `t` |
| Sequences.Keep | app/Oopindex.tsx:62-74 | `filter` returns no more elements than it was given, each from the input and accepted by the predicate |
| Sequences.Take | app/Oopindex.tsx:75 | `slice(0, n)` is a prefix of length `min(n, length)` |
| Sequences.KeepSnoc | app/Projects.tsx:25-29 | filtering a list with one more element at the end adds that element exactly when the predicate accepts it |
| Sequences.KeepIsSubsequence | app/Projects.tsx:25-29 | `filter` keeps the order of the input: its result embeds into the input by increasing positions |
| Sequences.PrefixIsSubsequence | app/Oopindex.tsx:75 | a prefix of a subsequence is still a subsequence |
| Sequences.KeepComplete | app/Projects.tsx:25-29 | `filter` drops no element that the predicate accepts |
| Sequences.KeepMembers | app/Projects.tsx:25-29 | an element is in the filtered list if and only if it is in the input and accepted |
| Sequences.KeepHead | app/Oopindex.tsx:45 | the first element of a filtered list is the first accepted element of the input |
| Sequences.KeepRefines | app/Oopindex.tsx:68-71 | filtering by a stricter predicate equals filtering the looser result again, and gives a subsequence of it |
| Sequences.KeepMultiplicity | app/Projects.tsx:25-29 | an accepted element occurs in the result as often as in the input; a rejected one never does |
| Sequences.KeepCounts | app/Oopindex.tsx:45 | for every element at once: an accepted element occurs in the result as often as in the input, a rejected one never |
| Sequences.KeepAll | app/Projects.tsx:25-29 | a predicate that accepts every element returns the input unchanged |
| Sequences.KeepIdempotent | app/Projects.tsx:25-29 | filtering twice with the same predicate is filtering once |
| Sequences.KeepExtensional | app/Oopindex.tsx:62-74 | two predicates that agree on every element give the same filtered list |
| Sequences.FirstSeen | app/Oopindex.tsx:49-50 | the keys of an object filled in order: no key twice, and exactly the keys that were assigned |
| Sequences.FirstIndex | app/Oopindex.tsx:49-50 | the position of the first occurrence: it holds the element, and no earlier position does |
| Sequences.FirstIndexSnoc | app/Oopindex.tsx:49-50 | appending does not move the first occurrence of an element already present |
| Sequences.FirstIndexAppend | app/Oopindex.tsx:49-50 | appending keeps every earlier first occurrence before the end, and a new element is first seen at the end |
| Sequences.FirstSeenOrder | app/Oopindex.tsx:49-50 | object keys are listed in the order in which their first assignment happened |
| Filters.FilterValuesWellFormed | components/Filters/Filters.tsx:11 | the chips are five distinct, non-empty, lower-case values, with `'all'` first |
| Filters.Label | components/Filters/Filters.tsx:33 | a chip caption has the length of its value, its first character upper-cased and the rest unchanged |
| Filters.LabelRoundTrip | components/Filters/Filters.tsx:33 | lower-casing the caption of a lower-case value gives the value back |
| Filters.ChipLabels | components/Filters/Filters.tsx:33 | the captions read "All", "Luxury", "Affordable", "Ongoing", "Completed" |
| Filters.Chips | components/Filters/Filters.tsx:20-36 | one chip per filter value, in order, each with its value and caption |
| Filters.HighlightedChip | components/Filters/Filters.tsx:25 | a chip is highlighted if and only if its value is the active filter; at most one is; one is exactly when the active filter is a chip value |
| Filters.Press | components/Filters/Filters.tsx:27 | pressing chip `i` hands the parent the `i`-th value, and that chip is then highlighted |
| Landing.Featured | app/Oopindex.tsx:45 | the featured list holds exactly the featured catalog projects, in catalog order, each as often as the catalog lists it |
| Landing.Hero | app/Oopindex.tsx:168-171 | the hero card is shown if and only if the query is empty and some project is featured, and it shows the first featured project |
| Landing.MatchesSearch | app/Oopindex.tsx:64-66 | a project matches the query exactly when the lower-cased query occurs in its lower-cased title, description or location |
| Landing.MatchesFilter | app/Oopindex.tsx:68-71 | `'all'` passes every project; any other value passes a project only if it is already lower case (it must equal a lower-cased category or status) |
| Landing.Matches | app/Oopindex.tsx:62-74 | the matches are exactly the catalog projects that contain the query and pass the filter, in catalog order |
| Landing.SearchResults | app/Oopindex.tsx:75 | none for an empty query; otherwise the first `min(4, n)` of the `n` matches, in catalog order |
| Landing.SearchResultsSound | app/Oopindex.tsx:62-75 | every result is a catalog project, in catalog order, that contains the lower-cased query in its title, description or location and passes the active filter |
| Landing.SearchResultsComplete | app/Oopindex.tsx:62-75 | a matching project is left out only when four results are already shown (with the prefix contract of `SearchResults`, four earlier matches) |
| Landing.SearchCaseInsensitive | app/Oopindex.tsx:64-66 | two queries that lower-case alike give the same results |
| Landing.AllFilterMatchesEveryFound | app/Oopindex.tsx:68-69 | with `'all'`, the matches are exactly the catalog projects that contain the query |
| Landing.ChipNarrowsMatches | app/Oopindex.tsx:68-71 | any chip's matches are an order-preserving subsequence of the `'all'` matches |
| Landing.ChipAcceptsLabelledProjects | app/Oopindex.tsx:70-71 | a project whose category or status reads as a chip's caption passes that chip's filter |
| Landing.LandingScreen.constructor | app/Oopindex.tsx:33-38 | the first project is selected (none for an empty catalog); empty query; filter `'all'`; no results; modal hidden |
| Landing.LandingScreen.SetSearchQuery | app/Oopindex.tsx:80-83 | after typing, the results are those of the new query and the current filter, and nothing else changes |
| Landing.LandingScreen.PressChip | app/Oopindex.tsx:162-165 | after a chip press, the filter is the chip's value, the results follow it, and nothing else changes |
| Landing.LandingScreen.OnRefresh | app/Oopindex.tsx:85-90 | refresh clears the query and the results and resets the filter to `'all'` |
| Landing.LandingScreen.HandleProjectSelect | app/Oopindex.tsx:92-95 | selecting a card selects that project and opens the modal |
| Landing.LandingScreen.NavigateToDetails | app/Oopindex.tsx:97-100 | requests the details route with the selected project's id and hides the modal; with no selection it requests nothing and changes nothing |
| Landing.LandingScreen.CloseModal | app/Oopindex.tsx:286-291 | "Close", like the modal's `onRequestClose` at line 237, hides the modal and keeps everything else |
| Grouping.Dict.Put | app/Oopindex.tsx:49-51 | `obj[k] = v` sets the value of `k`; on a well-formed object it keeps the key list when `k` is present and appends `k` when it is not, and the object stays well formed |
| Grouping.PushInto | app/Oopindex.tsx:50-51 | the status's bucket becomes its old bucket (or `[]` when missing) plus the project at the end; other statuses keep their buckets; well-formedness is kept |
| Grouping.File | app/Oopindex.tsx:47-53 | one reducer step lists the project's category and status and ends their bucket with the project, keeping the object well formed |
| Grouping.Fold | app/Oopindex.tsx:46-54 | the reduce from `{}` always yields a well-formed object: no category listed twice, exactly the listed ones with values |
| Grouping.Reduce | app/Oopindex.tsx:47-53 | the reducer callback computes one filing step: the category and status are opened when missing, then the project is pushed |
| Grouping.FoldIsGrouped | app/Oopindex.tsx:46-54 | folding the reducer over any catalog gives the grouping described without the fold |
| Grouping.Categorize | app/Oopindex.tsx:46-54 | the reduce loop returns exactly the declarative grouping of the catalog |
| Grouping.Grouped | app/Oopindex.tsx:49-50 | no key is listed twice at either level, and the listed keys are exactly those with values |
| Grouping.GroupedKeyOrder | app/Oopindex.tsx:49-50 | categories, and the statuses within each category, are listed in the order of their first project in the catalog |
| Grouping.GroupedBucketsNonEmpty | app/Oopindex.tsx:199-203 | every listed bucket is non-empty, holds only projects of its category and status, and keeps catalog order |
| Grouping.GroupedPlacesEveryProject | app/Oopindex.tsx:46-54 | every catalog project's category and status are listed, and its bucket holds it as often as the catalog does |
| Grouping.GroupedTotal | app/Oopindex.tsx:46-54 | the bucket sizes add up to the catalog length: every project is filed exactly once |
| Grouping.PushIntoSeen | app/Oopindex.tsx:51 | pushing under a status that is present appends to its bucket |
| Grouping.PushIntoUnseen | app/Oopindex.tsx:50-51 | pushing under a missing status lists the status last, with a one-project bucket |
| Grouping.GroupedSnoc | app/Oopindex.tsx:47-53 | one more catalog project changes the grouping by exactly one reducer step |
| Grouping.GroupedSnocSeen | app/Oopindex.tsx:51 | a project of a listed category is pushed under it, and the category list is unchanged |
| Grouping.GroupedSnocUnseen | app/Oopindex.tsx:49 | a project of a new category lists that category last, holding one bucket with the project |
| Grouping.StatusesOfSnocOther | app/Oopindex.tsx:47-53 | filing a project leaves the buckets of every other category unchanged |
| Projects.IsSet | app/Projects.tsx:26-27 | `!filter` is false exactly for a non-empty string: `null` and `""` both leave the filter out of the match |
| Projects.MatchesBoth | app/Projects.tsx:26-28 | cleared filters accept every project; a passing project has the category and status of any set filter; a project always passes filters set to its own category and status |
| Projects.FilterProjects | app/Projects.tsx:25-29 | the list holds exactly the catalog projects that match both filters, in catalog order |
| Projects.ClearedFiltersShowAll | app/Projects.tsx:25-29 | with both filters cleared the whole catalog is shown, in order |
| Projects.FilterIdempotent | app/Projects.tsx:25-29 | filtering the shown list again with the same filters changes nothing |
| Projects.FilterKeepsMultiplicity | app/Projects.tsx:25-29 | each shown project occurs as often as it does in the catalog |
| Projects.ShowsReset | app/Projects.tsx:91 | the reset button is shown only when a filter is set; a set, non-empty filter always shows it |
| Projects.ResetShownWhenFiltered | app/Projects.tsx:91 | whenever the filters hide a project, the reset button is shown |
| Projects.ProjectsScreen.constructor | app/Projects.tsx:18-19 | both filters start cleared |
| Projects.ProjectsScreen.Shown | app/Projects.tsx:25-29 | the shown list is an order-preserving subsequence of the catalog holding exactly the projects that match both current filters |
| Projects.ProjectsScreen.Counts | app/Projects.tsx:100 | "Showing n of m": `n` is the length of the shown list, `m` the catalog size, and `n` never exceeds `m` |
| Projects.ProjectsScreen.SetCategoryFilter | app/Projects.tsx:47-64 | a category button sets or clears the category filter and leaves the status filter alone |
| Projects.ProjectsScreen.SetStatusFilter | app/Projects.tsx:70-87 | a status button sets or clears the status filter and leaves the category filter alone |
| Projects.ProjectsScreen.ResetFilters | app/Projects.tsx:31-34 | reset clears both filters, shows the whole catalog again, and hides the reset button |
| Details.RouteId | app/Details.tsx:8 | missing route parameters give an undefined id; otherwise the id is the parameter's |
| Details.HasId | app/Details.tsx:10 | `p.id === id` never holds for an undefined id, and for a defined one holds exactly when the ids are equal |
| Details.FindById | app/Details.tsx:10 | `find` returns the first catalog project with the id, and none exactly when no project has it |
| Details.DetailsView | app/Details.tsx:10-18 | "Project not found." is shown if and only if no catalog project has the id; otherwise a catalog project with that id is shown |
| Details.MissingIdNotFound | app/Details.tsx:8-18 | without route parameters, or without an id among them, the screen shows "not found" |
| Details.FindOwnId | app/Details.tsx:10 | with unique ids, looking up a catalog project's id finds that very project |
| Navigation.CardRoute | app/Projects.tsx:21-23 | the route a card sends carries the card's project id |
| Navigation.CardOpensDetails | app/Details.tsx:8-10 | with unique ids, the route of any catalog project opens that project's details |
| Navigation.ProjectsCardOpensDetails | app/Projects.tsx:21-23 | a card of the filtered list opens the details of the project it shows |
| Navigation.LandingSelectionOpensDetails | app/Oopindex.tsx:97-98 | a project selected from the hero, a search result or a section opens its own details |
| Scenario.CondosLackLoft | app/Oopindex.tsx:64-66 | "loft" occurs nowhere in the condos' lower-cased title, description or location |
| Scenario.LoftsHaveLoft | app/Oopindex.tsx:64-66 | "loft" occurs in the loft apartments' lower-cased title |
| Scenario.SearchLoft | app/Oopindex.tsx:62-75 | searching "loft" among the two sample records gives exactly the loft apartments |
| Scenario.FilterLuxury | app/Projects.tsx:25-29 | filtering the two sample records by the category "Luxury" gives the condos alone |
| Scenario.GroupCondos | app/Oopindex.tsx:46-54 | one record groups into one category, with one status holding that record |
| Scenario.GroupBoth | app/Oopindex.tsx:46-54 | the two records group into "Luxury" then "Affordable", with one status each |
| Scenario.LookupMissingId | app/Details.tsx:10-18 | looking up id 999, which no record has, shows "not found" |

## Left out

- Debouncing. The search is applied as soon as the query or the filter
  changes. The 300 ms lodash `debounce`, its cancellation on unmount, and the
  React effect scheduling are timing behaviour with nothing to compute.
- The refresh spinner. `refreshing` and the one-second `setTimeout` that
  clears it are timing only. `OnRefresh` models the query and filter reset.
- Rendering. This covers layout, styles, images, icons, `Dimensions` and
  `Platform`, `keyExtractor`, the section titles, price formatting with
  `toLocaleString`, and the status and category icons.
- The `image` and `price` fields. The screens only display them.
- Loading `assets/projects.json`. The catalog is a parameter.
- `components/Search/Search.tsx` and `components/ui/*` are not part of this
  model. The search box only forwards `setSearchQuery` and
  `handleProjectSelect`, which the landing screen's methods model.
- Full Unicode case mapping. `Strings.LowerChar` and `Strings.UpperChar`
  change ASCII letters only.
- Grouping.Dict: does not model the key order JavaScript uses for
  integer-like keys (they come first, in numeric order), nor inherited
  property names such as `constructor`. Categories and statuses are assumed
  to be ordinary names.
- Grouping.Categorize: the nested objects and arrays are values, so the
  sharing between the accumulator and the arrays it pushes into is not
  captured. Only the final contents are.
- Ids are integers. A string id and a number id never compare equal under
  `===`; the model has one id type, so that case does not arise.
- Navigation itself is left to the navigation library. The model only states
  which route parameters are requested.
