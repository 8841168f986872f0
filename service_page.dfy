/** The page of one service on the public site: its category filter buttons and the projects a
    filter selects, matched through each project's `categoryId`. */
module ServicePage {
  import opened JsValues
  import opened Lists
  import opened Records
  import opened PortfolioPage

  /** `['All', ...categories.map((cat) => cat.name)]`. */
  function AllCategories(categories: seq<Category>): (r: seq<Option<Value>>)
    ensures |r| == |categories| + 1 && r[0] == AllFilter
    ensures forall i :: 0 <= i < |categories| ==> r[i + 1] == categories[i].name
  {
    [AllFilter] + seq(|categories|, i requires 0 <= i < |categories| => categories[i].name)
  }

  /** The filter bar is shown when there is a button besides `'All'`, that is when the service has
      a category. */
  function ShowFilterBar(categories: seq<Category>): (r: bool)
    ensures r <==> categories != []
  {
    |AllCategories(categories)| > 1
  }

  /** `categories.find((c) => c.id === project.categoryId)`. */
  function CategoryOfProject(categories: seq<Category>, p: PortfolioItem): (r: Option<Category>)
    ensures r.None? <==> forall k :: 0 <= k < |categories| ==> Some(categories[k].id) != p.categoryId
    ensures r.Some? ==> r.value in categories && Some(r.value.id) == p.categoryId
  {
    var k := FirstWhere(categories, (c: Category) => Some(c.id) == p.categoryId);
    if k >= 0 then Some(categories[k]) else None
  }

  /** `category && category.name === activeFilter`. */
  function InNamedCategory(categories: seq<Category>, active: Option<Value>): PortfolioItem -> bool {
    (p: PortfolioItem) =>
      var c := CategoryOfProject(categories, p);
      c.Some? && c.value.name == active
  }

  /** The projects shown under a filter: all of them under `'All'`, otherwise those whose category
      is found and carries the filter's name, in their order. */
  function ServiceFiltered(projects: seq<PortfolioItem>, categories: seq<Category>, active: Option<Value>): (r: seq<PortfolioItem>)
    ensures active == AllFilter ==> r == projects
    ensures active != AllFilter ==> forall p :: p in r <==> p in projects && InNamedCategory(categories, active)(p)
    ensures SubseqOf(r, projects)
  {
    if active == AllFilter then
      SubseqOfSelf(projects);
      projects
    else
      FilterMembers(projects, InNamedCategory(categories, active));
      FilterIsSubseq(projects, InNamedCategory(categories, active));
      Filter(projects, InNamedCategory(categories, active))
  }

  /** A project whose `categoryId` names no category of the service is shown only under `'All'`. */
  lemma DanglingOnlyUnderAll(projects: seq<PortfolioItem>, categories: seq<Category>, active: Option<Value>, p: PortfolioItem)
    requires forall k :: 0 <= k < |categories| ==> Some(categories[k].id) != p.categoryId
    ensures p in ServiceFiltered(projects, categories, active) <==> p in projects && active == AllFilter
  {
  }

  /** With category ids unique, a project is shown under a named filter exactly when its own
      category carries that name. */
  lemma ShownUnderName(projects: seq<PortfolioItem>, categories: seq<Category>, active: Option<Value>, p: PortfolioItem)
    requires UniqueIds(categories, CategoryId)
    requires active != AllFilter
    ensures p in ServiceFiltered(projects, categories, active) <==>
      p in projects && exists k :: 0 <= k < |categories| && Some(categories[k].id) == p.categoryId && categories[k].name == active
  {
    var c := CategoryOfProject(categories, p);
    if c.Some? {
      var j :| 0 <= j < |categories| && categories[j] == c.value;
      assert forall k :: 0 <= k < |categories| && Some(categories[k].id) == p.categoryId ==> categories[k] == categories[j];
    }
  }
}
