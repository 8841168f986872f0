/** The categories page of the admin panel: the category form, the grouping of categories under
    their services, and the service name lookup. */
module CategoriesView {
  import opened Text
  import opened JsValues
  import opened Lists
  import opened Records
  import opened CatalogRules
  import opened ServicesForm

  /** The form's state: `{ name, serviceId, order }`. */
  datatype CategoryForm = CategoryForm(name: Value, serviceId: Value, order: Value)

  /** The three inputs of the form, by their `name` attribute. */
  datatype CategoryField = CategoryNameField | ServiceIdField | CategoryOrderField

  /** `parseInt(value) || ''`: a non-zero integer, or the empty string for text that does not parse
      or parses to 0. */
  function NumberOrBlank(text: string): (r: Value)
    ensures r == Str("") <==> ParseIntText(text).None? || ParseIntText(text) == Some(0)
    ensures r != Str("") ==> r == Num(ParseIntText(text).value) && r.n != 0
  {
    var n := ParseIntText(text);
    if n.Some? && n.value != 0 then Num(n.value) else Str("")
  }

  /** `handleInputChange`: the typed input's key takes the value, parsed for the order and the
      service. */
  function CategoryInput(f: CategoryForm, field: CategoryField, value: string): (r: CategoryForm)
    ensures field == CategoryNameField ==> r == f.(name := Str(value))
    ensures field == ServiceIdField ==> r == f.(serviceId := NumberOrBlank(value))
    ensures field == CategoryOrderField ==> r == f.(order := NumberOrBlank(value))
  {
    match field
    case CategoryNameField => f.(name := Str(value))
    case ServiceIdField => f.(serviceId := NumberOrBlank(value))
    case CategoryOrderField => f.(order := NumberOrBlank(value))
  }

  /** The request body the form is sent as. */
  function CategoryBody(f: CategoryForm): map<string, Value> {
    map["name" := f.name, "serviceId" := f.serviceId, "order" := f.order]
  }

  /** The form after saving or closing. */
  function ResetCategoryForm(): (r: CategoryForm)
    ensures !Truthy(Some(r.name)) && !Truthy(Some(r.serviceId)) && r.order == Num(1)
  {
    CategoryForm(Str(""), Str(""), Num(1))
  }

  /** A service chosen in the form reaches the server as that service's id, and an order left
      blank, 0 or unparsable lets the server number the category after the others of its service. */
  lemma CreateFromForm(categories: seq<Category>, f: CategoryForm, id: int, order: string)
    requires id != 0
    requires ParseIntText(order).None? || ParseIntText(order) == Some(0)
    ensures var g := CategoryInput(CategoryInput(f, ServiceIdField, IntToString(id)), CategoryOrderField, order);
      var c := NewCategory(categories, CategoryBody(g));
      c.serviceId == Some(id) && c.order == Some(Num(Count(categories, OfService(Some(id))) + 1))
  {
    ParseIntOfIntToString(id);
    var g := CategoryInput(CategoryInput(f, ServiceIdField, IntToString(id)), CategoryOrderField, order);
    var body := CategoryBody(g);
    assert Get(body, "serviceId") == Some(Num(id));
    assert Get(body, "order") == Some(Str(""));
  }

  /** `category.serviceId || ''`. */
  function ServiceIdOrBlank(serviceId: Option<int>): (r: Value)
    ensures serviceId.Some? && serviceId.value != 0 ==> r == Num(serviceId.value)
    ensures serviceId.None? || serviceId == Some(0) ==> r == Str("")
  {
    if serviceId.Some? && serviceId.value != 0 then Num(serviceId.value) else Str("")
  }

  /** `handleEdit(category)`: the form filled from the category, with `''` for a missing name or
      service and 1 for a missing order. */
  function EditCategoryForm(c: Category): (r: CategoryForm)
    ensures Truthy(c.name) ==> r.name == c.name.value
    ensures !Truthy(c.order) ==> r.order == Num(1)
  {
    CategoryForm(Or(c.name, Str("")), ServiceIdOrBlank(c.serviceId), Or(c.order, Num(1)))
  }

  /** Saving the edit form untouched stores the category as it was, provided its name, service and
      order were all set. */
  lemma EditUntouchedKeepsCategory(c: Category)
    requires Truthy(c.name) && Truthy(c.order)
    requires c.serviceId.Some? && c.serviceId.value != 0
    requires forall k :: k in c.extras ==> k !in CategoryKeys
    ensures UpdatedCategory(c, c.id, CategoryBody(EditCategoryForm(c))) == c
  {
    var body := CategoryBody(EditCategoryForm(c));
    assert Get(body, "serviceId") == Some(Num(c.serviceId.value));
    assert body - CategoryKeys == map[] by {
      assert body.Keys <= CategoryKeys;
    }
  }

  /** No service before position `j` has the id. */
  predicate FirstWith(services: seq<Service>, serviceId: Option<int>, j: int)
    requires 0 <= j <= |services|
  {
    forall i :: 0 <= i < j ==> Some(services[i].id) != serviceId
  }

  /** `getServiceName(serviceId)`: the name of the first service with that id, or `'Unknown'`. */
  function ServiceName(services: seq<Service>, serviceId: Option<int>): (r: Option<Value>)
    ensures (forall j :: 0 <= j < |services| ==> Some(services[j].id) != serviceId) ==> r == Some(Str("Unknown"))
    ensures forall j :: 0 <= j < |services| && Some(services[j].id) == serviceId && FirstWith(services, serviceId, j) ==>
      r == services[j].name
  {
    var k := FirstWhere(services, (s: Service) => Some(s.id) == serviceId);
    if k >= 0 then services[k].name else Some(Str("Unknown"))
  }

  /** With unique ids, a service's own id looks up its own name. */
  lemma ServiceNameOfListed(services: seq<Service>, k: int)
    requires UniqueIds(services, ServiceId)
    requires 0 <= k < |services|
    ensures ServiceName(services, Some(services[k].id)) == services[k].name
  {
    forall i | 0 <= i < k ensures Some(services[i].id) != Some(services[k].id) {
      assert ServiceId(services[i]) != ServiceId(services[k]);
    }
  }

  function CategoryOrder(c: Category): int {
    OrderNumber(c.order)
  }

  /** `cat.serviceId === service.id`. */
  function InService(id: int): Category -> bool {
    (c: Category) => c.serviceId == Some(id)
  }

  /** A service's section of the page. */
  datatype Group = Group(service: Service, members: seq<Category>)

  /** The section of one service, or none when it has no category. */
  function GroupOf(s: Service, categories: seq<Category>): seq<Group> {
    var members := SortBy(Filter(categories, InService(s.id)), CategoryOrder);
    if members == [] then [] else [Group(s, members)]
  }

  /** The sections of the page, one per service with categories, in the order of the services. */
  function Groups(services: seq<Service>, categories: seq<Category>): seq<Group> {
    if services == [] then [] else GroupOf(services[0], categories) + Groups(services[1..], categories)
  }

  /** The section of one service, if any, holds that service's categories, sorted by order. */
  lemma GroupOfSpec(s: Service, categories: seq<Category>)
    ensures forall g :: g in GroupOf(s, categories) ==>
      && g.service == s
      && g.members != []
      && SortedBy(g.members, CategoryOrder)
      && multiset(g.members) == multiset(Filter(categories, InService(s.id)))
  {
    var members := Filter(categories, InService(s.id));
    SortByIsSorted(members, CategoryOrder);
    SortByPermutes(members, CategoryOrder);
  }

  /** Each section is headed by a listed service and holds exactly that service's categories, at
      least one, sorted by ascending order. */
  lemma {:induction false} GroupsSpec(services: seq<Service>, categories: seq<Category>)
    ensures forall g :: g in Groups(services, categories) ==>
      && g.service in services
      && g.members != []
      && SortedBy(g.members, CategoryOrder)
      && multiset(g.members) == multiset(Filter(categories, InService(g.service.id)))
  {
    if services != [] {
      GroupsSpec(services[1..], categories);
      GroupOfSpec(services[0], categories);
      assert forall s :: s in services[1..] ==> s in services;
      assert Groups(services, categories) == GroupOf(services[0], categories) + Groups(services[1..], categories);
    }
  }

  /** Some section shows `c`. */
  ghost predicate Shown(g: seq<Group>, c: Category) {
    exists i :: 0 <= i < |g| && c in g[i].members
  }

  /** Some listed service is the service of `c`. */
  ghost predicate Listed(services: seq<Service>, c: Category) {
    exists j :: 0 <= j < |services| && c.serviceId == Some(services[j].id)
  }

  lemma ShownAppend(a: seq<Group>, b: seq<Group>, c: Category)
    ensures Shown(a + b, c) <==> Shown(a, c) || Shown(b, c)
  {
    if Shown(a, c) {
      var i :| 0 <= i < |a| && c in a[i].members;
      assert (a + b)[i] == a[i];
    }
    if Shown(b, c) {
      var i :| 0 <= i < |b| && c in b[i].members;
      assert (a + b)[|a| + i] == b[i];
    }
    if Shown(a + b, c) {
      var i :| 0 <= i < |a + b| && c in (a + b)[i].members;
      if i < |a| {
        assert (a + b)[i] == a[i];
      } else {
        assert (a + b)[i] == b[i - |a|];
      }
    }
  }

  lemma GroupOfShows(s: Service, categories: seq<Category>, c: Category)
    ensures Shown(GroupOf(s, categories), c) <==> c in categories && c.serviceId == Some(s.id)
  {
    var members := Filter(categories, InService(s.id));
    var sorted := SortBy(members, CategoryOrder);
    SortByPermutes(members, CategoryOrder);
    FilterMembers(categories, InService(s.id));
    assert c in sorted <==> c in members by {
      assert c in sorted <==> c in multiset(sorted);
      assert c in members <==> c in multiset(members);
    }
    assert c in members <==> c in categories && c.serviceId == Some(s.id) by {
      assert InService(s.id)(c) == (c.serviceId == Some(s.id));
    }
    if sorted == [] {
      assert GroupOf(s, categories) == [];
    } else {
      assert GroupOf(s, categories) == [Group(s, sorted)];
      assert Shown([Group(s, sorted)], c) <==> c in sorted by {
        if c in sorted {
          assert c in [Group(s, sorted)][0].members;
        }
      }
    }
  }

  lemma ListedCons(services: seq<Service>, c: Category)
    requires services != []
    ensures Listed(services, c) <==> c.serviceId == Some(services[0].id) || Listed(services[1..], c)
  {
    if Listed(services[1..], c) {
      var j :| 0 <= j < |services[1..]| && c.serviceId == Some(services[1..][j].id);
      assert services[1..][j] == services[j + 1];
    }
    if Listed(services, c) && c.serviceId != Some(services[0].id) {
      var j :| 0 <= j < |services| && c.serviceId == Some(services[j].id);
      assert services[1..][j - 1] == services[j];
    }
  }

  /** A category is shown exactly when it belongs to one of the listed services: a category whose
      service is gone appears in no section. */
  lemma {:induction false} GroupsShow(services: seq<Service>, categories: seq<Category>, c: Category)
    ensures Shown(Groups(services, categories), c) <==> c in categories && Listed(services, c)
  {
    if services != [] {
      GroupsShow(services[1..], categories, c);
      GroupOfShows(services[0], categories, c);
      ShownAppend(GroupOf(services[0], categories), Groups(services[1..], categories), c);
      ListedCons(services, c);
    }
  }
}
