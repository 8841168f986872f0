/** What the service and category routes compute: the defaults a created record receives, the merge
    an update performs, and the lookups of the public site. */
module CatalogRules {
  import opened Text
  import opened JsValues
  import opened Lists
  import opened Records

  /** The service `POST /services` appends. Its slug is the body's slug when truthy, otherwise the
      slug derived from the name; when the name is then not a string, `toLowerCase` throws and the
      route answers 500. Its order is the body's order when truthy, otherwise one more than the
      number of services. Nothing else from the body is stored. */
  function NewService(services: seq<Service>, body: map<string, Value>): (r: Reply<Service>)
    ensures r.Fail? <==> !Truthy(Get(body, "slug")) && !(Get(body, "name").Some? && Get(body, "name").value.Str?)
    ensures r.Fail? ==> r == Fail(500, "Failed to create service")
    ensures r.Ok? ==> forall i :: 0 <= i < |services| ==> services[i].id < r.value.id
    ensures r.Ok? && |services| == 0 ==> r.value.id == 1
    ensures r.Ok? && |services| > 0 ==> exists i :: 0 <= i < |services| && services[i].id == r.value.id - 1
    ensures r.Ok? ==> r.value.name == Get(body, "name")
    ensures r.Ok? && Truthy(Get(body, "slug")) ==> r.value.slug == Get(body, "slug")
    ensures r.Ok? && !Truthy(Get(body, "slug")) ==>
      r.value.slug == Some(Str(Slugify(body["name"].s))) && NoSpace(r.value.slug.value.s)
    ensures r.Ok? && !Truthy(Get(body, "order")) ==> r.value.order == Some(Num(|services| + 1))
    ensures r.Ok? ==> Truthy(r.value.order) && r.value.extras == map[]
  {
    var name := Get(body, "name");
    var slug := Get(body, "slug");
    var order := if Truthy(Get(body, "order")) then Get(body, "order") else Some(Num(|services| + 1));
    if Truthy(slug) then Ok(Service(NextId(services, ServiceId), name, slug, order, map[]))
    else if name.Some? && name.value.Str? then
      SlugifyIdempotent(name.value.s);
      Ok(Service(NextId(services, ServiceId), name, Some(Str(Slugify(name.value.s))), order, map[]))
    else Fail(500, "Failed to create service")
  }

  /** The service `PUT /services/:id` stores: the stored service overridden by the body, the id
      pinned to the path, and the stored slug kept unless the body's slug is truthy. */
  function UpdatedService(s: Service, id: int, body: map<string, Value>): (r: Service)
    ensures r.id == id
    ensures r.slug == (if Truthy(Get(body, "slug")) then Get(body, "slug") else s.slug)
    ensures "name" !in body ==> r.name == s.name
    ensures "name" in body ==> r.name == Some(body["name"])
    ensures "order" !in body ==> r.order == s.order
    ensures "order" in body ==> r.order == Some(body["order"])
    ensures forall k :: k in s.extras && k !in body ==> k in r.extras && r.extras[k] == s.extras[k]
    ensures forall k :: k in body && k !in ServiceKeys ==> k in r.extras && r.extras[k] == body[k]
    ensures forall k :: k in r.extras ==> k in s.extras || k in body
    ensures (forall k :: k in s.extras ==> k !in ServiceKeys) ==> forall k :: k in r.extras ==> k !in ServiceKeys
  {
    Service(
      id,
      if "name" in body then Some(body["name"]) else s.name,
      if Truthy(Get(body, "slug")) then Get(body, "slug") else s.slug,
      if "order" in body then Some(body["order"]) else s.order,
      s.extras + (body - ServiceKeys))
  }

  /** The update `PUT /services/:id` applies to the service it found; it never fails. */
  function ServiceUpdate(body: map<string, Value>): (f: Service -> Reply<Service>)
    ensures forall s :: f(s) == Ok(UpdatedService(s, s.id, body))
    ensures forall s :: f(s).Ok? ==> ServiceId(f(s).value) == ServiceId(s)
  {
    (s: Service) => Ok(UpdatedService(s, s.id, body))
  }

  /** `c.serviceId === parseInt(param)`. */
  function OfService(param: Option<int>): Category -> bool {
    (c: Category) => param.Some? && c.serviceId == param
  }

  /** The category `POST /categories` appends. Its service is `parseInt(body.serviceId)`, and its
      order, when the body gives none, is one more than the number of categories of that service. */
  function NewCategory(categories: seq<Category>, body: map<string, Value>): (r: Category)
    ensures forall i :: 0 <= i < |categories| ==> categories[i].id < r.id
    ensures |categories| == 0 ==> r.id == 1
    ensures r.name == Get(body, "name") && r.serviceId == ParseInt(Get(body, "serviceId"))
    ensures Truthy(Get(body, "order")) ==> r.order == Get(body, "order")
    ensures !Truthy(Get(body, "order")) ==> r.order == Some(Num(Count(categories, OfService(r.serviceId)) + 1))
    ensures r.extras == map[]
  {
    var sid := ParseInt(Get(body, "serviceId"));
    var order := if Truthy(Get(body, "order")) then Get(body, "order")
                 else Some(Num(Count(categories, OfService(sid)) + 1));
    Category(NextId(categories, CategoryId), Get(body, "name"), sid, order, map[])
  }

  /** The default order of a new category counts only the categories of its own service: adding a
      category to another service leaves it unchanged. */
  lemma CategoryOrderPerService(categories: seq<Category>, other: Category, body: map<string, Value>)
    requires !Truthy(Get(body, "order"))
    requires other.serviceId != ParseInt(Get(body, "serviceId"))
    ensures NewCategory(categories + [other], body).order == NewCategory(categories, body).order
  {
    var keep := OfService(ParseInt(Get(body, "serviceId")));
    FilterAppend(categories, [other], keep);
    assert Filter([other], keep) == [] by {
      assert !keep(other);
      assert [other][1..] == [];
    }
  }

  /** The category `PUT /categories/:id` stores: the stored category overridden by the body, the id
      pinned to the path, and the stored service kept unless the body's `serviceId` is truthy. */
  function UpdatedCategory(c: Category, id: int, body: map<string, Value>): (r: Category)
    ensures r.id == id
    ensures r.serviceId == (if Truthy(Get(body, "serviceId")) then ParseInt(Get(body, "serviceId")) else c.serviceId)
    ensures "name" !in body ==> r.name == c.name
    ensures "order" !in body ==> r.order == c.order
    ensures forall k :: k in c.extras && k !in body ==> k in r.extras && r.extras[k] == c.extras[k]
    ensures forall k :: k in body && k !in CategoryKeys ==> k in r.extras && r.extras[k] == body[k]
    ensures forall k :: k in r.extras ==> k in c.extras || k in body
  {
    Category(
      id,
      if "name" in body then Some(body["name"]) else c.name,
      if Truthy(Get(body, "serviceId")) then ParseInt(Get(body, "serviceId")) else c.serviceId,
      if "order" in body then Some(body["order"]) else c.order,
      c.extras + (body - CategoryKeys))
  }

  /** The update `PUT /categories/:id` applies to the category it found; it never fails. */
  function CategoryUpdate(body: map<string, Value>): (f: Category -> Reply<Category>)
    ensures forall c :: f(c) == Ok(UpdatedCategory(c, c.id, body))
    ensures forall c :: f(c).Ok? ==> CategoryId(f(c).value) == CategoryId(c)
  {
    (c: Category) => Ok(UpdatedCategory(c, c.id, body))
  }

  /** `GET /categories/service/:serviceId`: exactly the categories of that service, in stored order. */
  function CategoriesOfService(categories: seq<Category>, param: Option<int>): (r: seq<Category>)
    ensures forall x :: x in r <==> x in categories && param.Some? && x.serviceId == param
    ensures SubseqOf(r, categories)
    ensures |r| == Count(categories, OfService(param))
  {
    FilterMembers(categories, OfService(param));
    FilterIsSubseq(categories, OfService(param));
    Filter(categories, OfService(param))
  }

  /** `s.slug === slug`. */
  function HasSlug(slug: string): Service -> bool {
    (s: Service) => s.slug == Some(Str(slug))
  }

  /** `services.find((s) => s.slug === slug)`: the first service with that slug. */
  function FindBySlug(services: seq<Service>, slug: string): (r: Option<Service>)
    ensures r.None? <==> forall i :: 0 <= i < |services| ==> services[i].slug != Some(Str(slug))
    ensures r.Some? ==> r.value.slug == Some(Str(slug))
    ensures r.Some? ==> r.value == services[FirstWhere(services, HasSlug(slug))]
  {
    var k := FirstWhere(services, HasSlug(slug));
    if k < 0 then None else Some(services[k])
  }
}
