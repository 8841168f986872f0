/** The services page of the admin panel: the service form as it is typed into, the form a service
    is edited in, the reset after saving, and the order in which services are listed. */
module ServicesForm {
  import opened Text
  import opened JsValues
  import opened Lists
  import opened Records
  import opened CatalogRules

  /** The form's state: `{ name, slug, order }`. */
  datatype ServiceForm = ServiceForm(name: Value, slug: Value, order: Value)

  /** The three inputs of the form, by their `name` attribute. */
  datatype Field = NameField | SlugField | OrderField

  /** `parseInt(value) || 1`, the order input: text that does not parse, or 0, gives 1. */
  function OrderInput(text: string): (order: int)
    ensures order != 0
    ensures ParseIntText(text).Some? && ParseIntText(text).value != 0 ==> order == ParseIntText(text).value
    ensures ParseIntText(text).None? || ParseIntText(text) == Some(0) ==> order == 1
  {
    var n := ParseIntText(text);
    if n.Some? && n.value != 0 then n.value else 1
  }

  /** An order typed as its decimal digits is read back as that order. */
  lemma OrderOfDigits(order: int)
    requires order != 0
    ensures OrderInput(IntToString(order)) == order
  {
    ParseIntOfIntToString(order);
  }

  /** `handleInputChange` as written: the typed input's key is set first, but the `slug` key that
      follows it in the same object literal wins, so `slug` becomes the derived slug when the name
      is typed and keeps its previous value otherwise, even when the slug input itself is typed. */
  function InputAsWritten(f: ServiceForm, field: Field, value: string): (r: ServiceForm)
    ensures field == NameField ==> r == ServiceForm(Str(value), Str(Slugify(value)), f.order)
    ensures field == OrderField ==> r == f.(order := Num(OrderInput(value)))
    ensures field == SlugField ==> r == f
  {
    var typed := match field
      case NameField => f.(name := Str(value))
      case SlugField => f.(slug := Str(value))
      case OrderField => f.(order := Num(OrderInput(value)));
    typed.(slug := if field == NameField then Str(Slugify(value)) else f.slug)
  }

  /** Whatever is typed in the slug input, the form's slug does not change: an empty slug stays
      empty while `web-design` is typed. */
  lemma SlugInputIgnored(f: ServiceForm)
    requires f.slug == Str("")
    ensures InputAsWritten(f, SlugField, "web-design").slug == Str("")
  {
  }

  /** `handleInputChange` as intended: the typed input's key takes the value, and typing the name
      also derives the slug from it. */
  function Input(f: ServiceForm, field: Field, value: string): (r: ServiceForm)
    ensures field == NameField ==> r == ServiceForm(Str(value), Str(Slugify(value)), f.order)
    ensures field == SlugField ==> r == f.(slug := Str(value))
    ensures field == OrderField ==> r == f.(order := Num(OrderInput(value)))
  {
    match field
    case NameField => f.(name := Str(value), slug := Str(Slugify(value)))
    case SlugField => f.(slug := Str(value))
    case OrderField => f.(order := Num(OrderInput(value)))
  }

  /** A slug typed after the name is the one kept, and a slug derived from a name is already in the
      form the server derives: lowercase, without white space, unchanged by deriving it again. */
  lemma SlugInputAfterName(f: ServiceForm, name: string, slug: string)
    ensures Input(Input(f, NameField, name), SlugField, slug) == ServiceForm(Str(name), Str(slug), f.order)
    ensures var s := Input(f, NameField, name).slug.s;
      NoSpace(s) && Lower(s) == s && Slugify(s) == s
  {
    SlugifyIdempotent(name);
  }

  /** The request body the form is sent as. */
  function FormBody(f: ServiceForm): map<string, Value> {
    map["name" := f.name, "slug" := f.slug, "order" := f.order]
  }

  /** Creating a service from a form whose name was typed last stores the slug the page showed,
      which is the slug the server would have derived itself. */
  lemma CreateKeepsShownSlug(services: seq<Service>, f: ServiceForm, name: string)
    ensures var g := Input(f, NameField, name);
      var r := NewService(services, FormBody(g));
      r.Ok? && r.value.name == Some(Str(name)) && r.value.slug == Some(Str(Slugify(name)))
  {
    var g := Input(f, NameField, name);
    var body := FormBody(g);
    assert Get(body, "name") == Some(Str(name));
    assert Get(body, "slug") == Some(Str(Slugify(name)));
  }

  /** `v || fallback`. */
  function Or(v: Option<Value>, fallback: Value): (r: Value)
    ensures Truthy(v) ==> r == v.value
    ensures !Truthy(v) ==> r == fallback
  {
    if Truthy(v) then v.value else fallback
  }

  /** `handleEdit(service)`: the form filled from the service, with `''` for a missing name or slug
      and 1 for a missing order. */
  function EditForm(s: Service): (r: ServiceForm)
    ensures Truthy(s.name) ==> r.name == s.name.value
    ensures Truthy(s.slug) ==> r.slug == s.slug.value
    ensures !Truthy(s.order) ==> r.order == Num(1)
  {
    ServiceForm(Or(s.name, Str("")), Or(s.slug, Str("")), Or(s.order, Num(1)))
  }

  /** Saving the edit form untouched stores the service as it was, provided its name, slug and
      order were all set. */
  lemma EditUntouchedKeepsService(s: Service)
    requires Truthy(s.name) && Truthy(s.slug) && Truthy(s.order)
    requires forall k :: k in s.extras ==> k !in ServiceKeys
    ensures UpdatedService(s, s.id, FormBody(EditForm(s))) == s
  {
    var body := FormBody(EditForm(s));
    var r := UpdatedService(s, s.id, body);
    assert Get(body, "slug") == s.slug;
    assert body - ServiceKeys == map[] by {
      assert body.Keys <= ServiceKeys;
    }
    assert r.extras == s.extras;
  }

  /** The form after saving or closing: empty name and slug, and order one past the number of
      services the page lists. */
  function ResetForm(listed: seq<Service>): (r: ServiceForm)
    ensures r.name == Str("") && r.slug == Str("")
    ensures r.order == Num(|listed| + 1) && Truthy(Some(r.order))
  {
    ServiceForm(Str(""), Str(""), Num(|listed| + 1))
  }

  /** The reset after a create counts the services listed before the new one was fetched, so its
      order is the order the server just gave the new service by default; the reset after an edit,
      which adds no service, proposes the server's default order for the next one. */
  lemma ResetAfterCreateRepeatsOrder(services: seq<Service>, body: map<string, Value>)
    requires !Truthy(Get(body, "order"))
    requires NewService(services, body).Ok?
    ensures ResetForm(services).order == NewService(services, body).value.order.value
  {
  }

  /** The number `a.order - b.order` makes of an order: a numeric text counts as its number, and an
      order that arithmetic turns into `NaN` is taken as 0. */
  function OrderNumber(order: Option<Value>): int {
    var n := NumberValue(order);
    if n.Some? then n.value else 0
  }

  /** An order typed into the form and stored as text sorts exactly where the same order stored as
      a number does; an absent or blank order sorts as 0. */
  lemma OrderOfText(k: int)
    ensures OrderNumber(Some(Str(IntToString(k)))) == k
    ensures OrderNumber(Some(Num(k))) == k
    ensures OrderNumber(None) == 0 && OrderNumber(Some(Str(""))) == 0
  {
    NumberTextOfIntToString(k);
    TrimAllSpace("");
  }

  function ServiceOrder(s: Service): int {
    OrderNumber(s.order)
  }

  /** The list the page shows: the fetched services sorted by ascending order. */
  function ServicesByOrder(services: seq<Service>): seq<Service> {
    SortBy(services, ServiceOrder)
  }

  /** The listing holds exactly the fetched services, in ascending order; the sort is stable, so
      services of equal order keep their stored order. */
  lemma ServicesByOrderSpec(services: seq<Service>)
    ensures |ServicesByOrder(services)| == |services|
    ensures multiset(ServicesByOrder(services)) == multiset(services)
    ensures forall i, j :: 0 <= i < j < |services| ==>
      ServiceOrder(ServicesByOrder(services)[i]) <= ServiceOrder(ServicesByOrder(services)[j])
    ensures forall k :: WithKey(ServicesByOrder(services), ServiceOrder, k) == WithKey(services, ServiceOrder, k)
  {
    SortByIsSorted(services, ServiceOrder);
    SortByPermutes(services, ServiceOrder);
    forall k ensures WithKey(ServicesByOrder(services), ServiceOrder, k) == WithKey(services, ServiceOrder, k) {
      SortByStable(services, ServiceOrder, k);
    }
  }
}
