/** The records the JSON documents hold, the replies the routes send, and the id rules shared by
    every collection: `Math.max(...ids) + 1` for a new id, `findIndex` by `id === parseInt(param)`
    for updates, and `filter` by `id !== parseInt(param)` for deletes. */
module Records {
  import opened JsValues
  import opened Lists

  /** A route's answer: the JSON it sends on success, or an HTTP status with its `error` text. */
  datatype Reply<T> = Ok(value: T) | Fail(status: nat, error: string)

  /** A portfolio item. Keys the routes compute are typed fields; every other key a request body
      carried into the item through `...req.body` is kept in `extras`. `None` stands for a key that
      is absent, `null` or `NaN` (all three are written to the file the same way or not at all). */
  datatype PortfolioItem = PortfolioItem(
    id: int,
    serviceId: Option<int>,
    categoryId: Option<int>,
    coverImage: Option<Value>,
    image: Option<Value>,
    galleryImages: Option<seq<Value>>,
    tags: Option<Value>,
    tools: Option<Value>,
    featured: bool,
    extras: map<string, Value>)

  /** A service of the catalogue (`services.json`). */
  datatype Service = Service(
    id: int,
    name: Option<Value>,
    slug: Option<Value>,
    order: Option<Value>,
    extras: map<string, Value>)

  /** A category of a service (`categories.json`). */
  datatype Category = Category(
    id: int,
    name: Option<Value>,
    serviceId: Option<int>,
    order: Option<Value>,
    extras: map<string, Value>)

  /** A message sent through the contact form (`contacts.json`); `date` is a timestamp. */
  datatype Contact = Contact(
    id: int,
    name: Value,
    email: Value,
    phone: Value,
    subject: Value,
    message: Value,
    date: int,
    read: Value)

  /** The keys each record type computes itself; they never appear among its extras. */
  const PortfolioKeys: set<string> :=
    {"id", "serviceId", "categoryId", "coverImage", "image", "galleryImages", "tags", "tools", "featured"}
  const ServiceKeys: set<string> := {"id", "name", "slug", "order"}
  const CategoryKeys: set<string> := {"id", "name", "serviceId", "order"}

  function PortfolioId(p: PortfolioItem): int { p.id }
  function ServiceId(s: Service): int { s.id }
  function CategoryId(c: Category): int { c.id }
  function ContactId(c: Contact): int { c.id }

  /** The collection a document holds; an absent file reads as the empty list. */
  function OrEmpty<T>(doc: Option<seq<T>>): seq<T> {
    if doc.Some? then doc.value else []
  }

  /** `Math.max(...s.map(idOf))` of a non-empty list. */
  function MaxId<T>(s: seq<T>, idOf: T -> int): (m: int)
    requires |s| > 0
    ensures forall i :: 0 <= i < |s| ==> idOf(s[i]) <= m
    ensures exists i :: 0 <= i < |s| && idOf(s[i]) == m
  {
    if |s| == 1 then idOf(s[0])
    else
      var m := MaxId(s[1..], idOf);
      var k :| 0 <= k < |s| - 1 && idOf(s[1..][k]) == m;
      assert idOf(s[k + 1]) == m;
      if idOf(s[0]) >= m then idOf(s[0]) else m
  }

  /** The id a created record receives: one more than the largest id present, or 1. */
  function NextId<T>(s: seq<T>, idOf: T -> int): (r: int)
    ensures forall i :: 0 <= i < |s| ==> idOf(s[i]) < r
    ensures |s| == 0 ==> r == 1
    ensures |s| > 0 ==> exists i :: 0 <= i < |s| && idOf(s[i]) == r - 1
  {
    if |s| == 0 then 1 else MaxId(s, idOf) + 1
  }

  predicate UniqueIds<T>(s: seq<T>, idOf: T -> int) {
    forall i, j :: 0 <= i < j < |s| ==> idOf(s[i]) != idOf(s[j])
  }

  /** Appending a record whose id is the next id keeps ids unique. */
  lemma NextIdKeepsUnique<T>(s: seq<T>, idOf: T -> int, x: T)
    requires UniqueIds(s, idOf)
    requires idOf(x) == NextId(s, idOf)
    ensures UniqueIds(s + [x], idOf)
  {
    var t := s + [x];
    forall i, j | 0 <= i < j < |t| ensures idOf(t[i]) != idOf(t[j]) {
      if j == |s| {
        assert t[i] == s[i];
      } else {
        assert t[i] == s[i] && t[j] == s[j];
      }
    }
  }

  /** `id === parseInt(param)`: a parameter that is not a number matches no record. */
  predicate HasId(id: int, param: Option<int>) {
    param == Some(id)
  }

  /** `findIndex((x) => x.id === parseInt(param))`: the first match, or -1. */
  function FindIndex<T>(s: seq<T>, idOf: T -> int, param: Option<int>): (r: int)
    ensures -1 <= r < |s|
    ensures r >= 0 ==> HasId(idOf(s[r]), param) && forall j :: 0 <= j < r ==> !HasId(idOf(s[j]), param)
    ensures r == -1 ==> forall j :: 0 <= j < |s| ==> !HasId(idOf(s[j]), param)
  {
    if |s| == 0 then -1
    else if HasId(idOf(s[0]), param) then 0
    else
      var k := FindIndex(s[1..], idOf, param);
      assert forall j :: 1 <= j < |s| ==> s[j] == s[1..][j - 1];
      if k == -1 then -1 else k + 1
  }

  /** The test `filter` applies on delete: keep what does not carry the id. */
  function OtherId<T>(idOf: T -> int, param: Option<int>): T -> bool {
    x => !HasId(idOf(x), param)
  }

  /** `s.filter((x) => x.id !== parseInt(param))`. */
  function RemoveId<T(==)>(s: seq<T>, idOf: T -> int, param: Option<int>): seq<T> {
    Filter(s, OtherId(idOf, param))
  }

  /** Delete removes exactly the records carrying the id, keeps the others in their order, and is
      the identity when no record carries it. */
  lemma RemoveIdSpec<T>(s: seq<T>, idOf: T -> int, param: Option<int>)
    ensures forall x :: x in RemoveId(s, idOf, param) <==> x in s && !HasId(idOf(x), param)
    ensures SubseqOf(RemoveId(s, idOf, param), s)
    ensures (forall j :: 0 <= j < |s| ==> !HasId(idOf(s[j]), param)) ==> RemoveId(s, idOf, param) == s
    ensures forall x :: multiset(RemoveId(s, idOf, param))[x] == if HasId(idOf(x), param) then 0 else multiset(s)[x]
  {
    FilterCounts(s, OtherId(idOf, param));
    FilterMembers(s, OtherId(idOf, param));
    FilterIsSubseq(s, OtherId(idOf, param));
    if forall j :: 0 <= j < |s| ==> !HasId(idOf(s[j]), param) {
      FilterAll(s, OtherId(idOf, param));
    }
  }

  /** Keeping some of the records keeps ids unique. */
  lemma {:induction false} FilterKeepsUnique<T>(s: seq<T>, keep: T -> bool, idOf: T -> int)
    requires UniqueIds(s, idOf)
    ensures UniqueIds(Filter(s, keep), idOf)
  {
    if s != [] {
      var t := s[1..];
      assert UniqueIds(t, idOf) by {
        forall i, j | 0 <= i < j < |t| ensures idOf(t[i]) != idOf(t[j]) {
          assert t[i] == s[i + 1] && t[j] == s[j + 1];
        }
      }
      FilterKeepsUnique(t, keep, idOf);
      var ft := Filter(t, keep);
      if keep(s[0]) {
        var r := [s[0]] + ft;
        assert Filter(s, keep) == r;
        forall i, j | 0 <= i < j < |r| ensures idOf(r[i]) != idOf(r[j]) {
          if i == 0 {
            var k := FilterSource(t, keep, j - 1);
            assert r[j] == t[k] == s[k + 1];
          } else {
            assert r[i] == ft[i - 1] && r[j] == ft[j - 1];
          }
        }
      }
    }
  }

  /** Delete keeps ids unique. */
  lemma RemoveIdKeepsUnique<T>(s: seq<T>, idOf: T -> int, param: Option<int>)
    requires UniqueIds(s, idOf)
    ensures UniqueIds(RemoveId(s, idOf, param), idOf)
  {
    FilterKeepsUnique(s, OtherId(idOf, param), idOf);
  }

  /** Replacing a record by one with the same id keeps ids unique. */
  lemma ReplaceKeepsUnique<T>(s: seq<T>, idOf: T -> int, i: nat, x: T)
    requires i < |s| && UniqueIds(s, idOf) && idOf(x) == idOf(s[i])
    ensures UniqueIds(s[i := x], idOf)
  {
    var t := s[i := x];
    assert forall j :: 0 <= j < |t| ==> idOf(t[j]) == idOf(s[j]);
  }

  /** After a delete, looking the id up finds nothing. */
  lemma RemoveIdThenFind<T>(s: seq<T>, idOf: T -> int, param: Option<int>)
    ensures FindIndex(RemoveId(s, idOf, param), idOf, param) == -1
  {
    var r := RemoveId(s, idOf, param);
    forall j | 0 <= j < |r| ensures !HasId(idOf(r[j]), param) {
      var k := FilterSource(s, OtherId(idOf, param), j);
    }
  }

  /** After an update that keeps the id, looking the id up finds the updated record where the old one
      stood. */
  lemma ReplaceThenFind<T>(s: seq<T>, idOf: T -> int, param: Option<int>, x: T)
    requires FindIndex(s, idOf, param) >= 0
    requires idOf(x) == idOf(s[FindIndex(s, idOf, param)])
    ensures var i := FindIndex(s, idOf, param); FindIndex(s[i := x], idOf, param) == i
  {
    var i := FindIndex(s, idOf, param);
    var t := s[i := x];
    assert forall j :: 0 <= j < i ==> t[j] == s[j];
    assert HasId(idOf(t[i]), param);
  }

  /** A record appended with the next id is found by that id, at the end, when ids were unique. */
  lemma AppendNextThenFind<T>(s: seq<T>, idOf: T -> int, x: T)
    requires idOf(x) == NextId(s, idOf)
    ensures FindIndex(s + [x], idOf, Some(idOf(x))) == |s|
  {
    var t := s + [x];
    assert forall j :: 0 <= j < |s| ==> t[j] == s[j];
    assert HasId(idOf(t[|s|]), Some(idOf(x)));
  }

  /** `PUT .../:id` on a stored list: 404 with `noDoc` while the file is absent, 404 with `noItem`
      when no record carries the id; otherwise the first record carrying it is replaced by its
      update, or the list is left as it was when the update fails. Updates pin the id (the routes
      write `id: parseInt(param)`, which is the found record's own id), so every position keeps its
      id and unique ids stay unique. */
  function UpdateById<T(!new)>(doc: Option<seq<T>>, idOf: T -> int, param: Option<int>, update: T -> Reply<T>,
                         noDoc: string, noItem: string): (r: (Reply<T>, Option<seq<T>>))
    requires forall x :: update(x).Ok? ==> idOf(update(x).value) == idOf(x)
    ensures doc.None? ==> r == (Fail(404, noDoc), doc)
    ensures doc.Some? && FindIndex(doc.value, idOf, param) < 0 ==> r == (Fail(404, noItem), doc)
    ensures doc.Some? && FindIndex(doc.value, idOf, param) >= 0 ==> r.0 == update(doc.value[FindIndex(doc.value, idOf, param)])
    ensures r.0.Fail? ==> r.1 == doc
    ensures r.0.Ok? ==>
      doc.Some? && FindIndex(doc.value, idOf, param) >= 0 && r.1 == Some(doc.value[FindIndex(doc.value, idOf, param) := r.0.value])
    ensures r.0.Ok? ==> FindIndex(r.1.value, idOf, param) == FindIndex(doc.value, idOf, param)
    ensures |OrEmpty(r.1)| == |OrEmpty(doc)|
    ensures forall j :: 0 <= j < |OrEmpty(doc)| ==> idOf(OrEmpty(r.1)[j]) == idOf(OrEmpty(doc)[j])
    ensures UniqueIds(OrEmpty(doc), idOf) ==> UniqueIds(OrEmpty(r.1), idOf)
  {
    if doc.None? then (Fail(404, noDoc), doc)
    else
      var s := doc.value;
      var i := FindIndex(s, idOf, param);
      if i < 0 then (Fail(404, noItem), doc)
      else
        var u := update(s[i]);
        if u.Fail? then (u, doc)
        else
          ReplaceThenFind(s, idOf, param, u.value);
          assert UniqueIds(s, idOf) ==> UniqueIds(s[i := u.value], idOf) by {
            if UniqueIds(s, idOf) { ReplaceKeepsUnique(s, idOf, i, u.value); }
          }
          (u, Some(s[i := u.value]))
  }

  /** `DELETE .../:id` on a stored list: 404 with `noDoc` while the file is absent; otherwise every
      record carrying the id is dropped and the route answers `done`, also when there was none. */
  function DeleteById<T(==)>(doc: Option<seq<T>>, idOf: T -> int, param: Option<int>, noDoc: string, done: string)
    : (r: (Reply<string>, Option<seq<T>>))
    ensures doc.None? ==> r == (Fail(404, noDoc), doc)
    ensures doc.Some? ==> r.0 == Ok(done) && r.1.Some? && SubseqOf(r.1.value, doc.value)
    ensures doc.Some? ==> forall j :: 0 <= j < |r.1.value| ==> !HasId(idOf(r.1.value[j]), param)
    ensures doc.Some? ==> forall x :: x in doc.value && !HasId(idOf(x), param) ==> x in r.1.value
    ensures doc.Some? ==> forall x :: x in doc.value ==> multiset(r.1.value)[x] == if HasId(idOf(x), param) then 0 else multiset(doc.value)[x]
    ensures r.0.Ok? ==> FindIndex(r.1.value, idOf, param) == -1
    ensures UniqueIds(OrEmpty(doc), idOf) ==> UniqueIds(OrEmpty(r.1), idOf)
  {
    if doc.None? then (Fail(404, noDoc), doc)
    else
      var s := doc.value;
      RemoveIdSpec(s, idOf, param);
      RemoveIdThenFind(s, idOf, param);
      assert UniqueIds(s, idOf) ==> UniqueIds(RemoveId(s, idOf, param), idOf) by {
        if UniqueIds(s, idOf) { RemoveIdKeepsUnique(s, idOf, param); }
      }
      (Ok(done), Some(RemoveId(s, idOf, param)))
  }

  /** Ids are not monotonic: deleting the record just created lets the next create give its id
      again, since the new id is one past the largest id still stored. */
  lemma NextIdReusesDeletedMaximum<T>(s: seq<T>, idOf: T -> int, x: T)
    requires idOf(x) == NextId(s, idOf)
    ensures NextId(RemoveId(s + [x], idOf, Some(idOf(x))), idOf) == idOf(x)
  {
    var keep := OtherId(idOf, Some(idOf(x)));
    FilterAppend(s, [x], keep);
    assert Filter([x], keep) == [] by {
      assert [x][1..] == [];
    }
    RemoveIdSpec(s, idOf, Some(idOf(x)));
    assert RemoveId(s + [x], idOf, Some(idOf(x))) == s;
  }

}
