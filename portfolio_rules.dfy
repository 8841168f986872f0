/** What the portfolio routes compute before they write `portfolio.json` back: where uploaded files
    go (cover or gallery), how a request body becomes a new item, how an update merges the body
    into the stored item, and the by-service filters of the public site. */
module PortfolioRules {
  import opened JsValues
  import opened Lists
  import opened Records

  /** The URL path under which the server stores an uploaded file. */
  function UploadPath(filename: string): string {
    "/uploads/" + filename
  }

  function UploadPaths(files: seq<string>): seq<string> {
    seq(|files|, i requires 0 <= i < |files| => UploadPath(files[i]))
  }

  /** The files a request leaves on disk, whatever the route then answers. */
  function UploadedSet(files: seq<string>): set<string> {
    if files == [] then {} else {UploadPath(files[0])} + UploadedSet(files[1..])
  }

  /** Strings as JSON values. */
  function Strs(paths: seq<string>): (r: seq<Value>)
    ensures |r| == |paths|
    ensures forall i :: 0 <= i < |paths| ==> r[i] == Str(paths[i])
  {
    seq(|paths|, i requires 0 <= i < |paths| => Str(paths[i]))
  }

  /** The uploaded files of one request, divided into a new cover and new gallery entries. */
  datatype Uploads = Uploads(cover: Option<string>, gallery: seq<string>)

  /** The cover, if any, followed by the gallery entries. */
  function InOrder(u: Uploads): seq<string> {
    (if u.cover.Some? then [u.cover.value] else []) + u.gallery
  }

  /** `coverImageUpload === 'true'`: the request says its first file is the cover. */
  predicate CoverFlag(body: map<string, Value>) {
    Get(body, "coverImageUpload") == Some(Str("true"))
  }

  /** With the cover flag the first file becomes the cover; every other file, in order, goes to the
      gallery. No file is lost or reordered. */
  function SplitUploads(coverFlag: bool, files: seq<string>): (u: Uploads)
    ensures InOrder(u) == UploadPaths(files)
    ensures u.cover.Some? <==> coverFlag && |files| > 0
  {
    var paths := UploadPaths(files);
    if coverFlag && |paths| > 0 then Uploads(Some(paths[0]), paths[1..]) else Uploads(None, paths)
  }

  /** `v === 'true' || v === true`. */
  predicate IsTrueFlag(v: Option<Value>) {
    v == Some(Str("true")) || v == Some(Bool(true))
  }

  /** `typeof v === 'string' ? JSON.parse(v) : v`, where `None` means that `JSON.parse` threw. */
  function ParseIfString(v: Option<Value>, parse: string -> Option<Value>): Option<Option<Value>> {
    if v.Some? && v.value.Str? then
      (if parse(v.value.s).Some? then Some(parse(v.value.s)) else None)
    else Some(v)
  }

  /** `v ? parseInt(v) : fallback`. */
  function OptionalId(v: Option<Value>, fallback: Option<int>): Option<int> {
    if Truthy(v) then ParseInt(v) else fallback
  }

  /** The id of a new item: `...req.body` comes after the computed id, so a numeric `id` in the body
      wins over one more than the largest stored id. */
  function CreatedId(items: seq<PortfolioItem>, body: map<string, Value>): int {
    if "id" in body && body["id"].Num? then body["id"].n else NextId(items, PortfolioId)
  }

  /** The typed keys of an item never appear among its extras. */
  predicate WellFormed(p: PortfolioItem) {
    forall k :: k in p.extras ==> k !in PortfolioKeys
  }

  /** The cover stored for an item created without one, which the pages read as "no image". */
  const Placeholder: string := "portfolio-placeholder"

  /** The item `POST /portfolio` appends; a 500 when `tags` or `tools` is a string `JSON.parse`
      rejects. */
  function NewPortfolioItem(items: seq<PortfolioItem>, body: map<string, Value>, files: seq<string>,
                            parse: string -> Option<Value>): (r: Reply<PortfolioItem>)
    ensures r.Fail? ==> r == Fail(500, "Failed to create portfolio item")
    ensures r.Ok? ==> WellFormed(r.value)
    ensures r.Ok? && "id" !in body ==> forall i :: 0 <= i < |items| ==> items[i].id < r.value.id
    ensures r.Ok? && "id" !in body && |items| == 0 ==> r.value.id == 1
    ensures r.Ok? && "id" in body && body["id"].Num? ==> r.value.id == body["id"].n
    ensures r.Ok? && !("id" in body && body["id"].Num?) ==> r.value.id == NextId(items, PortfolioId)
    ensures r.Ok? ==> r.value.image == r.value.coverImage
    ensures r.Ok? ==> (r.value.coverImage == Some(Str(Placeholder)) <==> !(CoverFlag(body) && |files| > 0))
    ensures r.Ok? ==> (r.value.featured <==> IsTrueFlag(Get(body, "featured")))
    ensures r.Ok? ==> r.value.galleryImages.Some? && |r.value.galleryImages.value| <= |files|
    ensures r.Ok? ==> forall k :: k in body && k !in PortfolioKeys ==> k in r.value.extras && r.value.extras[k] == body[k]
  {
    var tags := ParseIfString(Get(body, "tags"), parse);
    var tools := ParseIfString(Get(body, "tools"), parse);
    if tags.None? || tools.None? then Fail(500, "Failed to create portfolio item")
    else
      var u := SplitUploads(CoverFlag(body), files);
      assert |InOrder(u)| == |files|;
      var cover := Str(if u.cover.Some? then u.cover.value else Placeholder);
      assert u.cover.Some? ==> u.cover.value == InOrder(u)[0];
      assert u.cover.Some? ==> u.cover.value[0] == '/';
      Ok(PortfolioItem(
        CreatedId(items, body),
        OptionalId(Get(body, "serviceId"), None),
        OptionalId(Get(body, "categoryId"), None),
        Some(cover),
        Some(cover),
        Some(Strs(u.gallery)),
        tags.value,
        tools.value,
        IsTrueFlag(Get(body, "featured")),
        body - PortfolioKeys))
  }

  /** The body's id wins over the computed one, so a create that names a stored id stores a
      second item with that id. */
  lemma BodyIdDuplicates(items: seq<PortfolioItem>, body: map<string, Value>, files: seq<string>,
                         parse: string -> Option<Value>, k: int)
    requires 0 <= k < |items|
    requires "id" in body && body["id"] == Num(items[k].id)
    requires NewPortfolioItem(items, body, files, parse).Ok?
    ensures !UniqueIds(items + [NewPortfolioItem(items, body, files, parse).value], PortfolioId)
  {
    var s := items + [NewPortfolioItem(items, body, files, parse).value];
    assert s[k] == items[k] && PortfolioId(s[|items|]) == PortfolioId(s[k]);
  }

  /** Portfolio create, stated file by file: with the cover flag the first file is the cover and
      the others form the gallery in order; without it every file goes to the gallery and the cover
      is the placeholder. */
  lemma CreateImages(items: seq<PortfolioItem>, body: map<string, Value>, files: seq<string>,
                     parse: string -> Option<Value>)
    requires NewPortfolioItem(items, body, files, parse).Ok?
    ensures var p := NewPortfolioItem(items, body, files, parse).value;
      if CoverFlag(body) && |files| > 0 then
        p.coverImage == Some(Str(UploadPath(files[0]))) && p.galleryImages == Some(Strs(UploadPaths(files[1..])))
      else
        p.coverImage == Some(Str(Placeholder)) && p.galleryImages == Some(Strs(UploadPaths(files)))
  {
    var u := SplitUploads(CoverFlag(body), files);
    if CoverFlag(body) && |files| > 0 {
      assert InOrder(u) == [u.cover.value] + u.gallery;
      assert u.gallery == InOrder(u)[1..];
      assert UploadPaths(files)[1..] == UploadPaths(files[1..]);
    }
  }

  /** The stored gallery, or the empty list. */
  function StoredGallery(p: PortfolioItem): seq<Value> {
    if p.galleryImages.Some? then p.galleryImages.value else []
  }

  /** The cover an update keeps: a truthy `existingCoverImage`, else the stored `coverImage`, else the
      stored `image`. */
  function RetainedCover(p: PortfolioItem, body: map<string, Value>): Option<Value> {
    var e := Get(body, "existingCoverImage");
    if Truthy(e) then e else if Truthy(p.coverImage) then p.coverImage else p.image
  }

  /** The gallery an update keeps: a truthy `existingGalleryImages` replaces the stored gallery by
      the array it holds (parsed when it is a string), by `[]` when it holds no array, and leaves
      the stored gallery when `JSON.parse` throws. */
  function RetainedGallery(p: PortfolioItem, body: map<string, Value>, parse: string -> Option<Value>): seq<Value> {
    var e := Get(body, "existingGalleryImages");
    if !Truthy(e) then StoredGallery(p)
    else
      var parsed := if e.value.Str? then parse(e.value.s) else Some(e.value);
      match parsed
      case None => StoredGallery(p)
      case Some(Arr(xs)) => xs
      case Some(_) => []
  }

  /** The cover and gallery after an update: uploads come after the retained gallery, and with the
      cover flag the first upload replaces the cover. */
  function UpdatedImages(p: PortfolioItem, body: map<string, Value>, files: seq<string>,
                         parse: string -> Option<Value>): (r: (Option<Value>, seq<Value>))
    ensures var kept := RetainedGallery(p, body, parse);
      |kept| <= |r.1| && r.1[..|kept|] == kept
    ensures CoverFlag(body) && |files| > 0 ==> r.0 == Some(Str(UploadPath(files[0])))
    ensures !(CoverFlag(body) && |files| > 0) ==> r.0 == RetainedCover(p, body)
    ensures |files| == 0 ==> r == (RetainedCover(p, body), RetainedGallery(p, body, parse))
  {
    var u := SplitUploads(CoverFlag(body), files);
    var kept := RetainedGallery(p, body, parse);
    assert u.cover.Some? ==> InOrder(u)[0] == u.cover.value;
    assert |files| == 0 ==> |InOrder(u)| == 0 && kept + Strs(u.gallery) == kept;
    (if u.cover.Some? then Some(Str(u.cover.value)) else RetainedCover(p, body), kept + Strs(u.gallery))
  }

  /** `{ ...stored, ...req.body }` on the keys the item does not type: a body key wins. */
  function MergedExtras(extras: map<string, Value>, body: map<string, Value>): (r: map<string, Value>)
    ensures forall k :: k in r <==> k in extras || (k in body && k !in PortfolioKeys)
    ensures forall k :: k in body && k !in PortfolioKeys ==> r[k] == body[k]
    ensures forall k :: k in extras && k !in body ==> r[k] == extras[k]
    ensures (forall k :: k in extras ==> k !in PortfolioKeys) ==> forall k :: k in r ==> k !in PortfolioKeys
  {
    extras + (body - PortfolioKeys)
  }

  /** The item `PUT /portfolio/:id` stores: the stored item, overridden by the body, with the id
      pinned to the path, ids kept when the body leaves them falsy, the images resolved as above,
      and `tags`, `tools` and `featured` always recomputed from the body. */
  function UpdatedPortfolioItem(p: PortfolioItem, id: int, body: map<string, Value>, files: seq<string>,
                                parse: string -> Option<Value>): (r: Reply<PortfolioItem>)
    ensures r.Fail? ==> r == Fail(500, "Failed to update portfolio item")
    ensures r.Ok? ==> r.value.id == id && r.value.image == r.value.coverImage
    ensures r.Ok? && !Truthy(Get(body, "serviceId")) ==> r.value.serviceId == p.serviceId
    ensures r.Ok? && !Truthy(Get(body, "categoryId")) ==> r.value.categoryId == p.categoryId
    ensures r.Ok? && "tags" !in body ==> r.value.tags == None
    ensures r.Ok? && "tools" !in body ==> r.value.tools == None
    ensures r.Ok? && "featured" !in body ==> !r.value.featured
    ensures r.Ok? && |files| == 0 && !Truthy(Get(body, "existingCoverImage")) ==>
      r.value.coverImage == (if Truthy(p.coverImage) then p.coverImage else p.image)
    ensures r.Ok? && |files| == 0 && !Truthy(Get(body, "existingGalleryImages")) ==>
      r.value.galleryImages == Some(StoredGallery(p))
    ensures r.Ok? ==> forall k :: k in p.extras && k !in body ==> k in r.value.extras && r.value.extras[k] == p.extras[k]
    ensures r.Ok? ==> forall k :: k in body && k !in PortfolioKeys ==> k in r.value.extras && r.value.extras[k] == body[k]
    ensures r.Ok? ==> forall k :: k in r.value.extras ==> k in p.extras || k in body
    ensures r.Ok? && WellFormed(p) ==> WellFormed(r.value)
  {
    var tags := ParseIfString(Get(body, "tags"), parse);
    var tools := ParseIfString(Get(body, "tools"), parse);
    if tags.None? || tools.None? then Fail(500, "Failed to update portfolio item")
    else
      var images := UpdatedImages(p, body, files, parse);
      var extras := MergedExtras(p.extras, body);
      Ok(PortfolioItem(
        id,
        OptionalId(Get(body, "serviceId"), p.serviceId),
        OptionalId(Get(body, "categoryId"), p.categoryId),
        images.0,
        images.0,
        Some(images.1),
        tags.value,
        tools.value,
        IsTrueFlag(Get(body, "featured")),
        extras))
  }

  /** The update `PUT /portfolio/:id` applies to the item it found. The id it pins,
      `parseInt(req.params.id)`, is that item's own id. */
  function PortfolioUpdate(body: map<string, Value>, files: seq<string>, parse: string -> Option<Value>)
    : (f: PortfolioItem -> Reply<PortfolioItem>)
    ensures forall p :: f(p) == UpdatedPortfolioItem(p, p.id, body, files, parse)
    ensures forall p :: f(p).Ok? ==> PortfolioId(f(p).value) == PortfolioId(p)
  {
    (p: PortfolioItem) => UpdatedPortfolioItem(p, p.id, body, files, parse)
  }

  /** `p.serviceId === parseInt(param)`. */
  function InService(param: Option<int>): PortfolioItem -> bool {
    (p: PortfolioItem) => param.Some? && p.serviceId == param
  }

  /** `... && p.categoryId === parseInt(categoryParam)`. */
  function InServiceAndCategory(param: Option<int>, categoryParam: Option<int>): PortfolioItem -> bool {
    (p: PortfolioItem) => param.Some? && p.serviceId == param && categoryParam.Some? && p.categoryId == categoryParam
  }

  function InCategory(categoryParam: Option<int>): PortfolioItem -> bool {
    (p: PortfolioItem) => categoryParam.Some? && p.categoryId == categoryParam
  }

  /** `GET /portfolio/service/:serviceId`: exactly the items of that service, in stored order. */
  function ByService(items: seq<PortfolioItem>, param: Option<int>): (r: seq<PortfolioItem>)
    ensures forall x :: x in r <==> x in items && param.Some? && x.serviceId == param
    ensures SubseqOf(r, items)
  {
    FilterMembers(items, InService(param));
    FilterIsSubseq(items, InService(param));
    Filter(items, InService(param))
  }

  /** `GET /portfolio/service/:serviceId/category/:categoryId` is the by-service list narrowed to the
      category: both ids must match. */
  function ByServiceAndCategory(items: seq<PortfolioItem>, param: Option<int>, categoryParam: Option<int>): (r: seq<PortfolioItem>)
    ensures r == Filter(ByService(items, param), InCategory(categoryParam))
    ensures forall x :: x in r <==> x in items && param.Some? && x.serviceId == param && categoryParam.Some? && x.categoryId == categoryParam
  {
    var both := InServiceAndCategory(param, categoryParam);
    FilterBoth(items, InService(param), InCategory(categoryParam), both);
    FilterMembers(items, both);
    Filter(items, both)
  }
}
