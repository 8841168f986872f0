/** The portfolio admin page: the comma lists the tag and tool inputs hold, the category select
    that follows the chosen service, the form `handleEdit` loads from a stored item, the gallery
    file list, and the multipart request `handleSubmit` builds for the portfolio routes. */
module PortfolioForm {
  import opened Text
  import opened JsValues
  import opened Lists
  import opened Records
  import opened CatalogRules
  import opened PortfolioRules

  /** Each piece trimmed, the pieces that trim to nothing dropped: `.map((t) => t.trim()).filter(Boolean)`. */
  function CleanPieces(parts: seq<string>): (r: seq<string>)
    ensures |r| <= |parts|
    ensures forall i :: 0 <= i < |r| ==> r[i] != "" && Trimmed(r[i])
  {
    if parts == [] then []
    else
      var t := Trim(parts[0]);
      (if t == "" then [] else [t]) + CleanPieces(parts[1..])
  }

  lemma {:induction false} CleanPiecesAvoid(parts: seq<string>, c: char)
    requires forall j :: 0 <= j < |parts| ==> c !in parts[j]
    ensures forall i :: 0 <= i < |CleanPieces(parts)| ==> c !in CleanPieces(parts)[i]
  {
    if parts != [] {
      var t := Trim(parts[0]);
      TrimAvoids(parts[0], c);
      CleanPiecesAvoid(parts[1..], c);
      var head := if t == "" then [] else [t];
      var rest := CleanPieces(parts[1..]);
      var r := CleanPieces(parts);
      assert r == head + rest;
      forall i | 0 <= i < |r| ensures c !in r[i] {
        if i < |head| {
          assert r[i] == t;
        } else {
          assert r[i] == rest[i - |head|];
        }
      }
    }
  }

  /** `text.split(',').map((t) => t.trim()).filter(Boolean)`: the list the tag and tool inputs send.
      Its entries are non-empty, trimmed and free of commas. */
  function ListOfText(text: string): (r: seq<string>)
    ensures forall i :: 0 <= i < |r| ==> r[i] != "" && Trimmed(r[i]) && ',' !in r[i]
  {
    CleanPiecesAvoid(Split(text, ','), ',');
    CleanPieces(Split(text, ','))
  }

  /** An entry the tag and tool inputs can round-trip. */
  predicate CleanEntry(x: string) {
    x != "" && Trimmed(x) && ',' !in x
  }

  lemma CleanPiecesCons(p: string, ps: seq<string>)
    ensures CleanPieces([p] + ps) == (if Trim(p) == "" then [] else [Trim(p)]) + CleanPieces(ps)
  {
    assert ([p] + ps)[1..] == ps;
  }

  /** A clean entry behind white space is read back as itself. */
  lemma CleanAfterSpaces(pre: string, x: string)
    requires AllSpace(pre) && CleanEntry(x)
    ensures ',' !in pre + x && Trim(pre + x) == x
  {
    assert !IsSpace(',');
    assert ',' !in pre;
    TrimAfterSpaces(pre, x);
    TrimOfTrimmed(x);
  }

  /** The text of a list of at least two entries: the first, a comma, and the rest behind a space. */
  lemma JoinTwoOrMore(pre: string, xs: seq<string>)
    requires |xs| >= 2
    ensures pre + Join(xs, ", ") == (pre + xs[0]) + [','] + (" " + Join(xs[1..], ", "))
  {
    assert Join(xs, ", ") == xs[0] + ", " + Join(xs[1..], ", ");
  }

  /** White space alone reads back as no entry. */
  lemma ListOfSpaces(pre: string)
    requires AllSpace(pre)
    ensures CleanPieces(Split(pre, ',')) == []
  {
    assert !IsSpace(',') && ',' !in pre;
    assert Split(pre, ',') == [pre];
    TrimAllSpace(pre);
    CleanPiecesCons(pre, []);
  }

  /** One clean entry behind white space reads back as itself. */
  lemma ListOfOne(pre: string, x: string)
    requires AllSpace(pre) && CleanEntry(x)
    ensures CleanPieces(Split(pre + x, ',')) == [x]
  {
    CleanAfterSpaces(pre, x);
    assert Split(pre + x, ',') == [pre + x];
    CleanPiecesCons(pre + x, []);
  }

  lemma {:induction false} ListOfJoin(pre: string, xs: seq<string>)
    requires AllSpace(pre)
    requires forall i :: 0 <= i < |xs| ==> CleanEntry(xs[i])
    ensures CleanPieces(Split(pre + Join(xs, ", "), ',')) == xs
    decreases |xs|
  {
    if xs == [] {
      assert pre + Join(xs, ", ") == pre;
      ListOfSpaces(pre);
    } else if |xs| == 1 {
      assert pre + Join(xs, ", ") == pre + xs[0];
      ListOfOne(pre, xs[0]);
    } else {
      var x := xs[0];
      var rest := Join(xs[1..], ", ");
      CleanAfterSpaces(pre, x);
      assert AllSpace(" ");
      calc {
        CleanPieces(Split(pre + Join(xs, ", "), ','));
        { JoinTwoOrMore(pre, xs); }
        CleanPieces(Split((pre + x) + [','] + (" " + rest), ','));
        { SplitAfterPiece(pre + x, ',', " " + rest); }
        CleanPieces([pre + x] + Split(" " + rest, ','));
        { CleanPiecesCons(pre + x, Split(" " + rest, ',')); }
        [x] + CleanPieces(Split(" " + rest, ','));
        { ListOfJoin(" ", xs[1..]); }
        [x] + xs[1..];
      }
      assert xs == [x] + xs[1..];
    }
  }

  /** Joining a list with `', '` on edit and splitting it again on submit gives the list back, as
      long as every entry is non-empty, trimmed and free of commas. */
  lemma JoinThenList(xs: seq<string>)
    requires forall i :: 0 <= i < |xs| ==> CleanEntry(xs[i])
    ensures ListOfText(Join(xs, ", ")) == xs
  {
    ListOfJoin("", xs);
    assert "" + Join(xs, ", ") == Join(xs, ", ");
  }

  /** Splitting is idempotent: a list read back from its own joined text is the same list. */
  lemma ListOfTextStable(text: string)
    ensures ListOfText(Join(ListOfText(text), ", ")) == ListOfText(text)
  {
    JoinThenList(ListOfText(text));
  }

  /** The options of the category select: the categories of the selected service, none while no
      service is selected. */
  function CategoryOptions(categories: seq<Category>, serviceId: string): (r: seq<Category>)
    ensures serviceId == "" ==> r == []
    ensures serviceId != "" ==> forall x :: x in r <==> x in categories && ParseIntText(serviceId).Some? && x.serviceId == ParseIntText(serviceId)
    ensures SubseqOf(r, categories)
  {
    if serviceId == "" then [] else CategoriesOfService(categories, ParseIntText(serviceId))
  }

  /** The category the form keeps after the service or the category list changed: it is reset to
      `''` when the category of that id is missing or belongs to another service. */
  function CategoryAfterChange(categories: seq<Category>, serviceId: string, categoryId: string): (r: string)
    ensures r == "" || r == categoryId
    ensures serviceId == "" ==> r == categoryId
    ensures serviceId != "" && categoryId != "" ==>
      (r == categoryId <==>
        var k := FindIndex(categories, CategoryId, ParseIntText(categoryId));
        k >= 0 && OfService(ParseIntText(serviceId))(categories[k]))
  {
    if serviceId == "" || categoryId == "" then categoryId
    else
      var k := FindIndex(categories, CategoryId, ParseIntText(categoryId));
      if k < 0 || !OfService(ParseIntText(serviceId))(categories[k]) then "" else categoryId
  }

  /** A category the form keeps while a service is selected is one of the options offered. */
  lemma KeptCategoryIsOffered(categories: seq<Category>, serviceId: string, categoryId: string)
    requires serviceId != "" && CategoryAfterChange(categories, serviceId, categoryId) != ""
    ensures exists c :: c in CategoryOptions(categories, serviceId) && HasId(c.id, ParseIntText(categoryId))
  {
    var k := FindIndex(categories, CategoryId, ParseIntText(categoryId));
    assert categories[k] in CategoryOptions(categories, serviceId);
  }

  /** The text fields of the form. */
  datatype Form = Form(
    title: string,
    serviceId: string,
    categoryId: string,
    description: string,
    fullDescription: string,
    tags: string,
    tools: string,
    featured: bool,
    client: string,
    year: string)

  /** `v || ''` for a field the form shows as text. */
  function TextOr(v: Option<Value>): string {
    if Truthy(v) then ToText(v.value) else ""
  }

  /** `id ? id.toString() : ''`. */
  function IdText(id: Option<int>): (r: string)
    ensures r == "" <==> id.None? || id.value == 0
    ensures r != "" ==> ParseIntText(r) == id
  {
    if id.Some? && id.value != 0 then
      ParseIntOfIntToString(id.value);
      assert ParseIntText("") == None;
      IntToString(id.value)
    else ""
  }

  /** `Array.isArray(v) ? v.join(', ') : v || ''`. */
  function ListText(v: Option<Value>): string {
    if v.Some? && v.value.Arr? then Join(ElementTexts(v.value, 0), ", ") else TextOr(v)
  }

  /** The form `handleEdit` fills from a stored item; `currentYear` is used when it has no year. */
  function EditForm(p: PortfolioItem, currentYear: string): (f: Form)
    ensures f.serviceId != "" <==> p.serviceId.Some? && p.serviceId.value != 0
    ensures f.serviceId != "" ==> ParseIntText(f.serviceId) == p.serviceId
    ensures f.categoryId != "" ==> ParseIntText(f.categoryId) == p.categoryId
    ensures f.featured == p.featured
    ensures !Truthy(Get(p.extras, "year")) ==> f.year == currentYear
  {
    Form(
      TextOr(Get(p.extras, "title")),
      IdText(p.serviceId),
      IdText(p.categoryId),
      TextOr(Get(p.extras, "description")),
      TextOr(Get(p.extras, "fullDescription")),
      ListText(p.tags),
      ListText(p.tools),
      p.featured,
      TextOr(Get(p.extras, "client")),
      if Truthy(Get(p.extras, "year")) then ToText(p.extras["year"]) else currentYear)
  }

  /** The cover `handleEdit` loads: `coverImage`, else `image`, else none. */
  function EditCover(p: PortfolioItem): (r: Option<Value>)
    ensures r.Some? ==> Truthy(r)
    ensures Truthy(p.coverImage) ==> r == p.coverImage
    ensures !Truthy(p.coverImage) ==> r == (if Truthy(p.image) then p.image else None)
  {
    if Truthy(p.coverImage) then p.coverImage else if Truthy(p.image) then p.image else None
  }

  /** The gallery `handleEdit` loads: the stored gallery, `[]` when there is none. */
  function EditGallery(p: PortfolioItem): (r: seq<Value>)
    ensures p.galleryImages.Some? ==> r == p.galleryImages.value
    ensures p.galleryImages.None? ==> r == []
  {
    StoredGallery(p)
  }

  lemma {:induction false} ElementTextsOfStrs(xs: seq<string>, i: nat)
    requires i <= |xs|
    ensures ElementTexts(Arr(Strs(xs)), i) == xs[i..]
    decreases |xs| - i
  {
    if i < |xs| {
      ElementTextsOfStrs(xs, i + 1);
      assert xs[i..] == [xs[i]] + xs[i + 1..];
    }
  }

  /** A stored list of clean strings survives being loaded into the edit form and split again. */
  lemma EditThenListTags(p: PortfolioItem, currentYear: string, xs: seq<string>)
    requires p.tags == Some(Arr(Strs(xs)))
    requires forall i :: 0 <= i < |xs| ==> CleanEntry(xs[i])
    ensures ListOfText(EditForm(p, currentYear).tags) == xs
  {
    ElementTextsOfStrs(xs, 0);
    JoinThenList(xs);
  }

  /** The category of a stored item survives `handleEdit` and the category reset that follows, as
      long as the first category with that id belongs to the item's service. */
  lemma EditKeepsCategory(p: PortfolioItem, currentYear: string, categories: seq<Category>)
    requires p.serviceId.Some? && p.serviceId.value != 0
    requires p.categoryId.Some? && p.categoryId.value != 0
    requires FindIndex(categories, CategoryId, p.categoryId) >= 0
    requires categories[FindIndex(categories, CategoryId, p.categoryId)].serviceId == p.serviceId
    ensures var f := EditForm(p, currentYear);
      CategoryAfterChange(categories, f.serviceId, f.categoryId) == f.categoryId != ""
  {
  }

  /** `setGalleryImages((prev) => [...prev, ...files])`. */
  function AddFiles(prev: seq<string>, files: seq<string>): (r: seq<string>)
    ensures |r| == |prev| + |files|
    ensures r[..|prev|] == prev && r[|prev|..] == files
  {
    prev + files
  }

  /** Removing the file just added gives back the list from before. */
  lemma RemoveAddedFile(prev: seq<string>, file: string)
    ensures RemoveAt(AddFiles(prev, [file]), |prev|) == prev
  {
    assert AddFiles(prev, [file])[..|prev|] == prev;
  }

  /** What the multipart request carries: one text entry per field (`None` for an entry that is not
      appended) and the `images` files in the order they were appended. */
  datatype Multipart = Multipart(
    title: string,
    serviceId: string,
    categoryId: string,
    description: string,
    fullDescription: string,
    tags: string,
    tools: string,
    featured: string,
    client: string,
    year: string,
    existingCoverImage: Option<string>,
    existingGalleryImages: Option<string>,
    coverImageUpload: Option<string>,
    images: seq<string>)

  /** The request `handleSubmit` builds. `editing` is whether an item is being edited, `cover` and
      `gallery` are the newly chosen files, `existingCover` and `existingGallery` the images kept
      from the stored item, and `encode` is `JSON.stringify`. */
  function Submission(f: Form, editing: bool, existingCover: Option<Value>, existingGallery: seq<Value>,
                      cover: Option<string>, gallery: seq<string>, encode: Value -> string): Multipart
  {
    Multipart(
      f.title, f.serviceId, f.categoryId, f.description, f.fullDescription,
      encode(Arr(Strs(ListOfText(f.tags)))), encode(Arr(Strs(ListOfText(f.tools)))),
      if f.featured then "true" else "false",
      f.client, f.year,
      if editing && Truthy(existingCover) then Some(ToText(existingCover.value)) else None,
      if editing then Some(encode(Arr(existingGallery))) else None,
      if cover.Some? then Some("true") else None,
      (if cover.Some? then [cover.value] else []) + gallery)
  }

  /** `handleSubmit`, appending the fields, the new cover and then each gallery file in turn. */
  method BuildRequest(f: Form, editing: bool, existingCover: Option<Value>, existingGallery: seq<Value>,
                      cover: Option<string>, gallery: seq<string>, encode: Value -> string) returns (m: Multipart)
    ensures m == Submission(f, editing, existingCover, existingGallery, cover, gallery, encode)
  {
    var keptCover: Option<string> := None;
    var keptGallery: Option<string> := None;
    var coverFlag: Option<string> := None;
    var files: seq<string> := [];
    if editing {
      if Truthy(existingCover) {
        keptCover := Some(ToText(existingCover.value));
      }
      keptGallery := Some(encode(Arr(existingGallery)));
    }
    if cover.Some? {
      files := files + [cover.value];
      coverFlag := Some("true");
    }
    var i := 0;
    while i < |gallery|
      invariant 0 <= i <= |gallery|
      invariant files == (if cover.Some? then [cover.value] else []) + gallery[..i]
    {
      files := files + [gallery[i]];
      i := i + 1;
      assert gallery[..i] == gallery[..i - 1] + [gallery[i - 1]];
    }
    assert gallery[..i] == gallery;
    m := Multipart(
      f.title, f.serviceId, f.categoryId, f.description, f.fullDescription,
      encode(Arr(Strs(ListOfText(f.tags)))), encode(Arr(Strs(ListOfText(f.tools)))),
      if f.featured then "true" else "false",
      f.client, f.year, keptCover, keptGallery, coverFlag, files);
  }

  function TextEntry(v: Option<string>): Option<Value> {
    if v.Some? then Some(Str(v.value)) else None
  }

  /** The server reads `body` from the request `m`: each appended text entry under its name as a
      string, and no entry for one that was not appended. */
  predicate Carries(body: map<string, Value>, m: Multipart) {
    && Get(body, "title") == Some(Str(m.title))
    && Get(body, "serviceId") == Some(Str(m.serviceId))
    && Get(body, "categoryId") == Some(Str(m.categoryId))
    && Get(body, "description") == Some(Str(m.description))
    && Get(body, "fullDescription") == Some(Str(m.fullDescription))
    && Get(body, "tags") == Some(Str(m.tags))
    && Get(body, "tools") == Some(Str(m.tools))
    && Get(body, "featured") == Some(Str(m.featured))
    && Get(body, "client") == Some(Str(m.client))
    && Get(body, "year") == Some(Str(m.year))
    && Get(body, "existingCoverImage") == TextEntry(m.existingCoverImage)
    && Get(body, "existingGalleryImages") == TextEntry(m.existingGalleryImages)
    && Get(body, "coverImageUpload") == TextEntry(m.coverImageUpload)
  }

  /** What the portfolio routes make of a submission: the new cover file (and only it) becomes the
      cover, the gallery files follow in order, and `featured` is the checkbox. */
  lemma SubmissionUploads(f: Form, editing: bool, existingCover: Option<Value>, existingGallery: seq<Value>,
                          cover: Option<string>, gallery: seq<string>, encode: Value -> string,
                          body: map<string, Value>)
    requires Carries(body, Submission(f, editing, existingCover, existingGallery, cover, gallery, encode))
    ensures var m := Submission(f, editing, existingCover, existingGallery, cover, gallery, encode);
      var u := SplitUploads(CoverFlag(body), m.images);
      && u.cover == (if cover.Some? then Some(UploadPath(cover.value)) else None)
      && u.gallery == UploadPaths(gallery)
      && (IsTrueFlag(Get(body, "featured")) <==> f.featured)
  {
    var m := Submission(f, editing, existingCover, existingGallery, cover, gallery, encode);
    var files := (if cover.Some? then [cover.value] else []) + gallery;
    CarriedFlags(body, m);
    assert CoverFlag(body) == cover.Some? && m.images == files;
    assert m.featured == (if f.featured then "true" else "false");
    CoverThenGallery(cover, gallery);
    assert SplitUploads(CoverFlag(body), m.images) == SplitUploads(cover.Some?, files);
  }

  /** The flags the server reads from a request: the cover flag and `featured`. */
  lemma CarriedFlags(body: map<string, Value>, m: Multipart)
    requires Carries(body, m)
    ensures CoverFlag(body) <==> m.coverImageUpload == Some("true")
    ensures Get(body, "featured") == Some(Str(m.featured))
  {
  }

  /** Flagged exactly when a cover is chosen, the files appended split back into that cover and the
      gallery. */
  lemma CoverThenGallery(cover: Option<string>, gallery: seq<string>)
    ensures var u := SplitUploads(cover.Some?, (if cover.Some? then [cover.value] else []) + gallery);
      && u.cover == (if cover.Some? then Some(UploadPath(cover.value)) else None)
      && u.gallery == UploadPaths(gallery)
  {
    var files := (if cover.Some? then [cover.value] else []) + gallery;
    var u := SplitUploads(cover.Some?, files);
    if cover.Some? {
      assert InOrder(u) == [u.cover.value] + u.gallery;
      assert u.gallery == InOrder(u)[1..];
      assert files[1..] == gallery;
      assert UploadPaths(files)[1..] == UploadPaths(gallery);
    } else {
      assert files == gallery;
    }
  }

  /** Loading an item into the form and submitting it without touching the images leaves them as
      they were: the server keeps the cover it had and the whole gallery, given that `JSON.parse`
      reads back what `JSON.stringify` wrote and that stored covers are strings. */
  lemma EditThenSubmitKeepsImages(p: PortfolioItem, currentYear: string, encode: Value -> string,
                                  parse: string -> Option<Value>, body: map<string, Value>)
    requires forall v :: parse(encode(v)) == Some(v)
    requires Truthy(p.coverImage) ==> p.coverImage.value.Str?
    requires Truthy(p.image) ==> p.image.value.Str?
    requires Carries(body, Submission(EditForm(p, currentYear), true, EditCover(p), EditGallery(p), None, [], encode))
    ensures UpdatedImages(p, body, [], parse) == (if Truthy(p.coverImage) then p.coverImage else p.image, StoredGallery(p))
  {
    SubmitUntouchedImages(p, EditForm(p, currentYear), encode, parse, body);
  }

  /** The same for any form contents: only the image entries of the request matter. */
  lemma SubmitUntouchedImages(p: PortfolioItem, f: Form, encode: Value -> string,
                              parse: string -> Option<Value>, body: map<string, Value>)
    requires parse(encode(Arr(StoredGallery(p)))) == Some(Arr(StoredGallery(p)))
    requires Truthy(p.coverImage) ==> p.coverImage.value.Str?
    requires Truthy(p.image) ==> p.image.value.Str?
    requires Carries(body, Submission(f, true, EditCover(p), EditGallery(p), None, [], encode))
    ensures UpdatedImages(p, body, [], parse) == (if Truthy(p.coverImage) then p.coverImage else p.image, StoredGallery(p))
  {
    var cover := EditCover(p);
    var g := Arr(StoredGallery(p));
    assert Get(body, "coverImageUpload") == None;
    assert Get(body, "existingGalleryImages") == Some(Str(encode(g)));
    if Truthy(cover) {
      assert Get(body, "existingCoverImage") == Some(Str(ToText(cover.value)));
    } else {
      assert Get(body, "existingCoverImage") == None;
    }
    KeptImages(p, body, parse, encode(g));
  }

  /** An update with no upload, the edited cover and the stored gallery's text keeps both. */
  lemma KeptImages(p: PortfolioItem, body: map<string, Value>, parse: string -> Option<Value>, encoded: string)
    requires Truthy(p.coverImage) ==> p.coverImage.value.Str?
    requires Truthy(p.image) ==> p.image.value.Str?
    requires !CoverFlag(body)
    requires Get(body, "existingCoverImage") ==
      (if Truthy(EditCover(p)) then Some(Str(ToText(EditCover(p).value))) else None)
    requires Get(body, "existingGalleryImages") == Some(Str(encoded))
    requires parse(encoded) == Some(Arr(StoredGallery(p)))
    ensures UpdatedImages(p, body, [], parse) == (if Truthy(p.coverImage) then p.coverImage else p.image, StoredGallery(p))
  {
    var cover := EditCover(p);
    assert RetainedCover(p, body) == (if Truthy(p.coverImage) then p.coverImage else p.image) by {
      if Truthy(cover) {
        assert cover.value.Str?;
        assert Get(body, "existingCoverImage") == cover;
      }
    }
  }

  /** A new item submitted from the form is created with what the form showed: the chosen cover
      (the placeholder without one), the gallery files in order, the cleaned tag and tool lists and
      the `featured` checkbox, given that `JSON.parse` reads back what `JSON.stringify` wrote. */
  lemma SubmitThenCreate(items: seq<PortfolioItem>, f: Form, cover: Option<string>, gallery: seq<string>,
                         encode: Value -> string, parse: string -> Option<Value>, body: map<string, Value>)
    requires forall v :: parse(encode(v)) == Some(v)
    requires Carries(body, Submission(f, false, None, [], cover, gallery, encode))
    ensures var files := Submission(f, false, None, [], cover, gallery, encode).images;
      var r := NewPortfolioItem(items, body, files, parse);
      && r.Ok?
      && r.value.coverImage == Some(Str(if cover.Some? then UploadPath(cover.value) else Placeholder))
      && r.value.galleryImages == Some(Strs(UploadPaths(gallery)))
      && r.value.tags == Some(Arr(Strs(ListOfText(f.tags))))
      && r.value.tools == Some(Arr(Strs(ListOfText(f.tools))))
      && r.value.featured == f.featured
  {
    var m := Submission(f, false, None, [], cover, gallery, encode);
    var tags := Arr(Strs(ListOfText(f.tags)));
    var tools := Arr(Strs(ListOfText(f.tools)));
    assert Get(body, "tags") == Some(Str(encode(tags))) && Get(body, "tools") == Some(Str(encode(tools)));
    ParsedLists(body, parse, encode(tags), tags, encode(tools), tools);
    SubmissionUploads(f, false, None, [], cover, gallery, encode, body);
    CreatedFrom(items, body, m.images, parse, tags, tools);
  }

  /** `tags` and `tools` sent as text that `JSON.parse` reads back are stored as what they encode. */
  lemma ParsedLists(body: map<string, Value>, parse: string -> Option<Value>,
                    tagsText: string, tags: Value, toolsText: string, tools: Value)
    requires Get(body, "tags") == Some(Str(tagsText)) && parse(tagsText) == Some(tags)
    requires Get(body, "tools") == Some(Str(toolsText)) && parse(toolsText) == Some(tools)
    ensures ParseIfString(Get(body, "tags"), parse) == Some(Some(tags))
    ensures ParseIfString(Get(body, "tools"), parse) == Some(Some(tools))
  {
  }

  /** A create whose lists parse stores them, the split uploads and the `featured` flag. */
  lemma CreatedFrom(items: seq<PortfolioItem>, body: map<string, Value>, files: seq<string>,
                    parse: string -> Option<Value>, tags: Value, tools: Value)
    requires ParseIfString(Get(body, "tags"), parse) == Some(Some(tags))
    requires ParseIfString(Get(body, "tools"), parse) == Some(Some(tools))
    ensures var r := NewPortfolioItem(items, body, files, parse);
      var u := SplitUploads(CoverFlag(body), files);
      && r.Ok?
      && r.value.coverImage == Some(Str(if u.cover.Some? then u.cover.value else Placeholder))
      && r.value.galleryImages == Some(Strs(u.gallery))
      && r.value.tags == Some(tags) && r.value.tools == Some(tools)
      && r.value.featured == IsTrueFlag(Get(body, "featured"))
  {
  }
}
