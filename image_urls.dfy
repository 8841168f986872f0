/** How the public site turns a project's stored image into the URL of an `<img>`: the cover image
    with the legacy `image` as fallback, the placeholder shown as no image, absolute URLs kept, and
    stored paths sent to the back end. */
module ImageUrls {
  import opened Text
  import opened JsValues
  import opened Records
  import opened PortfolioRules

  /** Where the pages reach the back end, which serves uploaded files under `/uploads/`. */
  const ApiBase: string := "http://localhost:5000"

  /** What an image resolves to. `startsWith` on a truthy value that is no string throws. */
  datatype Resolved = NoImage | Url(url: string) | TypeError

  /** `project.coverImage || project.image`. */
  function CoverOf(p: PortfolioItem): (r: Option<Value>)
    ensures Truthy(p.coverImage) ==> r == p.coverImage
    ensures !Truthy(p.coverImage) ==> r == p.image
  {
    if Truthy(p.coverImage) then p.coverImage else p.image
  }

  /** `getImageUrl` with the prefix given to stored paths: no image for a falsy value or the
      placeholder, an `http` URL unchanged, any other string prefixed. */
  function Resolve(v: Option<Value>, prefix: string): (r: Resolved)
    ensures r == NoImage <==> !Truthy(v) || v == Some(Str(Placeholder))
    ensures r == TypeError <==> Truthy(v) && !v.value.Str?
    ensures r.Url? ==> v.Some? && v.value.Str? && v.value.s != Placeholder && v.value.s != ""
    ensures r.Url? && StartsWith(v.value.s, "http") ==> r.url == v.value.s
    ensures r.Url? && !StartsWith(v.value.s, "http") ==> r.url == prefix + v.value.s
  {
    if !Truthy(v) || v == Some(Str(Placeholder)) then NoImage
    else if !v.value.Str? then TypeError
    else if StartsWith(v.value.s, "http") then Url(v.value.s)
    else Url(prefix + v.value.s)
  }

  /** The image the portfolio grid and the project modal show for a project. */
  function ProjectImage(p: PortfolioItem): Resolved {
    Resolve(CoverOf(p), ApiBase)
  }

  /** A cover stored by an upload is fetched from the back end's `/uploads/` route, which serves
      exactly that file. */
  lemma ProjectImageOfUpload(p: PortfolioItem, filename: string)
    requires p.coverImage == Some(Str(UploadPath(filename)))
    ensures ProjectImage(p) == Url(ApiBase + "/uploads/" + filename)
  {
    var path := UploadPath(filename);
    assert path[0] == '/' && Placeholder[0] == 'p';
    assert path[..4] == "/upl";
    assert ApiBase + path == ApiBase + "/uploads/" + filename;
  }

  /** An item left without a cover (the placeholder) shows no image even if it has a legacy
      `image`, and a cover that is an absolute URL is used as it is. */
  lemma ProjectImageCases(p: PortfolioItem, url: string)
    ensures p.coverImage == Some(Str(Placeholder)) ==> ProjectImage(p) == NoImage
    ensures p.coverImage == Some(Str(url)) && StartsWith(url, "http") ==> ProjectImage(p) == Url(url)
  {
    if p.coverImage == Some(Str(url)) && StartsWith(url, "http") {
      assert url[0] == 'h' && Placeholder[0] == 'p';
    }
  }
}
