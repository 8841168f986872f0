/** The project modal of the public site: its cover and gallery images, the gallery's previous and
    next buttons, and the neighbouring projects of the list it was opened from. */
module ProjectModal {
  import opened JsValues
  import opened Lists
  import opened Records
  import opened ImageUrls

  /** `project.galleryImages || []`. */
  function GalleryOf(p: PortfolioItem): seq<Value> {
    if p.galleryImages.Some? then p.galleryImages.value else []
  }

  /** The gallery section is shown when the gallery has an image. */
  function ShowGallery(p: PortfolioItem): bool {
    |GalleryOf(p)| > 0
  }

  /** The previous and next buttons and the thumbnails are shown when it has more than one. */
  function ShowGalleryControls(p: PortfolioItem): bool {
    |GalleryOf(p)| > 1
  }

  /** The gallery image shown at index `i`. */
  function GalleryImage(p: PortfolioItem, i: int): Resolved
    requires 0 <= i < |GalleryOf(p)|
  {
    Resolve(Some(GalleryOf(p)[i]), ApiBase)
  }

  /** `handleNextGallery`: one step forward, from the last image back to the first. */
  function NextImage(i: int, n: int): (r: int)
    ensures 0 <= i < n ==> 0 <= r < n
    ensures i == n - 1 ==> r == 0
  {
    if i == n - 1 then 0 else i + 1
  }

  /** `handlePrevGallery`: one step back, from the first image to the last. */
  function PrevImage(i: int, n: int): (r: int)
    ensures 0 <= i < n ==> 0 <= r < n
    ensures i == 0 ==> r == n - 1
  {
    if i == 0 then n - 1 else i - 1
  }

  /** The two buttons undo each other on every index of the gallery. */
  lemma PrevUndoesNext(i: int, n: int)
    requires 0 <= i < n
    ensures PrevImage(NextImage(i, n), n) == i
    ensures NextImage(PrevImage(i, n), n) == i
  {
  }

  /** `a % b` in JavaScript: the remainder takes the sign of `a`. */
  function JsRem(a: int, b: int): (r: int)
    requires b > 0
    ensures a >= 0 ==> r == a % b
    ensures -b < r < b
  {
    if a >= 0 then a % b else -((-a) % b)
  }

  /** `projects.findIndex((p) => p.id === project.id)`. */
  function CurrentIndex(projects: seq<PortfolioItem>, p: PortfolioItem): int {
    FirstWhere(projects, (q: PortfolioItem) => q.id == p.id)
  }

  /** The index of `nextProject`, or `None` for an empty list (`% 0` is `NaN`). */
  function NextProjectIndex(projects: seq<PortfolioItem>, p: PortfolioItem): (r: Option<int>)
    ensures r.None? <==> projects == []
    ensures r.Some? ==> 0 <= r.value < |projects|
  {
    if projects == [] then None else Some(JsRem(CurrentIndex(projects, p) + 1, |projects|))
  }

  /** The index of `prevProject`, or `None` for an empty list. */
  function PrevProjectIndex(projects: seq<PortfolioItem>, p: PortfolioItem): (r: Option<int>)
    ensures r.None? <==> projects == []
    ensures r.Some? ==> 0 <= r.value < |projects|
  {
    if projects == [] then None
    else
      var n := |projects|;
      var a := CurrentIndex(projects, p) - 1 + n;
      // Only a project missing from the list of one gives a negative dividend, -1, whose
      // remainder is -0, that is index 0.
      assert a < 0 ==> a == -1 && n == 1;
      Some(if a >= 0 then JsRem(a, n) else 0)
  }

  /** With distinct ids, a listed project is found at its own position. */
  lemma IndexOfListed(projects: seq<PortfolioItem>, k: int)
    requires UniqueIds(projects, PortfolioId)
    requires 0 <= k < |projects|
    ensures CurrentIndex(projects, projects[k]) == k
  {
    var f := CurrentIndex(projects, projects[k]);
    assert f >= 0 by {
      assert projects[k].id == projects[k].id;
    }
    assert PortfolioId(projects[f]) == PortfolioId(projects[k]);
  }

  /** Stepping forward and back wraps around the ends of a list of `n` projects. */
  lemma StepForwardBack(k: int, n: int)
    requires 0 <= k < n
    ensures (k + 1) % n == (if k == n - 1 then 0 else k + 1)
    ensures (k - 1 + n) % n == (if k == 0 then n - 1 else k - 1)
  {
  }

  /** For a project of the list, its neighbours are the projects one step after and one step
      before it, wrapping around at both ends, and stepping to the previous project of the next one
      comes back to it. */
  lemma NeighboursOfListed(projects: seq<PortfolioItem>, k: int)
    requires UniqueIds(projects, PortfolioId)
    requires 0 <= k < |projects|
    ensures NextProjectIndex(projects, projects[k]) == Some((k + 1) % |projects|)
    ensures PrevProjectIndex(projects, projects[k]) == Some((k - 1 + |projects|) % |projects|)
    ensures PrevProjectIndex(projects, projects[NextProjectIndex(projects, projects[k]).value]) == Some(k)
  {
    var n := |projects|;
    IndexOfListed(projects, k);
    StepForwardBack(k, n);
    var m := (k + 1) % n;
    IndexOfListed(projects, m);
    StepForwardBack(m, n);
  }

  /** A project missing from the list (index -1) has the first project as next. */
  lemma NextOfMissing(projects: seq<PortfolioItem>, p: PortfolioItem)
    requires projects != []
    requires forall q :: q in projects ==> q.id != p.id
    ensures NextProjectIndex(projects, p) == Some(0)
  {
    assert CurrentIndex(projects, p) == -1;
  }
}
