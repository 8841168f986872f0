/** The featured projects of the home page: which projects are shown and which image each shows. */
module FeaturedProjects {
  import opened Text
  import opened JsValues
  import opened Lists
  import opened Records
  import opened PortfolioRules
  import opened ImageUrls

  /** `project.featured`. */
  function IsFeatured(p: PortfolioItem): bool {
    p.featured
  }

  /** `projects.filter((project) => project.featured).slice(0, 3)`. */
  function FeaturedSelection(projects: seq<PortfolioItem>): (r: seq<PortfolioItem>)
    ensures |r| <= 3
    ensures forall i :: 0 <= i < |r| ==> r[i].featured && r[i] in projects
    ensures SubseqOf(r, projects)
    ensures |r| == if Count(projects, IsFeatured) < 3 then Count(projects, IsFeatured) else 3
  {
    var all := Filter(projects, IsFeatured);
    var n := if |all| < 3 then |all| else 3;
    FilterMembers(projects, IsFeatured);
    FilterIsSubseq(projects, IsFeatured);
    PrefixIsSubseq(all, n);
    SubseqTrans(all[..n], all, projects);
    assert forall i :: 0 <= i < n ==> all[..n][i] in all;
    all[..n]
  }

  /** The selection is the first featured projects in stored order: a featured project is left
      out only when three featured projects come before it. */
  lemma SelectionIsFirstFeatured(projects: seq<PortfolioItem>, k: int)
    requires 0 <= k < |projects| && projects[k].featured
    requires Count(projects[..k], IsFeatured) < 3
    ensures FeaturedSelection(projects) == Filter(projects, IsFeatured)[..|FeaturedSelection(projects)|]
    ensures projects[k] in FeaturedSelection(projects)
  {
    var all := Filter(projects, IsFeatured);
    assert projects == projects[..k] + [projects[k]] + projects[k + 1..];
    FilterAppend(projects[..k] + [projects[k]], projects[k + 1..], IsFeatured);
    FilterAppend(projects[..k], [projects[k]], IsFeatured);
    var before := Filter(projects[..k], IsFeatured);
    assert Filter([projects[k]], IsFeatured) == [projects[k]] by {
      assert [projects[k]][1..] == [];
    }
    assert all[|before|] == projects[k];
  }

  /** `getImageUrl` of the featured projects as written: a stored path gets `/uploads/`
      in front, although stored paths already begin with `/uploads/`. */
  function FeaturedImageAsWritten(p: PortfolioItem): Resolved {
    Resolve(CoverOf(p), "/uploads/")
  }

  /** A cover uploaded as `a.png` is stored as `/uploads/a.png` and requested as
      `/uploads//uploads/a.png`, a path under which the back end holds no file. */
  lemma FeaturedDoublePrefix(p: PortfolioItem)
    requires p.coverImage == Some(Str(UploadPath("a.png")))
    ensures FeaturedImageAsWritten(p) == Url("/uploads//uploads/a.png")
    ensures FeaturedImageAsWritten(p) != Url(UploadPath("a.png"))
  {
    var path := UploadPath("a.png");
    assert path[0] == '/' && "http"[0] == 'h' && Placeholder[0] == 'p';
    assert !StartsWith(path, "http") && path != Placeholder;
    assert CoverOf(p) == Some(Str(path));
    assert "/uploads/" + path == "/uploads//uploads/a.png";
    assert ("/uploads//uploads/a.png")[9] == '/' && path[9] == 'a';
  }

  /** The featured projects' image as intended, with the back end's address in front of a stored
      path as the comment over it describes: the URL the portfolio grid uses, which for an uploaded
      cover is the uploaded file. */
  function FeaturedImage(p: PortfolioItem): (r: Resolved)
    ensures r == ProjectImage(p)
    ensures forall f :: p.coverImage == Some(Str(UploadPath(f))) ==> r == Url(ApiBase + "/uploads/" + f)
  {
    forall f | p.coverImage == Some(Str(UploadPath(f))) ensures ProjectImage(p) == Url(ApiBase + "/uploads/" + f) {
      ProjectImageOfUpload(p, f);
    }
    ProjectImage(p)
  }
}
