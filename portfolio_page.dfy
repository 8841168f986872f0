/** The portfolio page of the public site: the category filter buttons, built from the categories
    the projects carry, and the projects a filter selects. */
module PortfolioPage {
  import opened JsValues
  import opened Lists
  import opened Records

  /** The filter that selects every project. */
  const AllFilter: Option<Value> := Some(Str("All"))

  /** `project.category`, `undefined` when absent. */
  function CategoryOf(p: PortfolioItem): Option<Value> {
    Get(p.extras, "category")
  }

  /** `[...new Set(xs)]` continued past the values in `seen`: each value at its first appearance. */
  function DistinctFrom<T(==)>(xs: seq<T>, seen: set<T>): seq<T> {
    if xs == [] then []
    else if xs[0] in seen then DistinctFrom(xs[1..], seen)
    else [xs[0]] + DistinctFrom(xs[1..], seen + {xs[0]})
  }

  /** Every value of `xs` not seen before appears once, in the order of first appearance. */
  lemma {:induction false} DistinctFromSpec<T>(xs: seq<T>, seen: set<T>)
    ensures var r := DistinctFrom(xs, seen);
      && (forall x :: x in r <==> x in xs && x !in seen)
      && (forall i, j :: 0 <= i < j < |r| ==> r[i] != r[j])
      && SubseqOf(r, xs)
  {
    if xs != [] {
      var r := DistinctFrom(xs, seen);
      if xs[0] in seen {
        DistinctFromSpec(xs[1..], seen);
        assert forall x :: x in xs <==> x == xs[0] || x in xs[1..];
      } else {
        var rest := DistinctFrom(xs[1..], seen + {xs[0]});
        DistinctFromSpec(xs[1..], seen + {xs[0]});
        assert forall x :: x in xs <==> x == xs[0] || x in xs[1..];
        assert r[0] == xs[0] && r[1..] == rest;
        forall i, j | 0 <= i < j < |r| ensures r[i] != r[j] {
          if i == 0 {
            assert r[j] == rest[j - 1];
          } else {
            assert r[i] == rest[i - 1] && r[j] == rest[j - 1];
          }
        }
      }
    }
  }

  /** First-appearance order defined from the other end: the list's last value is kept exactly when
      it does not occur earlier. */
  function FirstAppearances<T(==)>(xs: seq<T>): seq<T> {
    if xs == [] then []
    else
      var init, last := xs[..|xs| - 1], xs[|xs| - 1];
      FirstAppearances(init) + (if last in init then [] else [last])
  }

  lemma FirstAppearancesSnoc<T>(p: seq<T>, y: T)
    ensures FirstAppearances(p + [y]) == FirstAppearances(p) + (if y in p then [] else [y])
  {
    var q := p + [y];
    assert q[..|q| - 1] == p && q[|q| - 1] == y;
  }

  /** Deduplicating `ys` after `p`, with `seen` holding exactly the values of `p`, continues the
      first appearances of `p`. */
  lemma {:induction false} DistinctFromAfter<T>(p: seq<T>, ys: seq<T>, seen: set<T>)
    requires forall x :: x in seen <==> x in p
    ensures FirstAppearances(p + ys) == FirstAppearances(p) + DistinctFrom(ys, seen)
    decreases |ys|
  {
    if ys == [] {
      assert p + ys == p;
    } else {
      var y := ys[0];
      var q := p + [y];
      assert forall x :: x in seen + {y} <==> x in q;
      DistinctFromAfter(q, ys[1..], seen + {y});
      assert q + ys[1..] == p + ys;
      FirstAppearancesSnoc(p, y);
      if y in p {
        assert seen + {y} == seen;
      } else {
        calc {
          FirstAppearances(p + ys);
          FirstAppearances(q) + DistinctFrom(ys[1..], seen + {y});
          FirstAppearances(p) + ([y] + DistinctFrom(ys[1..], seen + {y}));
          FirstAppearances(p) + DistinctFrom(ys, seen);
        }
      }
    }
  }

  /** The set-based deduplication keeps exactly the first appearance of each value, in order. */
  lemma DistinctIsFirstAppearances<T>(xs: seq<T>)
    ensures DistinctFrom(xs, {}) == FirstAppearances(xs)
  {
    DistinctFromAfter([], xs, {});
    assert [] + xs == xs;
  }

  /** `projects.map((project) => project.category)`. */
  function Categories(projects: seq<PortfolioItem>): (r: seq<Option<Value>>)
    ensures |r| == |projects|
    ensures forall i :: 0 <= i < |r| ==> r[i] == CategoryOf(projects[i])
    ensures forall c :: c in r <==> exists i :: 0 <= i < |projects| && CategoryOf(projects[i]) == c
  {
    var r := seq(|projects|, i requires 0 <= i < |projects| => CategoryOf(projects[i]));
    assert forall c :: c in r ==> exists i :: 0 <= i < |projects| && CategoryOf(projects[i]) == c by {
      forall c | c in r ensures exists i :: 0 <= i < |projects| && CategoryOf(projects[i]) == c {
        var i :| 0 <= i < |r| && r[i] == c;
      }
    }
    assert forall i :: 0 <= i < |projects| ==> CategoryOf(projects[i]) in r by {
      forall i | 0 <= i < |projects| ensures CategoryOf(projects[i]) in r {
        assert r[i] == CategoryOf(projects[i]);
      }
    }
    r
  }

  /** The filter buttons: `'All'` and then each category carried by a project, once, in the order
      the projects first carry it. */
  function FilterOptions(projects: seq<PortfolioItem>): (r: seq<Option<Value>>)
    ensures |r| >= 1 && r[0] == AllFilter
    ensures forall c :: c in r[1..] <==> exists i :: 0 <= i < |projects| && CategoryOf(projects[i]) == c
    ensures forall i, j :: 1 <= i < j < |r| ==> r[i] != r[j]
    ensures r[1..] == FirstAppearances(Categories(projects))
  {
    var cats := Categories(projects);
    var d := DistinctFrom(cats, {});
    DistinctFromSpec(cats, {});
    DistinctIsFirstAppearances(cats);
    var r := [AllFilter] + d;
    assert r[1..] == d;
    assert forall c :: c in d <==> c in cats;
    forall i, j | 1 <= i < j < |r| ensures r[i] != r[j] {
      assert r[i] == d[i - 1] && r[j] == d[j - 1];
    }
    r
  }

  /** `project.category === activeFilter`. */
  function InCategory(active: Option<Value>): PortfolioItem -> bool {
    (p: PortfolioItem) => CategoryOf(p) == active
  }

  /** The projects shown under a filter: all of them under `'All'`, otherwise exactly those of that
      category, in their order. */
  function Filtered(projects: seq<PortfolioItem>, active: Option<Value>): (r: seq<PortfolioItem>)
    ensures active == AllFilter ==> r == projects
    ensures active != AllFilter ==> forall p :: p in r <==> p in projects && CategoryOf(p) == active
    ensures SubseqOf(r, projects)
  {
    if active == AllFilter then
      SubseqOfSelf(projects);
      projects
    else
      FilterMembers(projects, InCategory(active));
      FilterIsSubseq(projects, InCategory(active));
      Filter(projects, InCategory(active))
  }

  /** No filter button leads to an empty grid. */
  lemma OptionsSelectSomething(projects: seq<PortfolioItem>, k: int)
    requires 0 <= k < |FilterOptions(projects)|
    requires projects != []
    ensures Filtered(projects, FilterOptions(projects)[k]) != []
  {
    var opts := FilterOptions(projects);
    var c := opts[k];
    if c != AllFilter {
      assert k >= 1 && c == opts[1..][k - 1];
      assert c in opts[1..];
      var i :| 0 <= i < |projects| && CategoryOf(projects[i]) == c;
      assert projects[i] in Filtered(projects, c);
    }
  }
}
