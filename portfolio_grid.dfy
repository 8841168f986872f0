/** The grid of project cards shared by the portfolio page and the service pages. */
module PortfolioGrid {
  import opened JsValues
  import opened Records
  import opened PortfolioRules
  import opened ImageUrls

  /** What a card shows: keyed by the project's id, its image (or the title as placeholder when it
      has none), its category and its title. */
  datatype Card = Card(key: int, image: Resolved, title: Option<Value>, category: Option<Value>)

  function CardOf(p: PortfolioItem): Card {
    Card(p.id, ProjectImage(p), Get(p.extras, "title"), Get(p.extras, "category"))
  }

  /** `projects.map(...)`: one card per project, in the given order. */
  function Cards(projects: seq<PortfolioItem>): (r: seq<Card>)
    ensures |r| == |projects|
    ensures forall i :: 0 <= i < |r| ==> r[i].key == projects[i].id && r[i].image == ProjectImage(projects[i])
  {
    seq(|projects|, i requires 0 <= i < |projects| => CardOf(projects[i]))
  }

  /** The placeholder block is displayed exactly when the card has no image URL. */
  function ShowsPlaceholder(c: Card): bool {
    !c.image.Url?
  }

  /** Projects with distinct ids give cards with distinct keys. */
  lemma CardKeysUnique(projects: seq<PortfolioItem>)
    requires UniqueIds(projects, PortfolioId)
    ensures forall i, j :: 0 <= i < j < |projects| ==> Cards(projects)[i].key != Cards(projects)[j].key
  {
    forall i, j | 0 <= i < j < |projects| ensures Cards(projects)[i].key != Cards(projects)[j].key {
      assert PortfolioId(projects[i]) != PortfolioId(projects[j]);
    }
  }

  /** A project whose cover is the placeholder, or which has neither cover nor image, shows its
      title instead of a picture. */
  lemma PlaceholderCards(p: PortfolioItem)
    requires p.coverImage == Some(Str(Placeholder)) || (!Truthy(p.coverImage) && !Truthy(p.image))
    ensures ShowsPlaceholder(CardOf(p))
  {
  }
}
