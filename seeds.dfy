/** The documents the listing routes write when a file is missing. */
module Seeds {
  import opened JsValues
  import opened Records
  import PortfolioRules

  /** The one item `GET /portfolio` of the public site writes when `portfolio.json` is missing. */
  const DefaultPortfolio: seq<PortfolioItem> := [
    PortfolioItem(
      1, None, None, None, Some(Str("portfolio-1")), None,
      Some(Arr([Str("UI/UX"), Str("Dashboard"), Str("Web App")])),
      Some(Arr([Str("Figma"), Str("Adobe XD"), Str("React")])),
      true,
      map[
        "title" := Str("NFT Dashboard Application"),
        "category" := Str("UI/UX Design"),
        "description" := Str("Modern dashboard design for NFT marketplace"),
        "fullDescription" := Str("A comprehensive NFT marketplace dashboard with real-time analytics and user management.")])]

  /** The resume `GET /resume` of the public site writes when `resume.json` is missing. */
  const DefaultResume: map<string, Value> := map[
    "summary" := Str("Creative UI/UX designer with over 5 years of experience..."),
    "education" := Arr([]),
    "experience" := Arr([]),
    "skills" := Arr([]),
    "certifications" := Arr([]),
    "cvFile" := Null]

  function ServiceSeed(id: int, name: string, slug: string): Service {
    Service(id, Some(Str(name)), Some(Str(slug)), Some(Num(id)), map[])
  }

  /** The services both `GET /services` routes write when `services.json` is missing. */
  const DefaultServices: seq<Service> := [
    ServiceSeed(1, "Graphic Design", "graphic-design"),
    ServiceSeed(2, "UI/UX Design", "ui-ux-design"),
    ServiceSeed(3, "Web Development", "web-development")]

  function CategorySeed(id: int, name: string, serviceId: int, order: int): Category {
    Category(id, Some(Str(name)), Some(serviceId), Some(Num(order)), map[])
  }

  /** The categories the admin `GET /categories` writes when `categories.json` is missing. */
  const DefaultCategories: seq<Category> := [
    CategorySeed(1, "Logo Design", 1, 1),
    CategorySeed(2, "Brand Identity", 1, 2),
    CategorySeed(3, "Print Design", 1, 3),
    CategorySeed(4, "Illustration", 1, 4),
    CategorySeed(5, "Mobile App Design", 2, 1),
    CategorySeed(6, "Web App Design", 2, 2),
    CategorySeed(7, "Dashboard Design", 2, 3),
    CategorySeed(8, "Frontend Development", 3, 1),
    CategorySeed(9, "Backend Development", 3, 2),
    CategorySeed(10, "Full Stack", 3, 3)]

  /** Seeded ids are 1, 2, ... in order, and every seeded category belongs to a seeded service. */
  lemma SeedIds()
    ensures forall i :: 0 <= i < |DefaultServices| ==> DefaultServices[i].id == i + 1
    ensures forall i :: 0 <= i < |DefaultCategories| ==> DefaultCategories[i].id == i + 1
    ensures forall i :: 0 <= i < |DefaultCategories| ==>
      FindIndex(DefaultServices, ServiceId, DefaultCategories[i].serviceId) >= 0
  {
    forall i | 0 <= i < |DefaultCategories|
      ensures FindIndex(DefaultServices, ServiceId, DefaultCategories[i].serviceId) >= 0
    {
      var sid := DefaultCategories[i].serviceId.value;
      assert HasId(ServiceId(DefaultServices[sid - 1]), Some(sid));
    }
  }

  /** The seeded portfolio item belongs to no service, so it appears in no by-service listing. */
  lemma SeedPortfolioUnlisted(param: Option<int>)
    ensures PortfolioRules.ByService(DefaultPortfolio, param) == []
    ensures PortfolioRules.WellFormed(DefaultPortfolio[0])
  {
    var r := PortfolioRules.ByService(DefaultPortfolio, param);
    assert forall x :: x in r ==> x == DefaultPortfolio[0];
  }
}
