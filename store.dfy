/** The server's data directory and its routes. Each JSON document is a field (`None` while its file
    does not exist); uploaded files are the set of their `/uploads/...` paths. Every route reads the
    documents it needs, computes the answer with the rules of its module, and writes back what
    changed. Admin routes are modelled as they run once `authenticateToken` has let the request
    through (see module Auth). */
module Store {
  import opened JsValues
  import opened Lists
  import opened Records
  import opened PortfolioRules
  import opened CatalogRules
  import opened ContactRules
  import opened ResumeRules
  import opened Seeds

  class Store {
    var portfolio: Option<seq<PortfolioItem>>
    var services: Option<seq<Service>>
    var categories: Option<seq<Category>>
    var contacts: Option<seq<Contact>>
    var resume: Option<Resume>
    var testimonials: Option<seq<Value>>
    var blobs: set<string>

    /** A fresh data directory: no documents and no uploads. */
    constructor ()
      ensures portfolio.None? && services.None? && categories.None? && contacts.None?
      ensures resume.None? && testimonials.None? && blobs == {}
    {
      portfolio, services, categories, contacts := None, None, None, None;
      resume, testimonials, blobs := None, None, {};
    }

    // ---------------------------------------------------------------- portfolio (admin)

    /** `GET /admin/portfolio`: the stored items, or none while the file is absent. */
    method AdminPortfolio() returns (r: seq<PortfolioItem>)
      ensures r == OrEmpty(portfolio)
      ensures portfolio.None? ==> r == []
    {
      r := OrEmpty(portfolio);
    }

    /** `POST /admin/portfolio`: the uploads stay on disk whatever happens; on success the new item
        is appended to the list (created when absent). */
    method CreatePortfolio(body: map<string, Value>, files: seq<string>, parse: string -> Option<Value>)
      returns (r: Reply<PortfolioItem>)
      modifies this`portfolio, this`blobs
      ensures blobs == old(blobs) + UploadedSet(files)
      ensures r == NewPortfolioItem(OrEmpty(old(portfolio)), body, files, parse)
      ensures r.Ok? ==> portfolio == Some(OrEmpty(old(portfolio)) + [r.value])
      ensures r.Fail? ==> portfolio == old(portfolio)
      ensures r.Ok? && "id" !in body ==>
        FindIndex(OrEmpty(portfolio), PortfolioId, Some(r.value.id)) == |OrEmpty(old(portfolio))|
      ensures "id" !in body && UniqueIds(OrEmpty(old(portfolio)), PortfolioId) ==> UniqueIds(OrEmpty(portfolio), PortfolioId)
      ensures r.Ok? && "id" in body && body["id"].Num? && FindIndex(OrEmpty(old(portfolio)), PortfolioId, Some(body["id"].n)) >= 0 ==>
        !UniqueIds(OrEmpty(portfolio), PortfolioId)
    {
      blobs := blobs + UploadedSet(files);
      var items := OrEmpty(portfolio);
      r := NewPortfolioItem(items, body, files, parse);
      if r.Ok? {
        portfolio := Some(items + [r.value]);
        if "id" in body && body["id"].Num? && FindIndex(items, PortfolioId, Some(body["id"].n)) >= 0 {
          BodyIdDuplicates(items, body, files, parse, FindIndex(items, PortfolioId, Some(body["id"].n)));
        }
        if "id" !in body {
          AppendNextThenFind(items, PortfolioId, r.value);
          if UniqueIds(items, PortfolioId) {
            NextIdKeepsUnique(items, PortfolioId, r.value);
          }
        }
      }
    }

    /** `PUT /admin/portfolio/:id`: the uploads stay on disk in every case; the list changes as
        `UpdateById` says, with 404 "Portfolio not found" or "Portfolio item not found". */
    method UpdatePortfolio(id: string, body: map<string, Value>, files: seq<string>, parse: string -> Option<Value>)
      returns (r: Reply<PortfolioItem>)
      modifies this`portfolio, this`blobs
      ensures blobs == old(blobs) + UploadedSet(files)
      ensures (r, portfolio) == UpdateById(old(portfolio), PortfolioId, ParseIntText(id), PortfolioUpdate(body, files, parse),
                                           "Portfolio not found", "Portfolio item not found")
    {
      blobs := blobs + UploadedSet(files);
      var next := UpdateById(portfolio, PortfolioId, ParseIntText(id), PortfolioUpdate(body, files, parse),
                             "Portfolio not found", "Portfolio item not found");
      r, portfolio := next.0, next.1;
    }

    /** `DELETE /admin/portfolio/:id`: 404 without a document; otherwise every item of that id is
        dropped and the route succeeds, also when there was none. */
    method DeletePortfolio(id: string) returns (r: Reply<string>)
      modifies this`portfolio
      ensures (r, portfolio) == DeleteById(old(portfolio), PortfolioId, ParseIntText(id), "Portfolio not found", "Portfolio item deleted")
    {
      var next := DeleteById(portfolio, PortfolioId, ParseIntText(id), "Portfolio not found", "Portfolio item deleted");
      r, portfolio := next.0, next.1;
    }

    // ---------------------------------------------------------------- portfolio (public)

    /** `GET /api/portfolio`: the stored items; while the file is absent the one seeded item is
        written and returned. */
    method PublicPortfolio() returns (r: seq<PortfolioItem>)
      modifies this`portfolio
      ensures old(portfolio).Some? ==> portfolio == old(portfolio)
      ensures old(portfolio).None? ==> portfolio == Some(DefaultPortfolio)
      ensures r == portfolio.value
      ensures UniqueIds(OrEmpty(old(portfolio)), PortfolioId) ==> UniqueIds(OrEmpty(portfolio), PortfolioId)
    {
      if portfolio.None? {
        portfolio := Some(DefaultPortfolio);
      }
      r := portfolio.value;
    }

    /** `GET /api/portfolio/:id`: the first item of that id; 404 when there is none or no document. */
    method PortfolioById(id: string) returns (r: Reply<PortfolioItem>)
      ensures portfolio.None? ==> r == Fail(404, "Portfolio not found")
      ensures portfolio.Some? && r.Fail? ==> r == Fail(404, "Portfolio item not found")
      ensures r.Ok? <==> portfolio.Some? && exists i :: 0 <= i < |portfolio.value| && HasId(portfolio.value[i].id, ParseIntText(id))
      ensures r.Ok? ==> r.value in portfolio.value && HasId(r.value.id, ParseIntText(id))
      ensures r.Ok? ==> r.value == portfolio.value[FindIndex(portfolio.value, PortfolioId, ParseIntText(id))]
    {
      if portfolio.None? {
        return Fail(404, "Portfolio not found");
      }
      var i := FindIndex(portfolio.value, PortfolioId, ParseIntText(id));
      if i < 0 {
        r := Fail(404, "Portfolio item not found");
      } else {
        r := Ok(portfolio.value[i]);
      }
    }

    /** `GET /api/portfolio/service/:serviceId`. */
    method PortfolioByService(serviceId: string) returns (r: seq<PortfolioItem>)
      ensures forall x :: x in r <==> x in OrEmpty(portfolio) && HasService(x, ParseIntText(serviceId))
      ensures SubseqOf(r, OrEmpty(portfolio))
    {
      r := ByService(OrEmpty(portfolio), ParseIntText(serviceId));
    }

    /** `GET /api/portfolio/service/:serviceId/category/:categoryId`. */
    method PortfolioByServiceAndCategory(serviceId: string, categoryId: string) returns (r: seq<PortfolioItem>)
      ensures forall x :: x in r <==> x in OrEmpty(portfolio) && HasService(x, ParseIntText(serviceId)) &&
                                      ParseIntText(categoryId).Some? && x.categoryId == ParseIntText(categoryId)
      ensures r == Filter(ByService(OrEmpty(portfolio), ParseIntText(serviceId)), InCategory(ParseIntText(categoryId)))
    {
      r := ByServiceAndCategory(OrEmpty(portfolio), ParseIntText(serviceId), ParseIntText(categoryId));
    }

    // ---------------------------------------------------------------- resume

    /** `GET /admin/resume`: the stored resume, or an empty object. */
    method AdminResume() returns (r: Resume)
      ensures resume.Some? ==> r == resume.value
      ensures resume.None? ==> r == map[]
    {
      r := if resume.Some? then resume.value else map[];
    }

    /** `PUT /admin/resume`: the body replaces the whole document. */
    method PutResume(body: Resume) returns (r: Resume)
      modifies this`resume
      ensures resume == Some(body) && r == body
    {
      resume := Some(body);
      r := body;
    }

    /** `GET /api/resume`: the stored resume; while the file is absent the default resume is written
        and returned. */
    method PublicResume() returns (r: Resume)
      modifies this`resume
      ensures old(resume).Some? ==> resume == old(resume)
      ensures old(resume).None? ==> resume == Some(DefaultResume)
      ensures r == resume.value
    {
      if resume.None? {
        resume := Some(DefaultResume);
      }
      r := resume.value;
    }

    /** `POST /admin/resume/upload-pdf`. */
    method UploadResumePdf(u: PdfUpload) returns (r: Reply<string>)
      modifies this`resume, this`blobs
      ensures (r, PdfState(resume, blobs)) == UploadPdf(PdfState(old(resume), old(blobs)), u)
      ensures r.Ok? ==> resume.Some? && CvFile(resume.value) == Some(Str(r.value))
    {
      var next := UploadPdf(PdfState(resume, blobs), u);
      r := next.0;
      resume, blobs := next.1.resume, next.1.blobs;
    }

    /** `DELETE /admin/resume/pdf`. */
    method DeleteResumePdf() returns (r: Reply<string>)
      modifies this`resume, this`blobs
      ensures (r, PdfState(resume, blobs)) == DeletePdf(PdfState(old(resume), old(blobs)))
      ensures r.Ok? ==> DownloadPath(PdfState(resume, blobs)) == Fail(404, "No resume PDF available")
    {
      var next := DeletePdf(PdfState(resume, blobs));
      r := next.0;
      resume, blobs := next.1.resume, next.1.blobs;
      if r.Ok? {
        DeleteThenDownload(PdfState(old(resume), old(blobs)));
      }
    }

    /** `GET /api/resume/download`: the path of the file sent as `resume.pdf`. */
    method DownloadResume() returns (r: Reply<string>)
      ensures r == DownloadPath(PdfState(resume, blobs))
      ensures r.Ok? ==> r.value in blobs && resume.Some? && CvFile(resume.value) == Some(Str(r.value))
    {
      r := DownloadPath(PdfState(resume, blobs));
    }

    // ---------------------------------------------------------------- contacts and dashboard

    /** `POST /api/contact`: a 400 leaves the inbox alone; otherwise the contact is appended. */
    method SubmitContact(body: map<string, Value>, now: int) returns (r: Reply<Contact>)
      modifies this`contacts
      ensures r == NewContact(OrEmpty(old(contacts)), body, now)
      ensures r.Ok? ==> contacts == Some(OrEmpty(old(contacts)) + [r.value])
      ensures r.Fail? ==> contacts == old(contacts)
      ensures Numbered(OrEmpty(old(contacts))) ==> Numbered(OrEmpty(contacts))
    {
      var cs := OrEmpty(contacts);
      r := NewContact(cs, body, now);
      if r.Ok? {
        contacts := Some(cs + [r.value]);
        if Numbered(cs) {
          NewContactKeepsNumbered(cs, body, now);
        }
      }
    }

    /** `GET /admin/contact`: the contacts, newest first. */
    method ListContacts() returns (r: seq<Contact>)
      ensures r == NewestFirst(OrEmpty(contacts))
      ensures multiset(r) == multiset(OrEmpty(contacts))
      ensures forall i, j :: 0 <= i < j < |r| ==> r[i].date >= r[j].date
    {
      r := NewestFirst(OrEmpty(contacts));
      NewestFirstSpec(OrEmpty(contacts));
    }

    /** `PUT /admin/contact/:id/read`: 404 "Contacts file not found" or "Contact not found";
        otherwise that contact's read flag is set (or toggled) and nothing else changes. */
    method MarkContactRead(id: string, body: map<string, Value>) returns (r: Reply<Contact>)
      modifies this`contacts
      ensures (r, contacts) == MarkRead(old(contacts), ParseIntText(id), body)
    {
      var next := MarkRead(contacts, ParseIntText(id), body);
      r, contacts := next.0, next.1;
    }

    /** `GET /admin/dashboard`. */
    method DashboardStats() returns (r: Stats)
      ensures r == Dashboard(portfolio, contacts)
      ensures r.unreadContacts == UnreadCount(OrEmpty(contacts)) <= r.contactCount == |OrEmpty(contacts)|
      ensures r.portfolioCount == |OrEmpty(portfolio)|
    {
      r := Dashboard(portfolio, contacts);
    }

    // ---------------------------------------------------------------- services

    /** `GET /services` (admin and public): the stored services; while the file is absent the three
        default services are written and returned. */
    method ListServices() returns (r: seq<Service>)
      modifies this`services
      ensures old(services).Some? ==> services == old(services)
      ensures old(services).None? ==> services == Some(DefaultServices)
      ensures r == services.value
      ensures UniqueIds(OrEmpty(old(services)), ServiceId) ==> UniqueIds(OrEmpty(services), ServiceId)
    {
      if services.None? {
        services := Some(DefaultServices);
        SeedIds();
      }
      r := services.value;
    }

    /** `GET /api/services/:slug`: the first service with that slug, 404 otherwise. */
    method ServiceBySlug(slug: string) returns (r: Reply<Service>)
      ensures r.Fail? ==> r == Fail(404, "Service not found")
      ensures r.Ok? <==> services.Some? && exists i :: 0 <= i < |services.value| && services.value[i].slug == Some(Str(slug))
      ensures r.Ok? ==> r.value in services.value && r.value.slug == Some(Str(slug))
    {
      if services.None? {
        return Fail(404, "Service not found");
      }
      var found := FindBySlug(services.value, slug);
      if found.None? {
        r := Fail(404, "Service not found");
      } else {
        r := Ok(found.value);
      }
    }

    /** `POST /admin/services`. */
    method CreateService(body: map<string, Value>) returns (r: Reply<Service>)
      modifies this`services
      ensures r == NewService(OrEmpty(old(services)), body)
      ensures r.Ok? ==> services == Some(OrEmpty(old(services)) + [r.value])
      ensures r.Fail? ==> services == old(services)
      ensures r.Ok? ==> FindIndex(services.value, ServiceId, Some(r.value.id)) == |OrEmpty(old(services))|
      ensures UniqueIds(OrEmpty(old(services)), ServiceId) ==> UniqueIds(OrEmpty(services), ServiceId)
    {
      var ss := OrEmpty(services);
      r := NewService(ss, body);
      if r.Ok? {
        services := Some(ss + [r.value]);
        AppendNextThenFind(ss, ServiceId, r.value);
        if UniqueIds(ss, ServiceId) {
          NextIdKeepsUnique(ss, ServiceId, r.value);
        }
      }
    }

    /** `PUT /admin/services/:id`: 404 "Services not found" or "Service not found"; otherwise the
        service is replaced by its update. */
    method UpdateService(id: string, body: map<string, Value>) returns (r: Reply<Service>)
      modifies this`services
      ensures (r, services) == UpdateById(old(services), ServiceId, ParseIntText(id), ServiceUpdate(body),
                                          "Services not found", "Service not found")
    {
      var next := UpdateById(services, ServiceId, ParseIntText(id), ServiceUpdate(body), "Services not found", "Service not found");
      r, services := next.0, next.1;
    }

    /** `DELETE /admin/services/:id`: 404 without a document; otherwise the services of that id are
        dropped and the route succeeds. Categories of the service are left as they are. */
    method DeleteService(id: string) returns (r: Reply<string>)
      modifies this`services
      ensures (r, services) == DeleteById(old(services), ServiceId, ParseIntText(id), "Services not found", "Service deleted")
    {
      var next := DeleteById(services, ServiceId, ParseIntText(id), "Services not found", "Service deleted");
      r, services := next.0, next.1;
    }

    // ---------------------------------------------------------------- categories

    /** `GET /admin/categories`: the stored categories; while the file is absent the ten default
        categories are written and returned. */
    method AdminCategories() returns (r: seq<Category>)
      modifies this`categories
      ensures old(categories).Some? ==> categories == old(categories)
      ensures old(categories).None? ==> categories == Some(DefaultCategories)
      ensures r == categories.value
      ensures UniqueIds(OrEmpty(old(categories)), CategoryId) ==> UniqueIds(OrEmpty(categories), CategoryId)
    {
      if categories.None? {
        categories := Some(DefaultCategories);
        SeedIds();
      }
      r := categories.value;
    }

    /** `GET /api/categories`: the stored categories, none while the file is absent (nothing is
        written). */
    method PublicCategories() returns (r: seq<Category>)
      ensures r == OrEmpty(categories)
    {
      r := OrEmpty(categories);
    }

    /** `GET /categories/service/:serviceId` (admin and public). */
    method CategoriesByService(serviceId: string) returns (r: seq<Category>)
      ensures forall x :: x in r <==> x in OrEmpty(categories) && ParseIntText(serviceId).Some? &&
                                      x.serviceId == ParseIntText(serviceId)
      ensures SubseqOf(r, OrEmpty(categories))
      ensures |r| == Count(OrEmpty(categories), OfService(ParseIntText(serviceId)))
    {
      r := CategoriesOfService(OrEmpty(categories), ParseIntText(serviceId));
    }

    /** `POST /admin/categories`. */
    method CreateCategory(body: map<string, Value>) returns (r: Category)
      modifies this`categories
      ensures r == NewCategory(OrEmpty(old(categories)), body)
      ensures categories == Some(OrEmpty(old(categories)) + [r])
      ensures FindIndex(categories.value, CategoryId, Some(r.id)) == |OrEmpty(old(categories))|
      ensures UniqueIds(OrEmpty(old(categories)), CategoryId) ==> UniqueIds(OrEmpty(categories), CategoryId)
    {
      var cs := OrEmpty(categories);
      r := NewCategory(cs, body);
      categories := Some(cs + [r]);
      AppendNextThenFind(cs, CategoryId, r);
      if UniqueIds(cs, CategoryId) {
        NextIdKeepsUnique(cs, CategoryId, r);
      }
    }

    /** `PUT /admin/categories/:id`: 404 "Categories not found" or "Category not found"; otherwise
        the category is replaced by its update. */
    method UpdateCategory(id: string, body: map<string, Value>) returns (r: Reply<Category>)
      modifies this`categories
      ensures (r, categories) == UpdateById(old(categories), CategoryId, ParseIntText(id), CategoryUpdate(body),
                                            "Categories not found", "Category not found")
    {
      var next := UpdateById(categories, CategoryId, ParseIntText(id), CategoryUpdate(body), "Categories not found", "Category not found");
      r, categories := next.0, next.1;
    }

    /** `DELETE /admin/categories/:id`: 404 without a document; otherwise the categories of that id
        are dropped and the route succeeds. */
    method DeleteCategory(id: string) returns (r: Reply<string>)
      modifies this`categories
      ensures (r, categories) == DeleteById(old(categories), CategoryId, ParseIntText(id), "Categories not found", "Category deleted")
    {
      var next := DeleteById(categories, CategoryId, ParseIntText(id), "Categories not found", "Category deleted");
      r, categories := next.0, next.1;
    }

    // ---------------------------------------------------------------- testimonials

    /** `GET /api/testimonials`: the stored list, or none while the file is absent. */
    method Testimonials() returns (r: seq<Value>)
      ensures r == OrEmpty(testimonials)
    {
      r := OrEmpty(testimonials);
    }
  }

  /** `p.serviceId === parseInt(param)`. */
  predicate HasService(p: PortfolioItem, param: Option<int>) {
    param.Some? && p.serviceId == param
  }
}
