# Portfolio site: record store and page logic

This project is a Dafny model of a designer's portfolio web site with three parts:

- an Express back end that keeps its data in JSON files, one per collection (portfolio items, services, categories, contacts, the resume, testimonials) plus uploaded files;
- an admin panel in React that edits the data;
- a public React site that shows it.

The back end is modelled as the class `Store.Store`.
- Each JSON document is a field of type `Option<...>`. `None` means the file does not exist yet.
- Uploaded files are a set of their `/uploads/...` paths.
- Every route is a method. Its `modifies` clause names the documents the route writes.
- Its `ensures` ties the new state to a rule function of the old state. Those functions live in `Records`, `PortfolioRules`, `CatalogRules`, `ContactRules` and `ResumeRules`, and the proofs are stated about them:
  - ids stay unique;
  - an update finds and keeps the record it changed;
  - a delete leaves no record with that id;
  - upload, download and delete of the resume PDF agree.
- `Seeds` holds the default documents that the read routes write when a file is absent.
- `Auth` models the bearer-token check that guards the admin routes.

The admin pages and the public components become pure functions over the page state, with lemmas that relate them to the server's rules. Examples:
- the edit form of a service, saved untouched, stores the service unchanged;
- toggling a contact's read flag moves the unread badge by exactly one;
- the category grouping shows exactly the categories of listed services.

Two parts are imperative in the source and are imperative here:
- The testimonial carousel is the class `Testimonials.Carousel`, with the slide index and the direction as fields.
- `handleSubmit` of the portfolio page is the method `PortfolioForm.BuildRequest`, which appends entries to a multipart request in a loop.

Shared helpers cover JavaScript semantics:
- `JsValues`: JSON values, truthiness and `parseInt`;
- `Text`: the `\s` class, `trim`, one-character `split`, `join`, ASCII lower-casing and slugs;
- `Lists`: filters, sub-sequences and a stable sort by an integer key, with sortedness, permutation and stability proved.

Three behaviours of the stored documents follow from the code as written:
- Deleting an id that is not stored answers success, not 404, once the document exists (`Records.DeleteById`).
- Ids are `max + 1`. Deleting the record with the largest id therefore lets the next create reuse that id; they are not monotonic across deletions (`Records.NextIdReusesDeletedMaximum`).
- Contacts are numbered `count + 1`. No route deletes a contact, so this numbering stays unique (`ContactRules.NewContactKeepsNumbered`).

## Model

| member | source | states |
|---|---|---|
| Auth.Authenticate | backend/routes/admin.js:41-56 | no token after the scheme gives 401 "Access token required"; a token the verifier rejects gives 403, and only then; success carries a non-empty, verified token |
| Auth.BearerRoundTrip | backend/routes/admin.js:42-43 | a header `scheme token` with a valid token is accepted with exactly that token |
| Records.MaxId | backend/routes/admin.js:125 | the result is the id of some record and no record has a larger id |
| Records.NextId | backend/routes/admin.js:125 | the new id is larger than every stored id, 1 for an empty collection, and otherwise one past the largest stored id |
| Records.NextIdKeepsUnique | backend/routes/admin.js:124-137 | appending a record numbered by `NextId` keeps ids unique |
| Records.FindIndex | backend/routes/admin.js:155 | `findIndex`: the first position whose id equals the parsed parameter, or -1 when none does |
| Records.RemoveIdSpec | backend/routes/admin.js:230 | the filter keeps exactly the records of another id, in order, each as many times as it was stored, and keeps everything when the id is absent |
| Records.FilterKeepsUnique | backend/routes/admin.js:230 | filtering a collection keeps its ids unique |
| Records.RemoveIdKeepsUnique | backend/routes/admin.js:230 | a delete keeps ids unique |
| Records.ReplaceKeepsUnique | backend/routes/admin.js:198-211 | replacing a record by one with the same id keeps ids unique |
| Records.RemoveIdThenFind | backend/routes/admin.js:222-237 | after a delete no record with that id is found |
| Records.ReplaceThenFind | backend/routes/admin.js:198-211 | after an update the record is found at the same position |
| Records.AppendNextThenFind | backend/routes/admin.js:124-137 | a created record is found by its id at the end of the collection |
| Records.UpdateById | backend/routes/admin.js:469-494 | 404 without a document or without the id; otherwise only the found record is replaced by the update's result; ids, length and their uniqueness are kept |
| Records.DeleteById | backend/routes/admin.js:496-510 | 404 without a document; otherwise success with every other record kept in order and with its multiplicity, and none of that id left |
| Records.NextIdReusesDeletedMaximum | backend/routes/admin.js:125 | deleting the record just created lets the next create hand out its id again |
| PortfolioRules.Strs | backend/routes/admin.js:113-121 | the upload paths as JSON strings, position by position |
| PortfolioRules.SplitUploads | backend/routes/admin.js:109-122 | with the cover flag the first upload is the cover and the rest the gallery; without it all go to the gallery; no upload is lost or reordered |
| PortfolioRules.NewPortfolioItem | backend/routes/admin.js:96-145 | a body whose JSON fields do not parse gives 500; the new item takes a numeric `id` of the body as it is and otherwise the next id, the placeholder exactly when no cover is uploaded, `image` equal to the cover, `featured` only for `true`/"true", and keeps unknown body keys |
| PortfolioRules.BodyIdDuplicates | backend/routes/admin.js:124-126 | a body naming the id of a stored item creates a second item with that id, so ids are no longer unique |
| PortfolioRules.CreateImages | backend/routes/admin.js:109-135 | the created item's cover and gallery are exactly the uploaded paths, split by the cover flag |
| PortfolioRules.UpdatedImages | backend/routes/admin.js:161-196 | a new cover upload replaces the cover; otherwise the retained cover is kept; without uploads the retained cover and gallery are kept, and new gallery uploads are appended after the retained gallery |
| PortfolioRules.MergedExtras | backend/routes/admin.js:200-201 | the stored keys the item does not type are kept unless the body sets them, the body's own untyped keys win, and no typed key is carried among them |
| PortfolioRules.UpdatedPortfolioItem | backend/routes/admin.js:147-220 | the merged item keeps its id and old service and category when the body leaves them empty, drops tags and tools absent from the body, keeps old unknown keys and takes new ones; well-formedness is preserved |
| PortfolioRules.PortfolioUpdate | backend/routes/admin.js:199-211 | the update applied by the route never changes an item's id |
| PortfolioRules.ByService | backend/routes/api.js:212-225 | exactly the stored items of that service, in stored order |
| PortfolioRules.ByServiceAndCategory | backend/routes/api.js:228-243 | exactly the items of that service and category, in stored order |
| CatalogRules.NewService | backend/routes/admin.js:447-467 | fails only when the body has neither slug nor string name; the new id is fresh; the slug is derived from the name when none is given; a missing order becomes one past the count |
| CatalogRules.UpdatedService | backend/routes/admin.js:482-487 | keeps the id, takes the body's name and order when present, keeps the old slug for an empty one, and keeps old unknown keys |
| CatalogRules.ServiceUpdate | backend/routes/admin.js:469-494 | the service update never fails and never changes the id |
| CatalogRules.NewCategory | backend/routes/admin.js:556-576 | a fresh id; the parsed service id; a missing order becomes one past the count of categories of the same service |
| CatalogRules.CategoryOrderPerService | backend/routes/admin.js:567 | a category of another service does not change the default order of a new category |
| CatalogRules.UpdatedCategory | backend/routes/admin.js:591-596 | keeps the id, replaces the service only by a non-empty parsed one, and keeps name, order and unknown keys the body does not give |
| CatalogRules.CategoryUpdate | backend/routes/admin.js:578-603 | the category update never fails and never changes the id |
| CatalogRules.CategoriesOfService | backend/routes/admin.js:542-554 | exactly the categories of that service, in stored order, as many as the count |
| CatalogRules.FindBySlug | backend/routes/api.js:161-178 | none exactly when no service has the slug; otherwise the first service with it |
| ContactRules.NewContact | backend/routes/api.js:246-270 | 400 "Missing required fields" exactly when name, email, subject or message is falsy; otherwise id `count + 1`, unread, the given fields and `''` for a missing phone |
| ContactRules.NewContactKeepsNumbered | backend/routes/api.js:261-273 | contacts numbered 1..n stay numbered 1..n+1 after a submission, so their ids stay unique |
| ContactRules.SetRead | backend/routes/admin.js:384 | only `read` changes: to the body's value when given, otherwise toggled |
| ContactRules.ReadUpdate | backend/routes/admin.js:370-391 | marking a contact read never changes its id |
| ContactRules.ToggleTwice | backend/routes/admin.js:384 | toggling twice gives back the read state |
| ContactRules.UnreadCount | backend/routes/admin.js:394-422 | the unread count is at most the number of contacts |
| ContactRules.UnreadCountAppend | backend/routes/admin.js:394-422 | the unread count of two lists is the sum of their counts |
| ContactRules.ToggleChangesUnreadCount | backend/routes/admin.js:384 | a toggle moves the unread count by exactly one |
| ContactRules.MarkRead | backend/routes/admin.js:370-391 | 404s as for any update; otherwise only the found contact's read flag changes, and 1..n numbering is kept |
| ContactRules.NewestFirstSpec | backend/routes/admin.js:359 | the listing is a permutation of the contacts sorted by descending date; contacts of equal date keep their stored order |
| ContactRules.NoUnread | admin-panel/src/pages/ContactManagement.jsx:69 | the unread count is 0 exactly when no contact is unread |
| ContactRules.Dashboard | backend/routes/admin.js:394-422 | the counts of the two documents (0 when absent) and the number of contacts whose `read` is falsy, which is at most the contact count and 0 exactly when none is unread |
| ResumeRules.UploadPdf | backend/routes/admin.js:265-318 | upload errors and a missing file give 500/400 and change nothing; a non-PDF gives 400; success stores the new path as `cvFile`, keeps every other resume key and deletes the previous file |
| ResumeRules.DeletePdf | backend/routes/admin.js:321-350 | 404 without a resume or without a `cvFile`; otherwise `cvFile` becomes null and its file is removed |
| ResumeRules.DownloadPath | backend/routes/api.js:88-121 | succeeds exactly when `cvFile` names a file that exists, and answers that file |
| ResumeRules.UploadThenDownload | backend/routes/admin.js:306-307 | after an upload, download answers the uploaded file |
| ResumeRules.UploadThenDelete | backend/routes/admin.js:321-343 | an uploaded PDF can be deleted, which removes its file |
| ResumeRules.DeleteThenDownload | backend/routes/api.js:92-106 | after a delete, download answers 404 "No resume PDF available" |
| Seeds.SeedIds | backend/routes/admin.js:434-438 | the seeded services and categories are numbered 1..n, and every seeded category names a seeded service |
| Seeds.SeedPortfolioUnlisted | backend/routes/api.js:21-35 | the seeded portfolio item belongs to no service, and it is well formed |
| Store.Store.constructor | backend/routes/admin.js:9 | a fresh data directory has no documents and no uploads |
| Store.Store.AdminPortfolio | backend/routes/admin.js:82-94 | the stored items, none while the file is absent |
| Store.Store.CreatePortfolio | backend/routes/admin.js:96-145 | the uploads are kept; on success the new item is appended, and when the body names no numeric id it is found at the end and ids stay unique, while a numeric body id that is already stored breaks uniqueness; on failure the list is unchanged |
| Store.Store.UpdatePortfolio | backend/routes/admin.js:147-220 | the list becomes what `UpdateById` makes of it with the portfolio merge |
| Store.Store.DeletePortfolio | backend/routes/admin.js:222-237 | the list becomes what `DeleteById` makes of it |
| Store.Store.PublicPortfolio | backend/routes/api.js:13-40 | the stored items; an absent file is seeded and the seed returned |
| Store.Store.PortfolioById | backend/routes/api.js:43-60 | the first item with that id; 404 exactly when there is none |
| Store.Store.PortfolioByService | backend/routes/api.js:212-225 | the items of that service |
| Store.Store.PortfolioByServiceAndCategory | backend/routes/api.js:228-243 | the items of that service and category |
| Store.Store.AdminResume | backend/routes/admin.js:240-252 | the stored resume, or an empty object |
| Store.Store.PutResume | backend/routes/admin.js:254-262 | the body replaces the resume |
| Store.Store.PublicResume | backend/routes/api.js:63-85 | the stored resume; an absent file is seeded with the default resume |
| Store.Store.UploadResumePdf | backend/routes/admin.js:265-318 | resume and files become what `UploadPdf` gives, and success leaves `cvFile` naming the answered path |
| Store.Store.DeleteResumePdf | backend/routes/admin.js:321-350 | resume and files become what `DeletePdf` gives, after which download answers 404 |
| Store.Store.DownloadResume | backend/routes/api.js:88-121 | the answered path is the stored `cvFile` and an existing file |
| Store.Store.SubmitContact | backend/routes/api.js:246-286 | a 400 leaves the inbox alone; otherwise the contact is appended and the numbering is kept |
| Store.Store.ListContacts | backend/routes/admin.js:353-367 | all contacts, newest first |
| Store.Store.MarkContactRead | backend/routes/admin.js:370-391 | the contacts become what `MarkRead` gives |
| Store.Store.DashboardStats | backend/routes/admin.js:394-422 | the stored item and contact counts and the number of unread contacts, at most the contact count |
| Store.Store.ListServices | backend/routes/admin.js:427-445 | the stored services; an absent file is seeded with the three default services |
| Store.Store.ServiceBySlug | backend/routes/api.js:161-178 | the first service with that slug, 404 otherwise |
| Store.Store.CreateService | backend/routes/admin.js:447-467 | on success the new service is appended and ids stay unique; on failure nothing changes |
| Store.Store.UpdateService | backend/routes/admin.js:469-494 | the services become what `UpdateById` makes of them with the service merge |
| Store.Store.DeleteService | backend/routes/admin.js:496-510 | the services become what `DeleteById` makes of them; categories and items that named the service are left as they are |
| Store.Store.AdminCategories | backend/routes/admin.js:515-540 | the stored categories; an absent file is seeded with the ten default categories |
| Store.Store.PublicCategories | backend/routes/api.js:181-193 | the stored categories, none while the file is absent, with nothing written |
| Store.Store.CategoriesByService | backend/routes/admin.js:542-554 | the categories of that service |
| Store.Store.CreateCategory | backend/routes/admin.js:556-576 | the new category is appended and ids stay unique |
| Store.Store.UpdateCategory | backend/routes/admin.js:578-603 | the categories become what `UpdateById` makes of them with the category merge |
| Store.Store.DeleteCategory | backend/routes/admin.js:605-619 | the categories become what `DeleteById` makes of them |
| Store.Store.Testimonials | backend/routes/api.js:124-136 | the stored testimonials, none while the file is absent |
| Text.Trim | frontend/src/components/Resume/ResumeSummary.jsx:29 | the trimmed string has no white space at either end |
| Text.TrimIsSlice | frontend/src/components/Resume/ResumeSummary.jsx:29 | `trim` keeps the slice between leading and trailing white space |
| Text.Split | admin-panel/src/pages/PortfolioManagement.jsx:140-141 | `split` on one character: never empty, and no piece holds the separator |
| Text.JoinSplit | admin-panel/src/pages/PortfolioManagement.jsx:210-211 | joining the pieces of a split with the separator gives the string back |
| Text.SplitJoin | admin-panel/src/pages/ResumeManagement.jsx:333 | splitting the join of separator-free pieces gives the pieces back |
| Text.SlugifyIdempotent | backend/routes/admin.js:457 | a derived slug is lower-case and free of white space, and deriving a slug from it changes nothing |
| Text.ReplaceSpaceRuns | backend/routes/admin.js:457 | `replace(/\s+/g, '-')` leaves no white space |
| Lists.RemoveAt | admin-panel/src/pages/ResumeManagement.jsx:93 | `filter((_, i) => i !== index)` drops the element at the index and nothing else, and is the identity for an index out of range |
| Lists.FirstWhere | backend/routes/api.js:166 | `find`/`findIndex`: the first position satisfying the test, or -1 when none does |
| ResumeSummary.FirstBreak | frontend/src/components/Resume/ResumeSummary.jsx:16 | the first position from which the separator matches, or the end |
| JsValues.Get | backend/routes/admin.js:126 | a key of the body reads as its value and any other key as `undefined` |
| JsValues.NumberText | admin-panel/src/pages/ServicesManagement.jsx:28 | `Number(s)`: blank text is 0, and where the result is a number `parseInt` reads the same number from the trimmed text |
| JsValues.NumberTextOfIntToString | admin-panel/src/pages/ServicesManagement.jsx:28 | `Number(String(n))` is `n`, so subtraction treats a number and its text alike |
| JsValues.ParseIntOfIntToString | admin-panel/src/pages/PortfolioManagement.jsx:206-207 | `parseInt(String(n))` is `n` |
| Lists.SortByIsSorted | admin-panel/src/pages/ServicesManagement.jsx:28 | the sort by order key yields ascending keys |
| Lists.SortByPermutes | admin-panel/src/pages/ServicesManagement.jsx:28 | the sort is a permutation |
| Lists.SortByStable | admin-panel/src/pages/ServicesManagement.jsx:28 | records of equal key keep their relative order |
| PortfolioForm.CleanPieces | admin-panel/src/pages/PortfolioManagement.jsx:140-141 | the trimmed pieces, with those that trim to nothing dropped |
| PortfolioForm.ListOfText | admin-panel/src/pages/PortfolioManagement.jsx:140-141 | the tag and tool list: no entry is empty, untrimmed or holds a comma |
| PortfolioForm.JoinThenList | admin-panel/src/pages/PortfolioManagement.jsx:210-211 | a clean list joined with `', '` on edit reads back as the same list on submit |
| PortfolioForm.ListOfTextStable | admin-panel/src/pages/PortfolioManagement.jsx:140-141 | reading a list back from its own joined text changes nothing |
| PortfolioForm.CategoryOptions | admin-panel/src/pages/PortfolioManagement.jsx:38-52 | the categories of the selected service, none while no service is selected |
| PortfolioForm.CategoryAfterChange | admin-panel/src/pages/PortfolioManagement.jsx:43-47 | the category is cleared exactly when it is unknown or belongs to another service |
| PortfolioForm.KeptCategoryIsOffered | admin-panel/src/pages/PortfolioManagement.jsx:38-52 | a category kept while a service is selected is among the options |
| PortfolioForm.IdText | admin-panel/src/pages/PortfolioManagement.jsx:206-207 | a missing or zero id shows as `''`, any other id as text that `parseInt` reads back as that id |
| PortfolioForm.EditForm | admin-panel/src/pages/PortfolioManagement.jsx:202-215 | the form shows the item's fields, ids as text, lists joined with `', '`, and the current year when it has none |
| PortfolioForm.EditCover | admin-panel/src/pages/PortfolioManagement.jsx:218-224 | the cover is `coverImage`, then `image`, then none |
| PortfolioForm.EditGallery | admin-panel/src/pages/PortfolioManagement.jsx:227-231 | the stored gallery when it is an array, otherwise empty |
| PortfolioForm.EditThenListTags | admin-panel/src/pages/PortfolioManagement.jsx:210 | stored clean tags survive the edit form and the split on submit |
| PortfolioForm.EditKeepsCategory | admin-panel/src/pages/PortfolioManagement.jsx:43-47 | a stored item's category survives the edit form and the category reset when it belongs to the item's service |
| PortfolioForm.AddFiles | admin-panel/src/pages/PortfolioManagement.jsx:108-111 | the chosen files are appended after the earlier ones |
| PortfolioForm.RemoveAddedFile | admin-panel/src/pages/PortfolioManagement.jsx:118-120 | removing the file just added gives the earlier list back |
| PortfolioForm.BuildRequest | admin-panel/src/pages/PortfolioManagement.jsx:126-163 | the request built entry by entry equals the intended submission: the fields, the retained images when editing, the cover with its flag, then every gallery file in order |
| PortfolioForm.SubmissionUploads | admin-panel/src/pages/PortfolioManagement.jsx:155-163 | the server reads the new cover (and only it) as the cover and the other files as the gallery, in order |
| PortfolioForm.EditThenSubmitKeepsImages | admin-panel/src/pages/PortfolioManagement.jsx:147-152 | editing an item and submitting without touching images leaves its cover and gallery as stored |
| PortfolioForm.SubmitThenCreate | admin-panel/src/pages/PortfolioManagement.jsx:126-200 | a new item is created with the cover, gallery and tags the form showed |
| ResumeEditor.AddItem | admin-panel/src/pages/ResumeManagement.jsx:77-90 | the section's template is appended and every other key kept; a section that is no array fails |
| ResumeEditor.DeleteItem | admin-panel/src/pages/ResumeManagement.jsx:92-95 | the entry at the index is dropped, the others kept in order; an index out of range changes nothing |
| ResumeEditor.AddThenDelete | admin-panel/src/pages/ResumeManagement.jsx:77-95 | deleting the entry just added gives the resume back |
| ResumeEditor.WithField | admin-panel/src/pages/ResumeManagement.jsx:70 | the field takes the value and every other field of the entry is kept |
| ResumeEditor.InputChange | admin-panel/src/pages/ResumeManagement.jsx:67-75 | with an index inside the section, only that entry's field changes; past the end, the entry is written in a new slot after null holes; a negative index changes nothing; without an index, the section gets the field; other keys are kept; a section that is no array fails only when an index is given |
| ResumeEditor.SetSlot | admin-panel/src/pages/ResumeManagement.jsx:69-70 | `updated[index] = entry` on a copied array: the slot is replaced in range, the array grows with null holes past the end, and a negative index adds no element |
| ResumeEditor.SetSlotThenRead | admin-panel/src/pages/ResumeManagement.jsx:69-70 | after the write the slot holds the entry and every other position keeps its value |
| ResumeEditor.Lines | admin-panel/src/pages/ResumeManagement.jsx:100 | the lines of the text area, none empty or spanning lines |
| ResumeEditor.LinesOfJoin | admin-panel/src/pages/ResumeManagement.jsx:333 | responsibilities shown joined by newlines read back as the same list |
| ResumeEditor.ArrayFieldChange | admin-panel/src/pages/ResumeManagement.jsx:97-105 | only the given field of the given entry changes, the responsibilities text becoming its list of lines; past the end, another field is written in a new slot after null holes; a negative index changes nothing; responsibilities assigned to an array entry leave the resume as it is; a section that is no array, non-text responsibilities, or responsibilities for an entry that is missing, null or a primitive fail |
| ResumeEditor.LevelInput | admin-panel/src/pages/ResumeManagement.jsx:368 | the parsed level, 0 for text that does not parse |
| ResumeEditor.LevelOfDigits | admin-panel/src/pages/ResumeManagement.jsx:368 | a level typed as its digits reads back as that level |
| ResumeEditor.CheckPdf | admin-panel/src/pages/ResumeManagement.jsx:107-123 | a file is sent exactly when it is a PDF of at most 10 MiB; other types get "Only PDF files are allowed" |
| ResumeEditor.SizeBoundary | admin-panel/src/pages/ResumeManagement.jsx:118-123 | exactly 10 MiB is sent, one byte more is refused |
| ResumeEditor.UploadAgrees | admin-panel/src/pages/ResumeManagement.jsx:144 | a file the page sends is never refused for its type, and after an upload the page's `cvFile` equals the store's |
| ResumeEditor.DeleteAgrees | admin-panel/src/pages/ResumeManagement.jsx:161-176 | after a delete the page and the store both hold a null `cvFile` |
| ContactInbox.ToggleList | admin-panel/src/pages/ContactManagement.jsx:41-45 | contacts with the id get the flipped flag, the others are unchanged |
| ContactInbox.ToggleMatchesServer | admin-panel/src/pages/ContactManagement.jsx:30-45 | the local list after a toggle is the list the server stores |
| ContactInbox.ToggleMovesUnreadCount | admin-panel/src/pages/ContactManagement.jsx:69 | a toggle moves the unread badge by one, down for an unread contact |
| ContactInbox.ToggleRead | admin-panel/src/pages/ContactManagement.jsx:30-53 | a failed request changes nothing; otherwise the list is toggled and the modal's contact only when the captured selection has that id |
| ContactInbox.ViewAsWritten | admin-panel/src/pages/ContactManagement.jsx:55-62 | the modal opens on the contact; an already read contact leaves the list alone; an unread one is toggled by a handler that sees the old selection |
| ContactInbox.ViewLeavesModalStale | admin-panel/src/pages/ContactManagement.jsx:47-62 | with the modal closed, viewing an unread contact marks it read in the list while the modal still shows it unread |
| ContactInbox.ViewMessage | admin-panel/src/pages/ContactManagement.jsx:55-62 | the modal opens on the contact, shown read once an unread one was marked read, unchanged when the request fails |
| ContactInbox.ViewAgreesWithList | admin-panel/src/pages/ContactManagement.jsx:41-62 | after viewing a listed contact, the modal shows exactly the contact the list holds, and it is read |
| ContactInbox.CloseModal | admin-panel/src/pages/ContactManagement.jsx:64-67 | the modal is closed and nothing is selected |
| ContactInbox.UnreadBadge | admin-panel/src/pages/ContactManagement.jsx:80-84 | shown exactly when some contact is unread, with the count and the plural for counts other than 1 |
| ContactInbox.Preview | admin-panel/src/pages/ContactManagement.jsx:142-144 | a message over 150 characters is cut to its first 150 plus `...`; a shorter one is shown whole |
| ServicesForm.OrderInput | admin-panel/src/pages/ServicesManagement.jsx:41 | the parsed order, 1 for text that does not parse or parses to 0 |
| ServicesForm.OrderOfDigits | admin-panel/src/pages/ServicesManagement.jsx:41 | a non-zero order typed as its digits reads back as that order |
| ServicesForm.InputAsWritten | admin-panel/src/pages/ServicesManagement.jsx:37-44 | typing the name sets it and derives the slug; typing the order sets the parsed order; typing the slug changes nothing |
| ServicesForm.SlugInputIgnored | admin-panel/src/pages/ServicesManagement.jsx:42 | an empty slug stays empty while `web-design` is typed into the slug input |
| ServicesForm.Input | admin-panel/src/pages/ServicesManagement.jsx:37-44 | only the typed field changes, except that typing the name also derives the slug |
| ServicesForm.SlugInputAfterName | admin-panel/src/pages/ServicesManagement.jsx:37-44 | a slug typed after the name is kept; a derived slug is lower-case, free of white space and unchanged by deriving again |
| ServicesForm.CreateKeepsShownSlug | admin-panel/src/pages/ServicesManagement.jsx:37-44 | a service created after typing its name stores the slug the form showed, which is the server's own derivation |
| ServicesForm.EditForm | admin-panel/src/pages/ServicesManagement.jsx:71-79 | the form shows the service's fields, `''` for a missing name or slug and 1 for a missing order |
| ServicesForm.EditUntouchedKeepsService | admin-panel/src/pages/ServicesManagement.jsx:71-79 | saving the edit form untouched stores the service unchanged |
| ServicesForm.ResetForm | admin-panel/src/pages/ServicesManagement.jsx:64 | empty name and slug, order one past the listed services |
| ServicesForm.ResetAfterCreateRepeatsOrder | admin-panel/src/pages/ServicesManagement.jsx:64 | the order proposed after a create is the order the server just gave by default |
| ServicesForm.OrderOfText | admin-panel/src/pages/ServicesManagement.jsx:28 | an order stored as its text sorts where the same number does; a missing or blank order sorts as 0 |
| ServicesForm.ServicesByOrderSpec | admin-panel/src/pages/ServicesManagement.jsx:28 | the listing is a permutation of the services by ascending order, stable for equal orders |
| CategoriesView.NumberOrBlank | admin-panel/src/pages/CategoriesManagement.jsx:55 | a non-zero parsed number, or `''` exactly when the text does not parse or parses to 0 |
| CategoriesView.CategoryInput | admin-panel/src/pages/CategoriesManagement.jsx:51-57 | only the typed field changes, parsed for the order and the service |
| CategoriesView.ResetCategoryForm | admin-panel/src/pages/CategoriesManagement.jsx:77 | empty name and service, order 1 |
| CategoriesView.CreateFromForm | admin-panel/src/pages/CategoriesManagement.jsx:51-57 | a chosen service reaches the server as its id, and a blank order lets the server number the category within its service |
| CategoriesView.ServiceIdOrBlank | admin-panel/src/pages/CategoriesManagement.jsx:88 | the service id, `''` when missing or 0 |
| CategoriesView.EditCategoryForm | admin-panel/src/pages/CategoriesManagement.jsx:84-92 | the form shows the category's fields, with 1 for a missing order |
| CategoriesView.EditUntouchedKeepsCategory | admin-panel/src/pages/CategoriesManagement.jsx:84-92 | saving the edit form untouched stores the category unchanged |
| CategoriesView.ServiceName | admin-panel/src/pages/CategoriesManagement.jsx:115-118 | the name of the first service with the id, `'Unknown'` when none has it |
| CategoriesView.ServiceNameOfListed | admin-panel/src/pages/CategoriesManagement.jsx:115-118 | with unique ids, a service's id looks up its own name |
| CategoriesView.GroupOfSpec | admin-panel/src/pages/CategoriesManagement.jsx:141-146 | a service's section, when it has one, holds a non-empty, order-sorted permutation of exactly that service's categories |
| CategoriesView.GroupsSpec | admin-panel/src/pages/CategoriesManagement.jsx:141-146 | each section belongs to a listed service and holds a non-empty permutation of that service's categories, sorted by order |
| CategoriesView.GroupsShow | admin-panel/src/pages/CategoriesManagement.jsx:141-146 | a category is shown exactly when its service is listed |
| ImageUrls.CoverOf | frontend/src/components/Portfolio/ProjectModal.jsx:26 | `coverImage` when truthy, else `image` |
| ImageUrls.Resolve | frontend/src/components/Portfolio/PortfolioGrid.jsx:25-40 | no image exactly for a falsy value or the placeholder, an error exactly for a truthy non-string, an `http` URL unchanged, any other path behind the prefix |
| ImageUrls.ProjectImageOfUpload | frontend/src/components/Portfolio/ProjectModal.jsx:16-24 | an uploaded cover is fetched from the back end's `/uploads/` route |
| ImageUrls.ProjectImageCases | frontend/src/components/Portfolio/ProjectModal.jsx:16-24 | a placeholder cover shows no image; an absolute URL is used as it is |
| PortfolioGrid.Cards | frontend/src/components/Portfolio/PortfolioGrid.jsx:49-84 | one card per project, in order, keyed by id, with the project's resolved image |
| PortfolioGrid.CardKeysUnique | frontend/src/components/Portfolio/PortfolioGrid.jsx:55 | unique ids give unique card keys |
| PortfolioGrid.PlaceholderCards | frontend/src/components/Portfolio/PortfolioGrid.jsx:61-73 | a project without a usable image shows its title placeholder |
| FeaturedProjects.FeaturedSelection | frontend/src/components/Home/FeaturedProjects.jsx:22-24 | at most three featured projects, in stored order, as many as there are up to three |
| FeaturedProjects.SelectionIsFirstFeatured | frontend/src/components/Home/FeaturedProjects.jsx:22-24 | the selection is a prefix of the featured projects, and a featured project with fewer than three before it is shown |
| FeaturedProjects.FeaturedDoublePrefix | frontend/src/components/Home/FeaturedProjects.jsx:47-52 | the stored cover `/uploads/a.png` resolves to `/uploads//uploads/a.png`, not to its own path |
| FeaturedProjects.FeaturedImage | frontend/src/components/Home/FeaturedProjects.jsx:38-53 | the home page resolves images like the grid, so an upload is fetched from the back end's `/uploads/` route |
| PortfolioPage.DistinctFromSpec | frontend/src/pages/PortfolioPage.jsx:35 | `new Set` keeps each value once, in first-appearance order, and no value already seen |
| PortfolioPage.DistinctFromAfter | frontend/src/pages/PortfolioPage.jsx:35 | first appearances of a concatenation are those of the first part, then the new values of the second |
| PortfolioPage.DistinctIsFirstAppearances | frontend/src/pages/PortfolioPage.jsx:35 | deduplicating from scratch gives the first appearances |
| PortfolioPage.Categories | frontend/src/pages/PortfolioPage.jsx:35 | each project's category, in order |
| PortfolioPage.FilterOptions | frontend/src/pages/PortfolioPage.jsx:35 | `All` first, then every project category exactly once, in first-appearance order |
| PortfolioPage.Filtered | frontend/src/pages/PortfolioPage.jsx:37-40 | `All` shows every project; another filter exactly the projects of that category, in order |
| PortfolioPage.OptionsSelectSomething | frontend/src/pages/PortfolioPage.jsx:35-40 | every offered filter shows at least one project |
| ServicePage.AllCategories | frontend/src/pages/ServicePage.jsx:52 | `All` then each category's name, in order |
| ServicePage.ShowFilterBar | frontend/src/pages/ServicePage.jsx:119 | the filter bar shows exactly when the service has categories |
| ServicePage.CategoryOfProject | frontend/src/pages/ServicePage.jsx:57 | the first category with the project's category id, none exactly when no category has it |
| ServicePage.ServiceFiltered | frontend/src/pages/ServicePage.jsx:54-60 | `All` shows every project; a name shows the projects whose category carries that name |
| ServicePage.DanglingOnlyUnderAll | frontend/src/pages/ServicePage.jsx:54-60 | a project whose category is gone shows only under `All` |
| ServicePage.ShownUnderName | frontend/src/pages/ServicePage.jsx:54-60 | with unique category ids, a project shows under a name exactly when its category has that name |
| ProjectModal.NextImage | frontend/src/components/Portfolio/ProjectModal.jsx:36-40 | the next gallery index stays in range and wraps from the last to the first |
| ProjectModal.PrevImage | frontend/src/components/Portfolio/ProjectModal.jsx:30-34 | the previous gallery index stays in range and wraps from the first to the last |
| ProjectModal.PrevUndoesNext | frontend/src/components/Portfolio/ProjectModal.jsx:30-40 | previous and next undo each other |
| ProjectModal.JsRem | frontend/src/components/Portfolio/ProjectModal.jsx:13-14 | JavaScript's `%` truncates, so the remainder may be negative but stays below the divisor in size |
| ProjectModal.NextProjectIndex | frontend/src/components/Portfolio/ProjectModal.jsx:13 | a valid index for a non-empty list, none for an empty one |
| ProjectModal.PrevProjectIndex | frontend/src/components/Portfolio/ProjectModal.jsx:14 | a valid index for a non-empty list, none for an empty one |
| ProjectModal.IndexOfListed | frontend/src/components/Portfolio/ProjectModal.jsx:12 | with unique ids, a listed project is found at its own position |
| ProjectModal.NeighboursOfListed | frontend/src/components/Portfolio/ProjectModal.jsx:12-14 | a listed project's neighbours are the cyclically adjacent ones, and the previous of the next is itself |
| ProjectModal.NextOfMissing | frontend/src/components/Portfolio/ProjectModal.jsx:12-13 | for a project not in the list the next one is the first |
| Testimonials.Forward | frontend/src/components/Home/Testimonials.jsx:70 | the next slide stays in range and wraps from the last to the first |
| Testimonials.Back | frontend/src/components/Home/Testimonials.jsx:72 | the previous slide stays in range and wraps from the first to the last |
| Testimonials.BackUndoesForward | frontend/src/components/Home/Testimonials.jsx:67-74 | going back undoes going forward |
| Testimonials.StepsWrap | frontend/src/components/Home/Testimonials.jsx:34-43 | k autoplay steps from slide i reach slide (i + k) mod n |
| Testimonials.FullCycle | frontend/src/components/Home/Testimonials.jsx:34-43 | n autoplay steps come back to the starting slide |
| Testimonials.EverySlideReached | frontend/src/components/Home/Testimonials.jsx:34-43 | autoplay reaches every slide within fewer than n steps |
| Testimonials.Carousel.constructor | frontend/src/components/Home/Testimonials.jsx:12-16 | the carousel starts at slide 0 with no testimonials and no direction |
| Testimonials.Carousel.Load | frontend/src/components/Home/Testimonials.jsx:18-31 | the fetched testimonials are counted while the first slide is shown |
| Testimonials.Carousel.Paginate | frontend/src/components/Home/Testimonials.jsx:67-74 | the direction is recorded and the index moves forward for 1 and back otherwise, staying in range |
| Testimonials.Carousel.Tick | frontend/src/components/Home/Testimonials.jsx:34-43 | with more than one testimonial, a tick moves forward with direction 1 |
| Testimonials.Carousel.GoToSlide | frontend/src/components/Home/Testimonials.jsx:76-79 | the index becomes the target, with direction 1 when it is ahead of the old index and -1 otherwise |
| ResumeSummary.RunEnd | frontend/src/components/Resume/ResumeSummary.jsx:16 | the end of the white-space run after a position |
| ResumeSummary.Pieces | frontend/src/components/Resume/ResumeSummary.jsx:16 | the split by `/(?<=\.)\s+(?=[A-Z])/` gives at least one piece |
| ResumeSummary.PiecesRejoin | frontend/src/components/Resume/ResumeSummary.jsx:16 | interleaving the pieces with the white space that was removed gives the summary back |
| ResumeSummary.PiecesEndWithStop | frontend/src/components/Resume/ResumeSummary.jsx:16 | every piece but the last ends with a full stop |
| ResumeSummary.PiecesStartCapital | frontend/src/components/Resume/ResumeSummary.jsx:16 | every piece but the first starts with a capital |
| ResumeSummary.GapsAreSpace | frontend/src/components/Resume/ResumeSummary.jsx:16 | only white space is removed between pieces |
| ResumeSummary.PiecesHaveNoBreak | frontend/src/components/Resume/ResumeSummary.jsx:16 | no piece contains a sentence break, so splitting is complete |
| ResumeSummary.PieceIsWhole | frontend/src/components/Resume/ResumeSummary.jsx:16 | a piece splits into itself |
| ResumeSummary.SinglePiece | frontend/src/components/Resume/ResumeSummary.jsx:16 | a summary with no full stop before its last character is one piece |
| ResumeSummary.FirstStop | frontend/src/components/Resume/ResumeSummary.jsx:16 | the first piece ends at the first sentence break |
| ResumeSummary.Kept | frontend/src/components/Resume/ResumeSummary.jsx:16-29 | the pieces that are not blank, trimmed, in order |
| ResumeSummary.KeptFromPieces | frontend/src/components/Resume/ResumeSummary.jsx:16-29 | the paragraphs are the non-blank pieces, trimmed, one for each |
| ResumeSummary.Render | frontend/src/components/Resume/ResumeSummary.jsx:11-29 | nothing for a falsy summary, an error for a truthy non-string, otherwise the kept pieces as paragraphs |
| ResumeSummary.OneParagraph | frontend/src/components/Resume/ResumeSummary.jsx:16 | a summary with no sentence break is one paragraph |
| ResumeSummary.TwoSentences | frontend/src/components/Resume/ResumeSummary.jsx:16 | two sentences joined by a space split into those two sentences |
| ResumeSummary.AbbreviationKept | frontend/src/components/Resume/ResumeSummary.jsx:16 | a full stop followed by a lower-case word does not break |

## Left out

- Reading and writing files, `fs.pathExists`, and the multer storage, file naming, size limits and count limits are not modelled. Uploads arrive as file names; stored files are a set of paths.
- `jwt.verify` is a parameter `verify`. The login route, token issuing and expiry are not modelled.
- `backend/services/emailService.js` is not part of this model. The notification sent after a contact submission is left out.
- Express wiring, CORS, logging, the `try`/`catch` answers 500 for exceptions the model cannot raise, and concurrent requests are not modelled. Each route runs alone.
- Dates are integer timestamps. `new Date().toISOString()` is the parameter `now`, and contacts are ordered by it.
- Numbers in JSON are integers. No route or page depends on fractions.
- `toLowerCase` is modelled for ASCII letters only.
- `JSON.parse` is a parameter `parse`, where `None` means it throws. `JSON.stringify` is a parameter `encode` where the form needs it.
- Store.Store.ListContacts: the sort comparator of `new Date(...)` differences is modelled as integer comparison.
- ServicesForm.ServicesByOrderSpec, CategoriesView.GroupOfSpec and CategoriesView.GroupsSpec: an `order` that subtraction turns into `NaN` (an absent order, a non-numeric text, an object) is taken as 0 by the comparator. JavaScript would compare `NaN`, with an engine-dependent order. Numeric texts, `null` and booleans are coerced as JavaScript does.
- JsValues.NumberText: only integer texts are read; decimals, exponents, `Infinity` and the `0b`/`0o` prefixes give `NaN`.
- ContactInbox.Preview: counts characters, not UTF-16 code units.
- Where the pages compare objects by reference, the model compares values.
- ResumeEditor.WithField: spreading a value that is not an object is taken to give no fields.
- PortfolioRules.NewPortfolioItem: a body `id` that is not a number (a text from the multipart form, or `null`) is replaced by the next id, where the source stores it as given, because ids are modelled as integers.
- ResumeEditor.InputChange and ResumeEditor.ArrayFieldChange: the holes a write past the end leaves are modelled as `null` entries, and the property a negative index adds to the array is not modelled.
- ResumeEditor.ArrayFieldChange: the source updates the responsibilities entry in place, which also mutates the entry object of the previous state. The model copies the entry, so this aliasing is not captured.
- `handleInputChange` of the resume page is modelled, though the page calls only the array variant.
- `getServiceName` is modelled, though the JSX does not call it.
- `nextProject` and `prevProject` are modelled, though the modal never shows them.
- Timers, swipe gestures, animations, the loading and error states, and the purely presentational components are not modelled. This covers `setInterval` in the carousel (modelled as the `Tick` step), framer-motion and icons.
- The admin panel's axios interceptor and token storage, and the router in `App.jsx`, are not modelled.

## Findings

| source | as written | input that shows it | evidently intended | confidence | as-written member | corrected member |
|---|---|---|---|---|---|---|
| admin-panel/src/pages/ContactManagement.jsx:55-62 | `handleViewMessage` calls `handleToggleRead` from the same render, whose closure still sees the previous selection, so the modal is not updated | modal closed, viewing an unread contact: the list shows it read, the modal shows it unread with "Mark as Read" | the modal shows the contact as read, like the list | not executed | ContactInbox.ViewLeavesModalStale | ContactInbox.ViewAgreesWithList |
| admin-panel/src/pages/ServicesManagement.jsx:42 | the later `slug:` key of the object literal overrides `[name]: value`, so typing in the slug input never changes the slug | empty slug, typing `web-design` in the slug input: the slug stays empty | the typed slug is kept | not executed | ServicesForm.SlugInputIgnored | ServicesForm.SlugInputAfterName |
| frontend/src/components/Home/FeaturedProjects.jsx:47-52 | stored paths already start with `/uploads/`, and the component prefixes `/uploads/` again | cover `/uploads/a.png` resolves to `/uploads//uploads/a.png` | the back end URL of the stored path, as the grid and the modal use | not executed | FeaturedProjects.FeaturedDoublePrefix | FeaturedProjects.FeaturedImage |
