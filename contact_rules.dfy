/** The contact inbox: validation and numbering of submitted messages, the read flag, the
    newest-first listing and the dashboard counts. */
module ContactRules {
  import opened JsValues
  import opened Lists
  import opened Records

  /** `name`, `email`, `subject` and `message` are all truthy. */
  predicate RequiredPresent(body: map<string, Value>) {
    Truthy(Get(body, "name")) && Truthy(Get(body, "email")) &&
    Truthy(Get(body, "subject")) && Truthy(Get(body, "message"))
  }

  /** The contact `POST /contact` appends: numbered one past the current count, unread, dated `now`,
      with an empty phone when none is given; a 400 when a required field is missing or empty. */
  function NewContact(contacts: seq<Contact>, body: map<string, Value>, now: int): (r: Reply<Contact>)
    ensures r.Fail? <==> !RequiredPresent(body)
    ensures r.Fail? ==> r == Fail(400, "Missing required fields")
    ensures r.Ok? ==> r.value.id == |contacts| + 1 && r.value.read == Bool(false) && r.value.date == now
    ensures r.Ok? ==> Get(body, "name") == Some(r.value.name) && Get(body, "email") == Some(r.value.email)
    ensures r.Ok? ==> Get(body, "subject") == Some(r.value.subject) && Get(body, "message") == Some(r.value.message)
    ensures r.Ok? ==> r.value.phone == (if Truthy(Get(body, "phone")) then body["phone"] else Str(""))
  {
    if !RequiredPresent(body) then Fail(400, "Missing required fields")
    else
      var phone := if Truthy(Get(body, "phone")) then body["phone"] else Str("");
      Ok(Contact(|contacts| + 1, body["name"], body["email"], phone, body["subject"], body["message"], now, Bool(false)))
  }

  /** Contacts numbered 1, 2, ... in stored order: what the contact form alone produces. */
  predicate Numbered(contacts: seq<Contact>) {
    forall i :: 0 <= i < |contacts| ==> contacts[i].id == i + 1
  }

  /** Numbering by count keeps the list numbered, so ids stay unique as long as contacts are only
      ever appended (no route deletes a contact). */
  lemma NewContactKeepsNumbered(contacts: seq<Contact>, body: map<string, Value>, now: int)
    requires Numbered(contacts)
    requires NewContact(contacts, body, now).Ok?
    ensures Numbered(contacts + [NewContact(contacts, body, now).value])
    ensures UniqueIds(contacts + [NewContact(contacts, body, now).value], ContactId)
  {
    var t := contacts + [NewContact(contacts, body, now).value];
    assert forall i :: 0 <= i < |t| ==> t[i].id == i + 1;
  }

  /** `!c.read`. */
  function IsUnread(c: Contact): bool {
    !Truthy(Some(c.read))
  }

  /** `PUT /contact/:id/read`: `read` becomes the body's `read` when present, otherwise the negation
      of the stored flag; nothing else of the contact changes. */
  function SetRead(c: Contact, body: map<string, Value>): (r: Contact)
    ensures r == c.(read := r.read)
    ensures "read" in body ==> r.read == body["read"]
    ensures "read" !in body ==> IsUnread(r) == !IsUnread(c)
  {
    c.(read := if "read" in body then body["read"] else Bool(IsUnread(c)))
  }

  /** The update `PUT /contact/:id/read` applies to the contact it found; it never fails. */
  function ReadUpdate(body: map<string, Value>): (f: Contact -> Reply<Contact>)
    ensures forall c :: f(c) == Ok(SetRead(c, body))
    ensures forall c :: f(c).Ok? ==> ContactId(f(c).value) == ContactId(c)
  {
    (c: Contact) => Ok(SetRead(c, body))
  }

  /** Two toggles give back the truthiness of the flag, as a boolean. */
  lemma ToggleTwice(c: Contact)
    ensures SetRead(SetRead(c, map[]), map[]).read == Bool(!IsUnread(c))
  {
  }

  /** The number of unread contacts, `contacts.filter((c) => !c.read).length`. */
  function UnreadCount(contacts: seq<Contact>): (n: nat)
    ensures n <= |contacts|
  {
    Count(contacts, IsUnread)
  }

  lemma {:induction false} UnreadCountAppend(a: seq<Contact>, b: seq<Contact>)
    ensures UnreadCount(a + b) == UnreadCount(a) + UnreadCount(b)
  {
    FilterAppend(a, b, IsUnread);
  }

  /** Toggling one contact without a body changes the unread count by exactly one: down when it was
      unread, up when it was read. */
  lemma ToggleChangesUnreadCount(contacts: seq<Contact>, i: nat)
    requires i < |contacts|
    ensures UnreadCount(contacts[i := SetRead(contacts[i], map[])]) ==
            UnreadCount(contacts) + (if IsUnread(contacts[i]) then -1 else 1)
  {
    var c := contacts[i];
    var t := contacts[i := SetRead(c, map[])];
    assert contacts == contacts[..i] + [c] + contacts[i + 1..];
    assert t == contacts[..i] + [SetRead(c, map[])] + contacts[i + 1..];
    UnreadCountAppend(contacts[..i] + [c], contacts[i + 1..]);
    UnreadCountAppend(contacts[..i], [c]);
    UnreadCountAppend(contacts[..i] + [SetRead(c, map[])], contacts[i + 1..]);
    UnreadCountAppend(contacts[..i], [SetRead(c, map[])]);
    assert [c][1..] == [] && [SetRead(c, map[])][1..] == [];
  }

  /** `PUT /contact/:id/read` on the stored contacts: the contact of that id has its flag set or
      toggled, the list keeps its numbering, and a toggle moves the unread count by one. */
  function MarkRead(doc: Option<seq<Contact>>, param: Option<int>, body: map<string, Value>): (r: (Reply<Contact>, Option<seq<Contact>>))
    ensures r == UpdateById(doc, ContactId, param, ReadUpdate(body), "Contacts file not found", "Contact not found")
    ensures r.0.Ok? ==> r.0.value == SetRead(doc.value[FindIndex(doc.value, ContactId, param)], body)
    ensures Numbered(OrEmpty(doc)) ==> Numbered(OrEmpty(r.1))
    ensures r.0.Ok? && "read" !in body ==>
      UnreadCount(r.1.value) == UnreadCount(doc.value) + (if IsUnread(r.0.value) then 1 else -1)
  {
    var r := UpdateById(doc, ContactId, param, ReadUpdate(body), "Contacts file not found", "Contact not found");
    if r.0.Ok? then
      ToggleChangesUnreadCount(doc.value, FindIndex(doc.value, ContactId, param));
      r
    else r
  }

  /** The sort key of `(a, b) => new Date(b.date) - new Date(a.date)`: later dates first. */
  function NewestKey(c: Contact): int {
    -c.date
  }

  /** `GET /contact`: the contacts sorted by `(a, b) => new Date(b.date) - new Date(a.date)`. */
  function NewestFirst(contacts: seq<Contact>): seq<Contact> {
    SortBy(contacts, NewestKey)
  }

  /** The listing holds exactly the stored contacts, newest first; the sort is stable, so contacts
      with equal dates keep their stored order. */
  lemma NewestFirstSpec(contacts: seq<Contact>)
    ensures |NewestFirst(contacts)| == |contacts|
    ensures multiset(NewestFirst(contacts)) == multiset(contacts)
    ensures forall i, j :: 0 <= i < j < |contacts| ==> NewestFirst(contacts)[i].date >= NewestFirst(contacts)[j].date
    ensures forall k :: WithKey(NewestFirst(contacts), NewestKey, k) == WithKey(contacts, NewestKey, k)
  {
    SortByIsSorted(contacts, NewestKey);
    SortByPermutes(contacts, NewestKey);
    forall k ensures WithKey(NewestFirst(contacts), NewestKey, k) == WithKey(contacts, NewestKey, k) {
      SortByStable(contacts, NewestKey, k);
    }
  }

  /** No contact is unread exactly when the unread count is 0. */
  lemma NoUnread(contacts: seq<Contact>)
    ensures UnreadCount(contacts) == 0 <==> forall i :: 0 <= i < |contacts| ==> !IsUnread(contacts[i])
  {
    FilterMembers(contacts, IsUnread);
    if UnreadCount(contacts) != 0 {
      var x := Filter(contacts, IsUnread)[0];
      assert x in contacts && IsUnread(x);
    }
  }

  /** The counts `GET /dashboard` reports. */
  datatype Stats = Stats(portfolioCount: nat, contactCount: nat, unreadContacts: nat)

  /** Lengths of the two documents (0 when absent) and the number of unread contacts, which never
      exceeds the number of contacts and is 0 exactly when every contact is read. */
  function Dashboard(portfolio: Option<seq<PortfolioItem>>, contacts: Option<seq<Contact>>): (r: Stats)
    ensures r.portfolioCount == |OrEmpty(portfolio)| && r.contactCount == |OrEmpty(contacts)|
    ensures r.unreadContacts == UnreadCount(OrEmpty(contacts)) <= r.contactCount
    ensures contacts.None? ==> r.contactCount == 0 && r.unreadContacts == 0
    ensures r.unreadContacts == 0 <==> forall i :: 0 <= i < r.contactCount ==> !IsUnread(OrEmpty(contacts)[i])
  {
    var cs := OrEmpty(contacts);
    NoUnread(cs);
    Stats(|OrEmpty(portfolio)|, |cs|, UnreadCount(cs))
  }
}
