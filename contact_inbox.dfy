/** The contact inbox page of the admin panel: the local list of contacts, the message open in the
    modal, the read toggle, the unread badge and the message preview. */
module ContactInbox {
  import opened JsValues
  import opened Lists
  import opened Records
  import opened ContactRules

  /** The page's state: the listed contacts, the contact shown in the modal, and whether the modal
      is open. */
  datatype Inbox = Inbox(contacts: seq<Contact>, selected: Option<Contact>, showModal: bool)

  /** `!currentReadStatus`. */
  function Flipped(current: Value): Value {
    Bool(!Truthy(Some(current)))
  }

  /** The body of the `PUT /contact/:id/read` request a toggle sends. */
  function ToggleBody(current: Value): map<string, Value> {
    map["read" := Flipped(current)]
  }

  /** The local list after a toggle: every contact carrying the id gets the flipped flag. */
  function ToggleList(contacts: seq<Contact>, id: int, current: Value): (r: seq<Contact>)
    ensures |r| == |contacts|
    ensures forall i :: 0 <= i < |r| && contacts[i].id == id ==> r[i] == contacts[i].(read := Flipped(current))
    ensures forall i :: 0 <= i < |r| && contacts[i].id != id ==> r[i] == contacts[i]
  {
    seq(|contacts|, i requires 0 <= i < |contacts| =>
      if contacts[i].id == id then contacts[i].(read := Flipped(current)) else contacts[i])
  }

  /** The server's answer to a toggle of the contact at `k`: it updates the same contact in the same
      way as the page does locally, and the stored flag is the stored flag toggled. */
  lemma ToggleMatchesServer(contacts: seq<Contact>, k: int)
    requires UniqueIds(contacts, ContactId)
    requires 0 <= k < |contacts|
    ensures var c := contacts[k];
      var r := MarkRead(Some(contacts), Some(c.id), ToggleBody(c.read));
      r.0 == Ok(SetRead(c, map[])) && r.1 == Some(ToggleList(contacts, c.id, c.read))
  {
    var c := contacts[k];
    var body := ToggleBody(c.read);
    assert FindIndex(contacts, ContactId, Some(c.id)) == k by {
      assert HasId(ContactId(contacts[k]), Some(c.id));
    }
    assert SetRead(c, body) == c.(read := Flipped(c.read)) == SetRead(c, map[]);
    assert contacts[k := SetRead(c, body)] == ToggleList(contacts, c.id, c.read);
  }

  /** A toggle from the page moves the unread badge by one: down for an unread contact, up for a
      read one. */
  lemma ToggleMovesUnreadCount(contacts: seq<Contact>, k: int)
    requires UniqueIds(contacts, ContactId)
    requires 0 <= k < |contacts|
    ensures var c := contacts[k];
      UnreadCount(ToggleList(contacts, c.id, c.read)) == UnreadCount(contacts) + (if IsUnread(c) then -1 else 1)
  {
    var c := contacts[k];
    ToggleMatchesServer(contacts, k);
    var r := MarkRead(Some(contacts), Some(c.id), ToggleBody(c.read));
    assert FindIndex(contacts, ContactId, Some(c.id)) == k;
    assert ToggleList(contacts, c.id, c.read) == contacts[k := SetRead(c, map[])];
    ToggleChangesUnreadCount(contacts, k);
  }

  /** `handleToggleRead(id, current)` as the handler runs it: `seen` is the selected contact the
      handler's closure captured, and the state changes only when the request succeeded
      (`accepted`). The list flips the contact with that id; the modal's contact is replaced only
      when `seen` has that id. */
  function ToggleRead(s: Inbox, seen: Option<Contact>, id: int, current: Value, accepted: bool): (r: Inbox)
    ensures !accepted ==> r == s
    ensures accepted ==> r.contacts == ToggleList(s.contacts, id, current) && r.showModal == s.showModal
    ensures accepted && seen.Some? && seen.value.id == id ==> r.selected == Some(seen.value.(read := Flipped(current)))
    ensures !(seen.Some? && seen.value.id == id) ==> r.selected == s.selected
  {
    if !accepted then s
    else
      var selected := if seen.Some? && seen.value.id == id then Some(seen.value.(read := Flipped(current))) else s.selected;
      Inbox(ToggleList(s.contacts, id, current), selected, s.showModal)
  }

  /** `handleViewMessage(c)` as written: the modal opens on `c`, and an unread `c` is toggled by a
      handler whose closure still sees the selection from before the click. */
  function ViewAsWritten(s: Inbox, c: Contact, accepted: bool): (r: Inbox)
    ensures r.showModal
    ensures !IsUnread(c) ==> r.contacts == s.contacts && r.selected == Some(c)
  {
    var shown := s.(selected := Some(c), showModal := true);
    if IsUnread(c) then ToggleRead(shown, s.selected, c.id, c.read, accepted) else shown
  }

  /** With the modal closed, viewing an unread message marks it read in the list while the modal
      goes on showing it as unread, with a "Mark as Read" button. */
  lemma ViewLeavesModalStale(c: Contact)
    requires c.read == Bool(false)
    ensures var r := ViewAsWritten(Inbox([c], None, false), c, true);
      r.selected == Some(c) && IsUnread(r.selected.value) && !IsUnread(r.contacts[0])
  {
  }

  /** `handleViewMessage(c)` as intended: the toggle sees the contact just selected, so the modal and
      the list agree. */
  function ViewMessage(s: Inbox, c: Contact, accepted: bool): (r: Inbox)
    ensures r.showModal && r.selected.Some? && r.selected.value.id == c.id
    ensures !IsUnread(c) ==> r.contacts == s.contacts && r.selected == Some(c)
    ensures IsUnread(c) && accepted ==> r.selected == Some(c.(read := Bool(true))) && !IsUnread(r.selected.value)
    ensures IsUnread(c) && !accepted ==> r.selected == Some(c)
  {
    var shown := s.(selected := Some(c), showModal := true);
    if IsUnread(c) then ToggleRead(shown, Some(c), c.id, c.read, accepted) else shown
  }

  /** Viewing a listed message shows in the modal exactly the contact the list now holds, read. */
  lemma ViewAgreesWithList(s: Inbox, k: int)
    requires 0 <= k < |s.contacts|
    ensures var r := ViewMessage(s, s.contacts[k], true);
      r.selected == Some(r.contacts[k]) && !IsUnread(r.contacts[k])
  {
    var c := s.contacts[k];
    if IsUnread(c) {
      assert Flipped(c.read) == Bool(true);
    }
  }

  /** `handleCloseModal`. */
  function CloseModal(s: Inbox): (r: Inbox)
    ensures !r.showModal && r.selected.None? && r.contacts == s.contacts
  {
    s.(showModal := false, selected := None)
  }

  /** The header badge, `"{n} unread message{s}"`, shown only when some contact is unread. */
  function UnreadBadge(contacts: seq<Contact>): (r: Option<string>)
    ensures r.None? <==> forall i :: 0 <= i < |contacts| ==> !IsUnread(contacts[i])
    ensures r.Some? ==> r.value == IntToString(UnreadCount(contacts)) + " unread message" + (if UnreadCount(contacts) != 1 then "s" else "")
  {
    NoUnread(contacts);
    var n := UnreadCount(contacts);
    if n > 0 then Some(IntToString(n) + " unread message" + (if n != 1 then "s" else "")) else None
  }

  const PreviewLength: nat := 150

  /** The preview under each contact: a message over 150 characters is cut to its first 150 and
      followed by `...`; a shorter one is shown whole. */
  function Preview(message: string): (r: string)
    ensures |r| <= PreviewLength + 3
    ensures |message| <= PreviewLength ==> r == message
    ensures |message| > PreviewLength ==> |r| == PreviewLength + 3 && r[..PreviewLength] == message[..PreviewLength] && r[PreviewLength..] == "..."
  {
    if |message| > PreviewLength then message[..PreviewLength] + "..." else message
  }
}
