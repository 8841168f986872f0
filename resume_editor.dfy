/** The resume admin page: adding, deleting and editing entries of the resume sections, the
    responsibilities text area, the skill level input, and the checks made before a PDF is sent,
    together with how the page's copy of `cvFile` follows the store after an upload or a delete. */
module ResumeEditor {
  import opened Text
  import opened JsValues
  import opened Lists
  import opened Records
  import opened ResumeRules

  /** The sections that hold lists of entries. */
  const Sections: set<string> := {"education", "experience", "skills", "software", "certifications"}

  /** The entry `handleAddItem` appends; `now` is `Date.now()`, the new entry's id. Another section
      name has no template, and `undefined` is appended (written to the file as `null`). */
  function Template(section: string, now: int): Value {
    if section == "education" then
      Obj(map["id" := Num(now), "year" := Str(""), "degree" := Str(""), "school" := Str(""), "description" := Str("")])
    else if section == "experience" then
      Obj(map["id" := Num(now), "year" := Str(""), "title" := Str(""), "company" := Str(""), "responsibilities" := Arr([Str("")])])
    else if section == "skills" then
      Obj(map["id" := Num(now), "name" := Str(""), "level" := Num(50)])
    else if section == "software" then
      Obj(map["id" := Num(now), "name" := Str(""), "icon" := Str("FaFigma"), "color" := Str("#7065ef")])
    else if section == "certifications" then
      Obj(map["id" := Num(now), "title" := Str(""), "issuer" := Str(""), "year" := Str("")])
    else Null
  }

  /** The entries of a section, or `None` when it holds no array (spreading or filtering it throws). */
  function Items(data: Resume, section: string): Option<seq<Value>> {
    if section in data && data[section].Arr? then Some(data[section].items) else None
  }

  /** Every key but `section` is left as it was. */
  ghost predicate OthersKept(data: Resume, next: Resume, section: string) {
    forall k :: k != section ==> (k in next <==> k in data) && (k in data ==> next[k] == data[k])
  }

  /** `handleAddItem(section)`: the section's template appended at the end, the rest untouched. */
  function AddItem(data: Resume, section: string, now: int): (r: Option<Resume>)
    ensures r.None? <==> Items(data, section).None?
    ensures r.Some? ==> Items(r.value, section) == Some(Items(data, section).value + [Template(section, now)])
    ensures r.Some? ==> OthersKept(data, r.value, section)
  {
    match Items(data, section)
    case None => None
    case Some(items) => Some(data[section := Arr(items + [Template(section, now)])])
  }

  /** `handleDeleteItem(section, index)`: the entry at `index` dropped, the others kept in order. */
  function DeleteItem(data: Resume, section: string, index: int): (r: Option<Resume>)
    ensures r.None? <==> Items(data, section).None?
    ensures r.Some? && 0 <= index < |Items(data, section).value| ==>
      var items := Items(data, section).value;
      Items(r.value, section) == Some(items[..index] + items[index + 1..])
    ensures r.Some? && !(0 <= index < |Items(data, section).value|) ==> r == Some(data)
    ensures r.Some? ==> OthersKept(data, r.value, section)
  {
    match Items(data, section)
    case None => None
    case Some(items) =>
      assert !(0 <= index < |items|) ==> data[section := Arr(items)] == data;
      Some(data[section := Arr(RemoveAt(items, index))])
  }

  /** Deleting the entry just added gives back the resume as it was. */
  lemma AddThenDelete(data: Resume, section: string, now: int)
    requires Items(data, section).Some?
    ensures DeleteItem(AddItem(data, section, now).value, section, |Items(data, section).value|) == Some(data)
  {
    var items := Items(data, section).value;
    var added := items + [Template(section, now)];
    var grown := data[section := Arr(added)];
    assert AddItem(data, section, now) == Some(grown);
    assert Items(grown, section) == Some(added);
    assert RemoveAt(added, |items|) == items by {
      assert added[..|items|] + added[|items| + 1..] == items;
    }
    assert DeleteItem(grown, section, |items|) == Some(grown[section := Arr(RemoveAt(added, |items|))]);
    assert grown[section := Arr(items)] == data[section := Arr(items)];
    assert Arr(items) == data[section];
    assert data[section := Arr(items)] == data;
  }

  /** The fields of a value spread into a new object; spreading anything but an object is taken to
      give no fields. */
  function FieldsOf(v: Value): map<string, Value> {
    if v.Obj? then v.fields else map[]
  }

  /** `{ ...entry, [field]: value }`: the field set, every other field of the entry kept. */
  function WithField(entry: Value, field: string, value: Value): (r: Value)
    ensures r.Obj? && field in r.fields && r.fields[field] == value
    ensures r.fields.Keys == FieldsOf(entry).Keys + {field}
    ensures forall k :: k in FieldsOf(entry) && k != field ==> r.fields[k] == FieldsOf(entry)[k]
  {
    Obj(FieldsOf(entry)[field := value])
  }

  /** `updated[index]` read from the copied section: `undefined`, which spreads as no fields, when
      the index is no position of it. */
  function SlotOf(items: seq<Value>, index: int): (r: Value)
    ensures 0 <= index < |items| ==> r == items[index]
    ensures !(0 <= index < |items|) ==> FieldsOf(r) == map[]
  {
    if 0 <= index < |items| then items[index] else Null
  }

  /** `updated[index] = entry` on the copied section: a position of it is replaced; an index past
      the end grows the array to `index + 1`, the holes in between written to the file as `null`;
      a negative index sets a property that no element and no JSON text shows. */
  function SetSlot(items: seq<Value>, index: int, entry: Value): (r: seq<Value>)
    ensures 0 <= index < |items| ==> r == items[index := entry]
    ensures index >= |items| ==>
      |r| == index + 1 && r[..|items|] == items && r[index] == entry && forall j :: |items| <= j < index ==> r[j] == Null
    ensures index < 0 ==> r == items
  {
    if index < 0 then items
    else if index < |items| then items[index := entry]
    else items + seq(index - |items|, _ => Null) + [entry]
  }

  /** Whatever position is written, inside the section or past its end, reading it back gives the
      entry, and no other position of the section changes. */
  lemma SetSlotThenRead(items: seq<Value>, index: int, entry: Value)
    requires index >= 0
    ensures SlotOf(SetSlot(items, index, entry), index) == entry
    ensures forall j :: 0 <= j < |items| && j != index ==> SlotOf(SetSlot(items, index, entry), j) == items[j]
  {
    var r := SetSlot(items, index, entry);
    if index >= |items| {
      assert forall j :: 0 <= j < |items| ==> r[j] == r[..|items|][j];
    }
  }

  /** `handleInputChange(section, field, value, index)`: with an index, that entry of the section
      gets the field (a new entry when the index is past the end); without one, the section itself
      is treated as an object and gets the field. */
  function InputChange(data: Resume, section: string, field: string, value: Value, index: Option<int>): (r: Option<Resume>)
    ensures index.None? ==> r == Some(data[section := WithField(if section in data then data[section] else Null, field, value)])
    ensures index.Some? ==> (r.Some? <==> Items(data, section).Some?)
    ensures index.Some? && r.Some? && 0 <= index.value < |Items(data, section).value| ==>
      var items := Items(data, section).value;
      Items(r.value, section) == Some(items[index.value := WithField(items[index.value], field, value)])
    ensures index.Some? && r.Some? && index.value >= |Items(data, section).value| ==>
      Items(r.value, section) == Some(SetSlot(Items(data, section).value, index.value, Obj(map[field := value])))
    ensures index.Some? && r.Some? && index.value < 0 ==> r == Some(data)
    ensures r.Some? ==> OthersKept(data, r.value, section)
  {
    if index.None? then
      Some(data[section := WithField(if section in data then data[section] else Null, field, value)])
    else
      match Items(data, section)
      case None => None
      case Some(items) =>
        assert data[section := Arr(items)] == data;
        assert FieldsOf(Null)[field := value] == map[field := value];
        Some(data[section := Arr(SetSlot(items, index.value, WithField(SlotOf(items, index.value), field, value)))])
  }

  /** `text.split('\n').filter(Boolean)`: the lines of the responsibilities text area, blank ones
      dropped. */
  function Lines(text: string): (r: seq<string>)
    ensures forall i :: 0 <= i < |r| ==> r[i] != "" && '\n' !in r[i]
  {
    var keep := (t: string) => t != "";
    var r := Filter(Split(text, '\n'), keep);
    forall i | 0 <= i < |r| ensures r[i] != "" && '\n' !in r[i] {
      var k := FilterSource(Split(text, '\n'), keep, i);
    }
    r
  }

  /** The text area shows the responsibilities joined by newlines; reading it back gives the same
      list as long as no entry is empty or spans several lines. */
  lemma LinesOfJoin(xs: seq<string>)
    requires forall i :: 0 <= i < |xs| ==> xs[i] != "" && '\n' !in xs[i]
    ensures Lines(Join(xs, "\n")) == xs
  {
    var keep := (t: string) => t != "";
    if xs == [] {
      assert Split("", '\n') == [""];
      assert Filter([""], keep) == [] + Filter([""][1..], keep);
    } else {
      SplitJoin(xs, '\n');
      FilterAll(xs, keep);
    }
  }

  /** The value `handleArrayFieldChange` stores: the responsibilities text becomes its list of
      lines, every other field takes the value as given. `None` when the responsibilities value is
      not text (`split` throws). */
  function FieldValue(field: string, value: Value): Option<Value> {
    if field != "responsibilities" then Some(value)
    else if value.Str? then Some(Arr(seq(|Lines(value.s)|, i requires 0 <= i < |Lines(value.s)| => Str(Lines(value.s)[i]))))
    else None
  }

  /** An entry that takes `entry[field] = v`: an object gets the property, and an array gets one
      that JSON never shows; in strict code `null`, a missing entry and a primitive throw. */
  predicate TakesProperty(items: seq<Value>, index: int) {
    0 <= index < |items| && (items[index].Obj? || items[index].Arr?)
  }

  /** `handleArrayFieldChange(section, index, field, value)`: the section is copied into a fresh
      array and the entry at `index` gets the field. The responsibilities list is assigned into the
      existing entry, so it needs an object there, and an array entry keeps what JSON shows of it;
      any other field is written as at `handleInputChange`, an index past the end adding an entry.
      `None` when the section is no array, the responsibilities entry cannot take the property, or
      the responsibilities value is not text (`split` throws). */
  method ArrayFieldChange(data: Resume, section: string, index: int, field: string, value: Value) returns (r: Option<Resume>)
    ensures r.None? <==>
      || Items(data, section).None?
      || FieldValue(field, value).None?
      || (field == "responsibilities" && !TakesProperty(Items(data, section).value, index))
    ensures r.Some? && field == "responsibilities" && Items(data, section).value[index].Arr? ==> r == Some(data)
    ensures r.Some? && 0 <= index < |Items(data, section).value| && !(field == "responsibilities" && Items(data, section).value[index].Arr?) ==>
      var items := Items(data, section).value;
      && Items(r.value, section).Some?
      && |Items(r.value, section).value| == |items|
      && (forall j :: 0 <= j < |items| && j != index ==> Items(r.value, section).value[j] == items[j])
      && Items(r.value, section).value[index] == WithField(items[index], field, FieldValue(field, value).value)
    ensures r.Some? && index >= |Items(data, section).value| ==>
      Items(r.value, section) == Some(SetSlot(Items(data, section).value, index, Obj(map[field := value])))
    ensures r.Some? && index < 0 ==> r == Some(data)
    ensures r.Some? ==> OthersKept(data, r.value, section)
  {
    var items := Items(data, section);
    var stored := FieldValue(field, value);
    if items.None? || stored.None? || (field == "responsibilities" && !TakesProperty(items.value, index)) {
      return None;
    }
    var s := items.value;
    if index < 0 || (field == "responsibilities" && s[index].Arr?) {
      assert data[section := Arr(s)] == data;
      return Some(data);
    }
    var n := if index < |s| then |s| else index + 1;
    var updated := new Value[n](i requires 0 <= i < n => if i < |s| then s[i] else Null);
    updated[index] := WithField(updated[index], field, stored.value);
    if index >= |s| {
      assert FieldsOf(Null)[field := value] == map[field := value];
      assert updated[..] == SetSlot(s, index, Obj(map[field := value])) by {
        var t := SetSlot(s, index, Obj(map[field := value]));
        forall j | 0 <= j < n ensures updated[j] == t[j] {
          if j < |s| {
            assert t[j] == t[..|s|][j];
          }
        }
      }
    }
    r := Some(data[section := Arr(updated[..])]);
  }

  /** `parseInt(text) || 0`, the skill level input: a number that does not parse, or 0, gives 0. */
  function LevelInput(text: string): (level: int)
    ensures ParseIntText(text).Some? ==> level == ParseIntText(text).value
    ensures ParseIntText(text).None? ==> level == 0
  {
    var n := ParseIntText(text);
    if n.Some? && n.value != 0 then n.value else 0
  }

  /** A level typed as its decimal digits is read back as that level. */
  lemma LevelOfDigits(level: int)
    ensures LevelInput(IntToString(level)) == level
  {
    ParseIntOfIntToString(level);
  }

  /** The file chosen in the PDF input, if any. */
  datatype PdfChoice = NoChoice | Chosen(mimetype: string, size: nat)

  /** What `handlePdfUpload` does with the choice: nothing, show a message, or send the file. */
  datatype PdfAction = Ignore | Refuse(message: string) | Send

  /** 10 MiB. */
  const MaxPdfSize: nat := 10 * 1024 * 1024

  /** The checks made before the upload: another type than PDF is refused, then a size over
      10 MiB; exactly 10 MiB is sent. */
  function CheckPdf(c: PdfChoice): (a: PdfAction)
    ensures a == Send <==> c.Chosen? && c.mimetype == "application/pdf" && c.size <= MaxPdfSize
    ensures a == Ignore <==> c.NoChoice?
    ensures c.Chosen? && c.mimetype != "application/pdf" ==> a == Refuse("Only PDF files are allowed")
  {
    match c
    case NoChoice => Ignore
    case Chosen(mimetype, size) =>
      if mimetype != "application/pdf" then Refuse("Only PDF files are allowed")
      else if size > MaxPdfSize then Refuse("File size must be less than 10MB")
      else Send
  }

  /** The limit is inclusive: 10 MiB is sent, one byte more is refused. */
  lemma SizeBoundary()
    ensures CheckPdf(Chosen("application/pdf", 10485760)) == Send
    ensures CheckPdf(Chosen("application/pdf", 10485761)) == Refuse("File size must be less than 10MB")
  {
  }

  /** The page's resume after the upload route answered: the returned path as `cvFile` on success. */
  function AfterUpload(data: Resume, reply: Reply<string>): Resume {
    if reply.Ok? then data["cvFile" := Str(reply.value)] else data
  }

  /** The page's resume after the delete route answered: `cvFile` cleared on success. */
  function AfterDelete(data: Resume, reply: Reply<string>): Resume {
    if reply.Ok? then data["cvFile" := Null] else data
  }

  /** A file the page sends is never refused by the upload route for its type, and after a
      successful upload the page shows the `cvFile` the store now holds. */
  lemma UploadAgrees(data: Resume, s: PdfState, filename: string, size: nat)
    requires CheckPdf(Chosen("application/pdf", size)) == Send
    ensures var r := UploadPdf(s, Uploaded(filename, "application/pdf"));
      && r.0 != Fail(400, "Only PDF files are allowed")
      && (r.0.Ok? ==> CvFile(AfterUpload(data, r.0)) == CvFile(r.1.resume.value))
  {
  }

  /** After a successful delete the page and the store both hold a `null` `cvFile`. */
  lemma DeleteAgrees(data: Resume, s: PdfState)
    requires DeletePdf(s).0.Ok?
    ensures CvFile(AfterDelete(data, DeletePdf(s).0)) == CvFile(DeletePdf(s).1.resume.value) == Some(Null)
  {
  }
}
