/** The manifest `self-service.yaml` at the top of an app collection, as both
    generations of the manifest parser read it once YAML has loaded it: the
    validation step (a cerberus schema saying that `categories` and `items` are
    dictionaries), then `parse` and `parse_item`. The two parsers differ only in
    the classes they build, so the shared reading produces neutral records here
    and each parser module maps them to its own types. */
module ManifestSchema {
  import opened Outcomes
  import opened Documents
  import Text

  const CATEGORIES: string := "categories"
  const ITEMS: string := "items"

  // ---------------------------------------------------------------------------
  // Validation
  // ---------------------------------------------------------------------------

  /** A top-level key the schema constrains. */
  predicate InSchema(key: string) {
    key == CATEGORIES || key == ITEMS
  }

  /** One entry of `validator.errors`: the field and cerberus's message for it. */
  datatype FieldError = FieldError(field: string, message: string)

  /** Why validation failed. */
  datatype Rejection =
    | NotADocument                     // cerberus raised DocumentError: the document is not a dict
    | FieldErrors(errors: seq<FieldError>)

  const NULL_MESSAGE: string := "null value not allowed"
  const TYPE_MESSAGE: string := "must be of dict type"

  /** A schema field whose value is not a dictionary. */
  predicate Broken(e: Entry) {
    InSchema(e.key) && !e.value.Mapping?
  }

  /** The errors cerberus records for the entries of a document, in document order:
      a null value is refused as null, any other non-dictionary by its type. */
  function FieldErrorsIn(entries: seq<Entry>): (r: seq<FieldError>)
    ensures r == [] <==> forall i :: 0 <= i < |entries| ==> !Broken(entries[i])
    ensures forall e :: e in r ==> InSchema(e.field)
  {
    if entries == [] then []
    else
      var rest := FieldErrorsIn(entries[1..]);
      assert forall i :: 1 <= i < |entries| ==> entries[i] == entries[1..][i - 1];
      if Broken(entries[0]) then
        [FieldError(entries[0].key, if entries[0].value.Null? then NULL_MESSAGE else TYPE_MESSAGE)] + rest
      else rest
  }

  /** `validator.validate(config_dict)`, with DocumentError as a rejection. */
  function Validate(doc: Doc): (r: Option<Rejection>)
    ensures r == Some(NotADocument) <==> !doc.Mapping?
    ensures r == None <==>
      doc.Mapping? && forall i :: 0 <= i < |doc.entries| ==> !Broken(doc.entries[i])
    ensures r.Some? && r.value.FieldErrors? ==> r.value.errors != []
  {
    if !doc.Mapping? then Some(NotADocument)
    else
      var errors := FieldErrorsIn(doc.entries);
      if errors == [] then None else Some(FieldErrors(errors))
  }

  /** `str()` of the validation exception: raised with no arguments after a
      DocumentError, and with the errors dictionary otherwise. */
  function Message(rejection: Rejection): string {
    match rejection
    case NotADocument => ""
    case FieldErrors(errors) => "{" + RenderErrors(errors) + "}"
  }

  function RenderErrors(errors: seq<FieldError>): string {
    if errors == [] then ""
    else
      "'" + errors[0].field + "': ['" + errors[0].message + "']"
      + (if |errors| == 1 then "" else ", " + RenderErrors(errors[1..]))
  }

  /** A single field error renders as a one-entry dictionary of one-element lists. */
  lemma OneErrorMessage(field: string, message: string)
    ensures Message(FieldErrors([FieldError(field, message)])) == "{'" + field + "': ['" + message + "']}"
  {
    var body := "'" + field + "': ['" + message + "']";
    assert RenderErrors([FieldError(field, message)]) == body + "";
    assert body + "" == body;
  }

  /** How a non-dictionary `categories` is reported: `{'categories': ['must be of dict type']}`. */
  lemma TypeErrorMessage()
    ensures Message(FieldErrors([FieldError(CATEGORIES, TYPE_MESSAGE)])) == "{'" + CATEGORIES + "': ['" + TYPE_MESSAGE + "']}"
  {
    OneErrorMessage(CATEGORIES, TYPE_MESSAGE);
  }

  // ---------------------------------------------------------------------------
  // Parsing
  // ---------------------------------------------------------------------------

  /** An app as the manifest lists it. */
  datatype ItemRecord = ItemRecord(name: string, description: string, categoryNames: seq<string>)

  /** What `parse` builds: the category names and the items, in document order. */
  datatype Manifest = Manifest(categoryNames: seq<string>, items: seq<ItemRecord>)

  /** A list of category names; an element that is not a string is a TypeError. */
  function StringItems(items: seq<Doc>): (r: Result<seq<string>>)
    ensures r.Ok? <==> forall i :: 0 <= i < |items| ==> items[i].Str?
    ensures r.Ok? ==> |r.value| == |items| && forall i :: 0 <= i < |items| ==> r.value[i] == items[i].s
    ensures r.Err? ==> r.error == TypeError
  {
    if items == [] then Ok([])
    else if !items[0].Str? then Err(TypeError)
    else
      match StringItems(items[1..])
      case Ok(rest) => Ok([items[0].s] + rest)
      case Err(e) => Err(e)
  }

  /** Iterating `item_data['categories']`: a list yields its elements, a string
      its characters, a dictionary its keys; anything else is not iterable. */
  function CategoryNames(v: Doc): (r: Result<seq<string>>)
    ensures v.Str? ==> r.Ok? && |r.value| == |v.s| && forall i :: 0 <= i < |v.s| ==> r.value[i] == [v.s[i]]
    ensures v.Mapping? ==> r == Ok(Keys(v.entries))
    ensures v.List? ==> r == StringItems(v.items)
    ensures v.Null? || v.Bool? || v.Int? ==> r == Err(TypeError)
  {
    match v
    case List(items) => StringItems(items)
    case Str(s) => Ok(seq(|s|, i requires 0 <= i < |s| => [s[i]]))
    case Mapping(entries) => Ok(Keys(entries))
    case _ => Err(TypeError)
  }

  /** `parse_item(item_name, item_data)`: the description (stripped) is read
      before the categories, so its failures come first. */
  function ParseItem(name: string, data: Doc): (r: Result<ItemRecord>)
    ensures r.Ok? <==>
      data.Mapping? && Get(data, "description").Some? && Get(data, "description").value.Str?
      && Get(data, "categories").Some? && CategoryNames(Get(data, "categories").value).Ok?
    ensures r.Ok? ==>
      r.value.name == name &&
      r.value.description == Text.Strip(Get(data, "description").value.s) &&
      r.value.categoryNames == CategoryNames(Get(data, "categories").value).value
    ensures !data.Mapping? ==> r == Err(TypeError)
    ensures data.Mapping? && Get(data, "description").None? ==> r == Err(KeyError("description"))
  {
    if !data.Mapping? then Err(TypeError)
    else match Get(data, "description")
      case None => Err(KeyError("description"))
      case Some(d) =>
        if !d.Str? then Err(AttributeError)
        else match Get(data, "categories")
          case None => Err(KeyError("categories"))
          case Some(c) =>
            match CategoryNames(c)
            case Err(e) => Err(e)
            case Ok(names) => Ok(ItemRecord(name, Text.Strip(d.s), names))
  }

  /** One `items` entry read as an app. */
  function ParseEntry(e: Entry): Result<ItemRecord> {
    ParseItem(e.key, e.value)
  }

  /** The `items` comprehension: one record per entry, in order; the first failing
      entry's error escapes. */
  function ParseItems(entries: seq<Entry>): (r: Result<seq<ItemRecord>>)
    ensures r.Ok? <==> (forall i :: 0 <= i < |entries| ==> ParseEntry(entries[i]).Ok?)
    ensures r.Ok? ==> |r.value| == |entries|
    ensures r.Ok? ==> forall i :: 0 <= i < |entries| ==> Ok(r.value[i]) == ParseEntry(entries[i])
  {
    MapAll(entries, ParseEntry)
  }

  /** A list comprehension whose element expression may raise: `f` applied to
      each element in order, stopping at the first error. */
  function MapAll<E, R>(xs: seq<E>, f: E -> Result<R>): (r: Result<seq<R>>)
    ensures r.Ok? <==> (forall i :: 0 <= i < |xs| ==> f(xs[i]).Ok?)
    ensures r.Ok? ==> |r.value| == |xs|
    ensures r.Ok? ==> forall i :: 0 <= i < |xs| ==> Ok(r.value[i]) == f(xs[i])
  {
    if xs == [] then Ok([])
    else if f(xs[0]).Err? then Err(f(xs[0]).error)
    else
      var rest := MapAll(xs[1..], f);
      if rest.Err? then
        TailFailureFails(xs, f);
        Err(rest.error)
      else
        ConsResults(xs, f(xs[0]).value, rest.value, f);
        Ok([f(xs[0]).value] + rest.value)
  }

  /** An element of the tail that fails is an element of the whole that fails. */
  lemma TailFailureFails<E, R>(xs: seq<E>, f: E -> Result<R>)
    requires xs != []
    requires !forall i :: 0 <= i < |xs[1..]| ==> f(xs[1..][i]).Ok?
    ensures !forall i :: 0 <= i < |xs| ==> f(xs[i]).Ok?
  {
    var j :| 0 <= j < |xs[1..]| && !f(xs[1..][j]).Ok?;
    assert xs[1..][j] == xs[j + 1];
  }

  /** The head's result in front of the tail's results gives the results of all
      elements. */
  lemma ConsResults<E, R>(xs: seq<E>, head: R, rest: seq<R>, f: E -> Result<R>)
    requires xs != [] && f(xs[0]) == Ok(head)
    requires |rest| == |xs| - 1
    requires forall i :: 0 <= i < |xs[1..]| ==> Ok(rest[i]) == f(xs[1..][i])
    ensures forall i :: 0 <= i < |xs| ==> Ok(([head] + rest)[i]) == f(xs[i])
    ensures forall i :: 0 <= i < |xs| ==> f(xs[i]).Ok?
  {
    forall i | 0 <= i < |xs| ensures Ok(([head] + rest)[i]) == f(xs[i]) {
      if i > 0 {
        assert xs[i] == xs[1..][i - 1];
      }
    }
  }

  /** A comprehension that fails raises the error of the first element that fails. */
  lemma {:induction false} MapAllFailsAtFirstFailure<E, R>(xs: seq<E>, f: E -> Result<R>)
    requires MapAll(xs, f).Err?
    ensures exists i :: FirstErr(xs, f, i) && f(xs[i]) == Err(MapAll(xs, f).error)
  {
    if f(xs[0]).Err? {
      assert FirstErr(xs, f, 0);
    } else {
      var tail := xs[1..];
      MapAllFailsAtFirstFailure(tail, f);
      var k :| FirstErr(tail, f, k) && f(tail[k]) == Err(MapAll(tail, f).error);
      assert xs[k + 1] == tail[k];
      forall j | 0 <= j < k + 1
        ensures f(xs[j]).Ok?
      {
        if j > 0 { assert xs[j] == tail[j - 1]; }
      }
      assert FirstErr(xs, f, k + 1);
    }
  }

  /** Element `i` is the first one on which `f` fails. */
  predicate FirstErr<E, R>(xs: seq<E>, f: E -> Result<R>, i: int) {
    0 <= i < |xs| && f(xs[i]).Err? && forall j :: 0 <= j < i ==> f(xs[j]).Ok?
  }

  /** The comprehension over one element is that element's result. */
  lemma MapOne<E, R>(x: E, y: R, f: E -> Result<R>)
    requires f(x) == Ok(y)
    ensures MapAll([x], f) == Ok([y])
  {
    assert [x][1..] == [];
    assert [y] + [] == [y];
  }

  /** The error of a failed `items` comprehension is that of the first entry
      that fails. */
  lemma ParseItemsFailsAtFirstFailure(entries: seq<Entry>)
    requires ParseItems(entries).Err?
    ensures exists i :: FirstFailure(entries, i) && ParseEntry(entries[i]) == Err(ParseItems(entries).error)
  {
    MapAllFailsAtFirstFailure(entries, ParseEntry);
    var i :| FirstErr(entries, ParseEntry, i) && ParseEntry(entries[i]) == Err(ParseItems(entries).error);
    assert FirstFailure(entries, i);
  }

  /** Entry `i` is the first one that fails to parse. */
  predicate FirstFailure(entries: seq<Entry>, i: int) {
    0 <= i < |entries| && ParseEntry(entries[i]).Err? &&
    forall j :: 0 <= j < i ==> ParseEntry(entries[j]).Ok?
  }

  /** `document[key].items()`: a missing key is a KeyError, a value without
      `.items()` an AttributeError. */
  function EntriesOf(doc: Doc, key: string): (r: Result<seq<Entry>>)
    requires doc.Mapping?
    ensures r.Ok? <==> Get(doc, key).Some? && Get(doc, key).value.Mapping?
    ensures r.Ok? ==> r.value == Get(doc, key).value.entries
  {
    match Get(doc, key)
    case None => Err(KeyError(key))
    case Some(v) => if v.Mapping? then Ok(v.entries) else Err(AttributeError)
  }

  /** `parse(document)`: the category names are the keys of `categories` and the
      items are read from `items`, both in document order. */
  function Parse(doc: Doc): (r: Result<Manifest>)
    ensures r.Ok? ==>
      doc.Mapping? && EntriesOf(doc, CATEGORIES).Ok? && EntriesOf(doc, ITEMS).Ok? &&
      r.value.categoryNames == Keys(EntriesOf(doc, CATEGORIES).value) &&
      Ok(r.value.items) == ParseItems(EntriesOf(doc, ITEMS).value)
    ensures (doc.Mapping? && EntriesOf(doc, CATEGORIES).Ok? && EntriesOf(doc, ITEMS).Ok? &&
             ParseItems(EntriesOf(doc, ITEMS).value).Ok?) ==> r.Ok?
    ensures !doc.Mapping? ==> r == Err(TypeError)
    ensures doc.Mapping? && Get(doc, CATEGORIES).None? ==> r == Err(KeyError(CATEGORIES))
    ensures doc.Mapping? && EntriesOf(doc, CATEGORIES).Ok? && Get(doc, ITEMS).None? ==> r == Err(KeyError(ITEMS))
    ensures doc.Mapping? && EntriesOf(doc, CATEGORIES).Ok? && EntriesOf(doc, ITEMS).Ok? ==>
      (r.Err? <==> ParseItems(EntriesOf(doc, ITEMS).value).Err?) &&
      (r.Err? ==> r.error == ParseItems(EntriesOf(doc, ITEMS).value).error)
  {
    if !doc.Mapping? then Err(TypeError)
    else match EntriesOf(doc, CATEGORIES)
      case Err(e) => Err(e)
      case Ok(categories) =>
        match EntriesOf(doc, ITEMS)
        case Err(e) => Err(e)
        case Ok(items) =>
          match ParseItems(items)
          case Err(e) => Err(e)
          case Ok(records) => Ok(Manifest(Keys(categories), records))
  }

  /** What reading a loaded manifest comes to: rejected by validation, failed
      while parsing, or accepted. */
  datatype Reading = Rejected(rejection: Rejection) | Failed(error: Error) | Accepted(manifest: Manifest)

  /** The validate-then-parse step of `from_file`. */
  function Read(doc: Doc): (r: Reading)
    ensures r.Rejected? <==> Validate(doc).Some?
    ensures r.Rejected? ==> r.rejection == Validate(doc).value
    ensures !doc.Mapping? ==> r == Rejected(NotADocument)
    ensures r.Accepted? <==> Validate(doc).None? && Parse(doc).Ok?
    ensures r.Accepted? ==> r.manifest == Parse(doc).value
  {
    match Validate(doc)
    case Some(rejection) => Rejected(rejection)
    case None =>
      match Parse(doc)
      case Ok(m) => Accepted(m)
      case Err(e) => Failed(e)
  }

  /** Once validated, the only parse failures left come from missing keys and
      from malformed items: both schema fields, when present, are dictionaries. */
  lemma ValidatedFieldsAreMappings(doc: Doc, key: string)
    requires Validate(doc).None? && InSchema(key) && Get(doc, key).Some?
    ensures Get(doc, key).value.Mapping?
  {
    GetInIsAnEntry(doc.entries, key);
  }

  lemma {:induction false} GetInIsAnEntry(entries: seq<Entry>, key: string)
    requires GetIn(entries, key).Some?
    ensures exists i :: 0 <= i < |entries| && entries[i] == Entry(key, GetIn(entries, key).value)
  {
    if entries[0].key != key {
      GetInIsAnEntry(entries[1..], key);
      var i :| 0 <= i < |entries[1..]| && entries[1..][i] == Entry(key, GetIn(entries[1..], key).value);
      assert entries[i + 1] == entries[1..][i];
    } else {
      assert entries[0] == Entry(key, GetIn(entries, key).value);
    }
  }

  /** A document whose fields are both present dictionaries of well-formed items
      is accepted, with one category per `categories` key and one item per
      `items` key, in document order. */
  lemma AcceptedShape(doc: Doc)
    requires Read(doc).Accepted?
    ensures |Read(doc).manifest.categoryNames| == |Get(doc, CATEGORIES).value.entries|
    ensures |Read(doc).manifest.items| == |Get(doc, ITEMS).value.entries|
    ensures forall i :: 0 <= i < |Read(doc).manifest.items| ==>
      Read(doc).manifest.items[i].name == Get(doc, ITEMS).value.entries[i].key
  {
    var items := Get(doc, ITEMS).value.entries;
    var records := Read(doc).manifest.items;
    forall i | 0 <= i < |records|
      ensures records[i].name == items[i].key
    {
      assert Ok(records[i]) == ParseEntry(items[i]);
    }
  }

  // ---------------------------------------------------------------------------
  // The manifest of the parsers' unit tests
  // ---------------------------------------------------------------------------

  const COWSAY_DESCRIPTION: string := "Let an ASCII cow say stuff in your terminal!"

  /** The Cowsay item: its description is a YAML block scalar, so it loads with a
      trailing newline; it also carries fields the parsers ignore. */
  function CowsayItem(): Doc {
    Mapping([
      Entry("description", Str(COWSAY_DESCRIPTION + "\n")),
      Entry("categories", List([Str("Misc")])),
      Entry("image_url", Str("https://upload.wikimedia.org/wikipedia/commons/8/80/Cowsay_Typical_Output.png")),
      Entry("playbook", Str("playbooks/cowsay.yml")),
      Entry("params", Mapping([Entry("ansible_become_password",
        Mapping([Entry("type", Str("secret")), Entry("mandatory", Bool(true))]))])),
      Entry("requirements", Str("- ansible_distribution == 'Ubuntu'\n"))])
  }

  function CowsayManifest(): Doc {
    Mapping([
      Entry(CATEGORIES, Mapping([Entry("Misc", Mapping([]))])),
      Entry(ITEMS, Mapping([Entry("Cowsay", CowsayItem())]))])
  }

  lemma CowsayDescriptionStrips()
    ensures Text.Strip(COWSAY_DESCRIPTION + "\n") == COWSAY_DESCRIPTION
  {
    var d := COWSAY_DESCRIPTION;
    assert d[0] == 'L' && d[|d| - 1] == '!';
    assert COWSAY_DESCRIPTION + "\n" == d + ['\n'];
    Text.StripDropsTrailingSpace(d, '\n');
  }

  lemma CowsayItemFields()
    ensures Get(CowsayItem(), "description") == Some(Str(COWSAY_DESCRIPTION + "\n"))
    ensures Get(CowsayItem(), "categories") == Some(List([Str("Misc")]))
  {
    var es := CowsayItem().entries;
    assert es[0].key == "description";
    assert es[1].key == "categories" && "description" != "categories";
  }

  lemma CowsayItemParses()
    ensures ParseItem("Cowsay", CowsayItem()) == Ok(ItemRecord("Cowsay", COWSAY_DESCRIPTION, ["Misc"]))
  {
    CowsayDescriptionStrips();
    CowsayItemFields();
    MiscNames();
    ItemParses("Cowsay", CowsayItem(), COWSAY_DESCRIPTION + "\n", List([Str("Misc")]), ["Misc"]);
  }

  lemma MiscNames()
    ensures CategoryNames(List([Str("Misc")])) == Ok(["Misc"])
  {
    var names := StringItems([Str("Misc")]);
    assert [Str("Misc")][0].Str?;
    assert names.Ok? && |names.value| == 1 && names.value[0] == "Misc";
    assert names.value == ["Misc"];
  }

  /** An item whose description is text and whose categories iterate parses to
      the stripped description and those names. */
  lemma ItemParses(name: string, data: Doc, description: string, categories: Doc, names: seq<string>)
    requires data.Mapping?
    requires Get(data, "description") == Some(Str(description))
    requires Get(data, "categories") == Some(categories)
    requires CategoryNames(categories) == Ok(names)
    ensures ParseItem(name, data) == Ok(ItemRecord(name, Text.Strip(description), names))
  {
  }

  /** The parsers' test manifest reads as one category `Misc` and one item
      `Cowsay` with its description stripped and its one category. */
  lemma CowsayManifestReads()
    ensures Read(CowsayManifest()) ==
      Accepted(Manifest(["Misc"], [ItemRecord("Cowsay", COWSAY_DESCRIPTION, ["Misc"])]))
  {
    CowsayManifestValid();
    CowsaySections();
    CowsayItemParses();
    MapOne(Entry("Cowsay", CowsayItem()), ItemRecord("Cowsay", COWSAY_DESCRIPTION, ["Misc"]), ParseEntry);
    assert Keys([Entry("Misc", Mapping([]))]) == ["Misc"];
    ManifestReads(CowsayManifest(), [Entry("Misc", Mapping([]))], [Entry("Cowsay", CowsayItem())],
      [ItemRecord("Cowsay", COWSAY_DESCRIPTION, ["Misc"])]);
  }

  lemma CowsayManifestValid()
    ensures CowsayManifest().Mapping?
    ensures forall i :: 0 <= i < |CowsayManifest().entries| ==> !Broken(CowsayManifest().entries[i])
  {
    var doc := CowsayManifest();
    assert !Broken(doc.entries[0]) && !Broken(doc.entries[1]);
  }

  lemma CowsaySections()
    ensures Get(CowsayManifest(), CATEGORIES) == Some(Mapping([Entry("Misc", Mapping([]))]))
    ensures Get(CowsayManifest(), ITEMS) == Some(Mapping([Entry("Cowsay", CowsayItem())]))
  {
  }

  /** A valid document whose two sections are dictionaries and whose items all
      parse reads as the category keys and the item records. */
  lemma ManifestReads(doc: Doc, categories: seq<Entry>, items: seq<Entry>, records: seq<ItemRecord>)
    requires doc.Mapping? && forall i :: 0 <= i < |doc.entries| ==> !Broken(doc.entries[i])
    requires Get(doc, CATEGORIES) == Some(Mapping(categories))
    requires Get(doc, ITEMS) == Some(Mapping(items))
    requires ParseItems(items) == Ok(records)
    ensures Read(doc) == Accepted(Manifest(Keys(categories), records))
  {
  }

  /** Prose loads as a plain string, which validation refuses as not a document. */
  lemma ProseIsRejected()
    ensures Read(Str("this is not even YAML")) == Rejected(NotADocument)
    ensures Message(NotADocument) == ""
  {
  }
}
