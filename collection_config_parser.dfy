/** `YamlAppCollectionConfigParser` (the layered generation's manifest parser),
    from the loaded document on: validate, then build `AppCategory` and `App`
    values, reported as the parser protocol's outcome. */
module AppCollectionConfigParser {
  import opened Outcomes
  import opened Documents
  import opened CoreModels
  import Text
  import ManifestSchema

  /** `parse_item`'s constructor call: each category name wrapped as a category. */
  function ToApp(item: ManifestSchema.ItemRecord): (a: App)
    ensures a.name == item.name && a.description == item.description
    ensures |a.categories| == |item.categoryNames|
    ensures forall i :: 0 <= i < |a.categories| ==> a.categories[i].name == item.categoryNames[i]
  {
    App(item.name, item.description,
        seq(|item.categoryNames|, i requires 0 <= i < |item.categoryNames| => AppCategory(item.categoryNames[i])))
  }

  /** The names of an app's categories, in order. */
  function CategoryNamesOf(app: App): (r: seq<string>)
    ensures |r| == |app.categories| && forall k :: 0 <= k < |r| ==> r[k] == app.categories[k].name
  {
    seq(|app.categories|, k requires 0 <= k < |app.categories| => app.categories[k].name)
  }

  /** One category per name, in order. */
  function Categories(names: seq<string>): (r: seq<AppCategory>)
    ensures |r| == |names| && forall i :: 0 <= i < |names| ==> r[i] == AppCategory(names[i])
  {
    seq(|names|, i requires 0 <= i < |names| => AppCategory(names[i]))
  }

  /** One app per item record, in order. */
  function Apps(items: seq<ManifestSchema.ItemRecord>): (r: seq<App>)
    ensures |r| == |items| && forall i :: 0 <= i < |items| ==> r[i] == ToApp(items[i])
  {
    seq(|items|, i requires 0 <= i < |items| => ToApp(items[i]))
  }

  /** `from_file` once the file is loaded: a rejected document is a validation
      failure carrying the exception's text; otherwise one category per key of
      `categories` and one app per entry of `items`, in document order. */
  function FromDocument(doc: Doc): (r: ParseOutcome)
    ensures r.Invalid? <==> ManifestSchema.Validate(doc).Some?
    ensures r.Invalid? ==> r.message == ManifestSchema.Message(ManifestSchema.Validate(doc).value)
    ensures !doc.Mapping? ==> r == Invalid("")
    ensures r.Crashed? ==> ManifestSchema.Validate(doc).None? && ManifestSchema.Parse(doc) == Err(r.error)
    ensures r.Parsed? <==> ManifestSchema.Read(doc).Accepted?
    ensures r.Parsed? ==>
      var categories := Get(doc, ManifestSchema.CATEGORIES).value.entries;
      |r.categories| == |categories| &&
      forall i :: 0 <= i < |categories| ==> r.categories[i] == AppCategory(categories[i].key)
    ensures r.Parsed? ==>
      var items := Get(doc, ManifestSchema.ITEMS).value.entries;
      |r.apps| == |items| &&
      forall i :: 0 <= i < |items| ==>
        ManifestSchema.ParseEntry(items[i]).Ok? &&
        r.apps[i] == ToApp(ManifestSchema.ParseEntry(items[i]).value)
  {
    match ManifestSchema.Read(doc)
    case Rejected(rejection) => Invalid(ManifestSchema.Message(rejection))
    case Failed(e) => Crashed(e)
    case Accepted(m) =>
      Parsed(Categories(m.categoryNames), Apps(m.items))
  }

  /** An app read from the manifest has the key it is listed under as its name,
      the stripped description, and its listed category names, in order. */
  lemma AppsFollowTheManifest(doc: Doc, i: int)
    requires FromDocument(doc).Parsed?
    requires 0 <= i < |Get(doc, ManifestSchema.ITEMS).value.entries|
    ensures var e := Get(doc, ManifestSchema.ITEMS).value.entries[i];
      var app := FromDocument(doc).apps[i];
      app.name == e.key &&
      Get(e.value, "description").Some? && Get(e.value, "description").value.Str? &&
      app.description == Text.Strip(Get(e.value, "description").value.s) &&
      Get(e.value, "categories").Some? &&
      ManifestSchema.CategoryNames(Get(e.value, "categories").value) == Ok(CategoryNamesOf(app))
  {
    var e := Get(doc, ManifestSchema.ITEMS).value.entries[i];
    AppIsEntryRecord(doc, i);
    EntryApp(e, ManifestSchema.ParseEntry(e).value);
  }

  /** The `i`-th app is built from the `i`-th entry's record. */
  lemma AppIsEntryRecord(doc: Doc, i: int)
    requires FromDocument(doc).Parsed?
    requires 0 <= i < |Get(doc, ManifestSchema.ITEMS).value.entries|
    ensures var e := Get(doc, ManifestSchema.ITEMS).value.entries[i];
      ManifestSchema.ParseEntry(e).Ok? && FromDocument(doc).apps[i] == ToApp(ManifestSchema.ParseEntry(e).value)
  {
  }

  /** The app built from an entry that parses carries the entry's fields. */
  lemma EntryApp(e: Entry, record: ManifestSchema.ItemRecord)
    requires ManifestSchema.ParseEntry(e) == Ok(record)
    ensures var app := ToApp(record);
      app.name == e.key &&
      Get(e.value, "description").Some? && Get(e.value, "description").value.Str? &&
      app.description == Text.Strip(Get(e.value, "description").value.s) &&
      Get(e.value, "categories").Some? &&
      ManifestSchema.CategoryNames(Get(e.value, "categories").value) == Ok(CategoryNamesOf(app))
  {
    assert CategoryNamesOf(ToApp(record)) == record.categoryNames;
  }

  /** The unit test's manifest gives the category `Misc` and the app `Cowsay`. */
  lemma CowsayManifestParses()
    ensures FromDocument(ManifestSchema.CowsayManifest()) ==
      Parsed([AppCategory("Misc")], [App("Cowsay", ManifestSchema.COWSAY_DESCRIPTION, [AppCategory("Misc")])])
  {
    var cowsay := ManifestSchema.ItemRecord("Cowsay", ManifestSchema.COWSAY_DESCRIPTION, ["Misc"]);
    ManifestSchema.CowsayManifestReads();
    AcceptedManifest(ManifestSchema.CowsayManifest(), ManifestSchema.Manifest(["Misc"], [cowsay]));
    CowsayLists();
  }

  lemma CowsayLists()
    ensures Categories(["Misc"]) == [AppCategory("Misc")]
    ensures Apps([ManifestSchema.ItemRecord("Cowsay", ManifestSchema.COWSAY_DESCRIPTION, ["Misc"])])
      == [App("Cowsay", ManifestSchema.COWSAY_DESCRIPTION, [AppCategory("Misc")])]
  {
    assert ToApp(ManifestSchema.ItemRecord("Cowsay", ManifestSchema.COWSAY_DESCRIPTION, ["Misc"])).categories == [AppCategory("Misc")];
  }

  /** An accepted manifest becomes its categories and its items' apps. */
  lemma AcceptedManifest(doc: Doc, m: ManifestSchema.Manifest)
    requires ManifestSchema.Read(doc) == ManifestSchema.Accepted(m)
    ensures FromDocument(doc) == Parsed(Categories(m.categoryNames), Apps(m.items))
  {
  }

  /** The unit test's prose "manifest" is a validation failure with empty text. */
  lemma ProseIsInvalid()
    ensures FromDocument(Str("this is not even YAML")) == Invalid("")
  {
  }

  /** A list where the schema wants a dictionary is reported field by field. */
  lemma ListOfCategoriesIsInvalid()
    ensures FromDocument(Mapping([Entry("categories", List([])), Entry("items", Mapping([]))]))
      == Invalid("{'" + ManifestSchema.CATEGORIES + "': ['" + ManifestSchema.TYPE_MESSAGE + "']}")
  {
    ListOfCategoriesRejected();
    ManifestSchema.TypeErrorMessage();
  }

  lemma ListOfCategoriesRejected()
    ensures ManifestSchema.Validate(Mapping([Entry("categories", List([])), Entry("items", Mapping([]))]))
      == Some(ManifestSchema.FieldErrors([ManifestSchema.FieldError("categories", ManifestSchema.TYPE_MESSAGE)]))
  {
    ListOfCategoriesErrors();
  }

  lemma ListOfCategoriesErrors()
    ensures ManifestSchema.FieldErrorsIn([Entry("categories", List([])), Entry("items", Mapping([]))])
      == [ManifestSchema.FieldError("categories", ManifestSchema.TYPE_MESSAGE)]
  {
    var es := [Entry("categories", List([])), Entry("items", Mapping([]))];
    assert es[1..] == [Entry("items", Mapping([]))];
    assert !ManifestSchema.Broken(es[1]);
    assert ManifestSchema.FieldErrorsIn(es[1..][1..]) == [];
    assert ManifestSchema.FieldErrorsIn(es[1..]) == [];
    assert ManifestSchema.Broken(es[0]);
  }
}
