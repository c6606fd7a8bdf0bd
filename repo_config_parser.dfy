/** `YamlRepoConfigParser` (the older generation's manifest parser), from the
    loaded document on: validate, then build a `RepoConfig` of `RepoCategory` and
    `RepoApplicationItem` values. */
module RepoConfigParser {
  import opened Outcomes
  import opened Documents
  import opened Paths
  import opened LegacyModels
  import ManifestSchema

  /** `parse_item`'s constructor call. */
  function ToItem(item: ManifestSchema.ItemRecord): (a: RepoApplicationItem)
    ensures a.name == item.name && a.description == item.description
    ensures |a.categories| == |item.categoryNames|
    ensures forall i :: 0 <= i < |a.categories| ==> a.categories[i].name == item.categoryNames[i]
  {
    RepoApplicationItem(item.name, item.description,
      seq(|item.categoryNames|, i requires 0 <= i < |item.categoryNames| => RepoCategory(item.categoryNames[i])))
  }

  /** One category per name, in order. */
  function Categories(names: seq<string>): (r: seq<RepoCategory>)
    ensures |r| == |names| && forall i :: 0 <= i < |names| ==> r[i] == RepoCategory(names[i])
  {
    seq(|names|, i requires 0 <= i < |names| => RepoCategory(names[i]))
  }

  /** One application item per item record, in order. */
  function Items(items: seq<ManifestSchema.ItemRecord>): (r: seq<RepoApplicationItem>)
    ensures |r| == |items| && forall i :: 0 <= i < |items| ==> r[i] == ToItem(items[i])
  {
    seq(|items|, i requires 0 <= i < |items| => ToItem(items[i]))
  }

  /** `from_file(path)` once the file is loaded: RepoConfigValidationException for
      a rejected document, the parse failure for a malformed one, and otherwise
      the path with one category per key of `categories` and one item per entry
      of `items`, in document order. */
  function FromDocument(doc: Doc, path: Path): (r: Result<RepoConfig>)
    ensures ManifestSchema.Validate(doc).Some? ==>
      r == Err(ConfigValidation(ManifestSchema.Message(ManifestSchema.Validate(doc).value)))
    ensures !doc.Mapping? ==> r == Err(ConfigValidation(""))
    ensures r.Ok? <==> ManifestSchema.Validate(doc).None? && ManifestSchema.Parse(doc).Ok?
    ensures r.Ok? ==> r.value.repoPath == path
    ensures r.Ok? ==>
      var categories := Get(doc, ManifestSchema.CATEGORIES).value.entries;
      |r.value.categories| == |categories| &&
      forall i :: 0 <= i < |categories| ==> r.value.categories[i] == RepoCategory(categories[i].key)
    ensures r.Ok? ==>
      var items := Get(doc, ManifestSchema.ITEMS).value.entries;
      |r.value.items| == |items| &&
      forall i :: 0 <= i < |items| ==>
        ManifestSchema.ParseEntry(items[i]).Ok? &&
        r.value.items[i] == ToItem(ManifestSchema.ParseEntry(items[i]).value)
  {
    match ManifestSchema.Read(doc)
    case Rejected(rejection) => Err(ConfigValidation(ManifestSchema.Message(rejection)))
    case Failed(e) => Err(e)
    case Accepted(m) =>
      Ok(RepoConfig(path, Categories(m.categoryNames), Items(m.items)))
  }

  /** The unit test: the Cowsay manifest gives exactly one category `Misc` and
      one item `Cowsay` with the stripped description and that category. */
  lemma CowsayManifestParses(path: Path)
    ensures FromDocument(ManifestSchema.CowsayManifest(), path) ==
      Ok(RepoConfig(path, [RepoCategory("Misc")],
        [RepoApplicationItem("Cowsay", ManifestSchema.COWSAY_DESCRIPTION, [RepoCategory("Misc")])]))
  {
    var cowsay := ManifestSchema.ItemRecord("Cowsay", ManifestSchema.COWSAY_DESCRIPTION, ["Misc"]);
    ManifestSchema.CowsayManifestReads();
    AcceptedManifest(ManifestSchema.CowsayManifest(), ManifestSchema.Manifest(["Misc"], [cowsay]), path);
    CowsayLists();
  }

  lemma CowsayLists()
    ensures Categories(["Misc"]) == [RepoCategory("Misc")]
    ensures Items([ManifestSchema.ItemRecord("Cowsay", ManifestSchema.COWSAY_DESCRIPTION, ["Misc"])])
      == [RepoApplicationItem("Cowsay", ManifestSchema.COWSAY_DESCRIPTION, [RepoCategory("Misc")])]
  {
    assert ToItem(ManifestSchema.ItemRecord("Cowsay", ManifestSchema.COWSAY_DESCRIPTION, ["Misc"])).categories == [RepoCategory("Misc")];
  }

  /** An accepted manifest becomes the path with its categories and its items. */
  lemma AcceptedManifest(doc: Doc, m: ManifestSchema.Manifest, path: Path)
    requires ManifestSchema.Read(doc) == ManifestSchema.Accepted(m)
    ensures FromDocument(doc, path) == Ok(RepoConfig(path, Categories(m.categoryNames), Items(m.items)))
  {
  }

  /** The unit test's prose file raises RepoConfigValidationException. */
  lemma ProseIsInvalid(path: Path)
    ensures FromDocument(Str("this is not even YAML"), path) == Err(ConfigValidation(""))
  {
  }
}
