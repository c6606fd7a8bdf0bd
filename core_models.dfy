/** The domain model of the layered generation (`l4_core/models.py`): apps and
    categories, an app collection backed by one git checkout and its manifest,
    and the catalog of all collections under the git directory. */
module CoreModels {
  import opened Outcomes
  import opened Paths
  import opened Documents
  import opened Host
  import Sorting

  /** The manifest at the top of every collection (`AppCollection.CONFIG_FILE_NAME`). */
  const CONFIG_FILE_NAME: string := "self-service.yaml"

  /** A finished Ansible run. */
  datatype AnsibleRunResult = AnsibleRunResult(stdout: string, stderr: string, returnCode: int) {
    /** `was_successful`, kept as written: it holds for a non-zero return code. */
    predicate WasSuccessful() {
      returnCode != 0
    }
  }

  /** The convention `was_successful` departs from: exit status 0 is reported as
      a failure, any other status as a success. */
  lemma WasSuccessfulInvertsExitStatus(stdout: string, stderr: string, code: int)
    ensures !AnsibleRunResult(stdout, stderr, 0).WasSuccessful()
    ensures code != 0 ==> AnsibleRunResult(stdout, stderr, code).WasSuccessful()
  {
  }

  datatype AppCategory = AppCategory(name: string)

  datatype App = App(name: string, description: string, categories: seq<AppCategory>)

  /** What the manifest parser's `from_file` does with a loaded manifest: return
      the categories and apps, raise the validation exception (whose `str()` is
      `message`), or raise anything else. */
  datatype ParseOutcome =
    | Parsed(categories: seq<AppCategory>, apps: seq<App>)
    | Invalid(message: string)
    | Crashed(error: Error)

  // ---------------------------------------------------------------------------
  // Name-keyed dictionaries
  // ---------------------------------------------------------------------------

  /** No element after position `i` has the same name. */
  predicate LastWithName<T>(xs: seq<T>, nameOf: T -> string, i: int) {
    0 <= i < |xs| && forall j :: i < j < |xs| ==> nameOf(xs[j]) != nameOf(xs[i])
  }

  /** `{nameOf(x): x for x in xs}`: built front to back, so a later element
      replaces an earlier one of the same name. */
  function IndexByName<T>(xs: seq<T>, nameOf: T -> string): map<string, T> {
    if xs == [] then map[]
    else
      var rest := IndexByName(xs[1..], nameOf);
      if nameOf(xs[0]) in rest then rest else rest[nameOf(xs[0]) := xs[0]]
  }

  /** Every name is a key and every key is a name; each key maps to an element of
      the list that carries that name. */
  lemma {:induction false} IndexByNameKeysAreNames<T>(xs: seq<T>, nameOf: T -> string)
    ensures forall k :: k in IndexByName(xs, nameOf) <==> exists i :: 0 <= i < |xs| && nameOf(xs[i]) == k
    ensures forall k :: k in IndexByName(xs, nameOf) ==>
      nameOf(IndexByName(xs, nameOf)[k]) == k && IndexByName(xs, nameOf)[k] in xs
  {
    if xs != [] {
      var tail := xs[1..];
      IndexByNameKeysAreNames(tail, nameOf);
      assert forall i :: 1 <= i < |xs| ==> xs[i] == tail[i - 1];
      forall k | exists i :: 0 <= i < |xs| && nameOf(xs[i]) == k
        ensures k in IndexByName(xs, nameOf)
      {
        var i :| 0 <= i < |xs| && nameOf(xs[i]) == k;
        if i > 0 {
          assert nameOf(tail[i - 1]) == k;
        }
      }
    }
  }

  /** When a name repeats, the last element with it is the one kept. */
  lemma {:induction false} IndexByNameLastWins<T>(xs: seq<T>, nameOf: T -> string, i: int)
    requires LastWithName(xs, nameOf, i)
    ensures nameOf(xs[i]) in IndexByName(xs, nameOf)
    ensures IndexByName(xs, nameOf)[nameOf(xs[i])] == xs[i]
  {
    var tail := xs[1..];
    IndexByNameKeysAreNames(tail, nameOf);
    if i > 0 {
      assert xs[i] == tail[i - 1];
      assert LastWithName(tail, nameOf, i - 1) by {
        forall j | i - 1 < j < |tail| ensures nameOf(tail[j]) != nameOf(tail[i - 1]) {
          assert tail[j] == xs[j + 1];
        }
      }
      IndexByNameLastWins(tail, nameOf, i - 1);
    }
  }

  // ---------------------------------------------------------------------------
  // AppCollection.refresh, as a function of the parse outcome
  // ---------------------------------------------------------------------------

  /** The fields `refresh` assigns. */
  datatype Contents = Contents(
    categories: map<string, AppCategory>,
    apps: map<string, App>,
    validationError: Option<string>)

  function CategoryName(c: AppCategory): string { c.name }
  function AppName(a: App): string { a.name }

  /** What `refresh` makes of the parser's outcome: name-keyed dictionaries and no
      validation error after a parse; empty dictionaries and the exception's text
      after a validation failure; any other failure escapes. */
  function Refreshed(outcome: ParseOutcome): (r: Result<Contents>)
    ensures r.Err? <==> outcome.Crashed?
    ensures r.Err? ==> r.error == outcome.error
    ensures outcome.Parsed? ==>
      r.Ok? && r.value.validationError == None &&
      (forall k :: k in r.value.categories ==> r.value.categories[k].name == k && r.value.categories[k] in outcome.categories) &&
      (forall c :: c in outcome.categories ==> c.name in r.value.categories) &&
      (forall k :: k in r.value.apps ==> r.value.apps[k].name == k && r.value.apps[k] in outcome.apps) &&
      (forall a :: a in outcome.apps ==> a.name in r.value.apps)
    ensures outcome.Invalid? ==>
      r.Ok? && r.value.categories == map[] && r.value.apps == map[] &&
      r.value.validationError == Some(outcome.message)
  {
    match outcome
    case Parsed(categories, apps) =>
      var cs := IndexByName(categories, CategoryName);
      var as_ := IndexByName(apps, AppName);
      IndexByNameKeysAreNames(categories, CategoryName);
      IndexByNameKeysAreNames(apps, AppName);
      assert forall c :: c in categories ==> c.name in cs by {
        forall c | c in categories ensures c.name in cs {
          var i :| 0 <= i < |categories| && categories[i] == c;
        }
      }
      assert forall a :: a in apps ==> a.name in as_ by {
        forall a | a in apps ensures a.name in as_ {
          var i :| 0 <= i < |apps| && apps[i] == a;
        }
      }
      Ok(Contents(cs, as_, None))
    case Invalid(message) => Ok(Contents(map[], map[], Some(message)))
    case Crashed(e) => Err(e)
  }

  /** An app listed twice in a manifest keeps the later listing. */
  lemma LaterListingWins(categories: seq<AppCategory>, apps: seq<App>, i: int)
    requires LastWithName(apps, AppName, i)
    ensures Refreshed(Parsed(categories, apps)).value.apps[apps[i].name] == apps[i]
  {
    IndexByNameLastWins(apps, AppName, i);
  }

  // ---------------------------------------------------------------------------
  // AppCollection
  // ---------------------------------------------------------------------------

  /** One app collection: a git checkout under the git directory, with the
      categories and apps its manifest declares. */
  class AppCollection {
    const git: GitClient
    const parse: Doc -> ParseOutcome
    const name: string
    const directory: Path
    var categories: map<string, AppCategory>
    var apps: map<string, App>
    var validationError: Option<string>
    var initialized: bool

    constructor (git: GitClient, parse: Doc -> ParseOutcome, name: string, directory: Path)
      ensures this.git == git && this.parse == parse && this.name == name && this.directory == directory
      ensures Pristine()
    {
      this.git := git;
      this.parse := parse;
      this.name := name;
      this.directory := directory;
      categories := map[];
      apps := map[];
      validationError := None;
      initialized := false;
    }

    /** As constructed: empty, no validation error, not yet initialised. */
    predicate Pristine()
      reads this
    {
      categories == map[] && apps == map[] && validationError == None && !initialized
    }

    /** `directory / CONFIG_FILE_NAME`. */
    function ConfigPath(): Path {
      Join(directory, CONFIG_FILE_NAME)
    }

    /** What `from_file` yields for the manifest, which exists: the parser's verdict
        on the loaded document, or the IsADirectoryError of opening a directory. */
    function Outcome(): ParseOutcome
      reads git, git.fs
      requires git.fs.Exists(ConfigPath())
    {
      if ConfigPath() in git.fs.files then parse(git.fs.files[ConfigPath()])
      else Crashed(OSError(EISDIR))
    }

    /** `refresh`: a missing manifest raises and changes nothing; otherwise the
        fields become what `Refreshed` makes of the parser's outcome, or, when the
        parser fails otherwise, the failure escapes and nothing changes. */
    method Refresh() returns (err: Option<Error>)
      modifies this
      ensures !git.fs.Exists(ConfigPath()) ==> err == Some(ConfigDoesNotExist)
      ensures git.fs.Exists(ConfigPath()) ==>
        match Refreshed(Outcome())
        case Ok(c) =>
          err == None && categories == c.categories && apps == c.apps && validationError == c.validationError
        case Err(e) => err == Some(e)
      ensures err != None ==> unchanged(this)
      ensures initialized == old(initialized)
    {
      if !git.fs.Exists(ConfigPath()) {
        return Some(ConfigDoesNotExist);
      }
      match Refreshed(Outcome())
      case Err(e) =>
        err := Some(e);
      case Ok(c) =>
        categories := c.categories;
        apps := c.apps;
        validationError := c.validationError;
        err := None;
    }

    /** Whether the `Decorators.initialize` guard lets a call through: the
        collection is initialised already, or its manifest refreshes cleanly. */
    predicate CanInitialize()
      reads this, git, git.fs
    {
      initialized || (git.fs.Exists(ConfigPath()) && Refreshed(Outcome()).Ok?)
    }

    /** The exception the `Decorators.initialize` guard raises now, if any: none
        once initialised, config-does-not-exist for a missing manifest, and
        otherwise the failure `refresh` lets escape. */
    function InitError(): (e: Option<Error>)
      reads this, git, git.fs
      ensures e == None <==> CanInitialize()
      ensures !initialized && !git.fs.Exists(ConfigPath()) ==> e == Some(ConfigDoesNotExist)
    {
      if initialized then None
      else if !git.fs.Exists(ConfigPath()) then Some(ConfigDoesNotExist)
      else match Refreshed(Outcome())
        case Ok(_) => None
        case Err(e) => Some(e)
    }

    /** The `Decorators.initialize` guard: refresh once, then set the flag; if
        refresh raises the flag stays down and the next guarded call retries. */
    method Initialize() returns (err: Option<Error>)
      modifies this
      ensures old(initialized) ==> err == None && unchanged(this)
      ensures !old(initialized) && !git.fs.Exists(ConfigPath()) ==>
        err == Some(ConfigDoesNotExist) && unchanged(this)
      ensures !old(initialized) && git.fs.Exists(ConfigPath()) ==>
        match Refreshed(Outcome())
        case Ok(c) =>
          err == None && initialized &&
          categories == c.categories && apps == c.apps && validationError == c.validationError
        case Err(e) => err == Some(e) && unchanged(this)
      ensures initialized <==> old(initialized) || err == None
      ensures err == None <==> old(CanInitialize())
      ensures err == old(InitError())
    {
      err := None;
      if !initialized {
        err := Refresh();
        if err == None {
          initialized := true;
        }
      }
    }

    /** The `revision` property: initialise, then ask git. */
    method Revision() returns (r: Result<string>)
      modifies this
      ensures old(initialized) ==> unchanged(this)
      ensures r.Ok? ==> initialized && git.Revision(directory) == r
      ensures r.Ok? <==> old(CanInitialize()) && git.IsGitDirectory(directory)
      ensures initialized && r.Err? ==> r == git.Revision(directory)
      ensures old(InitError()).Some? ==> r == Err(old(InitError()).value)
      ensures old(InitError()).None? ==> r == git.Revision(directory)
    {
      var err := Initialize();
      if err.Some? {
        return Err(err.value);
      }
      r := git.Revision(directory);
    }

    /** The `url` property: initialise, then ask git for the origin's URL. */
    method Url() returns (r: Result<string>)
      modifies this
      ensures old(initialized) ==> unchanged(this)
      ensures r.Ok? ==> initialized && git.OriginUrl(directory) == r
      ensures r.Ok? <==> old(CanInitialize()) && git.IsGitDirectory(directory)
      ensures initialized && r.Err? ==> r == git.OriginUrl(directory)
      ensures old(InitError()).Some? ==> r == Err(old(InitError()).value)
      ensures old(InitError()).None? ==> r == git.OriginUrl(directory)
    {
      var err := Initialize();
      if err.Some? {
        return Err(err.value);
      }
      r := git.OriginUrl(directory);
    }

    /** `update(revision)`: the revision before and after the git update. It does
        not refresh the collection afterwards: categories, apps and the validation
        error are what initialisation left. */
    method Update(revision: Option<string>) returns (r: Result<(string, string)>)
      modifies this, git
      ensures old(initialized) ==>
        categories == old(categories) && apps == old(apps) && validationError == old(validationError)
      ensures r.Ok? ==>
        initialized &&
        directory in old(git.checkouts) && directory in git.checkouts &&
        r.value.0 == old(git.checkouts)[directory].revision &&
        r.value.1 == git.checkouts[directory].revision &&
        git.checkouts == old(git.checkouts)[directory := git.checkouts[directory]]
      ensures old(initialized) && directory !in old(git.checkouts) ==>
        r == Err(GitError) && git.checkouts == old(git.checkouts)
      ensures r.Ok? <==> old(CanInitialize()) && old(git.CanUpdate(directory, revision))
      ensures r.Ok? ==> git.checkouts == old(git.checkouts)[directory := old(git.UpdatedCheckout(directory, revision))]
      ensures r.Err? ==> git.checkouts == old(git.checkouts)
      ensures initialized <==> old(CanInitialize())
      ensures CanInitialize() <==> old(CanInitialize())
      ensures old(CanInitialize()) && r.Err? ==> r == Err(GitError)
      ensures old(InitError()).Some? ==> r == Err(old(InitError()).value) && InitError() == old(InitError())
    {
      var err := Initialize();
      if err.Some? {
        return Err(err.value);
      }
      // Both reads of the `revision` property pass the guard without refreshing.
      var before := git.Revision(directory);
      if before.Err? {
        return Err(before.error);
      }
      err := git.Update(directory, revision);
      if err.Some? {
        return Err(err.value);
      }
      var after := git.Revision(directory).value;
      r := Ok((before.value, after));
    }
  }

  // ---------------------------------------------------------------------------
  // AppCatalog
  // ---------------------------------------------------------------------------

  /** All collections, kept in a dictionary by name. */
  class AppCatalog {
    const gitDirectory: Path
    const git: GitClient
    const parse: Doc -> ParseOutcome
    var collections: map<string, AppCollection>
    var initialized: bool

    constructor (gitDirectory: Path, git: GitClient, parse: Doc -> ParseOutcome)
      ensures this.gitDirectory == gitDirectory && this.git == git && this.parse == parse
      ensures collections == map[] && !initialized
      ensures Valid()
    {
      this.gitDirectory := gitDirectory;
      this.git := git;
      this.parse := parse;
      collections := map[];
      initialized := false;
    }

    /** Every collection is stored under its own name, lives in the git directory
        under that name, and works through the catalog's git client. */
    predicate Valid()
      reads this
    {
      forall k :: k in collections ==>
        collections[k].name == k &&
        collections[k].directory == GetDirectoryForCollection(k) &&
        collections[k].git == git
    }

    /** `get_directory_for_collection(name)`: `git_directory / name`. */
    function GetDirectoryForCollection(name: string): (p: Path)
      ensures IsChildOf(p, gitDirectory) && Name(p) == name
    {
      Join(gitDirectory, name)
    }

    /** `name` is the base name of a child of the git directory that the git
        client recognises as a repository. */
    predicate OnDisk(name: string)
      reads git, git.fs
    {
      var dir := GetDirectoryForCollection(name);
      dir in git.fs.Children(gitDirectory) && git.IsGitDirectory(dir)
    }

    /** The names an initialised catalog would hold: its dictionary's keys once
        initialised, the repositories on disk before. */
    predicate Known(name: string)
      reads this, git, git.fs
    {
      if initialized then name in collections else OnDisk(name)
    }

    /** `refresh`: a new dictionary with one fresh, uninitialised collection per
        git repository directly inside the git directory, keyed by its base name. */
    method Refresh()
      modifies this
      requires Valid()
      ensures Valid() && initialized == old(initialized)
      ensures forall k :: k in collections <==> OnDisk(k)
      ensures forall k :: k in collections ==>
        fresh(collections[k]) && collections[k].Pristine() && collections[k].parse == parse
    {
      collections := map[];
      var children := git.fs.Children(gitDirectory);
      var todo := children;
      while todo != {}
        invariant todo <= children
        invariant Valid() && initialized == old(initialized)
        invariant forall k :: k in collections <==>
          GetDirectoryForCollection(k) in children - todo && git.IsGitDirectory(GetDirectoryForCollection(k))
        invariant forall k :: k in collections ==>
          fresh(collections[k]) && collections[k].Pristine() && collections[k].parse == parse
        decreases todo
      {
        var child :| child in todo;
        if git.IsGitDirectory(child) {
          ChildIsJoinOfName(child, gitDirectory);
          ghost var before := collections;
          var c := new AppCollection(git, parse, Name(child), child);
          collections := collections[Name(child) := c];
          forall k | k in collections
            ensures fresh(collections[k]) && collections[k].Pristine() && collections[k].parse == parse
          {
            if k != Name(child) {
              assert collections[k] == before[k];
            }
          }
        }
        todo := todo - {child};
        forall k ensures k in collections <==>
          GetDirectoryForCollection(k) in children - todo && git.IsGitDirectory(GetDirectoryForCollection(k))
        {
          if GetDirectoryForCollection(k) == child {
            JoinInjective(gitDirectory, k, Name(child));
          }
        }
      }
    }

    /** The catalog's `Decorators.initialize` guard (its refresh cannot fail). */
    method Initialize()
      modifies this
      requires Valid()
      ensures Valid() && initialized
      ensures forall k :: k in collections <==> old(Known(k))
      ensures old(initialized) ==> collections == old(collections)
      ensures forall k :: k in collections ==>
        (k in old(collections) && collections[k] == old(collections)[k]) ||
        (fresh(collections[k]) && collections[k].Pristine())
    {
      if !initialized {
        Refresh();
        initialized := true;
      }
    }

    /** `get_collection_by_name(name)`: the collection, or `None` for an unknown name. */
    method GetCollectionByName(name: string) returns (r: Option<AppCollection>)
      modifies this
      requires Valid()
      ensures Valid() && initialized
      ensures forall k :: k in collections <==> old(Known(k))
      ensures old(initialized) ==> collections == old(collections)
      ensures r.Some? <==> name in collections
      ensures r.Some? ==> r.value == collections[name] && r.value.name == name
      ensures r.Some? ==> r.value in old(collections.Values) || fresh(r.value)
      ensures forall c :: c in collections.Values ==> c in old(collections.Values) || fresh(c)
    {
      Initialize();
      if name in collections {
        r := Some(collections[name]);
      } else {
        r := None;
      }
    }

    /** `list()`: the collections ordered by name. */
    method List() returns (r: seq<AppCollection>)
      modifies this
      requires Valid()
      ensures Valid() && initialized
      ensures forall k :: k in collections <==> old(Known(k))
      ensures old(initialized) ==> collections == old(collections)
      ensures |r| == |collections|
      ensures forall i :: 0 <= i < |r| ==> r[i].name in collections && collections[r[i].name] == r[i]
      ensures forall i, j :: 0 <= i < j < |r| ==> Sorting.StrLe(r[i].name, r[j].name) && r[i].name != r[j].name
      ensures forall c :: c in collections.Values ==> c in r
      ensures forall c :: c in r ==> c in old(collections.Values) || fresh(c)
    {
      Initialize();
      r := OrderedByName(collections);
    }

    /** `add(name, url)`: an existing target directory is refused before anything
        happens; otherwise the repository is cloned and exactly one new,
        uninitialised collection is added under `name`. */
    method Add(name: string, url: string) returns (r: Result<AppCollection>)
      modifies this, git, git.fs
      requires Valid()
      ensures Valid() && initialized
      ensures old(git.fs.Exists(GetDirectoryForCollection(name))) ==>
        r == Err(CollectionAlreadyExists) && git.checkouts == old(git.checkouts) &&
        git.fs.dirs == old(git.fs.dirs) && git.fs.files == old(git.fs.files)
      ensures r.Ok? ==>
        fresh(r.value) && r.value.Pristine() && r.value.name == name &&
        r.value.directory == GetDirectoryForCollection(name) &&
        name in collections && collections[name] == r.value && url in git.remotes &&
        git.checkouts == old(git.checkouts)[GetDirectoryForCollection(name) := Checkout(git.remotes[url].head, url)]
      ensures r.Ok? <==> !old(git.fs.Exists(GetDirectoryForCollection(name))) && url in git.remotes
      ensures r.Ok? ==>
        git.fs.dirs == old(git.fs.dirs) + {GetDirectoryForCollection(name)} &&
        git.fs.files == WithRootFiles(old(git.fs.files), GetDirectoryForCollection(name), git.remotes[url].rootFiles)
      ensures !old(git.fs.Exists(GetDirectoryForCollection(name))) && url !in git.remotes ==>
        r == Err(GitError) && git.checkouts == old(git.checkouts) &&
        git.fs.dirs == old(git.fs.dirs) && git.fs.files == old(git.fs.files)
      ensures forall k :: k in collections <==> old(Known(k)) || (r.Ok? && k == name)
      ensures old(initialized) ==> forall k :: k in old(collections) && (r.Err? || k != name) ==>
        k in collections && collections[k] == old(collections)[k]
    {
      Initialize();
      var target := GetDirectoryForCollection(name);
      if git.fs.Exists(target) {
        return Err(CollectionAlreadyExists);
      }
      var err := git.CloneRepo(url, target);
      if err.Some? {
        return Err(err.value);
      }
      var c := new AppCollection(git, parse, name, target);
      collections := collections[name := c];
      r := Ok(c);
    }

    /** `remove(name)`: the directory is deleted only if it exists, then the name
        is popped, which raises KeyError for an unknown name. */
    method Remove(name: string) returns (err: Option<Error>)
      modifies this, git, git.fs
      requires Valid()
      ensures Valid() && initialized
      ensures var target := GetDirectoryForCollection(name);
        target in old(git.fs.dirs) ==>
          git.fs.dirs == (set p | p in old(git.fs.dirs) && !IsWithin(p, target)) &&
          git.fs.files == (map p | p in old(git.fs.files) && !IsWithin(p, target) :: old(git.fs.files)[p]) &&
          git.checkouts == (map p | p in old(git.checkouts) && !IsWithin(p, target) :: old(git.checkouts)[p])
      ensures GetDirectoryForCollection(name) !in old(git.fs.dirs) ==>
        git.checkouts == old(git.checkouts) && git.fs.dirs == old(git.fs.dirs) && git.fs.files == old(git.fs.files)
      ensures err == None <==>
        old(Known(name)) && (GetDirectoryForCollection(name) in old(git.fs.files) ==> GetDirectoryForCollection(name) in old(git.fs.dirs))
      ensures var target := GetDirectoryForCollection(name);
        err != None ==>
          err == if target in old(git.fs.files) && target !in old(git.fs.dirs) then Some(OSError(ENOTDIR)) else Some(KeyError(name))
      ensures err == None ==> forall k :: k in collections <==> old(Known(k)) && k != name
      ensures err != None ==> forall k :: k in collections <==> old(Known(k))
      ensures old(initialized) ==> forall k :: k in collections ==> k in old(collections) && collections[k] == old(collections)[k]
    {
      Initialize();
      var target := GetDirectoryForCollection(name);
      if git.fs.Exists(target) {
        err := git.RemoveRepo(target);
        if err.Some? {
          return;
        }
      }
      if name !in collections {
        return Some(KeyError(name));
      }
      collections := collections - {name};
      err := None;
    }
  }

  /** The values of a name-keyed dictionary in ascending order of name. */
  method OrderedByName(byName: map<string, AppCollection>) returns (r: seq<AppCollection>)
    requires forall k :: k in byName ==> byName[k].name == k
    ensures |r| == |byName|
    ensures forall i :: 0 <= i < |r| ==> r[i].name in byName && byName[r[i].name] == r[i]
    ensures forall i, j :: 0 <= i < j < |r| ==> Sorting.StrLe(r[i].name, r[j].name) && r[i].name != r[j].name
    ensures forall c :: c in byName.Values ==> c in r
  {
    var keys := SortedKeys(byName.Keys);
    r := seq(|keys|, i requires 0 <= i < |keys| => byName[keys[i]]);
    assert forall i :: 0 <= i < |r| ==> r[i].name == keys[i];
    forall c | c in byName.Values ensures c in r {
      var k :| k in byName && byName[k] == c;
      var i :| 0 <= i < |keys| && keys[i] == k;
      assert r[i] == c;
    }
  }

  /** The keys of a dictionary in ascending order, as `sorted(d.items())` visits
      them (keys are unique, so the values are never compared). */
  method SortedKeys(keys: set<string>) returns (r: seq<string>)
    ensures Sorting.IsSorted(r)
    ensures |r| == |keys|
    ensures forall k :: k in r <==> k in keys
    ensures forall i, j :: 0 <= i < j < |r| ==> r[i] != r[j]
  {
    var listed: seq<string> := [];
    var rest := keys;
    while rest != {}
      invariant rest <= keys
      invariant forall k :: k in listed <==> k in keys - rest
      invariant forall i, j :: 0 <= i < j < |listed| ==> listed[i] != listed[j]
      invariant |listed| + |rest| == |keys|
      decreases rest
    {
      var k :| k in rest;
      listed := listed + [k];
      rest := rest - {k};
    }
    r := Sorting.Sort(listed);
    forall k ensures k in r <==> k in listed {
      assert k in r <==> k in multiset(r);
      assert k in listed <==> k in multiset(listed);
    }
    PermutationKeepsDistinct(listed, r);
  }

  predicate Distinct(s: seq<string>) {
    forall i, j :: 0 <= i < j < |s| ==> s[i] != s[j]
  }

  /** Reordering a sequence without repeats leaves it without repeats. */
  lemma PermutationKeepsDistinct(a: seq<string>, b: seq<string>)
    requires Distinct(a) && multiset(a) == multiset(b)
    ensures Distinct(b)
  {
    forall i, j | 0 <= i < j < |b| ensures b[i] != b[j] {
      if b[i] == b[j] {
        RepeatCountsTwice(b, i, j);
        DistinctCountsOnce(a, b[i]);
      }
    }
  }

  lemma RepeatCountsTwice(s: seq<string>, i: int, j: int)
    requires 0 <= i < j < |s| && s[i] == s[j]
    ensures multiset(s)[s[i]] >= 2
  {
    assert s == s[..i] + [s[i]] + s[i + 1..j] + [s[j]] + s[j + 1..];
  }

  /** An element of a sequence without repeats occurs in it exactly once. */
  lemma {:induction false} DistinctCountsOnce(s: seq<string>, x: string)
    requires Distinct(s)
    ensures multiset(s)[x] <= 1
  {
    if s != [] {
      assert s == [s[0]] + s[1..];
      DistinctCountsOnce(s[1..], x);
      if s[0] == x {
        assert x !in s[1..];
      }
    }
  }
}
