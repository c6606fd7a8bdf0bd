/** The data transfer objects the service layer hands to the entry points
    (`l3_services/dto.py`): immutable snapshots of a collection and of an app. */
module Dto {
  import opened Outcomes
  import opened Paths
  import CoreModels
  import Sorting

  /** What a caller learns about one collection. */
  datatype CollectionDto = CollectionDto(
    name: string,
    revision: string,
    path: Path,
    url: string,
    validationError: Option<string>)

  /** A collection can be snapshotted: its initialisation guard passes and its
      directory is a git checkout. */
  predicate Listable(c: CoreModels.AppCollection)
    reads c, c.git, c.git.fs
  {
    c.CanInitialize() && c.git.IsGitDirectory(c.directory)
  }

  /** The exception `from_domain` raises for a collection, if any: the
      initialisation guard's, or else git's for a directory that is no checkout. */
  function SnapshotError(c: CoreModels.AppCollection): (e: Option<Error>)
    reads c, c.git, c.git.fs
    ensures e == None <==> Listable(c)
  {
    if c.InitError().Some? then c.InitError()
    else if !c.git.IsGitDirectory(c.directory) then Some(GitError)
    else None
  }

  /** The snapshot of a collection whose directory is a checkout: its name, the
      checkout's revision and origin, its directory and its validation error. */
  function Snapshot(c: CoreModels.AppCollection): CollectionDto
    reads c, c.git
    requires c.git.IsGitDirectory(c.directory)
  {
    CollectionDto(c.name, c.git.checkouts[c.directory].revision, c.directory,
                  c.git.checkouts[c.directory].origin, c.validationError)
  }

  /** `AppCollection.from_domain`: the fields are read in declaration order.
      Reading `revision` runs the collection's initialisation guard, so the
      snapshot's validation error is the one that initialisation leaves; a
      failure of the guard or of git escapes. */
  method CollectionFromDomain(c: CoreModels.AppCollection) returns (r: Result<CollectionDto>)
    modifies c
    ensures r.Ok? <==> old(c.CanInitialize()) && c.git.IsGitDirectory(c.directory)
    ensures r.Ok? ==>
      c.initialized &&
      r.value == CollectionDto(
        c.name, c.git.Revision(c.directory).value, c.directory,
        c.git.OriginUrl(c.directory).value, c.validationError)
    ensures old(c.initialized) ==> unchanged(c)
    ensures r.Ok? <==> old(Listable(c))
    ensures r.Ok? ==> r.value == Snapshot(c)
    ensures Listable(c) <==> old(Listable(c))
    ensures r.Err? ==> Some(r.error) == old(SnapshotError(c))
    ensures SnapshotError(c) == old(SnapshotError(c))
  {
    var name := c.name;
    var revision := c.Revision();
    if revision.Err? {
      return Err(revision.error);
    }
    var path := c.directory;
    var url := c.Url();
    match url
    case Err(e) => r := Err(e);
    case Ok(origin) => r := Ok(CollectionDto(name, revision.value, path, origin, c.validationError));
  }

  /** The domain's installation status of an app. */
  datatype DomainAppStatus = Unknown | NotInstalled | Installed | Upgradable

  /** The service layer's status enum: each member is defined by the value of
      the domain member of the same name. */
  datatype AppStatus = StatusUnknown | StatusNotInstalled | StatusInstalled | StatusUpgradable {
    /** The domain member whose value this member carries. */
    function Value(): DomainAppStatus {
      match this
      case StatusUnknown => Unknown
      case StatusNotInstalled => NotInstalled
      case StatusInstalled => Installed
      case StatusUpgradable => Upgradable
    }
  }

  /** `AppStatus.from_domain`: the member with the domain status's value. */
  function StatusFromDomain(s: DomainAppStatus): (r: AppStatus)
    ensures r.Value() == s
  {
    match s
    case Unknown => StatusUnknown
    case NotInstalled => StatusNotInstalled
    case Installed => StatusInstalled
    case Upgradable => StatusUpgradable
  }

  /** Every service-layer status comes back from its own value. */
  lemma StatusRoundTrip(t: AppStatus)
    ensures StatusFromDomain(t.Value()) == t
  {
  }

  /** What a caller learns about one app. */
  datatype AppDto = AppDto(
    name: string,
    categories: seq<string>,
    collection: CollectionDto,
    status: AppStatus)
  {
    /** `__str__`. */
    function ToString(): string {
      name
    }
  }

  /** The names of a domain app's categories, in the app's order. */
  function CategoryNames(categories: seq<CoreModels.AppCategory>): seq<string> {
    seq(|categories|, i requires 0 <= i < |categories| => categories[i].name)
  }

  /** `App.from_domain`: the app's category names sorted, its status translated.
      The domain status is a parameter: the domain app's state is not part of
      this model. */
  function AppFromDomain(collection: CollectionDto, app: CoreModels.App, status: DomainAppStatus): (r: AppDto)
    ensures r.name == app.name && r.collection == collection && r.status.Value() == status
    ensures Sorting.IsSorted(r.categories)
    ensures multiset(r.categories) == multiset(CategoryNames(app.categories))
  {
    AppDto(app.name, Sorting.Sort(CategoryNames(app.categories)), collection, StatusFromDomain(status))
  }

  /** The order in which the manifest lists an app's categories does not show in
      its snapshot. */
  lemma CategoryOrderIsForgotten(collection: CollectionDto, a: CoreModels.App, b: CoreModels.App, status: DomainAppStatus)
    requires a.name == b.name
    requires multiset(CategoryNames(a.categories)) == multiset(CategoryNames(b.categories))
    ensures AppFromDomain(collection, a, status) == AppFromDomain(collection, b, status)
  {
    var x := AppFromDomain(collection, a, status);
    var y := AppFromDomain(collection, b, status);
    Sorting.SortedPermutationUnique(x.categories, y.categories);
  }

  /** An app snapshot prints as the app's name. */
  lemma SnapshotPrintsAsName(collection: CollectionDto, app: CoreModels.App, status: DomainAppStatus)
    ensures AppFromDomain(collection, app, status).ToString() == app.name
  {
  }
}
