/** `AppCatalogService` (`l3_services/app_catalog.py`): the service layer over
    the catalog. It hands out snapshots instead of domain objects and
    translates the domain's already-exists failure into its own. */
module CatalogService {
  import opened Outcomes
  import opened Host
  import opened Paths
  import CoreModels
  import Dto
  import Sorting

  /** The `except CollectionAlreadyExists` of `add`: the domain's already-exists
      failure becomes the service's, any other failure is raised as it is. */
  function ServiceError(e: Error): Error {
    if e == CollectionAlreadyExists then ServiceCollectionAlreadyExists else e
  }

  class AppCatalogService {
    const catalog: CoreModels.AppCatalog

    constructor (catalog: CoreModels.AppCatalog)
      ensures this.catalog == catalog
    {
      this.catalog := catalog;
    }

    /** `add(name, url)`: add through the catalog and snapshot the new
        collection. The domain's already-exists failure becomes the service's,
        whether the catalog's add or the snapshot raised it; any other failure
        escapes as it is. */
    method Add(name: string, url: string) returns (r: Result<Dto.CollectionDto>)
      modifies catalog, catalog.git, catalog.git.fs
      requires catalog.Valid()
      ensures catalog.Valid()
      ensures old(catalog.git.fs.Exists(catalog.GetDirectoryForCollection(name))) ==>
        r == Err(ServiceCollectionAlreadyExists)
      ensures r.Ok? ==>
        r.value.name == name && r.value.path == catalog.GetDirectoryForCollection(name) &&
        url in catalog.git.remotes && r.value.url == url &&
        r.value.revision == catalog.git.remotes[url].head &&
        name in catalog.collections && catalog.collections[name].initialized
      ensures var target := catalog.GetDirectoryForCollection(name);
        !old(catalog.git.fs.Exists(target)) && url in catalog.git.remotes ==>
          name in catalog.collections && catalog.collections[name].directory == target &&
          catalog.git.checkouts == old(catalog.git.checkouts)[target := Checkout(catalog.git.remotes[url].head, url)] &&
          catalog.git.fs.dirs == old(catalog.git.fs.dirs) + {target} &&
          catalog.git.fs.files == WithRootFiles(old(catalog.git.fs.files), target, catalog.git.remotes[url].rootFiles) &&
          (r.Ok? <==> Dto.Listable(catalog.collections[name])) &&
          (r.Ok? ==> r.value == Dto.Snapshot(catalog.collections[name])) &&
          (r.Err? ==> Dto.SnapshotError(catalog.collections[name]).Some? &&
                      r.error == ServiceError(Dto.SnapshotError(catalog.collections[name]).value))
      ensures !old(catalog.git.fs.Exists(catalog.GetDirectoryForCollection(name))) && url !in catalog.git.remotes ==>
        r == Err(GitError) && catalog.git.checkouts == old(catalog.git.checkouts) &&
        catalog.git.fs.dirs == old(catalog.git.fs.dirs) && catalog.git.fs.files == old(catalog.git.fs.files)
      ensures forall k :: k in catalog.collections <==>
        old(catalog.Known(k)) || (k == name && !old(catalog.git.fs.Exists(catalog.GetDirectoryForCollection(name))) && url in catalog.git.remotes)
      ensures r.Err? ==> r.error != CollectionAlreadyExists
    {
      var added := catalog.Add(name, url);
      if added.Err? {
        return Err(ServiceError(added.error));
      }
      r := Dto.CollectionFromDomain(added.value);
      if r.Err? {
        r := Err(ServiceError(r.error));
      }
    }

    /** `remove(name)`: the catalog's removal, failures included. */
    method Remove(name: string) returns (err: Option<Error>)
      modifies catalog, catalog.git, catalog.git.fs
      requires catalog.Valid()
      ensures catalog.Valid()
      ensures err == None <==>
        old(catalog.Known(name)) &&
        (catalog.GetDirectoryForCollection(name) in old(catalog.git.fs.files) ==>
          catalog.GetDirectoryForCollection(name) in old(catalog.git.fs.dirs))
      ensures err == None ==> forall k :: k in catalog.collections <==> old(catalog.Known(k)) && k != name
      ensures err != None ==> forall k :: k in catalog.collections <==> old(catalog.Known(k))
      ensures var target := catalog.GetDirectoryForCollection(name);
        target in old(catalog.git.fs.dirs) ==>
          catalog.git.fs.dirs == (set p | p in old(catalog.git.fs.dirs) && !IsWithin(p, target)) &&
          catalog.git.fs.files == (map p | p in old(catalog.git.fs.files) && !IsWithin(p, target) :: old(catalog.git.fs.files)[p]) &&
          catalog.git.checkouts == (map p | p in old(catalog.git.checkouts) && !IsWithin(p, target) :: old(catalog.git.checkouts)[p])
      ensures catalog.GetDirectoryForCollection(name) !in old(catalog.git.fs.dirs) ==>
        catalog.git.checkouts == old(catalog.git.checkouts) &&
        catalog.git.fs.dirs == old(catalog.git.fs.dirs) && catalog.git.fs.files == old(catalog.git.fs.files)
      ensures var target := catalog.GetDirectoryForCollection(name);
        err != None ==>
          err == if target in old(catalog.git.fs.files) && target !in old(catalog.git.fs.dirs)
                 then Some(OSError(ENOTDIR)) else Some(KeyError(name))
    {
      err := catalog.Remove(name);
    }

    /** `update(name, revision)`: look the collection up and update it. An
        unknown name makes the lookup answer `None`, whose missing `update`
        attribute is the failure. */
    method Update(name: string, revision: Option<string>) returns (r: Result<(string, string)>)
      modifies catalog, catalog.git, catalog.collections.Values
      requires catalog.Valid()
      ensures catalog.Valid()
      ensures forall k :: k in catalog.collections <==> old(catalog.Known(k))
      ensures forall c :: c in catalog.collections.Values ==> c in old(catalog.collections.Values) || fresh(c)
      ensures !old(catalog.Known(name)) ==> r == Err(AttributeError) && catalog.git.checkouts == old(catalog.git.checkouts)
      ensures r.Ok? ==>
        var dir := catalog.GetDirectoryForCollection(name);
        dir in old(catalog.git.checkouts) && dir in catalog.git.checkouts &&
        r.value.0 == old(catalog.git.checkouts)[dir].revision &&
        r.value.1 == catalog.git.checkouts[dir].revision &&
        catalog.git.checkouts == old(catalog.git.checkouts)[dir := catalog.git.checkouts[dir]]
      ensures r.Ok? <==>
        old(catalog.Known(name)) && catalog.collections[name].CanInitialize() &&
        old(catalog.git.CanUpdate(catalog.GetDirectoryForCollection(name), revision))
      ensures r.Ok? ==>
        var dir := catalog.GetDirectoryForCollection(name);
        catalog.git.checkouts == old(catalog.git.checkouts)[dir := old(catalog.git.UpdatedCheckout(dir, revision))]
      ensures r.Err? ==> catalog.git.checkouts == old(catalog.git.checkouts)
      ensures old(catalog.Known(name)) && catalog.collections[name].CanInitialize() && r.Err? ==> r == Err(GitError)
      ensures old(catalog.Known(name)) && catalog.collections[name].InitError().Some? ==>
        r == Err(catalog.collections[name].InitError().value)
      ensures catalog.initialized
      ensures old(catalog.initialized) ==> catalog.collections == old(catalog.collections)
      ensures old(catalog.initialized) ==>
        forall c :: c in catalog.collections.Values && old(c.initialized) ==> c.initialized
    {
      var found := catalog.GetCollectionByName(name);
      if found.None? {
        return Err(AttributeError);
      }
      var c := found.value;
      r := c.Update(revision);
    }

    /** `list_collections()`: a snapshot of every collection, in the catalog's
        order (ascending name). The first snapshot that fails ends the listing. */
    method ListCollections() returns (r: Result<seq<Dto.CollectionDto>>)
      modifies catalog, catalog.collections.Values
      requires catalog.Valid()
      ensures catalog.Valid() && catalog.initialized
      ensures forall k :: k in catalog.collections <==> old(catalog.Known(k))
      ensures forall c :: c in catalog.collections.Values ==> c in old(catalog.collections.Values) || fresh(c)
      ensures r.Ok? ==>
        |r.value| == |catalog.collections| &&
        (forall i :: 0 <= i < |r.value| ==> r.value[i].name in catalog.collections) &&
        (forall k :: k in catalog.collections ==> exists i :: 0 <= i < |r.value| && r.value[i].name == k) &&
        (forall i, j :: 0 <= i < j < |r.value| ==>
          Sorting.StrLe(r.value[i].name, r.value[j].name) && r.value[i].name != r.value[j].name)
      ensures r.Ok? <==> forall k :: k in catalog.collections ==> Dto.Listable(catalog.collections[k])
      ensures r.Ok? ==> forall i :: 0 <= i < |r.value| ==>
        var c := catalog.collections[r.value[i].name];
        c.initialized && c.git.IsGitDirectory(c.directory) && r.value[i] == Dto.Snapshot(c)
      ensures r.Err? ==> exists k :: (k in catalog.collections &&
        Some(r.error) == Dto.SnapshotError(catalog.collections[k]) &&
        forall k' :: k' in catalog.collections && Sorting.StrLe(k', k) && k' != k ==>
          Dto.Listable(catalog.collections[k']))
    {
      var cs := catalog.List();
      r := Snapshots(cs);
      ListingCoversCatalog(catalog.collections, cs, r);
      if r.Err? {
        var i :| 0 <= i < |cs| &&
          (forall j :: 0 <= j < i ==> Dto.Listable(cs[j])) && Some(r.error) == Dto.SnapshotError(cs[i]);
        FirstFailureInNameOrder(catalog.collections, cs, i);
      }
    }
  }

  /** The listing in name order holds each collection of `m` once, so whatever
      holds of every listed collection holds of every collection of `m`, and the
      snapshots can be found again by name. */
  lemma ListingCoversCatalog(m: map<string, CoreModels.AppCollection>, cs: seq<CoreModels.AppCollection>,
                             r: Result<seq<Dto.CollectionDto>>)
    requires |cs| == |m|
    requires forall k :: k in m ==> m[k].name == k
    requires forall i :: 0 <= i < |cs| ==> cs[i].name in m && m[cs[i].name] == cs[i]
    requires forall c :: c in m.Values ==> c in cs
    requires r.Ok? <==> forall i :: 0 <= i < |cs| ==> Dto.Listable(cs[i])
    requires r.Ok? ==>
      |r.value| == |cs| &&
      forall i :: 0 <= i < |cs| ==>
        cs[i].initialized && cs[i].git.IsGitDirectory(cs[i].directory) && r.value[i] == Dto.Snapshot(cs[i])
    ensures r.Ok? <==> forall k :: k in m ==> Dto.Listable(m[k])
    ensures r.Ok? ==>
      |r.value| == |m| &&
      (forall i :: 0 <= i < |r.value| ==>
        r.value[i].name in m &&
        var c := m[r.value[i].name];
        c.initialized && c.git.IsGitDirectory(c.directory) && r.value[i] == Dto.Snapshot(c)) &&
      (forall k :: k in m ==> exists i :: 0 <= i < |r.value| && r.value[i].name == k) &&
      (forall i :: 0 <= i < |r.value| ==> r.value[i].name == cs[i].name)
  {
    forall k | k in m
      ensures exists i :: 0 <= i < |cs| && cs[i] == m[k]
    {
      assert m[k] in m.Values;
    }
    if r.Ok? {
      forall k | k in m
        ensures exists i :: 0 <= i < |r.value| && r.value[i].name == k
        ensures Dto.Listable(m[k])
      {
        var i :| 0 <= i < |cs| && cs[i] == m[k];
        assert r.value[i].name == k;
      }
      forall i | 0 <= i < |r.value|
        ensures r.value[i].name == cs[i].name
      {
      }
    } else {
      var i :| 0 <= i < |cs| && !Dto.Listable(cs[i]);
      assert m[cs[i].name] == cs[i];
    }
  }

  /** When the listing in name order stops at entry `i`, every collection whose
      name comes before that entry's can be snapshotted: the entry is the first
      failing collection by name. */
  lemma FirstFailureInNameOrder(m: map<string, CoreModels.AppCollection>, cs: seq<CoreModels.AppCollection>, i: int)
    requires forall k :: k in m ==> m[k].name == k
    requires forall c :: c in m.Values ==> c in cs
    requires forall i, j :: 0 <= i < j < |cs| ==> Sorting.StrLe(cs[i].name, cs[j].name) && cs[i].name != cs[j].name
    requires 0 <= i < |cs| && forall j :: 0 <= j < i ==> Dto.Listable(cs[j])
    ensures forall k :: k in m && Sorting.StrLe(k, cs[i].name) && k != cs[i].name ==> Dto.Listable(m[k])
  {
    forall k | k in m && Sorting.StrLe(k, cs[i].name) && k != cs[i].name
      ensures Dto.Listable(m[k])
    {
      assert m[k] in m.Values;
      var j :| 0 <= j < |cs| && cs[j] == m[k];
      if i < j {
        Sorting.StrLeAntisymmetric(k, cs[i].name);
      }
    }
  }

  /** The comprehension of `list_collections`: one snapshot per collection, in
      order; the first snapshot that fails ends it. */
  method Snapshots(cs: seq<CoreModels.AppCollection>) returns (r: Result<seq<Dto.CollectionDto>>)
    modifies set c | c in cs
    ensures r.Ok? <==> forall i :: 0 <= i < |cs| ==> old(Dto.Listable(cs[i]))
    ensures r.Ok? ==>
      |r.value| == |cs| &&
      forall i :: 0 <= i < |cs| ==>
        cs[i].initialized && cs[i].git.IsGitDirectory(cs[i].directory) && r.value[i] == Dto.Snapshot(cs[i])
    ensures forall i :: 0 <= i < |cs| ==> (Dto.Listable(cs[i]) <==> old(Dto.Listable(cs[i])))
    ensures r.Ok? <==> forall i :: 0 <= i < |cs| ==> Dto.Listable(cs[i])
    ensures r.Err? ==> exists i :: (0 <= i < |cs| &&
      (forall j :: 0 <= j < i ==> old(Dto.Listable(cs[j]))) &&
      Some(r.error) == old(Dto.SnapshotError(cs[i])) && Some(r.error) == Dto.SnapshotError(cs[i]))
  {
    var dtos: seq<Dto.CollectionDto> := [];
    for n := 0 to |cs|
      invariant |dtos| == n
      invariant forall i :: 0 <= i < |cs| ==> (Dto.Listable(cs[i]) <==> old(Dto.Listable(cs[i])))
      invariant forall i :: 0 <= i < n ==>
        old(Dto.Listable(cs[i])) && cs[i].initialized && cs[i].git.IsGitDirectory(cs[i].directory) &&
        dtos[i] == Dto.Snapshot(cs[i])
      invariant forall c :: c in cs && c !in cs[..n] ==> unchanged(c)
    {
      var dto := Dto.CollectionFromDomain(cs[n]);
      if dto.Err? {
        assert cs[n] !in cs[..n];
        assert Some(dto.error) == old(Dto.SnapshotError(cs[n]));
        return Err(dto.error);
      }
      dtos := dtos + [dto.value];
    }
    r := Ok(dtos);
  }
}
