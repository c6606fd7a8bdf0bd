/** The collection commands of the command line (`l1_entrypoints/cli/collection.py`):
    adding with a name derived from the URL, and the update reports. Printing is
    not modelled; a command's outcome is its exit code or the exception it lets
    escape, and its report is returned as text. */
module CliCollection {
  import opened Outcomes
  import opened Paths
  import Host
  import Text
  import Sorting
  import CoreModels
  import Dto
  import CatalogService

  /** `add`'s name: the one given, unless it is missing or empty; then the last
      `/`-separated part of the URL, up to its first `.`. */
  function DeriveName(url: string, name: Option<string>): (r: string)
    ensures name.Some? && name.value != "" ==> r == name.value
    ensures !(name.Some? && name.value != "") ==> '/' !in r && '.' !in r && |r| <= |url|
  {
    if name.Some? && name.value != "" then name.value
    else Text.BeforeFirst(Text.AfterLast(url, '/'), '.')
  }

  /** A derived name is the start of the URL's last path segment, cut where that
      segment's first `.` is. */
  lemma DerivedNameIsSegmentStem(url: string)
    ensures var r := DeriveName(url, None);
      exists k :: 0 <= k <= |url| - |r| &&
        (k == 0 || url[k - 1] == '/') && '/' !in url[k..] &&
        url[k..k + |r|] == r && (k + |r| == |url| || url[k + |r|] == '.')
  {
    var segment := Text.AfterLast(url, '/');
    var r := DeriveName(url, None);
    var k := |url| - |segment|;
    assert url[k..] == segment;
    assert url[k..k + |r|] == segment[..|r|];
    if k + |r| < |url| {
      assert url[k + |r|] == segment[|r|];
    }
  }

  /** The part after the last separator of a text whose final segment holds
      no separator. */
  lemma {:induction false} AfterLastOfSegment(prefix: string, segment: string, sep: char)
    requires prefix != [] && prefix[|prefix| - 1] == sep && sep !in segment
    ensures Text.AfterLast(prefix + segment, sep) == segment
  {
    if segment != [] {
      var last := |segment| - 1;
      assert (prefix + segment)[..|prefix + segment| - 1] == prefix + segment[..last];
      AfterLastOfSegment(prefix, segment[..last], sep);
      assert segment[..last] + [segment[last]] == segment;
    } else {
      assert prefix + segment == prefix;
    }
  }

  /** The part before the first separator of a stem followed by a separator. */
  lemma {:induction false} BeforeFirstOfStem(stem: string, rest: string, sep: char)
    requires sep !in stem && rest != [] && rest[0] == sep
    ensures Text.BeforeFirst(stem + rest, sep) == stem
  {
    if stem != [] {
      assert (stem + rest)[1..] == stem[1..] + rest;
      BeforeFirstOfStem(stem[1..], rest, sep);
      assert [stem[0]] + stem[1..] == stem;
    } else {
      assert stem + rest == rest;
    }
  }

  /** Deriving the name of a typical clone URL. */
  lemma DeriveFromCloneUrl()
    ensures DeriveName("https://example.org/cowsay.git", None) == "cowsay"
    ensures DeriveName("https://example.org/cowsay.git", Some("")) == "cowsay"
    ensures DeriveName("https://example.org/cowsay.git", Some("moo")) == "moo"
  {
    CowsayStem("https://example.org/cowsay.git");
  }

  /** The last segment of the example URL, up to its first dot, is `cowsay`. */
  lemma CowsayStem(url: string)
    requires url == "https://example.org/cowsay.git"
    ensures DeriveName(url, None) == "cowsay"
  {
    var host := "https://example.org/";
    assert host[|host| - 1] == '/';
    assert url == host + "cowsay.git";
    AfterLastOfSegment(host, "cowsay.git", '/');
    assert "cowsay.git" == "cowsay" + ".git";
    BeforeFirstOfStem("cowsay", ".git", '.');
  }

  /** `add(url, name)`: an invalid URL exits with code 1 before the catalog is
      touched; an existing collection exits with code 1; success exits with 0.
      Any other failure escapes. The URL validator is a parameter. Exit code 1
      is also what a snapshot failure raising either already-exists exception
      gives: the service translates the domain's into its own, and the command
      catches the service's wherever it comes from. */
  method Add(service: CatalogService.AppCatalogService, url: string, name: Option<string>, validate: string -> bool)
    returns (r: Result<int>)
    modifies service.catalog, service.catalog.git, service.catalog.git.fs
    requires service.catalog.Valid()
    ensures !validate(url) ==> r == Ok(1) && unchanged(service.catalog, service.catalog.git, service.catalog.git.fs)
    ensures validate(url) ==> service.catalog.Valid()
    ensures validate(url) && old(service.catalog.git.fs.Exists(service.catalog.GetDirectoryForCollection(DeriveName(url, name)))) ==>
      r == Ok(1)
    ensures r == Ok(0) ==> validate(url) && DeriveName(url, name) in service.catalog.collections
    ensures r.Ok? ==> r.value == 0 || r.value == 1
    ensures var catalog := service.catalog;
      var target := catalog.GetDirectoryForCollection(DeriveName(url, name));
      validate(url) && !old(catalog.git.fs.Exists(target)) && url in catalog.git.remotes ==>
        DeriveName(url, name) in catalog.collections &&
        catalog.git.checkouts == old(catalog.git.checkouts)[target := Host.Checkout(catalog.git.remotes[url].head, url)] &&
        (r == Ok(0) <==> Dto.Listable(catalog.collections[DeriveName(url, name)])) &&
        (Dto.SnapshotError(catalog.collections[DeriveName(url, name)]).Some? ==>
          var e := Dto.SnapshotError(catalog.collections[DeriveName(url, name)]).value;
          r == if CatalogService.ServiceError(e) == ServiceCollectionAlreadyExists then Ok(1) else Err(e))
    ensures var catalog := service.catalog;
      validate(url) && !old(catalog.git.fs.Exists(catalog.GetDirectoryForCollection(DeriveName(url, name)))) &&
      url !in catalog.git.remotes ==>
        r == Err(GitError) && catalog.git.checkouts == old(catalog.git.checkouts)
    ensures r.Err? ==> r.error != CollectionAlreadyExists && r.error != ServiceCollectionAlreadyExists
  {
    if !validate(url) {
      return Ok(1);
    }
    var derived := DeriveName(url, name);
    var added := service.Add(derived, url);
    match added
    case Ok(_) => r := Ok(0);
    case Err(ServiceCollectionAlreadyExists) => r := Ok(1);
    case Err(e) => r := Err(e);
  }

  /** The two reports `report_update` can print. */
  datatype UpdateReport =
    | UpToDate(name: string, revision: string)
    | Updated(name: string, from: string, to: string)
  {
    /** The line printed. */
    function Text(): string {
      match this
      case UpToDate(name, revision) => name + " is already up-to-date at revision " + revision
      case Updated(name, from, to) => "Updated " + name + " from revision " + from + " to revision " + to
    }
  }

  /** `report_update(name, new_revision, old_revision)`: up to date exactly when
      the revision did not move. */
  function ReportUpdate(name: string, newRevision: string, oldRevision: string): (r: UpdateReport)
    ensures r.name == name
    ensures r.UpToDate? <==> oldRevision == newRevision
    ensures r.UpToDate? ==> r.revision == newRevision
    ensures r.Updated? ==> r.from == oldRevision && r.to == newRevision
  {
    if oldRevision == newRevision then UpToDate(name, newRevision)
    else Updated(name, oldRevision, newRevision)
  }

  /** `update(name, revision)`: update through the service and report. */
  method Update(service: CatalogService.AppCatalogService, name: string, revision: Option<string>)
    returns (r: Result<UpdateReport>)
    modifies service.catalog, service.catalog.git, service.catalog.collections.Values
    requires service.catalog.Valid()
    ensures service.catalog.Valid()
    ensures forall c :: c in service.catalog.collections.Values ==>
      c in old(service.catalog.collections.Values) || fresh(c)
    ensures !old(service.catalog.Known(name)) ==> r == Err(AttributeError)
    ensures r.Ok? ==>
      var dir := service.catalog.GetDirectoryForCollection(name);
      dir in old(service.catalog.git.checkouts) && dir in service.catalog.git.checkouts &&
      r.value == ReportUpdate(name, service.catalog.git.checkouts[dir].revision, old(service.catalog.git.checkouts)[dir].revision)
    ensures forall k :: k in service.catalog.collections <==> old(service.catalog.Known(k))
    ensures r.Ok? <==>
      old(service.catalog.Known(name)) && service.catalog.collections[name].CanInitialize() &&
      old(service.catalog.git.CanUpdate(service.catalog.GetDirectoryForCollection(name), revision))
    ensures r.Ok? ==>
      var dir := service.catalog.GetDirectoryForCollection(name);
      service.catalog.git.checkouts ==
        old(service.catalog.git.checkouts)[dir := old(service.catalog.git.UpdatedCheckout(dir, revision))]
    ensures r.Err? ==> service.catalog.git.checkouts == old(service.catalog.git.checkouts)
    ensures old(service.catalog.Known(name)) && service.catalog.collections[name].InitError().Some? ==>
      r == Err(service.catalog.collections[name].InitError().value)
    ensures old(service.catalog.Known(name)) && service.catalog.collections[name].CanInitialize() && r.Err? ==>
      r == Err(GitError)
  {
    var revisions := service.Update(name, revision);
    if revisions.Err? {
      return Err(revisions.error);
    }
    var (oldRevision, newRevision) := revisions.value;
    r := Ok(ReportUpdate(name, newRevision, oldRevision));
  }

  /** The checkout at `dir` can move to the remote's latest revision: it exists
      and its origin is a remote whose head resolves. */
  predicate Resolvable(checkouts: map<Path, Host.Checkout>, remotes: map<string, Host.Remote>,
                       resolve: (Host.Remote, Option<string>) -> Option<string>, dir: Path)
  {
    dir in checkouts && checkouts[dir].origin in remotes &&
    resolve(remotes[checkouts[dir].origin], None).Some?
  }

  /** The checkout at `dir` after an update to the latest revision. */
  function Latest(checkouts: map<Path, Host.Checkout>, remotes: map<string, Host.Remote>,
                  resolve: (Host.Remote, Option<string>) -> Option<string>, dir: Path): Host.Checkout
    requires Resolvable(checkouts, remotes, resolve, dir)
  {
    Host.Checkout(resolve(remotes[checkouts[dir].origin], None).value, checkouts[dir].origin)
  }

  /** What a run of updates leaves: the reports of the updates that went
      through, the checkouts, and the failure that ended the run, if any. */
  datatype UpdateRun = UpdateRun(reports: seq<UpdateReport>, checkouts: map<Path, Host.Checkout>, failure: Option<Error>)
  {
    /** The same run with `earlier` reported first. */
    function After(earlier: seq<UpdateReport>): UpdateRun {
      UpdateRun(earlier + reports, checkouts, failure)
    }
  }

  /** Updating `names` one after the other to the latest revision, starting from
      `checkouts`: an unknown name is an AttributeError and a checkout that
      cannot move is a GitError, and either ends the run. */
  function RunUpdates(names: seq<string>, known: set<string>, gitDirectory: Path,
                      checkouts: map<Path, Host.Checkout>, remotes: map<string, Host.Remote>,
                      resolve: (Host.Remote, Option<string>) -> Option<string>): UpdateRun
    decreases |names|
  {
    if names == [] then UpdateRun([], checkouts, None)
    else if names[0] !in known then UpdateRun([], checkouts, Some(AttributeError))
    else
      var dir := Join(gitDirectory, names[0]);
      if !Resolvable(checkouts, remotes, resolve, dir) then UpdateRun([], checkouts, Some(GitError))
      else
        var next := Latest(checkouts, remotes, resolve, dir);
        RunUpdates(names[1..], known, gitDirectory, checkouts[dir := next], remotes, resolve)
          .After([ReportUpdate(names[0], next.revision, checkouts[dir].revision)])
  }

  /** Distinct names give distinct directories: no later name shares the first
      one's directory. */
  lemma LaterDirectoriesDiffer(names: seq<string>, gitDirectory: Path)
    requires names != []
    requires forall i, j :: 0 <= i < j < |names| ==> names[i] != names[j]
    ensures forall i :: 0 <= i < |names[1..]| ==> Join(gitDirectory, names[1..][i]) != Join(gitDirectory, names[0])
  {
    forall i | 0 <= i < |names[1..]|
      ensures Join(gitDirectory, names[1..][i]) != Join(gitDirectory, names[0])
    {
      assert names[1..][i] == names[i + 1] != names[0];
      assert Name(Join(gitDirectory, names[1..][i])) != Name(Join(gitDirectory, names[0]));
    }
  }

  /** For distinct names, a run goes through exactly when every name is known
      and every one of their checkouts can move, judged on the checkouts before
      the run. */
  lemma {:induction false} RunUpdatesSucceedsIff(names: seq<string>, known: set<string>, gitDirectory: Path,
                                                 checkouts: map<Path, Host.Checkout>, remotes: map<string, Host.Remote>,
                                                 resolve: (Host.Remote, Option<string>) -> Option<string>)
    requires forall i, j :: 0 <= i < j < |names| ==> names[i] != names[j]
    ensures RunUpdates(names, known, gitDirectory, checkouts, remotes, resolve).failure == None <==>
      forall i :: 0 <= i < |names| ==>
        names[i] in known && Resolvable(checkouts, remotes, resolve, Join(gitDirectory, names[i]))
  {
    if names != [] {
      var dir := Join(gitDirectory, names[0]);
      if names[0] in known && Resolvable(checkouts, remotes, resolve, dir) {
        var moved := checkouts[dir := Latest(checkouts, remotes, resolve, dir)];
        var tail := names[1..];
        RunUpdatesSucceedsIff(tail, known, gitDirectory, moved, remotes, resolve);
        LaterDirectoriesDiffer(names, gitDirectory);
        assert forall i :: 0 <= i < |tail| ==>
          (Resolvable(moved, remotes, resolve, Join(gitDirectory, tail[i])) <==>
           Resolvable(checkouts, remotes, resolve, Join(gitDirectory, tail[i])));
        assert forall i :: 0 < i < |names| ==> names[i] == tail[i - 1];
      }
    }
  }

  /** A run that goes through reports each of the distinct names once, in
      order, from its revision before the run to its latest one. */
  lemma {:induction false} RunUpdatesReportsEach(names: seq<string>, known: set<string>, gitDirectory: Path,
                                                 checkouts: map<Path, Host.Checkout>, remotes: map<string, Host.Remote>,
                                                 resolve: (Host.Remote, Option<string>) -> Option<string>)
    requires forall i, j :: 0 <= i < j < |names| ==> names[i] != names[j]
    requires RunUpdates(names, known, gitDirectory, checkouts, remotes, resolve).failure == None
    ensures var run := RunUpdates(names, known, gitDirectory, checkouts, remotes, resolve);
      |run.reports| == |names| &&
      forall i :: 0 <= i < |names| ==>
        var dir := Join(gitDirectory, names[i]);
        Resolvable(checkouts, remotes, resolve, dir) &&
        run.reports[i] == ReportUpdate(names[i], Latest(checkouts, remotes, resolve, dir).revision, checkouts[dir].revision)
  {
    if names != [] {
      var dir := Join(gitDirectory, names[0]);
      var next := Latest(checkouts, remotes, resolve, dir);
      var moved := checkouts[dir := next];
      var tail := names[1..];
      RunUpdatesReportsEach(tail, known, gitDirectory, moved, remotes, resolve);
      LaterDirectoriesDiffer(names, gitDirectory);
      var run := RunUpdates(names, known, gitDirectory, checkouts, remotes, resolve);
      var rest := RunUpdates(tail, known, gitDirectory, moved, remotes, resolve);
      assert run.reports == [ReportUpdate(names[0], next.revision, checkouts[dir].revision)] + rest.reports;
      forall i | 0 < i < |names|
        ensures var d := Join(gitDirectory, names[i]);
          Resolvable(checkouts, remotes, resolve, d) &&
          run.reports[i] == ReportUpdate(names[i], Latest(checkouts, remotes, resolve, d).revision, checkouts[d].revision)
      {
        assert names[i] == tail[i - 1] && run.reports[i] == rest.reports[i - 1];
      }
    }
  }

  /** A run, whether it goes through or not, keeps the set of checkouts: it only
      moves existing ones. */
  lemma {:induction false} RunUpdatesKeepsKeys(names: seq<string>, known: set<string>, gitDirectory: Path,
                                               checkouts: map<Path, Host.Checkout>, remotes: map<string, Host.Remote>,
                                               resolve: (Host.Remote, Option<string>) -> Option<string>)
    ensures RunUpdates(names, known, gitDirectory, checkouts, remotes, resolve).checkouts.Keys == checkouts.Keys
    decreases |names|
  {
    if names != [] && names[0] in known {
      var dir := Join(gitDirectory, names[0]);
      if Resolvable(checkouts, remotes, resolve, dir) {
        var moved := checkouts[dir := Latest(checkouts, remotes, resolve, dir)];
        RunUpdatesKeepsKeys(names[1..], known, gitDirectory, moved, remotes, resolve);
        assert moved.Keys == checkouts.Keys;
      }
    }
  }

  /** A run that goes through moves exactly the checkouts of the names, each to
      its latest revision, and leaves every other checkout as it was. */
  lemma {:induction false} RunUpdatesMovesExactly(names: seq<string>, known: set<string>, gitDirectory: Path,
                                                  checkouts: map<Path, Host.Checkout>, remotes: map<string, Host.Remote>,
                                                  resolve: (Host.Remote, Option<string>) -> Option<string>)
    requires forall i, j :: 0 <= i < j < |names| ==> names[i] != names[j]
    requires RunUpdates(names, known, gitDirectory, checkouts, remotes, resolve).failure == None
    ensures var run := RunUpdates(names, known, gitDirectory, checkouts, remotes, resolve);
      run.checkouts.Keys == checkouts.Keys &&
      (forall p :: p in Moved(names, gitDirectory) ==> Resolvable(checkouts, remotes, resolve, p)) &&
      forall p :: p in checkouts ==>
        run.checkouts[p] == if p in Moved(names, gitDirectory) then Latest(checkouts, remotes, resolve, p) else checkouts[p]
  {
    if names != [] {
      var dir := Join(gitDirectory, names[0]);
      var moved := checkouts[dir := Latest(checkouts, remotes, resolve, dir)];
      var tail := names[1..];
      RunUpdatesMovesExactly(tail, known, gitDirectory, moved, remotes, resolve);
      LaterDirectoriesDiffer(names, gitDirectory);
      assert Moved(names, gitDirectory) == Moved(tail, gitDirectory) + {dir} by {
        assert names == [names[0]] + tail;
      }
      forall n | n in tail
        ensures Join(gitDirectory, n) != dir
      {
        var i :| 0 <= i < |tail| && tail[i] == n;
        assert Join(gitDirectory, tail[i]) != dir;
      }
      assert dir !in Moved(tail, gitDirectory);
      forall p | p in Moved(tail, gitDirectory)
        ensures Resolvable(moved, remotes, resolve, p) ==>
          Latest(moved, remotes, resolve, p) == Latest(checkouts, remotes, resolve, p)
      {
      }
    }
  }

  /** A run reports the names it got through in order, and gets through all
      of them unless it failed. */
  lemma {:induction false} RunUpdatesReportsInOrder(names: seq<string>, known: set<string>, gitDirectory: Path,
                                                    checkouts: map<Path, Host.Checkout>, remotes: map<string, Host.Remote>,
                                                    resolve: (Host.Remote, Option<string>) -> Option<string>)
    ensures var run := RunUpdates(names, known, gitDirectory, checkouts, remotes, resolve);
      |run.reports| <= |names| && (run.failure == None ==> |run.reports| == |names|) &&
      forall i :: 0 <= i < |run.reports| ==> run.reports[i].name == names[i]
  {
    if names != [] {
      var dir := Join(gitDirectory, names[0]);
      if names[0] in known && Resolvable(checkouts, remotes, resolve, dir) {
        var moved := checkouts[dir := Latest(checkouts, remotes, resolve, dir)];
        RunUpdatesReportsInOrder(names[1..], known, gitDirectory, moved, remotes, resolve);
        var run := RunUpdates(names, known, gitDirectory, checkouts, remotes, resolve);
        var rest := RunUpdates(names[1..], known, gitDirectory, moved, remotes, resolve);
        assert run.reports == [ReportUpdate(names[0], Latest(checkouts, remotes, resolve, dir).revision,
                                            checkouts[dir].revision)] + rest.reports;
        forall i | 0 < i < |run.reports|
          ensures run.reports[i].name == names[i]
        {
          assert run.reports[i] == rest.reports[i - 1] && names[i] == names[1..][i - 1];
        }
      }
    }
  }

  /** A run that goes through, seen from each name: its checkout has moved from
      its revision before the run to its latest one, and that move is what the
      name's report says. */
  lemma RunUpdatesMovesEachNamed(names: seq<string>, known: set<string>, gitDirectory: Path,
                                 checkouts: map<Path, Host.Checkout>, remotes: map<string, Host.Remote>,
                                 resolve: (Host.Remote, Option<string>) -> Option<string>)
    requires forall i, j :: 0 <= i < j < |names| ==> names[i] != names[j]
    requires RunUpdates(names, known, gitDirectory, checkouts, remotes, resolve).failure == None
    ensures var run := RunUpdates(names, known, gitDirectory, checkouts, remotes, resolve);
      run.checkouts.Keys == checkouts.Keys && |run.reports| == |names| &&
      forall i :: 0 <= i < |names| ==>
        var dir := Join(gitDirectory, names[i]);
        dir in checkouts && dir in run.checkouts &&
        Resolvable(checkouts, remotes, resolve, dir) &&
        run.checkouts[dir] == Latest(checkouts, remotes, resolve, dir) &&
        run.reports[i] == ReportUpdate(names[i], run.checkouts[dir].revision, checkouts[dir].revision)
  {
    RunUpdatesReportsEach(names, known, gitDirectory, checkouts, remotes, resolve);
    RunUpdatesMovesExactly(names, known, gitDirectory, checkouts, remotes, resolve);
    forall i | 0 <= i < |names|
      ensures Join(gitDirectory, names[i]) in Moved(names, gitDirectory)
    {
      assert names[i] in names;
    }
  }

  /** The directories of `names` in the git directory. */
  function Moved(names: seq<string>, gitDirectory: Path): set<Path> {
    set n | n in names :: Join(gitDirectory, n)
  }

  /** One call of the service's `update(name)` is one step of a run: a failure
      ends the run where it stands, and a success moves the checkout and
      reports it before the rest of the run. */
  lemma RunUpdatesStep(names: seq<string>, n: nat, known: set<string>, gitDirectory: Path,
                       before: map<Path, Host.Checkout>, after: map<Path, Host.Checkout>,
                       remotes: map<string, Host.Remote>, resolve: (Host.Remote, Option<string>) -> Option<string>,
                       outcome: Result<(string, string)>)
    requires n < |names|
    requires outcome.Ok? <==> names[n] in known && Resolvable(before, remotes, resolve, Join(gitDirectory, names[n]))
    requires names[n] !in known ==> outcome == Err(AttributeError)
    requires names[n] in known && outcome.Err? ==> outcome == Err(GitError)
    requires outcome.Err? ==> after == before
    requires outcome.Ok? ==>
      var dir := Join(gitDirectory, names[n]);
      after == before[dir := Latest(before, remotes, resolve, dir)] &&
      outcome.value == (before[dir].revision, after[dir].revision)
    ensures outcome.Err? ==>
      RunUpdates(names[n..], known, gitDirectory, before, remotes, resolve) == UpdateRun([], before, Some(outcome.error))
    ensures outcome.Ok? ==>
      RunUpdates(names[n..], known, gitDirectory, before, remotes, resolve) ==
      RunUpdates(names[n + 1..], known, gitDirectory, after, remotes, resolve)
        .After([ReportUpdate(names[n], outcome.value.1, outcome.value.0)])
  {
    assert names[n..][0] == names[n] && names[n..][1..] == names[n + 1..];
  }

  /** One call of `update(name)` advances a run that has already reported
      `reports`: a failure ends the whole run there, and a success adds its
      report after the earlier ones. */
  lemma RunUpdatesAdvance(whole: UpdateRun, reports: seq<UpdateReport>,
                          names: seq<string>, n: nat, known: set<string>, gitDirectory: Path,
                          before: map<Path, Host.Checkout>, after: map<Path, Host.Checkout>,
                          remotes: map<string, Host.Remote>, resolve: (Host.Remote, Option<string>) -> Option<string>,
                          outcome: Result<(string, string)>)
    requires n < |names|
    requires whole == RunUpdates(names[n..], known, gitDirectory, before, remotes, resolve).After(reports)
    requires outcome.Ok? <==> names[n] in known && Resolvable(before, remotes, resolve, Join(gitDirectory, names[n]))
    requires names[n] !in known ==> outcome == Err(AttributeError)
    requires names[n] in known && outcome.Err? ==> outcome == Err(GitError)
    requires outcome.Err? ==> after == before
    requires outcome.Ok? ==>
      var dir := Join(gitDirectory, names[n]);
      after == before[dir := Latest(before, remotes, resolve, dir)] &&
      outcome.value == (before[dir].revision, after[dir].revision)
    ensures outcome.Err? ==> whole == UpdateRun(reports, after, Some(outcome.error))
    ensures outcome.Ok? ==>
      whole == RunUpdates(names[n + 1..], known, gitDirectory, after, remotes, resolve)
                 .After(reports + [ReportUpdate(names[n], outcome.value.1, outcome.value.0)])
  {
    RunUpdatesStep(names, n, known, gitDirectory, before, after, remotes, resolve, outcome);
    if outcome.Ok? {
      AfterAfter(RunUpdates(names[n + 1..], known, gitDirectory, after, remotes, resolve),
                 [ReportUpdate(names[n], outcome.value.1, outcome.value.0)], reports);
    } else {
      assert reports + [] == reports;
    }
  }

  /** Reporting `later` and then `earlier` first is reporting `earlier + later` first. */
  lemma AfterAfter(run: UpdateRun, later: seq<UpdateReport>, earlier: seq<UpdateReport>)
    ensures run.After(later).After(earlier) == run.After(earlier + later)
  {
    assert earlier + (later + run.reports) == (earlier + later) + run.reports;
  }

  /** The run's outcome as the command sees it. */
  function Outcome(run: UpdateRun): Result<seq<UpdateReport>> {
    if run.failure.Some? then Err(run.failure.value) else Ok(run.reports)
  }

  /** The loop of `update_all`: update each name once, in order, to the latest
      revision; the first failure ends it. It runs after the listing, which has
      initialised the catalog and every collection in it. */
  method UpdateEach(service: CatalogService.AppCatalogService, names: seq<string>)
    returns (r: Result<seq<UpdateReport>>, updated: seq<string>)
    modifies service.catalog, service.catalog.git, service.catalog.collections.Values
    requires service.catalog.Valid() && service.catalog.initialized
    requires forall c :: c in service.catalog.collections.Values ==> c.initialized
    ensures service.catalog.Valid()
    ensures service.catalog.collections == old(service.catalog.collections)
    ensures |updated| <= |names| && updated == names[..|updated|]
    ensures r.Ok? ==> updated == names && |r.value| == |names| &&
                      (forall i :: 0 <= i < |names| ==> r.value[i].name == names[i])
    ensures var git := service.catalog.git;
      var run := RunUpdates(names, service.catalog.collections.Keys, service.catalog.gitDirectory,
                            old(git.checkouts), git.remotes, git.resolve);
      r == Outcome(run)
    ensures var git := service.catalog.git;
      var run := RunUpdates(names, service.catalog.collections.Keys, service.catalog.gitDirectory,
                            old(git.checkouts), git.remotes, git.resolve);
      git.checkouts == run.checkouts
    ensures var git := service.catalog.git;
      var run := RunUpdates(names, service.catalog.collections.Keys, service.catalog.gitDirectory,
                            old(git.checkouts), git.remotes, git.resolve);
      |updated| == |run.reports| + (if run.failure.Some? then 1 else 0)
    ensures forall c :: c in service.catalog.collections.Values ==> c.initialized
    ensures service.catalog.git.checkouts.Keys == old(service.catalog.git.checkouts).Keys
  {
    ghost var known := service.catalog.collections.Keys;
    ghost var start := service.catalog.git.checkouts;
    RunUpdatesKeepsKeys(names, known, service.catalog.gitDirectory, start,
                        service.catalog.git.remotes, service.catalog.git.resolve);
    updated := [];
    var reports: seq<UpdateReport> := [];
    for n := 0 to |names|
      invariant service.catalog.Valid() && service.catalog.initialized
      invariant service.catalog.collections == old(service.catalog.collections)
      invariant forall c :: c in service.catalog.collections.Values ==> c.initialized
      invariant updated == names[..n] && |reports| == n
      invariant var git := service.catalog.git;
        RunUpdates(names, known, service.catalog.gitDirectory, start, git.remotes, git.resolve) ==
        RunUpdates(names[n..], known, service.catalog.gitDirectory, git.checkouts, git.remotes, git.resolve).After(reports)
    {
      ghost var before := service.catalog.git.checkouts;
      assert names[..n + 1] == names[..n] + [names[n]];
      updated := updated + [names[n]];
      var revisions := service.Update(names[n], None);
      RunUpdatesAdvance(RunUpdates(names, known, service.catalog.gitDirectory, start,
                                   service.catalog.git.remotes, service.catalog.git.resolve),
                        reports, names, n, known, service.catalog.gitDirectory, before, service.catalog.git.checkouts,
                        service.catalog.git.remotes, service.catalog.git.resolve, revisions);
      if revisions.Err? {
        return Err(revisions.error), updated;
      }
      reports := reports + [ReportUpdate(names[n], revisions.value.1, revisions.value.0)];
    }
    assert names[|names|..] == [] && names[..|names|] == names;
    assert reports + [] == reports;
    assert RunUpdates(names, known, service.catalog.gitDirectory, start, service.catalog.git.remotes,
                      service.catalog.git.resolve) == UpdateRun(reports, service.catalog.git.checkouts, None);
    RunUpdatesReportsInOrder(names, known, service.catalog.gitDirectory, start, service.catalog.git.remotes,
                             service.catalog.git.resolve);
    r := Ok(reports);
  }

  /** The names of a listing, in its order. */
  function NamesOf(dtos: seq<Dto.CollectionDto>): (names: seq<string>)
    ensures |names| == |dtos| && forall i :: 0 <= i < |dtos| ==> names[i] == dtos[i].name
  {
    seq(|dtos|, i requires 0 <= i < |dtos| => dtos[i].name)
  }

  /** A complete listing of a catalog names each of its collections once, in
      ascending order, and every collection it lists has been initialised. */
  lemma ListedNamesAreTheCatalog(dtos: seq<Dto.CollectionDto>, m: map<string, CoreModels.AppCollection>)
    requires forall k :: k in m ==> exists i :: 0 <= i < |dtos| && dtos[i].name == k
    requires forall i, j :: 0 <= i < j < |dtos| ==>
      Sorting.StrLe(dtos[i].name, dtos[j].name) && dtos[i].name != dtos[j].name
    requires forall i :: 0 <= i < |dtos| ==> dtos[i].name in m
    requires forall i :: 0 <= i < |dtos| ==>
      var c := m[dtos[i].name];
      c.initialized && c.git.IsGitDirectory(c.directory) && dtos[i] == Dto.Snapshot(c)
    ensures var names := NamesOf(dtos);
      (forall i, j :: 0 <= i < j < |names| ==> Sorting.StrLe(names[i], names[j]) && names[i] != names[j]) &&
      (forall k :: k in names <==> k in m)
    ensures forall c :: c in m.Values ==> c.initialized && c.git.IsGitDirectory(c.directory)
  {
    var names := NamesOf(dtos);
    forall k | k in m
      ensures k in names
    {
      var i :| 0 <= i < |dtos| && dtos[i].name == k;
      assert names[i] == k;
    }
    forall c | c in m.Values
      ensures c.initialized && c.git.IsGitDirectory(c.directory)
    {
      var k :| k in m && m[k] == c;
      var i :| 0 <= i < |dtos| && dtos[i].name == k;
    }
  }

  /** `update_all()`: list the collections, then update each to its latest
      revision once, in the listed order (ascending name). `updated` is the
      names `update` was called with; the first failure ends the command. */
  method UpdateAll(service: CatalogService.AppCatalogService)
    returns (r: Result<seq<UpdateReport>>, listed: seq<string>, updated: seq<string>)
    modifies service.catalog, service.catalog.git, service.catalog.collections.Values
    requires service.catalog.Valid()
    ensures service.catalog.Valid()
    ensures forall i, j :: 0 <= i < j < |listed| ==> Sorting.StrLe(listed[i], listed[j]) && listed[i] != listed[j]
    ensures forall k :: k in listed ==> old(service.catalog.Known(k))
    ensures listed != [] || r.Ok? ==> forall k :: old(service.catalog.Known(k)) ==> k in listed
    ensures listed == [] ==> updated == [] && service.catalog.git.checkouts == old(service.catalog.git.checkouts)
    ensures |updated| <= |listed| && updated == listed[..|updated|]
    ensures r.Err? && listed == [] ==>
      exists k :: k in service.catalog.collections && !Dto.Listable(service.catalog.collections[k]) &&
        Some(r.error) == Dto.SnapshotError(service.catalog.collections[k])
    ensures (exists k :: k in service.catalog.collections && !Dto.Listable(service.catalog.collections[k])) ==>
      r.Err? && listed == [] && updated == []
    ensures (forall k :: k in service.catalog.collections ==> Dto.Listable(service.catalog.collections[k])) ==>
      forall k :: old(service.catalog.Known(k)) ==> k in listed
    ensures r.Ok? ==> updated == listed && |r.value| == |listed| &&
                      (forall i :: 0 <= i < |listed| ==> r.value[i].name == listed[i])
    ensures var git := service.catalog.git;
      listed != [] ==>
        var run := RunUpdates(listed, service.catalog.collections.Keys, service.catalog.gitDirectory,
                              old(git.checkouts), git.remotes, git.resolve);
        r == Outcome(run) && git.checkouts == run.checkouts
    ensures var git := service.catalog.git;
      r.Ok? ==>
        git.checkouts.Keys == old(git.checkouts).Keys &&
        forall i :: 0 <= i < |listed| ==>
          var dir := Join(service.catalog.gitDirectory, listed[i]);
          dir in old(git.checkouts) && dir in git.checkouts &&
          Resolvable(old(git.checkouts), git.remotes, git.resolve, dir) &&
          git.checkouts[dir] == Latest(old(git.checkouts), git.remotes, git.resolve, dir) &&
          r.value[i] == ReportUpdate(listed[i], git.checkouts[dir].revision, old(git.checkouts)[dir].revision)
  {
    var collections := service.ListCollections();
    if collections.Err? {
      assert !forall k :: k in service.catalog.collections ==> Dto.Listable(service.catalog.collections[k]);
      return Err(collections.error), [], [];
    }
    listed := NamesOf(collections.value);
    ListedNamesAreTheCatalog(collections.value, service.catalog.collections);
    ghost var start := service.catalog.git.checkouts;
    assert start == old(service.catalog.git.checkouts);
    r, updated := UpdateEach(service, listed);
    ghost var git := service.catalog.git;
    ghost var run := RunUpdates(listed, service.catalog.collections.Keys, service.catalog.gitDirectory, start,
                                git.remotes, git.resolve);
    assert r == Outcome(run) && git.checkouts == run.checkouts;
    forall k | k in service.catalog.collections
      ensures Dto.Listable(service.catalog.collections[k])
    {
      assert service.catalog.collections[k] in service.catalog.collections.Values;
    }
    if r.Ok? {
      RunUpdatesMovesEachNamed(listed, service.catalog.collections.Keys, service.catalog.gitDirectory, start,
                               git.remotes, git.resolve);
      assert r.value == run.reports && git.checkouts == run.checkouts;
    }
  }
}
