/** The domain model of the older generation (`core/models.py`): the manifest's
    records and the `RepoManager`, which keeps a list of the git repositories
    found in the git directory. */
module LegacyModels {
  import opened Outcomes
  import opened Paths
  import opened Host
  import CoreModels

  /** The older `AnsibleRunResult` is defined exactly as the layered one. */
  type AnsibleRunResult = CoreModels.AnsibleRunResult

  datatype RepoCategory = RepoCategory(name: string)

  datatype RepoApplicationItem = RepoApplicationItem(name: string, description: string, categories: seq<RepoCategory>)

  /** The manifest of one repository, with the path it was read from. */
  datatype RepoConfig = RepoConfig(repoPath: Path, categories: seq<RepoCategory>, items: seq<RepoApplicationItem>)

  /** A repository on disk. (Its `revision` property has an empty body.) */
  datatype GitRepo = GitRepo(path: Path)

  /** `directory_name`: the last component of the repository's path. */
  function DirectoryName(repo: GitRepo): string {
    Name(repo.path)
  }

  /** A repository cloned into `dir / name` is named `name`. */
  lemma DirectoryNameOfClone(dir: Path, name: string)
    ensures DirectoryName(GitRepo(Join(dir, name))) == name
  {
  }

  /** `==` on `GitRepo`: a dataclass whose fields are all set in a hand-written
      `__init__` has no dataclass fields, so the generated `__eq__` compares two
      empty tuples and any two repositories are equal. */
  predicate SameRepo(a: GitRepo, b: GitRepo) {
    true
  }

  /** `xs.remove(x)` with `eq` as `==`: the first element equal to `x` is dropped;
      without one, ValueError. */
  function RemoveFirst(xs: seq<GitRepo>, x: GitRepo, eq: (GitRepo, GitRepo) -> bool): (r: Result<seq<GitRepo>>)
    ensures r.Err? <==> forall i :: 0 <= i < |xs| ==> !eq(xs[i], x)
    ensures r.Err? ==> r.error == ValueError
    ensures r.Ok? ==> |r.value| == |xs| - 1
  {
    if xs == [] then Err(ValueError)
    else if eq(xs[0], x) then Ok(xs[1..])
    else
      var tail := xs[1..];
      assert forall i :: 1 <= i < |xs| ==> xs[i] == tail[i - 1];
      match RemoveFirst(tail, x, eq)
      case Err(e) => Err(e)
      case Ok(rest) => Ok([xs[0]] + rest)
  }

  /** What is removed is the first element equal to `x`, and only that one. */
  lemma {:induction false} RemoveFirstDropsFirstEqual(xs: seq<GitRepo>, x: GitRepo, eq: (GitRepo, GitRepo) -> bool)
    requires RemoveFirst(xs, x, eq).Ok?
    ensures exists i :: FirstEqual(xs, x, eq, i) && RemoveFirst(xs, x, eq).value == xs[..i] + xs[i + 1..]
  {
    if eq(xs[0], x) {
      assert xs[1..] == xs[..0] + xs[1..];
      assert FirstEqual(xs, x, eq, 0);
    } else {
      var tail := xs[1..];
      RemoveFirstDropsFirstEqual(tail, x, eq);
      var i :| FirstEqual(tail, x, eq, i) && RemoveFirst(tail, x, eq).value == tail[..i] + tail[i + 1..];
      assert [xs[0]] + (tail[..i] + tail[i + 1..]) == xs[..i + 1] + xs[i + 2..];
      assert FirstEqual(xs, x, eq, i + 1) by {
        forall j | 0 <= j < i + 1 ensures !eq(xs[j], x) {
          if j > 0 { assert xs[j] == tail[j - 1]; }
        }
      }
    }
  }

  /** Position `i` holds the first element equal to `x`. */
  predicate FirstEqual(xs: seq<GitRepo>, x: GitRepo, eq: (GitRepo, GitRepo) -> bool, i: int) {
    0 <= i < |xs| && eq(xs[i], x) && forall j :: 0 <= j < i ==> !eq(xs[j], x)
  }

  /** Since every repository equals every other, `remove` always drops the first
      entry, whichever repository is passed, and fails only on an empty list. */
  lemma RemoveDropsHead(xs: seq<GitRepo>, x: GitRepo)
    ensures xs == [] ==> RemoveFirst(xs, x, SameRepo) == Err(ValueError)
    ensures xs != [] ==> RemoveFirst(xs, x, SameRepo) == Ok(xs[1..])
  {
    if xs != [] {
      assert SameRepo(xs[0], x);
    }
  }

  /** Keeps track of all cloned repositories. `repos` is declared on the class but
      only assigned by `refresh_repos`: before that, reading it is an
      AttributeError (`None` here). */
  class RepoManager {
    const gitDirectory: Path
    const git: GitClient
    var repos: Option<seq<GitRepo>>

    constructor (gitDirectory: Path, git: GitClient)
      ensures this.gitDirectory == gitDirectory && this.git == git && repos == None
    {
      this.gitDirectory := gitDirectory;
      this.git := git;
      repos := None;
    }

    /** `refresh_repos`: the list becomes the git repositories directly inside the
        git directory, each once, in directory-listing order. */
    method RefreshRepos()
      modifies this
      ensures repos.Some?
      ensures forall r :: r in repos.value <==>
        r.path in git.fs.Children(gitDirectory) && git.IsGitDirectory(r.path)
      ensures forall i, j :: 0 <= i < j < |repos.value| ==> repos.value[i] != repos.value[j]
    {
      var children := git.fs.Children(gitDirectory);
      var found: seq<GitRepo> := [];
      var todo := children;
      while todo != {}
        invariant todo <= children
        invariant forall r :: r in found <==> r.path in children - todo && git.IsGitDirectory(r.path)
        invariant forall i, j :: 0 <= i < j < |found| ==> found[i] != found[j]
        decreases todo
      {
        var child :| child in todo;
        if git.IsGitDirectory(child) {
          found := found + [GitRepo(child)];
        }
        todo := todo - {child};
      }
      repos := Some(found);
    }

    /** `add(url, name)`: clone into `git_directory / name` (no existence check),
        then append one repository. Before any refresh the append fails after the
        clone has happened. */
    method Add(url: string, name: string) returns (err: Option<Error>)
      modifies this, git, git.fs
      ensures url !in git.remotes || old(git.fs.Exists(Join(gitDirectory, name))) ==>
        err == Some(GitError) && repos == old(repos) && git.checkouts == old(git.checkouts) &&
        git.fs.dirs == old(git.fs.dirs) && git.fs.files == old(git.fs.files)
      ensures url in git.remotes && !old(git.fs.Exists(Join(gitDirectory, name))) ==>
        git.fs.dirs == old(git.fs.dirs) + {Join(gitDirectory, name)} &&
        git.fs.files == WithRootFiles(old(git.fs.files), Join(gitDirectory, name), git.remotes[url].rootFiles) &&
        git.checkouts == old(git.checkouts)[Join(gitDirectory, name) := Checkout(git.remotes[url].head, url)] &&
        match old(repos)
        case None => err == Some(AttributeError) && repos == None
        case Some(rs) => err == None && repos == Some(rs + [GitRepo(Join(gitDirectory, name))])
    {
      var target := Join(gitDirectory, name);
      err := git.CloneRepo(url, target);
      if err.Some? {
        return;
      }
      match repos
      case None =>
        err := Some(AttributeError);
      case Some(rs) =>
        repos := Some(rs + [GitRepo(target)]);
    }

    /** `remove(repo)`: unlink the repository's path (a missing one is fine; a
        directory cannot be unlinked), then `repos.remove(repo)`. */
    method Remove(repo: GitRepo) returns (err: Option<Error>)
      modifies this, git.fs
      ensures repo.path in old(git.fs.dirs) && repo.path !in old(git.fs.files) ==>
        err == Some(OSError(EISDIR)) && repos == old(repos)
      ensures repo.path !in old(git.fs.dirs) || repo.path in old(git.fs.files) ==>
        match old(repos)
        case None => err == Some(AttributeError)
        case Some(rs) =>
          match RemoveFirst(rs, repo, SameRepo)
          case Ok(rest) => err == None && repos == Some(rest)
          case Err(e) => err == Some(e) && repos == old(repos)
      ensures repo.path in old(git.fs.files) ==>
        git.fs.files == old(git.fs.files) - {repo.path} && git.fs.dirs == old(git.fs.dirs)
      ensures repo.path !in old(git.fs.files) ==>
        git.fs.files == old(git.fs.files) && git.fs.dirs == old(git.fs.dirs)
    {
      err := git.fs.Unlink(repo.path);
      if err.Some? {
        return;
      }
      match repos
      case None =>
        err := Some(AttributeError);
      case Some(rs) =>
        match RemoveFirst(rs, repo, SameRepo)
        case Ok(rest) =>
          repos := Some(rest);
        case Err(e) =>
          err := Some(e);
    }
  }
}
