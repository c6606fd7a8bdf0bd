/** The two things the core reaches outside itself for: the file system (existence,
    directory listing, the loaded manifest files, deletion) and the git client of
    `GitClientProtocol`. Both get small concrete semantics here, so that the core's
    contracts can say what a call changes and what it leaves alone. */
module Host {
  import opened Outcomes
  import opened Paths
  import opened Documents

  /** The file system: the directories that exist, and the files that exist with
      the document each one loads as. */
  class FileSystem {
    var dirs: set<Path>
    var files: map<Path, Doc>

    constructor (dirs: set<Path>, files: map<Path, Doc>)
      ensures this.dirs == dirs && this.files == files
    {
      this.dirs := dirs;
      this.files := files;
    }

    /** `p.exists()`. */
    predicate Exists(p: Path)
      reads this
    {
      p in dirs || p in files
    }

    /** What `dir.iterdir()` yields, as a set: a directory listing has no
        specified order. */
    function Children(dir: Path): (r: set<Path>)
      reads this
      ensures forall p :: p in r <==> Exists(p) && IsChildOf(p, dir)
    {
      set p | p in dirs + files.Keys && IsChildOf(p, dir)
    }

    /** `shutil.rmtree(dir)`: the directory and everything below it go away; a
        missing path fails with ENOENT and a plain file with ENOTDIR. */
    method RemoveTree(dir: Path) returns (err: Option<Error>)
      modifies this
      ensures dir in old(dirs) ==>
        err == None &&
        dirs == (set p | p in old(dirs) && !IsWithin(p, dir)) &&
        files == (map p | p in old(files) && !IsWithin(p, dir) :: old(files)[p])
      ensures dir !in old(dirs) ==>
        err == Some(OSError(if dir in old(files) then ENOTDIR else ENOENT)) && unchanged(this)
    {
      if dir in dirs {
        dirs := set p | p in dirs && !IsWithin(p, dir);
        files := map p | p in files && !IsWithin(p, dir) :: files[p];
        err := None;
      } else {
        err := Some(OSError(if dir in files then ENOTDIR else ENOENT));
      }
    }

    /** `p.unlink(missing_ok=True)`: a file is deleted, a missing path is not an
        error, and a directory cannot be unlinked (EISDIR). */
    method Unlink(p: Path) returns (err: Option<Error>)
      modifies this
      ensures p in old(files) ==> err == None && files == old(files) - {p} && dirs == old(dirs)
      ensures p !in old(files) ==>
        err == (if p in old(dirs) then Some(OSError(EISDIR)) else None) && unchanged(this)
    {
      if p in files {
        files := files - {p};
        err := None;
      } else if p in dirs {
        err := Some(OSError(EISDIR));
      } else {
        err := None;
      }
    }
  }

  /** The checked-out state of one local repository. */
  datatype Checkout = Checkout(revision: string, origin: string)

  /** A remote repository as cloning sees it: the revision its main branch points
      at, and the files at the top of that revision by name. */
  datatype Remote = Remote(head: string, rootFiles: map<string, Doc>)

  /** `files` with the top-level files of a fresh clone at `target` added. */
  function WithRootFiles(files: map<Path, Doc>, target: Path, root: map<string, Doc>): (r: map<Path, Doc>)
    ensures forall n :: n in root ==> Join(target, n) in r && r[Join(target, n)] == root[n]
    ensures forall p :: p in files && !(IsChildOf(p, target) && Name(p) in root) ==> p in r && r[p] == files[p]
    ensures forall p :: p in r ==> p in files || (IsChildOf(p, target) && Name(p) in root)
  {
    var added := set n | n in root :: Join(target, n);
    map p | p in files.Keys + added ::
      if IsChildOf(p, target) && Name(p) in root then root[Name(p)] else files[p]
  }

  /** The git client (`GitClientProtocol`, implemented with GitPython). It
      recognises the directories it has checked out, reads their revision and
      origin, clones known remotes, updates and deletes checkouts. */
  class GitClient {
    const fs: FileSystem
    const remotes: map<string, Remote>
    /** The revision `update` moves a checkout of `remote` to: the one asked for,
        or, when none is given, the head of `master` or `main`; `None` when the
        remote has no such revision or neither branch. */
    const resolve: (Remote, Option<string>) -> Option<string>
    var checkouts: map<Path, Checkout>

    constructor (fs: FileSystem, remotes: map<string, Remote>,
                 resolve: (Remote, Option<string>) -> Option<string>, checkouts: map<Path, Checkout>)
      ensures this.fs == fs && this.remotes == remotes && this.resolve == resolve
      ensures this.checkouts == checkouts
    {
      this.fs := fs;
      this.remotes := remotes;
      this.resolve := resolve;
      this.checkouts := checkouts;
    }

    /** `is_git_directory`. */
    predicate IsGitDirectory(dir: Path)
      reads this
    {
      dir in checkouts
    }

    /** `get_revision`: the commit checked out in `dir`. */
    function Revision(dir: Path): (r: Result<string>)
      reads this
      ensures r.Ok? <==> IsGitDirectory(dir)
      ensures r.Ok? ==> r.value == checkouts[dir].revision
    {
      if dir in checkouts then Ok(checkouts[dir].revision) else Err(GitError)
    }

    /** `get_origin_url`: the first URL of the remote `origin`. */
    function OriginUrl(dir: Path): (r: Result<string>)
      reads this
      ensures r.Ok? <==> IsGitDirectory(dir)
      ensures r.Ok? ==> r.value == checkouts[dir].origin
    {
      if dir in checkouts then Ok(checkouts[dir].origin) else Err(GitError)
    }

    /** `clone_repo(url, target_dir)`: fails for an unknown URL or an existing
        target; otherwise the target directory appears with the remote's top-level
        files, checked out at the remote's head. */
    method CloneRepo(url: string, target: Path) returns (err: Option<Error>)
      modifies this, fs
      ensures (url !in remotes || old(fs.Exists(target))) ==>
        err == Some(GitError) && unchanged(this) && unchanged(fs)
      ensures url in remotes && !old(fs.Exists(target)) ==>
        err == None &&
        fs.dirs == old(fs.dirs) + {target} &&
        fs.files == WithRootFiles(old(fs.files), target, remotes[url].rootFiles) &&
        checkouts == old(checkouts)[target := Checkout(remotes[url].head, url)]
    {
      if url !in remotes || fs.Exists(target) {
        return Some(GitError);
      }
      var remote := remotes[url];
      fs.dirs := fs.dirs + {target};
      fs.files := WithRootFiles(fs.files, target, remote.rootFiles);
      checkouts := checkouts[target := Checkout(remote.head, url)];
      err := None;
    }

    /** `remove_repo(directory)`: `shutil.rmtree`; every checkout inside it goes too. */
    method RemoveRepo(dir: Path) returns (err: Option<Error>)
      modifies this, fs
      ensures dir in old(fs.dirs) ==>
        err == None &&
        fs.dirs == (set p | p in old(fs.dirs) && !IsWithin(p, dir)) &&
        fs.files == (map p | p in old(fs.files) && !IsWithin(p, dir) :: old(fs.files)[p]) &&
        checkouts == (map p | p in old(checkouts) && !IsWithin(p, dir) :: old(checkouts)[p])
      ensures dir !in old(fs.dirs) ==>
        err == Some(OSError(if dir in old(fs.files) then ENOTDIR else ENOENT)) &&
        unchanged(this) && unchanged(fs)
    {
      err := fs.RemoveTree(dir);
      if err == None {
        checkouts := map p | p in checkouts && !IsWithin(p, dir) :: checkouts[p];
      }
    }

    /** Whether `update(dir, revision)` goes through: `dir` is a checkout whose
        origin is a known remote on which the revision resolves. */
    predicate CanUpdate(dir: Path, revision: Option<string>)
      reads this
    {
      dir in checkouts && checkouts[dir].origin in remotes &&
      resolve(remotes[checkouts[dir].origin], revision).Some?
    }

    /** The checkout `update(dir, revision)` leaves at `dir`. */
    function UpdatedCheckout(dir: Path, revision: Option<string>): Checkout
      reads this
      requires CanUpdate(dir, revision)
    {
      Checkout(resolve(remotes[checkouts[dir].origin], revision).value, checkouts[dir].origin)
    }

    /** `update(directory, revision)`: fetch from the origin and move the checkout
        to the resolved revision. Anything git cannot do is a GitError. */
    method Update(dir: Path, revision: Option<string>) returns (err: Option<Error>)
      modifies this
      ensures err == None <==>
        dir in old(checkouts) && old(checkouts)[dir].origin in remotes &&
        resolve(remotes[old(checkouts)[dir].origin], revision).Some?
      ensures err != None ==> err == Some(GitError) && checkouts == old(checkouts)
      ensures err == None ==>
        checkouts == old(checkouts)[dir := Checkout(
          resolve(remotes[old(checkouts)[dir].origin], revision).value, old(checkouts)[dir].origin)]
    {
      if dir !in checkouts || checkouts[dir].origin !in remotes {
        return Some(GitError);
      }
      var origin := checkouts[dir].origin;
      match resolve(remotes[origin], revision)
      case None =>
        err := Some(GitError);
      case Some(rev) =>
        checkouts := checkouts[dir := Checkout(rev, origin)];
        err := None;
    }
  }
}
