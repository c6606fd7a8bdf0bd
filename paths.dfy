/** File-system paths as sequences of components (pathlib.Path, reduced to what the
    model needs: `/` with one component and `.name`). */
module Paths {

  datatype Path = Path(parts: seq<string>)

  /** `p.name`: the last component, or "" for the empty path. */
  function Name(p: Path): string {
    if p.parts == [] then "" else p.parts[|p.parts| - 1]
  }

  /** `p` lies directly inside `dir`. */
  predicate IsChildOf(p: Path, dir: Path) {
    |p.parts| == |dir.parts| + 1 && p.parts[..|dir.parts|] == dir.parts
  }

  /** `p` is `dir` itself or lies somewhere below it. */
  predicate IsWithin(p: Path, dir: Path) {
    |dir.parts| <= |p.parts| && p.parts[..|dir.parts|] == dir.parts
  }

  /** `dir / name`, for a name that is a single component. */
  function Join(dir: Path, name: string): (p: Path)
    ensures IsChildOf(p, dir) && Name(p) == name
  {
    Path(dir.parts + [name])
  }

  /** A child of `dir` is `dir` joined with its own name, so children of one
      directory are told apart by their names. */
  lemma ChildIsJoinOfName(p: Path, dir: Path)
    requires IsChildOf(p, dir)
    ensures p == Join(dir, Name(p))
  {
    assert p.parts == dir.parts + [Name(p)];
  }

  lemma JoinInjective(dir: Path, a: string, b: string)
    requires Join(dir, a) == Join(dir, b)
    ensures a == b
  {
    assert Name(Join(dir, a)) == a;
  }
}
