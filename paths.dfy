/**
 * `pathlib.PurePosixPath` as its tuple of parts: `Path('/a/b').parts == ('/', 'a', 'b')`.
 * Only the first part of an absolute path is "/"; no part is empty.
 */
module Paths {

  type Path = seq<string>

  predicate WellFormed(p: Path) {
    forall i :: 0 <= i < |p| ==> p[i] != "" && (i > 0 ==> p[i] != "/")
  }

  predicate IsAbsolute(p: Path) {
    |p| > 0 && p[0] == "/"
  }

  /** `base / p`: an absolute right-hand side replaces the base. */
  function Join(base: Path, p: Path): Path {
    if IsAbsolute(p) then p else base + p
  }

  /**
   * `p.is_relative_to(folder)`: both paths have the same anchor and the folder's parts are a
   * prefix of the path's. The anchor test matters only for the empty folder `Path('')`, which
   * contains every relative path and no absolute one.
   */
  predicate IsRelativeTo(p: Path, folder: Path) {
    IsAbsolute(p) == IsAbsolute(folder) && |folder| <= |p| && p[..|folder|] == folder
  }

  /** `p.relative_to(folder)` */
  function RelativeTo(p: Path, folder: Path): (r: Path)
    requires IsRelativeTo(p, folder)
    ensures |r| == |p| - |folder|
  {
    p[|folder|..]
  }

  /** Joining a folder with a path made relative to it gives the path back. */
  lemma JoinRelativeTo(p: Path, folder: Path)
    requires WellFormed(p) && IsRelativeTo(p, folder)
    ensures Join(folder, RelativeTo(p, folder)) == p
  {
    var r := RelativeTo(p, folder);
    if |folder| > 0 && |r| > 0 {
      assert r[0] == p[|folder|];
    }
    if !IsAbsolute(r) {
      assert folder + r == p[..|folder|] + p[|folder|..];
    }
  }
}
