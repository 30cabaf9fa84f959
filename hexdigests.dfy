/**
 * Keeping the `hexdigest` column of TagStudio's `entries` table up to date:
 * which rows are re-hashed, what a re-hashed row becomes, and the guard that
 * refuses to re-hash without a hash function.
 */
module Hexdigests {
  import opened Wrappers
  import opened Paths
  import opened TagStudio

  type Bytes = seq<bv8>

  /** An existing file's modification time and its bytes, as the re-hash reads them. */
  datatype FileStat = FileStat(mtime: Timestamp, contents: Bytes)

  /** The files that exist, by path: `path.exists()` is membership. */
  type Disk = map<Path, FileStat>

  /** The chosen hash algorithm applied to a file's bytes, giving its hex digest. */
  type HashFunc = Bytes -> string

  /** The row of the folders table that `folder_remap[id]` reads: the dict keeps the last folder with that id. */
  function FolderIndex(folders: seq<Folder>, id: int): (r: Option<nat>)
    ensures r.None? <==> forall i :: 0 <= i < |folders| ==> folders[i].id != id
    ensures r.Some? ==>
      r.value < |folders| && folders[r.value].id == id
        && forall j :: r.value < j < |folders| ==> folders[j].id != id
    decreases |folders|
  {
    if |folders| == 0 then None
    else if folders[|folders| - 1].id == id then Some(|folders| - 1)
    else
      var init := folders[..|folders| - 1];
      assert forall i :: 0 <= i < |init| ==> init[i] == folders[i];
      FolderIndex(init, id)
  }

  /** `folder_remap[id]`, or `None` where the lookup raises KeyError. */
  function FolderPath(folders: seq<Folder>, id: int): Option<Path> {
    match FolderIndex(folders, id)
    case None => None
    case Some(i) => Some(folders[i].path)
  }

  predicate FolderKnown(folders: seq<Folder>, e: Entry) {
    FolderPath(folders, e.folderId).Some?
  }

  predicate AllFoldersKnown(folders: seq<Folder>, es: seq<Entry>) {
    forall i :: 0 <= i < |es| ==> FolderKnown(folders, es[i])
  }

  /** The row at which building `entry_paths` raises KeyError: the first one whose folder is unknown. */
  function FirstUnknownFolder(folders: seq<Folder>, es: seq<Entry>): (r: Option<nat>)
    ensures r.None? <==> AllFoldersKnown(folders, es)
    ensures r.Some? ==>
      r.value < |es| && !FolderKnown(folders, es[r.value])
        && forall i :: 0 <= i < r.value ==> FolderKnown(folders, es[i])
    decreases |es|
  {
    if es == [] then None
    else if !FolderKnown(folders, es[0]) then Some(0)
    else
      match FirstUnknownFolder(folders, es[1..])
      case None => None
      case Some(k) => Some(k + 1)
  }

  /** `entry_paths[entry.id]`: the folder's path joined with the entry's own path. */
  function EntryPath(folders: seq<Folder>, e: Entry): Path
    requires FolderKnown(folders, e)
  {
    Join(FolderPath(folders, e.folderId).value, e.path)
  }

  /** The re-hash rule for a file that exists: forced, never dated, or modified since its date. */
  predicate NeedsRehash(e: Entry, mtime: Timestamp, force: bool) {
    force || e.dateModified.None? || mtime > e.dateModified.value
  }

  /** The `entry_paths` table: one full path per row, in row order. */
  function FullPaths(folders: seq<Folder>, es: seq<Entry>): (ps: seq<Path>)
    requires AllFoldersKnown(folders, es)
    ensures |ps| == |es| && forall k :: 0 <= k < |es| ==> ps[k] == EntryPath(folders, es[k])
  {
    seq(|es|, k requires 0 <= k < |es| => EntryPath(folders, es[k]))
  }

  /** The loop re-hashes the row with full path `p` iff that file exists and the rule above fires. */
  predicate Rehashes(disk: Disk, force: bool, e: Entry, p: Path) {
    p in disk && NeedsRehash(e, disk[p].mtime, force)
  }

  /** The row with full path `p` after the loop has visited it. */
  function Visit(disk: Disk, hash: HashFunc, force: bool, e: Entry, p: Path): Entry {
    if Rehashes(disk, force, e, p) then
      e.(dateModified := Some(disk[p].mtime), hexdigest := Some(hash(disk[p].contents)))
    else e
  }

  /** The entries table after the loop over the rows `es` with full paths `ps`. */
  function Rehashed(disk: Disk, hash: HashFunc, force: bool, es: seq<Entry>, ps: seq<Path>): (r: seq<Entry>)
    requires |ps| == |es|
    ensures |r| == |es|
    decreases |es|
  {
    if es == [] then []
    else
      Rehashed(disk, hash, force, es[..|es| - 1], ps[..|es| - 1])
      + [Visit(disk, hash, force, es[|es| - 1], ps[|es| - 1])]
  }

  /** The list `updated` after the loop over the rows `es` with full paths `ps`. */
  function UpdatedIndices(disk: Disk, force: bool, es: seq<Entry>, ps: seq<Path>): seq<nat>
    requires |ps| == |es|
    decreases |es|
  {
    if es == [] then []
    else
      UpdatedIndices(disk, force, es[..|es| - 1], ps[..|es| - 1])
      + (if Rehashes(disk, force, es[|es| - 1], ps[|es| - 1]) then [|es| - 1] else [])
  }

  /**
   * Row `k` of the re-hashed table: a row whose file exists and needs a re-hash gets the file's
   * mtime as `date_modified` and its digest as `hexdigest`; every other row is unchanged.
   */
  lemma {:induction false} RehashedRow(disk: Disk, hash: HashFunc, force: bool, es: seq<Entry>, ps: seq<Path>, k: nat)
    requires |ps| == |es| && k < |es|
    ensures var p := ps[k];
      Rehashed(disk, hash, force, es, ps)[k] ==
        if p in disk && NeedsRehash(es[k], disk[p].mtime, force)
        then es[k].(dateModified := Some(disk[p].mtime), hexdigest := Some(hash(disk[p].contents)))
        else es[k]
    decreases |es|
  {
    var init := es[..|es| - 1];
    var pinit := ps[..|es| - 1];
    if k < |es| - 1 {
      RehashedRow(disk, hash, force, init, pinit, k);
      assert init[k] == es[k] && pinit[k] == ps[k];
    }
  }

  /** `updated` lists exactly the re-hashed rows, in increasing (iteration) order. */
  lemma {:induction false} UpdatedIndicesExact(disk: Disk, force: bool, es: seq<Entry>, ps: seq<Path>)
    requires |ps| == |es|
    ensures var u := UpdatedIndices(disk, force, es, ps);
      (forall k :: k in u <==> 0 <= k < |es| && Rehashes(disk, force, es[k], ps[k]))
        && (forall i, j :: 0 <= i < j < |u| ==> u[i] < u[j])
    decreases |es|
  {
    if es != [] {
      var init := es[..|es| - 1];
      var pinit := ps[..|es| - 1];
      UpdatedIndicesExact(disk, force, init, pinit);
      var u0 := UpdatedIndices(disk, force, init, pinit);
      forall k
        ensures k in UpdatedIndices(disk, force, es, ps) <==> 0 <= k < |es| && Rehashes(disk, force, es[k], ps[k])
      {
        if 0 <= k < |es| - 1 { assert init[k] == es[k] && pinit[k] == ps[k]; }
      }
      assert forall i :: 0 <= i < |u0| ==> u0[i] < |es| - 1 by {
        forall i | 0 <= i < |u0| ensures u0[i] < |es| - 1 { assert u0[i] in u0; }
      }
    }
  }

  /** A missing file is never re-hashed, whatever the flags say. */
  lemma MissingFileUntouched(folders: seq<Folder>, disk: Disk, hash: HashFunc, force: bool,
                             es: seq<Entry>, k: nat)
    requires AllFoldersKnown(folders, es) && k < |es| && EntryPath(folders, es[k]) !in disk
    ensures Rehashed(disk, hash, force, es, FullPaths(folders, es))[k] == es[k]
    ensures k !in UpdatedIndices(disk, force, es, FullPaths(folders, es))
  {
    RehashedRow(disk, hash, force, es, FullPaths(folders, es), k);
    UpdatedIndicesExact(disk, force, es, FullPaths(folders, es));
  }

  /** The re-hash only writes `date_modified` and `hexdigest`, so the primary key stays unique. */
  lemma RehashKeepsIds(disk: Disk, hash: HashFunc, force: bool, es: seq<Entry>, ps: seq<Path>)
    requires |ps| == |es| && UniqueEntryIds(es)
    ensures UniqueEntryIds(Rehashed(disk, hash, force, es, ps))
  {
    var r := Rehashed(disk, hash, force, es, ps);
    forall k | 0 <= k < |es| ensures r[k].id == es[k].id {
      RehashedRow(disk, hash, force, es, ps, k);
    }
  }

  /**
   * The `entry_paths` table, one path per row in row order, or the row whose folder id is not a
   * key of `folder_remap` (where the comprehension raises KeyError).
   */
  method EntryPaths(folders: seq<Folder>, es: seq<Entry>) returns (r: Result<seq<Path>, nat>)
    ensures r.Err? <==> !AllFoldersKnown(folders, es)
    ensures r.Err? ==> FirstUnknownFolder(folders, es) == Some(r.error)
    ensures r.Ok? ==> AllFoldersKnown(folders, es) && r.value == FullPaths(folders, es)
  {
    var paths: seq<Path> := [];
    var i := 0;
    while i < |es|
      invariant 0 <= i <= |es| && |paths| == i
      invariant forall k :: 0 <= k < i ==> FolderKnown(folders, es[k])
      invariant forall k :: 0 <= k < i ==> paths[k] == EntryPath(folders, es[k])
    {
      match FolderPath(folders, es[i].folderId)
      case None =>
        FirstUnknownIs(folders, es, i);
        return Err(i);
      case Some(fp) =>
        paths := paths + [Join(fp, es[i].path)];
      i := i + 1;
    }
    return Ok(paths);
  }

  /**
   * `tagstudio_index_hexdigests`: re-hash the rows whose file changed (or all, when forced),
   * in place, and return their indices. Building the path table raises KeyError (the folder id)
   * before anything is written when an entry names an unknown folder.
   */
  method IndexHexdigests(lib: Library, disk: Disk, hash: HashFunc, force: bool) returns (r: Result<seq<nat>, int>)
    requires lib.Valid()
    modifies lib`entries
    ensures lib.Valid()
    ensures r.Err? <==> !AllFoldersKnown(lib.folders, old(lib.entries))
    ensures r.Err? ==>
      lib.entries == old(lib.entries)
        && r.error == old(lib.entries)[FirstUnknownFolder(lib.folders, old(lib.entries)).value].folderId
    ensures r.Ok? ==>
      AllFoldersKnown(lib.folders, old(lib.entries))
        && lib.entries == Rehashed(disk, hash, force, old(lib.entries), FullPaths(lib.folders, old(lib.entries)))
        && r.value == UpdatedIndices(disk, force, old(lib.entries), FullPaths(lib.folders, old(lib.entries)))
  {
    var built := EntryPaths(lib.folders, lib.entries);
    if built.Err? {
      return Err(lib.entries[built.error].folderId);
    }
    RehashKeepsIds(disk, hash, force, lib.entries, built.value);
    var updated := RehashRows(lib, lib.entries, built.value, disk, hash, force);
    return Ok(updated);
  }

  /** The loop of `tagstudio_index_hexdigests` over the rows `orig`, given the full path of every row. */
  method RehashRows(lib: Library, ghost orig: seq<Entry>, paths: seq<Path>, disk: Disk, hash: HashFunc, force: bool)
    returns (updated: seq<nat>)
    requires lib.entries == orig && |paths| == |orig|
    modifies lib`entries
    ensures lib.entries == Rehashed(disk, hash, force, orig, paths)
    ensures updated == UpdatedIndices(disk, force, orig, paths)
  {
    var n := |lib.entries|;
    var i := 0;
    updated := [];
    while i < n
      invariant 0 <= i <= n && |lib.entries| == n
      invariant forall k :: 0 <= k < i ==> lib.entries[k] == Visit(disk, hash, force, orig[k], paths[k])
      invariant forall k :: i <= k < n ==> lib.entries[k] == orig[k]
      invariant updated == UpdatedIndices(disk, force, orig[..i], paths[..i])
    {
      UpdatedStep(disk, force, orig, paths, i);
      var p := paths[i];
      var e := lib.entries[i];
      if p in disk && (force || e.dateModified.None? || disk[p].mtime > e.dateModified.value) {
        lib.entries := lib.entries[i := e.(dateModified := Some(disk[p].mtime), hexdigest := Some(hash(disk[p].contents)))];
        updated := updated + [i];
      }
      i := i + 1;
    }
    assert orig[..n] == orig && paths[..n] == paths;
    RehashedPointwise(disk, hash, force, orig, paths, lib.entries);
  }

  /** A table whose every row is that row visited is the re-hashed table. */
  lemma RehashedPointwise(disk: Disk, hash: HashFunc, force: bool, es: seq<Entry>, ps: seq<Path>, r: seq<Entry>)
    requires |ps| == |es| == |r|
    requires forall k :: 0 <= k < |r| ==> r[k] == Visit(disk, hash, force, es[k], ps[k])
    ensures r == Rehashed(disk, hash, force, es, ps)
  {
    forall k | 0 <= k < |r| ensures r[k] == Rehashed(disk, hash, force, es, ps)[k] {
      RehashedRow(disk, hash, force, es, ps, k);
    }
  }

  /** One more row visited: `updated` grows by that row's index when it is re-hashed. */
  lemma UpdatedStep(disk: Disk, force: bool, es: seq<Entry>, ps: seq<Path>, i: nat)
    requires |ps| == |es| && i < |es|
    ensures UpdatedIndices(disk, force, es[..i + 1], ps[..i + 1])
      == UpdatedIndices(disk, force, es[..i], ps[..i]) + (if Rehashes(disk, force, es[i], ps[i]) then [i] else [])
  {
    assert es[..i + 1][..i] == es[..i] && ps[..i + 1][..i] == ps[..i];
    assert es[..i + 1][i] == es[i] && ps[..i + 1][i] == ps[i];
  }

  lemma FirstUnknownIs(folders: seq<Folder>, es: seq<Entry>, i: nat)
    requires i < |es| && !FolderKnown(folders, es[i])
    requires forall k :: 0 <= k < i ==> FolderKnown(folders, es[k])
    ensures FirstUnknownFolder(folders, es) == Some(i)
  {
    var r := FirstUnknownFolder(folders, es);
    assert r.Some?;
  }

  datatype LoadError = MissingHashfunc | UnknownFolder(folderId: int)

  /** What `sqlite_db_load` does about digests before returning the tables. */
  datatype RehashStep = KeepDigests | Reindex(addColumn: bool, force: bool)

  /**
   * The decision in `sqlite_db_load`: no re-hash unless an update or a forced re-hash is asked
   * for, `ValueError` when either is asked for without a hash function, and on a library that has
   * no `hexdigest` column yet the column is added and indexed without force (even when forced).
   */
  function RehashPlan(updateHexdigest: bool, hashfuncGiven: bool, forceRehash: bool, hasHexColumn: bool)
    : (r: Result<RehashStep, LoadError>)
    ensures r.Err? <==> (updateHexdigest || forceRehash) && !hashfuncGiven
    ensures r.Err? ==> r.error == MissingHashfunc
    ensures r == Ok(KeepDigests) <==> !updateHexdigest && !forceRehash
    ensures r.Ok? && r.value.Reindex? ==>
      r.value.addColumn == !hasHexColumn && r.value.force == (forceRehash && hasHexColumn)
  {
    if !(updateHexdigest || forceRehash) then Ok(KeepDigests)
    else if !hashfuncGiven then Err(MissingHashfunc)
    else if !hasHexColumn then Ok(Reindex(true, false))
    else Ok(Reindex(false, forceRehash))
  }

  /** The freshly inserted `hexdigest` column: every cell missing. */
  function WithoutDigests(es: seq<Entry>): (r: seq<Entry>)
    ensures |r| == |es| && forall k :: 0 <= k < |es| ==> r[k] == es[k].(hexdigest := None)
  {
    seq(|es|, k requires 0 <= k < |es| => es[k].(hexdigest := None))
  }

  /**
   * The digest step of `sqlite_db_load` on the loaded tables: returns whether the tables are
   * saved back (some row was updated). Reading and writing the database are not part of this model.
   */
  method RefreshDigests(lib: Library, updateHexdigest: bool, hashfunc: Option<HashFunc>,
                        forceRehash: bool, hasHexColumn: bool, disk: Disk)
    returns (r: Result<bool, LoadError>)
    requires lib.Valid()
    modifies lib`entries
    ensures lib.Valid()
    ensures (updateHexdigest || forceRehash) && hashfunc.None? ==>
      r == Err(MissingHashfunc) && lib.entries == old(lib.entries)
    ensures !updateHexdigest && !forceRehash ==> r == Ok(false) && lib.entries == old(lib.entries)
    ensures (updateHexdigest || forceRehash) && hashfunc.Some? ==>
      var start := if hasHexColumn then old(lib.entries) else WithoutDigests(old(lib.entries));
      var force := forceRehash && hasHexColumn;
      if AllFoldersKnown(lib.folders, start) then
        var paths := FullPaths(lib.folders, start);
        lib.entries == Rehashed(disk, hashfunc.value, force, start, paths)
          && r == Ok(|UpdatedIndices(disk, force, start, paths)| > 0)
      else
        lib.entries == start && r.Err? && r.error.UnknownFolder?
  {
    var plan := RehashPlan(updateHexdigest, hashfunc.Some?, forceRehash, hasHexColumn);
    match plan
    case Err(e) =>
      return Err(e);
    case Ok(KeepDigests) =>
      return Ok(false);
    case Ok(Reindex(addColumn, force)) =>
      if addColumn {
        lib.entries := WithoutDigests(lib.entries);
      }
      var updated := IndexHexdigests(lib, disk, hashfunc.value, force);
      match updated
      case Err(folderId) =>
        return Err(UnknownFolder(folderId));
      case Ok(u) =>
        return Ok(|u| > 0);
  }
}
