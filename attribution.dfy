/**
 * `attribute_file`: find the library entry for a file path. The first folder of the library
 * that contains the path restricts the search to that folder's entries and makes the path
 * relative to it; the first entry whose path equals the (relative) path is the hit.
 */
module Attribution {
  import opened Wrappers
  import opened Paths
  import opened TagStudio
  import opened Increasing

  /** The first folder, in table order, that contains `p`. */
  function FirstContainingFolder(folders: seq<Folder>, p: Path): (r: Option<nat>)
    ensures r.None? <==> forall i :: 0 <= i < |folders| ==> !IsRelativeTo(p, folders[i].path)
    ensures r.Some? ==>
      r.value < |folders| && IsRelativeTo(p, folders[r.value].path)
        && forall i :: 0 <= i < r.value ==> !IsRelativeTo(p, folders[i].path)
    decreases |folders|
  {
    if folders == [] then None
    else if IsRelativeTo(p, folders[0].path) then Some(0)
    else
      var tail := folders[1..];
      assert forall i :: 0 <= i < |tail| ==> tail[i] == folders[i + 1];
      match FirstContainingFolder(tail, p)
      case None => None
      case Some(i) => Some(i + 1)
  }

  /** `filter_against` and `fpath` after the folder loop. */
  datatype Choice = Choice(filterAgainst: Option<int>, relPath: Path)

  function Chosen(folders: seq<Folder>, p: Path): Choice {
    match FirstContainingFolder(folders, p)
    case None => Choice(None, p)
    case Some(i) => Choice(Some(folders[i].id), RelativeTo(p, folders[i].path))
  }

  /** The folder loop of `attribute_file`, with its `break` at the first containing folder. */
  method ChooseFolder(folders: seq<Folder>, fpath: Path) returns (c: Choice)
    ensures c == Chosen(folders, fpath)
  {
    var filterAgainst: Option<int> := None;
    var rel := fpath;
    var i := 0;
    while i < |folders|
      invariant 0 <= i <= |folders| && rel == fpath && filterAgainst.None?
      invariant forall k :: 0 <= k < i ==> !IsRelativeTo(fpath, folders[k].path)
    {
      if IsRelativeTo(fpath, folders[i].path) {
        filterAgainst := Some(folders[i].id);
        rel := RelativeTo(fpath, folders[i].path);
        assert FirstContainingFolder(folders, fpath) == Some(i);
        return Choice(filterAgainst, rel);
      }
      i := i + 1;
    }
    return Choice(filterAgainst, rel);
  }

  /** Whether a row is searched: every row when no folder was chosen, else that folder's rows. */
  predicate Searched(e: Entry, filterAgainst: Option<int>) {
    filterAgainst.None? || e.folderId == filterAgainst.value
  }

  /** The labels (original row numbers) of the searched rows, in order. */
  function SearchRows(es: seq<Entry>, filterAgainst: Option<int>): (rows: seq<nat>)
    ensures forall a :: 0 <= a < |rows| ==> rows[a] < |es|
    decreases |es|
  {
    if es == [] then []
    else SearchRows(es[..|es| - 1], filterAgainst) + (if Searched(es[|es| - 1], filterAgainst) then [|es| - 1] else [])
  }

  /** The searched rows are exactly the labels of the rows the filter keeps, in increasing order. */
  lemma {:induction false} SearchRowsExact(es: seq<Entry>, filterAgainst: Option<int>)
    ensures var rows := SearchRows(es, filterAgainst);
      && (forall k :: k in rows <==> 0 <= k < |es| && Searched(es[k], filterAgainst))
      && StrictlyIncreasing(rows)
    decreases |es|
  {
    if es != [] {
      var init := es[..|es| - 1];
      var before := SearchRows(init, filterAgainst);
      var extra := if Searched(es[|es| - 1], filterAgainst) then [|es| - 1] else [];
      SearchRowsExact(init, filterAgainst);
      assert SearchRows(es, filterAgainst) == before + extra;
      forall k ensures k in before + extra <==> 0 <= k < |es| && Searched(es[k], filterAgainst) {
        if 0 <= k < |init| { assert init[k] == es[k]; }
      }
      assert forall a :: 0 <= a < |before| ==> before[a] < |init|;
    }
  }

  /** The first position, among the searched rows, whose path equals `rel`. */
  function FirstMatch(es: seq<Entry>, rows: seq<nat>, rel: Path): (r: Option<nat>)
    requires forall a :: 0 <= a < |rows| ==> rows[a] < |es|
    ensures r.None? <==> forall a :: 0 <= a < |rows| ==> es[rows[a]].path != rel
    ensures r.Some? ==>
      r.value < |rows| && es[rows[r.value]].path == rel
        && forall a :: 0 <= a < r.value ==> es[rows[a]].path != rel
    decreases |rows|
  {
    if rows == [] then None
    else if es[rows[0]].path == rel then Some(0)
    else
      var tail := rows[1..];
      assert forall a :: 0 <= a < |tail| ==> tail[a] == rows[a + 1];
      match FirstMatch(es, tail, rel)
      case None => None
      case Some(a) => Some(a + 1)
  }

  /** What the lookup reports: the hit's id, "did not find", or the KeyError of a missing label. */
  datatype Outcome = Hit(relPath: Path, entryId: int) | NotFound(relPath: Path) | MissingLabel(missing: int)

  /** The lookup with the hit taken by position among the searched rows. */
  function Attribute(folders: seq<Folder>, es: seq<Entry>, query: Path): Outcome {
    var c := Chosen(folders, query);
    var rows := SearchRows(es, c.filterAgainst);
    match FirstMatch(es, rows, c.relPath)
    case None => NotFound(c.relPath)
    case Some(pos) => Hit(c.relPath, es[rows[pos]].id)
  }

  /**
   * The lookup as written at line 491: indexing the filtered id Series with a position is a lookup by
   * label, and the labels are the original row numbers, not positions among the searched rows.
   */
  function AttributeAsWritten(folders: seq<Folder>, es: seq<Entry>, query: Path): Outcome {
    var c := Chosen(folders, query);
    var rows := SearchRows(es, c.filterAgainst);
    match FirstMatch(es, rows, c.relPath)
    case None => NotFound(c.relPath)
    case Some(pos) => if pos in rows then Hit(c.relPath, es[pos].id) else MissingLabel(pos)
  }

  /**
   * The lookup result: the hit is the first searched entry whose path equals the relative query
   * path, and "not found" means no searched entry has that path. It never raises.
   */
  lemma AttributeExact(folders: seq<Folder>, es: seq<Entry>, query: Path)
    ensures var c := Chosen(folders, query); var r := Attribute(folders, es, query);
      && !r.MissingLabel?
      && r.relPath == c.relPath
      && (r.NotFound? <==> forall k :: 0 <= k < |es| && Searched(es[k], c.filterAgainst) ==> es[k].path != c.relPath)
      && (r.Hit? ==>
            exists k :: 0 <= k < |es| && Searched(es[k], c.filterAgainst) && es[k].path == c.relPath
              && es[k].id == r.entryId
              && forall k' :: 0 <= k' < k && Searched(es[k'], c.filterAgainst) ==> es[k'].path != c.relPath)
  {
    var c := Chosen(folders, query);
    var rows := SearchRows(es, c.filterAgainst);
    var m := FirstMatch(es, rows, c.relPath);
    SearchRowsExact(es, c.filterAgainst);
    if m.None? {
      forall k | 0 <= k < |es| && Searched(es[k], c.filterAgainst) ensures es[k].path != c.relPath {
        assert k in rows;
      }
    } else {
      var pos := m.value;
      var k := rows[pos];
      forall k' | 0 <= k' < k && Searched(es[k'], c.filterAgainst) ensures es[k'].path != c.relPath {
        assert k' in rows;
        var a :| 0 <= a < |rows| && rows[a] == k';
      }
      assert k in rows;
    }
  }

  /**
   * The folder choice: the first folder containing the query decides the searched entries and the
   * path becomes relative to it; with no such folder every entry is searched with the query as given.
   */
  lemma ChosenExact(folders: seq<Folder>, query: Path)
    requires WellFormed(query)
    ensures var c := Chosen(folders, query);
      (c.filterAgainst.None? <==> forall i :: 0 <= i < |folders| ==> !IsRelativeTo(query, folders[i].path))
      && (c.filterAgainst.None? ==> c.relPath == query)
      && (c.filterAgainst.Some? ==>
            exists i :: 0 <= i < |folders| && IsRelativeTo(query, folders[i].path)
              && (forall j :: 0 <= j < i ==> !IsRelativeTo(query, folders[j].path))
              && c.filterAgainst.value == folders[i].id
              && Join(folders[i].path, c.relPath) == query)
  {
    match FirstContainingFolder(folders, query)
    case None =>
    case Some(i) => JoinRelativeTo(query, folders[i].path);
  }

  /** Where no folder contains the query, labels and positions coincide and the two lookups agree. */
  lemma AsWrittenAgreesUnfiltered(folders: seq<Folder>, es: seq<Entry>, query: Path)
    requires Chosen(folders, query).filterAgainst.None?
    ensures AttributeAsWritten(folders, es, query) == Attribute(folders, es, query)
  {
    var rows := SearchRows(es, None);
    SearchRowsExact(es, None);
    CoverIsRange(rows, |es|);
  }

  function Row(id: int, folderId: int, path: Path): Entry {
    Entry(id, folderId, path, "f", ".png", None, None, None, None)
  }

  /** One more row appended to the table: the searched rows gain its label or stay as they were. */
  lemma SearchRowsSnoc(es: seq<Entry>, e: Entry, filterAgainst: Option<int>)
    ensures SearchRows(es + [e], filterAgainst)
      == SearchRows(es, filterAgainst) + (if Searched(e, filterAgainst) then [|es|] else [])
  {
    var all := es + [e];
    assert all[..|es|] == es;
    assert all[|es|] == e;
  }

  /** The folder `/a` with id 1 chooses itself for `/a/<name>`. */
  lemma ChosenUnderA(name: string)
    ensures Chosen([Folder(1, ["/", "a"], "u")], ["/", "a", name]) == Choice(Some(1), [name])
  {
    var folders := [Folder(1, ["/", "a"], "u")];
    var q: Path := ["/", "a", name];
    assert IsRelativeTo(q, folders[0].path) by { assert q[..2] == ["/", "a"]; }
    assert q[2..] == [name];
  }

  /** A folder stored with the empty path contains no absolute query: the search goes on. */
  lemma EmptyFolderSkipped(name: string)
    ensures FirstContainingFolder([Folder(7, [], "u"), Folder(1, ["/", "a"], "v")], ["/", "a", name])
      == Some(1)
  {
    var q: Path := ["/", "a", name];
    assert IsRelativeTo(q, ["/", "a"]) by { assert q[..2] == ["/", "a"]; }
  }

  /** In the KeyError example only the second row (label 1) is in folder 1. */
  lemma SearchRowsOfKeyErrorExample(x: Path)
    ensures SearchRows([Row(10, 2, x), Row(11, 1, x)], Some(1)) == [1]
  {
    SearchRowsSnoc([], Row(10, 2, x), Some(1));
    SearchRowsSnoc([Row(10, 2, x)], Row(11, 1, x), Some(1));
    assert [] + [Row(10, 2, x)] == [Row(10, 2, x)];
    assert [Row(10, 2, x)] + [Row(11, 1, x)] == [Row(10, 2, x), Row(11, 1, x)];
  }

  /** In the wrong-entry example the rows of folder 1 are labels 1 and 2. */
  lemma SearchRowsOfWrongEntryExample(x: Path, y: Path)
    ensures SearchRows([Row(10, 2, y), Row(11, 1, x), Row(12, 1, y)], Some(1)) == [1, 2]
  {
    var two := [Row(10, 2, y), Row(11, 1, x)];
    var all := two + [Row(12, 1, y)];
    assert SearchRows(two, Some(1)) == [1] by {
      SearchRowsSnoc([], Row(10, 2, y), Some(1));
      SearchRowsSnoc([Row(10, 2, y)], Row(11, 1, x), Some(1));
      assert [] + [Row(10, 2, y)] == [Row(10, 2, y)];
      assert [Row(10, 2, y)] + [Row(11, 1, x)] == two;
    }
    SearchRowsSnoc(two, Row(12, 1, y), Some(1));
    assert all == [Row(10, 2, y), Row(11, 1, x), Row(12, 1, y)];
  }

  /** Line 491 raises KeyError for a file that is in the library, when an earlier row is in another folder. */
  lemma AsWrittenRaisesOnFilteredHit()
    ensures var folders := [Folder(1, ["/", "a"], "u")];
      var es := [Row(10, 2, ["x"]), Row(11, 1, ["x"])];
      AttributeAsWritten(folders, es, ["/", "a", "x"]) == MissingLabel(0)
        && Attribute(folders, es, ["/", "a", "x"]) == Hit(["x"], 11)
  {
    var es := [Row(10, 2, ["x"]), Row(11, 1, ["x"])];
    ChosenUnderA("x");
    SearchRowsOfKeyErrorExample(["x"]);
    assert FirstMatch(es, [1], ["x"]) == Some(0);
  }

  /** Line 491 can also report a different entry of the folder than the one whose path matched. */
  lemma AsWrittenReportsWrongEntry()
    ensures var folders := [Folder(1, ["/", "a"], "u")];
      var es := [Row(10, 2, ["y"]), Row(11, 1, ["x"]), Row(12, 1, ["y"])];
      AttributeAsWritten(folders, es, ["/", "a", "y"]) == Hit(["y"], 11)
        && Attribute(folders, es, ["/", "a", "y"]) == Hit(["y"], 12)
  {
    var es := [Row(10, 2, ["y"]), Row(11, 1, ["x"]), Row(12, 1, ["y"])];
    ChosenUnderA("y");
    SearchRowsOfWrongEntryExample(["x"], ["y"]);
    assert FirstMatch(es, [1, 2], ["y"]) == Some(1) by {
      assert [1, 2][1..] == [2];
      assert FirstMatch(es, [2], ["y"]) == Some(0);
    }
  }

  /** `attribute_file` up to the report it prints: the folder loop, then the lookup. */
  method AttributeFile(lib: Library, query: Path) returns (r: Outcome)
    ensures r == Attribute(lib.folders, lib.entries, query)
    ensures !r.MissingLabel?
  {
    var c := ChooseFolder(lib.folders, query);
    var rows := SearchRows(lib.entries, c.filterAgainst);
    var m := FirstMatch(lib.entries, rows, c.relPath);
    if m.None? {
      r := NotFound(c.relPath);
    } else {
      r := Hit(c.relPath, lib.entries[rows[m.value]].id);
    }
  }
}
