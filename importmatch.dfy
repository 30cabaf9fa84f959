/**
 * The matching rules at the start of `merge_with_imported_data`: imported tags are matched to
 * existing tags by name, imported entries to existing entries by digest or, failing a unique
 * digest match, by file name, suffix and dates.
 */
module ImportMatch {
  import opened Wrappers
  import opened TagStudio

  /** A row of an exported `entries` table as read back: `id` is the digest. */
  datatype ImportEntry = ImportEntry(
    id: Option<string>,
    filename: string,
    suffix: string,
    dateCreated: Option<Timestamp>,
    dateModified: Option<Timestamp>,
    dateAdded: Option<Timestamp>)

  /** Pandas `==` on cells that may be missing: a missing cell equals nothing. */
  predicate CellEq<T(==)>(a: Option<T>, b: Option<T>) {
    a.Some? && b.Some? && a.value == b.value
  }

  /** The id of the first existing tag, in table order, whose name equals `name`. */
  function FirstTagNamed(existing: seq<Tag>, name: string): (r: Option<int>)
    ensures r.None? <==> forall j :: 0 <= j < |existing| ==> existing[j].name != name
    ensures r.Some? ==>
      exists j :: 0 <= j < |existing| && existing[j].name == name && existing[j].id == r.value
        && forall k :: 0 <= k < j ==> existing[k].name != name
    decreases |existing|
  {
    if existing == [] then None
    else if existing[0].name == name then Some(existing[0].id)
    else
      var r := FirstTagNamed(existing[1..], name);
      assert forall j :: 0 <= j < |existing| - 1 ==> existing[1..][j] == existing[j + 1];
      r
  }

  /** `tag_map` after the loop over the imported tags `imp`. */
  function TagMap(imp: seq<Tag>, existing: seq<Tag>): map<int, Option<int>>
    decreases |imp|
  {
    if imp == [] then map[]
    else
      var last := imp[|imp| - 1];
      TagMap(imp[..|imp| - 1], existing)[last.id := FirstTagNamed(existing, last.name)]
  }

  /**
   * Every imported tag id is a key of `tag_map`, and nothing else is; the id of the last imported
   * row with that id maps to the first existing tag of the same name, or to `None`.
   */
  lemma {:induction false} TagMapExact(imp: seq<Tag>, existing: seq<Tag>, i: nat)
    requires i < |imp| && forall j :: i < j < |imp| ==> imp[j].id != imp[i].id
    ensures forall k :: k in TagMap(imp, existing) <==> exists j :: 0 <= j < |imp| && imp[j].id == k
    ensures TagMap(imp, existing)[imp[i].id] == FirstTagNamed(existing, imp[i].name)
    decreases |imp|
  {
    TagMapKeys(imp, existing);
    if i < |imp| - 1 {
      var init := imp[..|imp| - 1];
      assert init[i] == imp[i];
      TagMapExact(init, existing, i);
    }
  }

  lemma {:induction false} TagMapKeys(imp: seq<Tag>, existing: seq<Tag>)
    ensures forall k :: k in TagMap(imp, existing) <==> exists j :: 0 <= j < |imp| && imp[j].id == k
    decreases |imp|
  {
    if imp != [] {
      var init := imp[..|imp| - 1];
      TagMapKeys(init, existing);
      assert forall j :: 0 <= j < |init| ==> init[j] == imp[j];
    }
  }

  /** The loop that fills `tag_map`. */
  method MatchTags(imp: seq<Tag>, existing: seq<Tag>) returns (tagMap: map<int, Option<int>>)
    ensures tagMap == TagMap(imp, existing)
  {
    tagMap := map[];
    var i := 0;
    while i < |imp|
      invariant 0 <= i <= |imp|
      invariant tagMap == TagMap(imp[..i], existing)
    {
      assert imp[..i + 1][..i] == imp[..i];
      var found := FirstTagNamed(existing, imp[i].name);
      tagMap := tagMap[imp[i].id := found];
      i := i + 1;
    }
    assert imp[..i] == imp;
  }

  /** The two ways an existing entry can match an imported one. */
  datatype Criterion = ByDigest | ByAttributes

  /** The row filters of lines 346 and 355-358. */
  predicate Hit(c: Criterion, e: Entry, ie: ImportEntry) {
    match c
    case ByDigest => CellEq(e.hexdigest, ie.id)
    case ByAttributes =>
      e.filename == ie.filename && e.suffix == ie.suffix
      && CellEq(e.dateCreated, ie.dateCreated) && CellEq(e.dateModified, ie.dateModified)
  }

  /** The ids of the rows of `es` that match `ie` by `c`, in table order. */
  function HitIds(es: seq<Entry>, c: Criterion, ie: ImportEntry): seq<int>
    decreases |es|
  {
    if es == [] then [] else (if Hit(c, es[0], ie) then [es[0].id] else []) + HitIds(es[1..], c, ie)
  }

  /** Row `j` is the only row matching `ie` by `c`. */
  predicate OnlyHit(es: seq<Entry>, c: Criterion, ie: ImportEntry, j: int) {
    0 <= j < |es| && Hit(c, es[j], ie) && forall k :: 0 <= k < |es| && k != j ==> !Hit(c, es[k], ie)
  }

  /** `len(found) == 1` holds exactly when one row matches, and then `found` is that row's id. */
  lemma {:induction false} SingleHit(es: seq<Entry>, c: Criterion, ie: ImportEntry)
    ensures |HitIds(es, c, ie)| == 1 <==> exists j :: OnlyHit(es, c, ie, j)
    ensures forall j :: OnlyHit(es, c, ie, j) ==> HitIds(es, c, ie) == [es[j].id]
    ensures HitIds(es, c, ie) == [] <==> forall k :: 0 <= k < |es| ==> !Hit(c, es[k], ie)
    decreases |es|
  {
    if es != [] {
      var tail := es[1..];
      SingleHit(tail, c, ie);
      assert forall k :: 0 <= k < |tail| ==> tail[k] == es[k + 1];
      if Hit(c, es[0], ie) {
        if |HitIds(es, c, ie)| == 1 {
          assert OnlyHit(es, c, ie, 0);
        }
      } else {
        forall j | OnlyHit(es, c, ie, j) ensures OnlyHit(tail, c, ie, j - 1) {
          forall k | 0 <= k < |tail| && k != j - 1 ensures !Hit(c, tail[k], ie) { assert tail[k] == es[k + 1]; }
        }
        if |HitIds(es, c, ie)| == 1 {
          var j :| OnlyHit(tail, c, ie, j);
          assert OnlyHit(es, c, ie, j + 1);
        }
      }
    }
  }

  /** The rule for one imported entry: a unique digest match, else a unique attribute match, else none. */
  function MatchEntry(existing: seq<Entry>, ie: ImportEntry): Option<int> {
    var byDigest := HitIds(existing, ByDigest, ie);
    if |byDigest| == 1 then Some(byDigest[0])
    else
      var byAttributes := HitIds(existing, ByAttributes, ie);
      if |byAttributes| == 1 then Some(byAttributes[0]) else None
  }

  /**
   * An imported entry maps to the id of the one existing entry with its digest; failing that, to the
   * one existing entry with its name, suffix and both dates; failing that, it stays unmapped.
   */
  lemma MatchEntryExact(existing: seq<Entry>, ie: ImportEntry)
    ensures forall j :: OnlyHit(existing, ByDigest, ie, j) ==> MatchEntry(existing, ie) == Some(existing[j].id)
    ensures (!exists j :: OnlyHit(existing, ByDigest, ie, j)) ==>
      forall j :: OnlyHit(existing, ByAttributes, ie, j) ==> MatchEntry(existing, ie) == Some(existing[j].id)
    ensures MatchEntry(existing, ie).None? <==>
      (!exists j :: OnlyHit(existing, ByDigest, ie, j)) && (!exists j :: OnlyHit(existing, ByAttributes, ie, j))
  {
    SingleHit(existing, ByDigest, ie);
    SingleHit(existing, ByAttributes, ie);
  }

  /** A missing digest on either side never counts as a digest match. */
  lemma NoDigestNoDigestMatch(existing: seq<Entry>, ie: ImportEntry)
    requires ie.id.None?
    ensures MatchEntry(existing, ie) == (
      var byAttributes := HitIds(existing, ByAttributes, ie);
      if |byAttributes| == 1 then Some(byAttributes[0]) else None)
  {
    SingleHit(existing, ByDigest, ie);
  }

  /** `entry_map` after the loop over the imported entries: unmatched rows leave the map as it was. */
  function EntryMap(imp: seq<ImportEntry>, existing: seq<Entry>): map<Option<string>, int>
    decreases |imp|
  {
    if imp == [] then map[]
    else
      var m := EntryMap(imp[..|imp| - 1], existing);
      var last := imp[|imp| - 1];
      match MatchEntry(existing, last)
      case None => m
      case Some(id) => m[last.id := id]
  }

  /** A key of `entry_map` is the digest of some imported row that matched. */
  lemma {:induction false} EntryMapKeys(imp: seq<ImportEntry>, existing: seq<Entry>)
    ensures forall h :: h in EntryMap(imp, existing) ==>
      exists j :: 0 <= j < |imp| && imp[j].id == h && MatchEntry(existing, imp[j]).Some?
    decreases |imp|
  {
    if imp != [] {
      var init := imp[..|imp| - 1];
      EntryMapKeys(init, existing);
      assert forall j :: 0 <= j < |init| ==> init[j] == imp[j];
    }
  }

  /** The last imported row with a given digest decides that digest's entry, if it matched. */
  lemma {:induction false} EntryMapAt(imp: seq<ImportEntry>, existing: seq<Entry>, i: nat)
    requires i < |imp| && forall j :: i < j < |imp| ==> imp[j].id != imp[i].id
    requires MatchEntry(existing, imp[i]).Some?
    ensures imp[i].id in EntryMap(imp, existing)
    ensures EntryMap(imp, existing)[imp[i].id] == MatchEntry(existing, imp[i]).value
    decreases |imp|
  {
    if i < |imp| - 1 {
      var init := imp[..|imp| - 1];
      assert init[i] == imp[i];
      EntryMapAt(init, existing, i);
    }
  }

  /** The last imported row with digest `h` that found a match, if any. */
  function LastMatchedRow(imp: seq<ImportEntry>, existing: seq<Entry>, h: Option<string>): (r: Option<nat>)
    ensures r.None? <==> forall j :: 0 <= j < |imp| && imp[j].id == h ==> MatchEntry(existing, imp[j]).None?
    ensures r.Some? ==>
      r.value < |imp| && imp[r.value].id == h && MatchEntry(existing, imp[r.value]).Some?
        && forall j :: r.value < j < |imp| && imp[j].id == h ==> MatchEntry(existing, imp[j]).None?
    decreases |imp|
  {
    if imp == [] then None
    else if imp[|imp| - 1].id == h && MatchEntry(existing, imp[|imp| - 1]).Some? then Some(|imp| - 1)
    else
      var init := imp[..|imp| - 1];
      LastMatchedRow(init, existing, h)
  }

  /**
   * A digest is a key of `entry_map` iff some imported row with that digest matched, and it maps to
   * the match of the last such row: a later row that finds no match leaves an earlier match in place.
   */
  lemma {:induction false} EntryMapExact(imp: seq<ImportEntry>, existing: seq<Entry>, h: Option<string>)
    ensures h in EntryMap(imp, existing) <==> LastMatchedRow(imp, existing, h).Some?
    ensures h in EntryMap(imp, existing) ==>
      EntryMap(imp, existing)[h] == MatchEntry(existing, imp[LastMatchedRow(imp, existing, h).value]).value
    decreases |imp|
  {
    if imp != [] {
      EntryMapExact(imp[..|imp| - 1], existing, h);
    }
  }

  /** The loop that fills `entry_map`. */
  method MatchEntries(imp: seq<ImportEntry>, existing: seq<Entry>) returns (entryMap: map<Option<string>, int>)
    ensures entryMap == EntryMap(imp, existing)
  {
    entryMap := map[];
    var i := 0;
    while i < |imp|
      invariant 0 <= i <= |imp|
      invariant entryMap == EntryMap(imp[..i], existing)
    {
      assert imp[..i + 1][..i] == imp[..i];
      var row := imp[i];
      var found := HitIds(existing, ByDigest, row);
      if |found| == 1 {
        entryMap := entryMap[row.id := found[0]];
      } else {
        found := HitIds(existing, ByAttributes, row);
        if |found| == 1 {
          entryMap := entryMap[row.id := found[0]];
        }
      }
      i := i + 1;
    }
    assert imp[..i] == imp;
  }
}
