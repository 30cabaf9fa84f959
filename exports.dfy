/**
 * `create_exports`: a shareable copy of the library in which every link to an entry id is
 * replaced by that entry's content digest, rows linking to unknown entries are dropped,
 * and the entries table loses its private columns.
 */
module Exports {
  import opened Wrappers
  import opened TagStudio
  import opened Increasing

  datatype ExportTagEntry = ExportTagEntry(tagId: int, entry: Option<string>)

  datatype ExportTextField = ExportTextField(
    value: Option<string>, id: int, typeKey: string, entry: Option<string>, position: int)

  /** An exported entry: `id` carries the digest; `folder_id`, `path` and `hexdigest` are not exported. */
  datatype ExportEntry = ExportEntry(
    id: Option<string>,
    filename: string,
    suffix: string,
    dateCreated: Option<Timestamp>,
    dateModified: Option<Timestamp>,
    dateAdded: Option<Timestamp>)

  /** entry id -> hexdigest (missing digests stay `None`) */
  type Remap = map<int, Option<string>>

  /** `remap`: built row by row from `entries`, so a later row with the same id would win. */
  function DigestRemap(es: seq<Entry>): (m: Remap)
    ensures forall k :: k in m <==> exists i :: 0 <= i < |es| && es[i].id == k
    decreases |es|
  {
    if es == [] then map[]
    else
      var m := DigestRemap(es[..|es| - 1]);
      assert forall i :: 0 <= i < |es| - 1 ==> es[..|es| - 1][i] == es[i];
      m[es[|es| - 1].id := es[|es| - 1].hexdigest]
  }

  /** With unique entry ids, every entry's id maps to its own digest. */
  lemma {:induction false} DigestRemapAt(es: seq<Entry>, i: nat)
    requires UniqueEntryIds(es) && i < |es|
    ensures es[i].id in DigestRemap(es) && DigestRemap(es)[es[i].id] == es[i].hexdigest
    decreases |es|
  {
    if i < |es| - 1 {
      var init := es[..|es| - 1];
      assert init[i] == es[i];
      assert UniqueEntryIds(init) by {
        forall a, b | 0 <= a < b < |init| ensures init[a].id != init[b].id { assert init[a] == es[a] && init[b] == es[b]; }
      }
      DigestRemapAt(init, i);
    }
  }

  /** The rows of `rows` whose link column is a key of `remap`, in order, with that column remapped. */
  function Kept<R, X>(rows: seq<R>, key: R -> int, rekey: (R, Option<string>) -> X, remap: Remap): seq<X>
    decreases |rows|
  {
    if rows == [] then []
    else
      var last := rows[|rows| - 1];
      Kept(rows[..|rows| - 1], key, rekey, remap) + (if key(last) in remap then [rekey(last, remap[key(last)])] else [])
  }

  /** The positions of the kept rows. */
  function KeptIndices<R>(rows: seq<R>, key: R -> int, remap: Remap): seq<nat>
    decreases |rows|
  {
    if rows == [] then []
    else KeptIndices(rows[..|rows| - 1], key, remap) + (if key(rows[|rows| - 1]) in remap then [|rows| - 1] else [])
  }

  /** `drop_rows`: the positions of the rows whose link column is not a key of `remap`. */
  function DroppedIndices<R>(rows: seq<R>, key: R -> int, remap: Remap): seq<nat>
    decreases |rows|
  {
    if rows == [] then []
    else DroppedIndices(rows[..|rows| - 1], key, remap) + (if key(rows[|rows| - 1]) !in remap then [|rows| - 1] else [])
  }

  /**
   * The exported table, re-indexed from 0: its j-th row is the j-th kept source row with the link
   * column replaced by the digest; a source row is kept iff its link is a key of `remap`; kept rows
   * keep their relative order; the dropped rows are exactly the others.
   */
  lemma {:induction false} KeptExact<R, X>(rows: seq<R>, key: R -> int, rekey: (R, Option<string>) -> X, remap: Remap)
    ensures var ks := KeptIndices(rows, key, remap); var kept := Kept(rows, key, rekey, remap);
      && |kept| == |ks|
      && (forall j :: 0 <= j < |ks| ==> ks[j] < |rows| && key(rows[ks[j]]) in remap && kept[j] == rekey(rows[ks[j]], remap[key(rows[ks[j]])]))
      && (forall i :: i in ks <==> 0 <= i < |rows| && key(rows[i]) in remap)
      && (forall a, b :: 0 <= a < b < |ks| ==> ks[a] < ks[b])
      && (forall i :: i in DroppedIndices(rows, key, remap) <==> 0 <= i < |rows| && key(rows[i]) !in remap)
    decreases |rows|
  {
    if rows != [] {
      var init := rows[..|rows| - 1];
      KeptExact(init, key, rekey, remap);
      var ks0 := KeptIndices(init, key, remap);
      assert forall i :: 0 <= i < |init| ==> init[i] == rows[i];
      assert forall j :: 0 <= j < |ks0| ==> ks0[j] < |rows| - 1;
      forall i ensures i in DroppedIndices(rows, key, remap) <==> 0 <= i < |rows| && key(rows[i]) !in remap {
        if 0 <= i < |rows| - 1 { assert init[i] == rows[i]; }
      }
    }
  }

  /**
   * The loop over one table: rows whose link is known are rewritten, the others collected in
   * `dropRows` and left out of the returned (re-indexed) table.
   */
  method RemapRows<R, X>(rows: seq<R>, key: R -> int, rekey: (R, Option<string>) -> X, remap: Remap)
    returns (table: seq<X>, dropRows: seq<nat>)
    ensures table == Kept(rows, key, rekey, remap)
    ensures dropRows == DroppedIndices(rows, key, remap)
  {
    table, dropRows := [], [];
    var idx := 0;
    while idx < |rows|
      invariant 0 <= idx <= |rows|
      invariant table == Kept(rows[..idx], key, rekey, remap)
      invariant dropRows == DroppedIndices(rows[..idx], key, remap)
    {
      assert rows[..idx + 1][..idx] == rows[..idx];
      var eid := key(rows[idx]);
      if eid in remap {
        table := table + [rekey(rows[idx], remap[eid])];
      } else {
        dropRows := dropRows + [idx];
      }
      idx := idx + 1;
    }
    assert rows[..idx] == rows;
  }

  function TagEntryLink(t: TagEntry): int { t.entryId }
  function TextFieldLink(t: TextField): int { t.entryId }
  function EntryLink(e: Entry): int { e.id }

  function TagEntryRow(t: TagEntry, digest: Option<string>): ExportTagEntry {
    ExportTagEntry(t.tagId, digest)
  }

  function TextFieldRow(t: TextField, digest: Option<string>): ExportTextField {
    ExportTextField(t.value, t.id, t.typeKey, digest, t.position)
  }

  function EntryRow(e: Entry, digest: Option<string>): ExportEntry {
    ExportEntry(digest, e.filename, e.suffix, e.dateCreated, e.dateModified, e.dateAdded)
  }

  /** Every entry links to itself, so the exported entries are all the entries, each keyed by its own digest. */
  lemma ExportedEntries(es: seq<Entry>)
    requires UniqueEntryIds(es)
    ensures var out := Kept(es, EntryLink, EntryRow, DigestRemap(es));
      |out| == |es| && forall k :: 0 <= k < |es| ==> out[k] == EntryRow(es[k], es[k].hexdigest)
  {
    var remap := DigestRemap(es);
    KeptExact(es, EntryLink, EntryRow, remap);
    var ks := KeptIndices(es, EntryLink, remap);
    forall k | 0 <= k < |es| ensures k in ks { DigestRemapAt(es, k); }
    CoverIsRange(ks, |es|);
    forall k | 0 <= k < |es| ensures Kept(es, EntryLink, EntryRow, remap)[k] == EntryRow(es[k], es[k].hexdigest) {
      DigestRemapAt(es, k);
    }
  }

  /** `export_tables`: what is already there (such as `merge_settings`) is kept; the four tables are set. */
  class ExportTables {
    var mergeSettings: Option<seq<string>>
    var tags: Option<seq<Tag>>
    var tagEntries: Option<seq<ExportTagEntry>>
    var textFields: Option<seq<ExportTextField>>
    var entries: Option<seq<ExportEntry>>

    /** A fresh export: only `merge_settings`, holding the name of the hash library. */
    constructor (hashlib: string)
      ensures mergeSettings == Some([hashlib])
      ensures tags.None? && tagEntries.None? && textFields.None? && entries.None?
    {
      mergeSettings := Some([hashlib]);
      tags, tagEntries, textFields, entries := None, None, None, None;
    }
  }

  /**
   * `create_exports`: `tags` is copied unchanged, `folders` is not exported, and `tag_entries`,
   * `text_fields` and `entries` are rewritten through the id -> digest remap.
   */
  method CreateExports(lib: Library, exp: ExportTables)
    modifies exp`tags, exp`tagEntries, exp`textFields, exp`entries
    ensures exp.tags == Some(lib.tags)
    ensures exp.tagEntries == Some(Kept(lib.tagEntries, TagEntryLink, TagEntryRow, DigestRemap(lib.entries)))
    ensures exp.textFields == Some(Kept(lib.textFields, TextFieldLink, TextFieldRow, DigestRemap(lib.entries)))
    ensures exp.entries == Some(Kept(lib.entries, EntryLink, EntryRow, DigestRemap(lib.entries)))
  {
    var remap := DigestRemap(lib.entries);
    exp.tags := Some(lib.tags);
    var tagEntries, _ := RemapRows(lib.tagEntries, TagEntryLink, TagEntryRow, remap);
    exp.tagEntries := Some(tagEntries);
    var textFields, _ := RemapRows(lib.textFields, TextFieldLink, TextFieldRow, remap);
    exp.textFields := Some(textFields);
    var entries, _ := RemapRows(lib.entries, EntryLink, EntryRow, remap);
    exp.entries := Some(entries);
  }
}
