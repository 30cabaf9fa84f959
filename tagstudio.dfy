/**
 * TagStudio's SQLite library as the scripts hold it in memory: one ordered table of
 * records per SQLite table (row order is the frame's RangeIndex order).
 * Timestamps are integers on one common clock; a missing cell (NULL, NaT) is `None`.
 */
module TagStudio {
  import opened Wrappers
  import opened Paths

  type Timestamp = int

  datatype Folder = Folder(id: int, path: Path, uuid: string)

  /** A row of `entries`; `hexdigest` is the column the scripts add to TagStudio's own layout. */
  datatype Entry = Entry(
    id: int,
    folderId: int,
    path: Path,
    filename: string,
    suffix: string,
    dateCreated: Option<Timestamp>,
    dateModified: Option<Timestamp>,
    dateAdded: Option<Timestamp>,
    hexdigest: Option<string>)

  datatype Tag = Tag(
    id: int,
    name: string,
    shorthand: Option<string>,
    colorNamespace: Option<string>,
    colorSlug: Option<string>,
    isCategory: bool,
    icon: Option<string>,
    disambiguationId: Option<int>)

  datatype TextField = TextField(value: Option<string>, id: int, typeKey: string, entryId: int, position: int)

  datatype TagEntry = TagEntry(tagId: int, entryId: int)

  /** `entries.id` is the table's primary key. */
  predicate UniqueEntryIds(es: seq<Entry>) {
    forall i, j :: 0 <= i < j < |es| ==> es[i].id != es[j].id
  }

  /** `all_table_data`: the tables loaded from one library, updated in place by the re-hash. */
  class Library {
    var folders: seq<Folder>
    var entries: seq<Entry>
    var tags: seq<Tag>
    var textFields: seq<TextField>
    var tagEntries: seq<TagEntry>

    ghost predicate Valid()
      reads this
    {
      UniqueEntryIds(entries)
    }

    constructor (folders: seq<Folder>, entries: seq<Entry>, tags: seq<Tag>,
                 textFields: seq<TextField>, tagEntries: seq<TagEntry>)
      requires UniqueEntryIds(entries)
      ensures Valid()
      ensures this.folders == folders && this.entries == entries && this.tags == tags
      ensures this.textFields == textFields && this.tagEntries == tagEntries
    {
      this.folders := folders;
      this.entries := entries;
      this.tags := tags;
      this.textFields := textFields;
      this.tagEntries := tagEntries;
    }
  }
}
