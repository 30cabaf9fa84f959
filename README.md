# TagStudio sharing helper and i3/OBS follower: a verified model

This project models the decision logic of two scripts from a personal dotfiles repository.

- `Tools/ts_helper.py` keeps a TagStudio library and a shareable copy of it.
  - The library is an SQLite database of folders, entries, tags, text fields and tag links.
  - The script adds a content digest (`hexdigest`) to every entry and re-hashes files whose modification time moved.
  - An export replaces every entry id by that digest, so two people's libraries can be merged.
  - Matching rules pair imported tags and entries with existing ones.
  - `attribute_file` finds the library entry for a path on disk.
- `obs-scripting/i3Follow.py` connects the i3 window manager to OBS.
  - At start it indexes the Steam games found in `~/.local/share/applications/*.desktop`.
  - It caches the scene sources of two OBS scenes.
  - On a focus change it writes a "Now Playing" text.
  - On a workspace change it enables the one scene source named like the focused monitor and disables the rest.

Each table is an ordered sequence of typed records (`TagStudio`). A missing cell (NULL, NaT, NaN) is `None`. Pandas `==` against a missing cell is false, which `ImportMatch.CellEq` models.

State that the scripts change in place lives in classes:
- `TagStudio.Library` holds the loaded tables; the re-hash rewrites its `entries`.
- `Exports.ExportTables` holds the export dict.
- `ObsFollow.I3ObsManager` holds the Steam table and the source caches.

Each loop of the source is a method with the same loop. It is proved against a specification function, and lemmas state what the source promises about that function. One exception: `create_exports` zips three table names with their link columns (Tools/ts_helper.py:250-251). `Exports.CreateExports` unrolls that outer loop into three calls of the per-table loop `Exports.RemapRows`, because the three tables have different row types.

Modules, in dependency order:
- `Wrappers`: Option, Result.
- `PyStr`: the few `str` operations used.
- `Paths`: `pathlib` parts, join, `is_relative_to` (same anchor, prefix of parts) and `relative_to`.
- `Frames`: the row-append helper.
- `TagStudio`: the tables.
- `Increasing`: a helper on increasing index lists.
- `Hexdigests`: re-hashing and the `sqlite_db_load` guard.
- `Exports`: `create_exports`.
- `ImportMatch`: the matching in `merge_with_imported_data`.
- `Attribution`: `attribute_file`.
- `SteamApps`: the `.desktop` scan.
- `ObsFollow`: the source caches, `rename_playing`, `on_workspace_focus`.

## Model

| member | source | states |
|---|---|---|
| Frames.AppendSeriesToEnd | Tools/ts_helper.py:36-45 | The result has one more row than the frame. The old rows and labels come first, unchanged. The new last row is the series, labelled `len(df)`. |
| Frames.AppendKeepsRangeIndex | Tools/ts_helper.py:36-45 | Appending to a frame labelled 0..n-1 gives a frame labelled 0..n. |
| Frames.AppendAllFromRange | Tools/ts_helper.py:36-45 | Appending rows one by one to a range-labelled frame gives exactly the old rows plus the new ones, labelled 0..n+k-1. |
| Hexdigests.FolderIndex | Tools/ts_helper.py:202-204 | `folder_remap` has a key iff some folder row has that id; the value comes from the last such row. |
| Hexdigests.FirstUnknownFolder | Tools/ts_helper.py:205-209 | None iff every entry's folder id is a key of `folder_remap`. Otherwise it is the first row whose folder is unknown, where the comprehension raises KeyError. |
| Hexdigests.EntryPaths | Tools/ts_helper.py:205-209 | Fails iff some entry's folder is unknown, naming the first such row. Otherwise it gives one path per row: folder path joined with entry path. |
| Hexdigests.RehashedRow | Tools/ts_helper.py:211-231 | A row is re-hashed iff its file exists and (force, or no `date_modified`, or mtime > `date_modified`). Then it gets `date_modified := mtime` and `hexdigest := hash(contents)`. Every other row is unchanged. |
| Hexdigests.UpdatedIndicesExact | Tools/ts_helper.py:211-233 | The returned list holds exactly the indices of the re-hashed rows, in increasing (iteration) order. |
| Hexdigests.MissingFileUntouched | Tools/ts_helper.py:211-214 | An entry whose joined path does not exist is neither changed nor listed, whatever `force` says. |
| Hexdigests.RehashKeepsIds | Tools/ts_helper.py:230 | The re-hash writes only `date_modified` and `hexdigest`, so entry ids stay unique. |
| Hexdigests.IndexHexdigests | Tools/ts_helper.py:185-233 | Unknown folder: raises with that folder id, entries untouched. Otherwise the entries table becomes the re-hashed table, and the result is the list of updated indices. |
| Hexdigests.RehashRows | Tools/ts_helper.py:211-233 | The loop rewrites the entries table in place into the re-hashed table and returns the updated indices. |
| Hexdigests.RehashPlan | Tools/ts_helper.py:124-149 | ValueError iff an update or a forced re-hash is asked for without a hash function. Nothing happens iff neither is asked for. A library without a `hexdigest` column gets the column and is indexed without force. Otherwise force is as asked. |
| Hexdigests.WithoutDigests | Tools/ts_helper.py:129-136 | The inserted column holds `None` in every row; all other cells unchanged. |
| Hexdigests.RefreshDigests | Tools/ts_helper.py:124-154 | The guard raises before anything changes. Without a request nothing changes and nothing is saved. Otherwise the entries become the re-hashed table (of the column-extended table the first time), and the tables are saved iff some row was updated. |
| Exports.DigestRemap | Tools/ts_helper.py:242-244 | The remap's keys are exactly the entry ids. |
| Exports.DigestRemapAt | Tools/ts_helper.py:242-244 | With unique entry ids, each entry's id maps to that entry's digest (possibly missing). |
| Exports.KeptExact | Tools/ts_helper.py:250-268 | In every rewritten table a row is kept iff its link is a key of the remap, and its link becomes that digest. Kept rows keep their relative order, renumbered 0..k-1. `drop_rows` holds exactly the other rows. |
| Exports.RemapRows | Tools/ts_helper.py:258-268 | The per-table loop returns the kept, rewritten rows and the dropped row positions. |
| Exports.ExportedEntries | Tools/ts_helper.py:250-268 | With unique entry ids, every entry is exported, in order, keyed by its own digest, without `folder_id`, `path` or `hexdigest`. |
| Exports.ExportTables.constructor | Tools/ts_helper.py:549-552 | A fresh export holds only `merge_settings` with the chosen hash library. |
| Exports.CreateExports | Tools/ts_helper.py:235-270 | `tags` is copied unchanged and `folders` is not exported. `tag_entries`, `text_fields` and `entries` are rewritten through the remap. `merge_settings` is untouched, since it is outside the modifies clause. |
| ImportMatch.FirstTagNamed | Tools/ts_helper.py:328-332 | None iff no existing tag has the name; otherwise the id of the first existing tag with that name. |
| ImportMatch.TagMapExact | Tools/ts_helper.py:322-332 | Every imported tag id, and nothing else, is a key of `tag_map`. Each maps to the first existing tag of the same name, or to None. |
| ImportMatch.TagMapKeys | Tools/ts_helper.py:322-332 | The keys of `tag_map` are exactly the imported tag ids. |
| ImportMatch.MatchTags | Tools/ts_helper.py:322-332 | The loop computes `tag_map`. |
| ImportMatch.SingleHit | Tools/ts_helper.py:346-348 | `len(found) == 1` iff exactly one row matches the filter, and then `found` is that row's id; `found` is empty iff no row matches. |
| ImportMatch.MatchEntryExact | Tools/ts_helper.py:342-360 | An imported entry maps to the one existing entry with its digest. Failing that, it maps to the one entry matching on filename, suffix and both dates. Otherwise it stays unmapped (both directions). |
| ImportMatch.NoDigestNoDigestMatch | Tools/ts_helper.py:346 | An imported entry without a digest is matched on attributes alone. |
| ImportMatch.EntryMapKeys | Tools/ts_helper.py:342-360 | Every key of `entry_map` is the digest of some imported row that matched. |
| ImportMatch.LastMatchedRow | Tools/ts_helper.py:342-360 | None iff no imported row with the digest matched; otherwise the last imported row with that digest that matched. |
| ImportMatch.EntryMapExact | Tools/ts_helper.py:342-360 | A digest is a key of `entry_map` iff some imported row with that digest matched, and it maps to the match of the last such row. A later row with the same digest that finds no match leaves the earlier match in place. |
| ImportMatch.EntryMapAt | Tools/ts_helper.py:342-360 | Where the last imported row with a digest matched, `entry_map` maps that digest to its match. |
| ImportMatch.MatchEntries | Tools/ts_helper.py:342-360 | The loop computes `entry_map`. |
| Attribution.FirstContainingFolder | Tools/ts_helper.py:467-473 | None iff no folder contains the path; otherwise the first folder in table order that does. A folder contains a path when both have the same anchor and the folder's parts are a prefix of the path's, so an empty folder path never contains an absolute query. |
| Attribution.EmptyFolderSkipped | Tools/ts_helper.py:467-473 | A folder stored with the empty path is passed over for an absolute query, and the search finds the next folder that contains it. |
| Attribution.ChooseFolder | Tools/ts_helper.py:467-473 | The folder loop with its `break` yields the chosen filter and relative path. |
| Attribution.ChosenExact | Tools/ts_helper.py:467-482 | No filter iff no folder contains the path, and then the path is kept as given. Otherwise the filter is the first containing folder's id, and the relative path joined back onto that folder gives the query. |
| Attribution.SearchRowsExact | Tools/ts_helper.py:475-482 | The searched rows are exactly the rows of the chosen folder (all rows without a filter), in increasing order. |
| Attribution.FirstMatch | Tools/ts_helper.py:485-490 | None iff no searched row has the path; otherwise the first searched position that does. |
| Attribution.AttributeExact | Tools/ts_helper.py:484-491 | The corrected lookup, by position rather than by label (see Findings): the hit is the id of the first searched entry whose path equals the relative query, and "not found" iff no searched entry has it. Unlike line 491 as written, it never reports a missing label. |
| Attribution.AttributeFile | Tools/ts_helper.py:457-491 | The corrected `attribute_file` up to its report: the folder loop, then the hit taken by position among the searched rows, not by label as line 491 does (see Findings). It returns the `Attribute` outcome and never a missing label. |
| Attribution.AsWrittenAgreesUnfiltered | Tools/ts_helper.py:491 | Without a folder filter, the lookup as written agrees with the positional one. |
| Attribution.AsWrittenRaisesOnFilteredHit | Tools/ts_helper.py:491 | A library where the lookup as written raises KeyError for a file that the library holds. |
| Attribution.AsWrittenReportsWrongEntry | Tools/ts_helper.py:491 | A library where the lookup as written reports an entry other than the one whose path matched. |
| SteamApps.FirstExec | obs-scripting/i3Follow.py:24-28 | None iff no line starts with `Exec=`; otherwise the first such line. |
| SteamApps.LastNameLine | obs-scripting/i3Follow.py:22-23 | None iff no line starts with `Name=`; otherwise the last such line. |
| SteamApps.LastName | obs-scripting/i3Follow.py:20-23 | `name` is the value of the last `Name=` line read (everything after the first `=`, trailing whitespace stripped), or its initial value. |
| SteamApps.ScanExact | obs-scripting/i3Follow.py:19-28 | A file's scan is decided by its first `Exec=` line, Steam or not. A Steam line gives as key the text after its last `/`, with trailing whitespace stripped, paired with the last `Name=` value before it or None. A Steam line without `/` raises IndexError. A file without an `Exec=` line gives nothing. |
| SteamApps.LinesAfterExecIgnored | obs-scripting/i3Follow.py:28 | Lines after the first `Exec=` line never change the scan. |
| SteamApps.ScanDesktopLines | obs-scripting/i3Follow.py:20-28 | The line loop with its `break` computes the scan. |
| SteamApps.IndexSteamApps | obs-scripting/i3Follow.py:16-28 | The directory loop computes `known_steam_apps`, or the file on which the scan raises. |
| SteamApps.PrefixErrorPersists | obs-scripting/i3Follow.py:17-28 | Once a file has raised, later files do not change the outcome. |
| SteamApps.OtherFilesIgnored | obs-scripting/i3Follow.py:18 | A file whose suffix is not `.desktop`, anywhere in the listing, changes nothing. |
| SteamApps.ContributionsAt | obs-scripting/i3Follow.py:17-28 | The contribution at a position is that file's: nothing unless it is a `.desktop` file, else its scan. |
| SteamApps.FirstRaising | obs-scripting/i3Follow.py:26 | None iff no contribution raises IndexError; otherwise the first one that does. |
| SteamApps.LastGame | obs-scripting/i3Follow.py:27 | None iff no contribution lists the game id; otherwise the last one that does. |
| SteamApps.SteamTableError | obs-scripting/i3Follow.py:17-28 | The index fails iff some `.desktop` file's scan raises, and the failure names the first such file. |
| SteamApps.SteamTableExact | obs-scripting/i3Follow.py:17-28 | When no file raises, a game id is a key of `known_steam_apps` iff some `.desktop` file lists it, and its name is the one the last such file gives. |
| SteamApps.LaterFileWins | obs-scripting/i3Follow.py:27 | A later file listing the same game id replaces the earlier entry. |
| PyStr.RStrip | obs-scripting/i3Follow.py:23 | `rstrip()` keeps the longest prefix that is not followed by anything but whitespace and does not itself end in whitespace. |
| PyStr.AfterLastSlash | obs-scripting/i3Follow.py:26 | `rsplit('/',1)[1]` is the text after the last `/`, which contains no `/`; it is missing (IndexError) iff there is no `/`. |
| PyStr.NameSuffix | obs-scripting/i3Follow.py:18 | A non-empty suffix runs from the last dot to the end: a `.` plus at least one character, containing no other `.`, and shorter than the name. |
| PyStr.NameSuffixEmpty | obs-scripting/i3Follow.py:18 | The suffix is empty iff the name has no dot that is its last dot and is neither its first nor its last character. |
| PyStr.DesktopNameSuffix | obs-scripting/i3Follow.py:18 | Any non-empty stem followed by `.desktop` has the suffix `.desktop`, so such a file is read. |
| PyStr.Capitalize | obs-scripting/i3Follow.py:77 | Same length; the first character upper case, the rest lower case (ASCII). |
| PyStr.DecimalRoundTrip | obs-scripting/i3Follow.py:89 | Reading back the decimal digits of `str(n)` gives `n`. |
| PyStr.IntToStringInjective | obs-scripting/i3Follow.py:89-91 | Distinct workspace numbers print differently, so the allowlist test on `str(num)` is a test on the number. |
| Paths.JoinRelativeTo | Tools/ts_helper.py:470-472 | Joining a folder with a path made relative to it gives the path back. |
| ObsFollow.Put | obs-scripting/i3Follow.py:47 | Storing into the cache keeps the names distinct and adds exactly the stored name. |
| ObsFollow.SourceCache | obs-scripting/i3Follow.py:47 | The built cache has distinct source names. |
| ObsFollow.SourceCacheLookup | obs-scripting/i3Follow.py:47 | The cache maps each source name to the id of its last scene item of that name (a later duplicate overwrites an earlier one), and holds no other name. |
| ObsFollow.FirstItemNamed | obs-scripting/i3Follow.py:47 | None iff no scene item has the name; otherwise the first scene item that does. |
| ObsFollow.SourceCacheOrder | obs-scripting/i3Follow.py:47 | Every cached name comes from some scene item. The cache lists the names in the order they first occur among the items, which is the order in which `on_workspace_focus` sends its requests. |
| ObsFollow.SetDefault | obs-scripting/i3Follow.py:75 | `setdefault` returns the stored value. An absent key is inserted with the default, which is returned. A present key leaves the dict unchanged. Other entries never change. |
| ObsFollow.I3ObsManager.constructor | obs-scripting/i3Follow.py:16-54 | A manager starts with the Steam table and the two source caches built from the scene item lists. |
| ObsFollow.I3ObsManager.RenamePlaying | obs-scripting/i3Follow.py:72-79 | A `steam_app_` name shows `known_steam_apps[suffix]`; an absent suffix is inserted mapping to itself, and the table is otherwise unchanged. Any other name is shown capitalised with no change. The text is `"Now Playing: "` plus the name. |
| ObsFollow.I3ObsManager.OnWorkspaceFocus | obs-scripting/i3Follow.py:89-102 | Outside a given allowlist no request is sent. Otherwise one request goes to each cached source in cache order, enabling it iff its name is the focused output. At most one source is enabled. |

## Left out

- SQLite and pandas I/O are not modelled: `get_db_connection`, `get_tables`, `get_table_description`, `get_table_data`, `sqlite_db_save` and the reads in `sqlite_db_load`. The loaded tables are the `Library` object, and "saved" is the boolean `RefreshDigests` returns.
- The file system is a map `Hexdigests.Disk` from full path to modification time and contents. `path.exists()`, `os.stat` and the file read become lookups in it. The hash function is a parameter, and the choice of `hashlib` algorithm is outside the model.
- Time stamps are integers on one clock. The conversion from `st_mtime` through `datetime.fromtimestamp` is not modelled.
- Printing is not modelled, including the report that `attribute_file` prints after its hit (lines 493-512, the tags and text fields of the hit).
- `merge_with_imported_data` after line 360 is not modelled: the tag-entry linking, the debug code, `pdb` breakpoints and `exit(0)`. The row deletion at lines 298-300 is debug code and is not modelled either.
- The argparse `__main__` block is not modelled except the fresh `merge_settings` table (`Exports.ExportTables.constructor`).
- In `create_exports`, the `astype(str)`/`int(...)` round trip of the link column is not modelled; link columns hold integers. The position at which the `hexdigest` column is inserted (before `date_modified`) is not modelled, since records have named fields.
- Entry ids are assumed unique (the table's primary key, `Library.Valid`). The re-hash loop's `entry_index` lookup and the `entry_paths` dict depend on it.
- Folder and entry path strings are assumed normalised, so equality of `str(path)` is equality of path parts. `pathlib` normalisation of `.`/`..` and repeated slashes is not modelled.
- `str.capitalize` is modelled for ASCII letters only. `str.isspace` covers the Unicode space characters; `str.startswith` and `in` are exact.
- The order in which `iterdir()` lists the applications directory is an input, the sequence of `DesktopFile`s. Each file's lines are given. Reading them is not modelled.
- Everything asynchronous in `i3Follow.py` is not modelled: the websocket connection, the requests, the i3 IPC subscription and the event loop. `OnWorkspaceFocus` returns the `SetSceneItemEnabled` requests (item id, enabled) in the order they would be sent. `RenamePlaying` returns the text for `SetInputSettings`. The scene item lists are inputs.
- The event attribute fallback of `rename_playing` (lines 67-70) is not modelled; the window class or workspace name is the input. With neither attribute, Python raises UnboundLocalError.
- The `ipc_data` introspection at line 88 is not modelled; the output name is an input.
- `obs_ws_config` is not part of this model. `allowed_workspaces` is the `allowed` parameter, and the scene and source names are not needed.
- `ObsFollow.I3ObsManager.constructor`: takes the Steam table already built (`SteamApps.IndexSteamApps`) instead of scanning in the constructor. The scan's IndexError therefore never reaches the manager.
- The stream-scene cache of line 54 is built like the follower cache but is never read by the shown code.

## Findings

| source | as written | input that shows it | evidently intended | confidence | as-written member | corrected member |
|---|---|---|---|---|---|---|
| Tools/ts_helper.py:491 | `search_index[matches.index(True)]` indexes the filtered id Series by label. Its labels are the original row numbers, while `matches.index(True)` is a position among the searched rows. | Folder 1 at `/a`; entries row 0 (id 10, folder 2, path `x`) and row 1 (id 11, folder 1, path `x`); query `/a/x`. The hit is position 0, but label 0 was filtered out: KeyError. With rows (10, folder 2, `y`), (11, folder 1, `x`), (12, folder 1, `y`) and query `/a/y`, the hit is position 1, and label 1 reports id 11 instead of 12. | The id of the entry at that position (`.iloc`) | not executed | Attribution.AttributeAsWritten (Attribution.AsWrittenRaisesOnFilteredHit, Attribution.AsWrittenReportsWrongEntry) | Attribution.Attribute (Attribution.AttributeExact, Attribution.AttributeFile) |
