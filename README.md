# iced_filechooser core, modelled in Dafny

This project models the core of `iced_filechooser`, a file-selection widget
for a Wayland layer-shell desktop. It covers four pieces of sequential logic:

- **Directory scanner** (`dirfs.dfy`, module `DirFs`; sorting in
  `name_sort.dfy`, module `NameSort`). `DirUnit` holds an end flag, a cursor
  over the raw listing and the classified entries. `PollDir` consumes one raw
  entry and classifies it as a `File` or a `Dir`. It pushes that entry and,
  unless the entry is a symlink, re-sorts the entries by name in byte order.
  `Enter` checks that the target is a directory. It drains listings of fewer
  than 1000 raw entries at once. The module also holds the pure helpers:
  directory display name, owner permission bits, the `FsInfo` predicates,
  and the visibility and eligibility rules of the view.
- **Portal options** (`portal_option.dfy`, module `PortalOption`).
  - The NUL-terminated `FilePath` and its byte serialisation.
  - `FileFilter`: its builders, its split into MIME-type and glob lists, and
    its display string.
  - `Choice` and its builders.
  - The `FileChosen` open/save request and its mode predicates.
- **Selection state** (`chooser.dfy`, module `Chooser`): `is_samedir`, and a
  `FileChooser` class whose methods are the `update` arms that change the
  selected paths, the current selection, the two display flags and the scanned
  directory.
- **Icon cache** (`icon_cache.dfy`, module `IconCache`): a map from icon key
  to handle that only grows. A hit returns the stored handle. A miss stores
  exactly one handle, chosen by the kind of key.

The operating system and the shared MIME database are passed in as oracles,
bundled in a `DirFs.FileSystem` value:
- `Path::is_dir`;
- `fs::read_dir` (the listing, or a failure);
- file-name-to-MIME lookup;
- generic icon lookup.

Each raw entry carries what `DirEntry` and `fs::read_link` would report.
Canonicalisation is an oracle `canon: Path -> Option<Path>`. Paths and names
are text (`seq<char>`); `FilePath` is bytes.

## Model

| member | source | states |
|---|---|---|
| `DirFs.ParsePermission` | src/dirfs.rs:255-257 | each component is 0 or exactly its owner bit (read, write, execute = mode bits 8, 7, 6) |
| `DirFs.SplitLast` | src/dirfs.rs:48-54 | the last piece of `split('/')` is the longest '/'-free suffix; there is more than one piece iff the text contains '/' |
| `DirFs.GetDirName` | src/dirfs.rs:47-59 | the result is "/" iff the path is empty or ends in '/'; otherwise it is the text after the last '/', with no '/' in it |
| `DirFs.Classify` | src/dirfs.rs:166-222 | an invalid name and missing metadata are errors; otherwise the entry keeps the name and path, holds `parse_permission(mode)` and, for a symlink, the `read_link` result as its link target (none otherwise), is a symlink iff the metadata says so, and is a directory iff the target (symlink) or the entry is one; a directory's icon is "inode-directory"; a file's icon is the generic icon of its first MIME candidate, else "text-plain"; writeable iff `mode & S_IWUSR != 0`; executable iff `mode & S_IXUSR != 0` |
| `DirFs.PushEntryProperties` | src/dirfs.rs:175-228 | a push adds exactly one entry and keeps the earlier ones as a multiset; a symlink is appended without sorting; any other entry leaves the list sorted by name; on a sorted list the new entry is spliced in and the old entries keep their order |
| `DirFs.DirUnit.PollDir` | src/dirfs.rs:161-230 | an exhausted cursor sets the end flag and changes nothing else; otherwise the cursor advances by one; an error leaves the entries unchanged; a success pushes the classified entry; the end flag never goes back to false |
| `DirFs.DirUnit.LsEnd` | src/dirfs.rs:157-159 | reports the end flag; once it is set no raw entry is left to poll |
| `DirFs.DirUnit.constructor` | src/dirfs.rs:143-148 | a new unit is unfinished and empty, and holds the whole cursor |
| `DirFs.ClassifiedPreview` | src/dirfs.rs:290-307 | a classified entry is an SVG iff it is a file whose MIME candidates for its name include image/svg+xml, and an image iff it is a file whose first MIME candidate has the generic icon "image-x-generic"; directories are neither |
| `DirFs.LsDirPre` | src/dirfs.rs:259-265 | fails unless the path is a directory that opens; the count includes entries that failed to read, so it is at least the number of entries left to poll |
| `DirFs.Flatten` | src/dirfs.rs:264 | keeps exactly the entries that were read, and is no longer than the listing |
| `DirFs.FlattenAppend` | src/dirfs.rs:264 | flattening keeps listing order: it distributes over concatenation |
| `DirFs.DirUnit.Enter` | src/dirfs.rs:141-155 | fails as `ls_dir_pre` does; below 1000 raw entries it returns finished, with the drained collection; otherwise it returns unfinished and empty, with the full cursor |
| `DirFs.DrainCollectsClassified` | src/dirfs.rs:149-153 | polling to the end adds exactly the entries that classify, as a multiset; its length is the old length plus their number |
| `DirFs.DrainSortedWithoutSymlinks` | src/dirfs.rs:223-228 | with no symlink in the listing, a drained collection is sorted by name |
| `DirFs.VisibleInfos` | src/dirfs.rs:81-84 | an entry is shown iff it is in the collection and `show_hide` or its name does not start with '.' |
| `DirFs.VisibleInfosAppend` | src/dirfs.rs:81-84 | filtering keeps collection order: it distributes over concatenation |
| `DirFs.VisibleInfosKeepsOrder` | src/dirfs.rs:81-84 | with `show_hide` every entry is shown; filtering keeps a sorted collection sorted |
| `DirFs.CanSelectedByKind` | src/dirfs.rs:378-380 | files are always readable, so a file is selectable iff files are chosen; a directory iff directories are chosen and it opens; a directory can be entered iff it opens |
| `NameSort.NameLeTotal` | src/dirfs.rs:223-228 | any two names are comparable in byte order |
| `NameSort.NameLeTransitive` | src/dirfs.rs:223-228 | byte order on names is transitive |
| `NameSort.SortBySorted` | src/dirfs.rs:223-228 | the re-sort yields a list sorted by name |
| `NameSort.SortBy` | src/dirfs.rs:223-228 | the re-sort is a permutation of its input |
| `NameSort.SortAfterAppend` | src/dirfs.rs:223-228 | re-sorting a sorted list after an append is the merge-insert of the new entry |
| `PortalOption.FirstNul` | src/portal_option.rs:34 | the first NUL: at a NUL, with none before it; none is found only when there is none |
| `PortalOption.Deserialize` | src/portal_option.rs:28-39 | succeeds iff the bytes end in NUL and contain no other NUL; then serialising gives the bytes back; otherwise the error is "Bytes are not nul-terminated" |
| `PortalOption.SerializeRoundTrip` | src/portal_option.rs:19-39 | deserialising a serialised path gives the path back |
| `PortalOption.SelectAppend` | src/portal_option.rs:127-140 | the projections preserve order: projecting a concatenation concatenates the projections |
| `PortalOption.SelectMembership` | src/portal_option.rs:127-140 | a string is projected iff it occurs in the filters with that tag |
| `PortalOption.SelectPartition` | src/portal_option.rs:127-140 | the MIME-type and glob projections have lengths adding up to the number of filters |
| `PortalOption.FileFilter.New` | src/portal_option.rs:79-81 | the filter has the given label and no filters |
| `PortalOption.FileFilter.Default` | src/portal_option.rs:103-107 | the label is "All files: (*)" and there are no filters |
| `PortalOption.FileFilter.Mimetype` | src/portal_option.rs:85-88 | appends `(MimeType, s)`; the label and earlier filters are unchanged |
| `PortalOption.FileFilter.Glob` | src/portal_option.rs:92-95 | appends `(GlobPattern, s)`; the label and earlier filters are unchanged |
| `PortalOption.BuildersExtendProjections` | src/portal_option.rs:85-140 | each builder extends its own projection by its argument, leaves the other projection alone, and extends the display by " " and the argument |
| `PortalOption.Fmt` | src/portal_option.rs:110-117 | the display is the label, " :", then " " and each filter string in order |
| `PortalOption.DisplayWithoutFilters` | src/portal_option.rs:103-117 | a filter with no entries displays as its label followed by " :" |
| `PortalOption.Choice.New` | src/portal_option.rs:166-173 | a new choice has the given id, label and initial selection, and no pairs |
| `PortalOption.Choice.Boolean` | src/portal_option.rs:155-157 | the initial selection is "true" or "false" according to the state |
| `PortalOption.Choice.Insert` | src/portal_option.rs:177-180 | appends the pair; id, label and initial selection are unchanged |
| `PortalOption.InsertAllInOrder` | src/portal_option.rs:177-198 | `pairs` returns the inserted pairs in insertion order |
| `PortalOption.FileChosenModes` | src/portal_option.rs:247-268 | save iff not open; multi-select and directory mode imply an open request |
| `PortalOption.DefaultIsModalSingleOpen` | src/portal_option.rs:231-245 | the default is a modal, single-file, non-directory open request with no filters, choices, current filter, handle token, accept label or current folder |
| `Chooser.IsSameDir` | src/lib.rs:34-42 | false whenever either path fails to canonicalise; otherwise true iff the canonical forms are equal |
| `Chooser.IsSameDirEquivalence` | src/lib.rs:34-42 | reflexive on resolvable paths, symmetric and transitive |
| `Chooser.FirstIndex` | src/lib.rs:125 | the index of the first occurrence of the path, or none iff it is absent |
| `Chooser.Position` | src/lib.rs:125 | a left-to-right scan that finds that first occurrence |
| `Chooser.Checked` | src/lib.rs:116-123 | in single mode the list becomes exactly `[p]`; in multi mode the list is unchanged when `p` is present and is `selected + [p]` otherwise; no duplicate is introduced |
| `Chooser.Unchecked` | src/lib.rs:125-130 | no-op when `p` is absent; otherwise exactly the first occurrence of `p` is removed and the rest keep their order; on a duplicate-free list `p` is gone and every other path stays |
| `Chooser.CheckUncheckRestores` | src/lib.rs:115-131 | in multi mode, checking then unchecking an absent path restores the list |
| `Chooser.ToggleSelected` | src/lib.rs:134-141 | the current selection is cleared iff it was the same path as `p` after canonicalisation; otherwise it becomes `p` |
| `Chooser.SelectTwiceClears` | src/lib.rs:133-141 | selecting the same path twice, from a state not already on it, clears the current selection |
| `Chooser.FileChooser.constructor` | src/lib.rs:74-84 | nothing is selected, no detail, hidden files and image preview off |
| `Chooser.FileChooser.RequestNextDirs` | src/lib.rs:96-101 | the directory changes only when the result is for the same directory; nothing else changes |
| `Chooser.FileChooser.RequestShowHide` | src/lib.rs:107-110 | sets only the hidden-files flag |
| `Chooser.FileChooser.RequestShowImage` | src/lib.rs:111-114 | sets only the image-preview flag |
| `Chooser.FileChooser.RequestMutiSelect` | src/lib.rs:115-132 | the list changes as `Checked` or `Unchecked`; it stays duplicate-free, with at most one path outside multi mode; nothing else changes |
| `Chooser.FileChooser.RequestSelect` | src/lib.rs:133-150 | the current selection toggles as `ToggleSelected`; the list changes as for a checked multi-select; the invariant is kept |
| `IconCache.Lookup` | src/icon_cache.rs:23-42 | afterwards the key is cached with the returned handle; a hit returns the stored handle and leaves the cache unchanged; a miss adds exactly that key with the handle for its kind; no other entry changes |
| `IconCache.RunOnlyGrows` | src/icon_cache.rs:20-42 | over any sequence of lookups, the keys are the old keys plus those looked up, old entries keep their handles, and coherence is kept |
| `IconCache.LookupIdempotent` | src/icon_cache.rs:25-27 | a second lookup of the same key returns the same handle and changes nothing |
| `IconCache.IconCache.constructor` | src/icon_cache.rs:20-21 | the cache starts empty |
| `IconCache.IconCache.GetIconHandle` | src/icon_cache.rs:23-42 | behaves as `Lookup` on the cache field; the handle is the path handle for `Path(s)`, the embedded text-plain image for `Text`, and the embedded directory image for `Dir` |

## Left out

- Widgets, layout and rendering are left out: `DirUnit::view` layout, `title_bar`, `get_parent_path`, `get_prevouse_icon`, `FsInfo::view`, `get_icon`, `get_icon_handle`, and `left_view`, `main_view` and `filter_box` in src/lib.rs. Only the show/hide filter and the `dir_can_enter` and `can_selected` booleans of the view are modelled.
- The `Lazy` and `Arc<Mutex<…>>` globals are left out. The cache is an explicitly constructed object, and the lock only adds mutual exclusion between threads.
- `fs::read_dir`, `Path::is_dir`, `fs::read_link`, `canonicalize` and the MIME database are I/O or foreign calls, so they are oracles.
- `utils::get_icon` is not modelled: its only callers (src/dirfs.rs:67, 352) are UI and are left out above.
- `ls_dir_pre` calls `fs::read_dir` twice, once to count and once to iterate. The model assumes both calls see the same listing.
- The `unwrap()` on `fs::read_link` (src/dirfs.rs:176) is a precondition (`DirFs.ReadLinkSucceeds`): every polled symlink can itself be read. `read_link` reads the link, not its target, so a dangling link still succeeds; `Path::is_dir` is then false and the entry is a `File` with `symlink` set, as `DirFs.Classify` states. Only a link that cannot be read (it vanished after listing, or permission is denied) makes the code panic, and the model does not cover that case. The same holds for the two `canonicalize().unwrap()` calls in `RequestSelect` (src/lib.rs:135-136): both paths must canonicalise whenever a current selection is set.
- `DirFs.DirUnit.PollDir`: entries from the symlink branch are appended without re-sorting, as in the code. A collection that received a symlink can therefore be unsorted until the next non-symlink entry, so sortedness is stated only after non-symlink pushes.
- `Vec::sort_by` is modelled by a stable insertion sort (`NameSort.SortBy`). Every stable sort gives the same result, so the model describes the same state.
- Path equality in `contains` and `position` on `selected_paths` compares `PathBuf` values. Rust compares them component by component, so for example "a/b/" equals "a/b". The model compares paths as plain text. MIME types are compared as plain text as well.
- `to_string_lossy` is not modelled: paths are already text. `AsRef<Path>` for `FilePath` is not modelled either.
- The serde framing around the `FilePath` bytes is not modelled. Neither is the derived serialisation of `Choice`. Only the byte payload and its NUL rule are modelled.
- `Chooser.FileChooser.RequestNextDirs` takes the effect of `append_infos` followed by `set_end` as a parameter. It reads the directory's path through `dirPath`, which stands for `current_dir()`. `update_dir_infos`, `append_infos`, `set_end`, `current_dir` and `set_cache_pattern` are called from src/lib.rs but are not part of this model: that file was written against a different version of src/dirfs.rs. Likewise `is_muti_filechooser` on `FileChoosen` is modelled by `FileChosen.IsMultiFilechooser`.
- `RequestEnter`, `Command::perform`, window close, the two splitter sizes, `FilterChanged`, the search-pattern messages and the filter combo box are async plumbing and UI, so they are left out.
- src/main.rs is an empty application template and is not modelled.
