# OpenSteamInjector core, modelled in Dafny

OpenSteamInjector is a small desktop tool. It takes files the user drops on
it (Steam app manifests `.acf`/`.manifest`, Lua unlock scripts `.lua`, and
`.vdf` configuration files) and copies or moves each into the right directory
under the Steam root. It guesses a readable program name for each file. It
also has a window, the Injected Apps Remover, that lists what has been
injected and deletes the selected files.

This project models the core of `test.py`:

- routing: `classify_file` and `derive_destinations`;
- name resolution: `parse_appname_from_manifest`, `parse_appid_from_text`,
  `find_appname_by_appid` and `guess_program_name_for_file`;
- `inject_file`;
- the remover's `refresh` (listing and label de-duplication) and
  `remove_selected`.

How the project is laid out:

- `common.dfy`, `text.dfy`, `paths.dfy`: Option/Result, string helpers
  (ASCII lower-casing, decimal strings, sorting by code point) and POSIX
  `os.path.join`/`basename`/`splitext`.
- `classifier.dfy`: file kinds, `classify_file` and `derive_destinations`.
- `patterns.dfy`: the six regular expressions as explicit matchers. `Find`
  is `re.search`'s leftmost scan. Each matcher is proved against a
  description of the text it accepts, in both directions: every text of
  that form is matched with the expected group, and every match has that
  form (`NameShape`, `IdShape`, `AssignShape`, `BareShape`).
- `filesystem.dfy`: the filesystem as a value. Files map to their decoded
  text. Directories map to their `os.listdir` order. `os.makedirs`,
  `shutil.copy2` and `os.remove` are pure functions on that value. The
  mutable `Disk` class has methods proved against those functions.
- `names.dfy`: program-name resolution.
- `injector.dfy`: `inject_file`, as a function on the filesystem plus a
  method on `Disk`.
- `labels.dfy`: the `base (n)` labels and the de-duplication loop of
  `refresh`.
- `remover.dfy`: the remover window as a class. Its fields are the listbox
  lines and `label_to_path`. `Refresh` and `RemoveSelected` are proved
  against the specification functions `Catalog` and `RemoveAll`.

The code behaves differently from a casual reading in a few places; the
model follows the code:

- `os.makedirs` runs outside the `try`. A failure there reaches the caller
  (`Raised`) instead of producing an "Error injecting" triple.
- A name that contains "manifest" counts as a manifest whatever its
  extension, so it is routed to `depotcache`. `refresh` only lists
  `.acf`/`.manifest` files there, so it never shows such a file unless
  its name ends in `.acf` or `.manifest`.
- A file named `.lua` (a leading dot and nothing else) has no extension for
  `splitext`, so it is refused.
- De-duplication numbers each label after the labels already taken. This
  gives each entry the first label not yet taken. If a base label itself
  looks like `other (n)`, the numbering skips that label (see
  `Catalogue.DedupSkipsTakenNumber`).

## Model

| member | source | states |
|---|---|---|
| Classifier.ClassifyFile | test.py:138-142 | A lower-cased basename containing "manifest" makes a manifest whatever its extension, because that test comes first. |
| Classifier.ClassifyByName | test.py:138-147 | The kind is decided on the lower-cased basename. The name is a manifest iff it contains "manifest" or ends in a real `.manifest`/`.acf` extension. It is Lua iff it does not qualify as a manifest and ends in `.lua`, and VDF likewise for `.vdf`. Anything else is unsupported. All four directions are stated. |
| Classifier.ClassifyCaseInsensitive | test.py:139 | Classifying the lower-cased path gives the same kind. |
| Classifier.ClassifyIgnoresDirectory | test.py:139 | The directory a file lives in never changes its kind. |
| Classifier.DotNameRefused | test.py:140-147 | A leading dot starts no extension. So `.lua`, `.acf` or `.vdf` as a whole file name is unsupported. |
| Classifier.ClassifyDotLua | test.py:140-147 | Sample: a file named `.lua` is refused. |
| Classifier.ClassifyUpperCaseVdf | test.py:139-146 | Sample: `x.VDF` is a VDF file. |
| Classifier.DeriveDestinations | test.py:131-136 | The table has exactly one destination for each of the three kinds. |
| Classifier.DestinationsDistinct | test.py:131-136 | Different kinds go to different directories. |
| Classifier.DestinationShapes | test.py:133-135 | The destinations are `depotcache`, `config` and `config/stplug-in` below the root. |
| Patterns.Find | test.py:157 | `re.search`: the position found matches, and no earlier position does. Nothing is found only if no position matches. |
| Patterns.SearchLeftmost | test.py:157-159 | A search succeeds iff the pattern matches somewhere. It then returns the group of the leftmost match. |
| Patterns.AtCaptures | test.py:156-171 | Every name group is non-empty and has no quote. Every appid group is a non-empty run of digits. The fallback captures five to seven digits. |
| Patterns.NameShapeMatched | test.py:156 | Every text of the form `"name"`, whitespace (a colon for the second pattern), then a quoted value, is matched. The group is the text between the quotes. |
| Patterns.NameMatchHasShape | test.py:156 | Conversely, every match of the name patterns has that form. |
| Patterns.AssignShapeMatched | test.py:167 | `appid` in any case after a word boundary, then `=` with optional spaces and digits up to a word boundary, is matched. The group is the digits. |
| Patterns.AssignMatchHasShape | test.py:167 | Conversely, every match of the `appid = digits` pattern has that form, and its group is the digits. |
| Patterns.IdShapeMatched | test.py:165-166 | `"appid"` in any case, whitespace (a colon for the second pattern), then digits between quotes, is matched. The group is the digits. |
| Patterns.IdMatchHasShape | test.py:165-166 | Conversely, every match of the two quoted appid patterns has that form. |
| Patterns.BareShapeMatched | test.py:171 | Five to seven digits with a word boundary on each side are matched, and the group is the whole run. |
| Patterns.BareMatchHasShape | test.py:171 | Conversely, every match of the fallback is such a run; a longer run of digits has no match inside it. |
| Patterns.ParseAppname | test.py:156-162 | The spaced pattern is searched over the whole text first, and its leftmost match decides when there is one. Otherwise the result is the colon pattern's leftmost match. There is no name iff neither matches. |
| Patterns.ParseAppnameLeading | test.py:156-159 | A text that starts with `"name"`, whitespace and a quoted value names that value. |
| Patterns.ParseAppnameHalfLife | test.py:156-159 | Sample: `"name" "Half-Life 3"` names `Half-Life 3`. |
| Patterns.ParseAppid | test.py:164-172 | The three explicit patterns are tried in order, and the first that matches anywhere decides. Only when none of them matches is a standalone run of five to seven digits taken. There is no appid iff nothing matches. |
| Patterns.NoQuotesNoQuotedAppid | test.py:165-166 | In a text without double quotes, the two quoted appid patterns cannot match. |
| Patterns.ParseAppidAssign | test.py:167-170 | Sample: `appid=440` gives `440`. |
| NameResolver.ParseAppnameFromManifest | test.py:152-162 | A path that is not a readable file yields no name. Otherwise the result is the parse of the file's text, and it is non-empty and quote-free. |
| NameResolver.FirstHit | test.py:178-186 | It finds the first listed entry that is a file whose text contains the appid, and every entry before it is not. |
| NameResolver.FindAppnameByAppid | test.py:174-192 | There is no name iff the depot cache is not a directory, or none of its files mentions the appid. Otherwise the name comes from the first file in listing order that does. |
| NameResolver.FindReportsFirstHit | test.py:178-189 | Conversely, the name reported is the one the first mentioning file gives: its manifest name, or else its stem. |
| NameResolver.FirstHitUnique | test.py:178-189 | The first mentioning file is unique, so the answer is determined. |
| NameResolver.DepotNameFor | test.py:200-207 | Without a readable file or a Steam root there is no depot name. A depot name is that of the first depot file, in listing order, that mentions the appid read from the file. There is none when the file yields no appid, the depot cache is missing, or no depot file mentions it. |
| NameResolver.GuessProgramName | test.py:194-210 | The guess never fails, and is non-empty for any path with a basename. |
| NameResolver.GuessPriority | test.py:194-210 | A manifest's own name comes first. Next comes the depot cache's name for the file's appid. Otherwise the stem is used. An unreadable file, or no Steam root, gives the stem. |
| NameResolver.GuessFromDepot | test.py:200-207 | A file without a name of its own, whose appid a depot file mentions first, is named by that depot file. |
| FileSystem.MakeDirsOn | test.py:226 | `os.makedirs(exist_ok=True)` leaves files untouched and never removes a directory. |
| FileSystem.Disk.MakeDirs | test.py:226 | The mutable filesystem changes exactly as `MakeDirsOn` says, and stays well formed. |
| FileSystem.Disk.Copy2 | test.py:229-236 | The mutable filesystem changes exactly as `Copy2On` says, or reports its error and stays unchanged. |
| FileSystem.Disk.Remove | test.py:232 | The mutable filesystem changes exactly as `RemoveOn` says, or reports its error and stays unchanged. |
| FileSystem.Unlist | test.py:232 | The listing after a removal holds exactly the names that do not denote the removed path. |
| Injector.DirChain | test.py:224-226 | The chain of directories `os.makedirs` creates starts at the root, is linked step to step, and ends at the kind's destination. |
| Injector.Inject | test.py:215-238 | Every returned triple carries the program name guessed on the filesystem as it was. |
| Injector.InjectRefuses | test.py:216-222 | An unsupported file is refused before the root is looked at. An unusable root is refused next. Neither refusal changes the filesystem. `ok` is reported only after both checks pass. |
| Injector.InjectSucceeds | test.py:229-236 | A success says "Moved" exactly when moving and "Injected" otherwise. The source still exists iff it was copied, not moved. |
| Injector.InjectPlacesFile | test.py:224-236 | With a supported file, an existing root and nothing blocking the destination, the call succeeds. The target holds the source's text. With `move` the source is gone. No other file changes. The only directories added are those of the chain. |
| Injector.InjectKeepsFiles | test.py:224-238 | No file other than the source is ever lost. Without `move`, no file at all is lost. |
| Injector.InjectIdempotent | test.py:224-236 | Injecting the same file twice by copy succeeds both times, and the second injection leaves the filesystem as the first one left it. |
| Injector.InjectRaises | test.py:224-226 | When `<root>/config` is a file, a VDF file makes `os.makedirs` raise `FileExistsError` out of `inject_file`, with nothing changed. |
| Injector.InjectRaisesBelowFile | test.py:224-226 | With the same file in the way, a Lua script makes the creation of `stplug-in` below it raise `NotADirectoryError`, with nothing changed. |
| Injector.InjectMissingSource | test.py:226-238 | A source that does not exist is reported as "Error injecting" with `FileNotFoundError`. The destination directories are still created, and no file changes. |
| Injector.InjectOntoItself | test.py:227-238 | A source that already lies at its target is reported as "Error injecting" with `shutil.SameFileError`, and no file changes. |
| Injector.InjectWellFormed | test.py:215-238 | Injection keeps the filesystem well formed. |
| Injector.MakeDirsClear | test.py:226 | When no step of a chain is a file, `os.makedirs` succeeds and creates exactly the missing steps. |
| Injector.MakeDirsNoop | test.py:226 | When every step already exists, `os.makedirs` does nothing. |
| Injector.DeliverOn | test.py:224-238 | On the mutable filesystem the outcome and the new state are exactly `Deliver` of the old state, and the filesystem stays well formed. |
| Injector.Deliver | test.py:224-238 | An aborted `makedirs` changes no file. Only the source can disappear. A delivery by copy keeps the source, and one by move removes it. |
| Injector.InjectFile | test.py:215-238 | The method on the mutable filesystem returns the outcome of `Inject` and leaves the state `Inject` describes. |
| Labels.Label | test.py:375-379 | The first attempt is the bare base label. Later attempts are longer: `base (n)`. |
| Labels.LabelInjective | test.py:377-379 | Different attempts at one base give different labels. |
| Labels.NumberedLabelsDisjoint | test.py:377-379 | Two numbered labels are equal only for the same base and number. |
| Labels.FreeIndex | test.py:376-379 | The `while` loop stops at a free label, and every attempt before it was taken. |
| Labels.FreeIndexLeast | test.py:376-379 | The loop stops at the first free label. |
| Catalogue.Dedup | test.py:374-381 | Each entry adds exactly one line to the listbox. |
| Catalogue.DedupFaithful | test.py:374-381 | The labels shown are pairwise distinct, and are exactly the keys of `label_to_path`. Each entry's label is a numbering of its base and maps to its path, so no entry is lost to a clash. |
| Catalogue.DedupOccurrence | test.py:374-381 | When no base looks like a numbered label, the k-th entry's label is its base numbered by how many entries with that base came before it, plus one. |
| Catalogue.DedupSkipsTakenNumber | test.py:374-381 | Sample: after a base already shown as `b (2)`, two `b` entries are shown as `b` and `b (3)`. |
| Catalogue.DedupPrefix | test.py:354-381 | Listing more entries never relabels the earlier ones. |
| Remover.ItemLabel | test.py:363-372 | A manifest's label is the name from its own `"name"` line, or the stem when there is none; the guess is not consulted. A Lua or VDF file's label is the guessed program name. Any other name is shown as itself. |
| Remover.Catalog | test.py:341-381 | With an unusable root the listing is the sentinel line alone, with nothing removable. Otherwise it shows the scanned entries faithfully: distinct labels that are exactly the map's keys, each a numbering of its entry's base and mapped to its path. |
| Remover.FolderEntries | test.py:356-372 | Every listed name of a folder that is a file with one of the folder's extensions gets an entry. All entries are files. |
| Remover.ScanTargets | test.py:348-372 | Across the three targets, every listed file with a matching extension gets an entry. All entries are files. |
| Remover.ListedNamesExactly | test.py:356-362 | A name is kept exactly when it is listed, is a file and ends, lower-cased, in one of the folder's extensions. |
| Remover.ListedNamesOrdered | test.py:356-362 | Skipping names keeps the remaining ones in their order. |
| Remover.FolderEntriesAre | test.py:356-372 | A folder yields one entry per kept name, in the same order, and nothing else. |
| Remover.FolderEntriesSound | test.py:356-372 | Every entry of a folder is that of one of its names that is a file with a matching extension. |
| Remover.TargetEntriesAre | test.py:354-372 | A target that is not a directory yields nothing. Otherwise it yields one entry per matching file of the folder, in sorted order of the names, and nothing else. |
| Remover.ScanOrder | test.py:348-354 | The scan yields the `stplug-in` Lua entries, then the `config` VDF entries, then the `depotcache` entries. |
| Remover.ScanTargetsSound | test.py:348-372 | Every scanned entry is that of a matching file in one of the target folders. |
| Remover.CatalogConsistent | test.py:341-381 | What `refresh` shows has distinct labels. Every removable label is shown, and every removable path is a file. |
| Remover.CatalogComplete | test.py:354-381 | Every matching file of a target folder can be selected: some shown label maps to it. |
| Remover.SelectedPaths | test.py:390-394 | The paths tried are at most one per selection, and each is one the listing maps a label to. |
| Remover.SelectedPathsExactly | test.py:390-394 | A path is tried exactly when some selected line's label maps to it and it is not empty. |
| Remover.RemoveAll | test.py:388-399 | Each path tried counts once, as removed or as an error. Afterwards none of them is a file, and no directory disappears. |
| Remover.RemoveAllCounts | test.py:390-397 | The removed count is the number of distinct paths tried that were files beforehand. Everything else tried counts as an error. |
| Remover.RemoveAllClean | test.py:390-397 | Selecting distinct existing files removes all of them, with no error. |
| Remover.RemoveNothingListed | test.py:344-394 | When only the sentinel line is shown, removal changes nothing and reports zero of each. |
| Remover.RemovedNotListed | test.py:396-401 | After removal and refresh, no path that was tried is offered again. |
| Remover.InjectedAppsRemover.constructor | test.py:318-339 | The new window shows `Catalog` of the filesystem, which is consistent. |
| Remover.InjectedAppsRemover.Refresh | test.py:341-381 | The listbox and `label_to_path` are rebuilt to exactly `Catalog` of the filesystem. That is the sentinel alone when the root is unusable, and the de-duplicated entries of the three targets otherwise. |
| Remover.InjectedAppsRemover.ListTarget | test.py:354-381 | One target's files, in sorted order, are placed after what is already shown. |
| Remover.InjectedAppsRemover.ListName | test.py:357-372 | A name is placed under its first free label exactly when it is a file with one of the folder's extensions. Otherwise nothing shown changes. |
| Remover.InjectedAppsRemover.AddEntry | test.py:374-381 | One entry gets the first free label, then goes at the end of the list and into the map. |
| Remover.InjectedAppsRemover.RemoveSelected | test.py:383-401 | No selection changes nothing. Otherwise the filesystem and the counts are those of `RemoveAll`, and the window then shows `Catalog` of the new filesystem. |

## Left out

- The GUI is not modelled: windows, message boxes, drag and drop, the
  settings file, `resource_path`, `webbrowser`, and process control (the
  restart of Steam). These are I/O with no logic of the core in them.
  Message boxes are represented by the values they would show.
- Thread handling is not modelled (the model is sequential), nor is
  `detect_steam_path`: the Steam root is a parameter.
- The loops of `inject_files` and `dropEvent` are not modelled. They only
  call `inject_file` once per file and show the triples.
- Paths are POSIX strings, using `posixpath` join, basename and splitext.
  Windows path rules, normalisation and symbolic links are not modelled.
- `str.lower`, `\d`, `\w` and `\b` are modelled on ASCII only, where Python
  also accepts other Unicode letters and digits. `re.IGNORECASE` is
  modelled the same way, so the `appid` literals do not match U+0130 'İ'
  or U+0131 'ı' in place of `i`, which Python's Unicode matching accepts.
  `\s` is Python's full whitespace set.
- `os.listdir`'s order is whatever order the filesystem value stores.
  `sorted` orders by code point.
- File contents are already-decoded text. The `errors="ignore"` decoding
  and permission errors on reading are not modelled: a file that exists is
  readable.
- `shutil.copy2` copies the text only. The metadata it copies
  (timestamps, permissions) is not modelled.
- The messages of `inject_file` are a datatype carrying the basename and
  the error cause. The f-string wording and an exception's text are not
  reproduced.
- NameResolver.GuessProgramName: its own contract states non-emptiness
  only. The order of its sources is stated in `NameResolver.GuessPriority`
  and `NameResolver.GuessFromDepot`.
- Injector.Inject: its own contract states the program name only. The
  outcomes are stated in `Injector.InjectRefuses`,
  `Injector.InjectSucceeds` and `Injector.InjectPlacesFile`.
- Catalogue.Dedup: its own contract states the number of lines only.
  Distinctness and the label-to-path map are stated in
  `Catalogue.DedupFaithful`.
- FolderEntries: its own contract states only that every matching file gets
  an entry and that all entries are files. That nothing else is listed,
  and the order, are stated in `Remover.FolderEntriesAre`,
  `Remover.FolderEntriesSound` and `Remover.TargetEntriesAre`.
- ScanTargets: its own contract states only that every matching file gets
  an entry and that all entries are files. That nothing else is listed is
  stated in `Remover.ScanTargetsSound`. The order (stplug-in, then config,
  then depotcache, names sorted within each) is stated in
  `Remover.ScanOrder` and `Remover.TargetEntriesAre`.
- FileSystem.RemoveOn, FileSystem.Copy2On, FileSystem.MakeDirsOn: these fail
  only for a missing path, a directory where a file is expected, a file in
  the way, or a copy onto itself. `PermissionError` and other `OSError`s (a
  file held open, a read-only folder, a full disk) are not modelled:
  removing or writing an existing, unblocked path never fails. The "no
  error" of `Remover.RemoveAllClean` and the success in
  `Injector.InjectPlacesFile` rely on this.
