# minecraft_server: a Dafny model of the handlers and their validators

This project models the core of a small tool that manages Minecraft servers. The tool
installs and finds server cores. It creates the `eula.txt` marker, builds the launch
command and removes whole server directories. It packs the live `world*` directories
into tar archives and restores them. It renames plugins between `.jar` and `.disabled`
and lists them. It reads and rewrites `server.properties`. Paths are checked on
assignment by three descriptors: `ServerDir`, `ServerCore` and `MinMaxRam`.

The filesystem is a value, `FileSystem.FS`: a map from resolved absolute paths to
`File(text)`, `Dir` or `Tar(members)`. A tar archive keeps, for each member name, the
directory tree stored under that name. `FileSystem.Disk` is one mutable object that holds
it. Every handler is a class whose methods name the disk in `modifies`. Each method is
specified by a pure function of the state before the call. That function gives the new
filesystem, or the exception raised, and in that case the filesystem is unchanged.
Path resolution is `Resolve(cwd, text)`: pathlib's segment rules with `..` taken
lexically. The working directory is a parameter, and so is the directory of the
descriptor module.

Modules, one per file:
- `Wrappers` holds `Option`, `Result` and `Error`, one constructor per exception raised.
- `Text` holds the string operations Python provides:
  - ordering, suffix and stem;
  - `str.replace`, `strip`, `split` and `join`;
  - universal newlines;
  - decimal text.
- `FileSystem` holds paths, nodes, resolution and the basic file operations.
- `Descriptors` covers `descriptors.py`, the validators `handlers.py` imports.
- `StrictDescriptors` covers the stricter `ServerDir`.
- `Binding` has an owner object whose attributes change only when a validator accepts.
- `CoreHandling`, `ServerHandling`, `WorldHandling`, `ModHandling` and
  `PropertiesHandling` cover the five handler classes of `handlers.py`.

Where code and design notes disagree, the model follows the code:
- The stricter `ServerDir` resolves a name against the working directory, not against the
  repository root.
- The root `ServerDir` rejects an escaping path only because `relative_to` raises. Its
  truth test never fires.
- `_change` raises `ValueError` only when both arguments are non-strings, since its test
  uses `and`.

## Model

| member | source | states |
|---|---|---|
| Descriptors.EnsureDirectory | descriptors.py:25-29 | an existing directory is kept unchanged; an existing non-directory is rejected; an absent path becomes an empty directory |
| Descriptors.BindServerDir | descriptors.py:15-31 | a non-Path value is rejected as the wrong type; otherwise the value is accepted iff its resolved path lies under the script directory and the directory step succeeds; on success the stored directory is the resolved path, and the filesystem is unchanged or gains exactly that one directory |
| Descriptors.BindServerDirIdempotent | descriptors.py:25-31 | binding the same value again, on the filesystem the first binding left, gives the same directory and changes nothing |
| Descriptors.BindExistingDirChangesNothing | descriptors.py:25-27 | binding an existing directory under the script directory leaves the filesystem as it was |
| Descriptors.BindCreatesEmptyDir | descriptors.py:28-29 | binding an absent path whose parent is a directory creates it as an empty directory and nothing else |
| Descriptors.BindServerCore | descriptors.py:47-57 | a core is accepted iff it is a path, a server directory is bound and the resolved core lies under it; a non-path fails on `resolve` first, a missing server directory is rejected next |
| Descriptors.CoreNeedNotExist | descriptors.py:54-57 | a path under the server directory is accepted even when no file exists there |
| Descriptors.ValidateRam | descriptors.py:71-84 | a non-tuple and a tuple of other than two items are rejected; a pair is accepted iff the absolute value of the first is below that of the second; the stored pair is strictly increasing |
| Descriptors.RamSignInsensitive | descriptors.py:77 | negating either bound does not change the outcome |
| Descriptors.RamNeverSwaps | descriptors.py:79-84 | equal or reversed magnitudes are rejected, never reordered |
| StrictDescriptors.BindServerDir | server_management/descriptors.py:15-41 | the type test, then the shape test (relative, one segment) before any resolution; accepted iff the resolved path lies under the repository root, is not the package directory and the directory step succeeds |
| StrictDescriptors.BoundIsOneStep | server_management/descriptors.py:21-24 | a bound directory is the named child of the working directory, or its parent for `..` |
| StrictDescriptors.ParentOfRootRejected | server_management/descriptors.py:24-30 | `..` passes the shape test but, from the repository root, escapes and is rejected |
| StrictDescriptors.PackageDirRejected | server_management/descriptors.py:26-33 | the `server_management` package directory is refused |
| StrictDescriptors.PlainNameBound | server_management/descriptors.py:35-41 | any other plain name is bound to the child of that name, whether or not it existed as a directory |
| StrictDescriptors.StricterThanRoot | server_management/descriptors.py:15-41 | whatever the strict validator accepts, the root validator accepts as well, with the same directory and the same filesystem effect |
| StrictDescriptors.BindServerDirIdempotent | server_management/descriptors.py:35-41 | binding again on the resulting filesystem gives the same result |
| Binding.Owner.AssignServerDir | descriptors.py:15-31 | on acceptance the attribute and the filesystem take the validator's result; on rejection both are unchanged and the error is returned |
| Binding.Owner.AssignServerDirStrict | server_management/descriptors.py:15-41 | the same, for the strict validator |
| Binding.Owner.AssignServerCore | descriptors.py:47-57 | the core attribute changes only when the validator accepts |
| Binding.Owner.AssignRam | descriptors.py:71-84 | the RAM attribute is set to the absolute pair only when the validator accepts |
| CoreHandling.Cores | handlers.py:21-22 | the candidates are exactly the non-directory children whose suffix is `.jar` |
| CoreHandling.JarGlob | handlers.py:70 | the glob matches exactly the children whose name ends in `.jar` |
| CoreHandling.PaperUrl | handlers.py:30 | the Paper download URL for a version and build; its last piece is given by PaperDownloadName |
| CoreHandling.DownloadName | handlers.py:53 | the file name of a download is the last `/`-separated piece of the URL, which contains no `/` |
| CoreHandling.PaperDownloadName | handlers.py:27-53 | a Paper build's URL ends in the file name `paper-VERSION-BUILD.jar` |
| CoreHandling.PaperCoreIsFound | handlers.py:20-59 | a Paper core written to the server directory is a candidate of `find_core` |
| CoreHandling.CoreHandler.Create | handlers.py:15-18 | a handler exists exactly when the server directory binding succeeds; the filesystem changes as the binding says |
| CoreHandling.CoreHandler.FindCore | handlers.py:20-25 | None iff there is no candidate; otherwise a candidate whose name is greater than every other candidate's |
| CoreHandling.CoreHandler.RemoveCore | handlers.py:61-72 | with a non-empty name: deletes exactly that file, or fails with a missing core or a directory error and deletes nothing; without one: deletes the files the glob matches, succeeding iff all are files, and deletes only matched files |
| CoreHandling.BulkRemovalLeavesNoCore | handlers.py:70-72 | after a complete bulk removal `find_core` finds nothing |
| CoreHandling.GlobWiderThanCores | handlers.py:20-25 | a file named just `.jar` (suffix empty) is removed in bulk but never found |
| CoreHandling.BuildOrderIsTextual | handlers.py:21-24 | the order is textual: build 9 sorts above build 10 |
| ServerHandling.WithEula | handlers.py:110-114 | `eula.txt` is created with `eula=true` when absent; an existing entry is left as it is |
| ServerHandling.WithEulaWellFormed | handlers.py:110-114 | the marker write keeps the filesystem well formed and the server directory a directory |
| ServerHandling.EulaMakesServerDir | handlers.py:110-114 | the marker step is idempotent and afterwards `remove_server` recognises the directory |
| ServerHandling.EulaKeepsExisting | handlers.py:111-114 | an existing `eula.txt` keeps its text |
| ServerHandling.LaunchCommand | handlers.py:122-124 | six items: java path, the two heap flags, `-jar`, the core's file name, `--nogui` |
| ServerHandling.HeapFlagsRoundTrip | handlers.py:122-124 | the minimum and maximum RAM are read back from the two heap flags |
| ServerHandling.HeapFlagRoundTrip | handlers.py:123 | a flag written as option, decimal and `G` parses back to its number |
| ServerHandling.IsServerDir | handlers.py:143-145 | the guard of `remove_server`: a directory with a child named `eula.txt` of any kind; EulaMakesServerDir and RemoveServerOnce use it |
| ServerHandling.RemoveServer | handlers.py:141-147 | succeeds iff the value is a path to a directory that holds `eula.txt`, removing that whole subtree; any other value fails with the one error and removes nothing |
| ServerHandling.RemoveServerOnce | handlers.py:141-147 | a second removal of the same directory fails |
| ServerHandling.ServerHandler.Create | handlers.py:81-87 | the three validators in order; the first failure is returned; on success the fields hold the validated directory, core, RAM pair and java path |
| ServerHandling.ServerHandler.EulaHandling | handlers.py:110-114 | the disk becomes the marker step applied to the old disk |
| ServerHandling.ServerHandler.StartServer | handlers.py:118-124 | writes the marker, then yields exactly the launch command |
| ServerHandling.RemoveServerDir | handlers.py:140-147 | the disk follows the removal function; on failure it is unchanged |
| WorldHandling.ArchivePath | handlers.py:169 | a name with no segments is rejected; otherwise the path has the suffix `.tar` would give the last segment |
| WorldHandling.PackTarget | handlers.py:169-172 | a relative name gives the archive path; an absolute one is accepted only under the server directory |
| WorldHandling.PlainArchivePath | handlers.py:169 | a plain name gives the server directory's child `NAME.tar` |
| WorldHandling.WorldGlob | handlers.py:160 | exactly the children whose name starts with `world` |
| WorldHandling.LiveWorlds | handlers.py:160-162 | exactly the glob matches that are directories |
| WorldHandling.WorldList | handlers.py:193-195 | exactly the stems of the children with suffix `.tar` |
| WorldHandling.OpenForWrite | handlers.py:182 | succeeds iff the path is not a directory and its parent is; the result is an empty archive there |
| WorldHandling.WriteArchive | handlers.py:181-185 | opening the archive and adding the worlds: every other entry is kept unchanged, and on success the entries are the old ones plus the archive, which is a tar archive |
| WorldHandling.AddMembers | handlers.py:183-185 | only the archive changes; a missing world is the only failure |
| WorldHandling.AddMembersPresent | handlers.py:183-185 | with all worlds present, each is stored under its own name as the subtree below it |
| WorldHandling.DeleteAll | handlers.py:187-190 | the removal loop only removes entries, never changes one, and on success leaves nothing at or below any listed world |
| WorldHandling.Conflict | handlers.py:206-207 | an archived entry lands where an entry of the other kind (file against directory) exists, which tarfile cannot replace |
| WorldHandling.Extract | handlers.py:206-207 | the result holds the old entries plus every archived entry placed below the server directory, archived entries taking precedence |
| WorldHandling.PackResult | handlers.py:175-191 | the list is kept, or cleared with the archive path returned; the filesystem stays well formed |
| WorldHandling.PackWithoutWorlds | handlers.py:181-191 | with no world listed and no archive of that name, nothing is written and None is returned; with an archive left from earlier it is returned unchanged |
| WorldHandling.PackAllWorlds | handlers.py:181-191 | with live worlds and no archive, packing returns the archive, clears the list, removes the worlds and stores each under its own name |
| WorldHandling.NoLiveWorldLeft | handlers.py:187-190 | after the removals no `world*` directory remains |
| WorldHandling.UnpackResult | handlers.py:197-212 | any listed world refuses with `FileExistsError`; on success the filesystem stays well formed |
| WorldHandling.UnpackMissingArchive | handlers.py:203-210 | with no live world, a missing `NAME.tar` is `FileNotFoundError` |
| WorldHandling.UnpackRestores | handlers.py:197-212 | unpacking the archive that packing produced gives back the filesystem before packing |
| WorldHandling.PackThenUnpack | handlers.py:166-212 | pack followed by unpack of the same name is the identity on the filesystem |
| WorldHandling.RemoveWorldResult | handlers.py:215-222 | succeeds iff `NAME.tar` is a file, deleting exactly it; an absent archive is `FileNotFoundError` |
| WorldHandling.CollisionGuard | handlers.py:176-179 | the guard as written: a non-empty world list containing the archive path, compared as Python values; CollisionGuardNeverFires shows it is always false |
| WorldHandling.CollisionGuardNeverFires | handlers.py:176-179 | as written the guard never fires (see Findings) |
| WorldHandling.PackOverwritesSavedWorld | handlers.py:176-185 | a saved world of the same name is listed, yet packing succeeds and drops its members that are not live worlds now |
| WorldHandling.OverwrittenMembers | handlers.py:181-185 | over an existing archive the new archive holds exactly the live worlds |
| WorldHandling.StaleListBreaksPack | handlers.py:157-190 | a refused unpack leaves the world in the list; the next pack lists it twice, removes it once and then fails, leaving the archive |
| WorldHandling.DuplicateEntryFails | handlers.py:187-190 | a world listed twice is removed once and the second removal fails |
| WorldHandling.PackIntended | handlers.py:166-191 | the corrected pack: the list is always cleared and the filesystem stays well formed |
| WorldHandling.IntendedGuardIffSaved | handlers.py:176-179 | the corrected guard fires iff `NAME.tar` exists |
| WorldHandling.PackIntendedRefusesSaved | handlers.py:176-179 | the corrected pack refuses an existing saved world and changes nothing |
| WorldHandling.PackIntendedThenUnpack | handlers.py:166-212 | the corrected pack returns the archive, leaves no live world, and unpack restores the filesystem |
| WorldHandling.WriteMembers | handlers.py:182-185 | the member loop computes exactly the archive-writing function |
| WorldHandling.DeleteWorlds | handlers.py:187-190 | the removal loop computes exactly the removal function |
| WorldHandling.WorldHandler.Create | handlers.py:151-157 | a handler exists exactly when the server directory binding succeeds (which may create the directory); the disk follows the binding; the world list starts empty |
| WorldHandling.WorldHandler.GetCurrentWorld | handlers.py:159-164 | appends every live world once, in some order, without clearing; None iff the list is then empty |
| WorldHandling.WorldHandler.Pack | handlers.py:166-191 | the disk and list follow the archive path and the pack function on the old state plus the newly listed worlds |
| WorldHandling.WorldHandler.Unpack | handlers.py:197-212 | the live worlds are appended to the list first; the disk then follows the unpack function |
| WorldHandling.WorldHandler.RemoveWorld | handlers.py:215-222 | the disk follows the removal function |
| ModHandling.Mangle | handlers.py:244-245 | the cut at the last dot (rfind, with -1 cutting before the last character) and the dot replacement before it; its properties are the four Mangle lemmas below |
| ModHandling.PluginFileName | handlers.py:242-245 | the plugin file name has no `/` |
| ModHandling.MangleChars | handlers.py:244-245 | same length; every dot before the last dot becomes `_`; all other characters are kept |
| ModHandling.MangleKeepsLastDot | handlers.py:244-245 | the only dot left is the last one, at its old position |
| ModHandling.MangleKeepsSuffix | handlers.py:245 | the suffix is unchanged |
| ModHandling.MangleIdempotent | handlers.py:245 | mangling twice equals mangling once |
| ModHandling.PluginFileNameOf | handlers.py:242-245 | for a URL ending in `/STEM.EXT`, the name is STEM with dots replaced, then `.EXT` |
| ModHandling.PluginPath | handlers.py:282 | an empty name fails as `with_suffix` does; otherwise a path in the plugins directory |
| ModHandling.PlainPluginPath | handlers.py:299-300 | a plain name gives `plugins/NAME.EXT` |
| ModHandling.PluginNames | handlers.py:315 | exactly the children whose suffix is `.jar` or `.disabled` |
| ModHandling.Label | handlers.py:319-325 | a `.jar` name shows as its stem, any other as its stem plus ` (disabled)`; LabelOfPlugin states both cases |
| ModHandling.LabelOfPlugin | handlers.py:319-325 | `STEM.jar` is shown as STEM, `STEM.disabled` as `STEM (disabled)` |
| ModHandling.RemovePluginResult | handlers.py:279-286 | an empty name fails; a missing file is `FileNotFoundError`; succeeds iff `NAME.jar` is a file, deleting exactly it |
| ModHandling.RemovePluginOnce | handlers.py:279-286 | removing the same plugin twice fails the second time |
| ModHandling.ToggleEnds | handlers.py:299-300 | source and destination are distinct siblings |
| ModHandling.ToggleResult | handlers.py:296-310 | an empty name fails; a missing source is `FileNotFoundError`; success keeps the filesystem well formed |
| ModHandling.ToggleMovesFile | handlers.py:305-308 | a present plugin moves to the other suffix with its contents; nothing else changes |
| ModHandling.ToggleRoundTrip | handlers.py:296-308 | disabling and then enabling (or the reverse) restores the filesystem |
| ModHandling.ToggleRelists | handlers.py:296-329 | after a toggle the listed names lose the source name and gain the destination name |
| ModHandling.DisableRelists | handlers.py:296-329 | disabling `STEM.jar` replaces it by `STEM.disabled` in the listing, with the same contents |
| ModHandling.ModHandler.Create | handlers.py:228-235 | the binding, then `plugins` created when absent; a binding failure changes nothing |
| ModHandling.ModHandler.RemovePlugin | handlers.py:279-287 | the disk follows the removal function |
| ModHandling.ModHandler.TogglePlugin | handlers.py:296-310 | the disk follows the toggle function |
| ModHandling.ModHandler.GetPluginNames | handlers.py:314-329 | a missing plugins directory, or one with no plugins, is `FileNotFoundError`; otherwise the labels of all plugins, in sorted order, each listed once |
| ModHandling.SortedPluginNames | handlers.py:315 | the listing loop produces a sorted sequence holding exactly the plugin names |
| ModHandling.Labels | handlers.py:318-329 | the labelling loop maps each name to its label, position by position |
| PropertiesHandling.PortString | handlers.py:388-389 | `str(new_port)` for a string or an integer, negatives with a leading `-`; PortStringOfNumber states the round trip |
| PropertiesHandling.PortStringOfNumber | handlers.py:386-390 | a non-negative port is written in decimal digits that parse back to it |
| PropertiesHandling.ReadText | handlers.py:348-350 | reads succeed iff the path is a file, giving its text with universal newlines; absent and directory paths fail with their errors |
| PropertiesHandling.Entry | handlers.py:370-374 | one line taken apart: stripped, skipped without `=`, split at the first `=`; EntryRejoins and EntryOf state its meaning |
| PropertiesHandling.EntryRejoins | handlers.py:370-374 | a stripped line without `=` is skipped; otherwise key, `=` and value rejoin to the stripped line and the key has no `=` |
| PropertiesHandling.EntryOf | handlers.py:374 | `KEY=VALUE` is split back into KEY and VALUE |
| PropertiesHandling.FirstKeyIndex | handlers.py:369-377 | the index of the first line with that key, or -1; no earlier line has the key |
| PropertiesHandling.FirstValue | handlers.py:365-378 | None iff no line has the key |
| PropertiesHandling.FirstValueAt | handlers.py:369-377 | the first line with the key gives the value |
| PropertiesHandling.FindValueResult | handlers.py:365-378 | a non-string key is rejected; otherwise it succeeds iff the file reads, giving the first value for the key |
| PropertiesHandling.FindInLines | handlers.py:369-378 | the line loop returns exactly the first value for the key |
| PropertiesHandling.ChangeResult | handlers.py:352-363 | two non-strings are `ValueError`; exactly one is `TypeError` after the read; success rewrites only the file, to the text with every occurrence replaced |
| PropertiesHandling.ChangeToSameValue | handlers.py:360-363 | replacing a value by itself changes only the line endings |
| PropertiesHandling.ChangeAbsentValue | handlers.py:361 | an old value that does not occur leaves the text as read |
| PropertiesHandling.ChangeParamResult | handlers.py:380-384 | success keeps the filesystem well formed |
| PropertiesHandling.ChangeParamToCurrentValue | handlers.py:380-384 | setting a key to its current value changes only the line endings |
| PropertiesHandling.ChangeParamMissingKey | handlers.py:380-384 | a key that no line has makes `_change` fail with `TypeError` |
| PropertiesHandling.ChangeParamRewritesOtherKeys | handlers.py:380-390 | changing one key also rewrites another key's equal value (see Findings) |
| PropertiesHandling.ChangeParamIntended | handlers.py:380-384 | the corrected change only rewrites the file, keeping the filesystem well formed |
| PropertiesHandling.ChangeParamIntendedSetsOnlyThatLine | handlers.py:380-384 | the corrected change replaces only the first line with the key, by `KEY=VALUE`, and reading the key back gives the new value |
| PropertiesHandling.PropertiesHandler.Create | handlers.py:338-346 | the binding, then `FileNotFoundError` when `server.properties` is absent |
| PropertiesHandling.PropertiesHandler.FindValue | handlers.py:365-378 | the result is that of the lookup function on the current disk |
| PropertiesHandling.PropertiesHandler.Change | handlers.py:352-363 | the disk follows the change function |
| PropertiesHandling.PropertiesHandler.ChangeParam | handlers.py:380-384 | the disk follows the parameter change function |
| PropertiesHandling.PropertiesHandler.ChangePort | handlers.py:386-390 | the port parameter is set from the text of the port value |

## Left out

- HTTP downloads (`install_other_core`, `download_plugin`, `download_plugins_bulk`): network I/O. Only the file name taken from the URL is modelled: `CoreHandling.DownloadName` and `ModHandling.PluginFileName`.
- `remove_all_plugins`: a loop of `remove_plugin` calls over the directory listing. `ModHandling.RemovePluginResult` covers each call.
- Process launch, waiting and the Ctrl-C handler of `start_server`: subprocess and signal handling. Only the command list is modelled.
- Banner printing and the message printed by `remove_plugin`: terminal output.
- `app.py` (argument dispatch), `main.py` (a print-and-swallow wrapper) and the two test scripts: glue around the handlers.
- Symbolic links and the operating system's working directory: `Resolve` treats `..` lexically, and the working directory is a parameter.
- The tar byte format and the internals of `shutil.rmtree`: an archive is an abstract map from member name to tree, and removal deletes a whole subtree at once.
- Reading a tar archive as text (`PropertiesHandling.ReadText`): the model fails with `NotText` and does not decode bytes.
- Non-integer RAM values (floats): `Descriptors.ValidateRam` takes integers only.
- The order of directory listings is not fixed by the operating system. `GetCurrentWorld`, `RemoveCore` and `Pack` choose an order and expose it as a ghost output.
- The value of `disable` in `toggle_plugin` is modelled as a `bool`. Truthiness of other values, and the unreachable `else` branch, are not modelled.
- ServerHandling.RemoveServer: requires that a path value not resolve to the filesystem root, because the model's filesystem always keeps its root directory.
- WorldHandling.PackThenUnpack, WorldHandling.PackOverwritesSavedWorld, WorldHandling.StaleListBreaksPack and WorldHandling.PackIntendedThenUnpack: stated for plain names only (no `/`, not `.` or `..`); the operations themselves accept every name.
- WorldHandling.UnpackResult: extraction is all or nothing. tarfile extracts members one at a time, in archive order. A file-against-directory conflict on a later member raises after the earlier members are already on disk, and the archive is then not deleted. The model instead fails with `ExtractConflict` and changes nothing. A member that lacks entries for its intermediate directories is refused as `NotATarArchive`, where tarfile would create those directories. Archives written by `pack_current_world` always carry them. Both differences follow from keeping an archive as an unordered map from member name to tree.
- WorldHandling.WorldHandler.Unpack: inherits both differences from WorldHandling.UnpackResult; after a conflict the disk is unchanged rather than partly restored.
- The handlers' `Valid()` states that the server directory exists. The core, server and world handlers require it, while the plugin handler does not. After another handler removes the directory from the shared `Disk`, the `FileNotFoundError` that `iterdir` or `open` would raise is therefore not modelled for those handlers.
- ModHandling.DisableRelists and ModHandling.PlainPluginPath: stated for plain names only; the toggle and removal functions accept every name.
- PropertiesHandling.ChangeParamIntendedSetsOnlyThatLine: stated for keys and values without line breaks or surrounding spaces.

## Findings

| source | as written | input that shows it | evidently intended | confidence | as-written member | corrected member |
|---|---|---|---|---|---|---|
| handlers.py:176-182 | `archive_path in packed_worlds` compares a Path with a list of stems (strings), so the guard is never true | a saved `w.tar` holding `world_old`, a live `world`, then `pack_current_world("w")` overwrites `w.tar` and `world_old` is lost | refuse to pack when a saved world of that name exists | not executed | WorldHandling.PackOverwritesSavedWorld | WorldHandling.PackIntendedRefusesSaved |
| handlers.py:157-190 | `_get_current_world` appends to `_current_world` without clearing it, and only a successful pack clears it | a live `world`; `unpack_world_from_archive("x")` is refused, then `pack_current_world("w")` lists `world` twice, archives it, removes it once and raises on the second `rmtree` | the list holds the live worlds of the current call only | not executed | WorldHandling.StaleListBreaksPack | WorldHandling.PackIntendedThenUnpack |
| handlers.py:352-390 | `_change_param` replaces the found value everywhere in the file | `server-port=1` and `query.port=1`; `change_port(2)` also sets `query.port=2` | rewrite only the line of that key | not executed | PropertiesHandling.ChangeParamRewritesOtherKeys | PropertiesHandling.ChangeParamIntendedSetsOnlyThatLine |
