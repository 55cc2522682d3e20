# fs_mods_manager in Dafny

A model of the core of fs_mods_manager, a desktop tool that keeps several
stacks of Farming Simulator mods side by side and makes one of them the
game's mods folder through a directory junction.

The model covers the following parts of the program:

- **Mods.** A mod archive gives the `modDesc.xml` descriptor and an icon entry.
  - The icon is resolved in three steps: the exact name, then the name ignoring case, then the same stem.
  - A Mod is built completely or not at all.
- **Descriptors.** The metadata accessors read the parsed document: author, version, icon, multiplayer, and the localized title and description with their language fallback.
- **Mod stacks.** A stack is a folder of archives.
  - It has an insertion-ordered dictionary of the mods loaded from its folder.
  - `__update` reconciles that dictionary with the folder's listing.
  - `addMod`, `updateMod` and `removeMod` act on the folder.
  - Enabling a stack moves the single game-mods link to it.
  - A process-wide registry allows one stack per folder.
- **The manager.** It makes one stack per sub-folder of the stack folder, keyed by the sub-folder's name.
- **The stack widget's paging.** This is the window of mod indices a page shows and the grid cell of each shown mod.
- **`resizeText`.** The line breaking the mod widget applies to titles, authors and descriptions.
- **The task runner.** A task runs at most once; the synchronous runner drains its queue in order.
- **The configuration store.** The in-memory dictionary with `get`, `set`, `in` and `keys`.

The filesystem is a map from paths to files and folders (module `Disk`).
- A folder holds its listing in `os.listdir` order.
- A file holds the parsed content of its zip archive, or nothing when the file is not a readable archive.
- `os.listdir`, `shutil.copy`, `os.remove` and opening a zip archive are functions of that map.
- The directory junction is one field, `FileSystem.link`.

Python's exceptions are values of `Wrappers.Error`, returned in a `Result` or an `Outcome`.

The model follows the code where it differs from the documented behaviour:
- **`updateMod`.** It uses the same guard as `addMod`: it refuses a path that is a key, and it does not refuse a name that is absent. It therefore behaves exactly like `addMod` (`ModStacks.ModStack.UpdateMod`).
- **Duplicate checks in `addMod`.** The check compares the whole archive path with the keys, and the keys are bare file names. A path with a folder part therefore never counts as already present (`ModStacks.FullPathNeverTracked`).
- **Deleting keys in `__update`.** A key is deleted while `keys()` is being iterated. In CPython the next step of that iteration raises `RuntimeError`, so an `__update` deletes at most one stale key and then raises (`ModStacks.Reconciled`, `ModStacks.TrackedRemovalRaises`). Reconciling a pass is still idempotent (`ModStacks.ReconcileIdempotent`).
- **Updating an archive.** Copying an archive over a tracked one keeps the Mod loaded before, because `__update` skips names that are already keys (`ModStacks.ReplacedArchiveNotReloaded`).
- **`getModByIndex`.** It uses Python list indexing, so negative indices from `-len` to `-1` succeed.
- **Title and description.** The title is returned as it is, and the description is stripped.
  - Each access removes the first `"\n"` text child from the live contents list.
  - A second access therefore removes a second one (`ModDescs.TitleTwice`).

## Model

| member | source | states |
|---|---|---|
| Mods.FirstCaseless | src/mod.py:48-51 | the index of the first entry equal to the icon ignoring case; none when no entry is |
| Mods.FirstSameStem | src/mod.py:55-58 | the index of the first entry whose text before the first dot equals the icon's; none when no entry has it |
| Mods.FindRealIcon | src/mod.py:40-61 | the exact name if present, else the first case-insensitive match, else the first same-stem match, else FileNotFoundError |
| Mods.IconIsEntry | src/mod.py:40-61 | a resolved icon is an entry of the archive; the only failure is FileNotFoundError |
| Mods.StrategyPriority | src/mod.py:42-58 | when some entry matches ignoring case, resolution succeeds with a case-insensitive match, never with a stem-only one |
| Mods.ResultMatchesSomeStrategy | src/mod.py:42-58 | every resolved entry equals the icon, equals it ignoring case, or shares its stem |
| Mods.CaselessExample | src/mod.py:48-51 | `icon.dds` resolves to `Icon.DDS` |
| Mods.StemExample | src/mod.py:55-58 | `icon.dds` resolves to `icon.png` |
| Mods.IconCachePath | src/mod.py:32 | a relative entry name is cached below the temporary folder, at a path ending with the name; a rooted one keeps at most the folder's drive and lands outside it |
| Mods.LoadOutcome | src/mod.py:17-24 | a mod loads only when the zip opens, holds `modDesc.xml` and names an icon that resolves; the result is an archive entry; a zip error is passed on |
| Mods.Mod.constructor | src/mod.py:19-24 | a Mod holds its archive path, its descriptor and its cached icon path |
| Mods.Mod.Load | src/mod.py:17-27 | a fresh Mod exists exactly when its archive loads; otherwise the first error comes back; the Mod keeps its path and the cached icon path, and its descriptor holds the author, version, icon name, multiplayer attributes, titles and descriptions of the archive's `modDesc.xml` |
| ModDescs.FirstNamed | src/moddesc.py:41-46 | the index of the first element child with the given tag; text nodes never match |
| ModDescs.Select | src/moddesc.py:41-47 | the preferred-language child, else the first `en` child, else the first child, else IndexError |
| ModDescs.SelectPicksChild | src/moddesc.py:41-47 | the selection succeeds exactly when there is a child, and the selected node is one of the children |
| ModDescs.PreferredBeatsEnglish | src/moddesc.py:41-46 | an element in the preferred language wins over every `en` element, wherever they stand |
| ModDescs.ModDesc.constructor | src/moddesc.py:17-18 | the descriptor holds the fields of the parsed document |
| ModDescs.ModDesc.Author | src/moddesc.py:23-24 | the author text, or AttributeError when the element is missing |
| ModDescs.ModDesc.Version | src/moddesc.py:28-29 | the version text, or AttributeError when the element is missing |
| ModDescs.ModDesc.Icon | src/moddesc.py:68-69 | the icon file name, or AttributeError when the element is missing |
| ModDescs.ModDesc.SupportMultiplayer | src/moddesc.py:72-73 | true exactly when `supported` is `"true"`; TypeError without the element, KeyError without the attribute |
| ModDescs.ModDesc.Title | src/moddesc.py:32-47 | the first `"\n"` child is removed from the live list, then the selected child's text is returned unstripped; AttributeError without the element |
| ModDescs.ModDesc.Description | src/moddesc.py:50-65 | the same selection as the title, with the chosen text stripped |
| ModDescs.TitleTwice | src/moddesc.py:39-40 | two title reads remove the first two `"\n"` children and nothing else |
| Strings.LowerChar | src/mod.py:49 | ASCII capitals move up by 32; characters that are not capitals are unchanged |
| Strings.Lower | src/mod.py:49 | `lower()` keeps the length and lower-cases each character |
| Strings.Stem | src/mod.py:56 | `split(".")[0]` is the longest prefix without a dot, and a dot follows it when it is not the whole text |
| Strings.LeadingSpaces | src/moddesc.py:61 | the number of whitespace characters the text starts with |
| Strings.TrailingSpaces | src/moddesc.py:61 | the number of whitespace characters the text ends with |
| Strings.Strip | src/moddesc.py:61 | `strip()` is the slice between the leading and the trailing whitespace, and it neither starts nor ends with whitespace |
| Strings.StripIdempotent | src/moddesc.py:61 | stripping twice is stripping once |
| Strings.JoinWith | src/tk_mod.py:29 | joining no part gives the empty text, and joining one part gives that part |
| Strings.JoinWithLength | src/tk_mod.py:29 | the joined text is as long as the parts plus one separator between each two |
| Paths.LastSepBefore | src/modStack.py:46 | the position of the last separator before a bound, or -1 |
| Paths.Basename | src/modStack.py:46 | `basename` is the separator-free suffix after the drive and the last separator |
| Paths.Dirname | src/modStack.py:91 | `ntpath.dirname` is a prefix of the path: the drive and the part before the last separator, trailing separators stripped unless it is a root |
| Paths.DirnameOfChild | src/modStack.py:91 | `dirname` of a folder joined with a plain name is that folder |
| Paths.DirnameExample | src/modStack.py:91 | `dirname` of `C:\stacks\a` is `C:\stacks`, and of `C:\a` the root `C:\` |
| Paths.Join | src/mod.py:32 | `ntpath.join`: a relative name goes after the folder and one separator; a rooted name keeps only the folder's drive; a name on another drive replaces the folder |
| Paths.RootedJoinExample | src/mod.py:32 | joining `C:\Temp\mod_manager` with `/icon.dds` gives `C:/icon.dds`, and a folder with `D:\x.zip` gives `D:\x.zip` |
| Paths.ChildIsJoin | src/modStack.py:54 | for a relative name, the path of a listed entry is `ntpath.join` of folder and name |
| Paths.BasenameOfChild | src/modStack.py:46 | the base name of a listed entry's path is the entry's name |
| Paths.BasenameOfJoin | src/manager.py:40-41 | the name of the stack of folder `root\entry` is `entry` |
| Paths.ChildInjective | src/manager.py:39-41 | different listed names give different stack folders |
| Seqs.IndexOf | src/moddesc.py:40 | the position of the first occurrence |
| Seqs.RemoveFirst | src/moddesc.py:39-40 | `list.remove` drops exactly the first occurrence, when there is one |
| Seqs.Without | src/modStack.py:137 | the listing without a removed name keeps every other name |
| Dicts.Dict.Put | src/modStack.py:54 | assignment stores the value; other keys keep theirs; a new key goes last and a present key keeps its place |
| Dicts.Dict.Delete | src/modStack.py:85 | `del` removes the key from the map and from the order, and leaves the rest unchanged |
| Dicts.Dict.Values | src/modStack.py:141 | `values()` lists the values in key order |
| Dicts.Empty | src/modStack.py:45 | a new dictionary is empty |
| Dicts.SizeIsKeyCount | src/modStack.py:144 | `len` of the dictionary is the number of keys in its order |
| Disk.ListDir | src/modStack.py:61-63 | `listdir` gives a folder's listing; FileNotFoundError for a missing path; NotADirectoryError for a file |
| Disk.ChangeDir | src/modStack.py:24 | `os.chdir` succeeds exactly on a folder; FileNotFoundError for a missing path, NotADirectoryError for a file |
| Disk.OpenZip | src/mod.py:20 | a `ZipFile` opens exactly on a readable archive file and yields its content |
| Disk.Copy | src/modStack.py:117 | `shutil.copy` succeeds exactly when the source is a file, the target exists (a missing target is FileNotFoundError here; see "## Left out"), and the copy lands neither on the source nor on a folder; onto the source itself it raises SameFileError and from a missing source FileNotFoundError; into a folder it writes the file under its base name, and a new name joins the listing; onto a file it overwrites it; no other path changes and listings stay well formed |
| Disk.Remove | src/modStack.py:137 | `os.remove(join(folder, name))` succeeds exactly on a file, removes exactly that file and its name from every listing, and raises FileNotFoundError for a missing path |
| Disk.FileSystem.CopyInto | src/modStack.py:117 | the disk becomes the copy's result, or stays unchanged with the error |
| Disk.FileSystem.RemoveFile | src/modStack.py:137 | the disk becomes the removal's result, or stays unchanged with the error |
| Disk.FileSystem.constructor | src/modStack.py:16 | the disk, the configured game-mods path and the temporary folder, with no game-mods link yet |
| ModStacks.LoadKeysFacts | src/modStack.py:51-64 | the loading loop keeps the keys it starts from, appends only listed names that load, each once, and appends every one that loads |
| ModStacks.LoadKeysOnlyFiles | src/modStack.py:63-64 | a name that is not listed never becomes a key |
| ModStacks.LoadKeysKeeps | src/modStack.py:79-82 | the loading loop never loses a key |
| ModStacks.FailedNamesFacts | src/modStack.py:51-57 | every name in the failed list is a listed `.zip` whose Mod could not be built, and it does not become a key |
| ModStacks.LoadedKeysExactly | src/modStack.py:59-64 | after `__load` the keys are exactly the listed `.zip` names whose Mod can be built, each once |
| ModStacks.FirstMissing | src/modStack.py:83-85 | the first key, in insertion order, that the listing lacks |
| ModStacks.LoadKeysNoNew | src/modStack.py:79-82 | a loading pass over names that are all keys adds nothing |
| ModStacks.LoadKeysIdempotent | src/modStack.py:79-82 | a second loading pass over the same listing adds nothing |
| ModStacks.ReconcileIdempotent | src/modStack.py:71-86 | with the disk unchanged, an `__update` after one that passed changes nothing and passes |
| ModStacks.PassMeansInSync | src/modStack.py:71-86 | after an `__update` that passed, every key is listed and every listed loadable `.zip` is a key |
| ModStacks.ListedKeySurvives | src/modStack.py:79-85 | a key that is still listed keeps its Mod through `__update` |
| ModStacks.TrackedRemovalRaises | src/modStack.py:133-138 | removing a tracked mod's file makes the following `__update` raise RuntimeError |
| ModStacks.Instances.constructor | src/modStack.py:40 | the registry of stacks starts empty |
| ModStacks.ModStack.constructor | src/modStack.py:44-46 | a new stack has its folder, the folder's base name as its name, and no mods |
| ModStacks.ModStack.Create | src/modStack.py:41-49 | a registered folder gives the duplicate-stack exception; a listing error leaves the registry as it was; otherwise the stack has the loaded keys and is registered under its folder |
| ModStacks.ModStack.Open | src/modStack.py:44-47 | the new stack is on the folder and named after its base name; a listing error propagates; otherwise its keys are the listed names that load, in listing order, the failures are the `.zip` names that fail, and every Mod is built from its archive |
| ModStacks.ModStack.LoadMod | src/modStack.py:51-57 | a `.zip` whose Mod loads becomes a key holding a fresh Mod built from that archive (path, descriptor, cached icon); a broken one is reported; any other name changes nothing |
| ModStacks.ModStack.Load | src/modStack.py:59-64 | a listing error is returned; otherwise the keys and the failed list are those of one loading pass over the listing, and every Mod is built from its archive: path, cached icon path, and every descriptor field, titles and descriptions as parsed |
| ModStacks.ModStack.LoadListing | src/modStack.py:63-64 | from an empty dictionary, one `__loadMod` per listed name gives the keys and failed names of one loading pass, each Mod built from its archive with every descriptor field, titles and descriptions as parsed |
| ModStacks.ModStack.Update | src/modStack.py:71-86 | the dictionary is reconciled with the listing as `Reconciled` describes; Mods already loaded keep their values, and every new one is built from its archive with every descriptor field, titles and descriptions as parsed |
| ModStacks.ModStack.LoadMissing | src/modStack.py:79-82 | the listed names that are not keys are loaded as one loading pass gives them; the Mods already there keep their values |
| ModStacks.ModStack.LoadStep | src/modStack.py:79-82 | one turn of the loop extends the keys and the failure list exactly as the loading pass prescribes for the next listed name, keeps every Mod already there and builds every new one |
| ModStacks.ModStack.LoadAbsent | src/modStack.py:80-82 | a name that is already a key changes nothing; otherwise the name is reported if and only if it fails, appended to the keys if and only if it loads, and the Mod it gets is built from its archive |
| ModStacks.ModStack.DropFirstStale | src/modStack.py:83-85 | with no stale key nothing changes; otherwise the first stale key is deleted and the walk raises RuntimeError |
| ModStacks.ModStack.AddMod | src/modStack.py:107-118 | ValueError, FileNotFoundError or ValueError before anything changes; then the copy, whose error (SameFileError among them) leaves everything as it was; then `__update` |
| ModStacks.ModStack.UpdateMod | src/modStack.py:120-131 | exactly the behaviour of `addMod`, because the guard is the same |
| ModStacks.ModStack.Import | src/modStack.py:111-118 | the checks and the copy-then-update shared by the two methods |
| ModStacks.ModStack.CopyAndUpdate | src/modStack.py:117-118 | a copy error propagates with the disk and the stack unchanged; otherwise the disk is the one the copy gives and the stack is reconciled with its folder on that disk |
| ModStacks.ModStack.RemoveMod | src/modStack.py:133-138 | a failing removal changes nothing; otherwise the file `join(folder, modName)` goes and `__update` runs, which raises RuntimeError when the mod was tracked |
| ModStacks.ModStack.Enable | src/modStack.py:89-92 | `disable` runs first; entering the folder above this stack's folder (`runCommand`'s `os.chdir`) raises FileNotFoundError or NotADirectoryError exactly when that is not a folder, leaving the link as `disable` left it; otherwise the link is `Linked` of the old one: this stack's folder when `mklink` succeeds on a free path, nothing when it fails, and a dangling junction kept |
| ModStacks.ModStack.Disable | src/modStack.py:94-99 | after `disable` the link is `Unlinked` of the old one: gone when the folder it points at exists, kept when that folder is gone |
| ModStacks.Unlinked | src/modStack.py:94-97 | `os.path.exists` follows the junction: the link goes exactly when there was one and its folder exists, and otherwise stays as it was |
| ModStacks.Linked | src/modStack.py:89-92 | a link that survives `disable` stays; otherwise the new link is this folder when `mklink` succeeds and nothing when it fails |
| ModStacks.EnableEntersRoot | src/modStack.py:91 | for a stack the manager made under the stack folder, `enable` enters the stack folder itself, so it raises only when that folder is gone |
| ModStacks.StaleLinkStays | src/modStack.py:89-97 | a junction whose folder is gone survives `disable` and any series of `enable` calls, whichever stacks and whatever `mklink` would do |
| ModStacks.UnlinkedFixed | src/modStack.py:96-97 | with a check that finds the junction itself, `disable` always leaves no link |
| ModStacks.FixedEnableLinks | src/modStack.py:89-97 | with the corrected `disable`, a successful `mklink` always links the stack being enabled, and where the linked folder exists the corrected and the written versions agree |
| ModStacks.ModStack.GetName | src/modStack.py:104-105 | the name is the folder's base name and has no separator |
| ModStacks.ModStack.GetModByIndex | src/modStack.py:140-141 | the Mod at a position counted from either end, or IndexError outside `[-len, len)` |
| ModStacks.ModStack.Len | src/modStack.py:143-144 | the number of mods |
| ModStacks.FullPathNeverTracked | src/modStack.py:115 | a path with a separator is never a key, so the duplicate check lets it through |
| ModStacks.ReplacedArchiveNotReloaded | src/modStack.py:128-131 | copying over a tracked archive keeps the Mod loaded before |
| ModStacks.OwnArchiveRaises | src/modStack.py:115-117 | adding a stack's own archive by its full path raises SameFileError in the copy, or ValueError when that path is a key, and changes nothing |
| Managers.DirsFacts | src/manager.py:38-39 | the stacks made are for exactly the listed entries that are folders |
| Managers.DirsOnlyListed | src/manager.py:38-39 | no stack is made for a name that is not listed |
| Managers.FirstClash | src/manager.py:38-40 | the first listed folder that already has a registered stack |
| Managers.ServesElsewhere | src/manager.py:40 | registering another folder leaves a stack's registration in place |
| Managers.HoldsExtend | src/manager.py:40-41 | adding the stack of one more folder, under its name, keeps every stack serving its folder |
| Managers.AddStack | src/manager.py:40-41 | `ModStack(root\entry)` fails exactly when the folder is registered; otherwise the stack is registered and kept under its name |
| Managers.ExtendsAdd | src/manager.py:40-41 | registering the folder of one more stack keeps every earlier registration and ties the new one to the stack kept under the entry's name |
| Managers.ScannedSkip | src/manager.py:39 | an entry that is not a folder adds no stack |
| Managers.ScannedAdd | src/manager.py:39-41 | a folder entry adds its stack, last |
| Managers.LoadEntry | src/manager.py:39-41 | one step of `__load`: an entry that is not a folder is skipped; a folder gets its stack, or the loop stops with the duplicate-stack exception and the registry unchanged; the registry only gains the folders of held stacks |
| Managers.LoadSubFolder | src/manager.py:40-41 | a listed sub-folder gets its stack, registered and kept, or is the first clash, with the registry unchanged |
| Managers.SubFolderClash | src/manager.py:40 | a listed sub-folder that already has a registered stack is the first clash, and `__load` ends there |
| Managers.LoadAll | src/manager.py:36-42 | with no clash, a stack for every sub-folder in listing order; with one, the duplicate-stack exception after the stacks of the folders before it; either way the registry keeps every earlier registration and gains only the folders of the stacks held |
| Managers.Manager.LoadStacks | src/manager.py:36-42 | `__load` on the stack folder: a listing error is passed on with no stack held and the registry untouched; otherwise a stack for each sub-folder in listing order up to the first clash, and the registry only gains the folders of the stacks held |
| Managers.Manager.constructor | src/manager.py:19-23 | a new instance is not initialized and has no stacks |
| Managers.Manager.Init | src/manager.py:25-34 | the first call records the stack folder and loads its stacks, with a listing error returned as it is and the registry untouched; the registry only gains the held stacks' folders; later calls change nothing |
| Managers.Manager.GetStack | src/manager.py:45-49 | the stack of that name, or KeyError |
| Managers.Manager.GetStacksNames | src/manager.py:51-52 | the stack names in the order the stacks were loaded, each once |
| Pagination.Range | src/tk_modStack.py:85 | `range(lo, hi)` holds the integers from `lo` up to `hi`, in order |
| Pagination.Shown | src/tk_modStack.py:83-85 | the shown indices are the valid ones inside the window, consecutive, and no more than the window is wide |
| Pagination.Cells | src/tk_modStack.py:85-89 | one cell for each index of the range |
| Pagination.Layout | src/tk_modStack.py:83-89 | one cell for each shown index, in order, holding that index's Mod |
| Pagination.CellsDistinct | src/tk_modStack.py:89 | no two shown mods share a grid cell, and every cell is in one of the five columns |
| Pagination.ShownIncreasing | src/tk_modStack.py:85 | later widgets hold larger indices |
| Pagination.PlacementInjective | src/tk_modStack.py:89 | `(i // 5, i % 5)` tells indices apart |
| Pagination.PageWindow | src/tk_modStack.py:91-93 | page `p` shows the valid indices from `18p` up to but not including `18(p+1)`, at most 18 of them |
| Pagination.EveryModOnOnePage | src/tk_modStack.py:91-93 | each mod is shown on exactly one page, page `i // 18` |
| Pagination.ModStackWidget.constructor | src/tk_modStack.py:51-58 | a new widget shows the first page, laid out, at most 18 widgets |
| Pagination.ModStackWidget.ClearModWidgets | src/tk_modStack.py:78-80 | the grid is emptied |
| Pagination.ModStackWidget.CreateModWidgets | src/tk_modStack.py:82-89 | the layout of the current window is added after the widgets already in the grid; with a one-page window that is at most 18 widgets |
| Pagination.ModStackWidget.PlaceMod | src/tk_modStack.py:86-89 | the widget of the mod at `i` goes to row `i // 5`, column `i % 5` |
| Pagination.ModStackWidget.PlaceMods | src/tk_modStack.py:85-89 | the cells of the mods over `range(lo, hi)`, in index order |
| Pagination.ModStackWidget.SetPage | src/tk_modStack.py:91-95 | the window moves to the page, and the grid shows exactly that page, at most 18 widgets |
| TextWrap.LastSpaceBefore | src/tk_mod.py:24 | `rfind(" ", 0, n)` is the last space before `n`, or -1 |
| TextWrap.SplitIndex | src/tk_mod.py:24-26 | the cut is at the last space before the limit, or at the limit when there is no space |
| TextWrap.ResizeText | src/tk_mod.py:13-29 | the result is the loop's lines joined by newlines |
| TextWrap.LinesFit | src/tk_mod.py:19-28 | no line is longer than the limit |
| TextWrap.ShortTextUnchanged | src/tk_mod.py:20-22 | a text that fits is returned unchanged |
| TextWrap.LinesBudget | src/tk_mod.py:19-28 | the lines plus one character per cut fit in the text; there is a line exactly when the text is not empty |
| TextWrap.ResizedNoLonger | src/tk_mod.py:13-29 | the resized text is never longer than the original |
| TextWrap.HardCutDropsCharacter | src/tk_mod.py:25-28 | with lines of 2, `abcde` becomes `ab` and `de`, and a letter is lost |
| TextWrap.FixedLinesKeepText | src/tk_mod.py:25-28 | with the cut fixed, every character other than a space or newline survives, in order |
| TextWrap.FixedLinesFit | src/tk_mod.py:19-28 | with the cut fixed, no line is longer than the limit |
| TextWrap.StepAsWritten | src/tk_mod.py:19-28 | one turn of the loop for any integer width, with Python's slice bounds; the loop ends exactly when the text fits |
| TextWrap.StepMatchesLines | src/tk_mod.py:24-28 | for a width that is not negative, the turn cuts where `Lines` cuts |
| TextWrap.NegativeWidthNeverEnds | src/tk_mod.py:19-28 | with a negative width, a turn on a non-empty text never breaks and leaves a non-empty text, so the loop never ends |
| TextWrap.NegativeWidthExample | src/tk_mod.py:24-28 | `resizeText("ab", -1)` appends `"a"` and goes on with `"ab"` |
| Tasks.Task.constructor | src/thread.py:20-25 | a new task is pending and has no result |
| Tasks.Task.Run | src/thread.py:27-32 | only a pending task runs; it ends finished with its result stored, or stays running when its function raises; in any other state it raises "Task already running" and nothing changes |
| Tasks.Task.GetState | src/thread.py:37-38 | the current state |
| Tasks.Task.GetResult | src/thread.py:40-44 | the value the function returned, exactly when the task is finished; "Task not finished" otherwise |
| Tasks.Runner.constructor | src/thread.py:53-58 | a new runner has nothing queued and nothing done |
| Tasks.Runner.AddTask | src/thread.py:60-61 | the task joins the back of the queue |
| Tasks.Runner.RunSync | src/thread.py:75-77 | the runner is switched on and its queue drained: the queue empties into the done list front first; the first task that raises stops the run and is in neither list; its exception propagates, "Task already running" when it was not pending or ran earlier in this drain; every task moved to the done list is finished and holds its result; after a failure the tasks still queued are valid and, unless the same task ran earlier in this drain, unchanged, and the task that raised is left running when it was pending (otherwise as it was) with its result kept; it succeeds exactly when the queue is clean (no task in it twice, every one pending, every call returning), and on failure it stopped at the first task that breaks that |
| Tasks.Runner.Drain | src/thread.py:63-73 | while the runner is on, the queue is drained front first into the done list; the first task that raises stops the run with its own exception, or "Task already running" for a task not pending when reached, leaving a prefix of the queue done and the rest after the failed task queued, valid and untouched unless already run; every task that reaches the done list is finished with its result; the task that raised is left running when it was pending (otherwise as it was) with its result kept; it succeeds exactly on a clean queue (distinct, pending tasks whose calls return), and on failure stops at the first task that is a repeat, not pending or raising |
| Tasks.Runner.DrainFrom | src/thread.py:65-68 | the loop on a queue whose tasks had the recorded states and results when it began: drained as `Drain` states; on failure the task at the stop position raised its own exception or "Task already running", the task that raised is left running or as it was, with its recorded result, and every later task not run before it still has its recorded state and result; it succeeds exactly when the whole queue is clean, and the stop position is the first task that is not; the invariant keeps the prefix already run clean |
| Tasks.Runner.RunFront | src/thread.py:65-68 | one turn of the loop: the front task leaves the queue; a task that was not pending raises "Task already running"; a pending one returns and joins the end of the done list finished with its result, or raises its call's exception with the done list unchanged (which a clean queue rules out); a turn that passes extends the clean prefix by a task that was pending, returns and had not run before; a turn that fails is at a stop position; other tasks are untouched |
| Tasks.RaiseThenRerun | src/thread.py:63-77 | with a raising task before a returning one, `runSync` propagates that exception and keeps the second task pending, so a second `runSync` runs it and succeeds |
| Tasks.StopAtPastClean | src/thread.py:27-29 | past a prefix of tasks that are distinct, pending and returning, the drain stops where it would stop from the end of that prefix |
| Tasks.TwiceQueuedRaises | src/thread.py:27-29 | the same returning task queued twice: it runs and finishes once, and reaching it again raises "Task already running" |
| Tasks.RequeuedRaises | src/thread.py:27-29 | a task queued again after a `runSync` that finished it: the second `runSync` raises "Task already running" and the task keeps its result |
| Tasks.Runner.GetTasks | src/thread.py:91-92 | the finished tasks, in the order they finished |
| Configs.Config.constructor | src/config.py:22-27 | the store holds the dictionary read from the file |
| Configs.Config.Contains | src/config.py:76-77 | `key in config` exactly when the key is stored |
| Configs.Config.Keys | src/config.py:80-81 | the keys in the order they were first set |
| Configs.Config.Set | src/config.py:70-72 | the key maps to the value, every other key keeps its value, and a new key goes last |
| Configs.Config.Get | src/config.py:58-67 | a present key's value, whatever the default; for an absent key the default, stored only when `setDefault` holds |
| Configs.SetThenGet | src/config.py:63-72 | after `set(k, v)`, `get(k, d)` gives `v`, `k in config` holds, and other keys read as before |
| Configs.DefaultSticks | src/config.py:63-66 | `get(k, d, True)` on an absent key makes `k` present with `d`, so a later `get(k, e)` gives `d` |

## Left out

- Reading and writing files, opening and decompressing zip archives, and parsing XML. The model starts from the listing, the archive's entry names and the parsed descriptor. A path that is neither a readable archive nor a folder is a file without an archive.
- Logging through `gamuLogger`. This includes the `Logger.debug` call in `__createModWidgets` (src/tk_modStack.py:86). `Logger` is bound in that file only when it runs as a script, so imported, the call would raise `NameError`. The model treats the line as the log message it is meant to be.
- The Tk widgets. This covers building frames and labels, image thumbnails, the scroll frame, and the enable and disable buttons. A mod widget is reduced to the grid cell it is placed in.
- `Runner.runAsync`, `Runner.stop` and the worker threads. Their point is concurrency. The `chrono` decorator is left out too; it measures wall-clock time.
- Tasks.Runner.Drain: the `onTaskFinished` callback and the thread-id messages are not modelled, because they are foreign code and printing. Nothing clears `running` while the loop runs: `stop` and `runAsync` belong to the threaded path, which is not modelled, so the loop's `running` test always holds.
- Tasks.Task.Run: the wrapped function and its arguments are reduced to what calling them gives, fixed when the task is made. `__str__` is not modelled.
- The JSON5 persistence of the configuration and the `__new__` singleton of `Config`. `Config.set` also saves the file; the model keeps only the in-memory dictionary.
- Managers.Manager.Init: the stack folder is the `root` parameter. It is not read from the `stack_folder` key of the configuration.
- ModStacks.ModStack.Enable: `mklink` is reduced to whether it succeeded. The source only logs a failure. `GAME_MODS_FOLDER` is a field of the filesystem and is not read from the configuration. The `os.chdir` back to the former working directory is not modelled: the model has no working directory.
- Disk.Copy: a target that does not exist is FileNotFoundError with the disk unchanged. `shutil.copy` writes a new file at that path when its parent folder exists, so when a stack folder is deleted behind the program, `addMod`, `updateMod` and the import turn it into a file and `__update` then raises NotADirectoryError; the model raises FileNotFoundError and changes nothing. Modelling that needs the parent folder of an arbitrary path (`ntpath.dirname`) and a listing entry for a name that may not be plain.
- Mods.Mod.Load: the icon's bytes are not written out; only the cache path is computed. The archive handle is not closed when reading the descriptor or resolving the icon raises.
- ModStacks.ModStack.LoadMod: the listing it receives is a proof-only parameter. It names the listing whose admitted and broken sets the result is stated against.
- Strings.LowerChar: it lower-cases ASCII and Latin-1 capitals only. Full Unicode case mapping is not modelled.
- Paths.Basename: only the `/` and `\` separators and `X:` drives of Windows paths are modelled. UNC shares (`\\server\share`) are not.
- Paths.Join: UNC shares are not modelled, and joining is textual: a `..` component is kept as it is, as `ntpath.join` keeps it, and never resolved.
- Mods.IconCachePath: its promise that a relative entry lands below the temporary folder is textual. An entry such as `../x.dds` is relative and still escapes the folder once the system resolves `..`.
- ModStacks.ModStack.RemoveMod: a `modName` with a drive or a root removes that path, as in Python. A `modName` with `..` is a different text from the file it names, so the model raises FileNotFoundError where Python removes the file.
- Disk.Copy: other spellings of the same file (another letter case, `/` for `\`, `..`, links) are different paths here, so SameFileError is raised only when the target is the source's own text.
- Disk.Copy: a new name joins the end of the folder's listing. On NTFS `os.listdir` returns names sorted, so the order of a stack's keys after `addMod` follows the copies here and the sorted listing there.
- Disk.Copy: copying from or onto a folder raises IsADirectoryError here. On Windows, Python raises PermissionError for it; opening a folder as a zip archive and removing a folder likewise.
- ModStacks.ModStack.Disable: it never fails. In Python `os.unlink` raises when the game-mods path is a real folder rather than a junction; the model's single `link` field cannot be a real folder. A dangling junction is modelled (`Unlinked`).
- TextWrap.ResizeText: `maxLineLength` is a natural number, the widths the widget passes (20 and 40). With a negative length the source never terminates; `StepAsWritten` models that case, and "## Findings" records it.
- TextWrap.FixedLines: the corrected loop requires a positive line length. With length 0 its hard cut would never advance.
- The `__getattr__` delegation from Mod to its descriptor (src/mod.py:67-68). The model reaches the descriptor through the `desc` field.

## Findings

| source | as written | input that shows it | evidently intended | confidence | as-written member | corrected member |
|---|---|---|---|---|---|---|
| src/tk_mod.py:25-28 | when no space is found the cut is at `maxLineLength`, and the text continues at `splitIndex+1`, which skips the character at the cut | `resizeText("abcde", 2)` gives `"ab\nde"`: the `c` is lost | skip the separator only on a cut at a space, so that every non-space character is kept | not executed | TextWrap.HardCutDropsCharacter | TextWrap.FixedLinesKeepText |
| src/tk_mod.py:19-28 | a negative `maxLineLength` is read by `rfind` and by the slices from the end of the text, and `text[splitIndex+1:]` never becomes empty, so `while text` never ends | `resizeText("ab", -1)` appends `"a"` and goes on with `"ab"`, forever | a line length of at least 0, for which the loop ends | not executed | TextWrap.NegativeWidthNeverEnds | TextWrap.ResizeText |
| src/modStack.py:94-97 | `disable` tests `os.path.exists(GAME_MODS_FOLDER)`, which follows the junction, so a junction whose stack folder was deleted is never unlinked; the `mklink /J` of every later `enable` then fails on the taken path, which is only logged | link stack `C:\s`, delete the folder `C:\s`, then `enable` any other stack: the game-mods junction still points at `C:\s` | test the junction itself (`os.path.lexists` or `os.path.islink`), so that `disable` always removes it and `enable` links the new stack | not executed | ModStacks.StaleLinkStays | ModStacks.FixedEnableLinks |
