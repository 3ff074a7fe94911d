# TaskbarGroupTool, modelled in Dafny

TaskbarGroupTool is a Windows desktop tool that gathers applications into named
groups. Each group gets a taskbar shortcut. The shortcut starts the tool again with
the group's name, and the tool then shows a small pop-up menu of that group's
applications.

This project models the logic under the WPF surface. It covers:

- the application finder: a bounded walk over directory trees, a permit gate and a result cache;
- editing the list of groups and the applications of a group;
- usage statistics;
- backup naming and retention;
- the bytes the tool writes as a shortcut file;
- performance metrics;
- the dark-mode setting;
- preset icons;
- the group pop-up menu and the taskbar rectangle it is placed by;
- start-up dispatch.

The file system, the clock, the registry and the settings files appear as values passed in:

- a directory tree datatype;
- lists of file names;
- integer times;
- `Option` values for "missing" or "threw".

Saving is counted, not performed.

Modules (one per source file, plus shared helpers):

- Shared helpers:
  - `Wrappers`: `Option`.
  - `Text`: ASCII case mapping, search, split/join and ordinal order.
  - `Paths`: file name and extension.
  - `Lists`: the list operations of `ObservableCollection`/`List`.
  - `Sorting`: the stable orderings used by LINQ.
- `SearchResults`, `ApplicationSearch`, `SearchCache`: the finder.
- `Groups`: `TaskbarGroup`.
- `ViewModel`: `MainViewModel`.
- `MainView`: `MainWindow`.
- `AddApplication`: `AddApplicationWindow`.
- `GroupMenu`: `GroupMenuWindow`.
- `Statistics`: `StatisticsService` and its records.
- `Configuration`: `ConfigurationService`.
- `Shortcut`: the byte layout of `CreateWindowsShortcut`.
- `Performance`: `PerformanceMonitor` and `PerformanceMetric`.
- `Theme`: `ThemeService`.
- `Icons`: `IconItem` and `IconManager`.
- `Startup`: `App.OnStartup`.

The shortcut writer does not produce a conforming Shell Link file (section 2.1 of
[MS-SHLLINK]):

- its header is 18 bytes of HeaderSize and CLSID, where the standard has 4 + 16;
- FileSize is missing, so the fixed part is 70 bytes long, not 76;
- the strings are raw NUL-terminated UTF-16LE, not StringData as in section 2.4, while LinkFlags is 0.

The model states exactly the bytes the code writes.

## Model

| member | source | states |
|---|---|---|
| SearchResults.ClassifyFile | Services/ApplicationSearchService.cs:227-235 | a file whose lower-cased extension is ".exe" is an Application, ".lnk" a Shortcut, anything else the caller's default kind |
| Paths.FileName | Services/ApplicationSearchService.cs:210 | `Path.GetFileName`: the end of the path after its last backslash or '/', containing no separator |
| Paths.Extension | Services/ApplicationSearchService.cs:227 | `Path.GetExtension`: empty, or a '.' followed by at least one character and no further '.' |
| Paths.NameWithoutExtension | Services/ApplicationSearchService.cs:226 | `Path.GetFileNameWithoutExtension`: a prefix of the file name |
| Paths.StemAndExtension | Services/ApplicationSearchService.cs:226-227 | the file name is the name without extension followed by the extension, or by a final '.' when the extension is empty |
| Sorting.SortDesc | Services/ConfigurationService.cs:120 | `OrderByDescending(f => f)`: the same names, greatest first |
| Sorting.SortByKeyDesc | Services/StatisticsService.cs:139 | `OrderByDescending(key)`: the same elements in non-increasing key order |
| Sorting.SortByKeyDescStable | Services/StatisticsService.cs:139 | the sort is stable: elements with equal keys keep their order |
| Sorting.TopByKey | Services/StatisticsService.cs:136-159 | `OrderByDescending(key).Take(n)`: min(n, length) elements of the list, in key order, no element left out having a greater key than one kept |
| Sorting.TopByKeyStable | Services/StatisticsService.cs:136-159 | among the elements kept, those of one key are the first ones of that key in the original order |
| Sorting.SortByName | Models/IconItem.cs:110 | `OrderBy(name)`: the same elements in ascending ordinal name order |
| ApplicationSearch.DirMatches | Services/ApplicationSearchService.cs:207-221 | the directory hits of one level are exactly the subdirectories whose name contains the term ignoring case, each a Folder named by its directory name |
| ApplicationSearch.FileMatches | Services/ApplicationSearchService.cs:223-240 | the file hits of one level are exactly the files whose name without extension contains the term ignoring case, each classified by its extension |
| ApplicationSearch.LevelMatches | Services/ApplicationSearchService.cs:207-240 | the hits of one level: at most one per subdirectory and file, each containing the term, and among them every matching subdirectory as a Folder and every matching file classified by its extension |
| ApplicationSearch.DescentWidth | Services/ApplicationSearchService.cs:250-252 | a level with 20 hits or more descends into no subdirectory, otherwise into the first five (all when fewer) |
| ApplicationSearch.Scan | Services/ApplicationSearchService.cs:190-283 | an unreadable directory yields no hits without failing the search; a completed search of a listed directory begins with that level's own hits, before any hit from below |
| ApplicationSearch.ScanAll | Services/ApplicationSearchService.cs:250-258 | searching no subdirectory completes with no hits; its hits and its cancellation are stated by ScanAllHits and ScanAllCanceled |
| ApplicationSearch.ScanHits | Services/ApplicationSearchService.cs:190-283 | every hit of a completed directory search names a directory or file below the searched directory, contains the term, is a Folder if a directory, and is classified by extension if a file |
| ApplicationSearch.ListedHits | Services/ApplicationSearchService.cs:197-258 | the same for a directory that was listed: the level's hits and the hits of the subdirectories searched lie below it |
| ApplicationSearch.ScanAllHits | Services/ApplicationSearchService.cs:252-258 | the hits of the subdirectory searches lie below those subdirectories |
| ApplicationSearch.ScanCanceled | Services/ApplicationSearchService.cs:260-280 | a search re-throws cancellation exactly when it was observed at this directory or inside a subdirectory it descended into; failed listings never propagate |
| ApplicationSearch.ScanAllCanceled | Services/ApplicationSearchService.cs:252-258 | the subdirectory searches, awaited together, are cancelled exactly when one of them is |
| ApplicationSearch.ScanRoot | Services/ApplicationSearchService.cs:113-133 | a search root that does not exist yields no hits; every hit of a completed root search is a valid hit below that root |
| ApplicationSearch.ScanGroup | Services/ApplicationSearchService.cs:101-123 | the roots of a group are awaited together: the group is cancelled exactly when the search of one of its roots is |
| ApplicationSearch.Contribution | Services/ApplicationSearchService.cs:54-96 | a group task that fails adds nothing to the collected bag; a completed one adds all its hits |
| ApplicationSearch.ScanEachFolder | Services/ApplicationSearchService.cs:135-165 | every known folder adds all the hits of its own search, whatever happens to the other folders |
| ApplicationSearch.Collected | Services/ApplicationSearchService.cs:54-96 | the hits of the Start Menu group, the desktop, each known folder and the Program Files group are all in the collected bag, each whatever happens to the others |
| ApplicationSearch.BoundedDescent | Services/ApplicationSearchService.cs:250-258 | subdirectories past the fifth, or of a level with 20 or more hits, do not influence the search: replacing their contents leaves the outcome equal |
| ApplicationSearch.FullLevelStops | Services/ApplicationSearchService.cs:250-258 | a level with 20 or more hits is the whole answer of that directory |
| ApplicationSearch.CollectedHits | Services/ApplicationSearchService.cs:54-96 | everything the four root groups collect is a valid hit of some root of the group that searched it, with that group's default kind (Start Menu and Desktop Shortcut, known folders Folder, Program Files Application) |
| ApplicationSearch.ScanGroupHits | Services/ApplicationSearchService.cs:101-123 | a group of roots searched together yields only hits of its own roots |
| ApplicationSearch.ScanEachFolderHits | Services/ApplicationSearchService.cs:135-165 | the known-folder searches, each of which fails alone, yield only hits of those folders as Folder default |
| ApplicationSearch.Cap | Services/ApplicationSearchService.cs:98 | the answer keeps at most 50 of the collected results and nothing else |
| ApplicationSearch.AnswerHits | Services/ApplicationSearchService.cs:90-98 | any answer holds at most 50 results, each containing the term and each a hit of a search root |
| ApplicationSearch.ApplicationSearchService.constructor | Services/ApplicationSearchService.cs:30-34 | the gate starts with 3 permits and an empty cache |
| ApplicationSearch.ApplicationSearchService.PerformSearch | Services/ApplicationSearchService.cs:42-99 | a blank term or a cancelled wait answers an empty list without taking a permit; an admitted search takes one permit, never returned, so at most three are ever admitted; with no permit left the call never completes |
| ApplicationSearch.ApplicationSearchService.SearchApplications | Services/ApplicationSearchService.cs:36-40 | a live cache entry answers without searching or taking a permit; otherwise the search runs and its answer is added to the cache only if the key is absent; a search that finds no permit never completes and leaves the cache unchanged |
| SearchCache.Lookup | Services/SearchCacheService.cs:25-36 | a blank term answers an empty list; otherwise the answer exists exactly when the lower-cased key has an unexpired entry, and is that entry's results |
| SearchCache.TryAdd | Services/SearchCacheService.cs:44-46 | an existing key keeps its entry; a new key is added; no other entry changes |
| SearchCache.Unexpired | Services/SearchCacheService.cs:65-81 | the sweep keeps exactly the unexpired entries, unchanged |
| SearchCache.IsExpired | Services/SearchCacheService.cs:88 | an entry is never expired at or before the time it was stored, and is expired only when strictly more than five minutes old |
| SearchCache.Key | Services/SearchCacheService.cs:30 | the key is the term lower-cased: as long as the term, blank exactly when the term is, and already lower-case, so it is its own key |
| SearchCache.LowerKeepsBlank | Services/SearchCacheService.cs:27-30 | lower-casing does not change whether a term is blank |
| SearchCache.CaseInsensitiveLookup | Services/SearchCacheService.cs:30 | terms with the same lower-cased form get the same answer |
| SearchCache.ExpiryBoundary | Services/SearchCacheService.cs:88 | an entry exactly five minutes old is still served; one tick later it is expired |
| SearchCache.StoredIsServed | Services/SearchCacheService.cs:39-48 | a fresh result stored under a new key is served for the next five minutes |
| SearchCache.ExpiredEntryKeepsMissing | Services/SearchCacheService.cs:33-46 | an expired entry is not served and is not replaced by the new result |
| SearchCache.SweepKeepsAnswers | Services/SearchCacheService.cs:65-81 | sweeping expired entries changes no later answer |
| SearchCache.Cache.constructor | Services/SearchCacheService.cs:14-23 | the cache starts empty |
| SearchCache.Cache.GetCachedSearch | Services/SearchCacheService.cs:25-49 | the search is used exactly on a miss; its result is returned and added only under an absent key; a hit returns the entry and changes nothing |
| SearchCache.Cache.InvalidateAll | Services/SearchCacheService.cs:51-54 | the cache is emptied |
| SearchCache.Cache.Invalidate | Services/SearchCacheService.cs:56-63 | only the lower-cased key is removed; a blank term changes nothing |
| SearchCache.Cache.CleanupExpiredEntries | Services/SearchCacheService.cs:65-81 | exactly the expired entries are removed, the others kept unchanged |
| Groups.TaskbarGroup.constructor | Models/TaskbarGroup.cs:17-21 | a new group has an empty name, no applications and the fresh id supplied |
| Groups.TaskbarGroup.Named | Models/TaskbarGroup.cs:23-26 | the named constructor sets the name and is otherwise the default one |
| Groups.TaskbarGroup.ToString | Models/TaskbarGroup.cs:28-31 | the text of a group is its name |
| ViewModel.Swap | ViewModels/MainViewModel.cs:240-276 | exchanging two positions is a permutation of the same length |
| ViewModel.MoveUp | ViewModels/MainViewModel.cs:240-257 | moving up rearranges the list without adding or losing an element; an absent item or one already first leaves the list as it is |
| ViewModel.MoveDown | ViewModels/MainViewModel.cs:259-276 | moving down rearranges the list without adding or losing an element; an absent item or one already last leaves the list as it is |
| ViewModel.MoveUpSwaps | ViewModels/MainViewModel.cs:240-257 | moving up exchanges the item's first occurrence with its predecessor, and does nothing at index 0 or when absent |
| ViewModel.MoveDownSwaps | ViewModels/MainViewModel.cs:259-276 | moving down exchanges the item's first occurrence with its successor, and does nothing at the last index or when absent |
| ViewModel.SwapTwice | ViewModels/MainViewModel.cs:240-276 | the same exchange twice restores the list |
| ViewModel.MoveDownUndoesMoveUp | ViewModels/MainViewModel.cs:240-276 | a successful move up followed by a move down of the same item restores the list, duplicates or not |
| ViewModel.MainViewModel.constructor | ViewModels/MainViewModel.cs:81-115 | the loaded groups, no selection, empty name, term and results, nothing saved |
| ViewModel.MainViewModel.SetSelectedGroup | ViewModels/MainViewModel.cs:42-55 | selecting a group copies its name into the edited name; selecting nothing keeps the name; nothing else changes |
| ViewModel.MainViewModel.SaveGroups | ViewModels/MainViewModel.cs:170-182 | saving is one more save and changes no state |
| ViewModel.MainViewModel.AddNewGroup | ViewModels/MainViewModel.cs:184-189 | a fresh empty group named "New Group" is appended and selected, and the edited name becomes "New Group"; the search term, results and progress flag are unchanged |
| ViewModel.MainViewModel.DeleteSelectedGroup | ViewModels/MainViewModel.cs:191-199 | the selected group is removed, the selection cleared and the list saved; with no selection nothing changes; the search term, results and progress flag are unchanged |
| ViewModel.MainViewModel.SaveSelectedGroup | ViewModels/MainViewModel.cs:201-217 | the selected group is renamed to the edited name and stays selected at its place, applications and id kept; the group list, edited name and search fields are unchanged |
| ViewModel.MainViewModel.AddApplicationToGroup | ViewModels/MainViewModel.cs:219-229 | a non-empty path not yet in the selected group is appended and saved; otherwise nothing changes; no duplicate is ever created; the group list, selection, edited name and search fields are unchanged |
| ViewModel.MainViewModel.RemoveApplicationFromGroup | ViewModels/MainViewModel.cs:231-238 | the first occurrence is removed when present; otherwise the list is unchanged; the group list, selection, edited name and search fields are unchanged |
| ViewModel.MainViewModel.MoveApplicationUp | ViewModels/MainViewModel.cs:240-257 | the selected group's list becomes the moved-up list, saved only when something moved; the group list, selection, edited name and search fields are unchanged |
| ViewModel.MainViewModel.MoveApplicationDown | ViewModels/MainViewModel.cs:259-276 | the selected group's list becomes the moved-down list, saved only when something moved; the group list, selection, edited name and search fields are unchanged |
| ViewModel.MainViewModel.OnSearchTimerElapsed | ViewModels/MainViewModel.cs:117-168 | a term shorter than three characters clears the results and ends the search; otherwise the search is in progress until the finder answers: an answer shows its first 20 results, a failure keeps the old results, both end the search, and a finder that never answers leaves it in progress with the old results; groups, selection, edited name, term and saves unchanged |
| MainView.FirstNamedIgnoreCase | MainWindow.xaml.cs:386-388 | the index of the first group whose name equals the imported name ignoring case, or -1 when none does |
| MainView.FirstNamedIsIndexOf | MainWindow.xaml.cs:392-393 | looking the found group up again by reference gives back the same index |
| MainView.ReplaceAt | MainWindow.xaml.cs:393-395 | removing at an index and inserting there replaces the element at that index |
| MainView.Added | MainWindow.xaml.cs:332-353 | one drop target: a non-empty path not yet present is appended, anything else leaves the list |
| MainView.AddedAll | MainWindow.xaml.cs:332-353 | adding several paths in turn keeps the old list as a prefix and adds at most one entry per path |
| MainView.AddedAllContents | MainWindow.xaml.cs:332-353 | adding several paths keeps the old list as a prefix, adds exactly the new non-empty paths and never creates a duplicate |
| MainView.ProgramFiles | MainWindow.xaml.cs:336-343 | the dropped files kept are exactly those ending in ".exe" or ".lnk", compared case-sensitively |
| MainView.IsProgramFile | MainWindow.xaml.cs:336-343 | a program file name ends in a four-character extension beginning with '.' |
| MainView.DroppedPaths | MainWindow.xaml.cs:330-365 | the paths a drop adds are exactly the dropped program files, in order, followed by the dragged search result's path when there is one |
| MainView.DropAddsOnlyPrograms | MainWindow.xaml.cs:330-365 | a drop only appends dropped program files or the dragged search result's path, never a duplicate |
| MainView.MainWindow.constructor | MainWindow.xaml.cs:26-33 | the window holds the view model and the statistics service |
| MainView.MainWindow.ImportGroup | MainWindow.xaml.cs:380-419 | a group matching an existing name ignoring case replaces it in place and is selected when confirmed, and the list is unchanged when declined; a new name is appended and selected; any import is saved once; a declined or missing import keeps the edited name; the search fields are unchanged |
| MainView.MainWindow.ReplaceGroup | MainWindow.xaml.cs:393-397 | the group at the index is replaced and selected, nothing saved yet; the search fields are unchanged |
| MainView.MainWindow.Drop | MainWindow.xaml.cs:330-365 | the selected group gains exactly the dropped paths that pass the filter and are new, one save per path added; with no selection nothing changes; the selection, its id, the edited name and the search fields are unchanged |
| MainView.MainWindow.Restore | MainWindow.xaml.cs:427-457 | the first entry of the descending backup list is restored: the whole group list becomes its groups in order and is saved; no backup or a failed restore changes nothing; the edited name and the search fields are unchanged |
| MainView.MainWindow.CreateShortcut | MainWindow.xaml.cs:184-203 | a shortcut is requested and a group launch recorded exactly when the selected group has at least one application |
| AddApplication.FileType | Windows/AddApplicationWindow.xaml.cs:62-71 | ".exe" is an Application, ".lnk" a Shortcut, both ignoring case; anything else, no extension included, is a Folder |
| AddApplication.FileTypeIsFinderKind | Windows/AddApplicationWindow.xaml.cs:62-71 | the dialog classifies a file as the finder does with Folder as the default kind |
| AddApplication.BrowsedResult | Windows/AddApplicationWindow.xaml.cs:47-56 | a chosen file gives a result with its full path, its kind, and a name that begins its file name (the part without extension) |
| AddApplication.BrowsedResults | Windows/AddApplicationWindow.xaml.cs:45-57 | one result per chosen file |
| AddApplication.ResultsFor | Windows/AddApplicationWindow.xaml.cs:45-57 | the loop builds exactly one result per chosen file, in order |
| AddApplication.AddApplicationWindow.constructor | Windows/AddApplicationWindow.xaml.cs:21-29 | the dialog edits the given group and starts with no results |
| AddApplication.AddApplicationWindow.Browse | Windows/AddApplicationWindow.xaml.cs:36-60 | the chosen files' results are appended after the existing ones, none removed; a cancelled dialog changes nothing |
| AddApplication.AddApplicationWindow.PerformSearch | Windows/AddApplicationWindow.xaml.cs:81-105 | a term of at most two characters clears the results; otherwise the first 20 found replace them, and a failed search keeps them |
| AddApplication.AddApplicationWindow.AddSelectedApplication | Windows/AddApplicationWindow.xaml.cs:117-140 | the selected path is appended only when not yet in the group; nothing selected or already present leaves the group; no duplicate is created |
| GroupMenu.FirstNamed | Windows/GroupMenuWindow.xaml.cs:54-57 | the first stored group whose name equals the argument exactly, or -1 |
| GroupMenu.LoadGroup | Windows/GroupMenuWindow.xaml.cs:48-70 | the first stored group with exactly this name; otherwise, or when loading threw, a new empty group with this name |
| GroupMenu.MenuItemFor | Windows/GroupMenuWindow.xaml.cs:113-158 | an item launches its application and is labelled with the start of its file name |
| GroupMenu.MenuItems | Windows/GroupMenuWindow.xaml.cs:72-111 | an empty group shows only the "No applications in this group" text; otherwise one item per application |
| GroupMenu.MenuFollowsGroup | Windows/GroupMenuWindow.xaml.cs:80-101 | the items follow the group's order, each labelled with the file name without extension; the placeholder appears exactly for an empty group |
| GroupMenu.GroupMenuWindow.constructor | Windows/GroupMenuWindow.xaml.cs:27-46 | the window loads the group, titles itself "Group: " and the name, and shows that group's menu |
| GroupMenu.GroupMenuWindow.LoadMenuItems | Windows/GroupMenuWindow.xaml.cs:72-111 | the panel receives exactly the menu items of the current group |
| GroupMenu.DockedEdge | Windows/GroupMenuWindow.xaml.cs:276-310 | left is considered first, then right, top and bottom, each only when the earlier ones are not docked |
| GroupMenu.TaskbarRect | Windows/GroupMenuWindow.xaml.cs:270-320 | the rectangle for each docked edge; with none, a 40-pixel strip at y = screen height minus 40 over the working area's width |
| GroupMenu.DockedTaskbarBesideWorkingArea | Windows/GroupMenuWindow.xaml.cs:270-310 | with the working area inside the screen, a docked taskbar lies within the screen, outside the working area and against the edge found |
| GroupMenu.AutoHiddenStrip | Windows/GroupMenuWindow.xaml.cs:311-318 | with no docked edge the working area is the whole screen, and the assumed strip ends at the screen's bottom only when the screen's top is 0 |
| Statistics.Trimmed | Services/StatisticsService.cs:100-103 | a history of at most 100 entries is kept; a longer one is cut to its last 100 |
| Statistics.Launched | Services/StatisticsService.cs:95-103 | a launch at `now` counts one more, makes `now` the last use and the newest history entry after the most recent earlier ones, at most 100 in all; path and name kept |
| Statistics.GroupLaunched | Services/StatisticsService.cs:123-131 | the same for a group record, its name kept |
| Statistics.TrimmedAppend | Services/StatisticsService.cs:95-103 | trimming after each launch keeps the most recent 100 launch times in order |
| Statistics.LaunchSeries | Services/StatisticsService.cs:79-106 | after launches at given times, a new record holds its path and name, counts the launches, has the last time as last use and the last 100 times as history |
| Statistics.FindApplication | Services/StatisticsService.cs:81 | the first record with this path, or -1 when none has it |
| Statistics.FindGroup | Services/StatisticsService.cs:110 | the first group record with this name, or -1 when none has it |
| Statistics.TotalLaunchesAppend | Services/StatisticsService.cs:161-164 | a new record adds its launch count to the total |
| Statistics.TotalLaunchesUpdate | Services/StatisticsService.cs:161-164 | replacing one record changes the total by the difference of their launch counts |
| Statistics.TotalLaunches | Services/StatisticsService.cs:161-164 | an empty list totals 0; when no count is negative the total is at least every record's count |
| Statistics.LaunchKeepsPathsUnique | Services/StatisticsService.cs:79-93 | a launch keeps the application paths unique, whether it updates a record or adds one |
| Statistics.LaunchCounted | Services/StatisticsService.cs:79-104 | a launch raises the total by exactly one, whether it updates a record or adds one |
| Statistics.WithHistory | Services/StatisticsService.cs:155 | exactly the records with a non-empty history, each as often as in the list |
| Statistics.RecentAmongUsed | Services/StatisticsService.cs:152-159 | the recently used ones all have a history, and no left-out record with a history was used later than one returned |
| Statistics.StatisticsService.constructor | Services/StatisticsService.cs:16-49 | a missing or unreadable file, or a missing list inside it, starts from an empty list |
| Statistics.StatisticsService.RecordApplicationLaunch | Services/StatisticsService.cs:79-106 | the record with this path is updated in place, or a new one appended; paths stay unique; the total grows by exactly one; group records unchanged |
| Statistics.StatisticsService.RecordGroupLaunch | Services/StatisticsService.cs:108-134 | the same, keyed by group name, leaving the application records unchanged |
| Statistics.StatisticsService.GetTopApplications | Services/StatisticsService.cs:136-142 | at most `count` records, from the list, in non-increasing launch count, none left out with a higher count |
| Statistics.StatisticsService.GetTopGroups | Services/StatisticsService.cs:144-150 | the same for groups |
| Statistics.StatisticsService.GetRecentlyUsedApplications | Services/StatisticsService.cs:152-159 | exactly `count` records with a history, or all of them when fewer (none for `count` <= 0), each taken from the list no more often than it occurs there, latest use first, none left out used later |
| Statistics.StatisticsService.ClearStatistics | Services/StatisticsService.cs:166-171 | both lists are emptied and saved |
| Statistics.StatisticsService.GetTotalLaunches | Services/StatisticsService.cs:161-164 | no records total 0; when no count is negative the total is at least every record's count |
| Configuration.Digits | Services/ConfigurationService.cs:106 | a zero-padded decimal field of fixed width |
| Configuration.DigitsOrder | Services/ConfigurationService.cs:106 | zero-padded fields of one width compare as their numbers do |
| Configuration.Stamp | Services/ConfigurationService.cs:106 | `yyyyMMdd_HHmmss` has 15 characters |
| Configuration.StampOrder | Services/ConfigurationService.cs:106 | timestamps compare as the moments they stand for, and equal stamps mean the same second |
| Configuration.BackupName | Services/ConfigurationService.cs:106 | a backup name has 26 characters |
| Configuration.BackupNameOrder | Services/ConfigurationService.cs:106 | a later second gives a greater backup name; the same second gives the same name |
| Configuration.BackupNameMatches | Services/ConfigurationService.cs:106-116 | every backup name matches `Backup_*.tbg` |
| Configuration.IsBackupFile | Services/ConfigurationService.cs:119 | a name matching `Backup_*.tbg` ignoring case is at least eleven characters long and ends in ".tbg" ignoring case |
| Configuration.ExportFileName | Services/ConfigurationService.cs:27 | the offered export name is the group name followed by 20 characters |
| Configuration.ExportNameOrder | Services/ConfigurationService.cs:27 | exports of one group are ordered by time in their names |
| Configuration.ExportPayload | Services/ConfigurationService.cs:32-37 | an export holds exactly the one group, version "1.0" |
| Configuration.Backups | Services/ConfigurationService.cs:119-120 | exactly the names matching `Backup_*.tbg` |
| Configuration.Without | Services/ConfigurationService.cs:123-126 | exactly the names not deleted, order kept |
| Configuration.Written | Services/ConfigurationService.cs:116 | writing an existing name overwrites it; a new name is added |
| Configuration.SortedBackups | Services/ConfigurationService.cs:119-120 | ordering the backups keeps their number and only backup names of the directory |
| Configuration.Surplus | Services/ConfigurationService.cs:119-126 | the backups deleted are backups of the directory, as many as there are beyond ten |
| Configuration.Kept | Services/ConfigurationService.cs:119-126 | the backups kept are backups of the directory, ten of them, or all when there are fewer |
| Configuration.AfterBackup | Services/ConfigurationService.cs:106-126 | after a backup the directory holds only names that were there or the new backup, and every name that is not a backup is still there |
| Configuration.RemoveFirstIsWithout | Services/ConfigurationService.cs:123-126 | deleting one file of a directory is removing its name |
| Configuration.RetentionKeepsOthers | Services/ConfigurationService.cs:119-126 | files not matching `Backup_*.tbg` are never deleted, and no file appears besides the new backup |
| Configuration.RetentionKeepsGreatest | Services/ConfigurationService.cs:119-126 | after a backup exactly the ten greatest backup names remain, or all when there are fewer |
| Configuration.RetentionOrder | Services/ConfigurationService.cs:119-126 | every remaining backup has a greater name than every deleted one |
| Configuration.AvailableBackups | Services/ConfigurationService.cs:138-157 | all matching names, greatest first; an empty list when the directory is missing or cannot be listed |
| Configuration.LatestBackupFirst | Services/ConfigurationService.cs:138-157 | among backups named by time, the first listed is the latest |
| Configuration.FirstBackupLatest | Services/ConfigurationService.cs:138-157 | no backup listed is later than the first one |
| Configuration.BackupDirectory.constructor | Services/ConfigurationService.cs:97-103 | the directory holds the given distinct names |
| Configuration.BackupDirectory.CreateBackup | Services/ConfigurationService.cs:95-136 | the directory becomes the one with the backup written and the surplus deleted |
| Configuration.BackupDirectory.DeleteOldBackups | Services/ConfigurationService.cs:119-126 | the deletion loop removes exactly the names past the tenth greatest |
| Shortcut.LittleEndian | Services/TaskbarIntegrationService.cs:68-94 | an integer field written by `BinaryWriter` takes its width in bytes |
| Shortcut.CodeUnitOfLittleEndian | Services/TaskbarIntegrationService.cs:98 | a UTF-16 code unit is recovered from its two little-endian bytes |
| Shortcut.Utf16Le | Services/TaskbarIntegrationService.cs:98 | UTF-16LE takes two bytes per code unit |
| Shortcut.Utf16LeConcat | Services/TaskbarIntegrationService.cs:98 | encoding distributes over concatenation |
| Shortcut.CodeUnitsUtf16Le | Services/TaskbarIntegrationService.cs:98 | decoding UTF-16LE gives back the code units |
| Shortcut.Replaced | Services/TaskbarIntegrationService.cs:98 | `Encoding.Unicode` replaces each unpaired surrogate with U+FFFD and keeps everything else |
| Shortcut.ReplacedWellFormed | Services/TaskbarIntegrationService.cs:98 | a well-formed string is encoded unchanged |
| Shortcut.ReplacedIsWellFormed | Services/TaskbarIntegrationService.cs:98 | what is encoded is always well-formed |
| Shortcut.WellFormedConcat | Services/TaskbarIntegrationService.cs:97-119 | well-formed strings joined stay well-formed |
| Shortcut.GetBytes | Services/TaskbarIntegrationService.cs:98 | `Encoding.Unicode.GetBytes` gives two bytes per code unit |
| Shortcut.Terminated | Services/TaskbarIntegrationService.cs:98-99 | a string and its NUL take two bytes per code unit |
| Shortcut.AsciiWellFormed | Services/TaskbarIntegrationService.cs:102-112 | text of ASCII characters only is well-formed |
| Shortcut.CaptionsAscii | Services/TaskbarIntegrationService.cs:102-112 | the fixed parts of the arguments and description are non-NUL ASCII |
| Shortcut.Arguments | Services/TaskbarIntegrationService.cs:102 | `--group-id "` + id + `"` is 13 code units longer than the id |
| Shortcut.Description | Services/TaskbarIntegrationService.cs:112 | "Taskbar Group: " + name is 15 code units longer than the name |
| Shortcut.FieldBytes | Services/TaskbarIntegrationService.cs:68-94 | the fields written take the sum of their widths |
| Shortcut.ZeroFields | Services/TaskbarIntegrationService.cs:68-94 | zero-valued fields write zero bytes only |
| Shortcut.OneField | Services/TaskbarIntegrationService.cs:68-94 | with one field of value 1 and the others 0, the only non-zero byte is the first byte of that field |
| Shortcut.LinkFieldsBytes | Services/TaskbarIntegrationService.cs:67-94 | the fields after the header are 52 bytes, all zero except a 1 at their offset 36 (ShowCommand) |
| Shortcut.LinkFieldWidths | Services/TaskbarIntegrationService.cs:67-94 | the fields before ShowCommand take 36 bytes and all of them 52 |
| Shortcut.LinkFieldValues | Services/TaskbarIntegrationService.cs:67-94 | the only non-zero field is the 4-byte ShowCommand |
| Shortcut.ShortcutBytes | Services/TaskbarIntegrationService.cs:45-120 | the file is at least the 70-byte fixed part |
| Shortcut.ShortcutPrefix | Services/TaskbarIntegrationService.cs:48-94 | the first 18 bytes are 4C 00 00 01 14 02 00 00 00 00 00 C0 00 00 00 00 00 46, and bytes 18 to 69 are zero except byte 54, which is 1 |
| Shortcut.ShortcutLength | Services/TaskbarIntegrationService.cs:45-119 | the length is 70 plus two bytes for each code unit of the five strings and their five NULs |
| Shortcut.SplitJoined | Services/TaskbarIntegrationService.cs:97-119 | NUL-terminated strings without NUL are split back into the same strings |
| Shortcut.EncodedAllWellFormed | Services/TaskbarIntegrationService.cs:97-119 | encoding well-formed strings one by one is encoding their NUL-joined text |
| Shortcut.EncodedAllOne | Services/TaskbarIntegrationService.cs:98-99 | one string is encoded as itself and its NUL |
| Shortcut.EncodedAllConcat | Services/TaskbarIntegrationService.cs:97-119 | the encoding of a list of strings is the encodings of its parts in order |
| Shortcut.EncodedFive | Services/TaskbarIntegrationService.cs:97-119 | the five strings are written in order, each followed by its NUL |
| Shortcut.ArgumentsWellFormed | Services/TaskbarIntegrationService.cs:102 | an id without NUL or unpaired surrogate gives such arguments |
| Shortcut.DescriptionWellFormed | Services/TaskbarIntegrationService.cs:112 | a name without NUL or unpaired surrogate gives such a description |
| Shortcut.StringsWellFormed | Services/TaskbarIntegrationService.cs:97-119 | all five strings are then free of NUL and unpaired surrogates |
| Shortcut.ShortcutStrings | Services/TaskbarIntegrationService.cs:97-119 | round trip: splitting the bytes after offset 70 at NUL code units gives back target, arguments, working directory, description and icon location |
| Shortcut.BinaryWriter.constructor | Services/TaskbarIntegrationService.cs:45 | a new stream is empty |
| Shortcut.BinaryWriter.WriteByte | Services/TaskbarIntegrationService.cs:48-65 | writing a byte appends it |
| Shortcut.BinaryWriter.WriteInteger | Services/TaskbarIntegrationService.cs:68-94 | writing an integer appends its little-endian bytes |
| Shortcut.BinaryWriter.WriteBytes | Services/TaskbarIntegrationService.cs:99-119 | writing a byte array appends it |
| Shortcut.WriteEach | Services/TaskbarIntegrationService.cs:48-65 | writing bytes one by one appends them |
| Shortcut.WriteFields | Services/TaskbarIntegrationService.cs:67-94 | writing the fields in turn appends their bytes |
| Shortcut.WriteStrings | Services/TaskbarIntegrationService.cs:96-119 | writing the five strings appends their encodings |
| Shortcut.CreateWindowsShortcut | Services/TaskbarIntegrationService.cs:39-120 | the writes produce exactly the file that the byte layout function describes |
| Performance.ConsistentPreserved | Services/PerformanceMonitor.cs:101-130 | a metric's call count equals the number of recorded times, before and after start, stop and memory records; a stop adds one call |
| Performance.Started | Services/PerformanceMonitor.cs:109-112 | the stopwatch runs and reads zero at the start; times, readings and call count unchanged |
| Performance.Stopped | Services/PerformanceMonitor.cs:114-122 | the stopwatch stops at its reading, which becomes the newest time, and the call count grows by one; readings unchanged; count and times stay in step |
| Performance.Recorded | Services/PerformanceMonitor.cs:124-130 | the reading becomes the newest memory reading; times, call count and stopwatch unchanged |
| Performance.StartStopMeasures | Services/PerformanceMonitor.cs:109-122 | a start at t0 and stop at t1 record t1 - t0 and one call, memory unchanged |
| Performance.StopTwiceRepeats | Services/PerformanceMonitor.cs:114-122 | a second stop without a start records the same elapsed time again |
| Performance.RecordedKeepsTimes | Services/PerformanceMonitor.cs:124-130 | recording memory leaves call count and times alone and keeps earlier readings |
| Performance.SumAppend | Services/PerformanceMonitor.cs:141 | the total grows by the new time |
| Performance.SumBounds | Services/PerformanceMonitor.cs:141 | non-negative times give a total at least each of them |
| Performance.MinOrZero | Services/PerformanceMonitor.cs:142 | the least time, or 0 when none |
| Performance.MaxOrZero | Services/PerformanceMonitor.cs:143 | the greatest time, or 0 when none |
| Performance.MinMaxAppend | Services/PerformanceMonitor.cs:142-146 | how one more value moves the least and the greatest |
| Performance.Summarize | Services/PerformanceMonitor.cs:132-151 | the summary: the call count, minimum ≤ every time ≤ maximum, both 0 when there are none; current memory the last reading and peak the greatest, current ≤ peak |
| Performance.SummaryAfterStop | Services/PerformanceMonitor.cs:114-151 | a stop adds the elapsed time to the total and one call, and the extremes widen to include it |
| Performance.PerformanceMetric.constructor | Services/PerformanceMonitor.cs:101-107 | a metric starts empty |
| Performance.PerformanceMetric.Start | Services/PerformanceMonitor.cs:109-112 | the start time is taken |
| Performance.PerformanceMetric.Stop | Services/PerformanceMonitor.cs:114-122 | the elapsed time is recorded and the call counted |
| Performance.PerformanceMetric.RecordMemory | Services/PerformanceMonitor.cs:124-130 | the reading is appended |
| Performance.PerformanceMetric.GetSummary | Services/PerformanceMonitor.cs:132-151 | the summary of the current state |
| Performance.TimeFigures | Services/PerformanceMonitor.cs:141-144 | one pass gives the total, least and greatest time |
| Performance.MemoryFigures | Services/PerformanceMonitor.cs:145-146 | one pass gives the last and the greatest reading |
| Performance.PerformanceMonitor.constructor | Services/PerformanceMonitor.cs:17-20 | no metrics |
| Performance.PerformanceMonitor.StartTimer | Services/PerformanceMonitor.cs:22-26 | the named metric, created when unseen, is started; the others are unchanged |
| Performance.PerformanceMonitor.StopTimer | Services/PerformanceMonitor.cs:28-34 | the named metric is stopped; an unknown name changes nothing |
| Performance.PerformanceMonitor.RecordMemoryUsage | Services/PerformanceMonitor.cs:62-66 | the reading goes to the named metric, created when unseen |
| Performance.PerformanceMonitor.Measure | Services/PerformanceMonitor.cs:36-60 | the timer is started and stopped whether the operation returns or throws, and its outcome passes through unchanged |
| Performance.PerformanceMonitor.ResetMetrics | Services/PerformanceMonitor.cs:77-80 | no metrics remain |
| Performance.PerformanceMonitor.GetReport | Services/PerformanceMonitor.cs:68-75 | one summary per metric name, each the summary of that metric |
| Theme.ShouldUseDarkMode | Services/ThemeService.cs:87-108 | dark exactly when AppsUseLightTheme exists and is the integer 0 |
| Theme.PreferredDarkMode | Services/ThemeService.cs:61-85 | a settings file decides (null settings mean light); without one the system decides; a failure means light |
| Theme.Assigned | Services/ThemeService.cs:13-25 | the flag becomes the value; notifications and saves only grow, together and by at most one, and a save is of the new value |
| Theme.Toggled | Services/ThemeService.cs:34-37 | a toggle negates the flag with exactly one IsDarkMode notification and one save of the new value |
| Theme.AssignSameIsSilent | Services/ThemeService.cs:18 | assigning the current value notifies nothing and saves nothing |
| Theme.AssignDifferentNotifiesOnce | Services/ThemeService.cs:18-23 | assigning a new value changes it, raises one IsDarkMode notification and saves once |
| Theme.AssignIdempotent | Services/ThemeService.cs:16-24 | assigning the same value twice is assigning it once |
| Theme.ToggleTwiceRestores | Services/ThemeService.cs:34-37 | a toggle negates the setting and two toggles restore it, with two notifications and two saves |
| Theme.ThemeService.constructor | Services/ThemeService.cs:12 | light, nothing notified or saved |
| Theme.ThemeService.SetIsDarkMode | Services/ThemeService.cs:13-25 | the setter's state change |
| Theme.ThemeService.ToggleTheme | Services/ThemeService.cs:34-37 | toggling goes through the setter |
| Theme.ThemeService.LoadThemePreference | Services/ThemeService.cs:61-85 | the preferred value goes through the setter |
| Icons.Spaced | Models/IconItem.cs:116 | '_' and '-' become spaces, length kept |
| Icons.SpacedCount | Models/IconItem.cs:116 | the spaces afterwards are the '_', '-' and ' ' before |
| Icons.Words | Models/IconItem.cs:116-119 | one word per '_', '-' and ' ' of the file name plus one, none containing a space |
| Icons.Capitalized | Models/IconItem.cs:120 | a capitalised word keeps its length, does not start with a lower-case letter and has no upper-case letter after the first |
| Icons.CapitalizedAll | Models/IconItem.cs:119-120 | one capitalised word per word |
| Icons.DisplayName | Models/IconItem.cs:115-120 | no display name exactly when a word is empty, where `word[0]` throws |
| Icons.CapitalizedKeepsAbsent | Models/IconItem.cs:120 | capitalising adds no character that is not a letter |
| Icons.DisplayNameWords | Models/IconItem.cs:115-120 | the display name has no '_' or '-', its words are the capitalised words, one more than the separators of the file name |
| Icons.DisplayNameFailsAtEdges | Models/IconItem.cs:119-132 | an empty name, or one starting or ending with a separator, has no display name |
| Icons.ShownName | Models/IconItem.cs:115-120 | an icon file has no display name exactly when a word of its name is empty; a display name has no '_' or '-' |
| Icons.Stem | Models/IconItem.cs:110 | the ordering key is no longer than the path and holds no directory separator |
| Icons.IconItem.constructor | Models/IconItem.cs:57-62 | name and path set, no image, not disposed |
| Icons.IconItem.Icon | Models/IconItem.cs:24-34 | nothing once disposed, otherwise the image |
| Icons.IconItem.IconLoaded | Models/IconItem.cs:64-78 | a non-null loaded image is set; null or failure keeps the item |
| Icons.IconItem.Dispose | Models/IconItem.cs:80-94 | afterwards the icon is null; a second dispose changes nothing |
| Icons.Presets | Models/IconItem.cs:113-123 | the files in order, each with its display name, up to the first without one |
| Icons.PresetIcons | Models/IconItem.cs:99-133 | a missing directory gives no icons; otherwise at most one per file |
| Icons.PresetIconsOrdered | Models/IconItem.cs:107-123 | the icons come in order of file name without extension, each from the directory and named by its display name |
| Icons.PresetsStep | Models/IconItem.cs:113-132 | a file is added exactly when it and all files before it have a display name |
| Icons.LoadPresetIcons | Models/IconItem.cs:99-133 | one new item per preset icon, in order, with its name and path |
| Icons.AddIcons | Models/IconItem.cs:113-132 | the loop adds the icons up to the first failing name, the ones before it kept |
| Startup.ModeOf | App.xaml.cs:23-31 | menu mode, naming the group verbatim, exactly when there is a non-empty second argument |
| Startup.AppUserModelId | App.xaml.cs:22-47 | "TaskbarGroupTool.menu." + group name in menu mode, "TaskbarGroupTool.main" otherwise |
| Startup.OnlySecondArgumentCounts | App.xaml.cs:23 | arguments after the second change nothing |
| Startup.AppUserModelIdsDistinct | App.xaml.cs:23-47 | two modes share an AppUserModelID only when they are the same mode |
| Startup.OnStartup | App.xaml.cs:15-61 | the mode the command line chooses, with "TaskbarGroupTool.main" or "TaskbarGroupTool.menu." and the group name as identity; exactly one of the window and an error is shown, an error exactly when the window fails, and start-up shuts down exactly when the failing window is a group menu |

## Left out

- Concurrency and time limits are not modelled: `Task.Run`, `Task.WhenAll`, the `ConcurrentBag`, locks, the 30-second limit on awaiting the four group tasks (the wait at the gate has no time limit) and cancellation tokens. A search is a sequential function over a tree. Only facts that do not depend on the bag's order are stated.
- A search waiting at the gate is either cancelled (an empty answer) or never completes.
- ApplicationSearch.ApplicationSearchService.PerformSearch: the answer is stated as if all four group tasks finish. When the 30-second limit passes, or a group fails or is cancelled, while other groups still run, the finder answers with what the bag holds at that moment; the model does not state that smaller answer.
- Timers are not modelled: the cache sweep timer and the view model's debounce timer and dispatcher. The sweep is an explicit method that takes the time.
- The real file system, clock and registry are not modelled. They are inputs: directory trees, lists of names, integer times and optional values. `Directory.GetFiles` returns full paths, and the model orders backups by name; within one directory the two orders agree.
- P/Invoke calls, PowerShell, pinning, `SetCurrentProcessExplicitAppUserModelID` and `SHGetKnownFolderPath` are not modelled. Start-up only computes the identity it would set.
- JSON reading and writing are not modelled. A save is a counter; a load is an optional value.
- `TaskbarManager`, `ConfigurationWatcher`, `IconCacheService`, `AppRegistrationService`, `StatisticsViewModel` and `StatisticsWindow` are not part of this model.
- WPF presentation is not modelled: message boxes, dialogs, brushes, drag-and-drop plumbing and bitmap freezing.
- Floating point is not modelled: `PositionWindow`, window sizes, `AverageTime` and its text formatting. `LogPerformanceSummary` is not modelled either.
- Culture-dependent string operations use ASCII case mapping and ordinal order. This covers `ToLower`, `ToUpper`, `OrdinalIgnoreCase` and the default string order of `OrderBy`/`OrderByDescending`.
- Null strings and null lists are not modelled except where the source tests for them. Missing results are `Option`.
- Integer overflow is not modelled: the `int` and `long` counters, `Rectangle` arithmetic and negative field values of the shortcut writer are unbounded integers.
- `Distinct()` in the finder compares by reference, so it removes nothing; the model keeps every result. No claim is made that paths are unique.
- AddApplication.AddApplicationWindow.PerformSearch: the search it calls does not exist on the finder, so what it returns is an abstract input; only the gate and the cap are modelled.
- MainView.MainWindow.CreateShortcut: the call to `TaskbarManager.CreateTaskbarShortcut` is returned as a request; the message boxes are not modelled.
- Icons.IconItem.IconLoaded: the race between `LoadIconAsync` and `Dispose` is not modelled; the load's end is a separate step.
- Icons.AddIcons: the display-name function is a parameter, so the loop does not depend on how names are computed.
- AddApplication.AddApplicationWindow.Browse: the results are built in a local list and appended at once. The collection is not shown between single additions.
- Statistics records are values. A record returned by a query is a copy, not a shared object.
- Performance.PerformanceMonitor.Measure: the operation's outcome is an input, since the operation itself is not modelled.
