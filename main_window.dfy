/**
 * The handlers of the main window (`MainWindow`) that change the group list: importing
 * a group, dropping files onto the application list, restoring the latest backup and
 * creating a taskbar shortcut.
 */
module MainView {
  import opened Wrappers
  import Text
  import Lists
  import opened Groups
  import opened SearchResults
  import ViewModel
  import Configuration
  import Statistics

  /**
   * The index of the first group whose name equals `groupName` ignoring case
   * (`StringComparison.OrdinalIgnoreCase`), or -1 when there is none.
   */
  function FirstNamedIgnoreCase(groups: seq<TaskbarGroup>, groupName: string): (i: int)
    reads set g | g in groups
    ensures -1 <= i < |groups|
    ensures i >= 0 ==> Text.EqualsIgnoreCase(groups[i].name, groupName)
    ensures forall j | 0 <= j < |groups| && (i < 0 || j < i) :: !Text.EqualsIgnoreCase(groups[j].name, groupName)
  {
    if |groups| == 0 then -1
    else if Text.EqualsIgnoreCase(groups[0].name, groupName) then 0
    else
      var i := FirstNamedIgnoreCase(groups[1..], groupName);
      if i < 0 then -1 else i + 1
  }

  /**
   * The group found by name is found again by reference at the same index: no earlier
   * position holds that object, since an earlier one would have matched the name first.
   */
  lemma FirstNamedIsIndexOf(groups: seq<TaskbarGroup>, groupName: string)
    requires FirstNamedIgnoreCase(groups, groupName) >= 0
    ensures Lists.IndexOf(groups, groups[FirstNamedIgnoreCase(groups, groupName)]) == FirstNamedIgnoreCase(groups, groupName)
  {
    var i := FirstNamedIgnoreCase(groups, groupName);
    assert groups[i] !in groups[..i] by {
      forall j | 0 <= j < i ensures groups[j] != groups[i] {
        assert !Text.EqualsIgnoreCase(groups[j].name, groupName);
      }
    }
    Lists.IndexOfAt(groups, groups[i], i);
  }

  /** Taking position `i` out and inserting `x` there replaces the element at `i`. */
  lemma ReplaceAt<T>(s: seq<T>, i: nat, x: T)
    requires i < |s|
    ensures Lists.InsertAt(Lists.RemoveAt(s, i), i, x) == s[i := x]
  {
    var r := Lists.InsertAt(Lists.RemoveAt(s, i), i, x);
    assert |r| == |s|;
    forall j | 0 <= j < |s| ensures r[j] == s[i := x][j] {
    }
  }

  /** `AddApplicationToGroup` on the list: a non-empty path not yet present is appended. */
  function Added(applications: seq<string>, path: string): (r: seq<string>)
    ensures path != "" && path !in applications ==> r == applications + [path]
    ensures !(path != "" && path !in applications) ==> r == applications
  {
    if path != "" && path !in applications then applications + [path] else applications
  }

  /** The list after `AddApplicationToGroup` for each path in turn. */
  function AddedAll(applications: seq<string>, paths: seq<string>): (r: seq<string>)
    ensures |applications| <= |r| <= |applications| + |paths|
    ensures r[..|applications|] == applications
    decreases |paths|
  {
    if paths == [] then applications else AddedAll(Added(applications, paths[0]), paths[1..])
  }

  /**
   * Adding paths one by one keeps what was there, in place, and adds exactly the
   * non-empty paths not yet present, never one twice.
   */
  lemma {:induction false} AddedAllContents(applications: seq<string>, paths: seq<string>)
    ensures var r := AddedAll(applications, paths);
      |applications| <= |r| && r[..|applications|] == applications
      && (forall x :: x in r <==> x in applications || (x in paths && x != ""))
      && (Lists.NoDuplicates(applications) ==> Lists.NoDuplicates(r))
    decreases |paths|
  {
    if paths != [] {
      var next := Added(applications, paths[0]);
      AddedAllContents(next, paths[1..]);
      var r := AddedAll(applications, paths);
      assert r == AddedAll(next, paths[1..]);
      assert r[..|applications|] == next[..|next|][..|applications|];
      forall x ensures x in r <==> x in applications || (x in paths && x != "") {
        assert x in paths <==> x == paths[0] || x in paths[1..];
      }
      if Lists.NoDuplicates(applications) {
        assert Lists.NoDuplicates(next);
      }
    }
  }

  /** `path.EndsWith(".exe") || path.EndsWith(".lnk")`, compared ordinally and case-sensitively. */
  predicate IsProgramFile(path: string): (b: bool)
    ensures b ==> |path| >= 4 && path[|path| - 4] == '.'
  {
    Text.EndsWith(path, ".exe") || Text.EndsWith(path, ".lnk")
  }

  /** The dropped files that are added: those ending with ".exe" or ".lnk", in order. */
  function ProgramFiles(files: seq<string>): (r: seq<string>)
    ensures forall x | x in r :: x in files && IsProgramFile(x)
    ensures forall x | x in files && IsProgramFile(x) :: x in r
    decreases |files|
  {
    if files == [] then []
    else if IsProgramFile(files[0]) then [files[0]] + ProgramFiles(files[1..])
    else ProgramFiles(files[1..])
  }

  /** The paths a drop adds, in order: the program files dropped, then the dragged search result's path. */
  function DroppedPaths(files: Option<seq<string>>, result: Option<SearchResult>): (r: seq<string>)
    ensures forall x | x in r ::
      (files.Some? && x in files.value && IsProgramFile(x)) || (result.Some? && x == result.value.path)
    ensures files.Some? ==> forall x | x in files.value && IsProgramFile(x) :: x in r
    ensures result.Some? ==> r != [] && r[|r| - 1] == result.value.path
  {
    (if files.Some? then ProgramFiles(files.value) else [])
    + (if result.Some? then [result.value.path] else [])
  }

  /** A drop adds only dropped program files and the dragged result, and never a duplicate. */
  lemma DropAddsOnlyPrograms(applications: seq<string>, files: Option<seq<string>>, result: Option<SearchResult>)
    ensures var r := AddedAll(applications, DroppedPaths(files, result));
      |applications| <= |r| && r[..|applications|] == applications
      && (forall x | x in r && x !in applications ::
            (files.Some? && x in files.value && IsProgramFile(x)) || (result.Some? && x == result.value.path))
      && (Lists.NoDuplicates(applications) ==> Lists.NoDuplicates(r))
  {
    AddedAllContents(applications, DroppedPaths(files, result));
  }

  class MainWindow {
    var viewModel: ViewModel.MainViewModel
    var statistics: Statistics.StatisticsService

    constructor (vm: ViewModel.MainViewModel, stats: Statistics.StatisticsService)
      ensures viewModel == vm && statistics == stats
    {
      viewModel := vm;
      statistics := stats;
    }

    /**
     * `ImportButton_Click`: `imported` is the group read from the chosen file, `null`
     * when nothing was imported; `confirmed` is the answer to the replace question.
     * A group whose name matches one already there, ignoring case, replaces it at the
     * same index when confirmed and is selected; declined, the list is unchanged. A
     * group with a new name is appended and selected. Either way the groups are saved.
     */
    method ImportGroup(imported: TaskbarGroup?, confirmed: bool)
      modifies viewModel
      ensures imported == null ==>
        viewModel.groups == old(viewModel.groups) && viewModel.selected == old(viewModel.selected)
        && viewModel.saves == old(viewModel.saves)
      ensures imported != null ==> viewModel.saves == old(viewModel.saves) + 1
      ensures imported != null && old(FirstNamedIgnoreCase(viewModel.groups, imported.name)) >= 0 && confirmed ==>
        viewModel.groups == old(viewModel.groups)[old(FirstNamedIgnoreCase(viewModel.groups, imported.name)) := imported]
        && viewModel.selected == imported && viewModel.groupName == imported.name
      ensures imported != null && old(FirstNamedIgnoreCase(viewModel.groups, imported.name)) >= 0 && !confirmed ==>
        viewModel.groups == old(viewModel.groups) && viewModel.selected == old(viewModel.selected)
      ensures imported != null && old(FirstNamedIgnoreCase(viewModel.groups, imported.name)) < 0 ==>
        viewModel.groups == old(viewModel.groups) + [imported]
        && viewModel.selected == imported && viewModel.groupName == imported.name
      ensures imported == null || (old(FirstNamedIgnoreCase(viewModel.groups, imported.name)) >= 0 && !confirmed) ==>
        viewModel.groupName == old(viewModel.groupName)
      ensures viewModel.searchTerm == old(viewModel.searchTerm) && viewModel.searchResults == old(viewModel.searchResults)
      ensures viewModel.isSearchInProgress == old(viewModel.isSearchInProgress)
    {
      if imported == null {
        return;
      }
      var i := FirstNamedIgnoreCase(viewModel.groups, imported.name);
      if i >= 0 {
        if confirmed {
          var existing := viewModel.groups[i];
          var index := Lists.IndexOf(viewModel.groups, existing);
          FirstNamedIsIndexOf(viewModel.groups, imported.name);
          ReplaceGroup(index, imported);
        }
      } else {
        viewModel.groups := viewModel.groups + [imported];
        viewModel.SetSelectedGroup(imported);
      }
      viewModel.SaveGroups();
    }

    /** `Groups.RemoveAt(index)`, `Groups.Insert(index, g)`, then `SelectedGroup = g`. */
    method ReplaceGroup(index: nat, g: TaskbarGroup)
      requires index < |viewModel.groups|
      modifies viewModel
      ensures viewModel.groups == old(viewModel.groups)[index := g]
      ensures viewModel.selected == g && viewModel.groupName == g.name && viewModel.saves == old(viewModel.saves)
      ensures viewModel.searchTerm == old(viewModel.searchTerm) && viewModel.searchResults == old(viewModel.searchResults)
      ensures viewModel.isSearchInProgress == old(viewModel.isSearchInProgress)
    {
      ReplaceAt(viewModel.groups, index, g);
      viewModel.groups := Lists.InsertAt(Lists.RemoveAt(viewModel.groups, index), index, g);
      viewModel.SetSelectedGroup(g);
    }

    /**
     * `ApplicationsListBox_Drop`: without a selected group nothing is added. Otherwise
     * each dropped file ending with ".exe" or ".lnk" (`files`, `None` when no file list
     * was dropped) and then the dragged search result (`result`) go through
     * `AddApplicationToGroup`, which saves once per path it adds.
     */
    method Drop(files: Option<seq<string>>, result: Option<SearchResult>)
      modifies viewModel, viewModel.selected
      ensures viewModel == old(viewModel) && viewModel.selected == old(viewModel.selected)
      ensures viewModel.groups == old(viewModel.groups)
      ensures old(viewModel.selected) == null ==> viewModel.saves == old(viewModel.saves)
      ensures old(viewModel.selected) != null ==>
        viewModel.selected.applications
          == AddedAll(old(viewModel.selected.applications), DroppedPaths(files, result))
        && viewModel.saves - old(viewModel.saves)
          == |viewModel.selected.applications| - |old(viewModel.selected.applications)|
        && viewModel.selected.name == old(viewModel.selected.name) && viewModel.selected.id == old(viewModel.selected.id)
      ensures viewModel.groupName == old(viewModel.groupName)
      ensures viewModel.searchTerm == old(viewModel.searchTerm) && viewModel.searchResults == old(viewModel.searchResults)
      ensures viewModel.isSearchInProgress == old(viewModel.isSearchInProgress)
    {
      if viewModel.selected == null {
        return;
      }
      var g: TaskbarGroup := viewModel.selected;
      var paths := DroppedPaths(files, result);
      AddedAllContents(g.applications, paths);
      var i := 0;
      while i < |paths|
        invariant 0 <= i <= |paths|
        invariant viewModel.selected == g && viewModel.groups == old(viewModel.groups)
        invariant AddedAll(g.applications, paths[i..]) == AddedAll(old(g.applications), paths)
        invariant |old(g.applications)| <= |g.applications|
        invariant viewModel.saves - old(viewModel.saves) == |g.applications| - |old(g.applications)|
        invariant g.name == old(g.name) && g.id == old(g.id)
        invariant viewModel.groupName == old(viewModel.groupName) && viewModel.searchTerm == old(viewModel.searchTerm)
        invariant viewModel.searchResults == old(viewModel.searchResults)
        invariant viewModel.isSearchInProgress == old(viewModel.isSearchInProgress)
      {
        assert paths[i..][1..] == paths[i + 1..];
        viewModel.AddApplicationToGroup(paths[i]);
        i := i + 1;
      }
    }

    /**
     * `RestoreButton_Click`: `listing` lists the backup directory (`None` when it cannot
     * be listed) and `restore` reads a backup, `None` when that fails. The first of the
     * available backups, the latest, is read, and its groups replace the whole list, in
     * their order, and are saved. With no backup, or a failed read, nothing changes.
     * The selection is left as it was.
     */
    method Restore(listing: Option<seq<string>>, restore: string -> Option<seq<TaskbarGroup>>)
      returns (restoredFrom: Option<string>)
      modifies viewModel
      ensures var backups := Configuration.AvailableBackups(listing);
        if backups == [] then restoredFrom == None else restoredFrom == Some(backups[0])
      ensures restoredFrom.Some? && restore(restoredFrom.value).Some? ==>
        viewModel.groups == restore(restoredFrom.value).value && viewModel.saves == old(viewModel.saves) + 1
      ensures restoredFrom.None? || restore(restoredFrom.value).None? ==>
        viewModel.groups == old(viewModel.groups) && viewModel.saves == old(viewModel.saves)
      ensures viewModel == old(viewModel) && viewModel.selected == old(viewModel.selected)
      ensures viewModel.groupName == old(viewModel.groupName)
      ensures viewModel.searchTerm == old(viewModel.searchTerm) && viewModel.searchResults == old(viewModel.searchResults)
      ensures viewModel.isSearchInProgress == old(viewModel.isSearchInProgress)
    {
      var backups := Configuration.AvailableBackups(listing);
      if backups == [] {
        return None;
      }
      var latest := backups[0];
      restoredFrom := Some(latest);
      var restored := restore(latest);
      if restored.Some? {
        var groups := restored.value;
        viewModel.groups := [];
        var i := 0;
        while i < |groups|
          invariant 0 <= i <= |groups|
          invariant viewModel.groups == groups[..i]
          invariant viewModel.selected == old(viewModel.selected) && viewModel.saves == old(viewModel.saves)
          invariant viewModel.groupName == old(viewModel.groupName) && viewModel.searchTerm == old(viewModel.searchTerm)
          invariant viewModel.searchResults == old(viewModel.searchResults)
          invariant viewModel.isSearchInProgress == old(viewModel.isSearchInProgress)
        {
          viewModel.groups := viewModel.groups + [groups[i]];
          i := i + 1;
        }
        assert groups[..i] == groups;
        viewModel.SaveGroups();
      }
    }

    /**
     * `CreateShortcutButton_Click`: only for a selected group with at least one
     * application is the shortcut requested, for that group with the chosen icon's path
     * (`request`), and a launch of the group recorded at `now`; otherwise nothing
     * changes.
     */
    method CreateShortcut(iconPath: Option<string>, now: int) returns (request: Option<(TaskbarGroup, Option<string>)>)
      modifies statistics
      ensures request.Some? <==> viewModel.selected != null && viewModel.selected.applications != []
      ensures request.Some? ==>
        request.value == (viewModel.selected, iconPath)
        && (var i := Statistics.FindGroup(old(statistics.groupStats), viewModel.selected.name);
            if i < 0 then
              statistics.groupStats
                == old(statistics.groupStats) + [Statistics.GroupLaunched(Statistics.NewGroupUsage(viewModel.selected.name), now)]
            else
              statistics.groupStats == old(statistics.groupStats)[i := Statistics.GroupLaunched(old(statistics.groupStats)[i], now)])
      ensures request.None? ==> statistics.groupStats == old(statistics.groupStats)
      ensures statistics.applicationStats == old(statistics.applicationStats)
    {
      var g := viewModel.selected;
      if g != null && g.applications != [] {
        statistics.RecordGroupLaunch(g.name, now);
        request := Some((g, iconPath));
      } else {
        request := None;
      }
    }
  }
}
