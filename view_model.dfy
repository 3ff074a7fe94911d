/**
 * The main view model (`MainViewModel`): the list of groups, the selected group, the
 * name being edited, and the search results shown. Saving the groups is an opaque
 * event, counted in `saves`.
 */
module ViewModel {
  import opened Wrappers
  import Lists
  import opened Groups
  import opened SearchResults

  /** A debounced search runs only for terms of at least this many characters. */
  const MinSearchLength := 3
  /** At most this many search results are shown. */
  const ShownResults := 20
  /** The name given to a new group. */
  const NewGroupName := "New Group"

  /**
   * How the await of a search ends: with the list the finder answered, with an
   * exception, or never.
   */
  datatype SearchOutcome = Answered(results: seq<SearchResult>) | Failed | Pending

  /** `MoveApplicationUp` on the list: swaps the first occurrence of `x` with its predecessor. */
  function MoveUp(s: seq<string>, x: string): (r: seq<string>)
    ensures |r| == |s| && multiset(r) == multiset(s)
    ensures x !in s || s[0] == x ==> r == s
  {
    var i := Lists.IndexOf(s, x);
    if i > 0 then
      ReinsertBefore(s, i - 1);
      Lists.InsertAt(Lists.RemoveAt(s, i), i - 1, x)
    else s
  }

  /** `MoveApplicationDown` on the list: swaps the first occurrence of `x` with its successor. */
  function MoveDown(s: seq<string>, x: string): (r: seq<string>)
    ensures |r| == |s| && multiset(r) == multiset(s)
    ensures x !in s || Lists.IndexOf(s, x) == |s| - 1 ==> r == s
  {
    var i := Lists.IndexOf(s, x);
    if 0 <= i < |s| - 1 then
      ReinsertAfter(s, i);
      Lists.InsertAt(Lists.RemoveAt(s, i), i + 1, x)
    else s
  }

  /** `s` with positions `i` and `j` exchanged. */
  function Swap(s: seq<string>, i: nat, j: nat): (r: seq<string>)
    requires i < |s| && j < |s|
    ensures |r| == |s| && multiset(r) == multiset(s)
  {
    s[i := s[j]][j := s[i]]
  }

  /** Taking out the element at `i + 1` and inserting it at `i` exchanges the two. */
  lemma ReinsertBefore(s: seq<string>, i: nat)
    requires i + 1 < |s|
    ensures Lists.InsertAt(Lists.RemoveAt(s, i + 1), i, s[i + 1]) == Swap(s, i, i + 1)
  {
    var r := Lists.InsertAt(Lists.RemoveAt(s, i + 1), i, s[i + 1]);
    var t := Swap(s, i, i + 1);
    forall j | 0 <= j < |s| ensures r[j] == t[j] {
      if j == i + 1 {
        assert r[j] == Lists.RemoveAt(s, i + 1)[i];
      }
    }
  }

  /** Taking out the element at `i` and inserting it at `i + 1` exchanges the two. */
  lemma ReinsertAfter(s: seq<string>, i: nat)
    requires i + 1 < |s|
    ensures Lists.InsertAt(Lists.RemoveAt(s, i), i + 1, s[i]) == Swap(s, i, i + 1)
  {
    var r := Lists.InsertAt(Lists.RemoveAt(s, i), i + 1, s[i]);
    var t := Swap(s, i, i + 1);
    forall j | 0 <= j < |s| ensures r[j] == t[j] {
      if j == i {
        assert r[j] == Lists.RemoveAt(s, i)[i];
      }
    }
  }

  /**
   * Moving up exchanges the item with its predecessor, and does nothing when the item is
   * first or absent: a permutation in which every other position keeps its element.
   */
  lemma MoveUpSwaps(s: seq<string>, x: string)
    ensures var i := Lists.IndexOf(s, x);
      MoveUp(s, x) == if i > 0 then Swap(s, i - 1, i) else s
  {
    var i := Lists.IndexOf(s, x);
    if i > 0 {
      ReinsertBefore(s, i - 1);
    }
  }

  /** Moving down exchanges the item with its successor, and does nothing when the item is last or absent. */
  lemma MoveDownSwaps(s: seq<string>, x: string)
    ensures var i := Lists.IndexOf(s, x);
      MoveDown(s, x) == if 0 <= i < |s| - 1 then Swap(s, i, i + 1) else s
  {
    var i := Lists.IndexOf(s, x);
    if 0 <= i < |s| - 1 {
      ReinsertAfter(s, i);
    }
  }

  /**
   * Moving an item down right after moving it up restores the list. This holds on any
   * list, not only on one without duplicates: the moved occurrence stays the first one.
   */
  lemma SwapTwice(s: seq<string>, i: nat, j: nat)
    requires i < |s| && j < |s|
    ensures Swap(Swap(s, i, j), i, j) == s
  {
  }

  lemma MoveDownUndoesMoveUp(s: seq<string>, x: string)
    requires Lists.IndexOf(s, x) > 0
    ensures MoveDown(MoveUp(s, x), x) == s
  {
    var i := Lists.IndexOf(s, x);
    MoveUpSwaps(s, x);
    var u := Swap(s, i - 1, i);
    assert MoveUp(s, x) == u;
    assert u[i - 1] == x;
    assert x !in u[..i - 1] by {
      assert u[..i - 1] == s[..i - 1];
      assert s[..i - 1] == s[..i][..i - 1];
    }
    Lists.IndexOfAt(u, x, i - 1);
    MoveDownSwaps(u, x);
    assert MoveDown(u, x) == Swap(u, i - 1, i);
    SwapTwice(s, i - 1, i);
  }

  class MainViewModel {
    var groups: seq<TaskbarGroup>
    var selected: TaskbarGroup?
    var groupName: string
    var searchTerm: string
    var searchResults: seq<SearchResult>
    var isSearchInProgress: bool
    /** How many times the groups were saved. */
    var saves: nat

    constructor (loaded: seq<TaskbarGroup>)
      ensures groups == loaded && selected == null && groupName == "" && searchTerm == ""
      ensures searchResults == [] && !isSearchInProgress && saves == 0
    {
      groups := loaded;
      selected := null;
      groupName := "";
      searchTerm := "";
      searchResults := [];
      isSearchInProgress := false;
      saves := 0;
    }

    /** The `SelectedGroup` setter: selecting a group copies its name into `GroupName`. */
    method SetSelectedGroup(g: TaskbarGroup?)
      modifies this
      ensures selected == g
      ensures groupName == if g != null then g.name else old(groupName)
      ensures groups == old(groups) && searchTerm == old(searchTerm) && searchResults == old(searchResults)
      ensures isSearchInProgress == old(isSearchInProgress) && saves == old(saves)
    {
      selected := g;
      if g != null {
        groupName := g.name;
      }
    }

    method SaveGroups()
      modifies this
      ensures saves == old(saves) + 1
      ensures groups == old(groups) && selected == old(selected) && groupName == old(groupName)
      ensures searchTerm == old(searchTerm) && searchResults == old(searchResults)
      ensures isSearchInProgress == old(isSearchInProgress)
    {
      saves := saves + 1;
    }

    /** `AddNewGroup`: appends a new empty group named "New Group" and selects it (not saved). */
    method AddNewGroup(newId: string)
      modifies this
      ensures selected != null && fresh(selected)
      ensures groups == old(groups) + [selected]
      ensures selected.name == NewGroupName && groupName == NewGroupName
      ensures selected.applications == [] && selected.id == newId
      ensures saves == old(saves) && searchResults == old(searchResults)
      ensures searchTerm == old(searchTerm) && isSearchInProgress == old(isSearchInProgress)
    {
      var g := new TaskbarGroup.Named(NewGroupName, newId);
      groups := groups + [g];
      SetSelectedGroup(g);
    }

    /**
     * `DeleteSelectedGroup`: removes the selected group from the list, clears the
     * selection (keeping the edited name) and saves; without a selection nothing happens.
     */
    method DeleteSelectedGroup()
      modifies this
      ensures old(selected) == null ==> groups == old(groups) && selected == null && saves == old(saves)
      ensures old(selected) != null ==>
        groups == Lists.RemoveFirst<TaskbarGroup>(old(groups), old(selected)) && selected == null
        && saves == old(saves) + 1
      ensures groupName == old(groupName) && searchResults == old(searchResults)
      ensures searchTerm == old(searchTerm) && isSearchInProgress == old(isSearchInProgress)
    {
      if selected != null {
        var g: TaskbarGroup := selected;
        groups := Lists.RemoveFirst(groups, g);
        selected := null;
        saves := saves + 1;
      }
    }

    /**
     * `SaveSelectedGroup`: gives the selected group the edited name and saves. The
     * group is taken out and put back at the same index, so the list and the
     * selection end up as they were.
     */
    method SaveSelectedGroup()
      modifies this, selected
      ensures selected == old(selected) && groups == old(groups) && groupName == old(groupName)
      ensures old(selected) != null ==>
        selected.name == old(groupName) && selected.applications == old(selected.applications)
        && selected.id == old(selected.id) && saves == old(saves) + 1
      ensures old(selected) == null ==> saves == old(saves)
      ensures searchTerm == old(searchTerm) && searchResults == old(searchResults)
      ensures isSearchInProgress == old(isSearchInProgress)
    {
      if selected != null {
        selected.name := groupName;
        SaveGroups();
        var index := Lists.IndexOf(groups, selected);
        if index >= 0 {
          Lists.ReinsertSame(groups, index);
          groups := Lists.InsertAt(Lists.RemoveAt(groups, index), index, selected);
          SetSelectedGroup(groups[index]);
        }
      }
    }

    /**
     * `AddApplicationToGroup`: appends a non-empty path that the selected group does not
     * hold yet, and saves; otherwise nothing changes. The list never gains a duplicate.
     */
    method AddApplicationToGroup(path: string)
      modifies this, selected
      ensures selected == old(selected) && groups == old(groups)
      ensures groupName == old(groupName) && searchTerm == old(searchTerm) && searchResults == old(searchResults)
      ensures isSearchInProgress == old(isSearchInProgress)
      ensures selected != null ==> selected.name == old(selected.name) && selected.id == old(selected.id)
      ensures selected != null && path != "" && path !in old(selected.applications) ==>
        selected.applications == old(selected.applications) + [path] && saves == old(saves) + 1
      ensures !(selected != null && path != "" && path !in old(selected.applications)) ==>
        (selected != null ==> selected.applications == old(selected.applications)) && saves == old(saves)
      ensures selected != null && Lists.NoDuplicates(old(selected.applications)) ==>
        Lists.NoDuplicates(selected.applications)
    {
      if selected != null && path != "" {
        if path !in selected.applications {
          selected.applications := selected.applications + [path];
          SaveGroups();
        }
      }
    }

    /** `RemoveApplicationFromGroup`: removes the first occurrence of the path, if any, and saves. */
    method RemoveApplicationFromGroup(path: string)
      modifies this, selected
      ensures selected == old(selected) && groups == old(groups)
      ensures groupName == old(groupName) && searchTerm == old(searchTerm) && searchResults == old(searchResults)
      ensures isSearchInProgress == old(isSearchInProgress)
      ensures selected != null ==> selected.name == old(selected.name) && selected.id == old(selected.id)
      ensures selected != null ==> selected.applications == Lists.RemoveFirst(old(selected.applications), path)
      ensures saves == if selected != null && path in old(selected.applications) then old(saves) + 1 else old(saves)
    {
      if selected != null && path in selected.applications {
        selected.applications := Lists.RemoveFirst(selected.applications, path);
        SaveGroups();
      }
    }

    /** `MoveApplicationUp`: swaps the path with its predecessor and saves; at index 0 nothing happens. */
    method MoveApplicationUp(path: string)
      modifies this, selected
      ensures selected == old(selected) && groups == old(groups)
      ensures groupName == old(groupName) && searchTerm == old(searchTerm) && searchResults == old(searchResults)
      ensures isSearchInProgress == old(isSearchInProgress)
      ensures selected != null ==> selected.name == old(selected.name) && selected.id == old(selected.id)
      ensures selected != null ==> selected.applications == MoveUp(old(selected.applications), path)
      ensures saves == if selected != null && Lists.IndexOf(old(selected.applications), path) > 0
                       then old(saves) + 1 else old(saves)
    {
      if selected != null && path in selected.applications {
        var index := Lists.IndexOf(selected.applications, path);
        if index > 0 {
          selected.applications := Lists.InsertAt(Lists.RemoveAt(selected.applications, index), index - 1, path);
          SaveGroups();
        }
      }
    }

    /** `MoveApplicationDown`: swaps the path with its successor and saves; at the last index nothing happens. */
    method MoveApplicationDown(path: string)
      modifies this, selected
      ensures selected == old(selected) && groups == old(groups)
      ensures groupName == old(groupName) && searchTerm == old(searchTerm) && searchResults == old(searchResults)
      ensures isSearchInProgress == old(isSearchInProgress)
      ensures selected != null ==> selected.name == old(selected.name) && selected.id == old(selected.id)
      ensures selected != null ==> selected.applications == MoveDown(old(selected.applications), path)
      ensures saves == if selected != null && 0 <= Lists.IndexOf(old(selected.applications), path) < |old(selected.applications)| - 1
                       then old(saves) + 1 else old(saves)
    {
      if selected != null && path in selected.applications {
        var index := Lists.IndexOf(selected.applications, path);
        if index < |selected.applications| - 1 {
          selected.applications := Lists.InsertAt(Lists.RemoveAt(selected.applications, index), index + 1, path);
          SaveGroups();
        }
      }
    }

    /**
     * The debounce timer firing: a term shorter than three characters clears the
     * results and ends any search in progress. Otherwise the search starts, and
     * `outcome` says how its await ends: with a list, whose first twenty entries replace
     * the shown results (a search cancelled inside the finder also answers a list);
     * with an exception, which leaves the results alone; or never, when the finder
     * waits at its gate for good, in which case the search stays in progress.
     */
    method OnSearchTimerElapsed(outcome: SearchOutcome)
      modifies this
      ensures |searchTerm| < MinSearchLength ==> searchResults == [] && !isSearchInProgress
      ensures |searchTerm| >= MinSearchLength && outcome.Answered? ==>
        searchResults == Lists.Take(outcome.results, ShownResults) && !isSearchInProgress
      ensures |searchTerm| >= MinSearchLength && outcome.Failed? ==>
        searchResults == old(searchResults) && !isSearchInProgress
      ensures |searchTerm| >= MinSearchLength && outcome.Pending? ==>
        searchResults == old(searchResults) && isSearchInProgress
      ensures |searchResults| <= ShownResults || searchResults == old(searchResults)
      ensures groups == old(groups) && selected == old(selected) && groupName == old(groupName)
      ensures searchTerm == old(searchTerm) && saves == old(saves)
    {
      if |searchTerm| < MinSearchLength {
        searchResults := [];
        isSearchInProgress := false;
        return;
      }
      isSearchInProgress := true;
      if outcome.Pending? {
        return;
      }
      if outcome.Answered? {
        searchResults := Lists.Take(outcome.results, ShownResults);
      }
      isSearchInProgress := false;
    }
  }
}
