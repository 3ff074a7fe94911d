/**
 * The dialog that adds an application to a group (`AddApplicationWindow`): results
 * from browsing or searching, and adding the selected result's path to the group.
 */
module AddApplication {
  import opened Wrappers
  import Text
  import Paths
  import Lists
  import opened Groups
  import opened SearchResults

  /** A search runs only for terms longer than this many characters. */
  const ShortestTerm := 2
  /** At most this many search results are shown. */
  const ShownResults := 20

  /** `GetFileType`: ".exe" is an application, ".lnk" a shortcut, anything else a folder. */
  function FileType(filePath: string): (kind: SearchResultType)
    ensures Text.Lower(Paths.Extension(filePath)) == ".exe" <==> kind == Application
    ensures Text.Lower(Paths.Extension(filePath)) == ".lnk" <==> kind == Shortcut
  {
    var extension := Text.Lower(Paths.Extension(filePath));
    if extension == ".exe" then Application
    else if extension == ".lnk" then Shortcut
    else Folder
  }

  /** The dialog's classification is the finder's, with folder as the kind for other files. */
  lemma FileTypeIsFinderKind(filePath: string)
    ensures FileType(filePath) == ClassifyFile(filePath, Folder)
  {
  }

  /** The result `BrowseButton_Click` makes for one chosen file. */
  function BrowsedResult(fileName: string): (r: SearchResult)
    ensures r.path == fileName && r.kind == FileType(fileName)
    ensures var name := Paths.FileName(fileName);
      |r.name| <= |name| && name[..|r.name|] == r.name
  {
    SearchResult(Paths.NameWithoutExtension(fileName), fileName, FileType(fileName))
  }

  /** The results `BrowseButton_Click` makes for the chosen files: one per file, in order. */
  function BrowsedResults(files: seq<string>): (r: seq<SearchResult>)
    ensures |r| == |files|
  {
    seq(|files|, k requires 0 <= k < |files| => BrowsedResult(files[k]))
  }

  /** The loop of `BrowseButton_Click`: one result per chosen file, in order. */
  method ResultsFor(files: seq<string>) returns (added: seq<SearchResult>)
    ensures added == BrowsedResults(files)
  {
    added := [];
    var i := 0;
    while i < |files|
      invariant 0 <= i <= |files|
      invariant |added| == i
      invariant forall k | 0 <= k < i :: added[k] == BrowsedResult(files[k])
    {
      added := added + [BrowsedResult(files[i])];
      i := i + 1;
    }
  }

  /** Outcome of `AddSelectedApplication`, as the message it shows. */
  datatype AddOutcome = Added(name: string) | AlreadyInGroup | NothingSelected

  class AddApplicationWindow {
    var currentGroup: TaskbarGroup
    var searchResults: seq<SearchResult>
    var searchTerm: string

    constructor (group: TaskbarGroup)
      ensures currentGroup == group && searchResults == [] && searchTerm == ""
    {
      currentGroup := group;
      searchResults := [];
      searchTerm := "";
    }

    /**
     * `BrowseButton_Click`: `chosen` holds the files picked in the dialog, `None` when it
     * was cancelled. One result per file is appended, in order; nothing is removed.
     */
    method Browse(chosen: Option<seq<string>>)
      modifies this
      ensures chosen.None? ==> searchResults == old(searchResults)
      ensures chosen.Some? ==> searchResults == old(searchResults) + BrowsedResults(chosen.value)
      ensures currentGroup == old(currentGroup) && searchTerm == old(searchTerm)
    {
      if chosen.None? {
        return;
      }
      var added := ResultsFor(chosen.value);
      searchResults := searchResults + added;
    }

    /**
     * `PerformSearch`: `found` is what the search returned for the term, `None` when it
     * threw. A term of at most two characters clears the results; otherwise the first
     * twenty results found replace them, and a failed search leaves them alone.
     */
    method PerformSearch(found: Option<seq<SearchResult>>)
      modifies this
      ensures |searchTerm| <= ShortestTerm ==> searchResults == []
      ensures |searchTerm| > ShortestTerm && found.Some? ==> searchResults == Lists.Take(found.value, ShownResults)
      ensures |searchTerm| > ShortestTerm && found.None? ==> searchResults == old(searchResults)
      ensures currentGroup == old(currentGroup) && searchTerm == old(searchTerm)
    {
      if searchTerm != "" && |searchTerm| > ShortestTerm {
        if found.Some? {
          searchResults := [];
          var shown := Lists.Take(found.value, ShownResults);
          var i := 0;
          while i < |shown|
            invariant 0 <= i <= |shown|
            invariant searchResults == shown[..i]
            invariant currentGroup == old(currentGroup) && searchTerm == old(searchTerm)
          {
            searchResults := searchResults + [shown[i]];
            i := i + 1;
          }
        }
      } else {
        searchResults := [];
      }
    }

    /**
     * `AddSelectedApplication`: the selected result's path is appended to the group when
     * the group does not hold it yet; with nothing selected, or the path already there,
     * the group is unchanged. The group never gains a duplicate.
     */
    method AddSelectedApplication(selected: Option<SearchResult>) returns (outcome: AddOutcome)
      modifies currentGroup
      ensures selected.None? ==> outcome == NothingSelected
      ensures selected.Some? && selected.value.path !in old(currentGroup.applications) ==>
        outcome == Added(selected.value.name)
        && currentGroup.applications == old(currentGroup.applications) + [selected.value.path]
      ensures !(selected.Some? && selected.value.path !in old(currentGroup.applications)) ==>
        currentGroup.applications == old(currentGroup.applications)
      ensures selected.Some? && selected.value.path in old(currentGroup.applications) ==> outcome == AlreadyInGroup
      ensures Lists.NoDuplicates(old(currentGroup.applications)) ==> Lists.NoDuplicates(currentGroup.applications)
      ensures currentGroup.name == old(currentGroup.name) && currentGroup.id == old(currentGroup.id)
    {
      if selected.None? {
        return NothingSelected;
      }
      var result := selected.value;
      if result.path !in currentGroup.applications {
        currentGroup.applications := currentGroup.applications + [result.path];
        outcome := Added(result.name);
      } else {
        outcome := AlreadyInGroup;
      }
    }
  }
}
