/** The records the application finder returns (`SearchResult`, `SearchResultType`). */
module SearchResults {
  import Text
  import Paths

  datatype SearchResultType = Application | Shortcut | Folder

  /**
   * One hit of a search. The source's `SearchResult` is a class without an equality
   * override, so two hits for the same path are still two different results.
   */
  datatype SearchResult = SearchResult(name: string, path: string, kind: SearchResultType)

  /**
   * The kind given to a matching file: ".exe" is an application and ".lnk" a shortcut,
   * whatever the case of the extension; any other extension keeps the kind the caller
   * passed in.
   */
  function ClassifyFile(path: string, default: SearchResultType): (kind: SearchResultType)
    ensures Text.Lower(Paths.Extension(path)) == ".exe" ==> kind == Application
    ensures Text.Lower(Paths.Extension(path)) == ".lnk" ==> kind == Shortcut
    ensures Text.Lower(Paths.Extension(path)) !in {".exe", ".lnk"} ==> kind == default
  {
    var ext := Text.Lower(Paths.Extension(path));
    if ext == ".exe" then Application
    else if ext == ".lnk" then Shortcut
    else default
  }
}
