/**
 * The application finder (`ApplicationSearchService`): a name-matching walk over
 * directory trees, four groups of search roots, a result cap, and a gate of three
 * permits that is never released.
 */
module ApplicationSearch {
  import opened Wrappers
  import Text
  import Paths
  import opened SearchResults
  import SearchCache


  /** A level with this many hits or more is not searched below. */
  const RecurseBelow := 20
  /** At most this many subdirectories of a level are searched below it. */
  const MaxSubdirs := 5
  /** `PerformSearchAsync` keeps at most this many results. */
  const MaxResults := 50
  /** Initial (and maximum) count of the search gate. */
  const GatePermits := 3

  /**
   * What enumerating a directory gives: its subdirectories (in enumeration order) and
   * the full paths of its files; or a failure (access denied, vanished directory, ...);
   * or the cancellation of the search, observed while this directory was being processed.
   */
  datatype Listing =
    | Unreadable
    | Cancelled
    | Listed(subdirs: seq<Node>, files: seq<string>)

  /** A directory, by full path, and what enumerating it gives. */
  datatype Node = Node(path: string, listing: Listing)

  /** A directory search either completes with its hits or re-throws the cancellation. */
  datatype ScanOutcome = Completed(results: seq<SearchResult>) | Canceled

  /** The name a search term is matched against contains the term, ignoring case. */
  predicate Matches(name: string, term: string) {
    Text.ContainsIgnoreCase(name, term)
  }

  /** The hits among the subdirectories of one level: always of kind Folder. */
  function DirMatches(ds: seq<Node>, term: string): (rs: seq<SearchResult>)
    ensures |rs| <= |ds|
    ensures forall r | r in rs ::
      r.kind == Folder && r.name == Paths.FileName(r.path) && Matches(r.name, term)
      && exists d | d in ds :: d.path == r.path
    ensures forall d | d in ds && Matches(Paths.FileName(d.path), term) ::
      SearchResult(Paths.FileName(d.path), d.path, Folder) in rs
  {
    if ds == [] then []
    else
      var name := Paths.FileName(ds[0].path);
      var rest := DirMatches(ds[1..], term);
      if Matches(name, term) then [SearchResult(name, ds[0].path, Folder)] + rest else rest
  }

  /** The hits among the files of one level, classified by extension. */
  function FileMatches(fs: seq<string>, term: string, default: SearchResultType): (rs: seq<SearchResult>)
    ensures |rs| <= |fs|
    ensures forall r | r in rs ::
      r.path in fs && r.name == Paths.NameWithoutExtension(r.path) && Matches(r.name, term)
      && r.kind == ClassifyFile(r.path, default)
    ensures forall f | f in fs && Matches(Paths.NameWithoutExtension(f), term) ::
      SearchResult(Paths.NameWithoutExtension(f), f, ClassifyFile(f, default)) in rs
  {
    if fs == [] then []
    else
      var name := Paths.NameWithoutExtension(fs[0]);
      var rest := FileMatches(fs[1..], term, default);
      if Matches(name, term) then [SearchResult(name, fs[0], ClassifyFile(fs[0], default))] + rest else rest
  }

  /** The hits of one level, before any descent. */
  function LevelMatches(ds: seq<Node>, fs: seq<string>, term: string, default: SearchResultType): (rs: seq<SearchResult>)
    ensures |rs| <= |ds| + |fs|
    ensures forall r | r in rs :: Matches(r.name, term)
    ensures forall d | d in ds && Matches(Paths.FileName(d.path), term) ::
      SearchResult(Paths.FileName(d.path), d.path, Folder) in rs
    ensures forall f | f in fs && Matches(Paths.NameWithoutExtension(f), term) ::
      SearchResult(Paths.NameWithoutExtension(f), f, ClassifyFile(f, default)) in rs
  {
    DirMatches(ds, term) + FileMatches(fs, term, default)
  }

  /** How many subdirectories a level with `hits` hits and `count` subdirectories descends into. */
  function DescentWidth(hits: nat, count: nat): (w: nat)
    ensures w <= count && w <= MaxSubdirs
    ensures hits >= RecurseBelow ==> w == 0
    ensures hits < RecurseBelow ==> w == if count < MaxSubdirs then count else MaxSubdirs
  {
    if hits >= RecurseBelow then 0 else if count < MaxSubdirs then count else MaxSubdirs
  }

  /**
   * `SearchDirectoryAsync`: the matching subdirectories and files of `n`, and, when that
   * level has fewer than 20 hits, the hits of the first five subdirectories searched in
   * the same way. A failing enumeration yields nothing; cancellation propagates.
   */
  function Scan(n: Node, term: string, default: SearchResultType): (o: ScanOutcome)
    ensures n.listing.Unreadable? ==> o.Completed? && o.results == []
    ensures n.listing.Listed? && o.Completed? ==>
      LevelMatches(n.listing.subdirs, n.listing.files, term, default) <= o.results
    decreases n, 1
  {
    match n.listing
    case Unreadable => Completed([])
    case Cancelled => Canceled
    case Listed(ds, fs) =>
      var here := LevelMatches(ds, fs, term, default);
      match ScanAll(ds, 0, DescentWidth(|here|, |ds|), term, default)
      case Canceled => Canceled
      case Completed(below) => Completed(here + below)
  }

  /** The subdirectory searches `ds[i..k]`, combined: any cancellation cancels them all. */
  function ScanAll(ds: seq<Node>, i: nat, k: nat, term: string, default: SearchResultType): (o: ScanOutcome)
    requires i <= k <= |ds|
    ensures i == k ==> o.Completed? && o.results == []
    decreases ds, 0, k - i
  {
    if i == k then Completed([])
    else
      match (Scan(ds[i], term, default), ScanAll(ds, i + 1, k, term, default))
      case (Completed(a), Completed(b)) => Completed(a + b)
      case _ => Canceled
  }

  /** Every directory below `n` (not `n` itself), by path. */
  function Dirs(n: Node): set<string>
    decreases n, 1
  {
    match n.listing
    case Listed(ds, _) => DirsAll(ds, 0)
    case _ => {}
  }

  function DirsAll(ds: seq<Node>, i: nat): set<string>
    requires i <= |ds|
    decreases ds, 0, |ds| - i
  {
    if i == |ds| then {} else {ds[i].path} + Dirs(ds[i]) + DirsAll(ds, i + 1)
  }

  /** Every file below `n`, by path. */
  function Files(n: Node): set<string>
    decreases n, 1
  {
    match n.listing
    case Listed(ds, fs) => (set f | f in fs) + FilesAll(ds, 0)
    case _ => {}
  }

  function FilesAll(ds: seq<Node>, i: nat): set<string>
    requires i <= |ds|
    decreases ds, 0, |ds| - i
  {
    if i == |ds| then {} else Files(ds[i]) + FilesAll(ds, i + 1)
  }

  /** Where a hit may come from, given the directories and files searched. */
  predicate HitIn(r: SearchResult, dirs: set<string>, files: set<string>, term: string, default: SearchResultType) {
    Matches(r.name, term)
    && ((r.path in dirs && r.kind == Folder && r.name == Paths.FileName(r.path))
        || (r.path in files && r.name == Paths.NameWithoutExtension(r.path)
            && r.kind == ClassifyFile(r.path, default)))
  }

  /**
   * Every hit of a search started at `n` names a directory or file below `n`, its name
   * contains the term, a directory is a Folder whatever the default kind, and a file
   * is classified by its extension.
   */
  predicate ValidHit(r: SearchResult, n: Node, term: string, default: SearchResultType) {
    HitIn(r, Dirs(n), Files(n), term, default)
  }

  lemma {:induction false} DirsAllHas(ds: seq<Node>, i: nat, j: nat)
    requires i <= j < |ds|
    ensures ds[j].path in DirsAll(ds, i) && Dirs(ds[j]) <= DirsAll(ds, i) && Files(ds[j]) <= FilesAll(ds, i)
    decreases j - i
  {
    if i < j {
      DirsAllHas(ds, i + 1, j);
    }
  }

  lemma HitInGrows(r: SearchResult, dirs: set<string>, files: set<string>, dirs': set<string>, files': set<string>,
                   term: string, default: SearchResultType)
    requires HitIn(r, dirs, files, term, default) && dirs <= dirs' && files <= files'
    ensures HitIn(r, dirs', files', term, default)
  {
  }

  /** The hits of one level name its subdirectories and files. */
  lemma LevelHits(ds: seq<Node>, fs: seq<string>, term: string, default: SearchResultType)
    ensures forall r | r in LevelMatches(ds, fs, term, default) ::
      HitIn(r, DirsAll(ds, 0), (set f | f in fs), term, default)
  {
    forall r | r in LevelMatches(ds, fs, term, default)
      ensures HitIn(r, DirsAll(ds, 0), (set f | f in fs), term, default)
    {
      if r in DirMatches(ds, term) {
        var j :| 0 <= j < |ds| && ds[j].path == r.path;
        DirsAllHas(ds, 0, j);
      }
    }
  }

  lemma {:induction false} ScanHits(n: Node, term: string, default: SearchResultType)
    ensures Scan(n, term, default).Completed? ==>
      forall r | r in Scan(n, term, default).results :: ValidHit(r, n, term, default)
    decreases n, 1
  {
    match n.listing
    case Unreadable =>
    case Cancelled =>
    case Listed(ds, fs) => ListedHits(n.path, ds, fs, term, default);
  }

  lemma {:induction false} ListedHits(p: string, ds: seq<Node>, fs: seq<string>, term: string, default: SearchResultType)
    ensures var n := Node(p, Listed(ds, fs));
      Scan(n, term, default).Completed? ==>
        forall r | r in Scan(n, term, default).results :: ValidHit(r, n, term, default)
    decreases ds, 2
  {
    var n := Node(p, Listed(ds, fs));
    var here := LevelMatches(ds, fs, term, default);
    var w := DescentWidth(|here|, |ds|);
    var fileSet := set f | f in fs;
    assert Dirs(n) == DirsAll(ds, 0) && Files(n) == fileSet + FilesAll(ds, 0);
    ScanAllHits(ds, 0, w, term, default);
    LevelHits(ds, fs, term, default);
    var sub := ScanAll(ds, 0, w, term, default);
    if sub.Completed? {
      assert Scan(n, term, default) == Completed(here + sub.results);
      JoinedHits(here, sub.results, DirsAll(ds, 0), fileSet, FilesAll(ds, 0), Dirs(n), Files(n), term, default);
    }
  }

  /** Hits drawn from two parts of a tree are hits of the whole. */
  lemma JoinedHits(here: seq<SearchResult>, below: seq<SearchResult>, dirs: set<string>, files: set<string>,
                   filesBelow: set<string>, allDirs: set<string>, allFiles: set<string>, term: string, default: SearchResultType)
    requires forall r | r in here :: HitIn(r, dirs, files, term, default)
    requires forall r | r in below :: HitIn(r, dirs, filesBelow, term, default)
    requires dirs <= allDirs && files <= allFiles && filesBelow <= allFiles
    ensures forall r | r in here + below :: HitIn(r, allDirs, allFiles, term, default)
  {
    forall r | r in here + below ensures HitIn(r, allDirs, allFiles, term, default) {
      if r in here {
        HitInGrows(r, dirs, files, allDirs, allFiles, term, default);
      } else {
        HitInGrows(r, dirs, filesBelow, allDirs, allFiles, term, default);
      }
    }
  }

  lemma {:induction false} ScanAllHits(ds: seq<Node>, i: nat, k: nat, term: string, default: SearchResultType)
    requires i <= k <= |ds|
    ensures ScanAll(ds, i, k, term, default).Completed? ==>
      forall r | r in ScanAll(ds, i, k, term, default).results ::
        HitIn(r, DirsAll(ds, i), FilesAll(ds, i), term, default)
    decreases ds, 0, k - i
  {
    if i < k {
      ScanHits(ds[i], term, default);
      ScanAllHits(ds, i + 1, k, term, default);
      DirsAllHas(ds, i, i);
    }
  }

  /** The search of `ds[i..k]` is cancelled exactly when one of those searches is. */
  lemma {:induction false} ScanAllCanceled(ds: seq<Node>, i: nat, k: nat, term: string, default: SearchResultType)
    requires i <= k <= |ds|
    ensures ScanAll(ds, i, k, term, default) == Canceled <==>
      exists j | i <= j < k :: Scan(ds[j], term, default) == Canceled
    decreases k - i
  {
    if i < k {
      ScanAllCanceled(ds, i + 1, k, term, default);
      var first := Scan(ds[i], term, default);
      if first == Canceled {
        assert ScanAll(ds, i, k, term, default) == Canceled;
      }
    }
  }

  /**
   * A search re-throws the cancellation exactly when it was observed at this directory
   * or in one of the subdirectories it descended into; failures are never propagated.
   */
  lemma ScanCanceled(n: Node, term: string, default: SearchResultType)
    ensures Scan(n, term, default) == Canceled <==>
      n.listing == Cancelled
      || (n.listing.Listed?
          && exists j | 0 <= j < DescentWidth(|LevelMatches(n.listing.subdirs, n.listing.files, term, default)|,
                                              |n.listing.subdirs|) ::
               Scan(n.listing.subdirs[j], term, default) == Canceled)
  {
    if n.listing.Listed? {
      var ds := n.listing.subdirs;
      ScanAllCanceled(ds, 0, DescentWidth(|LevelMatches(ds, n.listing.files, term, default)|, |ds|), term, default);
    }
  }

  /** Subdirectories with the same paths, in the same order. */
  predicate SamePaths(ds: seq<Node>, es: seq<Node>) {
    |ds| == |es| && forall j | 0 <= j < |ds| :: ds[j].path == es[j].path
  }

  lemma {:induction false} DirMatchesByPath(ds: seq<Node>, es: seq<Node>, term: string)
    requires SamePaths(ds, es)
    ensures DirMatches(ds, term) == DirMatches(es, term)
  {
    if ds != [] {
      DirMatchesByPath(ds[1..], es[1..], term);
    }
  }

  lemma {:induction false} ScanAllPrefix(ds: seq<Node>, es: seq<Node>, i: nat, k: nat, term: string, default: SearchResultType)
    requires i <= k <= |ds| && k <= |es| && ds[..k] == es[..k]
    ensures ScanAll(ds, i, k, term, default) == ScanAll(es, i, k, term, default)
    decreases k - i
  {
    if i < k {
      assert ds[i] == ds[..k][i] && es[i] == es[..k][i];
      ScanAllPrefix(ds, es, i + 1, k, term, default);
    }
  }

  /**
   * Bounded descent: the contents of a subdirectory matter only when the level has
   * fewer than 20 hits and the subdirectory is among the first five; any other
   * subdirectory may hold anything (only its own name is matched).
   */
  lemma BoundedDescent(p: string, ds: seq<Node>, es: seq<Node>, fs: seq<string>, term: string, default: SearchResultType)
    requires SamePaths(ds, es)
    requires forall j | 0 <= j < |ds| && j < MaxSubdirs && |LevelMatches(ds, fs, term, default)| < RecurseBelow ::
      ds[j] == es[j]
    ensures Scan(Node(p, Listed(ds, fs)), term, default) == Scan(Node(p, Listed(es, fs)), term, default)
  {
    LevelMatchesByPath(ds, es, fs, term, default);
    var w := DescentWidth(|LevelMatches(ds, fs, term, default)|, |ds|);
    DescendedPrefix(ds, es, fs, term, default, w);
    ScanAllPrefix(ds, es, 0, w, term, default);
  }

  lemma LevelMatchesByPath(ds: seq<Node>, es: seq<Node>, fs: seq<string>, term: string, default: SearchResultType)
    requires SamePaths(ds, es)
    ensures LevelMatches(ds, fs, term, default) == LevelMatches(es, fs, term, default)
  {
    DirMatchesByPath(ds, es, term);
  }

  lemma DescendedPrefix(ds: seq<Node>, es: seq<Node>, fs: seq<string>, term: string, default: SearchResultType, w: nat)
    requires SamePaths(ds, es)
    requires forall j | 0 <= j < |ds| && j < MaxSubdirs && |LevelMatches(ds, fs, term, default)| < RecurseBelow ::
      ds[j] == es[j]
    requires w == DescentWidth(|LevelMatches(ds, fs, term, default)|, |ds|)
    ensures w <= |ds| && w <= |es| && ds[..w] == es[..w]
  {
    if w > 0 {
      assert |LevelMatches(ds, fs, term, default)| < RecurseBelow;
      forall j | 0 <= j < w ensures ds[j] == es[j] {
        assert j < |ds| && j < MaxSubdirs;
      }
    }
    assert ds[..w] == es[..w];
  }

  /** A level with 20 hits or more is the whole result: nothing below it is searched. */
  lemma FullLevelStops(p: string, ds: seq<Node>, fs: seq<string>, term: string, default: SearchResultType)
    requires |LevelMatches(ds, fs, term, default)| >= RecurseBelow
    ensures Scan(Node(p, Listed(ds, fs)), term, default) == Completed(LevelMatches(ds, fs, term, default))
  {
    var here := LevelMatches(ds, fs, term, default);
    assert DescentWidth(|here|, |ds|) == 0;
    assert ScanAll(ds, 0, 0, term, default) == Completed([]);
    assert here + [] == here;
  }

  /**
   * The search roots, as found at search time; `None` is a root that does not exist:
   * the three Start Menu program folders, the desktop, the six known folders
   * (Downloads, Desktop, Documents, Pictures, Music, Videos) and the two Program Files
   * folders.
   */
  datatype SearchRoots = SearchRoots(
    startMenu: seq<Option<Node>>,
    desktop: Option<Node>,
    knownFolders: seq<Option<Node>>,
    programFiles: seq<Option<Node>>)
  {
    predicate WellFormed() {
      |startMenu| == 3 && |knownFolders| == 6 && |programFiles| == 2
    }
  }

  /** Searching a root that may not exist. */
  function ScanRoot(root: Option<Node>, term: string, default: SearchResultType): (o: ScanOutcome)
    ensures root == None ==> o == Completed([])
    ensures root.Some? && o.Completed? ==> forall r | r in o.results :: ValidHit(r, root.value, term, default)
  {
    match root
    case None => Completed([])
    case Some(n) => ScanHits(n, term, default); Scan(n, term, default)
  }

  /** A group of roots searched together: one cancellation cancels the group. */
  function ScanGroup(roots: seq<Option<Node>>, term: string, default: SearchResultType): (o: ScanOutcome)
    ensures o == Canceled <==> exists j | 0 <= j < |roots| :: ScanRoot(roots[j], term, default) == Canceled
  {
    if roots == [] then Completed([])
    else
      match (ScanRoot(roots[0], term, default), ScanGroup(roots[1..], term, default))
      case (Completed(a), Completed(b)) => Completed(a + b)
      case _ => Canceled
  }

  /** A group task that faults contributes nothing; the fault is swallowed by the caller. */
  function Contribution(o: ScanOutcome): (rs: seq<SearchResult>)
    ensures o == Canceled ==> rs == []
    ensures o.Completed? ==> rs == o.results
  {
    match o
    case Completed(rs) => rs
    case Canceled => []
  }

  /** The known folders: each folder's failure, even a cancellation, only drops that folder. */
  function ScanEachFolder(roots: seq<Option<Node>>, term: string): (rs: seq<SearchResult>)
    ensures forall j | 0 <= j < |roots| ::
      multiset(Contribution(ScanRoot(roots[j], term, Folder))) <= multiset(rs)
  {
    if roots == [] then []
    else
      Contribution(ScanRoot(roots[0], term, Folder)) + ScanEachFolder(roots[1..], term)
  }

  /**
   * Everything the four group tasks of `PerformSearchAsync` add to the shared bag, in
   * one order of many: the bag does not keep the order of insertion.
   */
  function Collected(roots: SearchRoots, term: string): (rs: seq<SearchResult>)
    ensures multiset(Contribution(ScanGroup(roots.startMenu, term, Shortcut))) <= multiset(rs)
    ensures multiset(Contribution(ScanRoot(roots.desktop, term, Shortcut))) <= multiset(rs)
    ensures forall j | 0 <= j < |roots.knownFolders| ::
      multiset(Contribution(ScanRoot(roots.knownFolders[j], term, Folder))) <= multiset(rs)
    ensures multiset(Contribution(ScanGroup(roots.programFiles, term, Application))) <= multiset(rs)
  {
    Contribution(ScanGroup(roots.startMenu, term, Shortcut))
    + Contribution(ScanRoot(roots.desktop, term, Shortcut))
    + ScanEachFolder(roots.knownFolders, term)
    + Contribution(ScanGroup(roots.programFiles, term, Application))
  }

  /** `root` is searched by one of the four groups, with `default` as its default kind. */
  predicate RootOf(roots: SearchRoots, n: Node, default: SearchResultType) {
    (Some(n) in roots.startMenu && default == Shortcut)
    || (roots.desktop == Some(n) && default == Shortcut)
    || (Some(n) in roots.knownFolders && default == Folder)
    || (Some(n) in roots.programFiles && default == Application)
  }

  lemma {:induction false} ScanGroupHits(roots: seq<Option<Node>>, term: string, default: SearchResultType)
    ensures ScanGroup(roots, term, default).Completed? ==>
      forall r | r in ScanGroup(roots, term, default).results ::
        exists n | Some(n) in roots :: ValidHit(r, n, term, default)
  {
    if roots != [] {
      ScanGroupHits(roots[1..], term, default);
      if roots[0].Some? {
        ScanHits(roots[0].value, term, default);
      }
      var o := ScanGroup(roots, term, default);
      if o.Completed? {
        forall r | r in o.results ensures exists n | Some(n) in roots :: ValidHit(r, n, term, default) {
          var a := ScanRoot(roots[0], term, default).results;
          if r in a {
            assert Some(roots[0].value) in roots;
          } else {
            var n :| Some(n) in roots[1..] && ValidHit(r, n, term, default);
            assert Some(n) in roots;
          }
        }
      }
    }
  }

  lemma {:induction false} ScanEachFolderHits(roots: seq<Option<Node>>, term: string)
    ensures forall r | r in ScanEachFolder(roots, term) ::
      exists n | Some(n) in roots :: ValidHit(r, n, term, Folder)
  {
    if roots != [] {
      ScanEachFolderHits(roots[1..], term);
      if roots[0].Some? {
        ScanHits(roots[0].value, term, Folder);
      }
      forall r | r in ScanEachFolder(roots, term) ensures exists n | Some(n) in roots :: ValidHit(r, n, term, Folder) {
        if r in Contribution(ScanRoot(roots[0], term, Folder)) {
          assert Some(roots[0].value) in roots;
        } else {
          assert r in ScanEachFolder(roots[1..], term);
          var n :| Some(n) in roots[1..] && ValidHit(r, n, term, Folder);
          assert Some(n) in roots;
        }
      }
    }
  }

  /**
   * Every collected hit comes from below one of the roots, named and classified as the
   * directory search promises for the default kind of that root's group: Shortcut for
   * the Start Menu and the desktop, Folder for the known folders, Application for
   * Program Files.
   */
  lemma CollectedHits(roots: SearchRoots, term: string)
    ensures forall r | r in Collected(roots, term) ::
      exists n, default | RootOf(roots, n, default) :: ValidHit(r, n, term, default)
  {
    ScanGroupHits(roots.startMenu, term, Shortcut);
    ScanGroupHits(roots.programFiles, term, Application);
    ScanEachFolderHits(roots.knownFolders, term);
    if roots.desktop.Some? {
      ScanHits(roots.desktop.value, term, Shortcut);
    }
    forall r | r in Collected(roots, term)
      ensures exists n, default | RootOf(roots, n, default) :: ValidHit(r, n, term, default)
    {
      if r in Contribution(ScanGroup(roots.startMenu, term, Shortcut)) {
        var n :| Some(n) in roots.startMenu && ValidHit(r, n, term, Shortcut);
        assert RootOf(roots, n, Shortcut);
      } else if r in Contribution(ScanRoot(roots.desktop, term, Shortcut)) {
        assert RootOf(roots, roots.desktop.value, Shortcut);
      } else if r in ScanEachFolder(roots.knownFolders, term) {
        var n :| Some(n) in roots.knownFolders && ValidHit(r, n, term, Folder);
        assert RootOf(roots, n, Folder);
      } else {
        var n :| Some(n) in roots.programFiles && ValidHit(r, n, term, Application);
        assert RootOf(roots, n, Application);
      }
    }
  }

  /** `Take(50)`: the first fifty of the collected hits, in the order collected. */
  function Cap(rs: seq<SearchResult>): (r: seq<SearchResult>)
    ensures |r| == if |rs| < MaxResults then |rs| else MaxResults
    ensures multiset(r) <= multiset(rs)
  {
    if |rs| <= MaxResults then rs
    else
      assert rs == rs[..MaxResults] + rs[MaxResults..];
      rs[..MaxResults]
  }

  /** The outcome of passing the gate: the search's own result, which never fails. */
  predicate SearchAnswer(r: seq<SearchResult>, roots: SearchRoots, term: string) {
    var all := Collected(roots, term);
    |r| == (if |all| < MaxResults then |all| else MaxResults) && multiset(r) <= multiset(all)
  }

  /** Any search answer holds at most fifty hits, each of which matches the term. */
  lemma AnswerHits(r: seq<SearchResult>, roots: SearchRoots, term: string)
    requires SearchAnswer(r, roots, term)
    ensures |r| <= MaxResults
    ensures forall h | h in r :: Matches(h.name, term)
    ensures forall h | h in r :: exists n, default | RootOf(roots, n, default) :: ValidHit(h, n, term, default)
  {
    CollectedHits(roots, term);
    forall h | h in r ensures h in Collected(roots, term) {
      assert h in multiset(r);
    }
  }

  class ApplicationSearchService {
    /** Free permits of the search gate; nothing ever releases one. */
    var permits: nat
    /** Searches that have taken a permit. */
    ghost var admitted: nat
    const cache: SearchCache.Cache

    ghost predicate Valid()
      reads this
    {
      permits + admitted == GatePermits
    }

    constructor ()
      ensures Valid() && permits == GatePermits && admitted == 0
      ensures fresh(cache) && cache.entries == map[]
    {
      permits := GatePermits;
      admitted := 0;
      cache := new SearchCache.Cache();
    }

    /**
     * `PerformSearchAsync`. `cancelledAtGate` says the cancellation token is, or
     * becomes, cancelled before the gate admits this call. `None` is a call that never
     * completes: it waits at a gate without permits and nothing cancels it.
     * A blank term answers an empty list at once; a cancelled wait answers an empty
     * list; an admitted call takes a permit and answers at most fifty collected hits.
     */
    method PerformSearch(term: string, roots: SearchRoots, cancelledAtGate: bool)
      returns (r: Option<seq<SearchResult>>)
      requires Valid() && roots.WellFormed()
      modifies this`permits, this`admitted
      ensures Valid() && admitted <= GatePermits
      ensures Text.IsNullOrWhiteSpace(term) || cancelledAtGate ==> r == Some([]) && permits == old(permits)
      ensures !Text.IsNullOrWhiteSpace(term) && !cancelledAtGate && old(permits) == 0 ==> r == None && permits == 0
      ensures !Text.IsNullOrWhiteSpace(term) && !cancelledAtGate && old(permits) > 0 ==>
        permits == old(permits) - 1 && r.Some? && SearchAnswer(r.value, roots, term)
    {
      if Text.IsNullOrWhiteSpace(term) {
        return Some([]);
      }
      if cancelledAtGate {
        return Some([]);
      }
      if permits == 0 {
        return None;
      }
      permits := permits - 1;
      admitted := admitted + 1;
      var bag := Collected(roots, term);
      return Some(Cap(bag));
    }

    /**
     * `SearchApplicationsAsync` at time `now`: the cache answers, or calls
     * `PerformSearch`, whose answer is stored when it completes at `finishedAt`.
     */
    method SearchApplications(term: string, roots: SearchRoots, cancelledAtGate: bool, now: int, finishedAt: int)
      returns (r: Option<seq<SearchResult>>)
      requires Valid() && roots.WellFormed()
      modifies this`permits, this`admitted, cache
      ensures Valid()
      ensures SearchCache.Lookup(old(cache.entries), term, now).Some? ==>
        r == SearchCache.Lookup(old(cache.entries), term, now) && permits == old(permits)
        && cache.entries == old(cache.entries)
      ensures SearchCache.Lookup(old(cache.entries), term, now).None? && !cancelledAtGate && old(permits) == 0 ==>
        r == None && cache.entries == old(cache.entries)
      ensures SearchCache.Lookup(old(cache.entries), term, now).None? && (cancelledAtGate || old(permits) > 0) ==>
        r.Some?
        && cache.entries == SearchCache.TryAdd(old(cache.entries), SearchCache.Key(term),
                                               SearchCache.CachedSearchResult(r.value, finishedAt))
        && (cancelledAtGate ==> r.value == [])
        && (!cancelledAtGate ==> permits == old(permits) - 1 && SearchAnswer(r.value, roots, term))
    {
      var cached := SearchCache.Lookup(cache.entries, term, now);
      var found: seq<SearchResult> := [];
      if cached.None? {
        var outcome := PerformSearch(term, roots, cancelledAtGate);
        if outcome.None? {
          return None;
        }
        found := outcome.value;
      }
      var answer, searched := cache.GetCachedSearch(term, now, found, finishedAt);
      r := Some(answer);
    }
  }
}
