/**
 * `StatisticsService`: per-application and per-group launch counters with a capped
 * usage history, and the queries over them. Times (`DateTime.Now`) are integer
 * ticks passed in by the caller; saving to `statistics.json` is counted, not performed.
 */
module Statistics {
  import opened Wrappers
  import Lists
  import Sorting

  /** Each record keeps at most this many usage times, the most recent ones. */
  const HistoryLimit := 100

  /** `UsageStatistics`: one application, identified by its path. */
  datatype UsageStatistics = UsageStatistics(
    applicationPath: string, applicationName: string,
    launchCount: int, lastUsed: int, usageHistory: seq<int>)

  /** `GroupUsageStatistics`: one group, identified by its name. */
  datatype GroupUsageStatistics = GroupUsageStatistics(
    groupName: string, launchCount: int, lastUsed: int, usageHistory: seq<int>)

  /** What `statistics.json` deserialises to; either list may be absent (null). */
  datatype StatisticsData = StatisticsData(
    applicationStats: Option<seq<UsageStatistics>>, groupStats: Option<seq<GroupUsageStatistics>>)

  /** `Skip(Count - 100)` when the history is over the limit: the most recent entries, in order. */
  function Trimmed(history: seq<int>): (r: seq<int>)
    ensures |history| <= HistoryLimit ==> r == history
    ensures |history| > HistoryLimit ==> |r| == HistoryLimit && r == history[|history| - HistoryLimit..]
  {
    if |history| > HistoryLimit then history[|history| - HistoryLimit..] else history
  }

  /** Trimming after every launch keeps the same entries as trimming once at the end. */
  lemma TrimmedAppend(history: seq<int>, now: int)
    ensures Trimmed(Trimmed(history) + [now]) == Trimmed(history + [now])
  {
    var h := history + [now];
    if |history| > HistoryLimit {
      assert Trimmed(history) + [now] == h[|h| - HistoryLimit - 1..];
    }
  }

  /**
   * A record after one more launch at `now`: counted once more, last used now, and
   * its history is the most recent part of the old one followed by now, at most a
   * hundred entries long.
   */
  function Launched(s: UsageStatistics, now: int): (r: UsageStatistics)
    ensures r.applicationPath == s.applicationPath && r.applicationName == s.applicationName
    ensures r.launchCount == s.launchCount + 1 && r.lastUsed == now
    ensures 0 < |r.usageHistory| <= HistoryLimit && r.usageHistory[|r.usageHistory| - 1] == now
    ensures var kept := r.usageHistory[..|r.usageHistory| - 1];
      |kept| <= |s.usageHistory| && s.usageHistory[|s.usageHistory| - |kept|..] == kept
  {
    var h := s.usageHistory + [now];
    assert Trimmed(h)[..|Trimmed(h)| - 1] == s.usageHistory[|s.usageHistory| - (|Trimmed(h)| - 1)..];
    s.(launchCount := s.launchCount + 1, lastUsed := now, usageHistory := Trimmed(h))
  }

  /** The same for a group record. */
  function GroupLaunched(s: GroupUsageStatistics, now: int): (r: GroupUsageStatistics)
    ensures r.groupName == s.groupName
    ensures r.launchCount == s.launchCount + 1 && r.lastUsed == now
    ensures 0 < |r.usageHistory| <= HistoryLimit && r.usageHistory[|r.usageHistory| - 1] == now
    ensures var kept := r.usageHistory[..|r.usageHistory| - 1];
      |kept| <= |s.usageHistory| && s.usageHistory[|s.usageHistory| - |kept|..] == kept
  {
    var h := s.usageHistory + [now];
    assert Trimmed(h)[..|Trimmed(h)| - 1] == s.usageHistory[|s.usageHistory| - (|Trimmed(h)| - 1)..];
    s.(launchCount := s.launchCount + 1, lastUsed := now, usageHistory := Trimmed(h))
  }

  /** A record as `RecordApplicationLaunch` creates it, before the launch is counted. */
  function NewUsage(applicationPath: string, applicationName: string): UsageStatistics {
    UsageStatistics(applicationPath, applicationName, 0, 0, [])
  }

  function NewGroupUsage(groupName: string): GroupUsageStatistics {
    GroupUsageStatistics(groupName, 0, 0, [])
  }

  /** A record after a series of launches, one at each of `times`, oldest first. */
  function LaunchedAt(s: UsageStatistics, times: seq<int>): UsageStatistics
    decreases |times|
  {
    if times == [] then s else Launched(LaunchedAt(s, times[..|times| - 1]), times[|times| - 1])
  }

  /**
   * A record created by the first of a series of launches counts every launch, was
   * last used at the last one, and remembers the most recent hundred of them.
   */
  lemma {:induction false} LaunchSeries(applicationPath: string, applicationName: string, times: seq<int>)
    requires |times| > 0
    ensures var s := LaunchedAt(NewUsage(applicationPath, applicationName), times);
      s.applicationPath == applicationPath && s.applicationName == applicationName
      && s.launchCount == |times| && s.lastUsed == times[|times| - 1]
      && s.usageHistory == Trimmed(times)
  {
    var init := times[..|times| - 1];
    var now := times[|times| - 1];
    assert times == init + [now];
    if |init| == 0 {
      assert LaunchedAt(NewUsage(applicationPath, applicationName), init) == NewUsage(applicationPath, applicationName);
    } else {
      LaunchSeries(applicationPath, applicationName, init);
      TrimmedAppend(init, now);
    }
  }

  /** `FirstOrDefault(s => s.ApplicationPath == path)`, as an index, or -1. */
  function FindApplication(stats: seq<UsageStatistics>, applicationPath: string): (i: int)
    ensures -1 <= i < |stats|
    ensures 0 <= i ==> stats[i].applicationPath == applicationPath
    ensures forall j | 0 <= j < |stats| && (i < 0 || j < i) :: stats[j].applicationPath != applicationPath
  {
    if stats == [] then -1
    else if stats[0].applicationPath == applicationPath then 0
    else
      var k := FindApplication(stats[1..], applicationPath);
      if k < 0 then -1 else k + 1
  }

  /** `FirstOrDefault(s => s.GroupName == name)`, as an index, or -1. */
  function FindGroup(stats: seq<GroupUsageStatistics>, groupName: string): (i: int)
    ensures -1 <= i < |stats|
    ensures 0 <= i ==> stats[i].groupName == groupName
    ensures forall j | 0 <= j < |stats| && (i < 0 || j < i) :: stats[j].groupName != groupName
  {
    if stats == [] then -1
    else if stats[0].groupName == groupName then 0
    else
      var k := FindGroup(stats[1..], groupName);
      if k < 0 then -1 else k + 1
  }

  /** No two application records share a path. */
  predicate UniquePaths(stats: seq<UsageStatistics>) {
    forall i, j | 0 <= i < j < |stats| :: stats[i].applicationPath != stats[j].applicationPath
  }

  /** No two group records share a name. */
  predicate UniqueGroupNames(stats: seq<GroupUsageStatistics>) {
    forall i, j | 0 <= i < j < |stats| :: stats[i].groupName != stats[j].groupName
  }

  /** No record has a negative launch count. */
  predicate NonNegativeCounts(stats: seq<UsageStatistics>) {
    forall k | 0 <= k < |stats| :: stats[k].launchCount >= 0
  }

  /**
   * `Sum(s => s.LaunchCount)`: zero for no records; with no negative count, never
   * negative and at least each record's count.
   */
  function TotalLaunches(stats: seq<UsageStatistics>): (t: int)
    ensures stats == [] ==> t == 0
    ensures NonNegativeCounts(stats) ==> t >= 0 && forall k | 0 <= k < |stats| :: stats[k].launchCount <= t
  {
    if stats == [] then 0
    else
      var rest := TotalLaunches(stats[1..]);
      assert NonNegativeCounts(stats) ==> NonNegativeCounts(stats[1..]) by {
        if NonNegativeCounts(stats) {
          forall k | 0 <= k < |stats[1..]| ensures stats[1..][k].launchCount >= 0 {
            assert stats[1..][k] == stats[k + 1];
          }
        }
      }
      assert forall k | 1 <= k < |stats| :: stats[k] == stats[1..][k - 1];
      stats[0].launchCount + rest
  }

  lemma {:induction false} TotalLaunchesAppend(stats: seq<UsageStatistics>, s: UsageStatistics)
    ensures TotalLaunches(stats + [s]) == TotalLaunches(stats) + s.launchCount
  {
    if stats != [] {
      assert (stats + [s])[1..] == stats[1..] + [s];
      TotalLaunchesAppend(stats[1..], s);
    }
  }

  lemma {:induction false} TotalLaunchesUpdate(stats: seq<UsageStatistics>, i: nat, s: UsageStatistics)
    requires i < |stats|
    ensures TotalLaunches(stats[i := s]) == TotalLaunches(stats) - stats[i].launchCount + s.launchCount
  {
    if i > 0 {
      assert stats[i := s][1..] == stats[1..][i - 1 := s];
      TotalLaunchesUpdate(stats[1..], i - 1, s);
    }
  }

  function LaunchCountOf(s: UsageStatistics): int { s.launchCount }
  function GroupLaunchCountOf(s: GroupUsageStatistics): int { s.launchCount }
  function LastUsedOf(s: UsageStatistics): int { s.lastUsed }

  /** `Where(s => s.UsageHistory.Any())`, order kept. */
  function WithHistory(stats: seq<UsageStatistics>): (r: seq<UsageStatistics>)
    ensures forall s :: s in multiset(r) ==> s in stats && s.usageHistory != []
    ensures forall s | s in stats && s.usageHistory != [] :: multiset(r)[s] == multiset(stats)[s]
  {
    if stats == [] then []
    else
      var rest := WithHistory(stats[1..]);
      assert stats == [stats[0]] + stats[1..];
      if stats[0].usageHistory != [] then [stats[0]] + rest else rest
  }

  /** The most recent `count` of the applications with a history are applications with a history, and no other is more recent. */
  lemma RecentAmongUsed(stats: seq<UsageStatistics>, count: int)
    ensures var r := Sorting.TopByKey(WithHistory(stats), LastUsedOf, count);
      (forall s | s in r :: s in stats && s.usageHistory != [])
      && (forall x, y | x in stats && x.usageHistory != [] && x !in r && y in r :: x.lastUsed <= y.lastUsed)
  {
    var used := WithHistory(stats);
    var r := Sorting.TopByKey(used, LastUsedOf, count);
    forall x, y | x in stats && x.usageHistory != [] && x !in r && y in r
      ensures x.lastUsed <= y.lastUsed
    {
      assert x in multiset(used);
      assert x !in multiset(r);
    }
    forall s | s in r ensures s in stats && s.usageHistory != [] {
      assert s in multiset(used);
    }
  }

  /** Recording a launch, whether it updates the record found or appends a new one, keeps paths unique. */
  lemma LaunchKeepsPathsUnique(stats: seq<UsageStatistics>, applicationPath: string, applicationName: string, now: int,
                               r: seq<UsageStatistics>)
    requires var i := FindApplication(stats, applicationPath);
      r == if i < 0 then stats + [Launched(NewUsage(applicationPath, applicationName), now)]
           else stats[i := Launched(stats[i], now)]
    ensures UniquePaths(stats) ==> UniquePaths(r)
  {
  }

  /** Recording a launch adds exactly one launch to the total. */
  lemma LaunchCounted(stats: seq<UsageStatistics>, applicationPath: string, applicationName: string, now: int,
                      r: seq<UsageStatistics>)
    requires var i := FindApplication(stats, applicationPath);
      r == if i < 0 then stats + [Launched(NewUsage(applicationPath, applicationName), now)]
           else stats[i := Launched(stats[i], now)]
    ensures TotalLaunches(r) == TotalLaunches(stats) + 1
  {
    var i := FindApplication(stats, applicationPath);
    if i < 0 {
      TotalLaunchesAppend(stats, NewUsage(applicationPath, applicationName));
      var added := stats + [NewUsage(applicationPath, applicationName)];
      TotalLaunchesUpdate(added, |stats|, Launched(NewUsage(applicationPath, applicationName), now));
      assert r == added[|stats| := Launched(NewUsage(applicationPath, applicationName), now)];
    } else {
      TotalLaunchesUpdate(stats, i, Launched(stats[i], now));
    }
  }

  class StatisticsService {
    var applicationStats: seq<UsageStatistics>
    var groupStats: seq<GroupUsageStatistics>
    /** How many times the statistics were written back (`SaveStatistics`). */
    var saves: nat

    /**
     * `LoadStatistics`: the stored lists, with an absent list read as empty; `None`
     * (no file, unreadable file, or a file holding null) starts from empty lists.
     */
    constructor (stored: Option<StatisticsData>)
      ensures stored.None? ==> applicationStats == [] && groupStats == []
      ensures stored.Some? ==>
        applicationStats == stored.value.applicationStats.GetOr([]) && groupStats == stored.value.groupStats.GetOr([])
      ensures saves == 0
    {
      saves := 0;
      match stored
      case Some(data) =>
        applicationStats := data.applicationStats.GetOr([]);
        groupStats := data.groupStats.GetOr([]);
      case None =>
        applicationStats := [];
        groupStats := [];
    }

    /**
     * `RecordApplicationLaunch`: the first record with this path (a new one, appended,
     * when there is none) counts one more launch at `now`; every other record and the
     * group statistics stay as they were.
     */
    method RecordApplicationLaunch(applicationPath: string, applicationName: string, now: int)
      modifies this
      ensures var i := FindApplication(old(applicationStats), applicationPath);
        if i < 0 then
          applicationStats == old(applicationStats) + [Launched(NewUsage(applicationPath, applicationName), now)]
        else
          applicationStats == old(applicationStats)[i := Launched(old(applicationStats)[i], now)]
      ensures UniquePaths(old(applicationStats)) ==> UniquePaths(applicationStats)
      ensures TotalLaunches(applicationStats) == old(TotalLaunches(applicationStats)) + 1
      ensures groupStats == old(groupStats) && saves == old(saves) + 1
    {
      var i := FindApplication(applicationStats, applicationPath);
      if i < 0 {
        applicationStats := applicationStats + [NewUsage(applicationPath, applicationName)];
        i := |applicationStats| - 1;
      }
      applicationStats := applicationStats[i := Launched(applicationStats[i], now)];
      LaunchKeepsPathsUnique(old(applicationStats), applicationPath, applicationName, now, applicationStats);
      LaunchCounted(old(applicationStats), applicationPath, applicationName, now, applicationStats);
      saves := saves + 1;
    }

    /** `RecordGroupLaunch`: as `RecordApplicationLaunch`, keyed by the group name. */
    method RecordGroupLaunch(groupName: string, now: int)
      modifies this
      ensures var i := FindGroup(old(groupStats), groupName);
        if i < 0 then
          groupStats == old(groupStats) + [GroupLaunched(NewGroupUsage(groupName), now)]
        else
          groupStats == old(groupStats)[i := GroupLaunched(old(groupStats)[i], now)]
      ensures UniqueGroupNames(old(groupStats)) ==> UniqueGroupNames(groupStats)
      ensures applicationStats == old(applicationStats) && saves == old(saves) + 1
    {
      var i := FindGroup(groupStats, groupName);
      if i < 0 {
        groupStats := groupStats + [NewGroupUsage(groupName)];
        i := |groupStats| - 1;
      }
      groupStats := groupStats[i := GroupLaunched(groupStats[i], now)];
      saves := saves + 1;
    }

    /** `GetTopApplications(count)`: the most launched applications, most launched first. */
    function GetTopApplications(count: int): (r: seq<UsageStatistics>)
      reads this
      ensures |r| == if count <= 0 then 0 else if |applicationStats| < count then |applicationStats| else count
      ensures multiset(r) <= multiset(applicationStats)
      ensures Sorting.SortedByKey(r, LaunchCountOf)
      ensures forall x, y | x in multiset(applicationStats) - multiset(r) && y in r :: x.launchCount <= y.launchCount
    {
      Sorting.TopByKey(applicationStats, LaunchCountOf, count)
    }

    /** `GetTopGroups(count)`: the most launched groups, most launched first. */
    function GetTopGroups(count: int): (r: seq<GroupUsageStatistics>)
      reads this
      ensures |r| == if count <= 0 then 0 else if |groupStats| < count then |groupStats| else count
      ensures multiset(r) <= multiset(groupStats)
      ensures Sorting.SortedByKey(r, GroupLaunchCountOf)
      ensures forall x, y | x in multiset(groupStats) - multiset(r) && y in r :: x.launchCount <= y.launchCount
    {
      Sorting.TopByKey(groupStats, GroupLaunchCountOf, count)
    }

    /**
     * `GetRecentlyUsedApplications(count)`: among the applications with a usage
     * history, the most recently used ones, latest first.
     */
    function GetRecentlyUsedApplications(count: int): (r: seq<UsageStatistics>)
      reads this
      ensures var used := WithHistory(applicationStats);
        |r| == if count <= 0 then 0 else if |used| < count then |used| else count
      ensures multiset(r) <= multiset(WithHistory(applicationStats))
      ensures forall s | s in r :: s in applicationStats && s.usageHistory != []
      ensures Sorting.SortedByKey(r, LastUsedOf)
      ensures forall x, y | x in applicationStats && x.usageHistory != [] && x !in r && y in r :: x.lastUsed <= y.lastUsed
    {
      RecentAmongUsed(applicationStats, count);
      Sorting.TopByKey(WithHistory(applicationStats), LastUsedOf, count)
    }

    /** `GetTotalLaunches`: application launches only; group launches are not counted. */
    function GetTotalLaunches(): (t: int)
      reads this
      ensures applicationStats == [] ==> t == 0
      ensures NonNegativeCounts(applicationStats) ==>
        t >= 0 && forall k | 0 <= k < |applicationStats| :: applicationStats[k].launchCount <= t
    {
      TotalLaunches(applicationStats)
    }

    /** `ClearStatistics`: both lists emptied, then saved. */
    method ClearStatistics()
      modifies this
      ensures applicationStats == [] && groupStats == [] && saves == old(saves) + 1
    {
      applicationStats := [];
      groupStats := [];
      saves := saves + 1;
    }
  }
}
