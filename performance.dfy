/**
 * `PerformanceMonitor`: named timing and memory metrics. Each metric owns a
 * stopwatch, the list of measured execution times, the list of recorded memory
 * readings and a call count; the monitor maps operation names to metrics.
 * Durations and readings are integers (milliseconds and bytes); the stopwatch
 * reads the clock through the `now` argument of `Start` and `Stop`.
 */
module Performance {

  /** The value of one metric: its two lists, its call count and its stopwatch. */
  datatype MetricState = MetricState(
    executionTimes: seq<int>,
    memoryUsage: seq<int>,
    callCount: int,
    running: bool,
    startedAt: int,
    elapsed: int)

  /** A new metric: nothing recorded, the stopwatch stopped at zero. */
  const NewMetric := MetricState([], [], 0, false, 0, 0)

  /** One call count per recorded execution time. */
  predicate Consistent(m: MetricState) {
    m.callCount == |m.executionTimes|
  }

  /** `Start`: the stopwatch is reset and started at `now`. */
  function Started(m: MetricState, now: int): (r: MetricState)
    ensures r.running && ElapsedAt(r, now) == 0
    ensures r.executionTimes == m.executionTimes && r.memoryUsage == m.memoryUsage && r.callCount == m.callCount
  {
    m.(running := true, startedAt := now, elapsed := 0)
  }

  /** What the stopwatch shows once stopped at `now`. */
  function ElapsedAt(m: MetricState, now: int): int {
    if m.running then m.elapsed + (now - m.startedAt) else m.elapsed
  }

  /** `Stop`: the stopwatch stops, its reading is added to the execution times and the call count goes up by one. */
  function Stopped(m: MetricState, now: int): (r: MetricState)
    ensures !r.running && r.elapsed == ElapsedAt(m, now)
    ensures r.executionTimes == m.executionTimes + [ElapsedAt(m, now)] && r.callCount == m.callCount + 1
    ensures r.memoryUsage == m.memoryUsage
    ensures Consistent(m) ==> Consistent(r)
  {
    var e := ElapsedAt(m, now);
    m.(running := false, elapsed := e, executionTimes := m.executionTimes + [e], callCount := m.callCount + 1)
  }

  /** `RecordMemory`: the reading is added to the memory list. */
  function Recorded(m: MetricState, bytes: int): (r: MetricState)
    ensures r.memoryUsage == m.memoryUsage + [bytes]
    ensures r.executionTimes == m.executionTimes && r.callCount == m.callCount && r.running == m.running
    ensures Consistent(r) <==> Consistent(m)
  {
    m.(memoryUsage := m.memoryUsage + [bytes])
  }

  /** Every operation on a metric keeps the call count equal to the number of execution times. */
  lemma ConsistentPreserved(m: MetricState, now: int, bytes: int)
    requires Consistent(m)
    ensures Consistent(NewMetric)
    ensures Consistent(Started(m, now)) && Consistent(Stopped(m, now)) && Consistent(Recorded(m, bytes))
    ensures Stopped(m, now).callCount == m.callCount + 1
  {
  }

  /** A start at `t0` followed by a stop at `t1` records the duration `t1 - t0` as one more call. */
  lemma StartStopMeasures(m: MetricState, t0: int, t1: int)
    ensures Stopped(Started(m, t0), t1).executionTimes == m.executionTimes + [t1 - t0]
    ensures Stopped(Started(m, t0), t1).callCount == m.callCount + 1
    ensures Stopped(Started(m, t0), t1).memoryUsage == m.memoryUsage
  {
  }

  /** Stopping a stopwatch that is not running records the same reading again. */
  lemma StopTwiceRepeats(m: MetricState, t1: int, t2: int)
    ensures var once := Stopped(m, t1);
      Stopped(once, t2).executionTimes == once.executionTimes + [once.elapsed]
  {
  }

  /** Recording memory leaves the timings and the call count alone. */
  lemma RecordedKeepsTimes(m: MetricState, bytes: int)
    ensures Recorded(m, bytes).executionTimes == m.executionTimes
    ensures Recorded(m, bytes).callCount == m.callCount
    ensures Recorded(m, bytes).memoryUsage[..|m.memoryUsage|] == m.memoryUsage
  {
  }

  /** `Sum()` of a list of times. */
  function Sum(s: seq<int>): int {
    if s == [] then 0 else Sum(s[..|s| - 1]) + s[|s| - 1]
  }

  lemma SumAppend(s: seq<int>, x: int)
    ensures Sum(s + [x]) == Sum(s) + x
  {
    assert (s + [x])[..|s|] == s;
  }

  /** Times that are never negative add up to at least each of them. */
  lemma {:induction false} SumBounds(s: seq<int>)
    requires forall k | 0 <= k < |s| :: s[k] >= 0
    ensures Sum(s) >= 0
    ensures forall k | 0 <= k < |s| :: s[k] <= Sum(s)
  {
    if s != [] {
      SumBounds(s[..|s| - 1]);
      assert forall k | 0 <= k < |s| - 1 :: s[..|s| - 1][k] == s[k];
    }
  }

  /** `Any() ? Min() : 0`. */
  function MinOrZero(s: seq<int>): (r: int)
    ensures s == [] ==> r == 0
    ensures s != [] ==> r in s && forall x | x in s :: r <= x
  {
    if s == [] then 0
    else if |s| == 1 then s[0]
    else
      var rest := MinOrZero(s[1..]);
      assert forall x | x in s :: x == s[0] || x in s[1..];
      if s[0] <= rest then s[0] else rest
  }

  /** `Any() ? Max() : 0`. */
  function MaxOrZero(s: seq<int>): (r: int)
    ensures s == [] ==> r == 0
    ensures s != [] ==> r in s && forall x | x in s :: x <= r
  {
    if s == [] then 0
    else if |s| == 1 then s[0]
    else
      var rest := MaxOrZero(s[1..]);
      assert forall x | x in s :: x == s[0] || x in s[1..];
      if s[0] >= rest then s[0] else rest
  }

  /** `Any() ? Last() : 0`. */
  function LastOrZero(s: seq<int>): int {
    if s == [] then 0 else s[|s| - 1]
  }

  /** `PerformanceMetricSummary`, without the floating-point average. */
  datatype Summary = Summary(
    callCount: int,
    totalTime: int,
    minTime: int,
    maxTime: int,
    currentMemory: int,
    peakMemory: int)

  /**
   * `GetSummary`: the total of the times, their least and greatest (0 when there are
   * none), the last memory reading and the greatest one (0 when there are none).
   */
  function Summarize(m: MetricState): (s: Summary)
    ensures s.callCount == m.callCount
    ensures s.minTime <= s.maxTime
    ensures forall t | t in m.executionTimes :: s.minTime <= t <= s.maxTime
    ensures m.executionTimes == [] ==> s.minTime == 0 && s.maxTime == 0
    ensures m.executionTimes != [] ==> s.minTime in m.executionTimes && s.maxTime in m.executionTimes
    ensures s.currentMemory <= s.peakMemory
    ensures forall b | b in m.memoryUsage :: b <= s.peakMemory
    ensures m.memoryUsage == [] ==> s.currentMemory == 0 && s.peakMemory == 0
    ensures m.memoryUsage != [] ==> s.currentMemory == m.memoryUsage[|m.memoryUsage| - 1] && s.peakMemory in m.memoryUsage
  {
    var times, memory := m.executionTimes, m.memoryUsage;
    assert memory != [] ==> memory[|memory| - 1] in memory;
    Summary(m.callCount, Sum(times), MinOrZero(times), MaxOrZero(times), LastOrZero(memory), MaxOrZero(memory))
  }

  /** Stopping adds the measured time to the total and keeps the extremes around it. */
  lemma SummaryAfterStop(m: MetricState, now: int)
    ensures var before, after := Summarize(m), Summarize(Stopped(m, now));
      var e := ElapsedAt(m, now);
      after.totalTime == before.totalTime + e
      && after.callCount == before.callCount + 1
      && after.minTime <= e <= after.maxTime
      && (m.executionTimes != [] ==> after.minTime <= before.minTime && before.maxTime <= after.maxTime)
  {
    SumAppend(m.executionTimes, ElapsedAt(m, now));
    MinMaxAppend(m.executionTimes, ElapsedAt(m, now));
  }

  /** One metric, updated in place. */
  class PerformanceMetric {
    var executionTimes: seq<int>
    var memoryUsage: seq<int>
    var callCount: int
    var running: bool
    var startedAt: int
    var elapsed: int

    function State(): MetricState
      reads this
    {
      MetricState(executionTimes, memoryUsage, callCount, running, startedAt, elapsed)
    }

    constructor ()
      ensures State() == NewMetric
    {
      executionTimes, memoryUsage, callCount := [], [], 0;
      running, startedAt, elapsed := false, 0, 0;
    }

    /** `Start`: `Stopwatch.Restart`. */
    method Start(now: int)
      modifies this
      ensures State() == Started(old(State()), now)
    {
      running, startedAt, elapsed := true, now, 0;
    }

    /** `Stop`: stops the stopwatch, then records its reading and counts the call. */
    method Stop(now: int)
      modifies this
      ensures State() == Stopped(old(State()), now)
    {
      if running {
        elapsed := elapsed + (now - startedAt);
        running := false;
      }
      executionTimes := executionTimes + [elapsed];
      callCount := callCount + 1;
    }

    method RecordMemory(bytes: int)
      modifies this
      ensures State() == Recorded(old(State()), bytes)
    {
      memoryUsage := memoryUsage + [bytes];
    }

    /** `GetSummary`. */
    method GetSummary() returns (s: Summary)
      ensures s == Summarize(State())
    {
      var total, least, greatest := TimeFigures(executionTimes);
      var current, peak := MemoryFigures(memoryUsage);
      s := Summary(callCount, total, least, greatest, current, peak);
    }
  }

  /** The total, least and greatest of the execution times, in one pass. */
  method TimeFigures(times: seq<int>) returns (total: int, least: int, greatest: int)
    ensures total == Sum(times) && least == MinOrZero(times) && greatest == MaxOrZero(times)
  {
    total, least, greatest := 0, 0, 0;
    for k := 0 to |times|
      invariant total == Sum(times[..k])
      invariant least == MinOrZero(times[..k]) && greatest == MaxOrZero(times[..k])
    {
      assert times[..k + 1] == times[..k] + [times[k]];
      SumAppend(times[..k], times[k]);
      MinMaxAppend(times[..k], times[k]);
      total := total + times[k];
      if k == 0 || times[k] < least {
        least := times[k];
      }
      if k == 0 || times[k] > greatest {
        greatest := times[k];
      }
    }
    assert times[..|times|] == times;
  }

  /** The last and the greatest memory reading, in one pass. */
  method MemoryFigures(memory: seq<int>) returns (current: int, peak: int)
    ensures current == LastOrZero(memory) && peak == MaxOrZero(memory)
  {
    current, peak := 0, 0;
    for k := 0 to |memory|
      invariant peak == MaxOrZero(memory[..k]) && current == LastOrZero(memory[..k])
    {
      assert memory[..k + 1] == memory[..k] + [memory[k]];
      MinMaxAppend(memory[..k], memory[k]);
      current := memory[k];
      if k == 0 || memory[k] > peak {
        peak := memory[k];
      }
    }
    assert memory[..|memory|] == memory;
  }

  /** The least and greatest after one more element. */
  lemma MinMaxAppend(s: seq<int>, x: int)
    ensures MinOrZero(s + [x]) == if s == [] || x < MinOrZero(s) then x else MinOrZero(s)
    ensures MaxOrZero(s + [x]) == if s == [] || x > MaxOrZero(s) then x else MaxOrZero(s)
  {
    var t := s + [x];
    if s == [] {
      assert t == [x];
    } else {
      assert forall y | y in t :: y in s || y == x;
      var least := if x < MinOrZero(s) then x else MinOrZero(s);
      var greatest := if x > MaxOrZero(s) then x else MaxOrZero(s);
      assert least in t && greatest in t;
      assert MinOrZero(t) <= least && least <= MinOrZero(t);
      assert MaxOrZero(t) >= greatest && greatest >= MaxOrZero(t);
    }
  }

  /** The outcome of the measured operation: its value or the exception it raised. */
  datatype Outcome<T> = Returned(value: T) | Threw(error: string)

  /** The monitor: operation names mapped to distinct metrics. */
  class PerformanceMonitor {
    var metrics: map<string, PerformanceMetric>

    /** No two names share a metric. */
    ghost predicate Valid()
      reads this
    {
      forall a, b | a in metrics && b in metrics && a != b :: metrics[a] != metrics[b]
    }

    /** The value of every metric, by name. */
    function Snapshot(): map<string, MetricState>
      reads this, metrics.Values
    {
      map name | name in metrics :: metrics[name].State()
    }

    constructor ()
      ensures Valid() && Snapshot() == map[]
    {
      metrics := map[];
    }

    /** `StartTimer`: the metric for `name` (`GetOrAdd`: created when unseen) is started at `now`. */
    method StartTimer(name: string, now: int)
      requires Valid()
      modifies this, metrics.Values
      ensures Valid()
      ensures forall n | n in metrics :: (n in old(metrics) && metrics[n] == old(metrics)[n]) || fresh(metrics[n])
      ensures Snapshot() == old(Snapshot())[name := Started(if name in old(Snapshot()) then old(Snapshot())[name] else NewMetric, now)]
    {
      if name in metrics {
        var m := metrics[name];
        m.Start(now);
        assert forall other | other in metrics && other != name :: metrics[other] != m;
      } else {
        var m := new PerformanceMetric();
        m.Start(now);
        metrics := metrics[name := m];
      }
    }

    /** `StopTimer`: the metric for `name` is stopped at `now`; an unknown name changes nothing. */
    method StopTimer(name: string, now: int)
      requires Valid()
      modifies metrics.Values
      ensures Valid()
      ensures name in old(Snapshot()) ==> Snapshot() == old(Snapshot())[name := Stopped(old(Snapshot())[name], now)]
      ensures name !in old(Snapshot()) ==> Snapshot() == old(Snapshot())
    {
      if name in metrics {
        var m := metrics[name];
        m.Stop(now);
        assert forall other | other in metrics && other != name :: metrics[other] != m;
      }
    }

    /** `RecordMemoryUsage`: the reading goes to the metric for `name`, created when unseen. */
    method RecordMemoryUsage(name: string, bytes: int)
      requires Valid()
      modifies this, metrics.Values
      ensures Valid()
      ensures Snapshot() == old(Snapshot())[name := Recorded(if name in old(Snapshot()) then old(Snapshot())[name] else NewMetric, bytes)]
    {
      if name in metrics {
        var m := metrics[name];
        m.RecordMemory(bytes);
        assert forall other | other in metrics && other != name :: metrics[other] != m;
      } else {
        var m := new PerformanceMetric();
        m.RecordMemory(bytes);
        metrics := metrics[name := m];
      }
    }

    /**
     * `MeasureAsync`: the timer is started at `start`, the operation runs and the timer
     * is stopped at `finish` whether the operation returned or threw; its outcome is
     * passed on unchanged.
     */
    method Measure<T>(name: string, start: int, outcome: Outcome<T>, finish: int) returns (r: Outcome<T>)
      requires Valid()
      modifies this, metrics.Values
      ensures Valid()
      ensures r == outcome
      ensures name in Snapshot()
      ensures Snapshot() == old(Snapshot())[name := Stopped(Started(if name in old(Snapshot()) then old(Snapshot())[name] else NewMetric, start), finish)]
    {
      StartTimer(name, start);
      r := outcome;
      StopTimer(name, finish);
    }

    /** `ResetMetrics`: no metric is left. */
    method ResetMetrics()
      modifies this
      ensures Valid() && Snapshot() == map[]
    {
      metrics := map[];
    }

    /** `GetReport().Metrics`: the summary of every metric, by name. */
    method GetReport() returns (report: map<string, Summary>)
      ensures report.Keys == Snapshot().Keys
      ensures forall name | name in report :: report[name] == Summarize(Snapshot()[name])
    {
      report := map[];
      var names := metrics.Keys;
      while names != {}
        invariant names <= metrics.Keys
        invariant report.Keys == metrics.Keys - names
        invariant forall name | name in report :: report[name] == Summarize(metrics[name].State())
        decreases |names|
      {
        var name :| name in names;
        var s := metrics[name].GetSummary();
        report := report[name := s];
        names := names - {name};
      }
    }
  }
}
