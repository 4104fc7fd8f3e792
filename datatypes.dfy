/** The triage metrics value types: a `Case` with its derived times and SLA rule,
    the `QueueStats` snapshot record and the end-of-episode `EpisodeMetrics`
    with its derived statistics. Times, rates and thresholds are exact reals. */
module TriageTypes {
  import opened Sorting

  datatype Option<T> = None | Some(value: T)

  /** The one error of this module: a turnaround time asked of a case with no completion time. */
  datatype CaseError = NotCompleted(caseId: int)

  datatype Result<T> = Success(value: T) | Failure(error: CaseError)

  /** One imaging case; `completionTime` is absent until the case is read. */
  datatype Case = Case(
    id: int,
    arrivalTime: real,
    trueUrgent: bool,
    predUrgency: real,
    uncertainty: real,
    readTime: real,
    completionTime: Option<real> := None)
  {
    predicate Completed() {
      completionTime.Some?
    }

    /** Completion minus arrival; fails for a case that has not been completed. */
    function TurnaroundTime(): (r: Result<real>)
      ensures r.Success? <==> Completed()
      ensures r.Failure? ==> r.error == NotCompleted(id)
      ensures r.Success? ==> arrivalTime + r.value == completionTime.value
    {
      if completionTime.None? then Failure(NotCompleted(id))
      else Success(completionTime.value - arrivalTime)
    }

    /** Time spent so far: the turnaround once completed, otherwise the clock's distance from arrival. */
    function WaitTime(currentTime: real): (r: real)
      ensures Completed() ==> r == TurnaroundTime().value
      ensures !Completed() ==> arrivalTime + r == currentTime
    {
      if completionTime.Some? then completionTime.value - arrivalTime
      else currentTime - arrivalTime
    }

    /** An urgent case read later than the threshold after it arrived. */
    function IsSlaViolated(slaThreshold: real): (v: bool)
      ensures !Completed() ==> !v
      ensures !trueUrgent ==> !v
      ensures Completed() ==> (v <==> trueUrgent && TurnaroundTime().value > slaThreshold)
    {
      if completionTime.None? then false
      else trueUrgent && TurnaroundTime().value > slaThreshold
    }
  }

  /** A completed case's wait time no longer depends on the clock. */
  lemma WaitTimeFrozenOnCompletion(c: Case, t1: real, t2: real)
    requires c.Completed()
    ensures c.WaitTime(t1) == c.WaitTime(t2)
  {
  }

  /** A point-in-time snapshot of the waiting queue. */
  datatype QueueStats = QueueStats(
    currentTime: real,
    queueLength: int,
    urgentCount: int,
    nonUrgentCount: int,
    maxWaitTime: real,
    avgWaitTime: real)

  /** Index of the 90th percentile in an ascending list of `n` elements: `int(0.9 * n)`. */
  function P90Index(n: nat): (i: nat)
    ensures 10 * i <= 9 * n < 10 * (i + 1)
    ensures n > 0 ==> i < n
  {
    (9 * n) / 10
  }

  /** The median formula on an ascending list: its middle element, or the mean of its two
      middle elements when the length is even. */
  function Middle(t: seq<real>): (m: real)
    requires t != []
  {
    var n := |t|;
    if n % 2 == 0 then (t[n / 2 - 1] + t[n / 2]) / 2.0 else t[n / 2]
  }

  /** Taken from any permutation of `s`, the median formula stays within `s`'s extremes,
      and for an odd length it is an element of `s`. */
  lemma MiddleWithinRange(s: seq<real>, t: seq<real>)
    requires multiset(s) == multiset(t) && t != []
    ensures s != [] && SeqMin(s) <= Middle(t) <= SeqMax(s)
    ensures |t| % 2 == 1 ==> Middle(t) in s
  {
    var n := |t|;
    if n % 2 == 0 {
      PermutationMean(s, t, n / 2 - 1, n / 2);
    } else {
      PermutationElement(s, t, n / 2);
    }
  }

  /** The statistics of one finished episode. */
  datatype EpisodeMetrics = EpisodeMetrics(
    completedCases: int,
    urgentTats: seq<real>,
    nonUrgentTats: seq<real>,
    slaViolations: int,
    totalUrgent: int,
    maxNonUrgentWait: real,
    episodeDuration: real)
  {
    /** Median urgent turnaround time, 0.0 when there is none: the middle element of the
        sorted copy, or the mean of the two middle elements for an even count. */
    function UrgentMedianTat(): (r: real)
      ensures urgentTats == [] ==> r == 0.0
      ensures urgentTats != [] ==> SeqMin(urgentTats) <= r <= SeqMax(urgentTats)
      ensures |urgentTats| % 2 == 1 ==> r in urgentTats
    {
      if urgentTats == [] then 0.0
      else
        var sorted := Sort(urgentTats);
        MiddleWithinRange(urgentTats, sorted);
        Middle(sorted)
    }

    /** 90th-percentile urgent turnaround time, 0.0 when there is none: the element at
        `int(0.9 * n)` of the sorted copy, clamped to the last index. */
    function UrgentP90Tat(): (r: real)
      ensures urgentTats == [] ==> r == 0.0
      ensures urgentTats != [] ==> r in urgentTats
      ensures urgentTats != [] ==> SeqMin(urgentTats) <= r <= SeqMax(urgentTats)
    {
      if urgentTats == [] then 0.0
      else
        var sorted := Sort(urgentTats);
        var idx := P90Index(|sorted|);
        var k := if idx < |sorted| - 1 then idx else |sorted| - 1;
        PermutationElement(urgentTats, sorted, k);
        sorted[k]
    }

    /** Share of urgent cases that violated the SLA, 0.0 when there were none. */
    function SlaViolationRate(): (r: real)
      ensures totalUrgent == 0 ==> r == 0.0
      ensures totalUrgent != 0 ==> r * (totalUrgent as real) == slaViolations as real
    {
      if totalUrgent == 0 then 0.0
      else (slaViolations as real) / (totalUrgent as real)
    }

    /** Completed cases per hour of an episode measured in minutes, 0.0 for a zero duration. */
    function Throughput(): (r: real)
      ensures episodeDuration == 0.0 ==> r == 0.0
      ensures episodeDuration != 0.0 ==> r * episodeDuration == (completedCases as real) * 60.0
    {
      if episodeDuration == 0.0 then 0.0
      else (completedCases as real) / (episodeDuration / 60.0)
    }
  }

  /** The median only depends on the ascending arrangement, which is unique: computing it
      from any sorted permutation of the turnaround times gives the same value. */
  lemma MedianOfAnySortedCopy(m: EpisodeMetrics, t: seq<real>)
    requires SortedAsc(t) && multiset(t) == multiset(m.urgentTats) && t != []
    ensures m.UrgentMedianTat() == Middle(t)
  {
    assert m.urgentTats != [] by { assert |m.urgentTats| == |multiset(t)| == |t|; }
    SortedUnique(Sort(m.urgentTats), t);
  }

  /** Likewise the 90th percentile is the element at `int(0.9 * n)` of any sorted permutation;
      that index is always in range, so the clamp to the last index never applies. */
  lemma P90OfAnySortedCopy(m: EpisodeMetrics, t: seq<real>)
    requires SortedAsc(t) && multiset(t) == multiset(m.urgentTats) && t != []
    ensures P90Index(|t|) < |t|
    ensures m.UrgentP90Tat() == t[P90Index(|t|)]
  {
    assert m.urgentTats != [] by { assert |m.urgentTats| == |multiset(t)| == |t|; }
    SortedUnique(Sort(m.urgentTats), t);
  }

  /** The median splits the urgent turnaround times: at least half of them lie at or below
      it and at least half at or above it. */
  lemma MedianSplits(m: EpisodeMetrics)
    requires m.urgentTats != []
    ensures 2 * Count(m.urgentTats, AtMost(m.UrgentMedianTat())) >= |m.urgentTats|
    ensures 2 * Count(m.urgentTats, AtLeast(m.UrgentMedianTat())) >= |m.urgentTats|
  {
    var t := Sort(m.urgentTats);
    var n := |t|;
    var r := m.UrgentMedianTat();
    MedianOfAnySortedCopy(m, t);
    var lo := if n % 2 == 0 then n / 2 - 1 else n / 2;
    assert t[lo] <= r <= t[n / 2] by {
      assert lo == n / 2 || t[lo] <= t[n / 2];
    }
    SortedCountAtMost(t, lo, r);
    SortedCountAtLeast(t, n / 2, r);
    CountPermutation(m.urgentTats, t, AtMost(r));
    CountPermutation(m.urgentTats, t, AtLeast(r));
  }

  /** More than 90% of the urgent turnaround times lie at or below the 90th percentile. */
  lemma P90Covers(m: EpisodeMetrics)
    requires m.urgentTats != []
    ensures 10 * Count(m.urgentTats, AtMost(m.UrgentP90Tat())) > 9 * |m.urgentTats|
  {
    var t := Sort(m.urgentTats);
    var r := m.UrgentP90Tat();
    P90OfAnySortedCopy(m, t);
    SortedCountAtMost(t, P90Index(|t|), r);
    CountPermutation(m.urgentTats, t, AtMost(r));
  }

  /** With at most as many violations as urgent cases, the rate is a fraction in [0, 1]. */
  lemma SlaViolationRateIsFraction(m: EpisodeMetrics)
    requires 0 <= m.slaViolations <= m.totalUrgent
    ensures 0.0 <= m.SlaViolationRate() <= 1.0
  {
  }

  /** With a threshold of 30, an urgent case read 45 after arrival violates the SLA and
      one read 20 after arrival does not. */
  lemma SlaExample()
    ensures Case(1, 0.0, true, 0.0, 0.0, 0.0, Some(45.0)).IsSlaViolated(30.0)
    ensures !Case(2, 0.0, true, 0.0, 0.0, 0.0, Some(20.0)).IsSlaViolated(30.0)
  {
  }

  /** The urgent turnaround times 10, 20, 30, 40 have median 25. */
  lemma MedianExample(m: EpisodeMetrics)
    requires m.urgentTats == [10.0, 20.0, 30.0, 40.0]
    ensures m.UrgentMedianTat() == 25.0
  {
    var t := m.urgentTats;
    assert SortedAsc(t);
    assert Middle(t) == (20.0 + 30.0) / 2.0 by {
      assert |t| / 2 == 2 && t[1] == 20.0 && t[2] == 30.0;
    }
    MedianOfAnySortedCopy(m, t);
  }

  /** The urgent turnaround times 10, 20, 30, 40 have their 90th percentile at index 3: 40. */
  lemma P90Example(m: EpisodeMetrics)
    requires m.urgentTats == [10.0, 20.0, 30.0, 40.0]
    ensures m.UrgentP90Tat() == 40.0
  {
    var t := m.urgentTats;
    assert SortedAsc(t);
    assert P90Index(4) == 3;
    P90OfAnySortedCopy(m, t);
  }

  /** Twelve cases over 60 minutes are twelve per hour. */
  lemma ThroughputExample()
    ensures EpisodeMetrics(12, [], [], 0, 0, 0.0, 60.0).Throughput() == 12.0
  {
  }
}
