/** The time window, starting at some entry's timestamp, that takes in the
    longest run of consecutive entries. */
module PeakWindow {
  import opened LogRecord

  /** The end of the run of entries from index j on whose timestamps are at
      most limit: the first index at or after j past the limit, or the end. */
  function RunEnd(entries: seq<LogEntry>, j: nat, limit: int): (e: nat)
    requires j <= |entries|
    ensures j <= e <= |entries|
    ensures e < |entries| ==> entries[e].timestamp > limit
    decreases |entries| - j
  {
    if j == |entries| || entries[j].timestamp > limit then j
    else RunEnd(entries, j + 1, limit)
  }

  /** Every entry of the run lies inside the window. */
  lemma {:induction false} RunInside(entries: seq<LogEntry>, j: nat, limit: int)
    requires j <= |entries|
    ensures forall k :: j <= k < RunEnd(entries, j, limit) ==> entries[k].timestamp <= limit
    decreases |entries| - j
  {
    if j < |entries| && entries[j].timestamp <= limit {
      RunInside(entries, j + 1, limit);
    }
  }

  /** How many entries, counted forward from index i and stopping at the first
      one past the window end, fall into the window starting at entry i. */
  function WindowCount(entries: seq<LogEntry>, i: nat, windowSize: int): nat
    requires i < |entries|
  {
    RunEnd(entries, i, entries[i].timestamp + windowSize) - i
  }

  /** A window of positive size takes in at least the entry it starts at. */
  lemma WindowCountPositive(entries: seq<LogEntry>, i: nat, windowSize: int)
    requires i < |entries| && windowSize >= 0
    ensures WindowCount(entries, i, windowSize) >= 1
  {
  }

  /** Index b holds the first largest count: no count exceeds it, and every
      earlier count is smaller. */
  predicate IsPeak(entries: seq<LogEntry>, windowSize: int, b: nat)
  {
    && b < |entries|
    && (forall k :: 0 <= k < |entries| ==> WindowCount(entries, k, windowSize) <= WindowCount(entries, b, windowSize))
    && (forall k :: 0 <= k < b ==> WindowCount(entries, k, windowSize) < WindowCount(entries, b, windowSize))
  }

  /** The first index among the first m with the largest count. */
  function BestStart(entries: seq<LogEntry>, windowSize: int, m: nat): (b: nat)
    requires 0 < m <= |entries|
    ensures b < m
    ensures WindowCount(entries, b, windowSize) >= WindowCount(entries, m - 1, windowSize)
  {
    if m == 1 then 0
    else
      var b := BestStart(entries, windowSize, m - 1);
      if WindowCount(entries, m - 1, windowSize) > WindowCount(entries, b, windowSize) then m - 1 else b
  }

  /** BestStart over the first m indices is their first peak. */
  lemma {:induction false} BestStartIsFirstMax(entries: seq<LogEntry>, windowSize: int, m: nat)
    requires 0 < m <= |entries|
    ensures var b := BestStart(entries, windowSize, m);
            && (forall k :: 0 <= k < m ==> WindowCount(entries, k, windowSize) <= WindowCount(entries, b, windowSize))
            && (forall k :: 0 <= k < b ==> WindowCount(entries, k, windowSize) < WindowCount(entries, b, windowSize))
    decreases m
  {
    if m > 1 {
      BestStartIsFirstMax(entries, windowSize, m - 1);
    }
  }

  /** One more index: it becomes the best start exactly when its count beats
      the best so far. */
  lemma BestStartStep(entries: seq<LogEntry>, windowSize: int, i: nat)
    requires i < |entries|
    ensures i == 0 ==> BestStart(entries, windowSize, 1) == 0
    ensures i > 0 ==> var b := BestStart(entries, windowSize, i);
              BestStart(entries, windowSize, i + 1) ==
                if WindowCount(entries, i, windowSize) > WindowCount(entries, b, windowSize) then i else b
  {
  }

  /** What the finder's loop keeps after looking at index i: the first index
      with the largest count so far, and that count. */
  lemma NextBest(entries: seq<LogEntry>, windowSize: int, i: nat, best: nat, maxCount: int, count: int)
    requires i < |entries| && windowSize > 0
    requires i == 0 ==> maxCount == 0
    requires i > 0 ==> best == BestStart(entries, windowSize, i) && maxCount == WindowCount(entries, best, windowSize)
    requires count == WindowCount(entries, i, windowSize)
    ensures var best' := if count > maxCount then i else best;
            && best' == BestStart(entries, windowSize, i + 1)
            && (if count > maxCount then count else maxCount) == WindowCount(entries, best', windowSize)
  {
    WindowCountPositive(entries, i, windowSize);
    BestStartStep(entries, windowSize, i);
  }

  /** There is exactly one first peak, and it is BestStart over all entries. */
  lemma PeakUnique(entries: seq<LogEntry>, windowSize: int, b: nat)
    requires |entries| > 0
    ensures IsPeak(entries, windowSize, BestStart(entries, windowSize, |entries|))
    ensures IsPeak(entries, windowSize, b) ==> b == BestStart(entries, windowSize, |entries|)
  {
    BestStartIsFirstMax(entries, windowSize, |entries|);
  }

  /** The window the finder reports: (0, 0) when there are no entries or the
      size is not positive, and otherwise the window of the first peak. */
  function PeakWindow(entries: seq<LogEntry>, windowSize: int): (w: (int, int))
    ensures |entries| == 0 || windowSize <= 0 ==> w == (0, 0)
    ensures |entries| > 0 && windowSize > 0 ==> w.1 - w.0 == windowSize
  {
    if |entries| == 0 || windowSize <= 0 then (0, 0)
    else
      var b := BestStart(entries, windowSize, |entries|);
      (entries[b].timestamp, entries[b].timestamp + windowSize)
  }

  /** The timestamps of a window of one of the entries, and its width. */
  lemma PeakWindowOfEntry(entries: seq<LogEntry>, windowSize: int)
    requires |entries| > 0 && windowSize > 0
    ensures exists b: nat :: IsPeak(entries, windowSize, b) &&
              PeakWindow(entries, windowSize) == (entries[b].timestamp, entries[b].timestamp + windowSize)
  {
    PeakUnique(entries, windowSize, 0);
  }

  /** Counts the run of entries from i on that fall into the window ending at windowEnd. */
  method CountRun(entries: seq<LogEntry>, i: nat, windowEnd: int) returns (count: nat)
    requires i <= |entries|
    ensures count == RunEnd(entries, i, windowEnd) - i
  {
    count := 0;
    var j := i;
    while j < |entries| && entries[j].timestamp <= windowEnd
      invariant i <= j <= |entries| && count == j - i
      invariant RunEnd(entries, i, windowEnd) == RunEnd(entries, j, windowEnd)
    {
      count := count + 1;
      j := j + 1;
    }
  }

  /** findPeakRequestWindow: the window with the most entries in it. */
  method FindPeakRequestWindow(entries: seq<LogEntry>, windowSize: int) returns (window: (int, int))
    ensures window == PeakWindow(entries, windowSize)
  {
    if |entries| == 0 || windowSize <= 0 {
      return (0, 0);
    }
    var maxStartTime := entries[0].timestamp;
    var maxEndTime := entries[0].timestamp;
    var maxCount := 0;
    ghost var best := 0;
    var i := 0;
    while i < |entries|
      invariant i <= |entries|
      invariant i == 0 ==> maxCount == 0
      invariant i > 0 ==> && best == BestStart(entries, windowSize, i)
                          && maxCount == WindowCount(entries, best, windowSize)
                          && maxStartTime == entries[best].timestamp
                          && maxEndTime == maxStartTime + windowSize
    {
      var windowStart := entries[i].timestamp;
      var windowEnd := windowStart + windowSize;
      var count := CountRun(entries, i, windowEnd);
      NextBest(entries, windowSize, i, best, maxCount, count);
      if count > maxCount {
        maxCount := count;
        maxStartTime := windowStart;
        maxEndTime := windowEnd;
        best := i;
      }
      i := i + 1;
    }
    window := (maxStartTime, maxEndTime);
  }

  /** Three entries ten seconds apart and a fifteen-second window: the windows
      of the first two entries take in two entries each and the last one one,
      so the tie goes to the first. */
  lemma ThreeEntries()
    ensures PeakWindow([LogEntry(0, "a", 500), LogEntry(10, "b", 500), LogEntry(20, "c", 500)], 15) == (0, 15)
  {
    var es := [LogEntry(0, "a", 500), LogEntry(10, "b", 500), LogEntry(20, "c", 500)];
    assert WindowCount(es, 0, 15) == 2;
    assert WindowCount(es, 1, 15) == 2;
    assert WindowCount(es, 2, 15) == 1;
  }
}
