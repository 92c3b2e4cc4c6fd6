/** Selection of the entries whose status is a server error (5xx). */
module ErrorFilter {
  import opened LogRecord

  /** A status in the range 500 to 599. */
  predicate Is5xx(entry: LogEntry)
  {
    500 <= entry.status < 600
  }

  /** The 5xx entries of a sequence, in their original order. */
  function Filter5xx(entries: seq<LogEntry>): (r: seq<LogEntry>)
    ensures |r| <= |entries|
    ensures forall k :: 0 <= k < |r| ==> Is5xx(r[k])
  {
    if entries == [] then []
    else
      var last := entries[|entries| - 1];
      Filter5xx(entries[..|entries| - 1]) + if Is5xx(last) then [last] else []
  }

  /** Filtering a concatenation filters each part and keeps the parts in order. */
  lemma {:induction false} FilterAppend(a: seq<LogEntry>, b: seq<LogEntry>)
    ensures Filter5xx(a + b) == Filter5xx(a) + Filter5xx(b)
    decreases |b|
  {
    if b != [] {
      var b' := b[..|b| - 1];
      assert (a + b)[..|a + b| - 1] == a + b';
      FilterAppend(a, b');
    } else {
      assert a + b == a;
    }
  }

  /** A single entry is kept exactly when it is a 5xx entry. */
  lemma FilterSingle(e: LogEntry)
    ensures Filter5xx([e]) == if Is5xx(e) then [e] else []
  {
    assert [e][..0] == [];
  }

  /** Each entry occurs in the result as often as in the input if it is a 5xx
      entry, and not at all otherwise. */
  lemma {:induction false} FilterCounts(entries: seq<LogEntry>)
    ensures forall e :: multiset(Filter5xx(entries))[e] == if Is5xx(e) then multiset(entries)[e] else 0
    decreases |entries|
  {
    if entries != [] {
      var init := entries[..|entries| - 1];
      FilterCounts(init);
      assert entries == init + [entries[|entries| - 1]];
    }
  }

  /** An entry is in the result exactly when it is a 5xx entry of the input. */
  lemma FilterMembers(entries: seq<LogEntry>, e: LogEntry)
    ensures e in Filter5xx(entries) <==> e in entries && Is5xx(e)
  {
    FilterCounts(entries);
    assert e in Filter5xx(entries) <==> multiset(Filter5xx(entries))[e] > 0;
    assert e in entries <==> multiset(entries)[e] > 0;
  }

  /** Input of 5xx entries only is returned unchanged; otherwise something is
      dropped. */
  lemma {:induction false} FilterKeepsAll(entries: seq<LogEntry>)
    ensures Filter5xx(entries) == entries <==> forall k :: 0 <= k < |entries| ==> Is5xx(entries[k])
    decreases |entries|
  {
    if entries != [] {
      var init := entries[..|entries| - 1];
      FilterKeepsAll(init);
      if Filter5xx(entries) == entries {
        assert Filter5xx(init) == entries[..|Filter5xx(init)|];
        assert |Filter5xx(init)| == |init|;
      }
      if forall k :: 0 <= k < |entries| ==> Is5xx(entries[k]) {
        assert forall k :: 0 <= k < |init| ==> Is5xx(init[k]);
        assert entries == init + [entries[|entries| - 1]];
      }
    }
  }

  /** Filtering twice is filtering once. */
  lemma FilterIdempotent(entries: seq<LogEntry>)
    ensures Filter5xx(Filter5xx(entries)) == Filter5xx(entries)
  {
    FilterKeepsAll(Filter5xx(entries));
  }

  /** filter5xxRequests: keeps the 5xx entries, in order. */
  method Filter5xxRequests(entries: seq<LogEntry>) returns (filtered: seq<LogEntry>)
    ensures filtered == Filter5xx(entries)
  {
    filtered := [];
    var i := 0;
    while i < |entries|
      invariant i <= |entries|
      invariant filtered == Filter5xx(entries[..i])
    {
      assert entries[..i + 1][..i] == entries[..i];
      if 500 <= entries[i].status < 600 {
        filtered := filtered + [entries[i]];
      }
      i := i + 1;
    }
    assert entries[..i] == entries;
  }
}
