/** The most frequent requests of a sequence of entries: counted in a map,
    sorted by count in descending order, and the first n kept. */
module FrequencyRanker {
  import opened LogRecord

  /** The distinct requests of a sequence of entries. */
  function Requests(entries: seq<LogEntry>): (rs: set<string>)
    ensures forall k :: 0 <= k < |entries| ==> entries[k].request in rs
  {
    set k | 0 <= k < |entries| :: entries[k].request
  }

  /** How many entries carry the request r. */
  function Occurrences(entries: seq<LogEntry>, r: string): (c: nat)
    ensures c <= |entries|
  {
    if entries == [] then 0
    else Occurrences(entries[..|entries| - 1], r) + if entries[|entries| - 1].request == r then 1 else 0
  }

  /** A request occurs at least once exactly when it is one of the requests. */
  lemma {:induction false} OccurrencesPositive(entries: seq<LogEntry>, r: string)
    ensures Occurrences(entries, r) > 0 <==> r in Requests(entries)
    decreases |entries|
  {
    if entries != [] {
      var init := entries[..|entries| - 1];
      OccurrencesPositive(init, r);
      RequestsSnoc(init, entries[|entries| - 1]);
      assert entries == init + [entries[|entries| - 1]];
    }
  }

  lemma RequestsSnoc(init: seq<LogEntry>, e: LogEntry)
    ensures Requests(init + [e]) == Requests(init) + {e.request}
  {
    var s := init + [e];
    forall r | r in Requests(s)
      ensures r in Requests(init) + {e.request}
    {
      var k :| 0 <= k < |s| && s[k].request == r;
      if k < |init| {
        assert init[k] == s[k];
      }
    }
    forall r | r in Requests(init)
      ensures r in Requests(s)
    {
      var k :| 0 <= k < |init| && init[k].request == r;
      assert s[k] == init[k];
    }
    assert s[|init|] == e;
  }

  /** The result table stands in the right relation to the input: every kept
      request occurs in the input with the count stored for it. */
  predicate Counts(entries: seq<LogEntry>, table: map<string, int>)
  {
    forall r :: r in table ==> r in Requests(entries) && table[r] == Occurrences(entries, r)
  }

  /** No request left out of the table occurs more often than one kept in it. */
  predicate Dominates(entries: seq<LogEntry>, table: map<string, int>)
  {
    forall r, s :: r in table && s in Requests(entries) && s !in table ==> table[r] >= Occurrences(entries, s)
  }

  /** The result of the ranker for n: nothing for n <= 0, otherwise min(n, d)
      requests for d distinct requests, with their exact counts, and none of
      those left out occurring more often than one kept. */
  predicate TopN(entries: seq<LogEntry>, n: int, table: map<string, int>)
  {
    && (n <= 0 ==> table == map[])
    && |table| == Bound(n, |Requests(entries)|)
    && Counts(entries, table)
    && Dominates(entries, table)
  }

  /** With n at least the number of distinct requests, the table keeps every
      request. */
  lemma AllCountsAreTop(entries: seq<LogEntry>, table: map<string, int>, n: int)
    requires n >= |Requests(entries)| && n > 0
    requires TopN(entries, n, table)
    ensures table.Keys == Requests(entries)
  {
    assert table.Keys <= Requests(entries);
    SubsetSameSize(table.Keys, Requests(entries));
  }

  /** A subset is no larger than its superset, and a proper one is smaller. */
  lemma {:induction false} SubsetCard(a: set<string>, b: set<string>)
    requires a <= b
    ensures |a| <= |b|
    ensures a != b ==> |a| < |b|
    decreases |b|
  {
    if b != {} {
      var x :| x in b;
      var b' := b - {x};
      assert b == b' + {x} && x !in b';
      SubsetCard(a - {x}, b');
      if x in a {
        assert a == (a - {x}) + {x};
      } else {
        assert a - {x} == a;
        assert a <= b';
      }
    }
  }

  lemma SubsetSameSize(a: set<string>, b: set<string>)
    requires a <= b && |a| == |b|
    ensures a == b
  {
    SubsetCard(a, b);
  }

  /** Two tables that both satisfy TopN for the same input can differ only in
      how ties are broken: they keep the same number of requests with the
      same counts at every rank boundary; in particular, when a request is
      kept by one and not by the other, it is tied with one kept only there. */
  lemma TopNTies(entries: seq<LogEntry>, n: int, t1: map<string, int>, t2: map<string, int>, r: string)
    requires TopN(entries, n, t1) && TopN(entries, n, t2)
    requires r in t1 && r !in t2
    ensures exists s :: s in t2 && s !in t1 && t2[s] == t1[r]
  {
    assert |t1.Keys| == |t1| == |t2| == |t2.Keys|;
    assert !(t2.Keys <= t1.Keys) by {
      if t2.Keys <= t1.Keys {
        assert r in t1.Keys - t2.Keys;
        SubsetCard(t2.Keys, t1.Keys);
      }
    }
    var s :| s in t2.Keys && s !in t1.Keys;
    assert t2[s] >= Occurrences(entries, r) == t1[r];
    assert t1[r] >= Occurrences(entries, s) == t2[s];
  }

  /** The request counts, as the loop over the entries builds them. */
  method CountRequests(entries: seq<LogEntry>) returns (frequency: map<string, int>)
    ensures frequency.Keys == Requests(entries)
    ensures forall r :: r in frequency ==> frequency[r] == Occurrences(entries, r)
  {
    frequency := map[];
    var i := 0;
    while i < |entries|
      invariant i <= |entries|
      invariant frequency.Keys == Requests(entries[..i])
      invariant forall r :: r in frequency ==> frequency[r] == Occurrences(entries[..i], r)
    {
      var r := entries[i].request;
      assert entries[..i + 1] == entries[..i] + [entries[i]];
      RequestsSnoc(entries[..i], entries[i]);
      // frequency[entry.request]++: a missing key starts at 0
      var c := if r in frequency then frequency[r] else 0;
      OccurrencesPositive(entries[..i], r);
      frequency := frequency[r := c + 1];
      i := i + 1;
    }
    assert entries[..i] == entries;
  }

  /** The pairs of a table: each stored count under its request, each request
      at one position only. */
  ghost predicate Tabulates(pairs: seq<(string, int)>, table: map<string, int>)
  {
    && (forall k :: 0 <= k < |pairs| ==> pairs[k].0 in table && pairs[k].1 == table[pairs[k].0])
    && (forall i, j :: 0 <= i < j < |pairs| ==> pairs[i].0 != pairs[j].0)
  }

  /** The vector of (request, count) pairs copied out of the map, in the map's
      iteration order: every entry of the map once. */
  method TablePairs(frequency: map<string, int>) returns (pairs: seq<(string, int)>)
    ensures Tabulates(pairs, frequency) && |pairs| == |frequency|
    ensures forall r :: r in frequency ==> (r, frequency[r]) in pairs
  {
    pairs := [];
    var pending := frequency.Keys;
    while pending != {}
      invariant pending <= frequency.Keys
      invariant Tabulates(pairs, frequency) && |pairs| + |pending| == |frequency|
      invariant forall k :: 0 <= k < |pairs| ==> pairs[k].0 !in pending
      invariant forall r :: r in frequency && r !in pending ==> (r, frequency[r]) in pairs
      decreases |pending|
    {
      var r :| r in pending;
      TabulatesSnoc(pairs, frequency, r);
      pairs := pairs + [(r, frequency[r])];
      assert pending == (pending - {r}) + {r};
      pending := pending - {r};
    }
  }

  /** A table entry whose request is not among the pairs may be appended. */
  lemma TabulatesSnoc(pairs: seq<(string, int)>, table: map<string, int>, r: string)
    requires Tabulates(pairs, table) && r in table
    requires forall k :: 0 <= k < |pairs| ==> pairs[k].0 != r
    ensures Tabulates(pairs + [(r, table[r])], table)
  {
  }

  /** Each pair of a sequence with distinct requests occurs once. */
  lemma {:induction false} CountAtMostOne(pairs: seq<(string, int)>)
    requires forall i, j :: 0 <= i < j < |pairs| ==> pairs[i].0 != pairs[j].0
    ensures forall x :: multiset(pairs)[x] <= 1
    decreases |pairs|
  {
    if pairs != [] {
      var init := pairs[..|pairs| - 1];
      var last := pairs[|pairs| - 1];
      CountAtMostOne(init);
      assert pairs == init + [last];
      assert last !in init;
    }
  }

  /** A value at two positions occurs at least twice. */
  lemma TwiceCounted(s: seq<(string, int)>, i: nat, j: nat)
    requires i < j < |s| && s[i] == s[j]
    ensures multiset(s)[s[i]] >= 2
  {
    var x := s[i];
    assert s == s[..i] + [x] + s[i + 1..j] + [x] + s[j + 1..];
  }

  /** A permutation of the pairs of a table still tabulates it. */
  lemma PermutedTabulates(pairs: seq<(string, int)>, sorted: seq<(string, int)>, table: map<string, int>)
    requires Tabulates(pairs, table) && multiset(sorted) == multiset(pairs)
    ensures Tabulates(sorted, table) && |sorted| == |pairs|
  {
    assert |sorted| == |multiset(sorted)| == |multiset(pairs)| == |pairs|;
    forall k | 0 <= k < |sorted|
      ensures sorted[k].0 in table && sorted[k].1 == table[sorted[k].0]
    {
      assert sorted[k] in multiset(pairs);
      var l :| 0 <= l < |pairs| && pairs[l] == sorted[k];
    }
    CountAtMostOne(pairs);
    forall i, j | 0 <= i < j < |sorted|
      ensures sorted[i].0 != sorted[j].0
    {
      if sorted[i] == sorted[j] {
        TwiceCounted(sorted, i, j);
      }
    }
  }

  /** The pairs sorted by count, largest first. */
  predicate SortedByCount(pairs: seq<(string, int)>)
  {
    forall i, j :: 0 <= i < j < |pairs| ==> pairs[i].1 >= pairs[j].1
  }

  /** std::sort with a.second > b.second as the ordering: afterwards the counts
      descend and the array holds the same pairs. Pairs with equal counts may
      end up in either order. */
  method SortByCount(a: array<(string, int)>)
    modifies a
    ensures SortedByCount(a[..])
    ensures multiset(a[..]) == old(multiset(a[..]))
  {
    var i := 0;
    while i < a.Length
      invariant i <= a.Length
      invariant forall x, y :: 0 <= x < y < a.Length && x < i ==> a[x].1 >= a[y].1
      invariant multiset(a[..]) == old(multiset(a[..]))
    {
      var m := MaxFrom(a, i);
      Swap(a, i, m);
      i := i + 1;
    }
  }

  /** Exchanges two elements of the array. */
  method Swap(a: array<(string, int)>, i: nat, j: nat)
    requires i < a.Length && j < a.Length
    modifies a
    ensures a[i] == old(a[j]) && a[j] == old(a[i])
    ensures forall k :: 0 <= k < a.Length && k != i && k != j ==> a[k] == old(a[k])
    ensures multiset(a[..]) == old(multiset(a[..]))
  {
    a[i], a[j] := a[j], a[i];
  }

  /** The position of a largest count at or after i. */
  method MaxFrom(a: array<(string, int)>, i: nat) returns (m: nat)
    requires i < a.Length
    ensures i <= m < a.Length
    ensures forall y :: i <= y < a.Length ==> a[m].1 >= a[y].1
  {
    m := i;
    var j := i + 1;
    while j < a.Length
      invariant i <= m < j <= a.Length
      invariant forall y :: i <= y < j ==> a[m].1 >= a[y].1
    {
      if a[j].1 > a[m].1 {
        m := j;
      }
      j := j + 1;
    }
  }

  /** How many pairs the copy loop takes: n, but none for n <= 0 and no more
      than there are. */
  function Bound(n: int, length: nat): (m: nat)
    ensures m <= length && (n <= 0 ==> m == 0) && (n > 0 ==> m == n || m == length)
    ensures n > 0 ==> (m == length <==> n >= length)
  {
    if n <= 0 then 0 else if n < length then n else length
  }

  /** The first Bound(n, |pairs|) pairs copied into a map, each request under
      the count of the last of those pairs that holds it. */
  method TakeFirst(pairs: seq<(string, int)>, n: int) returns (topN: map<string, int>)
    ensures topN.Keys == set k | 0 <= k < Bound(n, |pairs|) :: pairs[k].0
    ensures forall k :: 0 <= k < Bound(n, |pairs|) && LastAmong(pairs, Bound(n, |pairs|), k) ==> topN[pairs[k].0] == pairs[k].1
  {
    topN := map[];
    var i := 0;
    while i < n && i < |pairs|
      invariant i <= Bound(n, |pairs|)
      invariant topN.Keys == set k | 0 <= k < i :: pairs[k].0
      invariant forall k :: 0 <= k < i && LastAmong(pairs, i, k) ==> topN[pairs[k].0] == pairs[k].1
    {
      topN := topN[pairs[i].0 := pairs[i].1];
      i := i + 1;
    }
  }

  /** No later position among the first m holds the request at position k:
      the copy loop stores the count of the last pair with a given request. */
  predicate LastAmong(pairs: seq<(string, int)>, m: nat, k: nat)
    requires k < m <= |pairs|
  {
    forall l :: k < l < m ==> pairs[l].0 != pairs[k].0
  }

  /** findMostFrequent5xxRequests: the n most frequent requests and their counts. */
  method FindMostFrequent5xxRequests(entries: seq<LogEntry>, n: int) returns (topN: map<string, int>)
    ensures TopN(entries, n, topN)
  {
    var frequency := CountRequests(entries);
    var freqVec := TablePairs(frequency);
    var a := new (string, int)[|freqVec|](k requires 0 <= k < |freqVec| => freqVec[k]);
    assert a[..] == freqVec;
    SortByCount(a);
    var sorted := a[..];
    PermutedTabulates(freqVec, sorted, frequency);
    topN := TakeFirst(sorted, n);
    RankedTable(entries, frequency, freqVec, sorted, n, topN);
  }

  /** The first m requests of a sequence with distinct requests are m requests. */
  lemma {:induction false} PrefixKeys(pairs: seq<(string, int)>, table: map<string, int>, m: nat)
    requires Tabulates(pairs, table) && m <= |pairs|
    ensures |set k | 0 <= k < m :: pairs[k].0| == m
    decreases m
  {
    if m > 0 {
      PrefixKeys(pairs, table, m - 1);
      var before := set k | 0 <= k < m - 1 :: pairs[k].0;
      assert (set k | 0 <= k < m :: pairs[k].0) == before + {pairs[m - 1].0};
      assert pairs[m - 1].0 !in before;
    }
  }

  /** A request kept in the cut table carries its count. */
  lemma RankedCount(entries: seq<LogEntry>, frequency: map<string, int>, sorted: seq<(string, int)>,
                    m: nat, topN: map<string, int>, r: string)
    requires forall r :: r in frequency ==> frequency[r] == Occurrences(entries, r)
    requires Tabulates(sorted, frequency) && m <= |sorted|
    requires topN.Keys == set k | 0 <= k < m :: sorted[k].0
    requires forall k :: 0 <= k < m && LastAmong(sorted, m, k) ==> topN[sorted[k].0] == sorted[k].1
    requires r in topN
    ensures r in frequency && topN[r] == Occurrences(entries, r)
  {
    var k :| 0 <= k < m && sorted[k].0 == r;
    assert LastAmong(sorted, m, k);
  }

  /** A request cut off does not occur more often than one kept. */
  lemma RankedAbove(entries: seq<LogEntry>, frequency: map<string, int>, freqVec: seq<(string, int)>,
                    sorted: seq<(string, int)>, m: nat, topN: map<string, int>, r: string, s: string)
    requires forall r :: r in frequency ==> frequency[r] == Occurrences(entries, r)
    requires forall r :: r in frequency ==> (r, frequency[r]) in freqVec
    requires Tabulates(sorted, frequency) && m <= |sorted|
    requires SortedByCount(sorted) && multiset(sorted) == multiset(freqVec)
    requires topN.Keys == set k | 0 <= k < m :: sorted[k].0
    requires forall k :: 0 <= k < m && LastAmong(sorted, m, k) ==> topN[sorted[k].0] == sorted[k].1
    requires r in topN && s in frequency && s !in topN
    ensures topN[r] >= Occurrences(entries, s)
  {
    var k :| 0 <= k < m && sorted[k].0 == r;
    assert LastAmong(sorted, m, k);
    assert (s, frequency[s]) in multiset(sorted);
    var l :| 0 <= l < |sorted| && sorted[l] == (s, frequency[s]);
    assert m <= l;
  }

  /** The sorted table, cut after the first n pairs, meets the ranker's contract. */
  lemma RankedTable(entries: seq<LogEntry>, frequency: map<string, int>, freqVec: seq<(string, int)>,
                    sorted: seq<(string, int)>, n: int, topN: map<string, int>)
    requires frequency.Keys == Requests(entries)
    requires forall r :: r in frequency ==> frequency[r] == Occurrences(entries, r)
    requires forall r :: r in frequency ==> (r, frequency[r]) in freqVec
    requires Tabulates(sorted, frequency) && |sorted| == |frequency|
    requires SortedByCount(sorted) && multiset(sorted) == multiset(freqVec)
    requires topN.Keys == set k | 0 <= k < Bound(n, |sorted|) :: sorted[k].0
    requires forall k :: 0 <= k < Bound(n, |sorted|) && LastAmong(sorted, Bound(n, |sorted|), k) ==> topN[sorted[k].0] == sorted[k].1
    ensures TopN(entries, n, topN)
  {
    var m := Bound(n, |sorted|);
    PrefixKeys(sorted, frequency, m);
    assert |Requests(entries)| == |frequency|;
    assert n <= 0 ==> topN == map[];
    forall r | r in topN
      ensures r in Requests(entries) && topN[r] == Occurrences(entries, r)
    {
      RankedCount(entries, frequency, sorted, m, topN, r);
    }
    forall r, s | r in topN && s in Requests(entries) && s !in topN
      ensures topN[r] >= Occurrences(entries, s)
    {
      RankedAbove(entries, frequency, freqVec, sorted, m, topN, r, s);
    }
  }
}
