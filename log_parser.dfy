/** The line parser and the loader of the access-log analyser. */
module LogParser {
  import opened StringStream
  import opened LogRecord

  /** What parsing one line determines. A line whose first five whitespace
      separated fields cannot all be read is Malformed: the entry is returned
      as default-constructed, with an empty request and with timestamp and
      status left uninitialised. Otherwise the line is Parsed; its status is
      None when the extraction of the status code never got to store a value,
      so that the entry keeps an uninitialised status. */
  datatype ParsedLine =
    | Malformed
    | Parsed(timestamp: int, request: string, status: Option<int>)

  /** `iss >> w1 >> ... >> wn` for n std::string words: the state after the n
      extractions and the words that were assigned. Once an extraction fails
      every later one fails too, so a state that has not failed means that all
      n words were read. */
  function ReadWords(st: Stream, n: nat): (r: (Stream, seq<string>))
    ensures r.0.text == st.text
    ensures st.fail ==> r.0.fail
    ensures !r.0.fail ==> |r.1| == n && forall k :: 0 <= k < n ==> |r.1[k]| > 0
    decreases n
  {
    if n == 0 then (st, [])
    else
      var (s1, w) := ReadWord(st);
      var (s2, ws) := ReadWords(s1, n - 1);
      (s2, if w.Some? then [w.value] + ws else ws)
  }

  /** One more extraction in front of n of them. */
  lemma ReadWordsCons(st: Stream, n: nat)
    ensures var (s1, w) := ReadWord(st);
            && ReadWords(st, n + 1).0 == ReadWords(s1, n).0
            && (!ReadWords(st, n + 1).0.fail ==> w.Some? && ReadWords(st, n + 1).1 == [w.value] + ReadWords(s1, n).1)
  {
  }

  /** The words after the first one are those of the remaining extractions. */
  lemma ReadWordsIndex(st: Stream, n: nat, j: nat)
    requires !ReadWords(st, n + 1).0.fail && 0 < j <= n
    ensures ReadWords(st, n + 1).1[j] == ReadWords(ReadWord(st).0, n).1[j - 1]
  {
    ReadWordsCons(st, n);
  }

  /** Five extractions in a row are ReadWords(_, 5); when they succeed, the
      fourth word read is the fourth of the five. */
  lemma FiveWords(s0: Stream, s1: Stream, s2: Stream, s3: Stream, s4: Stream, s5: Stream, w4: Option<string>)
    requires s1 == ReadWord(s0).0 && s2 == ReadWord(s1).0 && s3 == ReadWord(s2).0
    requires (s4, w4) == ReadWord(s3) && s5 == ReadWord(s4).0
    ensures ReadWords(s0, 5).0 == s5
    ensures !s5.fail ==> w4.Some? && ReadWords(s0, 5).1[3] == w4.value
  {
    ReadWordsCons(s4, 0);
    ReadWordsCons(s3, 1);
    ReadWordsCons(s2, 2);
    ReadWordsCons(s1, 3);
    ReadWordsCons(s0, 4);
    if !s5.fail {
      ReadWordsIndex(s0, 4, 3);
      ReadWordsIndex(s1, 3, 2);
      ReadWordsIndex(s2, 2, 1);
    }
  }

  /** The two `getline(iss, request, '"')` calls: the state after them and the
      final value of `request`, which starts out empty. */
  function ReadRequest(st: Stream): (r: (Stream, string))
    ensures r.0.text == st.text
    ensures !Good(st) ==> r.1 == "" && r.0.fail
    ensures '"' !in r.1
  {
    var (s1, skipped) := GetLine(st, '"');
    var (s2, quoted) := GetLine(s1, '"');
    (s2, if quoted.Some? then quoted.value else if skipped.Some? then skipped.value else "")
  }

  /** The reference semantics of the line parser: the same sequence of stream
      operations on one istringstream over the line. */
  function ParseLine(line: string, parseTimestamp: string -> int): (p: ParsedLine)
    ensures p.Parsed? ==> '"' !in p.request
    ensures p.Parsed? && p.status.Some? ==> IntMin <= p.status.value <= IntMax
  {
    // iss >> ip >> dash1 >> dash2 >> dateStr >> timeZone
    var (s5, fields) := ReadWords(Open(line), 5);
    if s5.fail then Malformed
    else
      var (s7, request) := ReadRequest(s5);
      Parsed(parseTimestamp(fields[3][1..]), request, ReadInt(s7).1)
  }

  /** The entry the parser returns agrees with what the line determines, and
      its uninitialised fields hold any value at all. */
  predicate Describes(p: ParsedLine, entry: LogEntry)
  {
    match p
    case Malformed => entry.request == ""
    case Parsed(t, r, None) => entry.timestamp == t && entry.request == r
    case Parsed(t, r, Some(v)) => entry == LogEntry(t, r, v)
  }

  /** Parses one line. The values that C++ leaves uninitialised are arbitrary. */
  method ParseLogEntry(line: string, parseTimestamp: string -> int) returns (entry: LogEntry)
    ensures Describes(ParseLine(line, parseTimestamp), entry)
  {
    var entryTimestamp: int := *;
    var entryStatus: int := *;
    var entryRequest := "";
    var iss := new IStringStream(line);
    var request := "";
    var status: int := *;
    ghost var s0 := iss.Current();
    var ip := iss.ExtractWord();
    ghost var s1 := iss.Current();
    var dash1 := iss.ExtractWord();
    ghost var s2 := iss.Current();
    var dash2 := iss.ExtractWord();
    ghost var s3 := iss.Current();
    var dateStr := iss.ExtractWord();
    ghost var s4 := iss.Current();
    var timeZone := iss.ExtractWord();
    FiveWords(s0, s1, s2, s3, s4, iss.Current(), dateStr);
    if !iss.fail {
      var date := dateStr.value[1..];
      entryTimestamp := parseTimestamp(date);
      var skipped := iss.ExtractLine('"');
      if skipped.Some? {
        request := skipped.value;
      }
      var quoted := iss.ExtractLine('"');
      if quoted.Some? {
        request := quoted.value;
      }
      var read := iss.ExtractInt();
      if read.Some? {
        status := read.value;
      }
      entryRequest := request;
      entryStatus := status;
    }
    entry := LogEntry(entryTimestamp, entryRequest, entryStatus);
  }

  /** Parses every line of the log, one entry per line, in line order. */
  method ParseLogFile(lines: seq<string>, parseTimestamp: string -> int) returns (entries: seq<LogEntry>)
    ensures |entries| == |lines|
    ensures forall i :: 0 <= i < |lines| ==> Describes(ParseLine(lines[i], parseTimestamp), entries[i])
  {
    entries := [];
    var i := 0;
    while i < |lines|
      invariant i <= |lines| && |entries| == i
      invariant forall k :: 0 <= k < i ==> Describes(ParseLine(lines[k], parseTimestamp), entries[k])
    {
      var entry := ParseLogEntry(lines[i], parseTimestamp);
      ghost var before := entries;
      entries := entries + [entry];
      forall k | 0 <= k < i + 1
        ensures Describes(ParseLine(lines[k], parseTimestamp), entries[k])
      {
        if k < i {
          assert entries[k] == before[k];
        } else {
          assert entries[k] == entry;
        }
      }
      i := i + 1;
    }
  }
}
