# Access-log analyser, modelled in Dafny

The analyser reads an access log in the NCSA Common Log Format. It handles
each line as follows:

- It parses the line into an entry: a timestamp, the request text and a status code.
- It keeps the entries with a server-error status (5xx).
- It ranks the most frequent requests among those entries.
- It finds the time window, starting at some entry's timestamp, that holds
  the longest forward run of consecutive entries.

The model follows the program step by step:

- `log_record.dfy`: the `LogEntry` record.
- `string_stream.dfy`: the part of C++11 `std::istringstream`, in the "C"
  locale, that the line parser uses.
  - Extracting a word into a `std::string`.
  - Extracting an `int`.
  - `std::getline` with a delimiter.

  The class `IStringStream` performs these operations in place, with loops.
  Each one is proved equal to a pure function on a stream-state value:
  `Sentry`, `ReadWord`, `GetLine`, `ReadInt`.
- `log_parser.dfy`: `ParseLogEntry` and `ParseLogFile`, as methods over the
  stream class.
  - They are proved against `ParseLine`, the same sequence of stream
    operations written as a function.
  - `Describes` relates a parsed line to an entry. It leaves the fields C++
    does not initialise unconstrained.
- `line_format.dfy`: what `ParseLine` yields, stated in terms of the line's
  layout.
  - The whitespace-separated fields of the line.
  - The text after the fifth field.
  - The quotes in that text and the number after them.
- `error_filter.dfy`: the 5xx filter. It is a loop proved against a
  recursive filter function, with lemmas about the function.
- `frequency_ranker.dfy`: the top-N ranker.
  - The counting loop over a map, the copy of the map into a vector, and
    the in-place sort of an array.
  - The copy of the first n pairs into the result map.
  - Proved against `TopN`: the exact counts, the size `min(n, distinct)`,
    and dominance over every request left out.
- `peak_window.dfy`: the quadratic window scan. It is proved to return the
  window of the first index with the largest forward run (`BestStart`).

The timestamp conversion `parseTimestamp` is a parameter of type
`string -> int`.

The code behaves as follows in these cases, which a first reading could get wrong:

- **Status on a failed parse.** The entry and the local `status` are left
  uninitialised, not zero. The model leaves them arbitrary:
  - on a malformed line, only the request is known to be empty;
  - when `>> status` never gets to store a value, the status is unconstrained.
- **Request without a quote.** With no quote after the fifth field, the
  request is the whole text after the fifth field, leading blank included.
  The first `getline` stores it and the second one fails. When the line
  ends with the fifth field the request is empty: eofbit is already set,
  so both `getline` calls fail (`LineFormat.ParseLineNoQuote`).
- **Request with one quote.** The request is the text after that quote
  (`LineFormat.ParseLineOneQuote`).
- **Status that is not a number.** `>> status` stores 0, as C++11 requires
  (`LineFormat.IntFieldNotNumber`). It does not leave the previous value.
- **Tie order in the ranker.** `std::sort` is not stable, so the order of
  tied counts is not specified. Neither is which tied requests survive the
  cut. The model states dominance (`FrequencyRanker.TopN`). Two valid
  results can differ only by exchanging tied requests
  (`FrequencyRanker.TopNTies`).

## Model

| member | source | states |
|---|---|---|
| StringStream.IStringStream.ExtractWord | main.cpp:35 | one `>>` into a string: the sentry skips whitespace and fails at the end of the text or on a stream that is not good; otherwise the word is the maximal non-space run and eofbit is raised when it reaches the end |
| StringStream.IStringStream.ExtractLine | main.cpp:40-41 | `getline` with a delimiter: fails on a stream that is not good and leaves the string untouched; otherwise the text up to the delimiter, which is consumed, or up to the end with eofbit, and failbit when nothing was extracted |
| StringStream.IStringStream.ExtractInt | main.cpp:42 | `>>` into an int: a failed sentry leaves the value untouched; a sign and a digit run are converted; no digits stores 0 and fails; an out-of-range value stores the nearest int bound and fails |
| StringStream.IStringStream.ScanDigits | main.cpp:42 | the digit run that `>>` consumes and the decimal number it denotes |
| StringStream.Clamp | main.cpp:42 | the stored value lies within the 32-bit int range and equals the read value when that fits, otherwise the bound it passes |
| LogParser.ReadWords | main.cpp:35 | a chain of n word extractions keeps the buffer, stays failed once failed, and when it has not failed has read n non-empty words |
| LogParser.ReadRequest | main.cpp:40-41 | the two `getline` calls keep the buffer; on a stream that is not good they fail and the request keeps its empty initial value; the request never holds a quote |
| LogParser.ParseLine | main.cpp:29-48 | the parse of a line: a parsed request holds no quote and a stored status lies within the int range; its layout-level behaviour is stated by the LineFormat lemmas |
| LogParser.ParseLogEntry | main.cpp:29-48 | the entry agrees with the reference parse of the line: only the empty request on a malformed line; timestamp and request when the status is never stored; all three fields otherwise |
| LogParser.ParseLogFile | main.cpp:51-62 | one entry per line, in line order, each describing the parse of its line |
| LogParser.FiveWords | main.cpp:35 | five chained extractions are the five-field read, and the fourth word read is the date field |
| LineFormat.ReadWordsFields | main.cpp:35 | n extractions fail exactly when fewer than n fields are left; otherwise they return the next n fields in order and stop right after the last |
| LineFormat.ParseLineFields | main.cpp:35-47 | a line is malformed exactly when it has fewer than five whitespace-separated fields; otherwise the timestamp is the conversion of the fourth field without its first character |
| LineFormat.EmptyLineMalformed | main.cpp:35-47 | the empty line is malformed, so the entry keeps its empty request |
| LineFormat.ParseLineNoQuote | main.cpp:40-44 | with no quote after the fifth field, the request is the whole text after the fifth field (empty when the line ends with that field) and the status is never assigned |
| LineFormat.ParseLineOneQuote | main.cpp:40-44 | with exactly one quote after the fifth field, the request is the text after it and the status is never assigned |
| LineFormat.ParseLineTwoQuotes | main.cpp:40-45 | with two quotes after the fifth field, the request is the text between them and the status is what `>>` makes of the text after the second |
| LineFormat.RequestTwoQuotes | main.cpp:40-41 | the two `getline` calls return the text between the first two quotes and leave the stream good, just after the second quote |
| LineFormat.IntFieldNumber | main.cpp:42 | blanks, an optional sign and digits convert to the signed decimal value, clamped to the int range |
| LineFormat.IntFieldBlank | main.cpp:42 | text that is all whitespace leaves the status untouched |
| LineFormat.IntFieldNotNumber | main.cpp:42 | text whose first non-blank characters are not a number stores 0 |
| LineFormat.JoinedHead | main.cpp:35 | five non-empty fields without whitespace, joined by single blanks, are read back as exactly those five fields |
| LineFormat.WellFormedLine | main.cpp:29-48 | a Common Log Format line with the request in quotes and a decimal status parses to the quoted request, that status, and the timestamp of the date field without its bracket |
| ErrorFilter.Filter5xxRequests | main.cpp:65-73 | the loop returns the 5xx filter of its input |
| ErrorFilter.Filter5xx | main.cpp:65-73 | the filter is no longer than its input and keeps only entries with 500 <= status < 600 |
| ErrorFilter.FilterCounts | main.cpp:65-73 | every 5xx entry is kept as often as it occurs, and every other entry is dropped |
| ErrorFilter.FilterMembers | main.cpp:65-73 | an entry is in the result exactly when it is a 5xx entry of the input |
| ErrorFilter.FilterAppend | main.cpp:67-71 | the filter preserves order: filtering a concatenation concatenates the filtered parts |
| ErrorFilter.FilterKeepsAll | main.cpp:65-73 | the result equals the input exactly when every entry is a 5xx entry |
| ErrorFilter.FilterIdempotent | main.cpp:65-73 | filtering twice is filtering once |
| FrequencyRanker.CountRequests | main.cpp:77-80 | the count map has a key for exactly the distinct requests, each mapped to its number of occurrences |
| FrequencyRanker.OccurrencesPositive | main.cpp:79 | a request occurs at least once exactly when it is among the requests of the input |
| FrequencyRanker.TablePairs | main.cpp:81 | the pair vector holds each entry of the map once, with its count, and no other pair |
| FrequencyRanker.PermutedTabulates | main.cpp:84-86 | a permutation of the pairs still holds each entry of the map once |
| FrequencyRanker.SortByCount | main.cpp:84-86 | after the sort the counts do not increase and the array is a permutation of its old contents |
| FrequencyRanker.TakeFirst | main.cpp:88-91 | the result's keys are the requests of the first min(n, size) pairs (none for n <= 0), each under the count of the last of those pairs that holds it, as repeated assignment leaves it |
| FrequencyRanker.FindMostFrequent5xxRequests | main.cpp:76-93 | empty for n <= 0; otherwise min(n, distinct) requests with their exact counts, and no request left out occurs more often than one kept |
| FrequencyRanker.AllCountsAreTop | main.cpp:88-91 | when n is at least the number of distinct requests, every request is kept |
| FrequencyRanker.TopNTies | main.cpp:84-91 | two valid results differ only in ties: a request kept by one and not the other has a request of the same count kept by the other only |
| PeakWindow.CountRun | main.cpp:107-111 | the inner loop counts the maximal forward run from i of entries whose timestamps do not pass the window end |
| PeakWindow.RunInside | main.cpp:109 | every entry of the counted run lies within the window |
| PeakWindow.WindowCountPositive | main.cpp:105-111 | a window of non-negative size counts at least its own starting entry |
| PeakWindow.BestStart | main.cpp:104-119 | the outer loop as a recursion over the first m indices: the index kept lies among them and its count is at least that of the last one looked at |
| PeakWindow.BestStartIsFirstMax | main.cpp:104-119 | the index the scan settles on has the largest count, and every earlier index a strictly smaller one |
| PeakWindow.PeakUnique | main.cpp:104-119 | the first index with the largest count exists and is unique |
| PeakWindow.PeakWindow | main.cpp:96-122 | (0, 0) for no entries or a window size <= 0; otherwise the window is windowSize wide |
| PeakWindow.PeakWindowOfEntry | main.cpp:101-121 | for entries and a positive size, the result is the window of an entry that is the first peak |
| PeakWindow.FindPeakRequestWindow | main.cpp:96-122 | the scan returns the window of the first index with the largest forward run, or (0, 0) in the degenerate cases |
| PeakWindow.ThreeEntries | main.cpp:96-122 | three entries at 0, 10 and 20 seconds with a 15-second window give the window (0, 15) |

## Left out

- `main`, which opens the log, prints the entries and prints the results, is left out: it is all I/O.
- `parseTimestamp` is a parameter, not a model: it wraps `std::get_time` and `mktime`, whose results depend on the host's time zone.
- The stripping of `]` from the time-zone field is left out: its result is never used.
- LogParser.ParseLogFile: the `ifstream` open-failure branch is left out, and the file is given as its sequence of lines.
- LogParser.ParseLogEntry: the uninitialised fields of the entry are modelled as arbitrary values. The model does not capture that reading them is undefined behaviour.
- PeakWindow.FindPeakRequestWindow: timestamps, `windowStart + windowSize` and the counts are unbounded integers. The `time_t` and `int` overflow of the source is not modelled.
- FrequencyRanker.CountRequests: counts are unbounded. The overflow of an `int` counter past 2^31 - 1 occurrences is not modelled.
- FrequencyRanker.SortByCount: `std::sort` is modelled as a selection sort. Every sort meets the same contract, sorted and a permutation, and the contract leaves the order of ties open, as `std::sort` does.
- FrequencyRanker.TablePairs: the map's key order is not modelled. The pairs are taken in an arbitrary order, which only affects how ties are broken.
- FrequencyRanker.FindMostFrequent5xxRequests: it states dominance and exact counts, not which of several tied requests are kept.
- The key-ordered iteration of the result map is not modelled: the result is a Dafny map, which has no order.
- badbit, locales other than "C", and widths and flags other than the defaults are not modelled: a string stream in the default state never uses them.
