/** What the line parser makes of a line, stated in terms of the line's layout
    rather than of stream operations: its whitespace-separated fields, the text
    that follows the fifth field, and the quotes and the number in that text. */
module LineFormat {
  import opened StringStream
  import opened LogParser

  predicate AllSpaces(s: string)
  {
    forall k :: 0 <= k < |s| ==> s[k] in Spaces
  }

  predicate NoSpaces(s: string)
  {
    forall k :: 0 <= k < |s| ==> s[k] !in Spaces
  }

  predicate AllDigits(s: string)
  {
    forall k :: 0 <= k < |s| ==> s[k] in Digits
  }

  /** The whitespace-separated fields of text from position p on. */
  function Words(text: string, p: nat): (ws: seq<string>)
    requires p <= |text|
    ensures forall k :: 0 <= k < |ws| ==> |ws[k]| > 0 && NoSpaces(ws[k])
    decreases |text| - p
  {
    var q := Span(text, p, Spaces, true);
    if q == |text| then []
    else
      var e := Span(text, q, Spaces, false);
      SpanRun(text, q, Spaces, false);
      [text[q..e]] + Words(text, e)
  }

  /** The position just past the next field at or after p. */
  function NextWordEnd(text: string, p: nat): (e: nat)
    requires p <= |text|
    ensures p <= e <= |text|
  {
    Span(text, Span(text, p, Spaces, true), Spaces, false)
  }

  /** The position just past the n-th field counted from p. */
  function FieldsEnd(text: string, p: nat, n: nat): (e: nat)
    requires p <= |text|
    ensures p <= e <= |text|
    decreases n
  {
    if n == 0 then p else FieldsEnd(text, NextWordEnd(text, p), n - 1)
  }

  /** One `>> word` consumes exactly the next field, and fails exactly when
      no field is left. */
  lemma ReadWordStep(st: Stream)
    requires !st.fail
    ensures var r := ReadWord(st);
            var ws := Words(st.text, st.pos);
            && (ws == [] <==> r.0.fail)
            && (ws != [] ==> r.1 == Some(ws[0]) && r.0.pos == NextWordEnd(st.text, st.pos)
                             && Words(st.text, r.0.pos) == ws[1..])
  {
    if st.eof {
      assert Span(st.text, st.pos, Spaces, true) == |st.text|;
    }
  }

  /** n extractions in a row succeed exactly when at least n fields are left;
      they then read the next n fields in order and stop right after the last. */
  predicate ReadsFields(st: Stream, n: nat)
  {
    var r := ReadWords(st, n);
    var ws := Words(st.text, st.pos);
    && (r.0.fail <==> |ws| < n)
    && (!r.0.fail ==> r.1 == ws[..n] && r.0.pos == FieldsEnd(st.text, st.pos, n))
    && (!r.0.fail && n > 0 ==> (r.0.eof <==> r.0.pos == |st.text|))
  }

  /** The first of n extractions, given what the other n - 1 do. */
  lemma ReadsFieldsStep(st: Stream, n: nat)
    requires !st.fail && n > 0
    requires !ReadWord(st).0.fail ==> ReadsFields(ReadWord(st).0, n - 1)
    ensures ReadsFields(st, n)
  {
    ReadWordStep(st);
    ReadWordsCons(st, n - 1);
    var s1 := ReadWord(st).0;
    if !s1.fail && n == 1 {
      assert ReadWords(s1, 0).0 == s1;
    }
  }

  lemma {:induction false} ReadWordsFields(st: Stream, n: nat)
    requires !st.fail
    ensures ReadsFields(st, n)
    decreases n
  {
    if n > 0 {
      var s1 := ReadWord(st).0;
      if !s1.fail {
        ReadWordsFields(s1, n - 1);
      }
      ReadsFieldsStep(st, n);
    }
  }

  /** A run inside the first part of a buffer is not changed by what follows
      that part, unless it reaches the end of the part and could go on. */
  lemma SpanPrefix(head: string, rest: string, p: nat, chars: set<char>, member: bool)
    requires p <= |head|
    requires Span(head, p, chars, member) < |head| || rest == [] || (rest[0] in chars) != member
    ensures Span(head + rest, p, chars, member) == Span(head, p, chars, member)
  {
    var t := head + rest;
    var q := Span(head, p, chars, member);
    SpanRun(head, p, chars, member);
    assert forall k :: p <= k < q ==> t[k] == head[k];
    assert q < |t| ==> t[q] == if q < |head| then head[q] else rest[0];
    SpanIs(t, p, chars, member, q);
  }

  /** A head of exactly five fields that ends inside its last field. */
  predicate FiveFieldHead(head: string)
  {
    |Words(head, 0)| == 5 && head[|head| - 1] !in Spaces
  }

  /** What may follow the last field of a head: nothing, or whitespace first. */
  predicate FollowsFields(rest: string)
  {
    rest == [] || rest[0] in Spaces
  }

  /** One field of a prefix that ends inside a field, read as part of the
      whole line: it starts and ends at the same positions. */
  lemma PrefixStep(head: string, rest: string, p: nat)
    requires p < |head| && head[|head| - 1] !in Spaces && FollowsFields(rest)
    ensures var t, q, e := head + rest, Span(head, p, Spaces, true), NextWordEnd(head, p);
            && q < |head| && Span(t, p, Spaces, true) == q
            && NextWordEnd(t, p) == e && p < e && t[q..e] == head[q..e]
  {
    var q := Span(head, p, Spaces, true);
    SpanRun(head, p, Spaces, true);
    SpanPrefix(head, rest, p, Spaces, true);
    SpanPrefix(head, rest, q, Spaces, false);
  }

  /** The fields of a line whose first part ends inside a field, when the rest
      is empty or starts with whitespace, are those of the first part followed
      by those of the rest. */
  lemma {:induction false} WordsOfPrefix(head: string, rest: string, p: nat)
    requires p <= |head| && |head| > 0 && head[|head| - 1] !in Spaces
    requires FollowsFields(rest)
    ensures Words(head + rest, p) == Words(head, p) + Words(head + rest, |head|)
    decreases |head| - p
  {
    if p < |head| {
      PrefixStep(head, rest, p);
      WordsOfPrefix(head, rest, NextWordEnd(head, p));
    }
  }

  /** The fields of such a first part end where the first part ends. */
  lemma {:induction false} FieldsEndOfPrefix(head: string, rest: string, p: nat)
    requires p <= |head| && |head| > 0 && head[|head| - 1] !in Spaces
    requires FollowsFields(rest)
    ensures FieldsEnd(head + rest, p, |Words(head, p)|) == |head|
    decreases |head| - p
  {
    if p < |head| {
      PrefixStep(head, rest, p);
      FieldsEndOfPrefix(head, rest, NextWordEnd(head, p));
    }
  }

  /** After the five extractions of the header of such a line the stream stands
      right after the head, and the fields read are those of the head. */
  lemma AfterHeader(line: string, head: string, rest: string)
    requires line == head + rest && FiveFieldHead(head) && FollowsFields(rest)
    ensures var (s5, fields) := ReadWords(Open(line), 5);
            && !s5.fail && fields == Words(head, 0)
            && s5.text == line && s5.pos == |head| && (s5.eof <==> rest == [])
  {
    WordsOfPrefix(head, rest, 0);
    FieldsEndOfPrefix(head, rest, 0);
    ReadWordsFields(Open(line), 5);
    assert Words(line, 0)[..5] == Words(head, 0);
  }

  /** getline stops at the first delimiter and consumes it. */
  lemma GetLineTo(st: Stream, delim: char, a: string, x: string)
    requires Good(st) && st.text[st.pos..] == a + [delim] + x && delim !in a
    ensures GetLine(st, delim) == (st.(pos := st.pos + |a| + 1), Some(a))
  {
    var t, p := st.text, st.pos;
    assert forall k :: p <= k < p + |a| ==> t[k] == a[k - p];
    assert t[p + |a|] == delim;
    SpanIs(t, p, {delim}, false, p + |a|);
    assert t[p..p + |a|] == a;
  }

  /** Without a delimiter, getline takes the rest of the buffer and hits its end. */
  lemma GetLineToEnd(st: Stream, delim: char, a: string)
    requires Good(st) && st.text[st.pos..] == a && delim !in a
    ensures GetLine(st, delim) == (st.(pos := |st.text|, eof := true, fail := a == []), Some(a))
  {
    var t, p := st.text, st.pos;
    assert forall k :: p <= k < |t| ==> t[k] == a[k - p];
    SpanIs(t, p, {delim}, false, |t|);
    assert t[p..|t|] == a;
  }

  /** The runs of a stream's buffer seen from position p are the runs of the
      unread part. */
  lemma SpanShift(text: string, p: nat, j: nat, chars: set<char>, member: bool)
    requires p <= j <= |text|
    ensures Span(text, j, chars, member) == p + Span(text[p..], j - p, chars, member)
  {
    var q := Span(text[p..], j - p, chars, member);
    SpanRun(text[p..], j - p, chars, member);
    assert forall k :: j <= k < p + q ==> text[k] == text[p..][k - p];
    SpanIs(text, j, chars, member, p + q);
  }

  /** The value `>> n` stores when the unread input is c (None: n untouched). */
  function IntField(c: string): Option<int>
  {
    ReadInt(Open(c)).1
  }

  /** The sentry's whitespace skipping depends only on the unread input. */
  lemma SentryShift(st: Stream)
    requires Good(st)
    ensures var s1, c1 := Sentry(st, true), Sentry(Open(st.text[st.pos..]), true);
            s1.fail == c1.fail && (!s1.fail ==> s1.pos == st.pos + c1.pos)
  {
    SpanShift(st.text, st.pos, st.pos, Spaces, true);
  }

  /** The value the conversion stores when it starts at position p of text. */
  function Converted(text: string, p: nat): Option<int>
    requires p < |text|
  {
    var n := if text[p] == '-' || text[p] == '+' then p + 1 else p;
    var e := Span(text, n, Digits, true);
    if e == n then Some(0) else Some(Clamp(Signed(text[p] == '-', DecimalValue(text[n..e]))))
  }

  /** The conversion stores the value Converted describes. */
  lemma NumGetAt(st: Stream)
    requires Good(st) && st.pos < |st.text|
    ensures NumGet(st).1 == Converted(st.text, st.pos)
  {
  }

  /** The value converted depends only on the text from position p on. */
  lemma ConvertedShift(t: string, p: nat, q: nat)
    requires p <= q < |t|
    ensures Converted(t, q) == Converted(t[p..], q - p)
  {
    var c := t[p..];
    assert c[q - p] == t[q];
    var n := if t[q] == '-' || t[q] == '+' then q + 1 else q;
    var e := Span(t, n, Digits, true);
    SpanShift(t, p, n, Digits, true);
    SuffixSlice(t, p, n, e);
  }

  /** A slice of the text from p on is a slice of the text. */
  lemma SuffixSlice(t: string, p: nat, a: nat, b: nat)
    requires p <= a <= b <= |t|
    ensures t[p..][a - p..b - p] == t[a..b]
  {
  }

  /** The conversion depends only on the text from position p on. */
  lemma NumGetShift(st: Stream, p: nat)
    requires Good(st) && p <= st.pos < |st.text|
    ensures NumGet(st).1 == NumGet(StreamState(st.text[p..], st.pos - p, false, false)).1
  {
    NumGetAt(st);
    NumGetAt(StreamState(st.text[p..], st.pos - p, false, false));
    ConvertedShift(st.text, p, st.pos);
  }

  /** `>> n` on a good stream depends only on the unread part of the buffer. */
  lemma ReadIntShift(st: Stream)
    requires Good(st)
    ensures ReadInt(st).1 == IntField(st.text[st.pos..])
  {
    SentryShift(st);
    var s1 := Sentry(st, true);
    if !s1.fail {
      NumGetShift(s1, st.pos);
    }
  }

  /** A run of digits followed by a non-digit (or the end) is a whole run. */
  lemma DigitRun(t: string, n: nat, ds: string, r: string)
    requires n <= |t| && t[n..] == ds + r
    requires AllDigits(ds) && (r == [] || r[0] !in Digits)
    ensures n + |ds| <= |t| && Span(t, n, Digits, true) == n + |ds|
    ensures t[n..n + |ds|] == ds
  {
    var e := n + |ds|;
    assert forall k :: n <= k < e ==> t[k] == ds[k - n];
    assert e < |t| ==> t[e] == r[0];
    SpanIs(t, n, Digits, true, e);
    assert t[n..e] == t[n..][..|ds|];
  }

  /** An optional sign and a run of digits convert to the number they denote,
      clamped to the int range. */
  lemma ConvertedNumber(t: string, p: nat, sign: string, ds: string, r: string)
    requires p <= |t| && t[p..] == sign + ds + r
    requires sign == "" || sign == "+" || sign == "-"
    requires ds != [] && AllDigits(ds) && (r == [] || r[0] !in Digits)
    ensures p < |t| && Converted(t, p) == Some(Clamp(Signed(sign == "-", DecimalValue(ds))))
  {
    var n := p + |sign|;
    assert t[n..] == ds + r by {
      assert t[n..] == t[p..][|sign|..];
    }
    DigitRun(t, n, ds, r);
    assert t[p] == if sign == "" then ds[0] else sign[0];
    assert n == if t[p] == '-' || t[p] == '+' then p + 1 else p;
    assert (t[p] == '-') == (sign == "-");
  }

  /** Text that does not start with a number converts to 0. */
  lemma ConvertedNoDigits(t: string, p: nat)
    requires p < |t|
    requires if t[p] == '+' || t[p] == '-' then p + 1 == |t| || t[p + 1] !in Digits else t[p] !in Digits
    ensures Converted(t, p) == Some(0)
  {
    if t[p] == '+' || t[p] == '-' {
      SpanIs(t, p + 1, Digits, true, p + 1);
    } else {
      SpanIs(t, p, Digits, true, p);
    }
  }

  /** A number after optional whitespace and an optional sign is stored, and
      clamped to the int range. */
  lemma IntFieldNumber(c: string, ws: string, sign: string, ds: string, r: string)
    requires c == ws + sign + ds + r
    requires AllSpaces(ws) && (sign == "" || sign == "+" || sign == "-")
    requires ds != [] && AllDigits(ds) && (r == [] || r[0] !in Digits)
    ensures IntField(c) == Some(Clamp(Signed(sign == "-", DecimalValue(ds))))
  {
    assert c[|ws|] == if sign == "" then ds[0] else sign[0];
    SpanIs(c, 0, Spaces, true, |ws|);
    assert c[|ws|..] == sign + ds + r;
    ConvertedNumber(c, |ws|, sign, ds, r);
    NumGetAt(Sentry(Open(c), true));
  }

  /** Input that is nothing but whitespace leaves n untouched. */
  lemma IntFieldBlank(c: string)
    requires AllSpaces(c)
    ensures IntField(c) == None
  {
    SpanIs(c, 0, Spaces, true, |c|);
  }

  /** Input whose first non-blank text is not a number stores 0. */
  lemma IntFieldNotNumber(c: string, ws: string, r: string)
    requires c == ws + r && AllSpaces(ws) && r != [] && r[0] !in Spaces
    requires if r[0] == '+' || r[0] == '-' then |r| == 1 || r[1] !in Digits else r[0] !in Digits
    ensures IntField(c) == Some(0)
  {
    assert c[|ws|] == r[0];
    SpanIs(c, 0, Spaces, true, |ws|);
    assert |r| > 1 ==> c[|ws| + 1] == r[1];
    ConvertedNoDigits(c, |ws|);
    NumGetAt(Sentry(Open(c), true));
  }

  /** A line is malformed exactly when it has fewer than five fields; otherwise
      the timestamp comes from the fourth field without its first character. */
  lemma ParseLineFields(line: string, parseTimestamp: string -> int)
    ensures ParseLine(line, parseTimestamp).Malformed? <==> |Words(line, 0)| < 5
    ensures ParseLine(line, parseTimestamp).Parsed? ==>
              |Words(line, 0)| >= 5 && |Words(line, 0)[3]| > 0 &&
              ParseLine(line, parseTimestamp).timestamp == parseTimestamp(Words(line, 0)[3][1..])
  {
    ReadWordsFields(Open(line), 5);
  }

  /** Reading a line that follows a five-field head: the header leaves the
      stream right after the head, and the rest of the entry comes from there. */
  lemma AfterHeaderDate(line: string, parseTimestamp: string -> int, head: string, rest: string)
    requires line == head + rest && FiveFieldHead(head) && FollowsFields(rest)
    ensures |Words(head, 0)[3]| > 0
    ensures var s5 := StreamState(line, |head|, rest == [], false);
            var (s7, request) := ReadRequest(s5);
            ParseLine(line, parseTimestamp) ==
              Parsed(parseTimestamp(Words(head, 0)[3][1..]), request, ReadInt(s7).1)
  {
    AfterHeader(line, head, rest);
  }

  /** Without a quote the request is the rest of the input. */
  lemma RequestNoQuote(st: Stream, a: string)
    requires !st.fail && st.text[st.pos..] == a && '"' !in a && (st.eof <==> a == [])
    ensures ReadRequest(st).1 == a && !Good(ReadRequest(st).0)
  {
    if a != [] {
      GetLineToEnd(st, '"', a);
    }
  }

  /** With one quote the request is the text after it. */
  lemma RequestOneQuote(st: Stream, a: string, b: string)
    requires Good(st) && st.text[st.pos..] == a + ['"'] + b && '"' !in a && '"' !in b
    ensures ReadRequest(st).1 == b && !Good(ReadRequest(st).0)
  {
    GetLineTo(st, '"', a, b);
    var s1 := GetLine(st, '"').0;
    assert st.text[s1.pos..] == b;
    GetLineToEnd(s1, '"', b);
  }

  /** With two quotes the request is the text between them, and the stream
      stands right after the second. */
  lemma RequestTwoQuotes(st: Stream, a: string, b: string, c: string)
    requires Good(st) && st.text[st.pos..] == a + ['"'] + b + ['"'] + c && '"' !in a && '"' !in b
    ensures ReadRequest(st).1 == b && Good(ReadRequest(st).0)
    ensures ReadRequest(st).0.text[ReadRequest(st).0.pos..] == c
  {
    assert st.text[st.pos..] == a + ['"'] + (b + ['"'] + c);
    GetLineTo(st, '"', a, b + ['"'] + c);
    var s1 := GetLine(st, '"').0;
    assert st.text[s1.pos..] == b + ['"'] + c;
    GetLineTo(s1, '"', b, c);
  }

  /** No quote after the header: the request is the rest of the line, and the
      status is never assigned. */
  lemma ParseLineNoQuote(line: string, parseTimestamp: string -> int, head: string, rest: string)
    requires line == head + rest && FiveFieldHead(head) && FollowsFields(rest)
    requires '"' !in rest
    ensures ParseLine(line, parseTimestamp) ==
              Parsed(parseTimestamp(Words(head, 0)[3][1..]), rest, None)
  {
    AfterHeaderDate(line, parseTimestamp, head, rest);
    RequestNoQuote(StreamState(line, |head|, rest == [], false), rest);
  }

  /** One quote after the header: the request is the text after it, and the
      status is never assigned. */
  lemma ParseLineOneQuote(line: string, parseTimestamp: string -> int, head: string, rest: string,
                          a: string, b: string)
    requires line == head + rest && FiveFieldHead(head) && FollowsFields(rest)
    requires rest == a + ['"'] + b && '"' !in a && '"' !in b
    ensures ParseLine(line, parseTimestamp) ==
              Parsed(parseTimestamp(Words(head, 0)[3][1..]), b, None)
  {
    AfterHeaderDate(line, parseTimestamp, head, rest);
    RequestOneQuote(StreamState(line, |head|, false, false), a, b);
  }

  /** Two quotes after the header: the request is the text between them, and the
      status is what `>> n` makes of the text after the second one. */
  lemma ParseLineTwoQuotes(line: string, parseTimestamp: string -> int, head: string, rest: string,
                           a: string, b: string, c: string)
    requires line == head + rest && FiveFieldHead(head) && FollowsFields(rest)
    requires rest == a + ['"'] + b + ['"'] + c && '"' !in a && '"' !in b
    ensures ParseLine(line, parseTimestamp) ==
              Parsed(parseTimestamp(Words(head, 0)[3][1..]), b, IntField(c))
  {
    AfterHeaderDate(line, parseTimestamp, head, rest);
    var s5 := StreamState(line, |head|, false, false);
    RequestTwoQuotes(s5, a, b, c);
    ReadIntShift(ReadRequest(s5).0);
  }

  /** The empty line has no fields. */
  lemma EmptyLineMalformed(parseTimestamp: string -> int)
    ensures ParseLine("", parseTimestamp) == Malformed
  {
    ParseLineFields("", parseTimestamp);
  }

  /** The fields of a text, one at a time: blanks from p to q, then a field
      from q to e. */
  lemma WordsFrom(text: string, p: nat, q: nat, e: nat)
    requires p <= q < e <= |text|
    requires forall k :: p <= k < q ==> text[k] in Spaces
    requires forall k :: q <= k < e ==> text[k] !in Spaces
    requires e == |text| || text[e] in Spaces
    ensures Words(text, p) == [text[q..e]] + Words(text, e)
  {
    SpanIs(text, p, Spaces, true, q);
    SpanIs(text, q, Spaces, false, e);
  }

  /** Leading blanks do not change the fields. */
  lemma WordsSkip(text: string, p: nat)
    requires p < |text| && text[p] in Spaces
    ensures Words(text, p) == Words(text, p + 1)
  {
    assert Span(text, p, Spaces, true) == Span(text, p + 1, Spaces, true);
  }

  /** A blank run and a field of a text, seen in the text from p on. */
  lemma RunsOfSuffix(text: string, p: nat, j: nat, q: nat, e: nat)
    requires p <= j <= q < e <= |text|
    requires forall k :: j <= k < q ==> text[k] in Spaces
    requires forall k :: q <= k < e ==> text[k] !in Spaces
    requires e == |text| || text[e] in Spaces
    ensures var c := text[p..];
            && (forall k :: j - p <= k < q - p ==> c[k] in Spaces)
            && (forall k :: q - p <= k < e - p ==> c[k] !in Spaces)
            && (e - p == |c| || c[e - p] in Spaces)
            && c[q - p..e - p] == text[q..e]
  {
    var c := text[p..];
    assert forall k :: j - p <= k < e - p ==> c[k] == text[k + p];
  }

  /** One field of the shifted text: if the fields after it agree, so do the
      fields from j on. */
  lemma ShiftField(text: string, p: nat, j: nat, q: nat, e: nat)
    requires p <= j <= q < e <= |text|
    requires forall k :: j <= k < q ==> text[k] in Spaces
    requires forall k :: q <= k < e ==> text[k] !in Spaces
    requires e == |text| || text[e] in Spaces
    requires Words(text, e) == Words(text[p..], e - p)
    ensures Words(text, j) == Words(text[p..], j - p)
  {
    WordsFrom(text, j, q, e);
    RunsOfSuffix(text, p, j, q, e);
    WordsFrom(text[p..], j - p, q - p, e - p);
  }

  /** The fields from position j on depend only on the text from p on. */
  lemma {:induction false} WordsShift(text: string, p: nat, j: nat)
    requires p <= j <= |text|
    ensures Words(text, j) == Words(text[p..], j - p)
    decreases |text| - j
  {
    var q := Span(text, j, Spaces, true);
    SpanRun(text, j, Spaces, true);
    if q < |text| {
      var e := Span(text, q, Spaces, false);
      SpanRun(text, q, Spaces, false);
      WordsShift(text, p, e);
      ShiftField(text, p, j, q, e);
    } else {
      SpanIs(text[p..], j - p, Spaces, true, |text| - p);
    }
  }

  /** A field followed by one blank and more text. */
  lemma FieldCons(w: string, x: string)
    requires |w| > 0 && NoSpaces(w)
    ensures Words(w + " " + x, 0) == [w] + Words(x, 0)
  {
    var t := w + " " + x;
    assert forall k :: 0 <= k < |w| ==> t[k] == w[k];
    assert t[|w|] == ' ';
    WordsFrom(t, 0, 0, |w|);
    assert t[..|w|] == w;
    WordsSkip(t, |w|);
    WordsShift(t, |w| + 1, |w| + 1);
    assert t[|w| + 1..] == x;
  }

  /** What follows the last blank ends the text. */
  lemma LastOfCons(w: string, x: string)
    requires |x| > 0
    ensures var t := w + " " + x; t[|t| - 1] == x[|x| - 1]
  {
  }

  /** Five fields joined by single blanks are a five-field head. */
  lemma JoinedHead(f1: string, f2: string, f3: string, f4: string, f5: string)
    requires |f1| > 0 && |f2| > 0 && |f3| > 0 && |f4| > 0 && |f5| > 0
    requires NoSpaces(f1) && NoSpaces(f2) && NoSpaces(f3) && NoSpaces(f4) && NoSpaces(f5)
    ensures var head := f1 + " " + (f2 + " " + (f3 + " " + (f4 + " " + f5)));
            FiveFieldHead(head) && Words(head, 0) == [f1, f2, f3, f4, f5]
  {
    var h4 := f4 + " " + f5;
    var h3 := f3 + " " + h4;
    var h2 := f2 + " " + h3;
    var h1 := f1 + " " + h2;
    WordsFrom(f5, 0, 0, |f5|);
    assert f5[..|f5|] == f5;
    assert Words(f5, 0) == [f5];
    FieldCons(f4, f5);
    FieldCons(f3, h4);
    FieldCons(f2, h3);
    FieldCons(f1, h2);
    assert Words(h1, 0) == [f1, f2, f3, f4, f5];
    LastOfCons(f4, f5);
    LastOfCons(f3, h4);
    LastOfCons(f2, h3);
    LastOfCons(f1, h2);
  }

  /** A blank and a decimal number convert to that number (clamped). */
  lemma StatusField(ds: string, tail: string)
    requires ds != [] && AllDigits(ds) && (tail == [] || tail[0] !in Digits)
    ensures IntField(" " + ds + tail) == Some(Clamp(DecimalValue(ds)))
  {
    IntFieldNumber(" " + ds + tail, " ", "", ds, tail);
  }

  /** After a five-field head, a blank, a quoted request, a blank and a decimal
      number: the request is the quoted text and the status the number. */
  lemma QuotedRequestAndStatus(head: string, request: string, ds: string, tail: string,
                               parseTimestamp: string -> int)
    requires FiveFieldHead(head)
    requires '"' !in request && ds != [] && AllDigits(ds) && (tail == [] || tail[0] !in Digits)
    ensures ParseLine(head + " \"" + request + "\" " + ds + tail, parseTimestamp)
            == Parsed(parseTimestamp(Words(head, 0)[3][1..]), request, Some(Clamp(DecimalValue(ds))))
  {
    var c := " " + ds + tail;
    var rest := " " + ['"'] + request + ['"'] + c;
    assert head + " \"" + request + "\" " + ds + tail == head + rest;
    ParseLineTwoQuotes(head + rest, parseTimestamp, head, rest, " ", request, c);
    StatusField(ds, tail);
  }

  /** A well-formed line of the Common Log Format: five fields, the request in
      quotes and a decimal status. The request is the text between the quotes,
      the status the number, and the timestamp comes from the date field
      without its opening bracket. */
  lemma WellFormedLine(ip: string, ident: string, user: string, date: string, zone: string,
                       request: string, ds: string, tail: string, parseTimestamp: string -> int)
    requires |ip| > 0 && |ident| > 0 && |user| > 0 && |date| > 0 && |zone| > 0
    requires NoSpaces(ip) && NoSpaces(ident) && NoSpaces(user) && NoSpaces(date) && NoSpaces(zone)
    requires '"' !in request && ds != [] && AllDigits(ds) && (tail == [] || tail[0] !in Digits)
    ensures var head := ip + " " + (ident + " " + (user + " " + (date + " " + zone)));
            ParseLine(head + " \"" + request + "\" " + ds + tail, parseTimestamp)
            == Parsed(parseTimestamp(date[1..]), request, Some(Clamp(DecimalValue(ds))))
  {
    JoinedHead(ip, ident, user, date, zone);
    QuotedRequestAndStatus(ip + " " + (ident + " " + (user + " " + (date + " " + zone))),
                           request, ds, tail, parseTimestamp);
  }
}
