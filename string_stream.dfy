/** A model of the part of C++11 std::istringstream (in the "C" locale) that the
    log parser relies on: formatted extraction of a whitespace-delimited word
    (operator>> into a std::string), formatted extraction of an int
    (operator>> into an int) and std::getline with a delimiter.

    The stream's observable state is a value of type Stream: the buffer, the
    read position and the two state bits a string stream can acquire (eofbit
    and failbit; badbit is never set by a string buffer). The pure functions
    Sentry, ReadWord, GetLine and ReadInt give the effect of one operation;
    the class IStringStream performs the same operations step by step and is
    proved to agree with them. */
module StringStream {

  datatype Option<T> = None | Some(value: T)

  /** The characters isspace accepts in the "C" locale. */
  const Spaces: set<char> := set c: char | c == ' ' || '\t' <= c <= '\r'

  const Digits: set<char> := set c: char | '0' <= c <= '9'

  /** Bounds of a 32-bit int, the type the status code is read into. */
  const IntMin: int := -0x8000_0000
  const IntMax: int := 0x7fff_ffff

  datatype StreamState = StreamState(text: string, pos: nat, eof: bool, fail: bool)

  /** The states a string stream can reach: the position lies inside the buffer
      and eofbit is only ever raised once the whole buffer has been consumed. */
  type Stream = s: StreamState | s.pos <= |s.text| && (s.eof ==> s.pos == |s.text|)
    witness StreamState("", 0, false, false)

  /** A freshly constructed std::istringstream over s. */
  function Open(s: string): Stream
  {
    StreamState(s, 0, false, false)
  }

  /** std::ios::good(): neither eofbit nor failbit is set. */
  predicate Good(st: Stream)
  {
    !st.eof && !st.fail
  }

  /** The end of the longest run starting at p whose characters are all in
      `chars` (when member holds) or all outside it (when it does not). */
  function Span(text: string, p: nat, chars: set<char>, member: bool): (q: nat)
    requires p <= |text|
    ensures p <= q <= |text|
    ensures q < |text| ==> (text[q] in chars) != member
    decreases |text| - p
  {
    if p == |text| || (text[p] in chars) != member then p
    else Span(text, p + 1, chars, member)
  }

  /** Every character of the run belongs to it. */
  lemma {:induction false} SpanRun(text: string, p: nat, chars: set<char>, member: bool)
    requires p <= |text|
    ensures forall k :: p <= k < Span(text, p, chars, member) ==> (text[k] in chars) == member
    decreases |text| - p
  {
    if p < |text| && (text[p] in chars) == member {
      SpanRun(text, p + 1, chars, member);
    }
  }

  /** The end of a run is determined by the two facts that describe it. */
  lemma SpanIs(text: string, p: nat, chars: set<char>, member: bool, q: nat)
    requires p <= q <= |text|
    requires forall k :: p <= k < q ==> (text[k] in chars) == member
    requires q < |text| ==> (text[q] in chars) != member
    ensures Span(text, p, chars, member) == q
  {
    SpanRun(text, p, chars, member);
  }

  /** The value of a digit character. */
  function DigitValue(c: char): int
  {
    c as int - '0' as int
  }

  /** The number a string of decimal digits denotes (most significant first). */
  function DecimalValue(ds: string): int
  {
    if ds == [] then 0 else 10 * DecimalValue(ds[..|ds| - 1]) + DigitValue(ds[|ds| - 1])
  }

  /** What num_get stores for a value that does not fit into an int. */
  function Clamp(v: int): (r: int)
    ensures IntMin <= r <= IntMax
    ensures IntMin <= v <= IntMax ==> r == v
    ensures v < IntMin ==> r == IntMin
    ensures v > IntMax ==> r == IntMax
  {
    if v < IntMin then IntMin else if v > IntMax then IntMax else v
  }

  /** The sentry every input operation constructs first. On a stream that is
      not good it raises failbit. Otherwise, when skipws is set, it skips
      leading whitespace, raising eofbit and failbit if it runs off the end. */
  function Sentry(st: Stream, skipws: bool): (r: Stream)
    ensures r.text == st.text
    ensures !r.fail <==> Good(st) && (skipws ==> Span(st.text, st.pos, Spaces, true) < |st.text|)
    ensures !r.fail ==> Good(r)
    ensures !r.fail && skipws ==> r.pos == Span(st.text, st.pos, Spaces, true)
    ensures !r.fail && skipws ==> r.pos < |r.text| && r.text[r.pos] !in Spaces
    ensures !r.fail && !skipws ==> r == st
  {
    if !Good(st) then st.(fail := true)
    else if !skipws then st
    else
      var q := Span(st.text, st.pos, Spaces, true);
      if q == |st.text| then st.(pos := q, eof := true, fail := true)
      else st.(pos := q)
  }

  /** `is >> word` for a std::string word. The word is assigned (Some) exactly
      when the sentry succeeds, and is then the maximal run of non-space
      characters; a stream that fails leaves the word untouched (None). */
  function ReadWord(st: Stream): (r: (Stream, Option<string>))
    ensures r.0.text == st.text
    ensures st.fail ==> r.0.fail
    ensures r.1.None? <==> r.0.fail
    ensures r.1.Some? ==> |r.1.value| > 0
  {
    var s1 := Sentry(st, true);
    if s1.fail then (s1, None)
    else
      var e := Span(st.text, s1.pos, Spaces, false);
      (s1.(pos := e, eof := e == |st.text|), Some(st.text[s1.pos..e]))
  }

  /** std::getline(is, str, delim). On a stream that is not good it raises
      failbit and leaves str untouched (None). Otherwise str is replaced by the
      characters up to the first delim, which is consumed but not stored; if
      no delim follows, by the rest of the buffer, with eofbit raised, and with
      failbit too when not a single character could be extracted. */
  function GetLine(st: Stream, delim: char): (r: (Stream, Option<string>))
    ensures r.0.text == st.text
    ensures st.fail ==> r.0.fail
    ensures r.1.None? <==> !Good(st)
    ensures r.1.Some? ==> delim !in r.1.value
  {
    if !Good(st) then (st.(fail := true), None)
    else
      var k := Span(st.text, st.pos, {delim}, false);
      SpanRun(st.text, st.pos, {delim}, false);
      if k == |st.text| then (st.(pos := k, eof := true, fail := k == st.pos), Some(st.text[st.pos..k]))
      else (st.(pos := k + 1), Some(st.text[st.pos..k]))
  }

  /** `is >> n` for an int n (C++11 semantics). The sentry skips whitespace;
      a failed sentry leaves n untouched (None). */
  function ReadInt(st: Stream): (r: (Stream, Option<int>))
    ensures r.0.text == st.text
    ensures st.fail ==> r.0.fail
    ensures r.1.None? <==> Sentry(st, true).fail
    ensures r.1.Some? ==> IntMin <= r.1.value <= IntMax
  {
    var s1 := Sentry(st, true);
    if s1.fail then (s1, None) else NumGet(s1)
  }

  /** The conversion num_get performs once the sentry has skipped whitespace:
      an optional sign and then the longest run of digits are consumed. No
      digit stores 0 and raises failbit; a value outside the int range stores
      the nearest bound and raises failbit. */
  function NumGet(st: Stream): (r: (Stream, Option<int>))
    requires Good(st) && st.pos < |st.text|
    ensures r.0.text == st.text
    ensures r.1.Some? && IntMin <= r.1.value <= IntMax
  {
    var p := st.pos;
    var negative := st.text[p] == '-';
    var n := if negative || st.text[p] == '+' then p + 1 else p;
    var e := Span(st.text, n, Digits, true);
    var s2 := st.(pos := e, eof := e == |st.text|);
    if e == n then (s2.(fail := true), Some(0))
    else
      var v := Signed(negative, DecimalValue(st.text[n..e]));
      (s2.(fail := !(IntMin <= v <= IntMax)), Some(Clamp(v)))
  }

  /** The value of a magnitude with its sign applied. */
  function Signed(negative: bool, m: int): int
  {
    if negative then -m else m
  }

  /** The stream object itself: its buffer never changes, and the methods
      advance the position and raise the state bits in place. */
  class IStringStream {
    const text: string
    var pos: nat
    var eof: bool
    var fail: bool

    ghost predicate Valid()
      reads this
    {
      pos <= |text| && (eof ==> pos == |text|)
    }

    /** The stream's state as a value. */
    function Current(): Stream
      reads this
      requires Valid()
    {
      StreamState(text, pos, eof, fail)
    }

    constructor (s: string)
      ensures Valid() && Current() == Open(s)
    {
      text := s;
      pos := 0;
      eof := false;
      fail := false;
    }

    /** Scans forward from the read position without consuming anything. */
    method RunEnd(from: nat, chars: set<char>, member: bool) returns (q: nat)
      requires from <= |text|
      ensures q == Span(text, from, chars, member)
    {
      q := from;
      while q < |text| && (text[q] in chars) == member
        invariant from <= q <= |text|
        invariant Span(text, from, chars, member) == Span(text, q, chars, member)
      {
        q := q + 1;
      }
    }

    method EnterSentry(skipws: bool)
      requires Valid()
      modifies this
      ensures Valid() && Current() == Sentry(old(Current()), skipws)
    {
      if eof || fail {
        fail := true;
      } else if skipws {
        var q := RunEnd(pos, Spaces, true);
        pos := q;
        if q == |text| {
          eof := true;
          fail := true;
        }
      }
    }

    method ExtractWord() returns (w: Option<string>)
      requires Valid()
      modifies this
      ensures Valid() && (Current(), w) == ReadWord(old(Current()))
    {
      EnterSentry(true);
      if fail {
        return None;
      }
      var e := RunEnd(pos, Spaces, false);
      w := Some(text[pos..e]);
      pos := e;
      eof := e == |text|;
    }

    method ExtractLine(delim: char) returns (s: Option<string>)
      requires Valid()
      modifies this
      ensures Valid() && (Current(), s) == GetLine(old(Current()), delim)
    {
      if eof || fail {
        fail := true;
        return None;
      }
      var k := RunEnd(pos, {delim}, false);
      s := Some(text[pos..k]);
      if k == |text| {
        fail := k == pos;
        pos := k;
        eof := true;
      } else {
        pos := k + 1;
      }
    }

    /** The digit run starting at `from` and the number it denotes. */
    method ScanDigits(from: nat) returns (e: nat, m: int)
      requires from <= |text|
      ensures e == Span(text, from, Digits, true)
      ensures m == DecimalValue(text[from..e])
    {
      e, m := from, 0;
      while e < |text| && text[e] in Digits
        invariant from <= e <= |text|
        invariant Span(text, from, Digits, true) == Span(text, e, Digits, true)
        invariant m == DecimalValue(text[from..e])
      {
        assert text[from..e + 1][..e - from] == text[from..e];
        m := m * 10 + DigitValue(text[e]);
        e := e + 1;
      }
    }

    method ExtractInt() returns (v: Option<int>)
      requires Valid()
      modifies this
      ensures Valid() && (Current(), v) == ReadInt(old(Current()))
    {
      EnterSentry(true);
      if fail {
        return None;
      }
      v := ConvertInt();
    }

    method ConvertInt() returns (v: Option<int>)
      requires Valid() && Good(Current()) && pos < |text|
      modifies this
      ensures Valid() && (Current(), v) == NumGet(old(Current()))
    {
      var negative := text[pos] == '-';
      var n := if negative || text[pos] == '+' then pos + 1 else pos;
      var i, m := ScanDigits(n);
      pos := i;
      eof := i == |text|;
      if i == n {
        fail := true;
        v := Some(0);
      } else {
        var x := Signed(negative, m);
        fail := !(IntMin <= x <= IntMax);
        v := Some(Clamp(x));
      }
    }
  }
}
