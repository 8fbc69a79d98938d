/** The parser contract and the four primitive matchers (string_parser.py).

    A source parser is an object that records `(hasMatch, start, size)` when
    its `match(s, i, n)` runs. Here a parser is an immutable configuration and
    `match` is a pure function returning the state it would have recorded, or
    the fatal error it would have raised. Because nothing is recorded inside
    the parser, a `clone` is the configuration itself and `Fresh` is the state
    a newly built parser starts in.

    `match` is split into the three steps every concrete parser shares:
    `Classify` decides between the empty-request shortcut and a clamped
    search range, the concrete test runs on that range only (its `requires`
    is what the source's `_test` is promised), and `Record` turns the test's
    answer into the recorded state, rejecting a size larger than the range.
 */
module Parsers {
  import opened Outcomes

  /** What a parser records after `match`. */
  datatype MatchState = MatchState(hasMatch: bool, start: int, size: nat)

  /** The state of a parser that has not matched anything yet. */
  const Fresh: MatchState := MatchState(false, 0, 0)

  /** How `match` treats a request before consulting a concrete test:
      an empty request records a match at `at` without testing, otherwise
      the test searches `len` characters from `start`. */
  datatype Request = EmptyRequest(at: int) | Range(start: nat, len: nat)

  /** The request is for an empty string, no characters, or starts at or
      beyond the end of `s`. */
  predicate IsEmptyRequest(s: string, i: nat, n: int)
  {
    |s| == 0 || n == 0 || i >= |s|
  }

  /** Step one of `match`: a negative `n`, or one reaching past the end, is
      clamped to the rest of the string. */
  function Classify(s: string, i: nat, n: int): (q: Request)
    ensures q.EmptyRequest? <==> IsEmptyRequest(s, i, n)
    ensures q.EmptyRequest? ==> q.at == i + n
    ensures q.Range? ==> q.start == i && 1 <= q.len && i + q.len <= |s|
    ensures q.Range? && 0 < n && i + n <= |s| ==> q.len == n
    ensures q.Range? && (n < 0 || i + n > |s|) ==> q.len == |s| - i
  {
    if IsEmptyRequest(s, i, n) then EmptyRequest(i + n)
    else if n < 0 || i + n > |s| then Range(i, |s| - i)
    else Range(i, n)
  }

  /** What a concrete `_test` answers: whether it matched, and how much. */
  datatype TestResult = TestResult(found: bool, size: nat)

  /** Step three of `match`: a found size above the searched length `len`
      is fatal; a failed test records size 0. */
  function Record(start: nat, len: nat, t: TestResult): (r: Result<MatchState>)
    ensures r.Err? <==> t.found && t.size > len
    ensures r.Err? ==> r.error == WrongSize
    ensures r.Ok? ==> r.value.start == start && r.value.hasMatch == t.found
    ensures r.Ok? && t.found ==> r.value.size == t.size <= len
    ensures r.Ok? && !t.found ==> r.value.size == 0
  {
    if !t.found then Ok(MatchState(false, start, 0))
    else if t.size > len then Err(WrongSize)
    else Ok(MatchState(true, start, t.size))
  }

  /** The promises `match` makes for every concrete parser: the empty
      request records `canMatchEmpty` at `i + n` with size 0; otherwise the
      only fault is a wrong size, the start is `i`, the size never exceeds
      the clamped length and is 0 without a match. */
  predicate MatchContract(s: string, i: nat, n: int, canMatchEmpty: bool, r: Result<MatchState>)
  {
    (IsEmptyRequest(s, i, n) ==> r == Ok(MatchState(canMatchEmpty, i + n, 0))) &&
    (!IsEmptyRequest(s, i, n) ==>
       (r.Err? ==> r.error == WrongSize) &&
       (r.Ok? ==> r.value.start == i && r.value.size <= Classify(s, i, n).len &&
                  (!r.value.hasMatch ==> r.value.size == 0)))
  }

  // ---------------------------------------------------------------------------
  // Primitive matchers

  datatype Primitive =
    /** CharParser: one character from the list. */
    | CharIn(chars: string)
    /** NotCharParser: one character not in the list. */
    | CharNotIn(chars: string)
    /** StringParser: the literal exactly. */
    | Literal(text: string)
    /** NotStringParser: everything up to the first occurrence of `delim`. */
    | UpTo(delim: string)

  /** CharParser(chars): the list must not be empty. */
  function NewCharParser(chars: string): (r: Result<Primitive>)
    ensures r.Ok? <==> |chars| > 0
    ensures r.Ok? ==> r.value == CharIn(chars)
    ensures r.Err? ==> r.error == EmptyCharList
  {
    if |chars| == 0 then Err(EmptyCharList) else Ok(CharIn(chars))
  }

  /** NotCharParser(chars): the list must not be empty. */
  function NewNotCharParser(chars: string): (r: Result<Primitive>)
    ensures r.Ok? <==> |chars| > 0
    ensures r.Ok? ==> r.value == CharNotIn(chars)
    ensures r.Err? ==> r.error == EmptyCharList
  {
    if |chars| == 0 then Err(EmptyCharList) else Ok(CharNotIn(chars))
  }

  /** StringParser(text): the literal must not be empty. */
  function NewStringParser(text: string): (r: Result<Primitive>)
    ensures r.Ok? <==> |text| > 0
    ensures r.Ok? ==> r.value == Literal(text)
    ensures r.Err? ==> r.error == EmptyString
  {
    if |text| == 0 then Err(EmptyString) else Ok(Literal(text))
  }

  /** NotStringParser(delim): the delimiter must not be empty. */
  function NewNotStringParser(delim: string): (r: Result<Primitive>)
    ensures r.Ok? <==> |delim| > 0
    ensures r.Ok? ==> r.value == UpTo(delim)
    ensures r.Err? ==> r.error == EmptyString
  {
    if |delim| == 0 then Err(EmptyString) else Ok(UpTo(delim))
  }

  /** None of the primitive matchers accepts an empty request. */
  function CanMatchEmpty(p: Primitive): bool
  {
    false
  }

  /** `sub` occurs at `j` and ends no later than `hi`. */
  predicate OccursWithin(s: string, sub: string, j: nat, hi: nat)
  {
    j + |sub| <= hi <= |s| && s[j..j + |sub|] == sub
  }

  /** No occurrence of `sub` ending by `hi` starts in [lo, j). */
  predicate NoneStartsBefore(s: string, sub: string, lo: nat, j: nat, hi: nat)
  {
    forall t :: lo <= t < j ==> !OccursWithin(s, sub, t, hi)
  }

  /** `s.find(sub, lo, hi)`: the first index from `lo` at which `sub`
      occurs wholly inside `s[lo..hi]`, if any. */
  function Find(s: string, sub: string, lo: nat, hi: nat): (r: Option<nat>)
    requires lo <= hi <= |s|
    decreases hi - lo
    ensures r.Some? ==> lo <= r.value && OccursWithin(s, sub, r.value, hi)
    ensures r.Some? ==> NoneStartsBefore(s, sub, lo, r.value, hi)
    ensures r.None? ==> NoneStartsBefore(s, sub, lo, hi + 1, hi)
  {
    if lo + |sub| > hi then None
    else if s[lo..lo + |sub|] == sub then Some(lo)
    else Find(s, sub, lo + 1, hi)
  }

  /** The concrete `_test`, run only on a clamped, non-empty range. */
  function Test(p: Primitive, s: string, i: nat, m: nat): (t: TestResult)
    requires 1 <= m && i + m <= |s|
    // CharParser / NotCharParser: one character, by membership.
    ensures p.CharIn? ==> (t.found <==> s[i] in p.chars) && (t.found ==> t.size == 1)
    ensures p.CharNotIn? ==> (t.found <==> s[i] !in p.chars) && (t.found ==> t.size == 1)
    // StringParser: the literal at i, regardless of m.
    ensures p.Literal? ==> (t.found <==> OccursWithin(s, p.text, i, |s|)) &&
                           (t.found ==> t.size == |p.text|)
    // NotStringParser: fails exactly when the delimiter fits in the range
    // and sits at i; otherwise the match runs up to the first occurrence
    // of the delimiter inside the range, or over the whole range.
    ensures p.UpTo? ==> t.size <= m
    ensures p.UpTo? ==> (!t.found <==> m >= |p.delim| && OccursWithin(s, p.delim, i, i + m))
    ensures p.UpTo? && t.found && t.size < m ==> OccursWithin(s, p.delim, i + t.size, i + m)
    ensures p.UpTo? && t.found ==> NoneStartsBefore(s, p.delim, i, i + t.size, i + m)
  {
    match p
    case CharIn(chars) =>
      if s[i] in chars then TestResult(true, 1) else TestResult(false, 0)
    case CharNotIn(chars) =>
      if s[i] !in chars then TestResult(true, 1) else TestResult(false, 0)
    case Literal(text) =>
      // The source compares the clamped slice s[i:i+len(text)].
      var e := if i + |text| <= |s| then i + |text| else |s|;
      if s[i..e] == text then TestResult(true, |text|) else TestResult(false, 0)
    case UpTo(delim) =>
      var j := Find(s, delim, i, i + m);
      if j.None? || m < |delim| then TestResult(true, m)
      else if j.value - i == 0 then TestResult(false, 0)
      else TestResult(true, j.value - i)
  }

  /** `p.match(s, i, n)`. */
  function Match(p: Primitive, s: string, i: nat, n: int): (r: Result<MatchState>)
    ensures MatchContract(s, i, n, CanMatchEmpty(p), r)
    ensures !IsEmptyRequest(s, i, n) ==>
              var q := Classify(s, i, n);
              var t := Test(p, s, i, q.len);
              (r.Err? <==> t.found && t.size > q.len) &&
              (r.Ok? ==> r.value.hasMatch == t.found && (t.found ==> r.value.size == t.size))
  {
    match Classify(s, i, n)
    case EmptyRequest(at) => Ok(MatchState(CanMatchEmpty(p), at, 0))
    case Range(start, len) => Record(start, len, Test(p, s, start, len))
  }

  /** Python's `s[a:b]`: negative bounds count from the end, and bounds
      are clamped to the string. */
  function PySlice(s: string, a: int, b: int): (r: string)
    ensures 0 <= a <= b <= |s| ==> r == s[a..b]
    ensures a == b ==> r == ""
  {
    var lo := if a < 0 then (if a + |s| < 0 then 0 else a + |s|) else (if a > |s| then |s| else a);
    var hi := if b < 0 then (if b + |s| < 0 then 0 else b + |s|) else (if b > |s| then |s| else b);
    if lo < hi then s[lo..hi] else ""
  }

  /** `getMatch(s)`: the recorded sub-string of `s`. */
  function GetMatch(s: string, st: MatchState): (r: Result<string>)
    ensures r.Err? <==> !st.hasMatch || st.start >= |s| || st.start + st.size > |s|
    ensures r.Err? && !st.hasMatch ==> r.error == NoMatch
    ensures r.Err? && st.hasMatch ==> r.error == NotSubstring
    ensures r.Ok? && st.start >= 0 ==> r.value == s[st.start..st.start + st.size]
    ensures r.Ok? && st.size == 0 ==> r.value == ""
  {
    if !st.hasMatch then Err(NoMatch)
    else if st.start >= |s| || st.start + st.size > |s| then Err(NotSubstring)
    else Ok(PySlice(s, st.start, st.start + st.size))
  }

  // ---------------------------------------------------------------------------
  // Properties

  /** A recorded match with a non-negative start always lies inside the
      string it was matched on, so `getMatch` on that string succeeds and
      returns exactly the matched characters. */
  lemma MatchThenGetMatch(p: Primitive, s: string, i: nat, n: int)
    requires !IsEmptyRequest(s, i, n)
    requires Match(p, s, i, n).Ok? && Match(p, s, i, n).value.hasMatch
    ensures var st := Match(p, s, i, n).value;
            GetMatch(s, st) == Ok(s[i..i + st.size])
  {
    var st := Match(p, s, i, n).value;
    assert st.start == i && st.size <= Classify(s, i, n).len;
  }

  /** A literal is found at an offset start but not at a non-matching index
      0, and a literal reaching past the searched range is fatal. */
  lemma LiteralExamples()
    ensures Match(Literal("ABC"), "ABC123", 0, -1) == Ok(MatchState(true, 0, 3))
    ensures GetMatch("ABC123", MatchState(true, 0, 3)) == Ok("ABC")
    ensures Match(Literal("ABC"), " ABC ", 0, -1) == Ok(MatchState(false, 0, 0))
    ensures Match(Literal("ABC"), " ABC ", 1, -1) == Ok(MatchState(true, 1, 3))
    ensures Match(Literal("ABC"), "ABC", 0, 2) == Err(WrongSize)
  {
    assert " ABC "[1..4] == "ABC";
    assert " ABC "[0..3][0] == ' ';
    assert "ABC123"[0..3] == "ABC";
    assert "ABC"[0..3] == "ABC";
  }

  /** A test that always reports success may report an empty match, which
      `getMatch` returns as the empty string, even at an offset. */
  lemma AlwaysMatchingTestMayMatchEmpty()
    ensures Classify("ss", 1, -1) == Range(1, 1)
    ensures Record(1, 1, TestResult(true, 0)) == Ok(MatchState(true, 1, 0))
    ensures GetMatch(" s", MatchState(true, 1, 0)) == Ok("")
    ensures Record(0, 2, TestResult(true, 1)) == Ok(MatchState(true, 0, 1))
    ensures GetMatch(" s", MatchState(true, 0, 1)) == Ok(" ")
  {
    assert " s"[0..1] == " ";
  }

  /** The empty-request shortcut records its start at `i + n`: with the
      default `n == -1` that is one before `i`, and for an empty string it
      is negative. `getMatch` still yields the empty string for it. */
  lemma EmptyRequestStart(p: Primitive)
    ensures Classify("ab", 2, -1) == EmptyRequest(1)
    ensures Classify("", 0, -1) == EmptyRequest(-1)
    ensures GetMatch("", MatchState(true, -1, 0)) == Ok("")
    ensures Match(p, "ab", 2, -1) == Ok(MatchState(false, 1, 0))
  {
  }

  /** NotStringParser on a small input: everything before the delimiter, a
      failure when the delimiter is first, the whole range when the
      delimiter does not fit in it. */
  lemma UpToExamples()
    ensures Match(UpTo("}"), "ab}c", 0, -1) == Ok(MatchState(true, 0, 2))
    ensures Match(UpTo("}"), "}c", 0, -1) == Ok(MatchState(false, 0, 0))
    ensures Match(UpTo("bc"), "abc", 0, 2) == Ok(MatchState(true, 0, 2))
  {
    assert "ab}c"[0..1][0] == 'a';
    assert "ab}c"[1..2][0] == 'b';
    assert "abc"[0..2][0] == 'a';
    assert "ab}c"[2..3] == "}";
    assert "}c"[0..1] == "}";
  }

  // ---------------------------------------------------------------------------
  // The literal matcher and the searched range

  /** As written, StringParser compares the literal with `s` from `i` on
      without looking at the searched length, so a literal that is present
      but reaches past the range is not a plain failure: `match` raises. */
  lemma LiteralPastRangeIsFatal()
    ensures Test(Literal("ABC"), "ABC", 0, 2) == TestResult(true, 3)
    ensures Match(Literal("ABC"), "ABC", 0, 2) == Err(WrongSize)
  {
    assert "ABC"[0..3] == "ABC";
  }

  /** StringParser's test as the base class requires every test to behave:
      a literal longer than the searched length cannot match. */
  function CheckedLiteralTest(text: string, s: string, i: nat, m: nat): (t: TestResult)
    requires 1 <= m && i + m <= |s|
    ensures t.found <==> OccursWithin(s, text, i, i + m)
    ensures t.found ==> t.size == |text|
    ensures t.size <= m
  {
    if |text| <= m && s[i..i + |text|] == text then TestResult(true, |text|) else TestResult(false, 0)
  }

  /** With the length check, matching a literal is never fatal, and it
      agrees with the as-written test whenever the literal fits the range. */
  lemma CheckedLiteralNeverFatal(text: string, s: string, i: nat, n: int)
    requires !IsEmptyRequest(s, i, n)
    ensures var q := Classify(s, i, n);
            Record(q.start, q.len, CheckedLiteralTest(text, s, i, q.len)).Ok?
    ensures var q := Classify(s, i, n);
            |text| <= q.len ==> CheckedLiteralTest(text, s, i, q.len) == Test(Literal(text), s, i, q.len)
  {
  }
}
