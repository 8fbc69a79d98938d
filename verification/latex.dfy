/** The LaTeX command matcher (latex_parser.py).

    `CommandParser` recognises a backslash followed by an alphabetic name and
    succeeds only when the name is one of `CommandNames`, compared
    case-sensitively. It composes a sequence parser and an alphabetic-run
    parser that are not part of this model; they are modelled minimally as:
    the character `\` at the start of the range, then the maximal run of
    ASCII letters that follows it inside the range, which must not be empty.
 */
module Latex {
  import opened Outcomes
  import opened Parsers

  /** `command_names_0`: commands that take no arguments. */
  const CommandNames: seq<string> := ["alpha", "beta", "gamma"]

  predicate IsLetter(c: char)
  {
    'a' <= c <= 'z' || 'A' <= c <= 'Z'
  }

  /** s[j..j+k) is a run of letters, ending no later than `hi`, that
      cannot be extended inside `hi`. */
  predicate MaximalRun(s: string, j: nat, hi: nat, k: nat)
  {
    j + k <= hi <= |s| &&
    (forall t :: j <= t < j + k ==> IsLetter(s[t])) &&
    (j + k < hi ==> !IsLetter(s[j + k]))
  }

  /** Length of the maximal run of letters starting at `j` and ending no
      later than `hi`. */
  function LetterRun(s: string, j: nat, hi: nat): (k: nat)
    requires j <= hi <= |s|
    decreases hi - j
    ensures MaximalRun(s, j, hi, k)
  {
    if j < hi && IsLetter(s[j]) then 1 + LetterRun(s, j + 1, hi) else 0
  }

  /** There is only one maximal run from a given position. */
  lemma {:induction false} MaximalRunUnique(s: string, j: nat, hi: nat, k: nat)
    requires MaximalRun(s, j, hi, k)
    ensures k == LetterRun(s, j, hi)
    decreases k
  {
    if k > 0 {
      assert IsLetter(s[j]);
      MaximalRunUnique(s, j + 1, hi, k - 1);
    }
  }

  /** `name` is a syntactically valid command name at `i` inside the range
      of `m` characters: `\`, then `name`, the maximal non-empty run of
      letters that follows inside the range. */
  predicate CommandAt(s: string, i: nat, m: nat, name: string)
  {
    i + m <= |s| && i < |s| && s[i] == '\\' && 1 <= |name| &&
    MaximalRun(s, i + 1, i + m, |name|) && s[i + 1..i + 1 + |name|] == name
  }

  /** The name the sequence `\` + letters recognises, if any. */
  function ScanName(s: string, i: nat, m: nat): (r: Option<string>)
    requires 1 <= m && i + m <= |s|
    ensures r.Some? ==> CommandAt(s, i, m, r.value)
    ensures r.None? ==> forall name :: !CommandAt(s, i, m, name)
  {
    if s[i] != '\\' then None
    else
      var k := LetterRun(s, i + 1, i + m);
      if k == 0 then None
      else
        Some(s[i + 1..i + 1 + k])
  }

  /** A command is recognised uniquely: two names at the same place agree. */
  lemma CommandNameUnique(s: string, i: nat, m: nat, a: string, b: string)
    requires CommandAt(s, i, m, a) && CommandAt(s, i, m, b)
    ensures a == b
  {
    MaximalRunUnique(s, i + 1, i + m, |a|);
    MaximalRunUnique(s, i + 1, i + m, |b|);
  }

  /** `CommandParser._test`: a known name yields the size from `start` to
      the end of the name; an unknown or malformed one fails with size 0. */
  function CommandTest(s: string, i: nat, m: nat): (t: TestResult)
    requires 1 <= m && i + m <= |s|
    ensures t.found <==> exists name :: CommandAt(s, i, m, name) && name in CommandNames
    ensures forall name :: CommandAt(s, i, m, name) && name in CommandNames ==>
              t.size == 1 + |name|
    ensures !t.found ==> t.size == 0
  {
    match ScanName(s, i, m)
    case None => TestResult(false, 0)
    case Some(name) =>
      if name in CommandNames then
        assert forall other :: CommandAt(s, i, m, other) ==> other == name by {
          forall other | CommandAt(s, i, m, other) ensures other == name {
            CommandNameUnique(s, i, m, other, name);
          }
        }
        TestResult(true, 1 + |name|)
      else
        assert forall other :: CommandAt(s, i, m, other) ==> other !in CommandNames by {
          forall other | CommandAt(s, i, m, other) ensures other !in CommandNames {
            CommandNameUnique(s, i, m, other, name);
          }
        }
        TestResult(false, 0)
  }

  /** `CommandParser().match(s, i, n)`. A command never reaches past the
      searched range, so matching a command is never fatal. */
  function Match(s: string, i: nat, n: int): (r: Result<MatchState>)
    ensures MatchContract(s, i, n, false, r)
    ensures r.Ok?
    ensures !IsEmptyRequest(s, i, n) ==>
              var m := Classify(s, i, n).len;
              (r.value.hasMatch <==> exists name :: CommandAt(s, i, m, name) && name in CommandNames) &&
              (forall name :: CommandAt(s, i, m, name) && name in CommandNames ==>
                 r.value.size == 1 + |name|)
  {
    match Classify(s, i, n)
    case EmptyRequest(at) => Ok(MatchState(false, at, 0))
    case Range(start, len) => Record(start, len, CommandTest(s, start, len))
  }

  // ---------------------------------------------------------------------------
  // Properties

  /** `\alpha \beta` matches `\alpha` and leaves the space; `\Alpha \beta`
      does not match, because names are compared case-sensitively. */
  lemma CommandExamples()
    ensures Match("\\alpha \\beta", 0, -1) == Ok(MatchState(true, 0, 6))
    ensures GetMatch("\\alpha \\beta", MatchState(true, 0, 6)) == Ok("\\alpha")
    ensures Match("\\Alpha \\beta", 0, -1) == Ok(MatchState(false, 0, 0))
  {
    var s := "\\alpha \\beta";
    assert CommandAt(s, 0, |s|, "alpha") by {
      assert s[1..6] == "alpha";
    }
    assert "alpha" in CommandNames;
    assert s[0..6] == "\\alpha";
    var u := "\\Alpha \\beta";
    assert CommandAt(u, 0, |u|, "Alpha") by {
      assert u[1..6] == "Alpha";
    }
    assert "Alpha" !in CommandNames by {
      assert "Alpha"[0] != "alpha"[0];
      assert "Alpha"[0] != "beta"[0];
      assert "Alpha"[0] != "gamma"[0];
    }
    forall name | CommandAt(u, 0, |u|, name) ensures name !in CommandNames {
      CommandNameUnique(u, 0, |u|, name, "Alpha");
    }
  }

  /** A name made of letters, written after `\\` at the start of a string and
      not followed by another letter, is the command recognised there. */
  lemma CommandAtPrefix(name: string, tail: string)
    requires 1 <= |name|
    requires forall t :: 0 <= t < |name| ==> IsLetter(name[t])
    requires tail == [] || !IsLetter(tail[0])
    ensures CommandAt("\\" + name + tail, 0, |"\\" + name + tail|, name)
  {
    var s := "\\" + name + tail;
    assert s[0] == '\\';
    assert s[1..1 + |name|] == name;
    assert forall t :: 1 <= t < 1 + |name| ==> s[t] == name[t - 1];
    assert 1 + |name| < |s| ==> s[1 + |name|] == tail[0];
  }

  /** Every listed name, written after `\\` at the start of a string and not
      followed by another letter, is matched in full. */
  lemma ListedCommandsMatch(name: string, tail: string)
    requires name in CommandNames
    requires tail == [] || !IsLetter(tail[0])
    ensures Match("\\" + name + tail, 0, -1) == Ok(MatchState(true, 0, 1 + |name|))
  {
    assert name == "alpha" || name == "beta" || name == "gamma";
    CommandAtPrefix(name, tail);
  }

  /** A well-formed command whose name is not listed fails with size 0. */
  lemma UnknownCommandFails(s: string, i: nat, n: int, name: string)
    requires !IsEmptyRequest(s, i, n)
    requires CommandAt(s, i, Classify(s, i, n).len, name) && name !in CommandNames
    ensures Match(s, i, n) == Ok(MatchState(false, i, 0))
  {
    var m := Classify(s, i, n).len;
    forall other | CommandAt(s, i, m, other) ensures other !in CommandNames {
      CommandNameUnique(s, i, m, other, name);
    }
  }
}
