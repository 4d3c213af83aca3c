/**
 Taking white space off a text (what counts as white space differs from language to language), and
 lower case.
 */
module Text {
  function TrimStart(space: char -> bool, s: string): string {
    if s != [] && space(s[0]) then TrimStart(space, s[1..]) else s
  }

  function TrimEnd(space: char -> bool, s: string): string {
    if s != [] && space(s[|s| - 1]) then TrimEnd(space, s[..|s| - 1]) else s
  }

  function Trim(space: char -> bool, s: string): string {
    TrimEnd(space, TrimStart(space, s))
  }

  function LowerChar(c: char): char {
    if 'A' <= c <= 'Z' then (c as int + 32) as char else c
  }

  /** ASCII letters in lower case, everything else as it is. */
  function AsciiLower(s: string): string {
    seq(|s|, i requires 0 <= i < |s| => LowerChar(s[i]))
  }

  predicate AllSpace(space: char -> bool, s: string) {
    forall i :: 0 <= i < |s| ==> space(s[i])
  }

  predicate IsTrimmed(space: char -> bool, s: string) {
    s != [] ==> !space(s[0]) && !space(s[|s| - 1])
  }

  lemma {:induction false} StartIsTaken(space: char -> bool, s: string) returns (before: string)
    ensures s == before + TrimStart(space, s) && AllSpace(space, before)
    ensures TrimStart(space, s) != [] ==> !space(TrimStart(space, s)[0])
  {
    before := [];
    if s != [] && space(s[0]) {
      var rest := StartIsTaken(space, s[1..]);
      before := [s[0]] + rest;
    }
  }

  lemma {:induction false} EndIsTaken(space: char -> bool, s: string) returns (after: string)
    ensures s == TrimEnd(space, s) + after && AllSpace(space, after)
    ensures TrimEnd(space, s) != [] ==> !space(TrimEnd(space, s)[|TrimEnd(space, s)| - 1])
  {
    after := [];
    if s != [] && space(s[|s| - 1]) {
      var rest := EndIsTaken(space, s[..|s| - 1]);
      after := rest + [s[|s| - 1]];
      assert s == s[..|s| - 1] + [s[|s| - 1]];
    }
  }

  /** Trimming removes the longest runs of white space at the two ends and nothing else. */
  lemma TrimTakesBothEnds(space: char -> bool, s: string) returns (before: string, after: string)
    ensures s == before + Trim(space, s) + after
    ensures AllSpace(space, before) && AllSpace(space, after)
    ensures IsTrimmed(space, Trim(space, s))
    ensures Trim(space, s) == [] <==> AllSpace(space, s)
  {
    before := StartIsTaken(space, s);
    after := EndIsTaken(space, TrimStart(space, s));
    var r := Trim(space, s);
    if r == [] {
      assert s == before + after;
    } else {
      assert s[|before|] == r[0] == TrimStart(space, s)[0];
    }
  }

  lemma TrimIsTrimmed(space: char -> bool, s: string)
    ensures IsTrimmed(space, Trim(space, s))
    ensures Trim(space, s) == [] <==> AllSpace(space, s)
  {
    var before, after := TrimTakesBothEnds(space, s);
  }

  /** Trimming finds what stands between two runs of white space. */
  lemma TrimLeavesCore(space: char -> bool, before: string, core: string, after: string)
    requires AllSpace(space, before) && AllSpace(space, after)
    requires core != [] && !space(core[0]) && !space(core[|core| - 1])
    ensures Trim(space, before + core + after) == core
  {
    StartIsPassed(space, before, core + after);
    assert before + core + after == before + (core + after);
    EndIsPassed(space, core, after);
  }

  lemma {:induction false} StartIsPassed(space: char -> bool, before: string, rest: string)
    requires AllSpace(space, before) && rest != [] && !space(rest[0])
    ensures TrimStart(space, before + rest) == rest
  {
    if before == [] {
      assert before + rest == rest;
    } else {
      assert (before + rest)[1..] == before[1..] + rest;
      StartIsPassed(space, before[1..], rest);
    }
  }

  lemma {:induction false} NothingButSpace(space: char -> bool, s: string)
    requires AllSpace(space, s)
    ensures TrimStart(space, s) == []
  {
    if s != [] {
      NothingButSpace(space, s[1..]);
    }
  }

  lemma {:induction false} EndIsPassed(space: char -> bool, core: string, after: string)
    requires AllSpace(space, after) && core != [] && !space(core[|core| - 1])
    ensures TrimEnd(space, core + after) == core
  {
    if after == [] {
      assert core + after == core;
    } else {
      assert (core + after)[..|core + after| - 1] == core + after[..|after| - 1];
      EndIsPassed(space, core, after[..|after| - 1]);
    }
  }

  lemma TrimOfTrimmed(space: char -> bool, s: string)
    requires IsTrimmed(space, s)
    ensures Trim(space, s) == s
  {
  }
}
