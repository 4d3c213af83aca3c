/** The parts of Python's `str` that the apt rewriter uses: lines, words, and what counts as space. */
module PyText {
  import opened Sequences

  /** `str.isspace`, which is also what `split`, `strip` and the pattern `\s` go by. */
  predicate IsSpace(c: char) {
    var n := c as int;
    || 9 <= n <= 13 || 0x1C <= n <= 0x20 || n == 0x85 || n == 0xA0 || n == 0x1680 || 0x2000 <= n <= 0x200A
    || n == 0x2028 || n == 0x2029 || n == 0x202F || n == 0x205F || n == 0x3000
  }

  /** The characters at which `splitlines` ends a line. */
  predicate IsBreak(c: char) {
    var n := c as int;
    10 <= n <= 13 || 0x1C <= n <= 0x1E || n == 0x85 || n == 0x2028 || n == 0x2029
  }

  // Lines.

  /** The length of the first line, its break included; a carriage return takes a newline with it. */
  function LineLength(text: string): (n: nat)
    ensures n <= |text| && (text != [] ==> n > 0)
  {
    if text == [] then 0
    else if text[0] == '\r' && |text| > 1 && text[1] == '\n' then 2
    else if IsBreak(text[0]) then 1
    else 1 + LineLength(text[1..])
  }

  /** `splitlines(keepends=True)` */
  function SplitLines(text: string): seq<string> {
    if text == [] then [] else [text[..LineLength(text)]] + SplitLines(text[LineLength(text)..])
  }

  predicate IsLine(line: string) { line != [] && LineLength(line) == |line| }

  /** `next` cannot be read as going on with `line`: the break between them stands. */
  predicate Parted(line: string, next: string) {
    && line != [] && next != []
    && IsBreak(line[|line| - 1])
    && !(line[|line| - 1] == '\r' && next[0] == '\n')
  }

  /** What `splitlines` can return. */
  predicate AreLines(lines: seq<string>) {
    && (forall i :: 0 <= i < |lines| ==> IsLine(lines[i]))
    && forall i :: 0 < i < |lines| ==> Parted(lines[i - 1], lines[i])
  }

  lemma {:induction false} JoinedSplit(text: string)
    ensures Joined(SplitLines(text)) == text
    decreases |text|
  {
    if text != [] {
      var n := LineLength(text);
      JoinedSplit(text[n..]);
      assert text == text[..n] + text[n..];
    }
  }

  lemma {:induction false} FirstLine(text: string)
    requires text != []
    ensures var n := LineLength(text);
            IsLine(text[..n]) && (n < |text| ==> Parted(text[..n], text[n..]))
  {
    var n := LineLength(text);
    if text[0] == '\r' && |text| > 1 && text[1] == '\n' {
    } else if IsBreak(text[0]) {
    } else if |text| > 1 {
      FirstLine(text[1..]);
      assert text[..n][1..] == text[1..][..n - 1];
      assert text[n..] == text[1..][n - 1..];
    }
  }

  /** A line has no break before its end; only a carriage return and a newline make one break. */
  lemma {:induction false} LineHasOneBreak(text: string, i: nat)
    requires i + 1 < LineLength(text) && IsBreak(text[i])
    ensures i + 2 == LineLength(text) && text[i] == '\r' && text[i + 1] == '\n'
  {
    if text[0] == '\r' && |text| > 1 && text[1] == '\n' {
    } else if !IsBreak(text[0]) {
      LineHasOneBreak(text[1..], i - 1);
    }
  }

  lemma {:induction false} SplitIsLines(text: string)
    ensures AreLines(SplitLines(text))
    decreases |text|
  {
    if text != [] {
      var n := LineLength(text);
      FirstLine(text);
      SplitIsLines(text[n..]);
    }
  }

  lemma {:induction false} LineEnds(line: string, rest: string)
    requires IsLine(line) && (rest != [] ==> Parted(line, rest))
    ensures LineLength(line + rest) == |line|
  {
    if line[0] == '\r' && |line| > 1 && line[1] == '\n' {
    } else if IsBreak(line[0]) {
    } else if |line| == 1 {
      assert line + [] == line;
    } else {
      assert (line + rest)[1..] == line[1..] + rest;
      assert LineLength(line) == 1 + LineLength(line[1..]);
      LineEnds(line[1..], rest);
    }
  }

  lemma {:induction false} SplitJoined(lines: seq<string>)
    requires AreLines(lines)
    ensures SplitLines(Joined(lines)) == lines
  {
    if lines != [] {
      var rest := Joined(lines[1..]);
      assert forall i :: 0 < i < |lines[1..]| ==> Parted(lines[1..][i - 1], lines[1..][i]) by {
        forall i | 0 < i < |lines[1..]|
          ensures Parted(lines[1..][i - 1], lines[1..][i])
        {
          assert lines[1..][i - 1] == lines[i] && lines[1..][i] == lines[i + 1];
          assert Parted(lines[i + 1 - 1], lines[i + 1]);
        }
      }
      SplitJoined(lines[1..]);
      if |lines| > 1 {
        assert IsLine(lines[1]);
        assert rest[0] == lines[1][0];
        assert Parted(lines[1 - 1], lines[1]);
      }
      LineEnds(lines[0], rest);
      assert Joined(lines)[..|lines[0]|] == lines[0] && Joined(lines)[|lines[0]|..] == rest;
    }
  }

  // Words.

  function WordLength(s: string): (n: nat)
    ensures n <= |s| && (s != [] && !IsSpace(s[0]) ==> n > 0)
  {
    if s == [] || IsSpace(s[0]) then 0 else 1 + WordLength(s[1..])
  }

  /** `split()` */
  function Words(s: string): seq<string> {
    if s == [] then []
    else if IsSpace(s[0]) then Words(s[1..])
    else [s[..WordLength(s)]] + Words(s[WordLength(s)..])
  }

  /** `" ".join(parts)` */
  function Spaced(parts: seq<string>): string {
    if parts == [] then []
    else if |parts| == 1 then parts[0]
    else parts[0] + " " + Spaced(parts[1..])
  }

  predicate IsWord(w: string) { w != [] && forall i :: 0 <= i < |w| ==> !IsSpace(w[i]) }

  predicate IsGap(s: string) { s != [] && forall i :: 0 <= i < |s| ==> IsSpace(s[i]) }

  lemma {:induction false} WordEnds(w: string, rest: string)
    requires (forall i :: 0 <= i < |w| ==> !IsSpace(w[i])) && (rest != [] ==> IsSpace(rest[0]))
    ensures WordLength(w + rest) == |w|
  {
    if w == [] {
      assert w + rest == rest;
    } else {
      assert (w + rest)[1..] == w[1..] + rest;
      WordEnds(w[1..], rest);
    }
  }

  lemma {:induction false} WordsSkipSpace(lead: string, rest: string)
    requires forall i :: 0 <= i < |lead| ==> IsSpace(lead[i])
    ensures Words(lead + rest) == Words(rest)
    decreases |lead|
  {
    if lead == [] {
      assert lead + rest == rest;
    } else {
      assert (lead + rest)[1..] == lead[1..] + rest;
      WordsSkipSpace(lead[1..], rest);
    }
  }

  /** A word after some white space, and before white space or the end, is the first word. */
  lemma WordComesFirst(lead: string, w: string, rest: string)
    requires (forall i :: 0 <= i < |lead| ==> IsSpace(lead[i])) && IsWord(w) && (rest != [] ==> IsSpace(rest[0]))
    ensures Words(lead + w + rest) == [w] + Words(rest)
  {
    WordEnds(w, rest);
    assert lead + w + rest == lead + (w + rest);
    WordsSkipSpace(lead, w + rest);
    assert (w + rest)[..|w|] == w && (w + rest)[|w|..] == rest;
  }

  /** And the first word is found there. */
  lemma {:induction false} FirstWordIsThere(s: string) returns (lead: string, rest: string)
    requires Words(s) != []
    ensures s == lead + Words(s)[0] + rest && Words(rest) == Words(s)[1..]
    ensures forall i :: 0 <= i < |lead| ==> IsSpace(lead[i])
    ensures IsWord(Words(s)[0]) && (rest != [] ==> IsSpace(rest[0]))
  {
    if IsSpace(s[0]) {
      lead, rest := FirstWordIsThere(s[1..]);
      lead := [s[0]] + lead;
    } else {
      var n := WordLength(s);
      lead, rest := [], s[n..];
      WordIsWhole(s);
    }
  }

  lemma {:induction false} WordIsWhole(s: string)
    ensures forall i :: 0 <= i < WordLength(s) ==> !IsSpace(s[i])
    ensures WordLength(s) < |s| ==> IsSpace(s[WordLength(s)])
  {
    if s != [] && !IsSpace(s[0]) {
      WordIsWhole(s[1..]);
    }
  }

  lemma {:induction false} WordStaysWhole(a: string, gap: char, b: string)
    requires IsSpace(gap)
    ensures WordLength(a + [gap] + b) == WordLength(a)
  {
    if a == [] {
      assert (a + [gap] + b)[0] == gap;
    } else {
      assert (a + [gap] + b)[1..] == a[1..] + [gap] + b;
      if !IsSpace(a[0]) {
        WordStaysWhole(a[1..], gap, b);
      }
    }
  }

  /** White space, of whatever kind, keeps words apart. */
  lemma {:induction false} WordsApart(a: string, gap: char, b: string)
    requires IsSpace(gap)
    ensures Words(a + [gap] + b) == Words(a) + Words(b)
    decreases |a|
  {
    hide IsSpace, WordLength;
    var all := a + [gap] + b;
    if a == [] {
      assert all[1..] == b;
    } else if IsSpace(a[0]) {
      assert all[1..] == a[1..] + [gap] + b;
      WordsApart(a[1..], gap, b);
    } else {
      var n := WordLength(a);
      WordStaysWhole(a, gap, b);
      assert all[..n] == a[..n] && all[n..] == a[n..] + [gap] + b;
      WordsApart(a[n..], gap, b);
    }
  }

  /** A word of its own: white space or nothing on either side. */
  predicate StandsIn(text: string, lead: string, w: string, rest: string) {
    && text == lead + w + rest && IsWord(w)
    && (lead != [] ==> IsSpace(lead[|lead| - 1])) && (rest != [] ==> IsSpace(rest[0]))
  }

  lemma StandingWordIsRead(text: string, lead: string, w: string, rest: string)
    requires StandsIn(text, lead, w, rest)
    ensures w in Words(text)
  {
    hide IsSpace, Words;
    WordComesFirst("", w, rest);
    assert "" + w + rest == w + rest && ([w] + Words(rest))[0] == w;
    if lead != [] {
      var init, gap := lead[..|lead| - 1], lead[|lead| - 1];
      WordsApart(init, gap, w + rest);
      assert text == init + [gap] + (w + rest);
    } else {
      assert text == w + rest;
    }
  }

  lemma {:induction false} ReadWordStands(text: string, i: nat) returns (lead: string, rest: string)
    requires i < |Words(text)|
    ensures StandsIn(text, lead, Words(text)[i], rest)
    decreases i
  {
    hide IsSpace, Words, IsWord;
    lead, rest := FirstWordIsThere(text);
    if i > 0 {
      var gap, behind := ReadWordStands(rest, i - 1);
      WordStandsBehind(text, lead, Words(text)[0], rest, gap, Words(text)[i], behind);
      lead, rest := lead + Words(text)[0] + gap, behind;
    }
  }

  lemma WordStandsBehind(
      text: string, lead: string, first: string, rest: string, gap: string, w: string, behind: string)
    requires text == lead + first + rest && (rest != [] ==> IsSpace(rest[0])) && first != []
    requires StandsIn(rest, gap, w, behind)
    ensures StandsIn(text, lead + first + gap, w, behind)
  {
    hide IsSpace;
    assert rest == gap + w + behind;
    assert rest[0] == (gap + w)[0];
    assert text == lead + first + gap + w + behind;
  }
}
