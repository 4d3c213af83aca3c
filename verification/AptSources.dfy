/**
 The two text rewrites of the apt preparation: one-line entries of `.list` files, and deb822 stanzas
 of `.sources` files. Both comment out what uses the unused Chrome repository and nothing else.
 */
module AptSources {
  import opened Wrappers
  import opened Text
  import opened PyText
  import opened Sequences

  const SCHEMES := {"http", "https"}
  const CHANNELS := {"chrome", "chrome-stable"}
  const SUFFIXES := {"", "/"}

  const CHROME_URIS: set<string> :=
    set scheme, channel, suffix | scheme in SCHEMES && channel in CHANNELS && suffix in SUFFIXES ::
      scheme + "://dl.google." + "com/linux/" + channel + "/deb" + suffix

  const COMMENT := "# Disabled " + "unused Google " + "Chrome source " + "for Colony CI: "

  datatype Refusal = AmbiguousEntry | MalformedField | AmbiguousStanza

  predicate HasChromeWord(words: seq<string>) {
    exists i :: 0 <= i < |words| && words[i] in CHROME_URIS
  }

  predicate ContainsChrome(text: string) { HasChromeWord(Words(text)) }

  /** Line by line, `after` is `before` or `before` commented out. */
  predicate Annotated(before: seq<string>, after: seq<string>) {
    && |after| == |before|
    && forall i :: 0 <= i < |before| ==> after[i] == before[i] || after[i] == COMMENT + before[i]
  }

  /** A text has a Chrome URI in it exactly if one stands there as a word of its own. */
  lemma ChromeIsRead(text: string)
    ensures ContainsChrome(text) <==> exists lead, uri, rest :: uri in CHROME_URIS && StandsIn(text, lead, uri, rest)
  {
    hide CHROME_URIS, StandsIn, Words;
    if ContainsChrome(text) {
      var i :| 0 <= i < |Words(text)| && Words(text)[i] in CHROME_URIS;
      var lead, rest := ReadWordStands(text, i);
    }
    forall lead, uri, rest | uri in CHROME_URIS && StandsIn(text, lead, uri, rest)
      ensures ContainsChrome(text)
    {
      StandingWordIsRead(text, lead, uri, rest);
    }
  }

  // One-line entries.

  function BeforeHash(line: string): (s: string)
    ensures s <= line && '#' !in s && (|s| < |line| ==> line[|s|] == '#')
  {
    if line == [] || line[0] == '#' then [] else [line[0]] + BeforeHash(line[1..])
  }

  /** The part of a line that apt reads. */
  function Active(line: string): string { Trim(IsSpace, BeforeHash(line)) }

  /** That is what stands before a hash, without the white space around it. */
  lemma ActiveIsRead(lead: string, core: string, trail: string, comment: string)
    requires AllSpace(IsSpace, lead) && AllSpace(IsSpace, trail)
    requires '#' !in core && IsTrimmed(IsSpace, core) && (core == [] ==> trail == [])
    requires comment != [] ==> comment[0] == '#'
    ensures Active(lead + core + trail + comment) == core
  {
    var line, before := lead + core + trail + comment, lead + core + trail;
    BeforeHashStops(before, comment);
    assert line == before + comment;
    hide IsSpace, BeforeHash;
    if core == [] {
      assert before == lead;
      TrimIsTrimmed(IsSpace, lead);
    } else {
      TrimLeavesCore(IsSpace, lead, core, trail);
    }
  }

  lemma {:induction false} BeforeHashStops(before: string, comment: string)
    requires '#' !in before && (comment != [] ==> comment[0] == '#')
    ensures BeforeHash(before + comment) == before
  {
    if before == [] {
      assert before + comment == comment;
    } else {
      assert (before + comment)[1..] == before[1..] + comment;
      BeforeHashStops(before[1..], comment);
    }
  }

  predicate IsChromeLine(line: string) { ContainsChrome(Active(line)) }

  function IndexOf(c: char, s: string): (n: nat)
    ensures n <= |s| && c !in s[..n] && (n < |s| ==> s[n] == c)
  {
    if s == [] || s[0] == c then 0 else 1 + IndexOf(c, s[1..])
  }

  predicate IsKind(word: string) { word == "deb" || word == "deb-src" }

  predicate IsChromeTarget(words: seq<string>) {
    |words| == 3 && words[0] in CHROME_URIS && words[1] == "stable" && words[2] == "main"
  }

  /** `deb`, options in brackets or none, a Chrome URI, the suite `stable`, the component `main`. */
  predicate IsChromeEntry(active: string) {
    var n := WordLength(active);
    var rest := TrimStart(IsSpace, active[n..]);
    IsKind(active[..n]) && IsRest(rest)
  }

  /** What stands behind `deb`: options in brackets or none, and the target. */
  predicate IsRest(rest: string) {
    if rest != [] && rest[0] == '[' then
      var close := IndexOf(']', rest);
      && close + 1 < |rest| && IsSpace(rest[close + 1])
      && IsChromeTarget(Words(rest[close + 1..]))
    else IsChromeTarget(Words(rest))
  }

  // The entries, as they are spelled.

  /** The pieces of an entry; `options` are what stands in brackets, and the white space behind them. */
  datatype Entry = Entry(
    kind: string, gap: string, options: Option<(string, string)>, uri: string, beforeSuite: string, beforeComponent: string)
  {
    predicate Valid() {
      && (kind == "deb" || kind == "deb-src")
      && IsGap(gap) && IsGap(beforeSuite) && IsGap(beforeComponent)
      && uri in CHROME_URIS
      && (options.Some? ==> ']' !in options.value.0 && IsGap(options.value.1))
    }

    function Print(): string { kind + (gap + Rest()) }

    function Rest(): string {
      (if options.Some? then "[" + options.value.0 + "]" + options.value.1 else "") + Target()
    }

    function Target(): string { uri + (beforeSuite + ("stable" + (beforeComponent + "main"))) }
  }

  lemma LiteralsAreWords()
    ensures IsWord("http") && IsWord("https") && IsWord("chrome") && IsWord("chrome-stable") && IsWord("/")
    ensures IsWord("://dl.google.") && IsWord("com/linux/") && IsWord("/deb")
    ensures IsWord("deb") && IsWord("deb-src") && IsWord("stable") && IsWord("main")
  {
  }

  lemma WordOfTwo(a: string, b: string)
    requires IsWord(a) && (b == "" || IsWord(b))
    ensures IsWord(a + b) && (a + b)[0] == a[0]
  {
    if b == "" {
      assert a + b == a;
    }
  }

  lemma UriIsWord(uri: string)
    requires uri in CHROME_URIS
    ensures IsWord(uri) && uri[0] == 'h'
  {
    var scheme, channel, suffix :| scheme in SCHEMES && channel in CHANNELS && suffix in SUFFIXES
      && uri == scheme + "://dl.google." + "com/linux/" + channel + "/deb" + suffix;
    LiteralsAreWords();
    assert scheme[0] == 'h';
    hide IsWord, CHROME_URIS;
    WordOfTwo(scheme, "://dl.google.");
    WordOfTwo(scheme + "://dl.google.", "com/linux/");
    WordOfTwo(scheme + "://dl.google." + "com/linux/", channel);
    WordOfTwo(scheme + "://dl.google." + "com/linux/" + channel, "/deb");
    WordOfTwo(scheme + "://dl.google." + "com/linux/" + channel + "/deb", suffix);
  }

  lemma ThreeWordsAreRead(lead: string, a: string, gap1: string, b: string, gap2: string, c: string)
    requires (forall i :: 0 <= i < |lead| ==> IsSpace(lead[i])) && IsGap(gap1) && IsGap(gap2)
    requires IsWord(a) && IsWord(b) && IsWord(c)
    ensures Words(lead + (a + (gap1 + (b + (gap2 + c))))) == [a, b, c]
  {
    hide IsSpace, IsWord, Words;
    var last := gap2 + c;
    var behind := gap1 + (b + last);
    WordComesFirst(gap2, c, "");
    assert last == gap2 + c + "";
    WordComesFirst(gap1, b, last);
    assert behind == gap1 + b + last;
    WordComesFirst(lead, a, behind);
    assert lead + (a + behind) == lead + a + behind;
    NothingHasNoWords();
  }

  lemma TargetIsRead(e: Entry, lead: string)
    requires e.Valid() && forall i :: 0 <= i < |lead| ==> IsSpace(lead[i])
    ensures IsChromeTarget(Words(lead + e.Target()))
  {
    hide IsSpace, CHROME_URIS, IsWord, IsGap, Words;
    UriIsWord(e.uri);
    WordsOfTarget();
    ThreeWordsAreRead(lead, e.uri, e.beforeSuite, "stable", e.beforeComponent, "main");
  }

  lemma WordsOfTarget()
    ensures IsWord("stable") && IsWord("main")
  {
  }

  lemma NothingHasNoWords()
    ensures Words("") == []
  {
  }

  lemma {:induction false} IndexIsFound(c: char, before: string, after: string)
    requires c !in before
    ensures IndexOf(c, before + [c] + after) == |before|
  {
    if before != [] {
      assert (before + [c] + after)[1..] == before[1..] + [c] + after;
      IndexIsFound(c, before[1..], after);
    }
  }

  lemma BracketedRestIsRead(inside: string, gap: string, target: string)
    requires ']' !in inside && IsGap(gap) && IsChromeTarget(Words(gap + target))
    ensures IsRest("[" + inside + "]" + gap + target)
  {
    hide IsChromeTarget, Words, IsSpace;
    var rest, before := "[" + inside + "]" + gap + target, "[" + inside;
    assert rest == before + [']'] + (gap + target);
    IndexIsFound(']', before, gap + target);
    assert rest[|before| + 1..] == gap + target;
  }

  lemma PrintedRestIsRead(e: Entry)
    requires e.Valid()
    ensures e.Rest() != [] && !IsSpace(e.Rest()[0]) && IsRest(e.Rest())
  {
    UriIsWord(e.uri);
    if e.options.Some? {
      TargetIsRead(e, e.options.value.1);
      hide CHROME_URIS, Words, IsChromeTarget, IsRest, Entry.Target;
      BracketedRestIsRead(e.options.value.0, e.options.value.1, e.Target());
    } else {
      TargetIsRead(e, "");
      hide CHROME_URIS, Words, IsChromeTarget;
      assert e.Target()[0] == e.uri[0];
      assert e.Rest() == "" + e.Target() == e.Target();
    }
  }

  /** Every entry so spelled is taken for one of Chrome. */
  lemma SpelledEntryIsAccepted(e: Entry)
    requires e.Valid()
    ensures IsChromeEntry(e.Print())
  {
    PrintedRestIsRead(e);
    LiteralsAreWords();
    hide IsSpace, CHROME_URIS, Words, Entry.Rest, IndexOf, IsRest;
    var active, tail := e.Print(), e.gap + e.Rest();
    WordEnds(e.kind, tail);
    assert active[..|e.kind|] == e.kind && active[|e.kind|..] == tail;
    StartIsPassed(IsSpace, e.gap, e.Rest());
  }

  lemma {:induction false} WordlessIsSpace(s: string)
    requires Words(s) == []
    ensures AllSpace(IsSpace, s)
  {
    if s != [] {
      WordlessIsSpace(s[1..]);
    }
  }

  /** The three words of a target, and what stands between them. */
  lemma TargetIsSpelled(body: string) returns (lead: string, gap1: string, gap2: string)
    requires IsChromeTarget(Words(body)) && !IsSpace(body[|body| - 1])
    ensures forall i :: 0 <= i < |lead| ==> IsSpace(lead[i])
    ensures IsGap(gap1) && IsGap(gap2)
    ensures body == lead + (Words(body)[0] + (gap1 + ("stable" + (gap2 + "main"))))
  {
    hide IsSpace, CHROME_URIS, Words;
    var afterUri, afterSuite, end;
    lead, afterUri := FirstWordIsThere(body);
    gap1, afterSuite := FirstWordIsThere(afterUri);
    gap2, end := FirstWordIsThere(afterSuite);
    WordlessIsSpace(end);
    LastOfSum(lead + Words(body)[0] + (gap1 + "stable" + (gap2 + "main")), end, body);
    assert end == [];
    assert afterSuite == gap2 + "main" + end;
    GapBetween(gap1, "stable", afterUri);
    GapBetween(gap2, "main", afterSuite);
  }

  lemma LastOfSum(front: string, end: string, all: string)
    requires all == front + end
    ensures end != [] ==> all[|all| - 1] == end[|end| - 1]
  {
  }

  lemma GapBetween(gap: string, word: string, text: string)
    requires IsWord(word) && text != [] && IsSpace(text[0]) && (forall i :: 0 <= i < |gap| ==> IsSpace(gap[i]))
    requires gap + word <= text
    ensures IsGap(gap)
  {
    assert forall i :: 0 <= i < |word| ==> text[|gap| + i] == word[i];
  }

  lemma RestIsSpelled(rest: string, kind: string, gap: string) returns (e: Entry)
    requires kind == "deb" || kind == "deb-src"
    requires IsGap(gap) && IsRest(rest) && rest != [] && !IsSpace(rest[0]) && !IsSpace(rest[|rest| - 1])
    ensures e.Valid() && e.kind == kind && e.gap == gap && e.Rest() == rest
  {
    hide IsSpace, CHROME_URIS, Words;
    var options, body := None, rest;
    var close := IndexOf(']', rest);
    if rest[0] == '[' {
      body := rest[close + 1..];
    }
    var lead, gap1, gap2 := TargetIsSpelled(body);
    if rest[0] == '[' {
      options := Some((rest[1..close], lead));
      assert rest == "[" + rest[1..close] + "]" + body;
      UriIsWord(Words(body)[0]);
      GapBetween(lead, Words(body)[0], body);
    }
    e := Entry(kind, gap, options, Words(body)[0], gap1, gap2);
    assert body == lead + e.Target();
  }

  /** And an active text taken for one is so spelled. */
  lemma AcceptedEntryIsSpelled(active: string) returns (e: Entry)
    requires IsTrimmed(IsSpace, active) && IsChromeEntry(active)
    ensures e.Valid() && e.Print() == active
  {
    WordIsWhole(active);
    var n := WordLength(active);
    hide IsSpace, CHROME_URIS, Words;
    var gap := StartIsTaken(IsSpace, active[n..]);
    var rest := TrimStart(IsSpace, active[n..]);
    assert active == active[..n] + (gap + rest);
    NothingHasNoWords();
    e := RestIsSpelled(rest, active[..n], gap);
  }

  ghost predicate IsSpelledEntry(active: string) { exists e: Entry :: e.Valid() && e.Print() == active }

  /** What apt reads of a line is taken for an entry of Chrome exactly when it is spelled like one. */
  lemma EntryIsRead(line: string)
    ensures IsChromeEntry(Active(line)) <==> IsSpelledEntry(Active(line))
  {
    TrimIsTrimmed(IsSpace, BeforeHash(line));
    hide IsChromeEntry, Entry.Print, Entry.Valid;
    if IsChromeEntry(Active(line)) {
      var e := AcceptedEntryIsSpelled(Active(line));
    }
    if IsSpelledEntry(Active(line)) {
      var e: Entry :| e.Valid() && e.Print() == Active(line);
      SpelledEntryIsAccepted(e);
    }
  }

  predicate IsRefused(line: string) { IsChromeLine(line) && !IsChromeEntry(Active(line)) }

  function Marked(line: string): string { if IsChromeLine(line) then COMMENT + line else line }

  function MarkedLines(lines: seq<string>): seq<string> {
    seq(|lines|, i requires 0 <= i < |lines| => Marked(lines[i]))
  }

  predicate AnyRefused(lines: seq<string>) { exists i :: 0 <= i < |lines| && IsRefused(lines[i]) }

  function ListOutput(text: string): Result<string, Refusal> {
    var lines := SplitLines(text);
    if AnyRefused(lines) then Err(AmbiguousEntry) else Ok(Joined(MarkedLines(lines)))
  }

  method ListSource(text: string) returns (output: Result<string, Refusal>)
    ensures output == ListOutput(text)
  {
    hide IsChromeLine, IsChromeEntry, Active, SplitLines, Joined;
    var lines := SplitLines(text);
    var result: seq<string> := [];
    for i := 0 to |lines|
      invariant result == MarkedLines(lines[..i])
      invariant forall j :: 0 <= j < i ==> !IsRefused(lines[j])
    {
      var line := lines[i];
      if !IsChromeLine(line) {
        result := result + [line];
        continue;
      }
      if !IsChromeEntry(Active(line)) {
        return Err(AmbiguousEntry);
      }
      result := result + [COMMENT + line];
    }
    assert lines[..|lines|] == lines;
    return Ok(Joined(result));
  }

  lemma CommentedIsInactive(line: string)
    ensures !IsChromeLine(COMMENT + line)
  {
    assert BeforeHash(COMMENT + line) == [];
  }

  lemma {:induction false} TextThenLineIsLine(text: string, line: string)
    requires IsLine(line) && WithinLine(text)
    ensures IsLine(text + line)
  {
    if text == [] {
      assert text + line == line;
    } else {
      assert (text + line)[1..] == text[1..] + line;
      TextThenLineIsLine(text[1..], line);
    }
  }

  predicate WithinLine(text: string) { forall i :: 0 <= i < |text| ==> !IsBreak(text[i]) }

  lemma WithinLineConcat(a: string, b: string)
    requires WithinLine(a) && WithinLine(b)
    ensures WithinLine(a + b)
  {
  }

  lemma CommentIsWithinLine()
    ensures WithinLine(COMMENT)
  {
    var a, b, c, d := "# Disabled ", "unused Google ", "Chrome source ", "for Colony CI: ";
    WithinLineConcat(a, b);
    WithinLineConcat(a + b, c);
    WithinLineConcat(a + b + c, d);
  }

  lemma CommentedIsLine(line: string)
    requires IsLine(line)
    ensures IsLine(COMMENT + line)
  {
    CommentIsWithinLine();
    TextThenLineIsLine(COMMENT, line);
  }

  /** Commenting lines out does not move any line's end. */
  lemma AnnotatedStaysLines(before: seq<string>, after: seq<string>)
    requires AreLines(before) && Annotated(before, after)
    ensures AreLines(after)
  {
    hide IsLine, IsBreak;
    forall i | 0 <= i < |after|
      ensures IsLine(after[i])
    {
      assert IsLine(before[i]);
      CommentedIsLine(before[i]);
    }
    forall i | 0 < i < |after|
      ensures Parted(after[i - 1], after[i])
    {
      assert Parted(before[i - 1], before[i]);
      assert after[i - 1][|after[i - 1]| - 1] == before[i - 1][|before[i - 1]| - 1];
      assert after[i][0] == before[i][0] || after[i][0] == '#';
    }
  }

  /** Whatever was annotated line by line reads back as those lines. */
  lemma AnnotatedReadsBack(text: string, after: seq<string>)
    requires Annotated(SplitLines(text), after)
    ensures SplitLines(Joined(after)) == after
  {
    SplitIsLines(text);
    AnnotatedStaysLines(SplitLines(text), after);
    SplitJoined(after);
  }

  /**
   The lines of the output are those of the input, in order, commented out where apt would read a
   Chrome URI and untouched elsewhere. Each of these is an entry for Chrome and nothing else. No
   active Chrome URI is left, and rewriting again changes nothing.
   */
  lemma ListIsRewritten(text: string, output: string)
    requires ListOutput(text) == Ok(output)
    ensures var before, after := SplitLines(text), SplitLines(output);
            && Annotated(before, after)
            && (forall i :: 0 <= i < |before| ==> (after[i] != before[i] <==> IsChromeLine(before[i])))
            && forall i :: 0 <= i < |before| && after[i] != before[i] ==> IsSpelledEntry(Active(before[i]))
    ensures forall line :: line in SplitLines(output) ==> !IsChromeLine(line)
    ensures ListOutput(output) == Ok(output)
  {
    hide IsChromeLine, IsChromeEntry, IsSpelledEntry, Active, SplitLines, Joined;
    var lines := SplitLines(text);
    var marked := MarkedLines(lines);
    AnnotatedReadsBack(text, marked);
    forall i | 0 <= i < |lines|
      ensures !IsChromeLine(marked[i]) && Marked(marked[i]) == marked[i]
      ensures IsChromeLine(lines[i]) ==> IsSpelledEntry(Active(lines[i]))
    {
      CommentedIsInactive(lines[i]);
      EntryIsRead(lines[i]);
    }
    assert MarkedLines(marked) == marked;
  }

  ghost predicate IsAmbiguous(line: string) { IsChromeLine(line) && !IsSpelledEntry(Active(line)) }

  /** A file is refused exactly when a line with an active Chrome URI is not spelled like its entry. */
  lemma ListIsRefusedExactly(text: string)
    ensures ListOutput(text) == Err(AmbiguousEntry) <==>
      exists i :: 0 <= i < |SplitLines(text)| && IsAmbiguous(SplitLines(text)[i])
  {
    hide IsChromeLine, IsChromeEntry, IsSpelledEntry, Active, SplitLines, Joined;
    forall line
      ensures IsRefused(line) <==> IsAmbiguous(line)
    {
      EntryIsRead(line);
    }
    hide IsRefused, IsAmbiguous;
    var lines := SplitLines(text);
    if i: nat :| i < |lines| && IsRefused(lines[i]) {
      assert IsAmbiguous(lines[i]);
      assert AnyRefused(lines);
      assert ListOutput(text).Err?;
      assert exists j :: 0 <= j < |SplitLines(text)| && IsAmbiguous(SplitLines(text)[j]);
    } else {
      assert forall i :: 0 <= i < |lines| ==> !IsAmbiguous(lines[i]);
    }
  }

  // deb822 stanzas.

  predicate IsComment(line: string) {
    var t := TrimStart(IsSpace, line);
    t != [] && t[0] == '#'
  }

  predicate IsBlank(line: string) { Trim(IsSpace, line) == [] }

  lemma BlankIsRead(line: string)
    ensures IsBlank(line) <==> AllSpace(IsSpace, line)
  {
    TrimIsTrimmed(IsSpace, line);
  }

  function ActiveLines(lines: seq<string>): seq<string> {
    if lines == [] then []
    else (if IsComment(lines[0]) then [] else [lines[0]]) + ActiveLines(lines[1..])
  }

  predicate IsLetter(c: char) { 'a' <= c <= 'z' || 'A' <= c <= 'Z' }

  predicate IsFieldName(name: string) {
    && name != [] && IsLetter(name[0])
    && forall i :: 0 < i < |name| ==> IsLetter(name[i]) || '0' <= name[i] <= '9' || name[i] == '-'
  }

  predicate IsEolChar(c: char) { c == '\r' || c == '\n' }

  predicate IsBlankChar(c: char) { c == ' ' || c == '\t' }

  /** A line `Name: value`, its name in lower case. */
  function ParsedField(line: string): Option<(string, string)> {
    var t := TrimEnd(IsEolChar, line);
    var colon := IndexOf(':', t);
    if colon == |t| || !IsFieldName(t[..colon]) then None
    else Some((AsciiLower(t[..colon]), TrimStart(IsBlankChar, t[colon + 1..])))
  }

  type Fields = map<string, string>

  predicate GoesOn(line: string, previous: Option<string>) {
    line != [] && IsSpace(line[0]) && previous.Some?
  }

  /** The fields of a stanza, added to `fields`; an indented line goes on with the field before it. */
  function FieldsOf(active: seq<string>, fields: Fields, previous: Option<string>): Result<Fields, Refusal>
    requires previous.Some? ==> previous.value in fields
  {
    if active == [] then Ok(fields)
    else if GoesOn(active[0], previous) then
      var longer := fields[previous.value] + " " + Trim(IsSpace, active[0]);
      FieldsOf(active[1..], fields[previous.value := longer], previous)
    else
      match ParsedField(active[0])
      case None => Err(MalformedField)
      case Some((name, value)) =>
        if name in fields then Err(MalformedField)
        else FieldsOf(active[1..], fields[name := value], Some(name))
  }

  function Lookup(fields: Fields, name: string, default: string): string {
    if name in fields then fields[name] else default
  }

  /** ASCII lower case is enough: no other letter has a lower case that spells `yes` or `no`. */
  predicate IsOff(fields: Fields) { AsciiLower(Lookup(fields, "enabled", "yes")) == "no" }

  /** Nothing but Chrome in it, and plainly enabled. */
  predicate IsChromeStanza(fields: Fields) {
    var uris, kinds := Words(Lookup(fields, "uris", "")), Words(Lookup(fields, "types", ""));
    && uris != [] && (forall i :: 0 <= i < |uris| ==> uris[i] in CHROME_URIS)
    && kinds != [] && (forall i :: 0 <= i < |kinds| ==> IsKind(kinds[i]))
    && Words(Lookup(fields, "suites", "")) == ["stable"]
    && Words(Lookup(fields, "components", "")) == ["main"]
    && AsciiLower(Lookup(fields, "enabled", "yes")) == "yes"
  }

  /** Active are, in order, the lines that are no comments. */
  lemma {:induction false} ActiveLinesAreTheRest(before: seq<string>, line: string, after: seq<string>)
    ensures ActiveLines(before + [line] + after)
      == ActiveLines(before) + (if IsComment(line) then [] else [line]) + ActiveLines(after)
  {
    hide IsComment;
    if before == [] {
      assert before + [line] + after == [line] + after;
      assert ([line] + after)[1..] == after;
    } else {
      assert (before + [line] + after)[1..] == before[1..] + [line] + after;
      ActiveLinesAreTheRest(before[1..], line, after);
    }
  }

  predicate Spells(fields: Fields, name: string, words: seq<string>) { name in fields && Words(fields[name]) == words }

  /** The stanza reads as one that apt uses for Chrome, and for nothing else. */
  predicate SaysOnlyChrome(stanza: seq<string>) {
    var read := FieldsOf(ActiveLines(stanza), map[], None);
    read.Ok? &&
    var fields := read.value;
    && "uris" in fields && Words(fields["uris"]) != []
    && (forall i :: 0 <= i < |Words(fields["uris"])| ==> Words(fields["uris"])[i] in CHROME_URIS)
    && "types" in fields && Words(fields["types"]) != []
    && (forall i :: 0 <= i < |Words(fields["types"])| ==>
         Words(fields["types"])[i] == "deb" || Words(fields["types"])[i] == "deb-src")
    && Spells(fields, "suites", ["stable"]) && Spells(fields, "components", ["main"])
    && ("enabled" in fields ==> AsciiLower(fields["enabled"]) == "yes")
  }

  predicate HasActiveChrome(stanza: seq<string>) { ContainsChrome(Spaced(ActiveLines(stanza))) }

  /** The stanza reads as one that says `Enabled: no`. */
  predicate SaysDisabled(stanza: seq<string>) {
    var read := FieldsOf(ActiveLines(stanza), map[], None);
    read.Ok? && "enabled" in read.value && AsciiLower(read.value["enabled"]) == "no"
  }

  lemma DisabledIsRead(fields: Fields)
    ensures IsOff(fields) <==> "enabled" in fields && AsciiLower(fields["enabled"]) == "no"
  {
    assert AsciiLower("yes")[0] == 'y';
  }

  lemma ChromeStanzaIsRead(stanza: seq<string>)
    requires FieldsOf(ActiveLines(stanza), map[], None).Ok?
    ensures IsChromeStanza(FieldsOf(ActiveLines(stanza), map[], None).value) <==> SaysOnlyChrome(stanza)
  {
    hide FieldsOf, ActiveLines, CHROME_URIS, IsSpace;
    assert Words("") == [];
    assert AsciiLower("yes") == "yes";
  }

  /**
   What becomes of a stanza: one without an active Chrome URI, or switched off, stays; one for Chrome
   only is commented out; one whose fields cannot be read, or with more than Chrome in it, is refused.
   */
  lemma StanzaIsRead(stanza: seq<string>)
    ensures var read := FieldsOf(ActiveLines(stanza), map[], None);
      StanzaOutput(stanza) ==
      if !HasActiveChrome(stanza) then Ok(stanza)
      else if read.Err? then Err(read.error)
      else if SaysDisabled(stanza) then Ok(stanza)
      else if SaysOnlyChrome(stanza) then Ok(Commented(stanza))
      else Err(AmbiguousStanza)
  {
    hide FieldsOf, ActiveLines, HasActiveChrome, IsOff, IsChromeStanza, SaysOnlyChrome, AsciiLower;
    var read := FieldsOf(ActiveLines(stanza), map[], None);
    if read.Ok? {
      DisabledIsRead(read.value);
      ChromeStanzaIsRead(stanza);
    }
  }

  // The lines of a stanza, as they are spelled.

  /** A comment begins with a hash sign, behind white space if any. */
  lemma CommentIsSpelled(line: string) returns (lead: string, rest: string)
    ensures IsComment(line) ==> line == lead + "#" + rest && AllSpace(IsSpace, lead)
  {
    lead := StartIsTaken(IsSpace, line);
    rest := if IsComment(line) then TrimStart(IsSpace, line)[1..] else "";
  }

  lemma SpelledCommentIsComment(lead: string, rest: string)
    requires AllSpace(IsSpace, lead)
    ensures IsComment(lead + "#" + rest)
  {
    StartIsPassed(IsSpace, lead, "#" + rest);
    assert lead + "#" + rest == lead + ("#" + rest);
  }

  /** A field line: a name, a colon, blanks, the value, and the end of the line. */
  predicate IsFieldLine(line: string, name: string, blanks: string, value: string, eol: string) {
    && line == name + ":" + blanks + value + eol
    && IsFieldName(name) && AllSpace(IsBlankChar, blanks) && AllSpace(IsEolChar, eol)
    && (value != [] ==> !IsBlankChar(value[0]) && !IsEolChar(value[|value| - 1]))
  }

  lemma NameHasNoColon(name: string)
    requires IsFieldName(name)
    ensures ':' !in name
  {
  }

  lemma FieldLineIsRead(line: string, name: string, blanks: string, value: string, eol: string)
    requires IsFieldLine(line, name, blanks, value, eol)
    ensures ParsedField(line) == Some((AsciiLower(name), value))
  {
    var t := name + ":" + blanks + value;
    NameHasNoColon(name);
    EndIsPassed(IsEolChar, t, eol);
    assert t == name + [':'] + (blanks + value);
    IndexIsFound(':', name, blanks + value);
    assert t[|name| + 1..] == blanks + value && t[..|name|] == name;
    if value != [] {
      StartIsPassed(IsBlankChar, blanks, value);
    } else {
      NothingButSpace(IsBlankChar, blanks);
      assert blanks + value == blanks;
    }
  }

  lemma ReadFieldIsSpelled(line: string) returns (name: string, blanks: string, eol: string)
    requires ParsedField(line).Some?
    ensures IsFieldLine(line, name, blanks, ParsedField(line).value.1, eol)
    ensures ParsedField(line).value.0 == AsciiLower(name)
  {
    hide IsFieldName, AsciiLower, TrimStart, TrimEnd, IndexOf, IsBlankChar, IsEolChar;
    eol := EndIsTaken(IsEolChar, line);
    var t := TrimEnd(IsEolChar, line);
    var colon := IndexOf(':', t);
    name := t[..colon];
    blanks := StartIsTaken(IsBlankChar, t[colon + 1..]);
    FieldIsWhole(line, t, colon, blanks, TrimStart(IsBlankChar, t[colon + 1..]), eol);
  }

  lemma FieldIsWhole(line: string, t: string, colon: nat, blanks: string, value: string, eol: string)
    requires line == t + eol && colon < |t| && t[colon] == ':' && t[colon + 1..] == blanks + value
    ensures line == t[..colon] + ":" + blanks + value + eol
    ensures value != [] ==> value[|value| - 1] == t[|t| - 1]
  {
    assert t == t[..colon] + ":" + (blanks + value);
    assert t[..colon] + ":" + (blanks + value) == t[..colon] + ":" + blanks + value;
    if value != [] {
      assert (blanks + value)[|blanks + value| - 1] == value[|value| - 1];
    }
  }

  /** A line that is no field line and goes on with none is refused. */
  lemma OtherLineIsRefused(line: string, rest: seq<string>, fields: Fields, previous: Option<string>)
    requires previous.Some? ==> previous.value in fields
    requires line == "" || !IsSpace(line[0]) || previous.None?
    requires forall name, blanks, value, eol :: !IsFieldLine(line, name, blanks, value, eol)
    ensures FieldsOf([line] + rest, fields, previous) == Err(MalformedField)
  {
    hide IsSpace, IsFieldLine, ParsedField;
    if ParsedField(line).Some? {
      var name, blanks, eol := ReadFieldIsSpelled(line);
    }
    assert ([line] + rest)[0] == line;
  }

  /** The value of a field with the lines that go on with it, each stripped and set off by a space. */
  function Continued(value: string, more: seq<string>): string {
    if more == [] then value
    else Continued(value, more[..|more| - 1]) + " " + Trim(IsSpace, more[|more| - 1])
  }

  predicate Indented(lines: seq<string>) {
    forall i :: 0 <= i < |lines| ==> lines[i] != [] && IsSpace(lines[i][0])
  }

  lemma {:induction false} FieldGoesOn(
      fields: Fields, name: string, value: string, more: seq<string>, rest: seq<string>, n: nat)
    requires n <= |more| && Indented(more)
    ensures FieldsOf(more[n..] + rest, fields[name := Continued(value, more[..n])], Some(name))
      == FieldsOf(rest, fields[name := Continued(value, more)], Some(name))
    decreases |more| - n
  {
    hide Trim;
    if n == |more| {
      assert more[n..] + rest == rest && more[..n] == more;
    } else {
      var lines := more[n..] + rest;
      assert lines[0] == more[n] && lines[1..] == more[n + 1..] + rest;
      assert more[..n + 1][..n] == more[..n];
      var next := Continued(value, more[..n + 1]);
      assert fields[name := Continued(value, more[..n])][name := next] == fields[name := next];
      FieldGoesOn(fields, name, value, more, rest, n + 1);
    }
  }

  /** A field and the lines that go on with it are read as one entry, and refused if its name is taken. */
  lemma FieldIsRead(
      fields: Fields, previous: Option<string>, line: string, name: string, blanks: string, value: string,
      eol: string, more: seq<string>, rest: seq<string>)
    requires previous.Some? ==> previous.value in fields
    requires IsFieldLine(line, name, blanks, value, eol) && Indented(more)
    ensures FieldsOf([line] + more + rest, fields, previous) ==
      if AsciiLower(name) in fields then Err(MalformedField)
      else FieldsOf(rest, fields[AsciiLower(name) := Continued(value, more)], Some(AsciiLower(name)))
  {
    FieldLineIsRead(line, name, blanks, value, eol);
    assert line[0] == name[0] && !IsSpace(name[0]);
    hide ParsedField, AsciiLower, Trim, IsSpace;
    var lines := [line] + more + rest;
    assert lines[0] == line && lines[1..] == more + rest;
    FieldGoesOn(fields, AsciiLower(name), value, more, rest, 0);
    assert more[0..] == more && more[..0] == [];
  }

  function Commented(lines: seq<string>): seq<string> {
    seq(|lines|, i requires 0 <= i < |lines| => COMMENT + lines[i])
  }

  function StanzaOutput(stanza: seq<string>): Result<seq<string>, Refusal> {
    if !HasActiveChrome(stanza) then Ok(stanza)
    else
      match FieldsOf(ActiveLines(stanza), map[], None)
      case Err(e) => Err(e)
      case Ok(fields) =>
        if IsOff(fields) then Ok(stanza)
        else if IsChromeStanza(fields) then Ok(Commented(stanza))
        else Err(AmbiguousStanza)
  }

  method SourcesStanza(lines: seq<string>) returns (output: Result<seq<string>, Refusal>)
    ensures output == StanzaOutput(lines)
  {
    hide ParsedField, HasActiveChrome, IsChromeStanza, Trim, AsciiLower, IsOff;
    var active := ActiveLines(lines);
    if !HasActiveChrome(lines) {
      return Ok(lines);
    }
    var fields: Fields := map[];
    var previous: Option<string> := None;
    for i := 0 to |active|
      invariant previous.Some? ==> previous.value in fields
      invariant FieldsOf(active, map[], None) == FieldsOf(active[i..], fields, previous)
    {
      var line := active[i];
      assert active[i..][1..] == active[i + 1..];
      if line != [] && IsSpace(line[0]) && previous.Some? {
        fields := fields[previous.value := fields[previous.value] + " " + Trim(IsSpace, line)];
        continue;
      }
      var field := ParsedField(line);
      if field.None? || field.value.0 in fields {
        return Err(MalformedField);
      }
      previous := Some(field.value.0);
      fields := fields[field.value.0 := field.value.1];
    }
    if IsOff(fields) {
      return Ok(lines);
    }
    if !IsChromeStanza(fields) {
      return Err(AmbiguousStanza);
    }
    return Ok(Commented(lines));
  }

  /** How many lines the stanza at the front has. */
  function StanzaLength(lines: seq<string>): (n: nat)
    ensures n <= |lines|
    ensures forall i :: 0 <= i < n ==> !IsBlank(lines[i])
    ensures n < |lines| ==> IsBlank(lines[n])
  {
    if lines == [] || IsBlank(lines[0]) then 0 else 1 + StanzaLength(lines[1..])
  }

  /** The stanzas of a file: its longest runs of lines that are not blank. */
  function Stanzas(lines: seq<string>): seq<seq<string>> {
    if lines == [] then []
    else if IsBlank(lines[0]) then Stanzas(lines[1..])
    else [lines[..StanzaLength(lines)]] + Stanzas(lines[StanzaLength(lines)..])
  }

  function Both(
      a: Result<seq<string>, Refusal>, b: Result<seq<string>, Refusal>): Result<seq<string>, Refusal> {
    if a.Err? then a else if b.Err? then b else Ok(a.value + b.value)
  }

  function SourcesLines(lines: seq<string>): Result<seq<string>, Refusal> {
    if lines == [] then Ok([])
    else if IsBlank(lines[0]) then Both(Ok([lines[0]]), SourcesLines(lines[1..]))
    else
      var n := StanzaLength(lines);
      Both(StanzaOutput(lines[..n]), SourcesLines(lines[n..]))
  }

  function SourcesOutput(text: string): Result<string, Refusal> {
    match SourcesLines(SplitLines(text))
    case Err(e) => Err(e)
    case Ok(lines) => Ok(Joined(lines))
  }

  lemma {:induction false} StanzaEndsAtBlank(stanza: seq<string>, rest: seq<string>)
    requires forall i :: 0 <= i < |stanza| ==> !IsBlank(stanza[i])
    requires rest != [] ==> IsBlank(rest[0])
    ensures StanzaLength(stanza + rest) == |stanza|
  {
    if stanza == [] {
      assert stanza + rest == rest;
    } else {
      assert (stanza + rest)[1..] == stanza[1..] + rest;
      StanzaEndsAtBlank(stanza[1..], rest);
    }
  }

  /** A stanza, even an empty one, and what follows it are rewritten one after the other. */
  lemma SourcesFromStanza(stanza: seq<string>, rest: seq<string>)
    requires forall i :: 0 <= i < |stanza| ==> !IsBlank(stanza[i])
    requires rest != [] ==> IsBlank(rest[0])
    ensures SourcesLines(stanza + rest) == Both(StanzaOutput(stanza), SourcesLines(rest))
  {
    hide StanzaOutput, IsBlank;
    if stanza == [] {
      assert stanza + rest == rest;
      NothingToDisable();
      if SourcesLines(rest).Ok? {
        assert [] + SourcesLines(rest).value == SourcesLines(rest).value;
      }
    } else {
      StanzaEndsAtBlank(stanza, rest);
      assert (stanza + rest)[..|stanza|] == stanza && (stanza + rest)[|stanza|..] == rest;
    }
  }

  lemma NothingToDisable()
    ensures StanzaOutput([]) == Ok([])
  {
    assert Spaced([]) == "" && Words("") == [];
  }

  lemma BothTwice(
      a: Result<seq<string>, Refusal>, b: Result<seq<string>, Refusal>, c: Result<seq<string>, Refusal>)
    ensures Both(a, Both(b, c)) == Both(Both(a, b), c)
    ensures Both(Ok([]), a) == a && Both(a, Ok([])) == a
  {
    if a.Ok? && b.Ok? && c.Ok? {
      assert a.value + (b.value + c.value) == a.value + b.value + c.value;
    }
    if a.Ok? {
      assert [] + a.value == a.value == a.value + [];
    }
  }

  method Deb822Source(text: string) returns (output: Result<string, Refusal>)
    ensures output == SourcesOutput(text)
  {
    hide StanzaOutput, SplitLines, IsBlank, Joined, Both, SourcesLines;
    var lines := SplitLines(text);
    var result, stanza: seq<string> := [], [];
    BothTwice(SourcesLines(lines), Ok([]), Ok([]));
    assert [] + lines[0..] == lines;
    for i := 0 to |lines|
      invariant forall j :: 0 <= j < |stanza| ==> !IsBlank(stanza[j])
      invariant SourcesLines(lines) == Both(Ok(result), SourcesLines(stanza + lines[i..]))
    {
      var line := lines[i];
      if !IsBlank(line) {
        assert stanza + lines[i..] == (stanza + [line]) + lines[i + 1..];
        stanza := stanza + [line];
      } else {
        SourcesFromStanza(stanza, lines[i..]);
        var done := SourcesStanza(stanza);
        BlankLineStays(lines[i..]);
        assert lines[i..][1..] == lines[i + 1..];
        GatheredOn(result, done, line, SourcesLines(lines[i + 1..]));
        if done.Err? {
          return Err(done.error);
        }
        result := result + done.value + [line];
        stanza := [];
        assert [] + lines[i + 1..] == lines[i + 1..];
      }
    }
    assert stanza + lines[|lines|..] == stanza + [];
    SourcesFromStanza(stanza, []);
    var done := SourcesStanza(stanza);
    GatheredLast(result, done);
    if done.Err? {
      return Err(done.error);
    }
    return Ok(Joined(result + done.value));
  }

  lemma BlankLineStays(lines: seq<string>)
    requires lines != [] && IsBlank(lines[0])
    ensures SourcesLines(lines) == Both(Ok([lines[0]]), SourcesLines(lines[1..]))
  {
  }

  lemma GatheredOn(
      result: seq<string>, done: Result<seq<string>, Refusal>, line: string, rest: Result<seq<string>, Refusal>)
    ensures Both(Ok(result), Both(done, Both(Ok([line]), rest))) ==
      if done.Err? then Err(done.error) else Both(Ok(result + done.value + [line]), rest)
  {
    if done.Ok? && rest.Ok? {
      assert result + (done.value + ([line] + rest.value)) == result + done.value + [line] + rest.value;
    }
  }

  lemma GatheredLast(result: seq<string>, done: Result<seq<string>, Refusal>)
    ensures SourcesLines([]) == Ok([])
    ensures Both(Ok(result), Both(done, Ok([]))) ==
      if done.Err? then Err(done.error) else Ok(result + done.value)
  {
    if done.Ok? {
      assert done.value + [] == done.value;
    }
  }

  // What the stanza rewrite keeps.

  lemma CommentedIsComment(line: string)
    ensures IsComment(COMMENT + line) && !IsBlank(COMMENT + line)
  {
    var text := COMMENT + line;
    assert TrimStart(IsSpace, text) == text;
    TrimIsTrimmed(IsSpace, text);
    assert !IsSpace(text[0]);
  }

  lemma {:induction false} CommentsAreInactive(lines: seq<string>)
    requires forall i :: 0 <= i < |lines| ==> IsComment(lines[i])
    ensures ActiveLines(lines) == []
  {
    hide IsComment;
    if lines != [] {
      CommentsAreInactive(lines[1..]);
    }
  }

  lemma CommentedStanzaIsInactive(stanza: seq<string>)
    ensures !HasActiveChrome(Commented(stanza))
  {
    hide IsComment;
    forall i | 0 <= i < |stanza|
      ensures IsComment(Commented(stanza)[i])
    {
      CommentedIsComment(stanza[i]);
    }
    CommentsAreInactive(Commented(stanza));
    assert Spaced([]) == "" && Words("") == [];
  }

  /** A stanza comes out whole: untouched, or every line of it commented out. */
  predicate Handled(stanza: seq<string>, out: seq<string>) {
    && out == (if HasActiveChrome(stanza) && !SaysDisabled(stanza) then Commented(stanza) else stanza)
    && (HasActiveChrome(out) ==> SaysDisabled(out))
    && (out != stanza ==> SaysOnlyChrome(stanza))
    && StanzaOutput(out) == Ok(out)
  }

  lemma StanzaIsHandled(stanza: seq<string>, out: seq<string>)
    requires StanzaOutput(stanza) == Ok(out)
    ensures Handled(stanza, out)
  {
    hide ActiveLines, HasActiveChrome, FieldsOf, StanzaOutput, SaysDisabled, SaysOnlyChrome;
    CommentedStanzaIsInactive(stanza);
    StanzaIsRead(stanza);
    StanzaIsRead(out);
  }

  /** The stanzas of the output are the stanzas of the input, handled one by one. */
  lemma {:induction false} SourcesAreHandled(lines: seq<string>, out: seq<string>)
    requires SourcesLines(lines) == Ok(out)
    ensures Annotated(lines, out)
    ensures |Stanzas(out)| == |Stanzas(lines)|
    ensures forall i :: 0 <= i < |Stanzas(lines)| ==> Handled(Stanzas(lines)[i], Stanzas(out)[i])
    ensures SourcesLines(out) == Ok(out)
    decreases |lines|
  {
    hide IsBlank, StanzaOutput, Handled;
    if lines != [] {
      if IsBlank(lines[0]) {
        var rest := SourcesLines(lines[1..]).value;
        assert out[1..] == rest;
        SourcesAreHandled(lines[1..], rest);
      } else {
        var n := StanzaLength(lines);
        var first, rest := StanzaOutput(lines[..n]).value, SourcesLines(lines[n..]).value;
        SourcesAreHandled(lines[n..], rest);
        StanzaIsHandled(lines[..n], first);
        HandledStaysStanza(lines[..n], first);
        AnnotatedStartsBlank(lines[n..], rest);
        StanzaEndsAtBlank(first, rest);
        SourcesFromStanza(first, rest);
        HandledAgain(lines[..n], first);
        assert out[..n] == first && out[n..] == rest;
        assert lines == lines[..n] + lines[n..];
      }
    }
  }

  lemma HandledAgain(stanza: seq<string>, out: seq<string>)
    requires Handled(stanza, out)
    ensures StanzaOutput(out) == Ok(out)
  {
  }

  lemma HandledStaysStanza(stanza: seq<string>, out: seq<string>)
    requires Handled(stanza, out) && forall i :: 0 <= i < |stanza| ==> !IsBlank(stanza[i])
    ensures Annotated(stanza, out) && forall i :: 0 <= i < |out| ==> !IsBlank(out[i])
  {
    hide IsBlank, StanzaOutput, HasActiveChrome, SaysDisabled;
    forall i | 0 <= i < |stanza|
      ensures !IsBlank(COMMENT + stanza[i])
    {
      CommentedIsComment(stanza[i]);
    }
  }

  lemma AnnotatedStartsBlank(lines: seq<string>, out: seq<string>)
    requires SourcesLines(lines) == Ok(out) && (lines != [] ==> IsBlank(lines[0]))
    ensures out != [] ==> IsBlank(out[0])
  {
  }

  /**
   Line by line the output is the input with some lines commented out; its stanzas are the input's,
   each untouched or commented out whole. One commented out has nothing but Chrome URIs, the suite
   `stable` and the component `main`; one that keeps an active Chrome URI says `Enabled: no`.
   Rewriting again changes nothing.
   */
  lemma SourcesAreRewritten(text: string, output: string)
    requires SourcesOutput(text) == Ok(output)
    ensures var before, after := Stanzas(SplitLines(text)), Stanzas(SplitLines(output));
            && |after| == |before|
            && (forall i :: 0 <= i < |before| ==>
                 after[i] == if HasActiveChrome(before[i]) && !SaysDisabled(before[i])
                             then Commented(before[i]) else before[i])
            && (forall i :: 0 <= i < |before| && after[i] != before[i] ==> SaysOnlyChrome(before[i]))
            && forall i :: 0 <= i < |after| ==> HasActiveChrome(after[i]) ==> SaysDisabled(after[i])
    ensures Annotated(SplitLines(text), SplitLines(output))
    ensures SourcesOutput(output) == Ok(output)
  {
    hide HasActiveChrome, SaysDisabled, SaysOnlyChrome, StanzaOutput, SplitLines, SourcesLines, Stanzas, Joined, Commented;
    var out := SourcesLines(SplitLines(text)).value;
    SourcesAreHandled(SplitLines(text), out);
    AnnotatedReadsBack(text, out);
    var before, after := Stanzas(SplitLines(text)), Stanzas(out);
    assert forall i :: 0 <= i < |before| ==> Handled(before[i], after[i]);
  }

  /** The stanza cannot be left as it is, nor commented out. */
  predicate IsAmbiguousStanza(stanza: seq<string>) {
    && HasActiveChrome(stanza)
    && (FieldsOf(ActiveLines(stanza), map[], None).Err? || (!SaysDisabled(stanza) && !SaysOnlyChrome(stanza)))
  }

  predicate AnyAmbiguous(stanzas: seq<seq<string>>) {
    exists i :: 0 <= i < |stanzas| && IsAmbiguousStanza(stanzas[i])
  }

  /** A file is refused exactly if one of its stanzas is ambiguous. */
  lemma SourcesAreRefusedExactly(text: string)
    ensures SourcesOutput(text).Err? <==> AnyAmbiguous(Stanzas(SplitLines(text)))
  {
    hide SourcesLines, SplitLines, Stanzas, Joined, AnyAmbiguous;
    AmbiguousLinesAreRefused(SplitLines(text));
  }

  lemma {:induction false} AmbiguousLinesAreRefused(lines: seq<string>)
    ensures SourcesLines(lines).Err? <==> AnyAmbiguous(Stanzas(lines))
    decreases |lines|
  {
    hide StanzaOutput, IsAmbiguousStanza, IsBlank, AnyAmbiguous;
    if lines == [] {
      NothingIsAmbiguous();
    } else if IsBlank(lines[0]) {
      AmbiguousLinesAreRefused(lines[1..]);
    } else {
      var n := StanzaLength(lines);
      AmbiguousLinesAreRefused(lines[n..]);
      AmbiguousStanzaIsRefused(lines[..n]);
      OneMoreStanza(lines[..n], Stanzas(lines[n..]));
    }
  }

  lemma NothingIsAmbiguous()
    ensures !AnyAmbiguous([])
  {
  }

  lemma OneMoreStanza(stanza: seq<string>, rest: seq<seq<string>>)
    ensures AnyAmbiguous([stanza] + rest) <==> IsAmbiguousStanza(stanza) || AnyAmbiguous(rest)
  {
    hide IsAmbiguousStanza;
    var all := [stanza] + rest;
    assert all[0] == stanza && forall i :: 0 <= i < |rest| ==> all[i + 1] == rest[i];
    assert forall i :: 0 < i < |all| ==> all[i] == rest[i - 1];
    if AnyAmbiguous(rest) {
      var i :| 0 <= i < |rest| && IsAmbiguousStanza(rest[i]);
      assert IsAmbiguousStanza(all[i + 1]);
    }
  }

  lemma AmbiguousStanzaIsRefused(stanza: seq<string>)
    ensures StanzaOutput(stanza).Err? <==> IsAmbiguousStanza(stanza)
  {
    hide HasActiveChrome, FieldsOf, SaysDisabled, SaysOnlyChrome, ActiveLines, StanzaOutput;
    StanzaIsRead(stanza);
  }

  /** The Chrome test on a stanza is the test on each of its active lines. */
  lemma {:induction false} ChromeIsInSomeLine(parts: seq<string>)
    ensures ContainsChrome(Spaced(parts)) <==> exists i :: 0 <= i < |parts| && ContainsChrome(parts[i])
  {
    if parts == [] {
      assert Words("") == [];
    } else if |parts| > 1 {
      WordsApart(parts[0], ' ', Spaced(parts[1..]));
      ChromeIsInSomeLine(parts[1..]);
      ChromeWordConcat(Words(parts[0]), Words(Spaced(parts[1..])));
      hide ContainsChrome;
      assert (exists i :: 0 <= i < |parts[1..]| && ContainsChrome(parts[1..][i])) <==>
             (exists i :: 1 <= i < |parts| && ContainsChrome(parts[i])) by {
        forall i | 1 <= i < |parts|
          ensures parts[i] == parts[1..][i - 1]
        {
        }
      }
    }
  }

  lemma ChromeWordConcat(a: seq<string>, b: seq<string>)
    ensures HasChromeWord(a + b) <==> HasChromeWord(a) || HasChromeWord(b)
  {
    if HasChromeWord(a) {
      var i :| 0 <= i < |a| && a[i] in CHROME_URIS;
      assert (a + b)[i] in CHROME_URIS;
    }
    if HasChromeWord(b) {
      var i :| 0 <= i < |b| && b[i] in CHROME_URIS;
      assert (a + b)[|a| + i] in CHROME_URIS;
    }
  }
}
