/**
 `extract_json_object`: one pass over an answer that returns the outermost JSON object in it. All
 the characters it looks at are ASCII, so scanning characters finds what scanning UTF-8 bytes finds.
 */
module JsonScanner {
  import opened Wrappers

  // The scan.

  datatype Scan = Scan(depth: int, inString: bool, escaped: bool)

  function AtDepth(d: int): Scan { Scan(d, false, false) }

  function Consumed(s: Scan, c: char): Scan {
    if s.inString then
      if s.escaped then s.(escaped := false)
      else if c == '\\' then s.(escaped := true)
      else if c == '"' then s.(inString := false)
      else s
    else if c == '"' then s.(inString := true)
    else if c == '{' then s.(depth := s.depth + 1)
    else if c == '}' then s.(depth := s.depth - 1)
    else s
  }

  function Scanned(s: Scan, text: string): Scan
    decreases |text|
  {
    if text == [] then s else Scanned(Consumed(s, text[0]), text[1..])
  }

  predicate Closes(s: Scan, c: char) { !s.inString && c == '}' && s.depth == 1 }

  /** The length of the prefix at whose end a brace outside strings brings the depth back to zero. */
  function Closing(s: Scan, text: string): (n: Option<nat>)
    ensures n.Some? ==> 0 < n.value <= |text|
    decreases |text|
  {
    if text == [] then None
    else if Closes(s, text[0]) then Some(1)
    else
      Later(1, Closing(Consumed(s, text[0]), text[1..]))
  }

  function Later(skipped: nat, n: Option<nat>): Option<nat> {
    match n
    case Some(m) => Some(skipped + m)
    case None => None
  }

  function FirstBrace(text: string): (n: nat)
    ensures n <= |text| && '{' !in text[..n] && (n < |text| ==> text[n] == '{')
  {
    if text == [] || text[0] == '{' then 0 else 1 + FirstBrace(text[1..])
  }

  function Extracted(text: string): Option<string> {
    var rest := text[FirstBrace(text)..];
    match Closing(AtDepth(0), rest)
    case Some(n) => Some(rest[..n])
    case None => None
  }

  lemma ClosingUnfolds(s: Scan, text: string, offset: nat)
    requires offset < |text|
    ensures Closing(s, text[offset..]) ==
      if Closes(s, text[offset]) then Some(1)
      else Later(1, Closing(Consumed(s, text[offset]), text[offset + 1..]))
  {
    assert text[offset..][1..] == text[offset + 1..];
  }

  method ExtractJsonObject(text: string) returns (found: Option<string>)
    ensures found == Extracted(text)
  {
    hide Closing;
    ghost var rest := text[FirstBrace(text)..];
    var start := FirstBrace(text);
    if start == |text| {
      return None;
    }
    var depth: nat, inString, escaped := 0, false, false;
    var offset := start;
    while offset < |text|
      invariant start <= offset <= |text|
      invariant if offset == start then !inString && depth == 0 else depth > 0
      invariant escaped ==> inString
      invariant Closing(AtDepth(0), rest) ==
        Later(offset - start, Closing(Scan(depth, inString, escaped), text[offset..]))
    {
      var c := text[offset];
      ClosingUnfolds(Scan(depth, inString, escaped), text, offset);
      offset := offset + 1;
      if inString {
        if escaped {
          escaped := false;
        } else if c == '\\' {
          escaped := true;
        } else if c == '"' {
          inString := false;
        }
      } else {
        match c {
          case '"' => inString := true;
          case '{' => depth := depth + 1;
          case '}' =>
            depth := depth - 1;
            if depth == 0 {
              assert rest[..offset - start] == text[start..offset];
              return Some(text[start..offset]);
            }
          case _ =>
        }
      }
    }
    return None;
  }

  // What it means: a reading of the text with no scan in it.

  /** What follows the quote that ends a string literal, given what follows the one that opens it. */
  function AfterString(text: string): (rest: string)
    ensures |rest| <= |text|
  {
    if text == [] then []
    else if text[0] == '"' then text[1..]
    else if text[0] == '\\' then if |text| == 1 then [] else AfterString(text[2..])
    else AfterString(text[1..])
  }

  /** The text with its string literals taken out. */
  function Outside(text: string): string
    decreases |text|
  {
    if text == [] then []
    else if text[0] == '"' then Outside(AfterString(text[1..]))
    else [text[0]] + Outside(text[1..])
  }

  function Count(c: char, text: string): nat {
    if text == [] then 0 else (if text[0] == c then 1 else 0) + Count(c, text[1..])
  }

  /** How many of the braces opened outside strings are still open. */
  function Open(text: string): int {
    Count('{', Outside(text)) - Count('}', Outside(text))
  }

  /** `found` is the shortest stretch from the first brace of `text` that has its braces balanced. */
  predicate IsFirstObject(text: string, found: string) {
    && found != [] && found <= text[FirstBrace(text)..]
    && Open(found) == 0
    && forall n :: 0 < n < |found| ==> Open(found[..n]) > 0
  }

  lemma {:induction false} ScanCountsOpenBraces(d: int, text: string)
    ensures Scanned(AtDepth(d), text).depth == d + Open(text)
    ensures Scanned(Scan(d, true, false), text).depth == d + Open(AfterString(text))
    decreases |text|
  {
    if text != [] {
      var c := text[0];
      ScanCountsOpenBraces(d, text[1..]);
      if c == '{' {
        ScanCountsOpenBraces(d + 1, text[1..]);
      } else if c == '}' {
        ScanCountsOpenBraces(d - 1, text[1..]);
      } else if c == '\\' && |text| > 1 {
        assert text[1..][1..] == text[2..];
        ScanCountsOpenBraces(d, text[2..]);
      }
    }
  }

  lemma ScannedUnfolds(s: Scan, text: string, k: nat)
    requires 0 < k <= |text|
    ensures Scanned(s, text[..k]) == Scanned(Consumed(s, text[0]), text[1..][..k - 1])
  {
    assert text[..k][1..] == text[1..][..k - 1];
  }

  lemma {:induction false} ClosingIsShortest(s: Scan, text: string)
    requires s.depth > 0
    ensures match Closing(s, text)
            case Some(n) =>
              && Scanned(s, text[..n]).depth == 0
              && forall k :: 0 <= k < n ==> Scanned(s, text[..k]).depth > 0
            case None => forall k :: 0 <= k <= |text| ==> Scanned(s, text[..k]).depth > 0
    decreases |text|
  {
    if text != [] {
      if Closes(s, text[0]) {
        ScannedUnfolds(s, text, 1);
      } else {
        ClosingIsShortest(Consumed(s, text[0]), text[1..]);
      }
      var last := if Closing(s, text).Some? then Closing(s, text).value else |text|;
      forall k | 0 < k <= last
        ensures Scanned(s, text[..k]) == Scanned(Consumed(s, text[0]), text[1..][..k - 1])
      {
        ScannedUnfolds(s, text, k);
      }
    }
  }

  /** The scan returns the outermost object: the shortest balanced stretch, if there is one. */
  lemma ExtractedIsFirstObject(text: string, found: string)
    ensures Extracted(text) == Some(found) <==> IsFirstObject(text, found)
  {
    var rest := text[FirstBrace(text)..];
    if rest != [] {
      ClosingIsShortest(AtDepth(1), rest[1..]);
      forall k | 0 < k <= |rest|
        ensures Open(rest[..k]) == Scanned(AtDepth(1), rest[1..][..k - 1]).depth
      {
        ScannedUnfolds(AtDepth(0), rest, k);
        ScanCountsOpenBraces(0, rest[..k]);
      }
      if found <= rest {
        assert found == rest[..|found|];
        assert forall n :: 0 < n < |found| ==> found[..n] == rest[..n];
      }
      if Extracted(text).Some? {
        var o := Extracted(text).value;
        assert o == rest[..|o|];
        assert forall n :: 0 < n < |o| ==> o[..n] == rest[..n];
      }
    }
  }
}
