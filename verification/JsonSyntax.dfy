/**
 JSON texts as the grammar of RFC 8259 derives them (sections 2 to 7), white space and escapes
 included, and the proof that the scanner finds such an object in any prose around it.
 */
module JsonSyntax {
  import opened Wrappers
  import opened JsonScanner

  // The grammar.

  /** One character of a string (section 7): as it is, or escaped with a letter or with four digits. */
  datatype Piece = Plain(c: char) | Short(letter: char) | Hex(digits: string)
  {
    predicate Valid() {
      match this
      case Plain(c) => c as int >= 0x20 && c != '"' && c != '\\'
      case Short(letter) => letter in "\"\\/bfnrt"
      case Hex(digits) => |digits| == 4 && forall i :: 0 <= i < 4 ==> IsHexDigit(digits[i])
    }

    function Print(): string {
      match this
      case Plain(c) => [c]
      case Short(letter) => ['\\', letter]
      case Hex(digits) => "\\u" + digits
    }
  }

  /** The values, with the white space the grammar allows on either side of every token. */
  datatype Value =
    | Literal(text: string)
    | Text(pieces: seq<Piece>)
    | Array(blank: string, elements: Elements)
    | Object(blank: string, members: Members)
  {
    predicate Valid() {
      match this
      case Literal(text) => IsLiteral(text)
      case Text(pieces) => ValidPieces(pieces)
      case Array(blank, elements) => IsBlank(blank) && elements.Valid()
      case Object(blank, members) => IsBlank(blank) && members.Valid()
    }

    function Print(): string {
      match this
      case Literal(text) => text
      case Text(pieces) => PrintText(pieces)
      case Array(blank, elements) => ['['] + (blank + elements.Print()) + [']']
      case Object(blank, members) => ['{'] + (blank + members.Print()) + ['}']
    }
  }

  datatype Elements = End | Element(before: string, value: Value, after: string, rest: Elements)
  {
    predicate Valid() {
      Element? ==> IsBlank(before) && value.Valid() && IsBlank(after) && rest.Valid()
    }

    function Print(): string {
      match this
      case End => ""
      case Element(before, value, after, rest) =>
        before + (value.Print() + (after + (Separator(rest.Element?) + rest.Print())))
    }
  }

  datatype Members =
    | Done
    | Member(
        before: string, key: seq<Piece>, afterKey: string,
        beforeValue: string, value: Value, after: string, others: Members)
  {
    predicate Valid() {
      Member? ==>
        && IsBlank(before) && ValidPieces(key) && IsBlank(afterKey)
        && IsBlank(beforeValue) && value.Valid() && IsBlank(after) && others.Valid()
    }

    function Print(): string {
      match this
      case Done => ""
      case Member(before, key, afterKey, beforeValue, value, after, others) =>
        before + (PrintText(key) + ((afterKey + ":" + beforeValue)
          + (value.Print() + (after + (Separator(others.Member?) + others.Print())))))
    }
  }

  function Separator(more: bool): string { if more then "," else "" }

  predicate ValidPieces(pieces: seq<Piece>) { forall i :: 0 <= i < |pieces| ==> pieces[i].Valid() }

  function PrintPieces(pieces: seq<Piece>): string {
    if pieces == [] then [] else pieces[0].Print() + PrintPieces(pieces[1..])
  }

  function PrintText(pieces: seq<Piece>): string { ['"'] + PrintPieces(pieces) + ['"'] }

  predicate IsHexDigit(c: char) { '0' <= c <= '9' || 'a' <= c <= 'f' || 'A' <= c <= 'F' }

  /** The literal names, and the characters that numbers are made of (sections 3 and 6). */
  predicate IsLiteral(text: string) {
    || text in {"null", "true", "false"}
    || (text != [] && forall i :: 0 <= i < |text| ==> text[i] in "0123456789+-.eE")
  }

  predicate IsBlank(text: string) { forall i :: 0 <= i < |text| ==> text[i] in " \t\n\r" }

  // What a printed value does to the scan: nothing.

  /** The scan comes out of `text` as it went in, and never drops below where it was. */
  predicate Quiet(s: Scan, text: string) {
    && Scanned(s, text) == s
    && forall k :: 0 <= k <= |text| ==> Scanned(s, text[..k]).depth >= s.depth
  }

  lemma {:induction false} ScannedConcat(s: Scan, a: string, b: string)
    ensures Scanned(s, a + b) == Scanned(Scanned(s, a), b)
    decreases |a|
  {
    if a == [] {
      assert a + b == b;
    } else {
      assert (a + b)[1..] == a[1..] + b;
      ScannedConcat(Consumed(s, a[0]), a[1..], b);
    }
  }

  lemma QuietConcat(s: Scan, a: string, b: string)
    requires Quiet(s, a) && Quiet(s, b)
    ensures Quiet(s, a + b)
  {
    ScannedConcat(s, a, b);
    forall k | 0 <= k <= |a + b|
      ensures Scanned(s, (a + b)[..k]).depth >= s.depth
    {
      if k <= |a| {
        assert (a + b)[..k] == a[..k];
      } else {
        assert (a + b)[..k] == a + b[..k - |a|];
        ScannedConcat(s, a, b[..k - |a|]);
      }
    }
  }

  lemma QuietNothing(s: Scan)
    ensures Quiet(s, "")
  {
  }

  lemma {:induction false} QuietPlain(s: Scan, text: string)
    requires forall i :: 0 <= i < |text| ==> Consumed(s, text[i]) == s
    ensures Quiet(s, text)
  {
    if text != [] {
      QuietPlain(s, text[1..]);
      forall k | 0 < k <= |text|
        ensures Scanned(s, text[..k]) == Scanned(s, text[1..][..k - 1])
      {
        ScannedUnfolds(s, text, k);
      }
    }
  }

  /** A bracketed text: inside the brackets the scan is at `t`, and stays at or above it. */
  lemma Bracketed(s: Scan, open: char, t: Scan, body: string, close: char)
    requires Consumed(s, open) == t && Quiet(t, body) && Consumed(t, close) == s && t.depth >= s.depth
    ensures Quiet(s, [open] + body + [close])
    ensures forall k :: 0 < k < |body| + 2 ==> Scanned(s, ([open] + body + [close])[..k]).depth >= t.depth
  {
    var text := [open] + body + [close];
    assert text[1..] == body + [close];
    ScannedConcat(t, body, [close]);
    forall k | 0 < k < |body| + 2
      ensures Scanned(s, text[..k]).depth >= t.depth
    {
      ScannedUnfolds(s, text, k);
      assert text[1..][..k - 1] == body[..k - 1];
    }
    assert text[..|text|] == text;
  }

  function InString(d: int): Scan { Scan(d, true, false) }

  lemma QuietPiece(d: int, piece: Piece)
    requires piece.Valid()
    ensures Quiet(InString(d), piece.Print())
  {
    var s, text := InString(d), piece.Print();
    if piece.Plain? {
      QuietPlain(s, text);
    } else {
      var escaped := text[1..];
      assert Scanned(s, text[..1]) == Scan(d, true, true);
      forall k | 0 < k <= |text|
        ensures Scanned(s, text[..k]) == Scanned(Scan(d, true, true), escaped[..k - 1])
      {
        ScannedUnfolds(s, text, k);
      }
      assert Quiet(s, escaped[1..]) by { QuietPlain(s, escaped[1..]); }
      forall k | 1 < k <= |text|
        ensures Scanned(s, text[..k]) == Scanned(s, escaped[1..][..k - 2])
      {
        ScannedUnfolds(Scan(d, true, true), escaped, k - 1);
      }
      assert text[..|text|] == text;
      assert escaped[1..][..|text| - 2] == escaped[1..];
    }
  }

  lemma {:induction false} QuietPieces(d: int, pieces: seq<Piece>)
    requires ValidPieces(pieces)
    ensures Quiet(InString(d), PrintPieces(pieces))
  {
    if pieces != [] {
      QuietPiece(d, pieces[0]);
      QuietPieces(d, pieces[1..]);
      QuietConcat(InString(d), pieces[0].Print(), PrintPieces(pieces[1..]));
    }
  }

  lemma QuietText(d: int, pieces: seq<Piece>)
    requires ValidPieces(pieces)
    ensures Quiet(AtDepth(d), PrintText(pieces))
  {
    QuietPieces(d, pieces);
    Bracketed(AtDepth(d), '"', InString(d), PrintPieces(pieces), '"');
  }

  lemma {:induction false} QuietValue(d: int, v: Value)
    requires v.Valid()
    ensures Quiet(AtDepth(d), v.Print())
    decreases v
  {
    hide Quiet, Scanned, Elements.Print, Members.Print, IsBlank, Consumed;
    BracketsCount(d);
    match v {
      case Literal(text) => QuietLiteral(d, text);
      case Text(pieces) => QuietText(d, pieces);
      case Array(blank, elements) =>
        QuietList(d, blank, elements);
        Bracketed(AtDepth(d), '[', AtDepth(d), blank + elements.Print(), ']');
      case Object(blank, members) =>
        QuietBody(d, blank, members);
        Bracketed(AtDepth(d), '{', AtDepth(d + 1), blank + members.Print(), '}');
    }
  }

  lemma QuietLiteral(d: int, text: string)
    requires IsLiteral(text)
    ensures Quiet(AtDepth(d), text)
  {
    LiteralIsPlain(text);
    hide IsLiteral, Quiet;
    QuietPlain(AtDepth(d), text);
  }

  lemma LiteralIsPlain(text: string)
    requires IsLiteral(text)
    ensures forall i :: 0 <= i < |text| ==> text[i] != '"' && text[i] != '{' && text[i] != '}'
  {
    assert forall c :: c in "0123456789+-.eE" ==> c != '"' && c != '{' && c != '}';
  }

  lemma BracketsCount(d: int)
    ensures Consumed(AtDepth(d), '[') == Consumed(AtDepth(d), ']') == AtDepth(d)
    ensures Consumed(AtDepth(d), '{') == AtDepth(d + 1) && Consumed(AtDepth(d + 1), '}') == AtDepth(d)
  {
  }

  lemma {:induction false} QuietBody(d: int, blank: string, members: Members)
    requires IsBlank(blank) && members.Valid()
    ensures Quiet(AtDepth(d + 1), blank + members.Print())
    decreases members, 1
  {
    hide Quiet, Scanned;
    QuietMembers(d + 1, members);
    QuietPlain(AtDepth(d + 1), blank);
    QuietConcat(AtDepth(d + 1), blank, members.Print());
  }

  lemma {:induction false} QuietList(d: int, blank: string, elements: Elements)
    requires IsBlank(blank) && elements.Valid()
    ensures Quiet(AtDepth(d), blank + elements.Print())
    decreases elements, 1
  {
    hide Quiet, Scanned;
    QuietElements(d, elements);
    QuietPlain(AtDepth(d), blank);
    QuietConcat(AtDepth(d), blank, elements.Print());
  }

  lemma {:induction false} QuietElements(d: int, elements: Elements)
    requires elements.Valid()
    ensures Quiet(AtDepth(d), elements.Print())
    decreases elements, 0
  {
    hide Quiet, Scanned;
    var s := AtDepth(d);
    match elements {
      case End => QuietNothing(s);
      case Element(before, value, after, rest) =>
        QuietElements(d, rest);
        QuietPlain(s, Separator(rest.Element?));
        QuietConcat(s, Separator(rest.Element?), rest.Print());
        QuietPlain(s, after);
        QuietConcat(s, after, Separator(rest.Element?) + rest.Print());
        QuietValue(d, value);
        QuietConcat(s, value.Print(), after + (Separator(rest.Element?) + rest.Print()));
        QuietPlain(s, before);
        QuietConcat(s, before, value.Print() + (after + (Separator(rest.Element?) + rest.Print())));
    }
  }

  lemma {:induction false} QuietMembers(d: int, members: Members)
    requires members.Valid()
    ensures Quiet(AtDepth(d), members.Print())
    decreases members, 0
  {
    hide Quiet, Scanned;
    var s := AtDepth(d);
    match members {
      case Done => QuietNothing(s);
      case Member(before, key, afterKey, beforeValue, value, after, others) =>
        QuietMembers(d, others);
        var tail := Separator(others.Member?) + others.Print();
        QuietPlain(s, Separator(others.Member?));
        QuietConcat(s, Separator(others.Member?), others.Print());
        QuietPlain(s, after);
        QuietConcat(s, after, tail);
        QuietValue(d, value);
        QuietConcat(s, value.Print(), after + tail);
        QuietPlain(s, afterKey + ":" + beforeValue);
        QuietConcat(s, afterKey + ":" + beforeValue, value.Print() + (after + tail));
        QuietText(d, key);
        QuietConcat(s, PrintText(key), (afterKey + ":" + beforeValue) + (value.Print() + (after + tail)));
        QuietPlain(s, before);
        QuietConcat(s, before,
          PrintText(key) + ((afterKey + ":" + beforeValue) + (value.Print() + (after + tail))));
    }
  }

  lemma FirstBraceAfter(prose: string, text: string)
    requires '{' !in prose && text != [] && text[0] == '{'
    ensures FirstBrace(prose + text) == |prose|
  {
    var all := prose + text;
    assert all[|prose|] == '{';
    assert forall i :: 0 <= i < |prose| ==> all[i] == prose[i];
    assert forall i :: 0 <= i < FirstBrace(all) ==> all[i] in all[..FirstBrace(all)];
  }

  /** Any object, printed any way the grammar allows and with anything around it, is found again. */
  lemma PrintedObjectIsFound(prose: string, v: Value, suffix: string)
    requires '{' !in prose && v.Object? && v.Valid()
    ensures Extracted(prose + v.Print() + suffix) == Some(v.Print())
  {
    hide Scanned, Outside, Count;
    var text, body := v.Print(), v.blank + v.members.Print();
    assert text == ['{'] + body + ['}'];
    QuietBody(0, v.blank, v.members);
    Bracketed(AtDepth(0), '{', AtDepth(1), body, '}');
    FirstBraceAfter(prose, text + suffix);
    assert prose + text + suffix == prose + (text + suffix);
    assert (prose + text + suffix)[|prose|..] == text + suffix;
    ScanCountsOpenBraces(0, text);
    forall n | 0 < n < |text|
      ensures Open(text[..n]) > 0
    {
      ScanCountsOpenBraces(0, text[..n]);
    }
    ExtractedIsFirstObject(prose + text + suffix, text);
  }
}
