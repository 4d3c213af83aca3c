/**
 The Redis protocol as the bus harness speaks it: `encode_command` prints a command, `read_resp`
 reads one reply off a stream. A byte is written as the character with its code. How text becomes
 UTF-8 and back is the interpreter's: it comes in as a codec.
 */
module Resp {
  import opened Wrappers
  import opened Text
  import opened Sequences

  type Byte = c: char | c as int < 256
    witness 'A'

  type Bytes = seq<Byte>

  datatype Codec = Codec(encode: string -> Bytes, decode: Bytes -> Option<string>)
  {
    predicate Faithful(s: string) { decode(encode(s)) == Some(s) }
  }

  datatype Reply = Nothing | Number(n: int) | Str(s: string) | List(items: seq<Reply>)

  datatype RespError =
    | Closed
    | MalformedLine
    | MalformedBulk
    | NegativeRead
    | NotANumber
    | NotUtf8
    | UnknownPrefix(prefix: Byte)
    | ServerError(message: string)

  // Numbers.

  predicate IsDigit(c: char) { '0' <= c <= '9' }

  function DigitOf(n: nat): Byte
    requires n < 10
  {
    ('0' as int + n) as char
  }

  /** A length as an f-string prints it. */
  function Decimal(n: nat): Bytes {
    if n < 10 then [DigitOf(n)] else Decimal(n / 10) + [DigitOf(n % 10)]
  }

  /** Digits, with single underscores allowed between them. */
  function DigitsValue(b: string): Option<nat> {
    if b == [] || !IsDigit(b[|b| - 1]) then None
    else
      var last := b[|b| - 1] as int - '0' as int;
      if |b| == 1 then Some(last)
      else
        match DigitsValue(if b[|b| - 2] == '_' then b[..|b| - 2] else b[..|b| - 1])
        case Some(high) => Some(10 * high + last)
        case None => None
  }

  predicate IsAsciiSpace(c: char) { c == ' ' || 9 <= c as int <= 13 }

  /** `int(b)` for a byte string: white space around, an optional sign, digits. */
  function IntOf(b: Bytes): Option<int> {
    var t := Trim(IsAsciiSpace, b);
    if t != [] && (t[0] == '-' || t[0] == '+') then
      match DigitsValue(t[1..])
      case Some(n) => var i: int := n; Some(if t[0] == '-' then -i else i)
      case None => None
    else
      match DigitsValue(t)
      case Some(n) => Some(n)
      case None => None
  }

  lemma {:induction false} DecimalReadsBack(n: nat)
    ensures var d := Decimal(n);
            d != [] && (forall i :: 0 <= i < |d| ==> IsDigit(d[i])) && DigitsValue(d) == Some(n)
  {
    if n >= 10 {
      DecimalReadsBack(n / 10);
    }
  }

  lemma LengthReadsBack(n: nat)
    ensures IntOf(Decimal(n)) == Some(n)
  {
    DecimalReadsBack(n);
    TrimOfTrimmed(IsAsciiSpace, Decimal(n));
  }

  // Commands.

  const CRLF: Bytes := ['\r', '\n']

  function Bulk(part: Bytes): Bytes {
    ['$'] + Decimal(|part|) + CRLF + (part + CRLF)
  }

  function Bulks(parts: seq<Bytes>): Bytes {
    if parts == [] then [] else Bulk(parts[0]) + Bulks(parts[1..])
  }

  function EncodedParts(codec: Codec, parts: seq<string>): seq<Bytes> {
    seq(|parts|, i requires 0 <= i < |parts| => codec.encode(parts[i]))
  }

  function Encoded(codec: Codec, parts: seq<string>): Bytes {
    ['*'] + Decimal(|parts|) + CRLF + Bulks(EncodedParts(codec, parts))
  }

  lemma {:induction false} BulksOfOneMore(parts: seq<Bytes>, last: Bytes)
    ensures Bulks(parts + [last]) == Bulks(parts) + Bulk(last)
  {
    if parts == [] {
      assert parts + [last] == [last];
    } else {
      assert (parts + [last])[1..] == parts[1..] + [last];
      BulksOfOneMore(parts[1..], last);
    }
  }

  /** The three pieces the loop appends for a part are that part as a bulk string. */
  lemma PiecesOfPart(frame: seq<Bytes>, length: Bytes, part: Bytes)
    requires length == ['$'] + Decimal(|part|) + CRLF
    ensures Joined(frame + [length] + [part] + [CRLF]) == Joined(frame) + Bulk(part)
  {
    hide Joined, Decimal;
    JoinedOneMore(frame, length);
    JoinedOneMore(frame + [length], part);
    JoinedOneMore(frame + [length] + [part], CRLF);
  }

  lemma PartIsAppended(header: Bytes, frame: seq<Bytes>, encoded: seq<Bytes>, i: nat, length: Bytes)
    requires i < |encoded| && Joined(frame) == header + Bulks(encoded[..i])
    requires length == ['$'] + Decimal(|encoded[i]|) + CRLF
    ensures Joined(frame + [length] + [encoded[i]] + [CRLF]) == header + Bulks(encoded[..i + 1])
  {
    hide Joined, Bulks, Bulk, Decimal;
    PiecesOfPart(frame, length, encoded[i]);
    BulksOfOneMore(encoded[..i], encoded[i]);
    assert encoded[..i + 1] == encoded[..i] + [encoded[i]];
    assert (header + Bulks(encoded[..i])) + Bulk(encoded[i]) == header + (Bulks(encoded[..i]) + Bulk(encoded[i]));
  }

  method EncodeCommand(codec: Codec, parts: seq<string>) returns (bytes: Bytes)
    ensures bytes == Encoded(codec, parts)
  {
    hide Joined, Bulks, Bulk, Decimal, EncodedParts;
    var encoded := EncodedParts(codec, parts);
    var header: Bytes := ['*'] + Decimal(|parts|) + CRLF;
    var frame: seq<Bytes> := [header];
    FrameBegins(header);
    for i := 0 to |encoded|
      invariant Joined(frame) == header + Bulks(encoded[..i])
    {
      var part := encoded[i];
      var length: Bytes := ['$'] + Decimal(|part|) + CRLF;
      PartIsAppended(header, frame, encoded, i, length);
      frame := frame + [length];
      frame := frame + [part];
      frame := frame + [CRLF];
    }
    assert encoded[..|encoded|] == encoded;
    bytes := Joined(frame);
  }

  lemma FrameBegins(header: Bytes)
    ensures Joined([header]) == header + Bulks([])
  {
    assert [header][1..] == [];
  }

  // Replies, as a function from the bytes ahead to what is read and the bytes left.

  type Read<T> = (Result<T, RespError>, Bytes)

  /** The length of the first line, its newline included; all that is left when there is none. */
  function LineLength(ahead: Bytes): (n: nat)
    ensures n <= |ahead| && (ahead != [] ==> n > 0)
  {
    if ahead == [] then 0
    else if ahead[0] == '\n' then 1
    else 1 + LineLength(ahead[1..])
  }

  function LineRead(ahead: Bytes): (r: Read<Bytes>)
    ensures |r.1| <= |ahead|
  {
    var n := LineLength(ahead);
    var line, rest := ahead[..n], ahead[n..];
    if line == [] then (Err(Closed), rest)
    else if |line| < 2 || line[|line| - 2..] != CRLF then (Err(MalformedLine), rest)
    else (Ok(line[..|line| - 2]), rest)
  }

  function IntRead(ahead: Bytes): (r: Read<int>)
    ensures |r.1| <= |ahead|
  {
    var (line, rest) := LineRead(ahead);
    match line
    case Err(e) => (Err(e), rest)
    case Ok(digits) =>
      match IntOf(digits)
      case Some(n) => (Ok(n), rest)
      case None => (Err(NotANumber), rest)
  }

  function Decoded(codec: Codec, bytes: Bytes): Result<string, RespError> {
    match codec.decode(bytes)
    case Some(s) => Ok(s)
    case None => Err(NotUtf8)
  }

  /** Up to `n` bytes. */
  function Taken(ahead: Bytes, n: nat): (r: (Bytes, Bytes))
    ensures r.0 + r.1 == ahead
  {
    if n <= |ahead| then (ahead[..n], ahead[n..]) else (ahead, [])
  }

  /** `stream.read(n)` of a buffered stream: everything for -1, and below that an error, nothing read. */
  function BufferRead(ahead: Bytes, n: int): (r: Read<Bytes>)
    ensures |r.1| <= |ahead|
  {
    if n < -1 then (Err(NegativeRead), ahead)
    else if n == -1 then (Ok(ahead), [])
    else (Ok(Taken(ahead, n).0), Taken(ahead, n).1)
  }

  function BulkRead(codec: Codec, ahead: Bytes): (r: Read<Reply>)
    ensures |r.1| <= |ahead|
  {
    var (length, rest) := IntRead(ahead);
    match length
    case Err(e) => (Err(e), rest)
    case Ok(n) =>
      if n == -1 then (Ok(Nothing), rest)
      else
        var (data, afterData) := BufferRead(rest, n);
        match data
        case Err(e) => (Err(e), afterData)
        case Ok(bytes) =>
          var (terminator, left) := Taken(afterData, 2);
          if |bytes| != n || terminator != CRLF then (Err(MalformedBulk), left)
          else
            match Decoded(codec, bytes)
            case Ok(s) => (Ok(Str(s)), left)
            case Err(e) => (Err(e), left)
  }

  function ReplyRead(codec: Codec, ahead: Bytes): (r: Read<Reply>)
    ensures |r.1| <= |ahead| && (r.0.Ok? ==> |r.1| < |ahead|)
    decreases |ahead|, 0, 0
  {
    if ahead == [] then (Err(Closed), [])
    else
      var body := ahead[1..];
      match ahead[0]
      case '+' =>
        var (line, rest) := LineRead(body);
        (match line
         case Err(e) => Err(e)
         case Ok(text) =>
           match Decoded(codec, text)
           case Ok(s) => Ok(Str(s))
           case Err(e) => Err(e), rest)
      case '-' =>
        var (line, rest) := LineRead(body);
        (match line
         case Err(e) => Err(e)
         case Ok(text) =>
           match Decoded(codec, text)
           case Ok(s) => Err(ServerError(s))
           case Err(e) => Err(e), rest)
      case ':' =>
        var (n, rest) := IntRead(body);
        (match n case Err(e) => Err(e) case Ok(i) => Ok(Number(i)), rest)
      case '$' => BulkRead(codec, body)
      case '*' =>
        var (length, rest) := IntRead(body);
        (match length
         case Err(e) => (Err(e), rest)
         case Ok(n) =>
           if n == -1 then (Ok(Nothing), rest)
           else
             var (items, left) := RepliesRead(codec, rest, n);
             (match items case Err(e) => Err(e) case Ok(replies) => Ok(List(replies)), left))
      case prefix => (Err(UnknownPrefix(prefix)), body)
  }

  /** `n` replies one after the other; none when `n` is not positive. */
  function RepliesRead(codec: Codec, ahead: Bytes, n: int): (r: Read<seq<Reply>>)
    ensures |r.1| <= |ahead|
    decreases |ahead|, 1, n
  {
    if n <= 0 then (Ok([]), ahead)
    else
      var (first, rest) := ReplyRead(codec, ahead);
      match first
      case Err(e) => (Err(e), rest)
      case Ok(reply) =>
        var (others, left) := RepliesRead(codec, rest, n - 1);
        (match others case Err(e) => Err(e) case Ok(replies) => Ok([reply] + replies), left)
  }

  // Reading back what was printed.

  lemma {:induction false} LineIsRead(text: Bytes, tail: Bytes)
    requires '\n' !in text
    ensures LineLength(text + CRLF + tail) == |text| + 2
    ensures LineRead(text + CRLF + tail) == (Ok(text), tail)
  {
    var all := text + CRLF + tail;
    if text == [] {
      assert all[1..][0] == '\n';
    } else {
      LineIsRead(text[1..], tail);
      assert all[1..] == text[1..] + CRLF + tail;
    }
    assert all[..|text| + 2] == text + CRLF && all[|text| + 2..] == tail;
  }

  lemma LengthIsRead(n: nat, tail: Bytes)
    ensures IntRead(Decimal(n) + CRLF + tail) == (Ok(n), tail)
  {
    DecimalReadsBack(n);
    LengthReadsBack(n);
    LineIsRead(Decimal(n), tail);
  }

  lemma BulkIsRead(codec: Codec, s: string, tail: Bytes)
    requires codec.Faithful(s)
    ensures ReplyRead(codec, Bulk(codec.encode(s)) + tail) == (Ok(Str(s)), tail)
  {
    hide IntRead, Decimal;
    var part := codec.encode(s);
    var body := Decimal(|part|) + CRLF + (part + CRLF + tail);
    assert Bulk(part) + tail == ['$'] + body;
    assert (['$'] + body)[1..] == body;
    LengthIsRead(|part|, part + CRLF + tail);
    assert (part + CRLF + tail)[..|part|] == part;
    assert (part + CRLF + tail)[|part|..] == CRLF + tail;
  }

  function Strs(parts: seq<string>): seq<Reply> {
    seq(|parts|, i requires 0 <= i < |parts| => Str(parts[i]))
  }

  lemma {:induction false} BulksAreRead(codec: Codec, parts: seq<string>, tail: Bytes)
    requires forall i :: 0 <= i < |parts| ==> codec.Faithful(parts[i])
    ensures RepliesRead(codec, Bulks(EncodedParts(codec, parts)) + tail, |parts|) == (Ok(Strs(parts)), tail)
    decreases |parts|
  {
    hide ReplyRead, Bulk;
    var encoded := EncodedParts(codec, parts);
    if parts == [] {
      assert [] + tail == tail;
    } else {
      var rest := Bulks(EncodedParts(codec, parts[1..])) + tail;
      assert EncodedParts(codec, parts[1..]) == encoded[1..];
      assert Bulks(encoded) + tail == Bulk(encoded[0]) + rest;
      BulkIsRead(codec, parts[0], rest);
      BulksAreRead(codec, parts[1..], tail);
      assert [Str(parts[0])] + Strs(parts[1..]) == Strs(parts);
    }
  }

  predicate FaithfulTo(codec: Codec, parts: seq<string>) {
    forall i :: 0 <= i < |parts| ==> codec.Faithful(parts[i])
  }

  /** A command reads back as the list of its parts, and not one byte more is taken off the stream. */
  lemma CommandIsRead(codec: Codec, parts: seq<string>, tail: Bytes)
    requires FaithfulTo(codec, parts)
    ensures ReplyRead(codec, Encoded(codec, parts) + tail) == (Ok(List(Strs(parts))), tail)
  {
    hide IntRead, Decimal, RepliesRead, Bulks;
    var bulks := Bulks(EncodedParts(codec, parts));
    var body := Decimal(|parts|) + CRLF + (bulks + tail);
    assert Encoded(codec, parts) + tail == ['*'] + body;
    assert (['*'] + body)[1..] == body;
    LengthIsRead(|parts|, bulks + tail);
    BulksAreRead(codec, parts, tail);
  }

  /** No command is a proper prefix of another, and none reads as two. */
  lemma CommandsArePrefixFree(codec: Codec, parts: seq<string>, others: seq<string>)
    requires FaithfulTo(codec, parts) && FaithfulTo(codec, others)
    requires Encoded(codec, parts) <= Encoded(codec, others)
    ensures parts == others
  {
    hide ReplyRead, Encoded;
    var short, long := Encoded(codec, parts), Encoded(codec, others);
    CommandIsRead(codec, parts, long[|short|..]);
    assert long == short + long[|short|..] == long + [];
    CommandIsRead(codec, others, []);
    assert Strs(parts) == Strs(others);
    assert |parts| == |others|;
    forall i | 0 <= i < |parts|
      ensures parts[i] == others[i]
    {
      assert Strs(parts)[i] == Str(parts[i]) && Strs(others)[i] == Str(others[i]);
    }
  }

  function Pipelined(codec: Codec, commands: seq<seq<string>>): Bytes {
    if commands == [] then [] else Encoded(codec, commands[0]) + Pipelined(codec, commands[1..])
  }

  function Lists(commands: seq<seq<string>>): seq<Reply> {
    seq(|commands|, i requires 0 <= i < |commands| => List(Strs(commands[i])))
  }

  /** Commands written back to back are read back one by one. */
  lemma {:induction false} PipelineIsRead(codec: Codec, commands: seq<seq<string>>, tail: Bytes)
    requires forall i :: 0 <= i < |commands| ==> FaithfulTo(codec, commands[i])
    ensures RepliesRead(codec, Pipelined(codec, commands) + tail, |commands|) == (Ok(Lists(commands)), tail)
    decreases |commands|
  {
    hide ReplyRead, Encoded;
    if commands == [] {
      assert [] + tail == tail;
    } else {
      var rest := Pipelined(codec, commands[1..]) + tail;
      assert Pipelined(codec, commands) + tail == Encoded(codec, commands[0]) + rest;
      CommandIsRead(codec, commands[0], rest);
      PipelineIsRead(codec, commands[1..], tail);
      assert [List(Strs(commands[0]))] + Lists(commands[1..]) == Lists(commands);
    }
  }

  /** `PING`, byte for byte. */
  lemma PingIsPrinted(codec: Codec)
    requires codec.encode("PING") == "PING"
    ensures Encoded(codec, ["PING"]) == "*1\r\n$4\r\nPING\r\n"
  {
    assert EncodedParts(codec, ["PING"]) == ["PING"];
    assert ["PING"][1..] == [];
    assert Bulks(["PING"]) == Bulk("PING") + Bulks([]);
    assert Decimal(1) == "1" && Decimal(4) == "4";
  }

  // Replies of every type.

  /** A reply as a server prints it. */
  datatype Frame =
    | Simple(text: string)
    | Integer(n: int)
    | BulkString(text: string)
    | NullBulk
    | NullArray
    | Array(items: Frames)

  datatype Frames = NoFrame | Frames(first: Frame, rest: Frames)

  function Signed(n: int): Bytes { if n < 0 then ['-'] + Decimal(-n) else Decimal(n) }

  function Count(frames: Frames): nat { if frames.NoFrame? then 0 else 1 + Count(frames.rest) }

  function Printed(codec: Codec, frame: Frame): Bytes {
    match frame
    case Simple(text) => ['+'] + codec.encode(text) + CRLF
    case Integer(n) => [':'] + Signed(n) + CRLF
    case BulkString(text) => Bulk(codec.encode(text))
    case NullBulk => "$-1\r\n"
    case NullArray => "*-1\r\n"
    case Array(items) => ['*'] + Decimal(Count(items)) + CRLF + PrintedAll(codec, items)
  }

  function PrintedAll(codec: Codec, frames: Frames): Bytes {
    if frames.NoFrame? then [] else Printed(codec, frames.first) + PrintedAll(codec, frames.rest)
  }

  function Means(frame: Frame): Reply {
    match frame
    case Simple(text) => Str(text)
    case Integer(n) => Number(n)
    case BulkString(text) => Str(text)
    case NullBulk => Nothing
    case NullArray => Nothing
    case Array(items) => List(AllMean(items))
  }

  function AllMean(frames: Frames): seq<Reply> {
    if frames.NoFrame? then [] else [Means(frames.first)] + AllMean(frames.rest)
  }

  /** Its texts survive the codec, and those on a line have no newline in them. */
  predicate Printable(codec: Codec, frame: Frame) {
    match frame
    case Simple(text) => codec.Faithful(text) && '\n' !in codec.encode(text)
    case BulkString(text) => codec.Faithful(text)
    case Array(items) => AllPrintable(codec, items)
    case _ => true
  }

  predicate AllPrintable(codec: Codec, frames: Frames) {
    frames.Frames? ==> Printable(codec, frames.first) && AllPrintable(codec, frames.rest)
  }

  lemma SignedReadsBack(n: int)
    ensures IntOf(Signed(n)) == Some(n) && '\n' !in Signed(n)
  {
    DecimalReadsBack(if n < 0 then -n else n);
    if n < 0 {
      var d := Decimal(-n);
      var s: Bytes := ['-'] + d;
      assert s[1..] == d;
      assert s[|s| - 1] == d[|d| - 1];
      TrimOfTrimmed(IsAsciiSpace, s);
    } else {
      LengthReadsBack(n);
    }
  }

  lemma SignedIsRead(n: int, tail: Bytes)
    ensures IntRead(Signed(n) + CRLF + tail) == (Ok(n), tail)
  {
    SignedReadsBack(n);
    LineIsRead(Signed(n), tail);
  }

  /** Any reply reads back as what it means, however deep, and leaves exactly what follows it. */
  lemma {:induction false} ReplyIsRead(codec: Codec, frame: Frame, tail: Bytes)
    requires Printable(codec, frame)
    ensures ReplyRead(codec, Printed(codec, frame) + tail) == (Ok(Means(frame)), tail)
    decreases frame
  {
    hide IntRead, LineRead, Decimal, RepliesRead, BulkRead, Signed, Bulk;
    match frame {
      case Simple(text) =>
        var body := codec.encode(text) + CRLF + tail;
        assert Printed(codec, frame) + tail == ['+'] + body && (['+'] + body)[1..] == body;
        LineIsRead(codec.encode(text), tail);
      case Integer(n) =>
        var body := Signed(n) + CRLF + tail;
        assert Printed(codec, frame) + tail == [':'] + body && ([':'] + body)[1..] == body;
        SignedIsRead(n, tail);
      case BulkString(text) => BulkIsRead(codec, text, tail);
      case NullBulk => NullIsRead(codec, tail);
      case NullArray => NullIsRead(codec, tail);
      case Array(items) =>
        var n := Count(items);
        var body := Decimal(n) + CRLF + (PrintedAll(codec, items) + tail);
        assert Printed(codec, frame) + tail == ['*'] + body && (['*'] + body)[1..] == body;
        LengthIsRead(n, PrintedAll(codec, items) + tail);
        AllAreRead(codec, items, tail);
    }
  }

  lemma NullIsRead(codec: Codec, tail: Bytes)
    ensures ReplyRead(codec, "$-1\r\n" + tail) == (Ok(Nothing), tail)
    ensures ReplyRead(codec, "*-1\r\n" + tail) == (Ok(Nothing), tail)
  {
    var body := Signed(-1) + CRLF + tail;
    SignedIsRead(-1, tail);
    assert Decimal(1) == "1";
    hide IntRead, RepliesRead;
    assert "$-1\r\n" + tail == ['$'] + body && (['$'] + body)[1..] == body;
    assert "*-1\r\n" + tail == ['*'] + body && (['*'] + body)[1..] == body;
  }

  lemma {:induction false} AllAreRead(codec: Codec, frames: Frames, tail: Bytes)
    requires AllPrintable(codec, frames)
    ensures RepliesRead(codec, PrintedAll(codec, frames) + tail, Count(frames)) == (Ok(AllMean(frames)), tail)
    decreases frames
  {
    hide ReplyRead, Printed;
    if frames.NoFrame? {
      assert [] + tail == tail;
    } else {
      var rest := PrintedAll(codec, frames.rest) + tail;
      assert PrintedAll(codec, frames) + tail == Printed(codec, frames.first) + rest;
      ReplyIsRead(codec, frames.first, rest);
      AllAreRead(codec, frames.rest, tail);
    }
  }

  /** An error reply is raised with its text, and an unknown type with its first byte. */
  lemma ErrorIsRaised(codec: Codec, text: string, prefix: Byte, tail: Bytes)
    requires codec.Faithful(text) && '\n' !in codec.encode(text)
    ensures ReplyRead(codec, ['-'] + codec.encode(text) + CRLF + tail) == (Err(ServerError(text)), tail)
    ensures prefix !in "+-:$*" ==> ReplyRead(codec, [prefix] + tail) == (Err(UnknownPrefix(prefix)), tail)
  {
    hide LineRead, IntRead, BulkRead, RepliesRead;
    var body := codec.encode(text) + CRLF + tail;
    assert ['-'] + codec.encode(text) + CRLF + tail == ['-'] + body && (['-'] + body)[1..] == body;
    LineIsRead(codec.encode(text), tail);
    assert ([prefix] + tail)[1..] == tail;
    assert prefix !in "+-:$*" ==> prefix != '+' && prefix != '-' && prefix != ':' && prefix != '$' && prefix != '*';
  }

  // What Python's `int` takes, and what it does not.

  /** White space around a number and a sign in front of it count for nothing but the sign. */
  lemma IntIsSpelled(before: Bytes, sign: Bytes, n: nat, after: Bytes)
    requires forall i :: 0 <= i < |before| ==> before[i] as int in {9, 10, 11, 12, 13, 32}
    requires forall i :: 0 <= i < |after| ==> after[i] as int in {9, 10, 11, 12, 13, 32}
    requires sign == "" || sign == "+" || sign == "-"
    ensures IntOf(before + sign + Decimal(n) + after) == Some(if sign == "-" then 0 - n else n)
  {
    DecimalReadsBack(n);
    var core := sign + Decimal(n);
    hide Decimal, DigitsValue;
    assert core[|core| - 1] == Decimal(n)[|Decimal(n)| - 1];
    assert sign != "" ==> core[0] == sign[0] && core[1..] == Decimal(n);
    assert sign == "" ==> core == Decimal(n);
    TrimLeavesCore(IsAsciiSpace, before, core, after);
    assert before + sign + Decimal(n) + after == before + core + after;
  }

  lemma DigitsStep(s: string)
    requires |s| > 1 && IsDigit(s[|s| - 1])
    ensures DigitsValue(s) == match DigitsValue(s[..|s| - if s[|s| - 2] == '_' then 2 else 1])
      case Some(high) => Some(10 * high + (s[|s| - 1] as int - '0' as int))
      case None => None
  {
  }

  /** The last digit of a number, and what stands before it. */
  lemma DigitsEnd(p: string, b: string)
    requires |b| > 1 && IsDigit(b[|b| - 1])
    ensures var n := if b[|b| - 2] == '_' then 2 else 1;
      DigitsValue(p + b) == match DigitsValue(p + b[..|b| - n])
        case Some(high) => Some(10 * high + (b[|b| - 1] as int - '0' as int))
        case None => None
  {
    hide DigitsValue, IsDigit;
    var s, n := p + b, if b[|b| - 2] == '_' then 2 else 1;
    assert s[|s| - 1] == b[|b| - 1] && s[|s| - 2] == b[|b| - 2];
    DigitsStep(s);
    assert s[..|s| - n] == p + b[..|b| - n];
  }

  /** An underscore between two numbers joins them. */
  lemma {:induction false} UnderscoreJoins(a: string, b: string)
    requires DigitsValue(a).Some? && DigitsValue(b).Some?
    ensures DigitsValue(a + "_" + b) == DigitsValue(a + b)
    decreases |b|
  {
    NumberEndsInDigit(a);
    NumberEndsInDigit(b);
    hide DigitsValue;
    if |b| == 1 {
      OneDigitJoins(a, b[0]);
      assert b == [b[0]];
    } else {
      var init := b[..|b| - if b[|b| - 2] == '_' then 2 else 1];
      NumberStartsWithNumber(b);
      UnderscoreJoins(a, init);
      DigitsEnd(a + "_", b);
      DigitsEnd(a, b);
    }
  }

  lemma NumberStartsWithNumber(b: string)
    requires DigitsValue(b).Some? && |b| > 1
    ensures DigitsValue(b[..|b| - if b[|b| - 2] == '_' then 2 else 1]).Some?
  {
    NumberEndsInDigit(b);
    hide DigitsValue;
    DigitsStep(b);
  }

  /** At the end of a number, or in front of one, an underscore spoils it. */
  lemma OuterUnderscoreIsRefused(a: string)
    ensures DigitsValue(a + "_") == DigitsValue("_" + a) == None
  {
    assert (a + "_")[|a|] == '_';
    LeadingUnderscoreIsRefused(a);
  }

  lemma NumberEndsInDigit(a: string)
    requires DigitsValue(a).Some?
    ensures a != [] && IsDigit(a[|a| - 1])
  {
  }

  lemma OneDigitJoins(a: string, c: char)
    requires a != [] && IsDigit(a[|a| - 1]) && IsDigit(c)
    ensures DigitsValue(a + "_" + [c]) == DigitsValue(a + [c])
  {
    hide DigitsValue;
    var init, last := a[..|a| - 1], a[|a| - 1];
    DigitsEnd(a, ['_', c]);
    DigitsEnd(init, [last, c]);
    assert a + ['_', c] == a + "_" + [c] && a + ['_', c][..0] == a;
    assert init + [last, c] == a + [c] && init + [last, c][..1] == a;
  }

  lemma {:induction false} LeadingUnderscoreIsRefused(a: string)
    ensures DigitsValue("_" + a) == None
    decreases |a|
  {
    var s := "_" + a;
    if |a| == 1 {
      assert s[..|s| - 1] == "_" && s[..|s| - 2] == "";
    } else if |a| > 1 {
      assert s[..|s| - 1] == "_" + a[..|a| - 1] && s[..|s| - 2] == "_" + a[..|a| - 2];
      LeadingUnderscoreIsRefused(a[..|a| - 1]);
      LeadingUnderscoreIsRefused(a[..|a| - 2]);
    }
  }

  // Replies that are no replies.

  /** Below -1 the length of an array means an empty one, and that of a bulk string an error. */
  lemma NegativeLengthIsRead(codec: Codec, n: int, tail: Bytes)
    requires n < -1
    ensures ReplyRead(codec, ['*'] + Signed(n) + CRLF + tail) == (Ok(List([])), tail)
    ensures ReplyRead(codec, ['$'] + Signed(n) + CRLF + tail) == (Err(NegativeRead), tail)
  {
    var body := Signed(n) + CRLF + tail;
    SignedIsRead(n, tail);
    hide IntRead, Signed;
    assert ['*'] + Signed(n) + CRLF + tail == ['*'] + body && (['*'] + body)[1..] == body;
    assert ['$'] + Signed(n) + CRLF + tail == ['$'] + body && (['$'] + body)[1..] == body;
  }

  /** A bulk string that does not end where its length says is refused. */
  lemma MisplacedEndIsRefused(codec: Codec, data: Bytes, end: Bytes, tail: Bytes)
    requires |end| == 2 && end != CRLF
    ensures ReplyRead(codec, ['$'] + (Decimal(|data|) + CRLF + (data + end + tail))) == (Err(MalformedBulk), tail)
  {
    var rest := data + end + tail;
    var body := Decimal(|data|) + CRLF + rest;
    LengthIsRead(|data|, rest);
    assert rest[|data|..|data| + 2] == end && rest[|data| + 2..] == tail;
    hide IntRead, Decimal, BulkRead, ReplyRead;
    EndIsMissed(codec, body, |data|, rest);
    BulkFollows(codec, body);
  }

  lemma EndIsMissed(codec: Codec, ahead: Bytes, n: nat, rest: Bytes)
    requires IntRead(ahead) == (Ok(n), rest) && n + 2 <= |rest| && rest[n..n + 2] != CRLF
    ensures BulkRead(codec, ahead) == (Err(MalformedBulk), rest[n + 2..])
  {
    hide IntRead, Decoded;
    assert rest[n..][..2] == rest[n..n + 2] && rest[n..][2..] == rest[n + 2..];
  }

  /** Bytes that are no text are refused, on a line and in a bulk string. */
  lemma BadTextIsRefused(codec: Codec, prefix: Byte, text: Bytes, tail: Bytes)
    requires prefix in "+-" && '\n' !in text && codec.decode(text) == None
    ensures ReplyRead(codec, [prefix] + (text + CRLF + tail)) == (Err(NotUtf8), tail)
  {
    LineIsRead(text, tail);
    hide LineRead, ReplyRead;
    BadLineTextIsRefused(codec, prefix, text + CRLF + tail, text, tail);
  }

  lemma BadBulkTextIsRefused(codec: Codec, text: Bytes, tail: Bytes)
    requires codec.decode(text) == None
    ensures ReplyRead(codec, ['$'] + (Decimal(|text|) + CRLF + (text + CRLF + tail))) == (Err(NotUtf8), tail)
  {
    var rest := text + CRLF + tail;
    var body := Decimal(|text|) + CRLF + rest;
    LengthIsRead(|text|, rest);
    hide IntRead, Decimal, BulkRead, ReplyRead;
    assert rest[..|text|] == text && rest[|text|..|text| + 2] == CRLF && rest[|text| + 2..] == tail;
    BadBulkIsRefused(codec, body, |text|, rest);
    BulkFollows(codec, body);
  }

  lemma BulkFollows(codec: Codec, body: Bytes)
    ensures ReplyRead(codec, ['$'] + body) == BulkRead(codec, body)
  {
    hide BulkRead, IntRead, LineRead, RepliesRead;
    assert (['$'] + body)[1..] == body;
  }

  lemma BadLineTextIsRefused(codec: Codec, prefix: Byte, body: Bytes, text: Bytes, rest: Bytes)
    requires prefix in "+-" && LineRead(body) == (Ok(text), rest) && codec.decode(text) == None
    ensures ReplyRead(codec, [prefix] + body) == (Err(NotUtf8), rest)
  {
    hide LineRead, RepliesRead;
    assert ([prefix] + body)[1..] == body;
    assert prefix == '+' || prefix == '-';
  }

  lemma BadBulkIsRefused(codec: Codec, ahead: Bytes, n: nat, rest: Bytes)
    requires IntRead(ahead) == (Ok(n), rest) && n + 2 <= |rest| && rest[n..n + 2] == CRLF
    requires codec.decode(rest[..n]) == None
    ensures BulkRead(codec, ahead) == (Err(NotUtf8), rest[n + 2..])
  {
    hide IntRead;
    assert rest[n..][..2] == rest[n..n + 2] && rest[n..][2..] == rest[n + 2..];
  }

  /** A line that ends in a newline alone is refused, whatever it is to be. */
  lemma BareNewlineIsRefused(codec: Codec, prefix: Byte, text: Bytes, tail: Bytes)
    requires prefix in "+-:$*" && '\n' !in text && (text != [] ==> text[|text| - 1] != '\r')
    ensures ReplyRead(codec, [prefix] + (text + "\n" + tail)) == (Err(MalformedLine), tail)
  {
    hide LineRead, ReplyRead;
    BareLineIsRead(text, tail);
    LineFails(codec, prefix, text + "\n" + tail, MalformedLine, tail);
  }

  /** So is one that does not end. */
  lemma CutLineIsRefused(codec: Codec, prefix: Byte, text: Bytes)
    requires prefix in "+-:$*" && '\n' !in text
    ensures ReplyRead(codec, [prefix] + text) == (Err(if text == [] then Closed else MalformedLine), [])
  {
    hide LineRead, ReplyRead;
    CutLineIsRead(text);
    LineFails(codec, prefix, text, if text == [] then Closed else MalformedLine, []);
  }

  /** And a number or a length that is none. */
  lemma NoNumberIsRefused(codec: Codec, prefix: Byte, text: Bytes, tail: Bytes)
    requires prefix in ":$*" && '\n' !in text && IntOf(text) == None
    ensures ReplyRead(codec, [prefix] + (text + CRLF + tail)) == (Err(NotANumber), tail)
  {
    LineIsRead(text, tail);
    hide LineRead, IntOf, ReplyRead;
    NumberFails(codec, prefix, text + CRLF + tail, tail);
  }

  lemma LineFails(codec: Codec, prefix: Byte, body: Bytes, error: RespError, rest: Bytes)
    requires prefix in "+-:$*" && LineRead(body) == (Err(error), rest)
    ensures ReplyRead(codec, [prefix] + body) == (Err(error), rest)
  {
    hide LineRead, RepliesRead, IntOf, BufferRead, Decoded;
    assert ([prefix] + body)[1..] == body;
    assert prefix == '+' || prefix == '-' || prefix == ':' || prefix == '$' || prefix == '*';
  }

  lemma NumberFails(codec: Codec, prefix: Byte, body: Bytes, rest: Bytes)
    requires prefix in ":$*" && IntRead(body) == (Err(NotANumber), rest)
    ensures ReplyRead(codec, [prefix] + body) == (Err(NotANumber), rest)
  {
    hide IntRead, RepliesRead;
    assert ([prefix] + body)[1..] == body;
    assert prefix == ':' || prefix == '$' || prefix == '*';
  }

  lemma {:induction false} BareLineLength(text: Bytes, tail: Bytes)
    requires '\n' !in text
    ensures LineLength(text) == |text| && LineLength(text + "\n" + tail) == |text| + 1
  {
    var all := text + "\n" + tail;
    if text != [] {
      assert all[1..] == text[1..] + "\n" + tail;
      BareLineLength(text[1..], tail);
    }
  }

  lemma BareLineIsRead(text: Bytes, tail: Bytes)
    requires '\n' !in text && (text != [] ==> text[|text| - 1] != '\r')
    ensures LineRead(text + "\n" + tail) == (Err(MalformedLine), tail)
  {
    BareLineLength(text, tail);
    hide LineLength;
    var all, line := text + "\n" + tail, text + "\n";
    assert all[..|line|] == line && all[|line|..] == tail;
    assert |line| >= 2 ==> line[|line| - 2..][0] == text[|text| - 1];
  }

  lemma CutLineIsRead(text: Bytes)
    requires '\n' !in text
    ensures LineRead(text) == (Err(if text == [] then Closed else MalformedLine), [])
  {
    BareLineLength(text, []);
    hide LineLength;
    assert text[|text|..] == [] && text[..|text|] == text;
    assert |text| >= 2 ==> text[|text| - 2..][1] == text[|text| - 1];
  }

  // A reply cut short.

  lemma {:induction false} LineEndStays(ahead: Bytes, more: Bytes)
    requires var n := LineLength(ahead); n > 0 && ahead[n - 1] == '\n'
    ensures LineLength(ahead + more) == LineLength(ahead)
  {
    if ahead[0] != '\n' {
      assert (ahead + more)[1..] == ahead[1..] + more;
      LineEndStays(ahead[1..], more);
    }
  }

  lemma LineStays(ahead: Bytes, more: Bytes)
    requires LineRead(ahead).0.Ok?
    ensures LineRead(ahead + more) == (LineRead(ahead).0, LineRead(ahead).1 + more)
  {
    var n := LineLength(ahead);
    assert ahead[n - 1] == ahead[..n][n - 2..][1] == '\n';
    LineEndStays(ahead, more);
    assert (ahead + more)[..n] == ahead[..n] && (ahead + more)[n..] == ahead[n..] + more;
  }

  lemma BulkStays(codec: Codec, ahead: Bytes, more: Bytes)
    requires BulkRead(codec, ahead).0.Ok?
    ensures BulkRead(codec, ahead + more) == (BulkRead(codec, ahead).0, BulkRead(codec, ahead).1 + more)
  {
    LineStays(ahead, more);
    var (length, rest) := IntRead(ahead);
    var n := length.value;
    if n != -1 {
      assert (rest + more)[..n] == rest[..n] && (rest + more)[n..] == rest[n..] + more;
      assert rest[n..][..2] == (rest[n..] + more)[..2];
      assert (rest[n..] + more)[2..] == rest[n..][2..] + more;
    }
  }

  /** What has been read as a reply stays read when more bytes arrive. */
  lemma {:induction false} ReplyStays(codec: Codec, ahead: Bytes, more: Bytes)
    requires ReplyRead(codec, ahead).0.Ok?
    ensures ReplyRead(codec, ahead + more) == (ReplyRead(codec, ahead).0, ReplyRead(codec, ahead).1 + more)
    decreases |ahead|, 0, 0
  {
    hide LineRead, IntOf, BulkRead;
    var body := ahead[1..];
    assert (ahead + more)[1..] == body + more;
    match ahead[0] {
      case '+' => LineStays(body, more);
      case ':' => LineStays(body, more);
      case '$' => BulkStays(codec, body, more);
      case '*' =>
        LineStays(body, more);
        var (length, rest) := IntRead(body);
        if length.value != -1 {
          RepliesStay(codec, rest, length.value, more);
        }
      case _ =>
    }
  }

  lemma {:induction false} RepliesStay(codec: Codec, ahead: Bytes, n: int, more: Bytes)
    requires RepliesRead(codec, ahead, n).0.Ok?
    ensures RepliesRead(codec, ahead + more, n) ==
      (RepliesRead(codec, ahead, n).0, RepliesRead(codec, ahead, n).1 + more)
    decreases |ahead|, 1, n
  {
    hide ReplyRead;
    if n > 0 {
      ReplyStays(codec, ahead, more);
      RepliesStay(codec, ReplyRead(codec, ahead).1, n - 1, more);
    }
  }

  /** A command cut short is never taken for a reply: reading it fails. */
  lemma CutCommandFails(codec: Codec, parts: seq<string>, cut: Bytes)
    requires FaithfulTo(codec, parts) && cut < Encoded(codec, parts)
    ensures ReplyRead(codec, cut).0.Err?
  {
    hide ReplyRead, Encoded;
    var all := Encoded(codec, parts);
    if ReplyRead(codec, cut).0.Ok? {
      assert all == cut + all[|cut|..] == all + [];
      ReplyStays(codec, cut, all[|cut|..]);
      CommandIsRead(codec, parts, []);
      assert false;
    }
  }

  // The stream.

  class ByteStream {
    var rest: Bytes

    constructor (bytes: Bytes)
      ensures rest == bytes
    {
      rest := bytes;
    }

    method Read(n: int) returns (bytes: Result<Bytes, RespError>)
      modifies this
      ensures (bytes, rest) == BufferRead(old(rest), n)
    {
      if n < -1 {
        return Err(NegativeRead);
      }
      assert rest[..|rest|] == rest && rest[|rest|..] == [];
      var taken := if 0 <= n <= |rest| then n else |rest|;
      bytes := Ok(rest[..taken]);
      rest := rest[taken..];
    }

    method ReadLine() returns (line: Bytes)
      modifies this
      ensures var n := LineLength(old(rest)); line == old(rest)[..n] && rest == old(rest)[n..]
    {
      var n := 0;
      while n < |rest| && (n == 0 || rest[n - 1] != '\n')
        invariant n <= |rest|
        invariant LineLength(rest) == n + if n > 0 && rest[n - 1] == '\n' then 0 else LineLength(rest[n..])
      {
        n := n + 1;
      }
      line := rest[..n];
      rest := rest[n..];
    }
  }

  method TakeLine(stream: ByteStream) returns (line: Result<Bytes, RespError>)
    modifies stream
    ensures (line, stream.rest) == LineRead(old(stream.rest))
  {
    var raw := stream.ReadLine();
    if raw == [] {
      return Err(Closed);
    }
    if |raw| < 2 || raw[|raw| - 2..] != CRLF {
      return Err(MalformedLine);
    }
    return Ok(raw[..|raw| - 2]);
  }

  method TakeInt(stream: ByteStream) returns (n: Result<int, RespError>)
    modifies stream
    ensures (n, stream.rest) == IntRead(old(stream.rest))
  {
    var line := TakeLine(stream);
    if line.Err? {
      return Err(line.error);
    }
    var value := IntOf(line.value);
    return if value.Some? then Ok(value.value) else Err(NotANumber);
  }

  method ReadResp(codec: Codec, stream: ByteStream) returns (reply: Result<Reply, RespError>)
    modifies stream
    ensures (reply, stream.rest) == ReplyRead(codec, old(stream.rest))
    decreases |stream.rest|, 0
  {
    hide LineRead, IntRead, BulkRead, RepliesRead;
    var ahead := stream.rest;
    var prefix := stream.Read(1);
    if prefix.value == [] {
      return Err(Closed);
    }
    assert ahead[..1] == [ahead[0]];
    match prefix.value[0] {
      case '+' =>
        var line := TakeLine(stream);
        if line.Err? {
          return Err(line.error);
        }
        var text := Decoded(codec, line.value);
        return if text.Ok? then Ok(Str(text.value)) else Err(text.error);
      case '-' =>
        var line := TakeLine(stream);
        if line.Err? {
          return Err(line.error);
        }
        var text := Decoded(codec, line.value);
        return if text.Ok? then Err(ServerError(text.value)) else Err(text.error);
      case ':' =>
        var n := TakeInt(stream);
        return if n.Ok? then Ok(Number(n.value)) else Err(n.error);
      case '$' =>
        reply := ReadBulk(codec, stream);
      case '*' =>
        var length := TakeInt(stream);
        if length.Err? {
          return Err(length.error);
        }
        if length.value == -1 {
          return Ok(Nothing);
        }
        var items := ReadItems(codec, stream, length.value);
        return if items.Ok? then Ok(List(items.value)) else Err(items.error);
      case other =>
        return Err(UnknownPrefix(other));
    }
  }

  method ReadItems(codec: Codec, stream: ByteStream, n: int) returns (items: Result<seq<Reply>, RespError>)
    modifies stream
    ensures (items, stream.rest) == RepliesRead(codec, old(stream.rest), n)
    decreases |stream.rest|, 1
  {
    hide ReplyRead;
    ghost var start := stream.rest;
    var replies: seq<Reply> := [];
    PrecededByNothing(RepliesRead(codec, start, n));
    for i := 0 to if n > 0 then n else 0
      invariant |stream.rest| <= |start|
      invariant RepliesRead(codec, start, n) == Preceded(replies, RepliesRead(codec, stream.rest, n - i))
    {
      ghost var now := stream.rest;
      var item := ReadResp(codec, stream);
      if item.Err? {
        return Err(item.error);
      }
      PrecededTwice(replies, item.value, RepliesRead(codec, stream.rest, n - i - 1));
      replies := replies + [item.value];
    }
    assert replies + [] == replies;
    return Ok(replies);
  }

  lemma PrecededByNothing(more: Read<seq<Reply>>)
    ensures Preceded([], more) == more
  {
    if more.0.Ok? {
      assert [] + more.0.value == more.0.value;
    }
  }

  lemma PrecededTwice(items: seq<Reply>, item: Reply, more: Read<seq<Reply>>)
    ensures Preceded(items, Preceded([item], more)) == Preceded(items + [item], more)
  {
    if more.0.Ok? {
      assert items + ([item] + more.0.value) == items + [item] + more.0.value;
    }
  }

  function Preceded(items: seq<Reply>, more: Read<seq<Reply>>): Read<seq<Reply>> {
    (match more.0 case Ok(replies) => Ok(items + replies) case Err(e) => Err(e), more.1)
  }

  method ReadBulk(codec: Codec, stream: ByteStream) returns (reply: Result<Reply, RespError>)
    modifies stream
    ensures (reply, stream.rest) == BulkRead(codec, old(stream.rest))
  {
    var length := TakeInt(stream);
    if length.Err? {
      return Err(length.error);
    }
    if length.value == -1 {
      return Ok(Nothing);
    }
    var data := stream.Read(length.value);
    if data.Err? {
      return Err(data.error);
    }
    var terminator := stream.Read(2);
    if |data.value| != length.value || terminator.value != CRLF {
      return Err(MalformedBulk);
    }
    var text := Decoded(codec, data.value);
    return if text.Ok? then Ok(Str(text.value)) else Err(text.error);
  }
}
