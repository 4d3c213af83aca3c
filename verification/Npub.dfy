/**
 `pubkeyToNpub`: hex key to `npub` string (NIP-19), with the reading of such a string to compare
 against. Only characters of the hex pattern are ever accepted, so lower-casing is that of ASCII.
 */
module Npub {
  import opened Wrappers
  import opened Bech32
  import opened BitRegroup
  import opened Text

  const CHARSET := "qpzry9x8gf2tvdw0s3jn54khce6mua7l"
  const PREFIX := "npub1"

  /** The code units of "npub". */
  const HRP: seq<Word> := [Word(0x6e), Word(0x70), Word(0x75), Word(0x62)]

  // Numbers below 32 as symbols of the checksum.

  function BitWord(on: bool, bits: bv32): bv32 { if on then bits else 0 }

  function ToWord(n: int): Word {
    Word(BitWord(n / 16 % 2 == 1, 16) | BitWord(n / 8 % 2 == 1, 8) | BitWord(n / 4 % 2 == 1, 4)
         | BitWord(n / 2 % 2 == 1, 2) | BitWord(n % 2 == 1, 1))
  }

  function Weight(on: bool, n: nat): nat { if on then n else 0 }

  function ToNumber(w: Word): nat {
    Weight(w.bits & 16 != 0, 16) + Weight(w.bits & 8 != 0, 8) + Weight(w.bits & 4 != 0, 4)
    + Weight(w.bits & 2 != 0, 2) + Weight(w.bits & 1 != 0, 1)
  }

  lemma NumberOfWord(n: int)
    requires 0 <= n < 32
    ensures IsSymbol(ToWord(n)) && ToNumber(ToWord(n)) == n
  {}

  lemma WordOfNumber(w: Word)
    requires IsSymbol(w)
    ensures 0 <= ToNumber(w) < 32 && ToWord(ToNumber(w)) == w
  {}

  function ToWords(numbers: seq<int>): seq<Word> {
    seq(|numbers|, i requires 0 <= i < |numbers| => ToWord(numbers[i]))
  }

  /** The number a character stands for, or -1. */
  function Value(c: char): int {
    match c
    case 'q' => 0 case 'p' => 1 case 'z' => 2 case 'r' => 3 case 'y' => 4 case '9' => 5 case 'x' => 6 case '8' => 7
    case 'g' => 8 case 'f' => 9 case '2' => 10 case 't' => 11 case 'v' => 12 case 'd' => 13 case 'w' => 14 case '0' => 15
    case 's' => 16 case '3' => 17 case 'j' => 18 case 'n' => 19 case '5' => 20 case '4' => 21 case 'k' => 22 case 'h' => 23
    case 'c' => 24 case 'e' => 25 case '6' => 26 case 'm' => 27 case 'u' => 28 case 'a' => 29 case '7' => 30 case 'l' => 31
    case _ => -1
  }

  /** The characters of BIP 173, in the order of the numbers they stand for. */
  lemma ValueOfCharset(n: int)
    requires 0 <= n < 32
    ensures Value(CHARSET[n]) == n && CHARSET[n] == "qpzry9x8gf2tvdw0s3jn54khce6mua7l"[n]
  {}

  lemma PrefixIsNpub()
    ensures PREFIX == "npub1"
    ensures HrpExpand(HRP) ==
      [Word(3), Word(3), Word(3), Word(3), Word(0), Word(14), Word(16), Word(21), Word(2)]
  {}

  lemma CharsetOfValue(c: char)
    requires Value(c) >= 0
    ensures 0 <= Value(c) < 32 && CHARSET[Value(c)] == c
  {}

  function Values(chars: string): seq<int> {
    seq(|chars|, i requires 0 <= i < |chars| => Value(chars[i]))
  }

  // Keys.

  /** The white space and line terminators that `trim` removes. */
  predicate IsSpace(c: char) {
    var n := c as int;
    || 9 <= n <= 13 || n == 0x20 || n == 0xA0 || n == 0x1680 || 0x2000 <= n <= 0x200A
    || n == 0x2028 || n == 0x2029 || n == 0x202F || n == 0x205F || n == 0x3000 || n == 0xFEFF
  }

  function Normalised(hex: string): string { AsciiLower(Trim(IsSpace, hex)) }

  predicate IsHexDigit(c: char) { '0' <= c <= '9' || 'a' <= c <= 'f' }

  predicate IsKey(hex: string) {
    |hex| == 64 && forall i :: 0 <= i < 64 ==> IsHexDigit(hex[i])
  }

  function HexValue(c: char): int
    requires IsHexDigit(c)
  {
    if c <= '9' then c as int - '0' as int else c as int - 'a' as int + 10
  }

  /** The number a pair of hex digits stands for: `parseInt(pair, 16)`. */
  function PairValue(high: char, low: char): (b: int)
    requires IsHexDigit(high) && IsHexDigit(low)
    ensures 0 <= b < 256
  {
    16 * HexValue(high) + HexValue(low)
  }

  function KeyBytes(hex: string): (bytes: seq<int>)
    requires IsKey(hex)
    ensures |bytes| == 32 && Within(bytes, 256)
  {
    seq(32, i requires 0 <= i < 32 => PairValue(hex[2 * i], hex[2 * i + 1]))
  }

  /** What a reader makes of an `npub` string: it verifies and its data part spells `bytes`. */
  predicate Denotes(npub: string, bytes: seq<int>) {
    && |npub| == 63 && npub[..5] == PREFIX
    && Within(Values(npub[5..]), 32)
    && Regroups(Values(npub[5..57]), bytes)
    && Verifies(HRP, ToWords(Values(npub[5..])))
  }

  method Encode(numbers: seq<int>) returns (chars: string)
    requires Within(numbers, 32)
    ensures Values(chars) == numbers
  {
    chars := "";
    for i := 0 to |numbers|
      invariant Values(chars) == numbers[..i]
    {
      ValueOfCharset(numbers[i]);
      chars := chars + [CHARSET[numbers[i]]];
      assert Values(chars) == numbers[..i] + [numbers[i]];
    }
  }

  /** `pubkeyToNpub`: null for anything but a key, and otherwise a string that denotes the key. */
  method PubkeyToNpub(hexPubkey: string) returns (npub: Option<string>)
    ensures npub.Some? <==> IsKey(Normalised(hexPubkey))
    ensures npub.Some? ==> Denotes(npub.value, KeyBytes(Normalised(hexPubkey)))
  {
    hide Normalised, KeyBytes, Denotes, Checksum, ToWords;
    var hex := Normalised(hexPubkey);
    if !IsKey(hex) {
      return None;
    }
    var data := ConvertBitsTo5(KeyBytes(hex));
    var checksum := ComputeChecksum(HRP, ToWords(data));
    var tail := seq(6, i requires 0 <= i < 6 => ToNumber(checksum[i]));
    ChecksumNumbers(data, tail);
    var chars := Encode(data + tail);
    CharsDenote(KeyBytes(hex), data, tail, chars);
    npub := Some(PREFIX + chars);
  }

  /** `tail` is the checksum of `data`, as numbers. */
  predicate IsChecksumOf(data: seq<int>, tail: seq<int>) {
    && |tail| == 6
    && forall i :: 0 <= i < 6 ==> tail[i] == ToNumber(Checksum(HRP, ToWords(data))[i])
  }

  lemma ChecksumNumbers(data: seq<int>, tail: seq<int>)
    requires Within(data, 32) && IsChecksumOf(data, tail)
    ensures Within(tail, 32)
    ensures ToWords(data + tail) == ToWords(data) + Checksum(HRP, ToWords(data))
    ensures Verifies(HRP, ToWords(data + tail))
  {
    var words := ToWords(data);
    WordsAreSymbols(data);
    DataFits(words);
    ChecksumVerifies(HRP, words);
    hide Verifies, Checksum, Symbols;
    NumbersOfWords(Checksum(HRP, words), tail);
    assert ToWords(data + tail) == ToWords(data) + ToWords(tail);
  }

  lemma CharsDenote(bytes: seq<int>, data: seq<int>, tail: seq<int>, chars: string)
    requires Within(data, 32) && |data| == 52 && Regroups(data, bytes) && IsChecksumOf(data, tail)
    requires Values(chars) == data + tail
    ensures Denotes(PREFIX + chars, bytes)
  {
    ChecksumNumbers(data, tail);
    hide Verifies, Regroups, Checksum, ToWords;
    var npub := PREFIX + chars;
    assert npub[..5] == PREFIX;
    assert npub[5..] == chars && npub[5..57] == chars[..52];
    assert Values(chars[..52]) == Values(chars)[..52] == data;
  }

  lemma WordsAreSymbols(numbers: seq<int>)
    requires Within(numbers, 32)
    ensures AllSymbols(ToWords(numbers))
  {
    forall i | 0 <= i < |numbers|
      ensures IsSymbol(ToWords(numbers)[i])
    {
      NumberOfWord(numbers[i]);
    }
  }

  lemma DataFits(words: seq<Word>)
    requires AllSymbols(words)
    ensures AllFit(words) && AllFit(HRP)
  {
    forall i | 0 <= i < |words|
      ensures Fits(words[i])
    {
      SymbolFits(words[i]);
    }
  }

  lemma NumbersOfWords(words: seq<Word>, numbers: seq<int>)
    requires AllSymbols(words) && |numbers| == |words|
    requires forall i :: 0 <= i < |words| ==> numbers[i] == ToNumber(words[i])
    ensures Within(numbers, 32) && ToWords(numbers) == words
  {
    forall i | 0 <= i < |words|
      ensures 0 <= numbers[i] < 32 && ToWords(numbers)[i] == words[i]
    {
      WordOfNumber(words[i]);
    }
  }

  // What the strings identify.

  lemma WordsIdentify(a: seq<int>, b: seq<int>)
    requires Within(a, 32) && Within(b, 32) && ToWords(a) == ToWords(b)
    ensures a == b
  {
    assert |a| == |ToWords(a)| == |ToWords(b)| == |b|;
    forall i | 0 <= i < |a|
      ensures a[i] == b[i]
    {
      NumberOfWord(a[i]);
      NumberOfWord(b[i]);
      assert ToWords(a)[i] == ToWords(b)[i];
    }
  }

  lemma ValuesIdentify(s: string, t: string)
    requires Within(Values(s), 32) && Within(Values(t), 32) && Values(s) == Values(t)
    ensures s == t
  {
    assert |s| == |Values(s)| == |Values(t)| == |t|;
    forall i | 0 <= i < |s|
      ensures s[i] == t[i]
    {
      assert Values(s)[i] == Values(t)[i];
      CharsetOfValue(s[i]);
      CharsetOfValue(t[i]);
    }
  }

  /** Two verifying strings cannot differ in six neighbouring characters only. */
  lemma NearbyStringsDoNotBothVerify(s: string, t: string, from: nat)
    requires Within(Values(s), 32) && Within(Values(t), 32) && |s| == |t|
    requires forall i :: 0 <= i < |s| && s[i] != t[i] ==> from <= i < from + 6
    requires Verifies(HRP, ToWords(Values(s))) && Verifies(HRP, ToWords(Values(t)))
    ensures s == t
  {
    var a, b := ToWords(Values(s)), ToWords(Values(t));
    WordsAreSymbols(Values(s));
    WordsAreSymbols(Values(t));
    if a != b {
      assert forall i :: 0 <= i < |a| && a[i] != b[i] ==> s[i] != t[i];
      PolymodConcat(ONE, HrpExpand(HRP), a);
      PolymodConcat(ONE, HrpExpand(HRP), b);
      BurstChangesPolymod(PolymodFrom(ONE, HrpExpand(HRP)), a, b, from);
      assert false;
    }
    WordsIdentify(Values(s), Values(t));
    ValuesIdentify(s, t);
  }

  /** A misread within six neighbouring characters turns an `npub` into no `npub` at all. */
  lemma TypoIsDetected(npub: string, bytes: seq<int>, typo: string, bytes': seq<int>, from: nat)
    requires Denotes(npub, bytes) && Denotes(typo, bytes')
    requires forall i :: 0 <= i < 63 && npub[i] != typo[i] ==> from <= i < from + 6
    ensures npub == typo
  {
    var s, t := npub[5..], typo[5..];
    assert npub == npub[..5] + s && typo == typo[..5] + t;
    assert forall i :: 0 <= i < 58 ==> s[i] == npub[i + 5] && t[i] == typo[i + 5];
    if from < 5 {
      NearbyStringsDoNotBothVerify(s, t, 0);
    } else {
      NearbyStringsDoNotBothVerify(s, t, from - 5);
    }
  }

  /** One string for every key, and one key for every string. */
  lemma DenotationIsOneToOne(npub: string, bytes: seq<int>, npub': string, bytes': seq<int>)
    requires Denotes(npub, bytes) && Denotes(npub', bytes')
    requires Within(bytes, 256) && Within(bytes', 256)
    ensures npub == npub' <==> bytes == bytes'
  {
    hide Verifies, Regroups, ToWords;
    var v, v' := Values(npub[5..57]), Values(npub'[5..57]);
    RegroupingIsInjective(v, bytes, v', bytes');
    if bytes == bytes' {
      assert npub[5..57] == npub[5..][..52] && npub'[5..57] == npub'[5..][..52];
      assert Values(npub[5..])[..52] == v && Values(npub'[5..])[..52] == v';
      ValuesIdentify(npub[5..57], npub'[5..57]);
      assert forall i :: 5 <= i < 57 ==> npub[i] == npub[5..57][i - 5] && npub'[i] == npub'[5..57][i - 5];
      TypoIsDetected(npub, bytes, npub', bytes', 57);
    }
  }

  /** A digit in either case, and its number. */
  predicate IsDigitOf(c: char, n: nat) {
    n < 16 && (c == "0123456789abcdef"[n] || c == "0123456789ABCDEF"[n])
  }

  lemma DigitIsRead(c: char, n: nat)
    requires IsDigitOf(c, n)
    ensures IsHexDigit(LowerChar(c)) && HexValue(LowerChar(c)) == n
  {}

  lemma DigitOfHex(c: char) returns (n: nat)
    requires IsHexDigit(LowerChar(c))
    ensures IsDigitOf(c, n)
  {
    n := HexValue(LowerChar(c));
  }

  /** What is read as a key: 64 hex digits in either case, with or without white space around. */
  predicate SpellsKey(text: string, before: string, digits: seq<nat>, after: string) {
    && |digits| == 64 && |text| == |before| + 64 + |after|
    && text[..|before|] == before && text[|before| + 64..] == after
    && AllSpace(IsSpace, before) && AllSpace(IsSpace, after)
    && forall i :: 0 <= i < 64 ==> IsDigitOf(text[|before| + i], digits[i])
  }

  /** Byte `i` of a key is spelt by its digits `2 * i` and `2 * i + 1`, the high one first. */
  lemma SpeltKeyIsRead(text: string, before: string, digits: seq<nat>, after: string)
    requires SpellsKey(text, before, digits, after)
    ensures IsKey(Normalised(text))
    ensures forall i :: 0 <= i < 32 ==> KeyBytes(Normalised(text))[i] == 16 * digits[2 * i] + digits[2 * i + 1]
  {
    var key := text[|before|..|before| + 64];
    assert text == before + key + after;
    forall i | 0 <= i < 64
      ensures !IsSpace(key[i]) && IsHexDigit(LowerChar(key[i])) && HexValue(LowerChar(key[i])) == digits[i]
    {
      assert key[i] == text[|before| + i];
      DigitIsRead(key[i], digits[i]);
    }
    hide IsSpace, LowerChar, IsDigitOf, HexValue;
    TrimLeavesCore(IsSpace, before, key, after);
    assert Normalised(text) == AsciiLower(key);
  }

  lemma ReadKeyIsSpelt(text: string) returns (before: string, digits: seq<nat>, after: string)
    requires IsKey(Normalised(text))
    ensures SpellsKey(text, before, digits, after)
  {
    before, after := TrimTakesBothEnds(IsSpace, text);
    var key := Trim(IsSpace, text);
    assert |key| == 64;
    digits := [];
    for i := 0 to 64
      invariant |digits| == i && forall j :: 0 <= j < i ==> IsDigitOf(key[j], digits[j])
    {
      assert IsHexDigit(Normalised(text)[i]);
      var n := DigitOfHex(key[i]);
      digits := digits + [n];
    }
    assert forall i :: 0 <= i < 64 ==> text[|before| + i] == key[i];
  }

  lemma PairsIdentify(a: char, b: char, c: char, d: char)
    requires IsHexDigit(a) && IsHexDigit(b) && IsHexDigit(c) && IsHexDigit(d)
    requires PairValue(a, b) == PairValue(c, d)
    ensures a == c && b == d
  {}

  /** Two normalised keys have the same bytes only when they are the same key. */
  lemma KeyBytesIdentify(key: string, key': string)
    requires IsKey(key) && IsKey(key') && KeyBytes(key) == KeyBytes(key')
    ensures key == key'
  {
    forall i | 0 <= i < 64
      ensures key[i] == key'[i]
    {
      var j := i / 2;
      assert KeyBytes(key)[j] == KeyBytes(key')[j];
      PairsIdentify(key[2 * j], key[2 * j + 1], key'[2 * j], key'[2 * j + 1]);
    }
  }

  /** The string shown for a key identifies the key. */
  lemma NpubIdentifiesKey(key: string, npub: string, key': string, npub': string)
    requires IsKey(key) && IsKey(key')
    requires Denotes(npub, KeyBytes(key)) && Denotes(npub', KeyBytes(key'))
    ensures npub == npub' <==> key == key'
  {
    DenotationIsOneToOne(npub, KeyBytes(key), npub', KeyBytes(key'));
    if KeyBytes(key) == KeyBytes(key') {
      KeyBytesIdentify(key, key');
    }
  }
}
