/**
 Regrouping bytes into 5-bit symbols (`convertBitsTo5` of `admin-web/src/npub.ts`). JavaScript's
 bit operators are written out on integers; the accumulator is never masked and does wrap.
 */
module BitRegroup {
  /** The signed 32-bit value with the same low 32 bits. */
  function ToInt32(x: int): int {
    (x + 0x8000_0000) % 0x1_0000_0000 - 0x8000_0000
  }

  /** `x << k` before it is cut to 32 bits. */
  function Doubled(x: int, k: nat): int {
    if k == 0 then x else 2 * Doubled(x, k - 1)
  }

  function ShiftLeft(x: int, k: nat): int { ToInt32(Doubled(x, k)) }

  /** `x >> k`, which keeps the sign: halving `k` times, rounding down. */
  function ShiftRight(x: int, k: nat): int
    decreases k
  {
    if k == 0 then x else ShiftRight(x / 2, k - 1)
  }

  /** The `k` low bits of a number, most significant first. */
  function Bits(v: int, k: nat): (s: seq<bool>)
    ensures |s| == k
    decreases k
  {
    if k == 0 then [] else Bits(v / 2, k - 1) + [v % 2 == 1]
  }

  function PowerOf2(n: nat): (p: nat)
    ensures p > 0
  {
    if n == 0 then 1 else 2 * PowerOf2(n - 1)
  }

  /** The number that a bit string is the binary notation of. */
  function NumberOf(bits: seq<bool>): nat {
    if bits == [] then 0
    else 2 * NumberOf(bits[..|bits| - 1]) + if bits[|bits| - 1] then 1 else 0
  }

  lemma {:induction false} BitsAreBinary(v: nat, k: nat)
    requires v < PowerOf2(k)
    ensures NumberOf(Bits(v, k)) == v
    decreases k
  {
    if k > 0 {
      BitsAreBinary(v / 2, k - 1);
      assert Bits(v, k)[..k - 1] == Bits(v / 2, k - 1);
    }
  }

  function Zeros(n: nat): (s: seq<bool>)
    ensures |s| == n
  {
    seq(n, _ => false)
  }

  /** The bit string of a sequence of `width`-bit numbers. */
  function BitString(numbers: seq<int>, width: nat): seq<bool> {
    if numbers == [] then []
    else BitString(numbers[..|numbers| - 1], width) + Bits(numbers[|numbers| - 1], width)
  }

  predicate Within(numbers: seq<int>, bound: int) {
    forall i :: 0 <= i < |numbers| ==> 0 <= numbers[i] < bound
  }

  /** `words` spells the bits of `bytes` in groups of five, zeros filling up the last group. */
  predicate Regroups(words: seq<int>, bytes: seq<int>) {
    && Within(words, 32)
    && |words| == (8 * |bytes| + 4) / 5
    && BitString(words, 5) == BitString(bytes, 8) + Zeros(5 * |words| - 8 * |bytes|)
  }

  // Bits under the operators.

  lemma {:induction false} BitsSplit(v: int, a: nat, b: nat)
    ensures Bits(v, a + b) == Bits(ShiftRight(v, b), a) + Bits(v, b)
    decreases b
  {
    if b == 0 {
      assert Bits(v, 0) == [];
    } else {
      BitsSplit(v / 2, a, b - 1);
    }
  }

  lemma {:induction false} BitsOfDoubled(v: int, a: nat, j: nat)
    ensures Bits(Doubled(v, j), a + j) == Bits(v, a) + Zeros(j)
    decreases j
  {
    if j > 0 {
      BitsOfDoubled(v, a, j - 1);
      assert Zeros(j) == Zeros(j - 1) + [false];
    }
  }

  /** Adding a multiple of 2^j leaves the j low bits alone. */
  lemma {:induction false} BitsIgnoreHigh(v: int, e: int, j: nat, k: nat)
    requires k <= j
    ensures Bits(v + Doubled(e, j), k) == Bits(v, k)
    decreases k
  {
    if k > 0 {
      BitsIgnoreHigh(v / 2, e, j - 1, k - 1);
    }
  }

  lemma DoubledByConstants(x: int)
    ensures Doubled(x, 5) == 32 * x && Doubled(x, 8) == 256 * x && Doubled(x, 12) == 4096 * x
  {
    assert Doubled(x, 1) == 2 * x && Doubled(x, 2) == 4 * x && Doubled(x, 3) == 8 * x;
    assert Doubled(x, 4) == 16 * x && Doubled(x, 6) == 64 * x && Doubled(x, 7) == 128 * x;
    assert Doubled(x, 9) == 512 * x && Doubled(x, 10) == 1024 * x && Doubled(x, 11) == 2048 * x;
  }

  lemma ShiftRightByConstants(x: int)
    ensures ShiftRight(x, 5) == x / 32 && ShiftRight(x, 8) == x / 256
  {
    assert ShiftRight(x / 128, 1) == x / 256 && ShiftRight(x / 16, 1) == x / 32;
    assert ShiftRight(x / 64, 2) == x / 256 && ShiftRight(x / 8, 2) == x / 32;
    assert ShiftRight(x / 32, 3) == x / 256 && ShiftRight(x / 4, 3) == x / 32;
    assert ShiftRight(x / 16, 4) == x / 256 && ShiftRight(x / 2, 4) == x / 32;
    assert ShiftRight(x / 8, 5) == x / 256;
    assert ShiftRight(x / 4, 6) == x / 256;
    assert ShiftRight(x / 2, 7) == x / 256;
  }

  lemma BitsOfInt32(x: int, k: nat)
    requires k <= 12
    ensures Bits(ToInt32(x), k) == Bits(x, k)
  {
    var e := (x + 0x8000_0000) / 0x1_0000_0000;
    DoubledByConstants(0x10_0000 * e);
    BitsIgnoreHigh(ToInt32(x), 0x10_0000 * e, 12, k);
  }

  lemma BitsOfLow(v: int)
    ensures Bits(v % 32, 5) == Bits(v, 5)
  {
    DoubledByConstants(v / 32);
    BitsIgnoreHigh(v % 32, v / 32, 5, 5);
  }

  /** `(acc << 8) | b`: the shifted accumulator has no bit below bit eight, so `|` is `+`. */
  function Push(acc: int, b: int): int { ShiftLeft(acc, 8) + b }

  lemma PushWraps(acc: int, b: int) returns (e: int)
    ensures ShiftLeft(acc, 8) % 256 == 0
    ensures Push(acc, b) == 256 * acc + b + Doubled(e, 12)
  {
    DoubledByConstants(acc);
    e := -0x10_0000 * ((256 * acc + 0x8000_0000) / 0x1_0000_0000);
    DoubledByConstants(e);
  }

  lemma ByteBelow(acc: int, b: int)
    requires 0 <= b < 256
    ensures ShiftRight(256 * acc + b, 8) == acc
    ensures Bits(256 * acc + b, 8) == Bits(b, 8)
  {
    hide Bits, ShiftRight, Doubled;
    ShiftRightByConstants(256 * acc + b);
    DoubledByConstants(acc);
    BitsIgnoreHigh(b, acc, 8, 8);
  }

  lemma PushAppendsByte(acc: int, b: int, n: nat)
    requires n <= 4 && 0 <= b < 256
    ensures ShiftLeft(acc, 8) % 256 == 0
    ensures Bits(Push(acc, b), n + 8) == Bits(acc, n) + Bits(b, 8)
  {
    hide Bits, Push, Doubled, ShiftRight, ShiftLeft;
    var e := PushWraps(acc, b);
    BitsIgnoreHigh(256 * acc + b, e, 12, n + 8);
    BitsSplit(256 * acc + b, n, 8);
    ByteBelow(acc, b);
  }

  lemma TakeRemovesSymbol(acc: int, n: nat)
    ensures Bits(acc, 5 + n) == Bits(ShiftRight(acc, n) % 32, 5) + Bits(acc, n)
  {
    BitsSplit(acc, 5, n);
    BitsOfLow(ShiftRight(acc, n));
  }

  lemma PadFillsUp(acc: int, n: nat)
    requires 1 <= n <= 4
    ensures Bits(ShiftLeft(acc, 5 - n) % 32, 5) == Bits(acc, n) + Zeros(5 - n)
  {
    BitsOfDoubled(acc, n, 5 - n);
    BitsOfInt32(Doubled(acc, 5 - n), 5);
    BitsOfLow(ShiftLeft(acc, 5 - n));
  }

  lemma BitStringAppend(numbers: seq<int>, x: int, width: nat)
    ensures BitString(numbers + [x], width) == BitString(numbers, width) + Bits(x, width)
  {
    assert (numbers + [x])[..|numbers|] == numbers;
  }

  lemma NoNumbersNoBits()
    ensures BitString([], 5) + Bits(0, 0) == BitString([], 8)
    ensures forall v, s: seq<bool> :: s + Bits(v, 0) == s + Zeros(0)
  {
  }

  method ConvertBitsTo5(data: seq<int>) returns (words: seq<int>)
    requires Within(data, 256)
    ensures Regroups(words, data)
  {
    hide Bits, BitString, Push, ShiftRight, ShiftLeft, ToInt32, Zeros;
    NoNumbersNoBits();
    var accumulator, bits: nat := 0, 0;
    words := [];
    for k := 0 to |data|
      invariant bits <= 4 && 5 * |words| + bits == 8 * k
      invariant Within(words, 32)
      invariant BitString(words, 5) + Bits(accumulator, bits) == BitString(data[..k], 8)
    {
      ghost var written := BitString(data[..k + 1], 8);
      assert written == BitString(words, 5) + Bits(Push(accumulator, data[k]), bits + 8) by {
        assert data[..k + 1] == data[..k] + [data[k]];
        BitStringAppend(data[..k], data[k], 8);
        PushAppendsByte(accumulator, data[k], bits);
      }
      accumulator := Push(accumulator, data[k]);
      bits := bits + 8;
      while bits >= 5
        invariant bits <= 12 && 5 * |words| + bits == 8 * (k + 1)
        invariant Within(words, 32)
        invariant BitString(words, 5) + Bits(accumulator, bits) == written
      {
        bits := bits - 5;
        var word := ShiftRight(accumulator, bits) % 32;
        assert BitString(words + [word], 5) + Bits(accumulator, bits) == written by {
          TakeRemovesSymbol(accumulator, bits);
          BitStringAppend(words, word, 5);
        }
        words := words + [word];
      }
    }
    assert data[..|data|] == data;
    if bits > 0 {
      var word := ShiftLeft(accumulator, 5 - bits) % 32;
      PadFillsUp(accumulator, bits);
      BitStringAppend(words, word, 5);
      words := words + [word];
    }
  }

  // A regrouping is unique and can be undone.

  lemma BitsIdentify(v: int, w: int, k: nat, bound: int)
    requires 0 <= v < bound && 0 <= w < bound
    requires IsWidth(k, bound)
    requires Bits(v, k) == Bits(w, k)
    ensures v == w
  {
    hide Bits, ShiftRight;
    BitsDetermine(v, w, k);
    ShiftRightByConstants(v);
    ShiftRightByConstants(w);
  }

  lemma {:induction false} BitsDetermine(v: int, w: int, k: nat)
    requires Bits(v, k) == Bits(w, k)
    ensures ShiftRight(v, k) == ShiftRight(w, k) ==> v == w
    decreases k
  {
    if k > 0 {
      var s, t := Bits(v, k), Bits(w, k);
      assert s[..k - 1] == Bits(v / 2, k - 1) && t[..k - 1] == Bits(w / 2, k - 1);
      assert s[k - 1] == (v % 2 == 1) && t[k - 1] == (w % 2 == 1);
      BitsDetermine(v / 2, w / 2, k - 1);
    }
  }

  predicate IsWidth(k: nat, bound: int) {
    (k == 5 && bound == 32) || (k == 8 && bound == 256)
  }

  lemma {:induction false} BitStringsIdentify(a: seq<int>, b: seq<int>, k: nat, bound: int)
    requires IsWidth(k, bound) && Within(a, bound) && Within(b, bound) && |a| == |b|
    requires BitString(a, k) == BitString(b, k)
    ensures a == b
    decreases |a|
  {
    hide Bits, IsWidth, BitString;
    if a != [] {
      var n := |a| - 1;
      var a', b', x, y := a[..n], b[..n], a[n], b[n];
      assert a == a' + [x] && b == b' + [y];
      BitStringAppend(a', x, k);
      BitStringAppend(b', y, k);
      SplitEqual(BitString(a', k), Bits(x, k), BitString(b', k), Bits(y, k));
      BitStringsIdentify(a', b', k, bound);
      BitsIdentify(x, y, k, bound);
    }
  }

  lemma SplitEqual(s: seq<bool>, x: seq<bool>, t: seq<bool>, y: seq<bool>)
    requires s + x == t + y && |x| == |y|
    ensures s == t && x == y
  {
    assert (s + x)[..|s|] == s && (t + y)[..|t|] == t;
    assert (s + x)[|s|..] == x && (t + y)[|t|..] == y;
  }

  /** No two lengths regroup to the same number of words. */
  lemma LengthsIdentify(n: nat, m: nat)
    requires (8 * n + 4) / 5 == (8 * m + 4) / 5
    ensures n == m
  {}

  /** The bytes decide the words, and the words decide the bytes, however many there are. */
  lemma RegroupingIsInjective(words: seq<int>, bytes: seq<int>, words': seq<int>, bytes': seq<int>)
    requires Within(bytes, 256) && Within(bytes', 256)
    requires Regroups(words, bytes) && Regroups(words', bytes')
    ensures words == words' <==> bytes == bytes'
  {
    if words == words' {
      LengthsIdentify(|bytes|, |bytes'|);
      SplitEqual(BitString(bytes, 8), Zeros(5 * |words| - 8 * |bytes|),
                 BitString(bytes', 8), Zeros(5 * |words| - 8 * |bytes|));
      BitStringsIdentify(bytes, bytes', 8, 256);
    }
    if bytes == bytes' {
      BitStringsIdentify(words, words', 5, 32);
    }
  }
}
