/**
 One step of the bech32 checksum of `admin-web/src/npub.ts`, on 32-bit words as JavaScript's bit operators see
 them. Only bits 0 to 29 of a running checksum are ever looked at, so the signed shifts of the source
 and the unsigned shifts used here read the same bits.
 */
module Gf2Step {
  type Bits = bv32

  const GENERATOR: seq<Bits> := [0x3b6a57b2, 0x26508e6d, 0x1ea119fa, 0x3d4233dd, 0x2a1462b3]

  /** Addition over GF(2). */
  function Xor(a: Bits, b: Bits): Bits { a ^ b }

  /** Bit `i` of the five bits shifted out: `((top >> i) & 1) === 1`. */
  predicate Bit(top: Bits, i: nat) {
    match i
    case 0 => top & 1 == 1
    case 1 => (top >> 1) & 1 == 1
    case 2 => (top >> 2) & 1 == 1
    case 3 => (top >> 3) & 1 == 1
    case _ => (top >> 4) & 1 == 1
  }

  function Pick(chosen: bool, generator: Bits): Bits {
    if chosen then generator else 0
  }

  /** What the `n` lowest of the five bits shifted out feed back into the checksum. */
  function Feedback(top: Bits, n: nat): Bits
    requires n <= 5
  {
    if n == 0 then 0 else Xor(Feedback(top, n - 1), Pick(Bit(top, n - 1), GENERATOR[n - 1]))
  }

  function Step(checksum: Bits, value: Bits): Bits {
    Xor(Xor((checksum & 0x1ffffff) << 5, value), Feedback(checksum >> 25, 5))
  }

  /** The inner loop of the polymod: one generator for every bit shifted out. */
  method ComputeStep(checksum: Bits, value: Bits) returns (next: Bits)
    ensures next == Step(checksum, value)
  {
    var top := checksum >> 25;
    var shifted := Xor((checksum & 0x1ffffff) << 5, value);
    next := shifted;
    XorZero(shifted);
    for i := 0 to 5
      invariant next == Xor(shifted, Feedback(top, i))
    {
      if Bit(top, i) {
        XorAssociates(shifted, Feedback(top, i), GENERATOR[i]);
        next := Xor(next, GENERATOR[i]);
      } else {
        XorZero(Feedback(top, i));
      }
    }
  }

  // Linearity of one step. Each lemma stays within a few bit-vector terms.

  lemma XorAssociates(a: Bits, b: Bits, c: Bits)
    ensures Xor(Xor(a, b), c) == Xor(a, Xor(b, c))
  {}

  lemma XorZero(a: Bits)
    ensures Xor(a, 0) == a && Xor(0, a) == a && Xor(a, a) == 0
  {}

  lemma XorCancels(a: Bits, b: Bits)
    ensures Xor(a, b) == 0 ==> a == b
  {}

  lemma XorCommutes(a: Bits, b: Bits)
    ensures Xor(a, b) == Xor(b, a)
  {}

  lemma XorRegroups(a: Bits, b: Bits, c: Bits, d: Bits)
    ensures Xor(Xor(a, b), Xor(c, d)) == Xor(Xor(a, c), Xor(b, d))
  {
    XorAssociates(Xor(a, b), c, d);
    XorAssociates(a, b, c);
    XorCommutes(b, c);
    XorAssociates(a, c, b);
    XorAssociates(Xor(a, c), b, d);
  }

  lemma ShiftsAreLinear(c: Bits, d: Bits)
    ensures (Xor(c, d) & 0x1ffffff) << 5 == Xor((c & 0x1ffffff) << 5, (d & 0x1ffffff) << 5)
    ensures Xor(c, d) >> 25 == Xor(c >> 25, d >> 25)
  {}

  lemma BitIsLinear(a: Bits, b: Bits, i: nat)
    ensures Bit(Xor(a, b), i) == (Bit(a, i) != Bit(b, i))
  {}

  lemma PickIsLinear(p: bool, q: bool, g: Bits)
    ensures Pick(p != q, g) == Xor(Pick(p, g), Pick(q, g))
  {
    if p && q { assert g ^ g == 0; }
    else if p { assert g ^ 0 == g; }
    else if q { assert 0 ^ g == g; }
    else { }
  }

  function Five(a: Bits, b: Bits, c: Bits, d: Bits, e: Bits): Bits {
    Xor(Xor(Xor(Xor(a, b), c), d), e)
  }

  function Picked(top: Bits, i: nat): Bits
    requires i < 5
  {
    Pick(Bit(top, i), GENERATOR[i])
  }

  lemma FeedbackUnfolds(top: Bits)
    ensures Feedback(top, 5) ==
      Five(Picked(top, 0), Picked(top, 1), Picked(top, 2), Picked(top, 3), Picked(top, 4))
  {
    assert Feedback(top, 1) == Picked(top, 0);
    assert Feedback(top, 2) == Xor(Feedback(top, 1), Picked(top, 1));
    assert Feedback(top, 3) == Xor(Feedback(top, 2), Picked(top, 2));
    assert Feedback(top, 4) == Xor(Feedback(top, 3), Picked(top, 3));
  }

  lemma FiveIsLinear(
    a: Bits, b: Bits, c: Bits, d: Bits, e: Bits, a': Bits, b': Bits, c': Bits, d': Bits, e': Bits)
    ensures Five(Xor(a, a'), Xor(b, b'), Xor(c, c'), Xor(d, d'), Xor(e, e')) ==
      Xor(Five(a, b, c, d, e), Five(a', b', c', d', e'))
  {
    XorRegroups(a, a', b, b');
    XorRegroups(Xor(a, b), Xor(a', b'), c, c');
    XorRegroups(Xor(Xor(a, b), c), Xor(Xor(a', b'), c'), d, d');
    XorRegroups(Xor(Xor(Xor(a, b), c), d), Xor(Xor(Xor(a', b'), c'), d'), e, e');
  }

  lemma PickedIsLinear(s: Bits, t: Bits, i: nat)
    requires i < 5
    ensures Picked(Xor(s, t), i) == Xor(Picked(s, i), Picked(t, i))
  {
    BitIsLinear(s, t, i);
    PickIsLinear(Bit(s, i), Bit(t, i), GENERATOR[i]);
  }

  lemma FeedbackIsLinear(s: Bits, t: Bits)
    ensures Feedback(Xor(s, t), 5) == Xor(Feedback(s, 5), Feedback(t, 5))
  {
    FeedbackUnfolds(s);
    FeedbackUnfolds(t);
    FeedbackUnfolds(Xor(s, t));
    PickedIsLinear(s, t, 0);
    PickedIsLinear(s, t, 1);
    PickedIsLinear(s, t, 2);
    PickedIsLinear(s, t, 3);
    PickedIsLinear(s, t, 4);
    FiveIsLinear(Picked(s, 0), Picked(s, 1), Picked(s, 2), Picked(s, 3), Picked(s, 4),
                 Picked(t, 0), Picked(t, 1), Picked(t, 2), Picked(t, 3), Picked(t, 4));
  }

  /** A step is linear over GF(2) in the checksum and the value together. */
  lemma StepIsLinear(c: Bits, d: Bits, v: Bits, w: Bits)
    ensures Step(Xor(c, d), Xor(v, w)) == Xor(Step(c, v), Step(d, w))
  {
    FeedbackIsLinear(c >> 25, d >> 25);
    ShiftsAreLinear(c, d);
    var x, y := (c & 0x1ffffff) << 5, (d & 0x1ffffff) << 5;
    XorRegroups(x, y, v, w);
    XorRegroups(Xor(x, v), Xor(y, w), Feedback(c >> 25, 5), Feedback(d >> 25, 5));
  }

  // Range and injectivity of one step.

  lemma StepStaysInRange(c: Bits, v: Bits)
    requires v < 0x40000000
    ensures Step(c, v) < 0x40000000
  {
    FeedbackUnfolds(c >> 25);
  }

  /** The low five bits of the generators are independent: no checksum is lost in a step. */
  lemma StepIsInjective(c: Bits)
    requires c < 0x40000000 && c != 0
    ensures 0 != Step(c, 0) < 0x40000000
  {
    FeedbackUnfolds(c >> 25);
  }

  /** While the top five bits are clear a step only shifts the value in. */
  lemma StepShiftsIn(c: Bits, v: Bits)
    requires c < 0x2000000 && v < 32
    ensures Step(c, v) == (c << 5) | v
  {
    assert c >> 25 == 0;
    NothingIsFedBack();
    hide Feedback;
  }

  lemma NothingIsFedBack()
    ensures Feedback(0, 5) == 0
  {
    FeedbackUnfolds(0);
    hide Feedback;
  }

  /** How large a checksum may be for `k` more symbols to be shifted in without feedback. */
  function Room(k: nat): Bits {
    match k
    case 0 => 0x40000000 case 1 => 0x2000000 case 2 => 0x100000
    case 3 => 0x8000 case 4 => 0x400 case 5 => 0x20 case _ => 1
  }

  lemma ShiftKeepsRoom(c: Bits, v: Bits, k: nat)
    requires 1 <= k <= 6 && c < Room(k) && v < 32
    ensures (c << 5) | v < Room(k - 1) && c < 0x2000000
    ensures (c << 5) | v == 0 <==> c == 0 && v == 0
  {}

  lemma StepKeepsRoom(c: Bits, v: Bits, k: nat)
    requires 1 <= k <= 6 && c < Room(k) && v < 32
    ensures Step(c, v) < Room(k - 1)
    ensures Step(c, v) == 0 <==> c == 0 && v == 0
  {
    hide Step, Room;
    ShiftKeepsRoom(c, v, k);
    StepShiftsIn(c, v);
  }

  function HighBits(x: Bits): Bits { x >> 5 }

  function LowBits(x: Bits): Bits { x & 31 }

  lemma SplitOffSymbol(x: Bits, n: nat)
    requires 0 < n <= 6 && x < Room(6 - n)
    ensures (HighBits(x) << 5) | LowBits(x) == x
    ensures LowBits(x) < 32 && HighBits(x) < Room(7 - n) && HighBits(x) < 0x2000000
  {}

  lemma StepTakesLowBack(x: Bits, n: nat)
    requires 0 < n <= 6 && x < Room(6 - n)
    ensures HighBits(x) < Room(7 - n)
    ensures Step(HighBits(x), LowBits(x)) == x
  {
    hide Step, Room, HighBits, LowBits;
    SplitOffSymbol(x, n);
    StepShiftsIn(HighBits(x), LowBits(x));
  }

  // The code behind the generators (the Checksum part of BIP 173).

  /** Twice a symbol in the field of 32 elements, where x^5 is x^3 + 1. */
  function Twice(a: Bits): Bits { Xor((a & 15) << 1, if a & 16 != 0 then 9 else 0) }

  /** Six symbols side by side, the first on top. */
  function Packed(a: Bits, b: Bits, c: Bits, d: Bits, e: Bits, f: Bits): Bits {
    Xor(Xor(Xor(a << 25, b << 20), Xor(c << 15, d << 10)), Xor(e << 5, f))
  }

  /** Twice `x`, `n` times over. */
  function Doubled(n: nat, x: Bits): Bits { if n == 0 then x else Twice(Doubled(n - 1, x)) }

  /** The six coefficients, doubled `n` times: the generators are these, for `n` from 0 to 4. */
  function Coefficients(n: nat): Bits {
    Packed(Doubled(n, 29), Doubled(n, 22), Doubled(n, 20), Doubled(n, 21), Doubled(n, 29), Doubled(n, 18))
  }

  /** The sum of the doublings of `x` that the `n` lowest bits of `a` choose. */
  function PartialProduct(a: Bits, n: nat, x: Bits): Bits
    requires n <= 5
  {
    if n == 0 then 0 else Xor(PartialProduct(a, n - 1, x), Pick(Bit(a, n - 1), Doubled(n - 1, x)))
  }

  /** The product of two symbols in the field. */
  function Product(a: Bits, x: Bits): Bits { PartialProduct(a, 5, x) }

  lemma DoubledSymbols()
    ensures Doubled(1, 29) == 19 && Doubled(2, 29) == 15 && Doubled(3, 29) == 30 && Doubled(4, 29) == 21
    ensures Doubled(1, 22) == 5 && Doubled(2, 22) == 10 && Doubled(3, 22) == 20 && Doubled(4, 22) == 1
    ensures Doubled(1, 20) == 1 && Doubled(2, 20) == 2 && Doubled(3, 20) == 4 && Doubled(4, 20) == 8
    ensures Doubled(1, 21) == 3 && Doubled(2, 21) == 6 && Doubled(3, 21) == 12 && Doubled(4, 21) == 24
    ensures Doubled(1, 18) == 13 && Doubled(2, 18) == 26 && Doubled(3, 18) == 29 && Doubled(4, 18) == 19
  {
    assert Twice(29) == 19 && Twice(19) == 15 && Twice(15) == 30 && Twice(30) == 21;
    assert Twice(22) == 5 && Twice(5) == 10 && Twice(10) == 20 && Twice(20) == 1;
    assert Twice(20) == 1 && Twice(1) == 2 && Twice(2) == 4 && Twice(4) == 8;
    assert Twice(21) == 3 && Twice(3) == 6 && Twice(6) == 12 && Twice(12) == 24;
    assert Twice(18) == 13 && Twice(13) == 26 && Twice(26) == 29 && Twice(29) == 19;
    hide Twice;
  }

  lemma PackedSymbols()
    ensures Packed(29, 22, 20, 21, 29, 18) == 0x3b6a57b2
    ensures Packed(19, 5, 1, 3, 19, 13) == 0x26508e6d
    ensures Packed(15, 10, 2, 6, 15, 26) == 0x1ea119fa
    ensures Packed(30, 20, 4, 12, 30, 29) == 0x3d4233dd
    ensures Packed(21, 1, 8, 24, 21, 19) == 0x2a1462b3
  {
  }

  lemma GeneratorIsPacked(n: nat)
    requires n < 5
    ensures GENERATOR[n] == Coefficients(n)
  {
    DoubledSymbols();
    PackedSymbols();
    hide Packed, Twice;
    assert n == 0 || n == 1 || n == 2 || n == 3 || n == 4;
  }

  lemma ShiftAdds25(x: Bits, y: Bits)
    requires x < 32 && y < 32
    ensures Xor(x, y) << 25 == Xor(x << 25, y << 25)
  {
  }

  lemma ShiftAdds20(x: Bits, y: Bits)
    requires x < 32 && y < 32
    ensures Xor(x, y) << 20 == Xor(x << 20, y << 20)
  {
  }

  lemma ShiftAdds15(x: Bits, y: Bits)
    requires x < 32 && y < 32
    ensures Xor(x, y) << 15 == Xor(x << 15, y << 15)
  {
  }

  lemma ShiftAdds10(x: Bits, y: Bits)
    requires x < 32 && y < 32
    ensures Xor(x, y) << 10 == Xor(x << 10, y << 10)
  {
  }

  lemma ShiftAdds5(x: Bits, y: Bits)
    requires x < 32 && y < 32
    ensures Xor(x, y) << 5 == Xor(x << 5, y << 5)
  {
  }

  lemma PackedAdds(
    a: Bits, b: Bits, c: Bits, d: Bits, e: Bits, f: Bits, a': Bits, b': Bits, c': Bits, d': Bits, e': Bits, f': Bits)
    requires a < 32 && b < 32 && c < 32 && d < 32 && e < 32 && a' < 32 && b' < 32 && c' < 32 && d' < 32 && e' < 32
    ensures Xor(Packed(a, b, c, d, e, f), Packed(a', b', c', d', e', f'))
      == Packed(Xor(a, a'), Xor(b, b'), Xor(c, c'), Xor(d, d'), Xor(e, e'), Xor(f, f'))
  {
    ShiftAdds25(a, a');
    ShiftAdds20(b, b');
    ShiftAdds15(c, c');
    ShiftAdds10(d, d');
    ShiftAdds5(e, e');
    hide Xor;
    var ab, ab', cd, cd' := Xor(a << 25, b << 20), Xor(a' << 25, b' << 20), Xor(c << 15, d << 10), Xor(c' << 15, d' << 10);
    XorRegroups(a << 25, b << 20, a' << 25, b' << 20);
    XorRegroups(c << 15, d << 10, c' << 15, d' << 10);
    XorRegroups(e << 5, f, e' << 5, f');
    XorRegroups(ab, cd, ab', cd');
    XorRegroups(Xor(ab, cd), Xor(e << 5, f), Xor(ab', cd'), Xor(e' << 5, f'));
  }

  lemma PackedPicks(chosen: bool, a: Bits, b: Bits, c: Bits, d: Bits, e: Bits, f: Bits)
    ensures Pick(chosen, Packed(a, b, c, d, e, f))
      == Packed(Pick(chosen, a), Pick(chosen, b), Pick(chosen, c), Pick(chosen, d), Pick(chosen, e), Pick(chosen, f))
    ensures Packed(0, 0, 0, 0, 0, 0) == 0
  {
  }

  lemma SumIsSymbol(x: Bits, y: Bits, chosen: bool)
    requires x < 32 && y < 32
    ensures Xor(x, y) < 32 && Pick(chosen, x) < 32 && Twice(x) < 32
  {
  }

  lemma {:induction false} ProductIsSymbol(a: Bits, n: nat, x: Bits)
    requires n <= 5 && x < 32
    ensures PartialProduct(a, n, x) < 32 && Doubled(n, x) < 32
  {
    hide Xor, Pick, Bit, Twice;
    if n > 0 {
      ProductIsSymbol(a, n - 1, x);
      var chosen, d := Bit(a, n - 1), Doubled(n - 1, x);
      SumIsSymbol(d, d, chosen);
      SumIsSymbol(PartialProduct(a, n - 1, x), Pick(chosen, d), chosen);
    }
  }

  lemma TermsAreSymbols(a: Bits, n: nat)
    requires n < 5
    ensures forall x: Bits :: x < 32 ==>
      PartialProduct(a, n, x) < 32 && Pick(Bit(a, n), Doubled(n, x)) < 32
  {
    forall x: Bits | x < 32
      ensures PartialProduct(a, n, x) < 32 && Pick(Bit(a, n), Doubled(n, x)) < 32
    {
      ProductIsSymbol(a, n, x);
      SumIsSymbol(Doubled(n, x), 0, Bit(a, n));
    }
  }

  lemma {:induction false} FeedbackIsMultiple(top: Bits, n: nat)
    requires n <= 5
    ensures Feedback(top, n) == Packed(
      PartialProduct(top, n, 29), PartialProduct(top, n, 22), PartialProduct(top, n, 20),
      PartialProduct(top, n, 21), PartialProduct(top, n, 29), PartialProduct(top, n, 18))
  {
    hide Xor, Pick, Bit, Packed, Doubled;
    if n == 0 {
      PackedPicks(false, 0, 0, 0, 0, 0, 0);
    } else {
      var m, chosen := n - 1, Bit(top, n - 1);
      FeedbackIsMultiple(top, m);
      GeneratorIsPacked(m);
      TermsAreSymbols(top, m);
      PackedPicks(chosen, Doubled(m, 29), Doubled(m, 22), Doubled(m, 20), Doubled(m, 21), Doubled(m, 29), Doubled(m, 18));
      PackedAdds(
        PartialProduct(top, m, 29), PartialProduct(top, m, 22), PartialProduct(top, m, 20),
        PartialProduct(top, m, 21), PartialProduct(top, m, 29), PartialProduct(top, m, 18),
        Pick(chosen, Doubled(m, 29)), Pick(chosen, Doubled(m, 22)), Pick(chosen, Doubled(m, 20)),
        Pick(chosen, Doubled(m, 21)), Pick(chosen, Doubled(m, 29)), Pick(chosen, Doubled(m, 18)));
    }
  }

  /**
   One step, over the field of 32 elements: the six symbols move up by one place, and the one that
   falls out takes off its multiple of the generator polynomial, whose coefficients below x^6 are
   29, 22, 20, 21, 29 and 18.
   */
  lemma StepDividesByGenerator(c: Bits, v: Bits)
    ensures var top := c >> 25;
      Step(c, v) == Xor(Xor((c & 0x1ffffff) << 5, v), Packed(
        Product(top, 29), Product(top, 22), Product(top, 20), Product(top, 21), Product(top, 29), Product(top, 18)))
  {
    hide PartialProduct, Packed, Feedback, Xor;
    FeedbackIsMultiple(c >> 25, 5);
  }

  /** The checksum of `a12uel5l`, the first valid string of BIP 173, step by step. */
  lemma KnownSteps()
    ensures Step(0x1, 3) == 0x23 && Step(0x23, 0) == 0x460 && Step(0x460, 1) == 0x8c01
    ensures Step(0x8c01, 10) == 0x11802a && Step(0x11802a, 28) == 0x230055c
    ensures Step(0x230055c, 25) == 0x3d6afc2b && Step(0x3d6afc2b, 31) == 0x2f84386
    ensures Step(0x2f84386, 20) == 0x24622766 && Step(0x24622766, 31) == 1
  {
    FeedbackUnfolds(0);
    FeedbackUnfolds(1);
    FeedbackUnfolds(0x1e);
    FeedbackUnfolds(0x12);
  }

}

/**
 The checksum over whole symbol sequences: it verifies for every prefix and every data, and an
 error within six neighbouring symbols never passes.
 */
module Bech32 {
  import Gf2Step

  /** A 32-bit word of the running checksum, or a symbol. */
  datatype Word = Word(bits: bv32)

  const ZERO := Word(0)
  const ONE := Word(1)

  function Add(a: Word, b: Word): Word { Word(Gf2Step.Xor(a.bits, b.bits)) }

  function Next(checksum: Word, value: Word): Word {
    Word(Gf2Step.Step(checksum.bits, value.bits))
  }

  predicate Fits(w: Word) { w.bits < 0x40000000 }

  predicate IsSymbol(w: Word) { w.bits < 32 }

  /** `k` more symbols can be shifted in before any bit feeds back. */
  predicate HasRoom(w: Word, k: nat) { w.bits < Gf2Step.Room(k) }

  function PolymodFrom(checksum: Word, values: seq<Word>): Word
    decreases |values|
  {
    if values == [] then checksum
    else PolymodFrom(Next(checksum, values[0]), values[1..])
  }

  function Polymod(values: seq<Word>): Word {
    PolymodFrom(ONE, values)
  }

  method ComputePolymod(values: seq<Word>) returns (checksum: Word)
    ensures checksum == Polymod(values)
  {
    checksum := ONE;
    for n := 0 to |values|
      invariant PolymodFrom(checksum, values[n..]) == Polymod(values)
    {
      assert values[n..][0] == values[n] && values[n..][1..] == values[n + 1..];
      var bits := Gf2Step.ComputeStep(checksum.bits, values[n].bits);
      checksum := Word(bits);
    }
  }

  // The step, seen from outside.

  lemma NextIsLinear(c: Word, d: Word, v: Word, w: Word)
    ensures Next(Add(c, d), Add(v, w)) == Add(Next(c, v), Next(d, w))
  {
    Gf2Step.StepIsLinear(c.bits, d.bits, v.bits, w.bits);
  }

  lemma AddLaws(a: Word, b: Word)
    ensures Add(ZERO, a) == a && Add(a, ZERO) == a && Add(a, a) == ZERO
    ensures Add(a, b) == ZERO ==> a == b
    ensures Add(a, Add(a, b)) == b
  {
    hide Gf2Step.Xor;
    Gf2Step.XorZero(a.bits);
    Gf2Step.XorCancels(a.bits, b.bits);
    Gf2Step.XorAssociates(a.bits, a.bits, b.bits);
    Gf2Step.XorZero(b.bits);
  }

  lemma NextFits(c: Word, v: Word)
    requires Fits(v)
    ensures Fits(Next(c, v))
  {
    Gf2Step.StepStaysInRange(c.bits, v.bits);
  }

  lemma NextLosesNothing(c: Word)
    requires Fits(c)
    ensures Fits(Next(c, ZERO))
    ensures Next(c, ZERO) == ZERO <==> c == ZERO
  {
    if c == ZERO {
      Gf2Step.StepShiftsIn(0, 0);
    } else {
      Gf2Step.StepIsInjective(c.bits);
    }
  }

  lemma NextShiftsIn(c: Word, v: Word, k: nat)
    requires 1 <= k <= 6 && HasRoom(c, k) && IsSymbol(v)
    ensures HasRoom(Next(c, v), k - 1)
    ensures Next(c, v) == ZERO <==> c == ZERO && v == ZERO
  {
    hide Gf2Step.Step, Gf2Step.Room;
    Gf2Step.StepKeepsRoom(c.bits, v.bits, k);
  }

  lemma SymbolFits(v: Word)
    requires IsSymbol(v)
    ensures Fits(v)
  {}

  lemma SumOfSymbols(x: Word, y: Word)
    requires IsSymbol(x) && IsSymbol(y)
    ensures IsSymbol(Add(x, y))
    ensures Add(x, y) == ZERO <==> x == y
  {}

  lemma EmptyHasRoom(k: nat)
    ensures HasRoom(ZERO, k)
  {}

  lemma NoMoreRoomFits(w: Word)
    ensures HasRoom(w, 0) <==> Fits(w)
  {}

  // Whole sequences.

  function AddAll(a: seq<Word>, b: seq<Word>): seq<Word>
    requires |a| == |b|
  {
    seq(|a|, i requires 0 <= i < |a| => Add(a[i], b[i]))
  }

  predicate AllFit(values: seq<Word>) {
    forall i :: 0 <= i < |values| ==> Fits(values[i])
  }

  predicate AllSymbols(values: seq<Word>) {
    forall i :: 0 <= i < |values| ==> IsSymbol(values[i])
  }

  predicate AllZero(values: seq<Word>) {
    forall i :: 0 <= i < |values| ==> values[i] == ZERO
  }

  lemma {:induction false} PolymodIsLinear(c: Word, d: Word, a: seq<Word>, b: seq<Word>)
    requires |a| == |b|
    ensures PolymodFrom(Add(c, d), AddAll(a, b)) == Add(PolymodFrom(c, a), PolymodFrom(d, b))
    decreases |a|
  {
    if a != [] {
      NextIsLinear(c, d, a[0], b[0]);
      assert AddAll(a, b)[1..] == AddAll(a[1..], b[1..]);
      PolymodIsLinear(Next(c, a[0]), Next(d, b[0]), a[1..], b[1..]);
    }
  }

  lemma {:induction false} PolymodConcat(c: Word, a: seq<Word>, b: seq<Word>)
    ensures PolymodFrom(c, a + b) == PolymodFrom(PolymodFrom(c, a), b)
    decreases |a|
  {
    if a == [] {
      assert a + b == b;
    } else {
      assert (a + b)[1..] == a[1..] + b;
      PolymodConcat(Next(c, a[0]), a[1..], b);
    }
  }

  lemma {:induction false} PolymodFits(c: Word, values: seq<Word>)
    requires Fits(c) && AllFit(values)
    ensures Fits(PolymodFrom(c, values))
    decreases |values|
  {
    if values != [] {
      NextFits(c, values[0]);
      PolymodFits(Next(c, values[0]), values[1..]);
    }
  }

  lemma {:induction false} ZerosLoseNothing(c: Word, zeros: seq<Word>)
    requires Fits(c) && AllZero(zeros)
    ensures PolymodFrom(c, zeros) == ZERO <==> c == ZERO
    decreases |zeros|
  {
    if zeros != [] {
      NextLosesNothing(c);
      ZerosLoseNothing(Next(c, ZERO), zeros[1..]);
    }
  }

  /** Up to six symbols shifted into a checksum with room for them cannot cancel out. */
  lemma {:induction false} WindowIsSeen(c: Word, window: seq<Word>)
    requires |window| <= 6 && HasRoom(c, |window|) && AllSymbols(window)
    ensures Fits(PolymodFrom(c, window))
    ensures PolymodFrom(c, window) == ZERO <==> c == ZERO && AllZero(window)
    decreases |window|
  {
    if window == [] {
      NoMoreRoomFits(c);
    } else {
      NextShiftsIn(c, window[0], |window|);
      WindowIsSeen(Next(c, window[0]), window[1..]);
      assert window == [window[0]] + window[1..];
    }
  }

  // Codewords.

  const ZEROS: seq<Word> := [ZERO, ZERO, ZERO, ZERO, ZERO, ZERO]

  /** Symbol `i` of the six 5-bit symbols of a 30-bit value, most significant first. */
  function Symbol(value: Word, i: nat): Word {
    match i
    case 0 => Word((value.bits >> 25) & 31)
    case 1 => Word((value.bits >> 20) & 31)
    case 2 => Word((value.bits >> 15) & 31)
    case 3 => Word((value.bits >> 10) & 31)
    case 4 => Word((value.bits >> 5) & 31)
    case _ => Word(value.bits & 31)
  }

  function Symbols(value: Word): (s: seq<Word>)
    ensures |s| == 6
  {
    [Symbol(value, 0), Symbol(value, 1), Symbol(value, 2),
     Symbol(value, 3), Symbol(value, 4), Symbol(value, 5)]
  }

  function High(unit: Word): Word { Word(Gf2Step.HighBits(unit.bits)) }

  function Low(unit: Word): Word { Word(Gf2Step.LowBits(unit.bits)) }

  /** The code units of the prefix, split into high bits, a separator and low bits. */
  function HrpExpand(hrp: seq<Word>): seq<Word> {
    seq(|hrp|, i requires 0 <= i < |hrp| => High(hrp[i])) + [ZERO]
    + seq(|hrp|, i requires 0 <= i < |hrp| => Low(hrp[i]))
  }

  function Checksum(hrp: seq<Word>, data: seq<Word>): (symbols: seq<Word>)
    ensures |symbols| == 6
  {
    Symbols(Add(Polymod(HrpExpand(hrp) + data + ZEROS), ONE))
  }

  method ComputeHrpExpand(hrp: seq<Word>) returns (values: seq<Word>)
    ensures values == HrpExpand(hrp)
  {
    var high, low := [], [];
    for n := 0 to |hrp|
      invariant high == seq(n, i requires 0 <= i < n => High(hrp[i]))
      invariant low == seq(n, i requires 0 <= i < n => Low(hrp[i]))
    {
      high := high + [High(hrp[n])];
      low := low + [Low(hrp[n])];
    }
    values := high + [ZERO] + low;
  }

  method ComputeChecksum(hrp: seq<Word>, data: seq<Word>) returns (result: seq<Word>)
    ensures result == Checksum(hrp, data)
  {
    var expanded := ComputeHrpExpand(hrp);
    var polymod := ComputePolymod(expanded + data + ZEROS);
    polymod := Add(polymod, ONE);
    result := [];
    for i := 0 to 6
      invariant result == Symbols(polymod)[..i]
    {
      result := result + [Symbol(polymod, i)];
    }
  }

  /** What a reader of a bech32 string checks (the Checksum part of BIP 173). */
  predicate Verifies(hrp: seq<Word>, symbols: seq<Word>) {
    Polymod(HrpExpand(hrp) + symbols) == ONE
  }

  lemma SymbolIsSymbol(value: Word, i: nat)
    ensures IsSymbol(Symbol(value, i))
  {}

  /** The last `n` symbols of a value, found from the low end. */
  function Tail(value: Word, n: nat): (s: seq<Word>)
    ensures |s| == n
    decreases n
  {
    if n == 0 then [] else Tail(High(value), n - 1) + [Low(value)]
  }

  lemma SymbolFromTheLowEnd(v: Word)
    ensures Symbol(v, 5) == Low(v)
    ensures Symbol(v, 4) == Low(High(v))
    ensures Symbol(v, 3) == Low(High(High(v)))
    ensures Symbol(v, 2) == Low(High(High(High(v))))
    ensures Symbol(v, 1) == Low(High(High(High(High(v)))))
    ensures Symbol(v, 0) == Low(High(High(High(High(High(v))))))
  {}

  lemma SymbolsFromTheLowEnd(v: Word)
    ensures Symbols(v) == Tail(v, 6)
  {
    SymbolFromTheLowEnd(v);
    var v1 := High(v);
    var v2 := High(v1);
    var v3 := High(v2);
    var v4 := High(v3);
    var v5 := High(v4);
    assert Tail(v5, 1) == [Low(v5)];
    assert Tail(v4, 2) == [Low(v5), Low(v4)];
    assert Tail(v3, 3) == [Low(v5), Low(v4), Low(v3)];
    assert Tail(v2, 4) == [Low(v5), Low(v4), Low(v3), Low(v2)];
    assert Tail(v1, 5) == [Low(v5), Low(v4), Low(v3), Low(v2), Low(v1)];
  }

  lemma HighTakesLowBack(v: Word, n: nat)
    requires 0 < n <= 6 && HasRoom(v, 6 - n)
    ensures HasRoom(High(v), 7 - n)
    ensures Next(High(v), Low(v)) == v
  {
    hide Gf2Step.Step, Gf2Step.Room, Gf2Step.HighBits, Gf2Step.LowBits;
    Gf2Step.StepTakesLowBack(v.bits, n);
  }

  lemma NothingLeft(v: Word)
    requires HasRoom(v, 6)
    ensures v == ZERO
  {}

  /** Symbols shifted into an empty checksum make up their value again. */
  lemma {:induction false} SymbolsShiftIn(v: Word, n: nat)
    requires n <= 6 && HasRoom(v, 6 - n)
    decreases n
    ensures PolymodFrom(ZERO, Tail(v, n)) == v
  {
    if n == 0 {
      NothingLeft(v);
    } else {
      HighTakesLowBack(v, n);
      SymbolsShiftIn(High(v), n - 1);
      PolymodConcat(ZERO, Tail(High(v), n - 1), [Low(v)]);
    }
  }

  /** Appending six symbols of `v` adds `v` to what six zeros would leave. */
  lemma AppendedSymbolsAdd(c: Word, v: Word)
    requires Fits(v)
    ensures PolymodFrom(c, Symbols(v)) == Add(PolymodFrom(c, ZEROS), v)
  {
    PolymodIsLinear(c, ZERO, ZEROS, Symbols(v));
    forall i | 0 <= i < 6
      ensures AddAll(ZEROS, Symbols(v))[i] == Symbols(v)[i]
    {
      AddLaws(Symbols(v)[i], ZERO);
    }
    assert AddAll(ZEROS, Symbols(v)) == Symbols(v);
    AddLaws(c, ZERO);
    SymbolsFromTheLowEnd(v);
    NoMoreRoomFits(v);
    SymbolsShiftIn(v, 6);
  }

  lemma OneFits(p: Word)
    requires Fits(p)
    ensures Fits(Add(p, ONE)) && Fits(ONE) && Fits(ZERO)
  {}

  lemma HalvesFit(w: Word)
    requires Fits(w)
    ensures Fits(High(w)) && Fits(Low(w)) && Fits(ZERO)
  {}

  lemma ExpandedFits(hrp: seq<Word>)
    requires AllFit(hrp)
    ensures AllFit(HrpExpand(hrp))
  {
    forall i | 0 <= i < |hrp|
      ensures Fits(High(hrp[i])) && Fits(Low(hrp[i]))
    {
      HalvesFit(hrp[i]);
    }
    OneFits(ZERO);
  }

  /** The six checksum symbols always make the codeword verify, for any prefix and any data. */
  lemma ChecksumVerifies(hrp: seq<Word>, data: seq<Word>)
    requires AllFit(hrp) && AllFit(data)
    ensures AllSymbols(Checksum(hrp, data))
    ensures Verifies(hrp, data + Checksum(hrp, data))
  {
    hide HrpExpand, Add, PolymodFrom, Symbol, IsSymbol;
    var values := HrpExpand(hrp) + data;
    ExpandedFits(hrp);
    OneFits(ZERO);
    var c := PolymodFrom(ONE, values);
    PolymodFits(ONE, values);
    PolymodFits(c, ZEROS);
    PolymodConcat(ONE, values, ZEROS);
    var p := PolymodFrom(c, ZEROS);
    OneFits(p);
    AppendedSymbolsAdd(c, Add(p, ONE));
    AddLaws(p, ONE);
    PolymodConcat(ONE, values, Checksum(hrp, data));
    assert HrpExpand(hrp) + (data + Checksum(hrp, data)) == values + Checksum(hrp, data);
    forall i | 0 <= i < 6
      ensures IsSymbol(Checksum(hrp, data)[i])
    {
      SymbolIsSymbol(Add(p, ONE), i);
    }
  }

  /** `a` and `b` have the same length and differ, but only inside one window of six symbols. */
  predicate DifferInWindow(a: seq<Word>, b: seq<Word>, from: nat) {
    && |a| == |b| && a != b
    && AllSymbols(a) && AllSymbols(b)
    && forall i :: 0 <= i < |a| && a[i] != b[i] ==> from <= i < from + 6
  }

  lemma BurstIsSeen(diff: seq<Word>, from: nat, k: nat)
    requires AllSymbols(diff) && from <= k < |diff| && k < from + 6 && diff[k] != ZERO
    requires forall i :: 0 <= i < |diff| && !(from <= i < from + 6) ==> diff[i] == ZERO
    ensures PolymodFrom(ZERO, diff) != ZERO
  {
    hide Next, IsSymbol, HasRoom, Fits;
    var upto := if from + 6 <= |diff| then from + 6 else |diff|;
    var head, window, tail := diff[..from], diff[from..upto], diff[upto..];
    assert diff == (head + window) + tail;
    assert window[k - from] == diff[k];
    assert AllSymbols(window) by {
      assert forall i :: 0 <= i < |window| ==> window[i] == diff[from + i];
    }
    assert AllZero(head) by {
      assert forall i :: 0 <= i < |head| ==> head[i] == diff[i];
    }
    assert AllZero(tail) by {
      assert forall i :: 0 <= i < |tail| ==> tail[i] == diff[upto + i];
    }
    PolymodConcat(ZERO, head + window, tail);
    PolymodConcat(ZERO, head, window);
    OneFits(ZERO);
    ZerosLoseNothing(ZERO, head);
    EmptyHasRoom(|window|);
    WindowIsSeen(ZERO, window);
    ZerosLoseNothing(PolymodFrom(ZERO, window), tail);
  }

  /**
   Error detection: however long the data, symbols changed within any six neighbouring places
   change the checksum. With one changed symbol this is single-symbol error detection.
   */
  lemma BurstChangesPolymod(c: Word, a: seq<Word>, b: seq<Word>, from: nat)
    requires DifferInWindow(a, b, from)
    ensures PolymodFrom(c, a) != PolymodFrom(c, b)
  {
    var diff := AddAll(a, b);
    forall i | 0 <= i < |a|
      ensures IsSymbol(diff[i]) && (diff[i] == ZERO <==> a[i] == b[i])
    {
      SumOfSymbols(a[i], b[i]);
    }
    var k :| 0 <= k < |a| && a[k] != b[k];
    BurstIsSeen(diff, from, k);
    PolymodIsLinear(c, c, a, b);
    AddLaws(c, ZERO);
    AddLaws(PolymodFrom(c, a), PolymodFrom(c, b));
  }

  /** A codeword altered within six neighbouring symbols never verifies. */
  lemma BurstIsDetected(hrp: seq<Word>, data: seq<Word>, altered: seq<Word>, from: nat)
    requires AllFit(hrp) && AllSymbols(data)
    requires DifferInWindow(data + Checksum(hrp, data), altered, from)
    ensures !Verifies(hrp, altered)
  {
    forall i | 0 <= i < |data|
      ensures Fits(data[i])
    {
      SymbolFits(data[i]);
    }
    ChecksumVerifies(hrp, data);
    var expanded, sent := HrpExpand(hrp), data + Checksum(hrp, data);
    PolymodConcat(ONE, expanded, sent);
    PolymodConcat(ONE, expanded, altered);
    BurstChangesPolymod(PolymodFrom(ONE, expanded), sent, altered, from);
  }

  // Known strings.

  /** `a12uel5l`, the first valid string of BIP 173: the prefix `a`, no data, the symbols of `2uel5l`. */
  lemma KnownStringVerifies()
    ensures Verifies([Word(0x61)], [Word(10), Word(28), Word(25), Word(31), Word(20), Word(31)])
  {
    hide Gf2Step.Step;
    Gf2Step.KnownSteps();
    var s := HrpExpand([Word(0x61)]) + [Word(10), Word(28), Word(25), Word(31), Word(20), Word(31)];
    assert s == [Word(3), Word(0), Word(1), Word(10), Word(28), Word(25), Word(31), Word(20), Word(31)];
    assert Next(Word(0x1), s[0]) == Word(0x23) && Next(Word(0x23), s[1]) == Word(0x460);
    assert Next(Word(0x460), s[2]) == Word(0x8c01) && Next(Word(0x8c01), s[3]) == Word(0x11802a);
    assert Next(Word(0x11802a), s[4]) == Word(0x230055c) && Next(Word(0x230055c), s[5]) == Word(0x3d6afc2b);
    assert Next(Word(0x3d6afc2b), s[6]) == Word(0x2f84386) && Next(Word(0x2f84386), s[7]) == Word(0x24622766);
    assert Next(Word(0x24622766), s[8]) == Word(1);
    hide Next;
    assert PolymodFrom(Word(0x24622766), s[8..]) == Word(1) by { assert s[8..][1..] == []; }
    assert PolymodFrom(Word(0x2f84386), s[7..]) == Word(1) by { assert s[7..][1..] == s[8..]; }
    assert PolymodFrom(Word(0x3d6afc2b), s[6..]) == Word(1) by { assert s[6..][1..] == s[7..]; }
    assert PolymodFrom(Word(0x230055c), s[5..]) == Word(1) by { assert s[5..][1..] == s[6..]; }
    assert PolymodFrom(Word(0x11802a), s[4..]) == Word(1) by { assert s[4..][1..] == s[5..]; }
    assert PolymodFrom(Word(0x8c01), s[3..]) == Word(1) by { assert s[3..][1..] == s[4..]; }
    assert PolymodFrom(Word(0x460), s[2..]) == Word(1) by { assert s[2..][1..] == s[3..]; }
    assert PolymodFrom(Word(0x23), s[1..]) == Word(1) by { assert s[1..][1..] == s[2..]; }
  }
}
