/** Audio samples, and a stream of them cut into batches. */
module Batches {
  /** A sample: a number, or what arithmetic on floats can give instead. */
  datatype Sample = NotANumber | Value(v: real)

  predicate AllOf(size: nat, batches: seq<seq<Sample>>) {
    forall i :: 0 <= i < |batches| ==> |batches[i]| == size
  }

  /** `source` copied over `target` from index `at` on, as `TypedArray.set` does. */
  method SetAt(target: array<Sample>, source: seq<Sample>, at: nat)
    requires at + |source| <= target.Length
    modifies target
    ensures target[..] == old(target[..at]) + source + old(target[at + |source|..])
  {
    for i := 0 to |source|
      invariant target[..at] == old(target[..at])
      invariant target[at..at + i] == source[..i]
      invariant target[at + i..] == old(target[at + i..])
    {
      target[at + i] := source[i];
      assert target[at..at + i + 1] == target[at..at + i] + [source[i]];
    }
    assert target[..] == target[..at] + target[at..at + |source|] + target[at + |source|..];
  }
}
