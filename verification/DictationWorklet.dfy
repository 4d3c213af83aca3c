/** Dictation capture: clamped samples in batches of 1600, bounded, and flushed when it is stopped. */
module DictationWorklet {
  import opened Wrappers
  import opened Batches
  import opened Sequences

  const BATCH: nat := 1600
  const LIMIT: nat := 960_000

  datatype Message = Samples(samples: seq<Sample>) | Finished

  /** `Math.max(-1, Math.min(1, sample))`, which lets a NaN through. */
  function Clamped(s: Sample): Sample {
    match s
    case NotANumber => NotANumber
    case Value(v) => Value(if v > 1.0 then 1.0 else if v < -1.0 then -1.0 else v)
  }

  /** Of the numbers from -1 to 1 a sample is given the nearest; a NaN stays one. */
  lemma ClampedIsNearest(v: real, other: real)
    requires -1.0 <= other <= 1.0
    ensures Clamped(NotANumber) == NotANumber
    ensures Clamped(Value(v)).Value? && -1.0 <= Clamped(Value(v)).v <= 1.0
    ensures Distance(v, Clamped(Value(v)).v) <= Distance(v, other)
  {
  }

  function Distance(a: real, b: real): real { if a >= b then a - b else b - a }

  function AllClamped(input: seq<Sample>): seq<Sample> {
    seq(|input|, i requires 0 <= i < |input| => Clamped(input[i]))
  }

  lemma ClampedConcat(a: seq<Sample>, b: seq<Sample>)
    ensures AllClamped(a + b) == AllClamped(a) + AllClamped(b)
  {
  }

  lemma NothingClamped()
    ensures AllClamped([]) == []
  {
  }

  lemma ClampedOneMore(input: seq<Sample>, i: nat)
    requires i < |input|
    ensures AllClamped(input[..i + 1]) == AllClamped(input[..i]) + [Clamped(input[i])]
  {
  }

  // What is posted, as a function of what was accepted.

  function FullBatches(accepted: seq<Sample>): seq<Message>
    decreases |accepted|
  {
    if |accepted| < BATCH then [] else [Samples(accepted[..BATCH])] + FullBatches(accepted[BATCH..])
  }

  /** What does not fill a batch yet. */
  function Remainder(accepted: seq<Sample>): (rest: seq<Sample>)
    ensures |rest| < BATCH
    decreases |accepted|
  {
    if |accepted| < BATCH then accepted else Remainder(accepted[BATCH..])
  }

  function Messages(accepted: seq<Sample>, finished: bool): seq<Message> {
    FullBatches(accepted)
    + if !finished then []
      else (if Remainder(accepted) == [] then [] else [Samples(Remainder(accepted))]) + [Finished]
  }

  /** The samples of all the batches among `posted`. */
  function Received(posted: seq<Message>): seq<Sample> {
    if posted == [] then []
    else (if posted[0].Samples? then posted[0].samples else []) + Received(posted[1..])
  }

  lemma {:induction false} OneMoreSample(accepted: seq<Sample>, s: Sample)
    ensures var rest := Remainder(accepted) + [s];
            && Remainder(accepted + [s]) == (if |rest| == BATCH then [] else rest)
            && FullBatches(accepted + [s]) == FullBatches(accepted) + if |rest| == BATCH then [Samples(rest)] else []
    decreases |accepted|
  {
    if |accepted| >= BATCH {
      assert (accepted + [s])[..BATCH] == accepted[..BATCH];
      assert (accepted + [s])[BATCH..] == accepted[BATCH..] + [s];
      OneMoreSample(accepted[BATCH..], s);
    } else if |accepted| + 1 == BATCH {
      assert (accepted + [s])[..BATCH] == accepted + [s];
    }
  }

  // Whole runs.

  datatype Capture = Capture(accepted: seq<Sample>, finished: bool)

  /** A block of samples, none when the input is not connected; or a message to the worklet. */
  datatype Event = Block(input: Option<seq<Sample>>) | Told(stop: bool)

  function AfterBlock(c: Capture, input: seq<Sample>): Capture
    requires |c.accepted| <= LIMIT
  {
    if c.finished then c
    else
      var accepted := c.accepted + AllClamped(input[..Min(|input|, LIMIT - |c.accepted|)]);
      Capture(accepted, |accepted| == LIMIT)
  }

  function After(events: seq<Event>): (c: Capture)
    ensures |c.accepted| <= LIMIT
    ensures !c.finished ==> |c.accepted| < LIMIT
  {
    if events == [] then Capture([], false)
    else
      var c, last := After(events[..|events| - 1]), events[|events| - 1];
      match last
      case Block(Some(input)) => AfterBlock(c, input)
      case Block(None) => c
      case Told(stop) => if stop then c.(finished := true) else c
  }

  class DictationProcessor {
    const buffer: array<Sample>
    var offset: nat
    var total: nat
    var finished: bool
    var posted: seq<Message>
    ghost var accepted: seq<Sample>

    ghost predicate Valid()
      reads this, buffer
    {
      && buffer.Length == BATCH && offset < BATCH
      && total == |accepted| <= LIMIT
      && (!finished ==> total < LIMIT)
      && posted == Messages(accepted, finished)
      && buffer[..offset] == if finished then [] else Remainder(accepted)
    }

    ghost function State(): Capture
      reads this
    {
      Capture(accepted, finished)
    }

    constructor ()
      ensures Valid() && fresh(buffer) && State() == After([])
    {
      buffer := new Sample[BATCH](_ => Value(0.0));
      offset, total, finished := 0, 0, false;
      posted, accepted := [], [];
    }

    method Flush()
      requires offset <= buffer.Length
      modifies this
      ensures offset == 0
      ensures posted == old(posted) + if old(offset) == 0 then [] else [Samples(old(buffer[..offset]))]
      ensures total == old(total) && finished == old(finished) && accepted == old(accepted)
    {
      if offset == 0 {
        return;
      }
      posted := posted + [Samples(buffer[..offset])];
      offset := 0;
    }

    method Finish()
      requires buffer.Length == BATCH && offset < BATCH
      modifies this
      ensures offset == if old(finished) then old(offset) else 0
      ensures total == old(total) && accepted == old(accepted) && finished
      ensures posted == old(posted) +
        if old(finished) then []
        else (if old(offset) == 0 then [] else [Samples(old(buffer[..offset]))]) + [Finished]
    {
      if finished {
        return;
      }
      finished := true;
      Flush();
      posted := posted + [Message.Finished];
    }

    /** The handler of `port.onmessage`. */
    method OnMessage(stop: bool)
      requires Valid()
      modifies this
      ensures Valid() && State() == if stop then old(State()).(finished := true) else old(State())
    {
      if stop {
        Finish();
      }
    }

    /** Keeps one sample that there is room for. */
    method Keep(sample: Sample)
      requires Valid() && !finished
      modifies this, buffer
      ensures Valid() && accepted == old(accepted) + [Clamped(sample)]
      ensures finished <==> |accepted| == LIMIT
    {
      ghost var rest := Remainder(accepted) + [Clamped(sample)];
      OneMoreSample(accepted, Clamped(sample));
      buffer[offset] := Clamped(sample);
      offset := offset + 1;
      total := total + 1;
      accepted := accepted + [Clamped(sample)];
      assert buffer[..offset] == rest;
      if offset == buffer.Length {
        Flush();
      }
      if total >= LIMIT {
        Finish();
      }
    }

    /** One render quantum; says whether to go on. */
    method Process(input: Option<seq<Sample>>) returns (alive: bool)
      requires Valid()
      modifies this, buffer
      ensures Valid() && alive == !finished
      ensures State() == if input.Some? then AfterBlock(old(State()), input.value) else old(State())
    {
      hide AllClamped, Clamped, Messages, Remainder;
      if finished {
        return false;
      }
      if input.None? {
        return true;
      }
      var samples := input.value;
      NothingClamped();
      for i := 0 to |samples|
        invariant Valid() && !finished
        invariant |accepted| == |old(accepted)| + i < LIMIT
        invariant accepted == old(accepted) + AllClamped(samples[..i])
      {
        Keep(samples[i]);
        ClampedOneMore(samples, i);
        if finished {
          assert i + 1 == Min(|samples|, LIMIT - |old(accepted)|);
          return false;
        }
      }
      assert samples[..|samples|] == samples;
      return true;
    }

    /** Any sequence of blocks and messages. */
    method Replay(events: seq<Event>)
      requires Valid() && State() == After([])
      modifies this, buffer
      ensures Valid() && State() == After(events)
    {
      for i := 0 to |events|
        invariant Valid() && State() == After(events[..i])
      {
        assert events[..i + 1][..i] == events[..i];
        match events[i] {
          case Block(input) => var _ := Process(input);
          case Told(stop) => OnMessage(stop);
        }
      }
      assert events[..|events|] == events;
    }
  }

  // What a run posts.

  predicate Stopped(events: seq<Event>) {
    exists i :: 0 <= i < |events| && events[i] == Told(true)
  }

  /** All the samples that arrive before the worklet is told to stop. */
  function Heard(events: seq<Event>): seq<Sample> {
    if events == [] then []
    else
      var init, last := events[..|events| - 1], events[|events| - 1];
      Heard(init) + if !Stopped(init) && last.Block? && last.input.Some? then last.input.value else []
  }

  /** A run accepts what it hears, clamped and in order, up to a minute; then, or when told, it ends. */
  lemma {:induction false} RunAcceptsWhatItHears(events: seq<Event>)
    ensures After(events).accepted == AllClamped(Heard(events)[..Min(|Heard(events)|, 960_000)])
    ensures After(events).finished <==> Stopped(events) || |Heard(events)| >= 960_000
  {
    if events != [] {
      var init, last := events[..|events| - 1], events[|events| - 1];
      RunAcceptsWhatItHears(init);
      assert events == init + [last];
      StoppedByNow(init, last);
      if last.Block? && last.input.Some? && !Stopped(init) {
        HearingOn(After(init), Heard(init), last.input.value);
      }
    }
  }

  lemma StoppedByNow(init: seq<Event>, last: Event)
    ensures Stopped(init + [last]) <==> Stopped(init) || last == Told(true)
  {
    assert (init + [last])[|init|] == last;
    assert forall i :: 0 <= i < |init| ==> (init + [last])[i] == init[i];
  }

  lemma HearingOn(c: Capture, heard: seq<Sample>, input: seq<Sample>)
    requires c.accepted == AllClamped(heard[..Min(|heard|, LIMIT)]) && (c.finished <==> |heard| >= LIMIT)
    ensures |AllClamped(heard[..Min(|heard|, LIMIT)])| <= LIMIT
    ensures var all := heard + input;
            && AfterBlock(c, input).accepted == AllClamped(all[..Min(|all|, LIMIT)])
            && (AfterBlock(c, input).finished <==> |all| >= LIMIT)
  {
    var all := heard + input;
    if c.finished {
      assert all[..LIMIT] == heard[..LIMIT];
    } else {
      var more := input[..Min(|input|, LIMIT - |heard|)];
      assert heard[..|heard|] == heard;
      assert all[..Min(|all|, LIMIT)] == heard + more;
      ClampedConcat(heard, more);
    }
  }

  lemma {:induction false} FullBatchesAreFull(accepted: seq<Sample>)
    ensures forall i :: 0 <= i < |FullBatches(accepted)| ==>
      FullBatches(accepted)[i].Samples? && |FullBatches(accepted)[i].samples| == BATCH
    ensures Received(FullBatches(accepted)) + Remainder(accepted) == accepted
    decreases |accepted|
  {
    if |accepted| >= BATCH {
      FullBatchesAreFull(accepted[BATCH..]);
      assert accepted == accepted[..BATCH] + accepted[BATCH..];
    }
  }

  lemma {:induction false} ReceivedConcat(a: seq<Message>, b: seq<Message>)
    ensures Received(a + b) == Received(a) + Received(b)
  {
    if a == [] {
      assert a + b == b;
    } else {
      assert (a + b)[1..] == a[1..] + b;
      ReceivedConcat(a[1..], b);
    }
  }

  /**
   Nothing is lost, doubled or reordered: the batches posted, and after them what is still buffered,
   are the accepted samples. Every batch is full but the one that finishing posts, and the notice that
   capture finished comes once, after everything else.
   */
  lemma SamplesAreConserved(accepted: seq<Sample>, finished: bool)
    ensures var posted := Messages(accepted, finished);
            && Received(posted) + (if finished then [] else Remainder(accepted)) == accepted
            && (forall i :: 0 <= i < |posted| ==> (posted[i].Finished? <==> finished && i == |posted| - 1))
            && (finished ==> posted != [])
            && forall i :: 0 <= i < |posted| && posted[i].Samples? ==>
                 if i < |accepted| / 1600 then |posted[i].samples| == 1600
                 else finished && i == |posted| - 2 && 0 < |posted[i].samples| < 1600
  {
    FullBatchesAreFull(accepted);
    FullBatchesCount(accepted);
    var last: seq<Message> := if Remainder(accepted) == [] then [] else [Samples(Remainder(accepted))];
    if finished {
      ReceivedConcat(FullBatches(accepted), last + [Finished]);
      ReceivedConcat(last, [Finished]);
      assert Received([Finished]) == [];
      assert Received(last) == Remainder(accepted);
    } else {
      assert Messages(accepted, finished) == FullBatches(accepted);
    }
  }

  lemma {:induction false} FullBatchesCount(accepted: seq<Sample>)
    ensures |FullBatches(accepted)| == |accepted| / BATCH
    decreases |accepted|
  {
    if |accepted| >= BATCH {
      FullBatchesCount(accepted[BATCH..]);
    }
  }
}
