/** The speech tap: samples in batches of 960, discarded while push-to-talk is not pressed. */
module SttTapWorklet {
  import opened Wrappers
  import opened Batches
  import opened Sequences

  const FRAME: nat := 960

  /** The batches sent, the samples held for the next one, and whether the microphone is open. */
  datatype Tap = Tap(sent: seq<seq<Sample>>, held: seq<Sample>, transmitting: bool)

  const OPEN := Tap([], [], true)

  function AfterBlock(t: Tap, input: seq<Sample>): Tap
    requires |t.held| <= FRAME
  {
    var room := FRAME - |t.held|;
    if !t.transmitting then t.(held := [])
    else if |input| < room then t.(held := t.held + input)
    else t.(sent := t.sent + [t.held + input[..room]], held := if Throws(t, input) then [] else input[room..])
  }

  /** What is left over does not fit the new buffer, and `TypedArray.set` throws a RangeError. */
  predicate Throws(t: Tap, input: seq<Sample>) { t.transmitting && |t.held| + |input| > 2 * FRAME }

  class SttTapProcessor {
    var buffer: array<Sample>
    var offset: nat
    var transmitting: bool
    var posted: seq<seq<Sample>>

    ghost predicate Valid()
      reads this, buffer
    {
      buffer.Length == FRAME && offset <= FRAME
    }

    ghost function Abs(): (t: Tap)
      requires Valid()
      reads this, buffer
      ensures |t.held| <= FRAME
    {
      Tap(posted, buffer[..offset], transmitting)
    }

    constructor ()
      ensures Valid() && fresh(buffer) && Abs() == OPEN
    {
      buffer := new Sample[FRAME](_ => Value(0.0));
      offset, transmitting, posted := 0, true, [];
    }

    /** The handler of `port.onmessage`, for a push-to-talk message. */
    method OnPtt(active: bool)
      requires Valid()
      modifies this
      ensures Valid() && buffer == old(buffer) && Abs() == old(Abs()).(transmitting := active)
    {
      transmitting := active;
    }

    /** One render quantum; `threw` tells that it ended in a RangeError. */
    method Process(input: Option<seq<Sample>>) returns (threw: bool)
      requires Valid()
      modifies this, buffer
      ensures Valid() && (buffer == old(buffer) || fresh(buffer))
      ensures threw <==> input.Some? && Throws(old(Abs()), input.value)
      ensures threw <==> input.Some? && old(transmitting) && old(offset) + |input.value| > 1920
      ensures Abs() == if input.Some? then AfterBlock(old(Abs()), input.value) else old(Abs())
    {
      if input.None? {
        return false;
      }
      var samples := input.value;
      if !transmitting {
        offset := 0;
        return false;
      }
      var remaining := buffer.Length - offset;
      var toCopy := if |samples| < remaining then |samples| else remaining;
      ghost var held := buffer[..offset];
      SetAt(buffer, samples[..toCopy], offset);
      assert buffer[..offset + toCopy] == held + samples[..toCopy];
      offset := offset + toCopy;
      if offset >= buffer.Length {
        assert buffer[..] == buffer[..offset];
        posted := posted + [buffer[..]];
        buffer := new Sample[FRAME](_ => Value(0.0));
        offset := 0;
        if toCopy < |samples| {
          var leftover := samples[toCopy..];
          if |leftover| > buffer.Length {
            return true;
          }
          SetAt(buffer, leftover, 0);
          assert buffer[..|leftover|] == leftover;
          offset := |leftover|;
        }
      } else {
        assert samples[..toCopy] == samples;
      }
      return false;
    }
  }

  // Whole runs.

  datatype Event = Block(input: Option<seq<Sample>>) | Ptt(active: bool)

  function AfterEvent(t: Tap, event: Event): (u: Tap)
    requires |t.held| <= FRAME
    ensures |u.held| <= FRAME
  {
    match event
    case Block(Some(input)) => AfterBlock(t, input)
    case Block(None) => t
    case Ptt(active) => t.(transmitting := active)
  }

  function After(events: seq<Event>): (t: Tap)
    ensures |t.held| <= FRAME
  {
    if events == [] then OPEN
    else AfterEvent(After(events[..|events| - 1]), events[|events| - 1])
  }

  /** Any sequence of blocks and messages. */
  method Replay(tap: SttTapProcessor, events: seq<Event>)
    requires tap.Valid() && tap.Abs() == OPEN
    modifies tap, tap.buffer
    ensures tap.Valid() && tap.Abs() == After(events)
  {
    for i := 0 to |events|
      invariant tap.Valid() && tap.Abs() == After(events[..i])
      invariant tap.buffer == old(tap.buffer) || fresh(tap.buffer)
    {
      assert events[..i + 1][..i] == events[..i];
      match events[i] {
        case Block(input) => var _ := tap.Process(input);
        case Ptt(active) => tap.OnPtt(active);
      }
    }
    assert events[..|events|] == events;
  }

  /** The last push-to-talk message, if there was one: open until then. */
  function Pressed(events: seq<Event>): bool {
    if events == [] then true
    else
      var last := events[|events| - 1];
      if last.Ptt? then last.active else Pressed(events[..|events| - 1])
  }

  /** The microphone is as the last push-to-talk message left it. */
  lemma {:induction false} TalkIsAsPressed(events: seq<Event>)
    ensures After(events).transmitting == Pressed(events)
  {
    if events != [] {
      TalkIsAsPressed(events[..|events| - 1]);
    }
  }

  /** What the worklet hears: nothing before the last block that came in while it was gated. */
  datatype Hearing = Hearing(sentBefore: nat, samples: seq<Sample>)

  function Heard(events: seq<Event>): Hearing {
    if events == [] then Hearing(0, [])
    else
      var init, last := events[..|events| - 1], events[|events| - 1];
      match last
      case Block(Some(input)) =>
        if Pressed(init) then Heard(init).(samples := Heard(init).samples + input)
        else Hearing(|After(init).sent|, [])
      case _ => Heard(init)
  }

  /** No block so far has thrown. */
  predicate NeverThrew(events: seq<Event>) {
    forall i :: 0 <= i < |events| && events[i].Block? && events[i].input.Some? ==>
      !Throws(After(events[..i]), events[i].input.value)
  }

  predicate Quanta(events: seq<Event>) {
    forall i :: 0 <= i < |events| && events[i].Block? && events[i].input.Some? ==> |events[i].input.value| <= 960
  }

  /** A block taken in keeps every sample, in order, exactly when it does not throw. */
  lemma BlockConserves(t: Tap, input: seq<Sample>) returns (more: seq<seq<Sample>>)
    requires |t.held| <= FRAME && t.transmitting
    ensures var u := AfterBlock(t, input);
            && u.sent == t.sent + more && AllOf(FRAME, more)
            && (Joined(more) + u.held == t.held + input <==> !Throws(t, input))
            && (|t.held| < FRAME && |input| <= FRAME ==> |u.held| < FRAME)
  {
    var u, room := AfterBlock(t, input), FRAME - |t.held|;
    if |input| < room {
      more := [];
    } else {
      var batch := t.held + input[..room];
      more := [batch];
      JoinedOneMore([], batch);
      assert [] + [batch] == [batch];
      assert input == input[..room] + input[room..];
      if Throws(t, input) {
        assert |Joined(more) + u.held| == FRAME < |t.held + input|;
      }
    }
  }

  /** Everything heard has been sent, in whole batches, or is held. */
  predicate Conserves(t: Tap, h: Hearing) {
    && AllOf(960, t.sent)
    && h.sentBefore <= |t.sent|
    && Joined(t.sent[h.sentBefore..]) + t.held == h.samples
  }

  lemma BlockKeepsConserving(t: Tap, h: Hearing, input: seq<Sample>)
    requires |t.held| <= FRAME && Conserves(t, h) && !Throws(t, input)
    ensures Conserves(
      AfterBlock(t, input),
      if t.transmitting then h.(samples := h.samples + input) else Hearing(|t.sent|, []))
  {
    if t.transmitting {
      var more := BlockConserves(t, input);
      SentMore(t, h, more, AfterBlock(t, input).held, input);
    } else {
      assert Joined(t.sent[|t.sent|..]) == [];
    }
  }

  /** A first block of 1921 samples: one batch is sent, the other 961 samples are lost. */
  lemma LongBlockLosesSamples() returns (input: seq<Sample>, more: seq<seq<Sample>>)
    ensures |input| == 1921 && Throws(OPEN, input)
    ensures AfterBlock(OPEN, input) == Tap([input[..960]], [], true)
    ensures Joined(AfterBlock(OPEN, input).sent) + AfterBlock(OPEN, input).held == input[..960] != input
  {
    input := seq(1921, _ => Value(0.0));
    more := BlockConserves(OPEN, input);
    assert [] + input[..960] == input[..960] && [] + [input[..960]] == [input[..960]];
    JoinedOneMore([], input[..960]);
    assert input[..960] + [] == input[..960];
  }

  lemma SentMore(t: Tap, h: Hearing, more: seq<seq<Sample>>, held: seq<Sample>, input: seq<Sample>)
    requires Conserves(t, h) && AllOf(FRAME, more) && Joined(more) + held == t.held + input
    ensures Conserves(t.(sent := t.sent + more, held := held), h.(samples := h.samples + input))
  {
    hide Joined;
    var before := t.sent[h.sentBefore..];
    assert (t.sent + more)[h.sentBefore..] == before + more;
    JoinedConcat(before, more);
    var a, b, c := Joined(before), Joined(more), t.held;
    assert (a + b) + held == a + (b + held);
    assert a + (c + input) == (a + c) + input;
  }

  /**
   As long as nothing throws, every batch has 960 samples, and what was sent since the last gated
   block together with what is held is all that came in since. (A gated block sends nothing and drops
   what is held.)
   */
  lemma {:induction false} RunConservesSamples(events: seq<Event>)
    requires NeverThrew(events)
    ensures Conserves(After(events), Heard(events))
  {
    if events != [] {
      var init, last := events[..|events| - 1], events[|events| - 1];
      assert forall i :: 0 <= i < |init| ==> init[i] == events[i] && init[..i] == events[..i];
      RunConservesSamples(init);
      TalkIsAsPressed(init);
      if last.Block? && last.input.Some? {
        BlockKeepsConserving(After(init), Heard(init), last.input.value);
      }
    }
  }

  /** With blocks of at most 960 samples nothing ever throws, and fewer than 960 are held between calls. */
  lemma {:induction false} ShortBlocksNeverThrow(events: seq<Event>)
    requires Quanta(events)
    ensures NeverThrew(events) && |After(events).held| < 960
  {
    if events != [] {
      var init, last := events[..|events| - 1], events[|events| - 1];
      assert forall i :: 0 <= i < |init| ==> init[i] == events[i] && init[..i] == events[..i];
      ShortBlocksNeverThrow(init);
    }
  }
}
