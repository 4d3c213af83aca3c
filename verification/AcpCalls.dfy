/** The calls of the ACP client as functions, and what any sequence of them keeps. */
module AcpCalls {
  import opened Wrappers
  import opened Json
  import opened Text
  import opened Sequences
  import opened AcpProtocol
  import opened AcpReading
  import opened AcpRuns
  import opened AcpPasses

  // Plain requests.

  const REQUEST_TIMEOUT: Time := 60_000
  const CLEANUP_GRACE: Time := 30_000

  /** A line of the agent's output, and the outcome of the one write it may cause. */
  datatype Line = Line(frame: Frame, write: Write)

  /** `read_until_response`; lines that stop coming mean the request timed out. */
  function Responded(c: Client, id: nat, lines: seq<Line>): (Client, Result<Json, AcpError>)
    decreases |lines|
  {
    if lines == [] then (c, Err(Timeout(REQUEST_TIMEOUT)))
    else
      match lines[0].frame
      case Eof => (c, Err(AgentExited))
      case TooLong => (c, Err(Protocol(LineTooLong)))
      case ReadFailed => (c, Err(Io))
      case Blank => Responded(c, id, lines[1..])
      case NotJson => Responded(c, id, lines[1..])
      case Message(msg) =>
        if IsReplyTo(msg, id) then (c, AnswerOf(msg))
        else
          var (d, error) := Dispatched(c, msg, lines[0].write);
          if error.Some? then (d, Err(error.value)) else Responded(d, id, lines[1..])
  }

  function Requested(c: Client, body: Body, write: Write, lines: seq<Line>): (Client, Result<Json, AcpError>) {
    var sent := Sent(c.(nextId := c.nextId + 1), Request(c.nextId, body), write);
    if write.Some? then (sent, Err(write.value)) else Responded(sent, c.nextId, lines)
  }

  /** `initialize`: only here is it learnt that the agent can be steered by the extension. */
  function Initialized(c: Client, params: Json, write: Write, lines: seq<Line>): (Client, Result<Json, AcpError>) {
    var (d, r) := Requested(c, Rpc("initialize", params), write, lines);
    match r
    case Err(_) => (d, r)
    case Ok(result) => (d.(steeringSupported := AdvertisesSteering(result)), r)
  }

  predicate AdvertisesSteering(result: Json) {
    At(result, ["_meta", "steering", "supported"]) == Some(Bool(true))
  }

  // Prompts.

  datatype StopReason = EndTurn | StoppedByCancel | MaxTokens | MaxTurnRequests | Refusal

  function StopReasonOf(result: Json): Result<StopReason, AcpError> {
    match result.Index("stopReason").AsStr()
    case None => Err(Protocol(MissingStopReason))
    case Some(raw) =>
      var s := AsciiLower(raw);
      if s == "end_turn" then Ok(EndTurn)
      else if s == "cancelled" then Ok(StoppedByCancel)
      else if s == "max_tokens" then Ok(MaxTokens)
      else if s == "max_turn_requests" then Ok(MaxTurnRequests)
      else if s == "refusal" then Ok(Refusal)
      else Err(Protocol(UnknownStopReason(raw)))
  }

  function StopReasonOfOutcome(outcome: Result<Json, AcpError>): Result<StopReason, AcpError> {
    match outcome
    case Ok(result) => StopReasonOf(result)
    case Err(e) => Err(e)
  }

  predicate IsTimeout<T>(r: Result<T, AcpError>) {
    r.Err? && (r.error.IdleTimeout? || r.error.HardTimeout?)
  }

  /** A prompt: its arguments, the clock when the deadline is set and when the loop starts. */
  datatype PromptCall = PromptCall(
    session: string, blocks: seq<string>, idleTimeout: Time, maxDuration: Time,
    now: Time, write: Write, entered: Time, polls: seq<Poll>)

  function NotInFlight(c: Client): Client { c.(lastPromptId := None, currentHardDeadline := None) }

  function PromptSent(c: Client, p: PromptCall): Client {
    Sent(c.(nextId := c.nextId + 1), Request(c.nextId, Prompt(p.session, p.blocks)), p.write)
    .(currentHardDeadline := Some(p.now + p.maxDuration), lastPromptId := Some(c.nextId))
  }

  function PromptWait(c: Client, p: PromptCall): Wait {
    Wait(p.session, c.nextId, p.idleTimeout, p.maxDuration, c.steerInstalled)
  }

  function PromptEntered(c: Client, p: PromptCall): Loop {
    Entered(PromptSent(c, p), PromptWait(c, p), p.entered, p.now + p.maxDuration)
  }

  /** `session_prompt_blocks_with_idle_timeout`: only a timeout leaves the prompt in flight. */
  function Prompted(c: Client, p: PromptCall): (Client, Result<StopReason, AcpError>) {
    if p.write.Some? then (NotInFlight(PromptSent(c, p)), Err(p.write.value))
    else
      var end := Run(PromptWait(c, p), PromptEntered(c, p), p.polls);
      (if IsTimeout(end.outcome) then end.loop.client else NotInFlight(end.loop.client),
       StopReasonOfOutcome(end.outcome))
  }

  // Cancelling.

  /** A cancel: the clock when its deadline is set, when the drain's budget is and when it starts. */
  datatype CancelCall = CancelCall(
    session: string, now: Time, replyWrite: Write, cancelWrite: Write,
    resumed: Time, entered: Time, polls: seq<Poll>)

  /** The drain inherits the deadline of the turn, but has at least 30 seconds. */
  function CancelDeadline(inherited: Option<Time>, now: Time): Time {
    match inherited
    case Some(d) => if d > now + CLEANUP_GRACE then d else now + CLEANUP_GRACE
    case None => now + CLEANUP_GRACE
  }

  /** A pending permission request is answered `cancelled`, unless it already has its answer. */
  function PermissionCancelled(c: Client): Client {
    match c.pendingPermissionId
    case None => c
    case Some(id) =>
      (if c.permissionResponded then c else Sent(c, PermissionReply(id, Cancelled), None))
      .(pendingPermissionId := None, permissionResponded := false)
  }

  function DrainWait(c: Client, id: nat, k: CancelCall, deadline: Time): Wait {
    Wait(k.session, id, CLEANUP_GRACE, Max(deadline - k.resumed, 0), c.steerInstalled)
  }

  function DrainEntered(c: Client, id: nat, k: CancelCall, deadline: Time): Loop {
    Entered(Sent(PermissionCancelled(c.(lastPromptId := None)), CancelNotice(k.session), None),
            DrainWait(c, id, k, deadline), k.entered, deadline)
  }

  /** `cancel_with_cleanup_until` */
  function CancelledUntil(c: Client, k: CancelCall, deadline: Time): (Client, Result<StopReason, AcpError>) {
    match c.lastPromptId
    case None => (c, Err(Protocol(NoPromptInFlight)))
    case Some(id) =>
      var taken := c.(lastPromptId := None);
      if c.pendingPermissionId.Some? && !c.permissionResponded && k.replyWrite.Some? then
        (taken, Err(k.replyWrite.value))
      else if k.cancelWrite.Some? then (PermissionCancelled(taken), Err(k.cancelWrite.value))
      else
        var end := Run(DrainWait(c, id, k, deadline), DrainEntered(c, id, k, deadline), k.polls);
        (end.loop.client, StopReasonOfOutcome(end.outcome))
  }

  function CancelledWithCleanup(c: Client, k: CancelCall): (Client, Result<StopReason, AcpError>) {
    CancelledUntil(c.(currentHardDeadline := None), k, CancelDeadline(c.currentHardDeadline, k.now))
  }

  /** `cancel_with_cleanup_grace`: a drain past its grace is not a hard timeout of the turn. */
  function CancelledWithGrace(c: Client, k: CancelCall, grace: Time): (Client, Result<StopReason, AcpError>) {
    var (d, r) := CancelledUntil(c.(currentHardDeadline := None), k, k.now + grace);
    (d, if r.Err? && r.error.HardTimeout? then Err(CancelDrainTimeout(grace)) else r)
  }

  // Sequences of calls.

  datatype Call =
    | Initializing(params: Json, write: Write, lines: seq<Line>)
    | InstallSteer
    | ClearSteer
    | Prompting(prompt: PromptCall)
    | Cancelling(cancel: CancelCall)
    | CancellingWithin(cancel: CancelCall, grace: Time)
    | Requesting(body: Body, write: Write, lines: seq<Line>)

  function Called(c: Client, call: Call): Client {
    match call
    case Initializing(params, write, lines) => Initialized(c, params, write, lines).0
    case InstallSteer => c.(steerInstalled := true)
    case ClearSteer => c.(steerInstalled := false)
    case Prompting(p) => Prompted(c, p).0
    case Cancelling(k) => CancelledWithCleanup(c, k).0
    case CancellingWithin(k, grace) => CancelledWithGrace(c, k, grace).0
    case Requesting(body, write, lines) => Requested(c, body, write, lines).0
  }

  function AfterCalls(c: Client, calls: seq<Call>): Client
    decreases |calls|
  {
    if calls == [] then c else AfterCalls(Called(c, calls[0]), calls[1..])
  }

  /** A steer receiver is installed only just before a prompt (or cleared again). */
  predicate WellOrdered(calls: seq<Call>) {
    forall i :: 0 <= i < |calls| - 1 && calls[i].InstallSteer? ==>
      calls[i + 1].Prompting? || calls[i + 1].ClearSteer?
  }

  /** Whether a call leaves a prompt in flight: a prompt that times out does, a cancel never. */
  predicate LeavesInFlight(c: Client, call: Call, before: bool) {
    match call
    case Prompting(p) => IsTimeout(Prompted(c, p).1)
    case Cancelling(_) => false
    case CancellingWithin(_, _) => false
    case _ => before
  }

  /** The same for a sequence of calls: the last prompt or cancel among them decides. */
  predicate AllLeaveInFlight(c: Client, calls: seq<Call>, before: bool)
    decreases |calls|
  {
    if calls == [] then before
    else AllLeaveInFlight(Called(c, calls[0]), calls[1..], LeavesInFlight(c, calls[0], before))
  }

  /** A prompt in flight and a hard deadline go together. */
  predicate Paired(c: Client) {
    ClientOk(c) && (c.lastPromptId.Some? <==> c.currentHardDeadline.Some?)
  }

  /** Between calls no steer receiver is left over while a prompt is in flight. */
  predicate Resting(c: Client) {
    Paired(c) && (c.lastPromptId.Some? ==> !c.steerInstalled)
  }

  lemma FieldsKeepClient(c: Client, d: Client)
    requires ClientOk(c) && d.wire == c.wire && d.asked == c.asked && d.nextId == c.nextId
    requires d.pendingPermissionId == c.pendingPermissionId && d.permissionResponded == c.permissionResponded
    requires d.lastPromptId == c.lastPromptId || d.lastPromptId.None? || d.lastPromptId.value < d.nextId
    ensures ClientOk(d)
  {
    assert IdsIncrease(d);
  }

  lemma {:induction false} ResponseKeepsClient(c: Client, id: nat, lines: seq<Line>)
    requires ClientOk(c)
    ensures ClientOk(Responded(c, id, lines).0) && SameTurn(c, Responded(c, id, lines).0)
    decreases |lines|
  {
    hide ClientOk, Dispatched, IsReplyTo;
    if lines != [] {
      match lines[0].frame
      case Message(msg) =>
        DispatchKeepsClient(c, msg, lines[0].write);
        DispatchFrame(c, msg, lines[0].write);
        ResponseKeepsClient(Dispatched(c, msg, lines[0].write).0, id, lines[1..]);
      case Blank => ResponseKeepsClient(c, id, lines[1..]);
      case NotJson => ResponseKeepsClient(c, id, lines[1..]);
      case _ =>
    }
  }

  lemma RequestLeavesTurnAlone(c: Client, body: Body, write: Write, lines: seq<Line>)
    requires ClientOk(c)
    ensures var d := Requested(c, body, write, lines).0;
      && ClientOk(d) && d.nextId == c.nextId + 1
      && d.lastPromptId == c.lastPromptId && d.currentHardDeadline == c.currentHardDeadline
      && d.steerInstalled == c.steerInstalled
  {
    hide ClientOk, Responded;
    RequestKeepsClient(c, body, write);
    var sent := Sent(c.(nextId := c.nextId + 1), Request(c.nextId, body), write);
    SentFrame(c.(nextId := c.nextId + 1), Request(c.nextId, body), write);
    ResponseKeepsClient(sent, c.nextId, lines);
  }

  /**
   The plain wait is the same filter: with the first awaited response in line `k`, it returns what that
   response reports, unless it already ended among the lines before.
   */
  lemma {:induction false} FirstPlainResponseIsReturned(c: Client, id: nat, lines: seq<Line>, k: nat)
    requires k < |lines| && lines[k].frame.Message? && Responds(lines[k].frame.msg, id)
    requires forall i :: 0 <= i < k && lines[i].frame.Message? ==> !Responds(lines[i].frame.msg, id)
    ensures var ((d, before), (e, outcome)) := (Responded(c, id, lines[..k]), Responded(c, id, lines));
      && e == d
      && if before == Err(Timeout(60_000)) then AnswersWith(lines[k].frame.msg, outcome) else outcome == before
    decreases k
  {
    hide IsReplyTo, Responds, AnswerOf, AnswersWith;
    if k == 0 {
      ResponseIsRead(lines[0].frame.msg, id);
    } else {
      assert lines[k] == lines[1..][k - 1] && lines[..k][1..] == lines[1..][..k - 1];
      assert forall i :: 1 <= i < k ==> lines[i] == lines[1..][i - 1];
      var d := if lines[0].frame.Message? then Dispatched(c, lines[0].frame.msg, lines[0].write).0 else c;
      if lines[0].frame.Message? {
        ResponseIsRead(lines[0].frame.msg, id);
        DispatchNeverTimesOut(c, lines[0]);
      }
      hide Dispatched;
      FirstPlainResponseIsReturned(d, id, lines[1..], k - 1);
    }
  }

  /** Any other line: what it does, and whether and how it ends the wait. */
  lemma PlainLineIsRead(c: Client, id: nat, line: Line, lines: seq<Line>)
      returns (d: Client, error: Option<AcpError>, added: seq<Wire>)
    ensures Responded(c, id, []) == (c, Err(Timeout(60_000)))
    ensures var r := Responded(c, id, [line] + lines);
      match line.frame
      case Eof => r == (c, Err(AgentExited))
      case TooLong => r == (c, Err(Protocol(LineTooLong)))
      case ReadFailed => r == (c, Err(Io))
      case Blank => r == Responded(c, id, lines)
      case NotJson => r == Responded(c, id, lines)
      case Message(msg) =>
        if Responds(msg, id) then r.0 == c && AnswersWith(msg, r.1)
        else
          && DispatchReads(c, msg, line.write, d, error, added)
          && r == if error.Some? then (d, Err(error.value)) else Responded(d, id, lines)
  {
    hide IsReplyTo, Responds, AnswerOf, AnswersWith, DispatchReads, Dispatched;
    d, error, added := c, None, [];
    assert ([line] + lines)[1..] == lines;
    match line.frame {
      case Message(msg) =>
        ResponseIsRead(msg, id);
        d, error := Dispatched(c, msg, line.write).0, Dispatched(c, msg, line.write).1;
        added := DispatchIsRead(c, msg, line.write);
      case _ =>
    }
  }

  /** A request is written under the next id and then awaited; one that cannot be written is over. */
  lemma RequestIsThisWait(c: Client, body: Body, write: Write, lines: seq<Line>)
    ensures Requested(c, body, write, lines) ==
      var next := c.(nextId := c.nextId + 1);
      match write
      case Some(error) => (next, Err(error))
      case None => Responded(next.(wire := c.wire + [Request(c.nextId, body)]), c.nextId, lines)
  {
  }

  /** A request returns what the first response under its id reports, be it a result or an error. */
  lemma RequestReportsResponse(c: Client, body: Body, lines: seq<Line>, k: nat)
    requires k < |lines| && lines[k].frame.Message? && Responds(lines[k].frame.msg, c.nextId)
    requires forall i :: 0 <= i < k && lines[i].frame.Message? ==> !Responds(lines[i].frame.msg, c.nextId)
    ensures var (before, after) := (Requested(c, body, None, lines[..k]).1, Requested(c, body, None, lines).1);
      if before == Err(Timeout(60_000)) then AnswersWith(lines[k].frame.msg, after) else after == before
  {
    hide Responded, Responds, AnswersWith;
    var sent := c.(nextId := c.nextId + 1, wire := c.wire + [Request(c.nextId, body)]);
    RequestIsThisWait(c, body, None, lines);
    RequestIsThisWait(c, body, None, lines[..k]);
    FirstPlainResponseIsReturned(sent, c.nextId, lines, k);
  }

  /** `initialize` learns from the result alone whether the agent can be steered by the extension. */
  lemma CapabilityIsRead(c: Client, params: Json, write: Write, lines: seq<Line>)
    ensures var ((d, r), (e, outcome)) :=
        (Requested(c, Rpc("initialize", params), write, lines), Initialized(c, params, write, lines));
      && outcome == r
      && e == if r.Err? then d
              else d.(steeringSupported := At(r.value, ["_meta", "steering", "supported"]) == Some(Bool(true)))
  {
    hide Requested, At;
  }

  lemma DispatchNeverTimesOut(c: Client, line: Line)
    requires line.frame.Message?
    ensures var e := Dispatched(c, line.frame.msg, line.write).1;
      e.Some? ==> !e.value.Timeout? && !e.value.IdleTimeout? && !e.value.HardTimeout?
  {}

  // One prompt, one cancel.

  lemma StepTimesOut(w: Wait, s: Loop, p: Poll)
    requires Step(w, s, p).Done?
    ensures IsTimeout(Step(w, s, p).outcome) <==> Step(w, s, p).exit.TimedOut?
  {
    if p.arrival.Read? && p.arrival.frame.Message? {
      DispatchNeverTimesOut(s.client, Line(p.arrival.frame, p.write));
    }
    hide Dispatched, SelectTransport;
  }

  lemma {:induction false} RunTimesOut(w: Wait, s: Loop, polls: seq<Poll>)
    ensures IsTimeout(Run(w, s, polls).outcome) <==> Run(w, s, polls).exit.TimedOut?
    decreases |polls|
  {
    hide Step;
    if polls != [] {
      match Step(w, s, polls[0])
      case Go(t) => RunTimesOut(w, t, polls[1..]);
      case Done(_, _, _) => StepTimesOut(w, s, polls[0]);
    }
  }

  lemma PromptSentIsOk(c: Client, p: PromptCall)
    requires ClientOk(c)
    ensures ClientOk(PromptSent(c, p))
    ensures PromptSent(c, p).nextId == c.nextId + 1
    ensures PromptSent(c, p).lastPromptId == Some(c.nextId)
    ensures PromptSent(c, p).currentHardDeadline == Some(p.now + p.maxDuration)
  {
    hide ClientOk, Sent;
    var body, next := Prompt(p.session, p.blocks), c.(nextId := c.nextId + 1);
    RequestKeepsClient(c, body, p.write);
    SentFrame(next, Request(c.nextId, body), p.write);
    FieldsKeepClient(Sent(next, Request(c.nextId, body), p.write), PromptSent(c, p));
  }

  lemma PromptEntryIsOk(c: Client, p: PromptCall)
    requires ClientOk(c)
    ensures ClientOk(PromptSent(c, p)) && LoopOk(PromptWait(c, p), PromptEntered(c, p))
    ensures PromptSent(c, p).nextId == c.nextId + 1
    ensures PromptSent(c, p).lastPromptId == Some(c.nextId)
    ensures PromptSent(c, p).currentHardDeadline == Some(p.now + p.maxDuration)
  {
    hide ClientOk, LoopOk, PromptSent, Entered;
    PromptSentIsOk(c, p);
    EntryIsOk(PromptSent(c, p), PromptWait(c, p), p.entered, p.now + p.maxDuration);
  }

  /** The stop reason that a result names, in whatever case. */
  predicate StopsWith(result: Json, r: Result<StopReason, AcpError>) {
    match At(result, ["stopReason"])
    case Some(Str(raw)) =>
      if SameLetters(raw, "end_turn") then r == Ok(EndTurn)
      else if SameLetters(raw, "cancelled") then r == Ok(StoppedByCancel)
      else if SameLetters(raw, "max_tokens") then r == Ok(MaxTokens)
      else if SameLetters(raw, "max_turn_requests") then r == Ok(MaxTurnRequests)
      else if SameLetters(raw, "refusal") then r == Ok(Refusal)
      else r == Err(Protocol(UnknownStopReason(raw)))
    case _ => r == Err(Protocol(MissingStopReason))
  }

  /** What a call reports of how its wait ended: an error as it is, a result by its stop reason. */
  predicate Reports(outcome: Result<Json, AcpError>, r: Result<StopReason, AcpError>) {
    match outcome
    case Err(error) => r == Err(error)
    case Ok(result) => StopsWith(result, r)
  }

  lemma StopReasonIsRead(outcome: Result<Json, AcpError>)
    ensures Reports(outcome, StopReasonOfOutcome(outcome))
  {
    hide AsciiLower, SameLetters;
    if outcome.Ok? {
      AtMember(outcome.value, "stopReason");
      if outcome.value.Get("stopReason").Some? && outcome.value.Get("stopReason").value.Str? {
        var raw := outcome.value.Get("stopReason").value.s;
        LowerIsSameLetters(raw, "end_turn");
        LowerIsSameLetters(raw, "cancelled");
        LowerIsSameLetters(raw, "max_tokens");
        LowerIsSameLetters(raw, "max_turn_requests");
        LowerIsSameLetters(raw, "refusal");
      }
    }
  }

  /**
   A prompt whose write succeeds is the run of the loop that waits for its id, from the client that
   has written it, and reports how that ends; one that cannot be written is over.
   */
  lemma PromptIsThisRun(c: Client, p: PromptCall)
    ensures var (d, r) := Prompted(c, p);
      if p.write.Some? then
        r == Err(p.write.value) && d == c.(nextId := c.nextId + 1, lastPromptId := None, currentHardDeadline := None)
      else
        var begun := c.(
          nextId := c.nextId + 1, lastPromptId := Some(c.nextId), steerInstalled := false,
          currentHardDeadline := Some(p.now + p.maxDuration),
          wire := c.wire + [Request(c.nextId, Prompt(p.session, p.blocks))]);
        var end := Run(
          Wait(p.session, c.nextId, p.idleTimeout, p.maxDuration, c.steerInstalled),
          Loop(begun, None, p.entered + p.idleTimeout, p.now + p.maxDuration, p.entered, [], [], 0), p.polls);
        && Reports(end.outcome, r)
        && d == if IsTimeout(r) then end.loop.client
                else end.loop.client.(lastPromptId := None, currentHardDeadline := None)
  {
    hide Run, StopReasonOfOutcome, Reports;
    if p.write.None? {
      var w, s := PromptWait(c, p), PromptEntered(c, p);
      StopReasonIsRead(Run(w, s, p.polls).outcome);
      StopReasonIsNoTimeout(Run(w, s, p.polls).outcome);
    }
  }

  lemma StopReasonIsNoTimeout(outcome: Result<Json, AcpError>)
    ensures IsTimeout(StopReasonOfOutcome(outcome)) <==> IsTimeout(outcome)
  {
    hide AsciiLower;
  }

  /**
   After a prompt the turn is over, unless it timed out: then, and only then, the prompt is still in
   flight, under its own id, with its deadline as last renewed, and its steer receiver is gone.
   */
  lemma PromptKeepsPairing(c: Client, p: PromptCall)
    requires ClientOk(c)
    ensures var (d, r) := Prompted(c, p);
      && Resting(d)
      && (d.lastPromptId.Some? <==> IsTimeout(r))
      && (IsTimeout(r) ==>
            && d.lastPromptId == Some(c.nextId)
            && d.currentHardDeadline.value >= p.now + p.maxDuration)
  {
    hide ClientOk, LoopOk, Run, PromptSent, StopReasonOf;
    PromptEntryIsOk(c, p);
    var w, s := PromptWait(c, p), PromptEntered(c, p);
    if p.write.None? {
      EverySteerIsAcknowledged(w, s, p.polls);
      ClientSharesHardDeadline(w, s, p.polls);
      StopReasonIsNoTimeout(Run(w, s, p.polls).outcome);
      var d := Run(w, s, p.polls).loop.client;
      FieldsKeepClient(d, NotInFlight(d));
    } else {
      FieldsKeepClient(PromptSent(c, p), NotInFlight(PromptSent(c, p)));
    }
  }

  /** The cancel gets as far as draining the turn: a prompt is in flight and its writes succeed. */
  predicate Drains(c: Client, k: CancelCall) {
    && c.lastPromptId.Some? && k.cancelWrite.None?
    && (c.pendingPermissionId.Some? && !c.permissionResponded ==> k.replyWrite.None?)
  }

  /** A prompt that gets its response reports the error in it, or the stop reason of the result in it. */
  lemma PromptReportsResponse(c: Client, p: PromptCall)
    requires ClientOk(c) && p.write.None?
    ensures var w, s := PromptWait(c, p), PromptEntered(c, p);
      var n, end := Passes(w, s, p.polls), Run(w, s, p.polls);
      end.exit.Answered? ==>
        && n > 0 && p.polls[n - 1].arrival.Read? && p.polls[n - 1].arrival.frame.Message?
        && Responds(p.polls[n - 1].arrival.frame.msg, c.nextId)
        && AnswersWith(p.polls[n - 1].arrival.frame.msg, end.outcome)
        && Reports(end.outcome, Prompted(c, p).1)
  {
    hide ClientOk, LoopOk, Run, Passes, PromptEntered, StopReasonOfOutcome, Responds, AnswersWith, Reports;
    PromptEntryIsOk(c, p);
    var w, s := PromptWait(c, p), PromptEntered(c, p);
    FirstResponseIsReturned(w, s, p.polls);
    StopReasonIsRead(Run(w, s, p.polls).outcome);
  }

  /** The messages with which a cancel begins, in order. */
  function CancelMessages(c: Client, session: string): seq<Wire> {
    (if c.pendingPermissionId.Some? && !c.permissionResponded
     then [PermissionReply(c.pendingPermissionId.value, Cancelled)] else [])
    + [CancelNotice(session)]
  }

  /** The client once they are written. */
  function CancelBegun(c: Client, session: string): Client {
    c.(lastPromptId := None, currentHardDeadline := None, steerInstalled := false, pendingPermissionId := None,
       permissionResponded := c.pendingPermissionId.None? && c.permissionResponded,
       wire := c.wire + CancelMessages(c, session))
  }

  /** The run that drains the turn: it waits for the prompt's own response, 30 seconds of silence at most. */
  function DrainRun(c: Client, k: CancelCall, deadline: Time): (end: Next)
    requires c.lastPromptId.Some?
    ensures end.Done?
  {
    Run(Wait(k.session, c.lastPromptId.value, 30_000,
             if deadline >= k.resumed then deadline - k.resumed else 0, c.steerInstalled),
        Loop(CancelBegun(c, k.session), None, k.entered + 30_000, deadline, k.entered, [], [], 0), k.polls)
  }

  lemma DrainIsThisRun(c: Client, k: CancelCall, deadline: Time)
    requires Drains(c, k)
    ensures var (d, r) := CancelledUntil(c.(currentHardDeadline := None), k, deadline);
      d == DrainRun(c, k, deadline).loop.client && Reports(DrainRun(c, k, deadline).outcome, r)
  {
    hide Run, StopReasonOfOutcome, Reports;
    var taken, id := c.(currentHardDeadline := None), c.lastPromptId.value;
    var w, s := DrainWait(taken, id, k, deadline), DrainEntered(taken, id, k, deadline);
    assert s.client.wire == CancelBegun(c, k.session).wire;
    assert s.client == CancelBegun(c, k.session);
    StopReasonIsRead(Run(w, s, k.polls).outcome);
  }

  /**
   What a cancel of a prompt in flight puts on the wire: the answer to a permission request still open,
   then one cancel notice, then only what the drain writes; if one of the two cannot be written, that
   is the end of it, with nothing written but what came before.
   */
  predicate WritesCancel(c: Client, k: CancelCall, d: Client) {
    var open := c.pendingPermissionId.Some? && !c.permissionResponded;
    if Drains(c, k) then
      && c.wire + CancelMessages(c, k.session) <= d.wire
      && OnlyLoopMessages(d.wire[|c.wire + CancelMessages(c, k.session)|..])
    else if open && k.replyWrite.Some? then d.wire == c.wire
    else d.wire == c.wire + if open then [PermissionReply(c.pendingPermissionId.value, Cancelled)] else []
  }

  lemma CancelIsWritten(c: Client, k: CancelCall, deadline: Time)
    requires c.lastPromptId.Some?
    ensures var (d, r) := CancelledUntil(c.(currentHardDeadline := None), k, deadline);
      && WritesCancel(c, k, d)
      && (!Drains(c, k) ==> r == Err(
           if c.pendingPermissionId.Some? && !c.permissionResponded && k.replyWrite.Some?
           then k.replyWrite.value else k.cancelWrite.value))
  {
    hide Run, StopReasonOfOutcome, Reports;
    if Drains(c, k) {
      DrainIsThisRun(c, k, deadline);
      WaitWrites(
        Wait(k.session, c.lastPromptId.value, 30_000,
             if deadline >= k.resumed then deadline - k.resumed else 0, c.steerInstalled),
        Loop(CancelBegun(c, k.session), None, k.entered + 30_000, deadline, k.entered, [], [], 0), k.polls);
    }
  }

  lemma CancelsAreWritten(c: Client, k: CancelCall, grace: Time)
    requires c.lastPromptId.Some?
    ensures WritesCancel(c, k, CancelledWithCleanup(c, k).0)
    ensures WritesCancel(c, k, CancelledWithGrace(c, k, grace).0)
  {
    hide CancelledUntil, WritesCancel;
    CancelIsWritten(c, k, CancelDeadline(c.currentHardDeadline, k.now));
    CancelIsWritten(c, k, k.now + grace);
  }

  /**
   Both cancels, as seen from outside. The inheriting one drains until the later of the deadline of
   the turn and 30 seconds from now; the other for its grace, and reports running out of that as such.
   */
  lemma CancelsAreTheseRuns(c: Client, k: CancelCall, grace: Time)
    requires Drains(c, k)
    ensures var inherited := match c.currentHardDeadline
        case Some(deadline) => Max(deadline, k.now + 30_000)
        case None => k.now + 30_000;
      var end, (d, r) := DrainRun(c, k, inherited), CancelledWithCleanup(c, k);
      d == end.loop.client && Reports(end.outcome, r)
    ensures var end, (d, r) := DrainRun(c, k, k.now + grace), CancelledWithGrace(c, k, grace);
      && d == end.loop.client
      && if end.outcome.Err? && end.outcome.error.HardTimeout? then r == Err(CancelDrainTimeout(grace))
         else Reports(end.outcome, r)
  {
    hide CancelledUntil, DrainRun, StopsWith;
    DrainIsThisRun(c, k, CancelDeadline(c.currentHardDeadline, k.now));
    DrainIsThisRun(c, k, k.now + grace);
    var r := CancelledUntil(c.(currentHardDeadline := None), k, k.now + grace).1;
    NoStopIsTimeout(DrainRun(c, k, k.now + grace).outcome, r);
  }

  lemma NoStopIsTimeout(outcome: Result<Json, AcpError>, r: Result<StopReason, AcpError>)
    requires Reports(outcome, r)
    ensures r.Err? && r.error.HardTimeout? <==> outcome.Err? && outcome.error.HardTimeout?
  {
  }

  lemma PermissionCancelKeepsClient(c: Client)
    requires ClientOk(c)
    ensures ClientOk(PermissionCancelled(c)) && SameTurn(c, PermissionCancelled(c))
  {
    if c.pendingPermissionId.Some? {
      ReplyKeepsClient(c, c.pendingPermissionId.value, Cancelled, false);
    }
    hide ClientOk;
  }

  lemma DrainEntryIsOk(c: Client, id: nat, k: CancelCall, deadline: Time)
    requires ClientOk(c) && c.lastPromptId == Some(id)
    ensures ClientOk(PermissionCancelled(c.(lastPromptId := None)))
    ensures LoopOk(DrainWait(c, id, k, deadline), DrainEntered(c, id, k, deadline))
    ensures var e := DrainEntered(c, id, k, deadline).client;
      && e.lastPromptId == None && e.currentHardDeadline == c.currentHardDeadline && !e.steerInstalled
    ensures DrainWait(c, id, k, deadline).steerable == c.steerInstalled
    ensures DrainEntered(c, id, k, deadline).pending.None?
    ensures DrainEntered(c, id, k, deadline).renewals == 0
  {
    var taken := c.(lastPromptId := None);
    var quiet := PermissionCancelled(taken);
    PromptIdIsOld(c);
    hide ClientOk, PermissionCancelled, Sent, Max, LoopOk;
    FieldsKeepClient(c, taken);
    PermissionCancelKeepsClient(taken);
    SentKeepsClient(quiet, CancelNotice(k.session), None);
    var told := Sent(quiet, CancelNotice(k.session), None);
    SentFrame(quiet, CancelNotice(k.session), None);
    FieldsKeepClient(told, told.(steerInstalled := false));
    EntryIsOk(told, DrainWait(c, id, k, deadline), k.entered, deadline);
  }

  lemma PromptIdIsOld(c: Client)
    requires ClientOk(c) && c.lastPromptId.Some?
    ensures c.lastPromptId.value < c.nextId
  {}

  /**
   A cancel always ends the turn. It leaves a hard deadline behind exactly when a steer was injected
   during the drain, which needs a receiver that should not be there.
   */
  lemma CancelEndsTurn(c: Client, k: CancelCall, deadline: Time)
    requires ClientOk(c) && c.currentHardDeadline == None
    ensures var d := CancelledUntil(c, k, deadline).0;
      && ClientOk(d) && d.lastPromptId == None
      && (c.lastPromptId == None ==> d == c)
      && (d.currentHardDeadline.Some? <==>
            && Drains(c, k)
            && var id := c.lastPromptId.value;
               Run(DrainWait(c, id, k, deadline), DrainEntered(c, id, k, deadline), k.polls).loop.renewals > 0)
      && (c.lastPromptId == None || !c.steerInstalled ==> d.currentHardDeadline == None)
  {
    hide ClientOk, LoopOk, Run, DrainWait, DrainEntered, PermissionCancelled, StopReasonOf;
    if c.lastPromptId.Some? {
      var id := c.lastPromptId.value;
      var taken := c.(lastPromptId := None);
      FieldsKeepClient(c, taken);
      PermissionCancelKeepsClient(taken);
      DrainEntryIsOk(c, id, k, deadline);
      var w, s := DrainWait(c, id, k, deadline), DrainEntered(c, id, k, deadline);
      EverySteerIsAcknowledged(w, s, k.polls);
      ClientSharesHardDeadline(w, s, k.polls);
      if !c.steerInstalled {
        NoReceiverNoSteers(w, s, k.polls);
      }
    }
  }

  lemma CancelsKeepResting(c: Client, k: CancelCall, grace: Time)
    requires Resting(c)
    ensures Resting(CancelledWithCleanup(c, k).0) && CancelledWithCleanup(c, k).0.lastPromptId == None
    ensures Resting(CancelledWithGrace(c, k, grace).0) && CancelledWithGrace(c, k, grace).0.lastPromptId == None
  {
    hide ClientOk, CancelledUntil;
    var taken := c.(currentHardDeadline := None);
    FieldsKeepClient(c, taken);
    CancelEndsTurn(taken, k, CancelDeadline(c.currentHardDeadline, k.now));
    CancelEndsTurn(taken, k, k.now + grace);
  }

  /** With no prompt in flight a cancel writes nothing, reads nothing and reports just that. */
  lemma CancelWithoutPromptDoesNothing(c: Client, k: CancelCall, grace: Time)
    requires c.lastPromptId == None
    ensures CancelledWithCleanup(c, k) == (c.(currentHardDeadline := None), Err(Protocol(NoPromptInFlight)))
    ensures CancelledWithGrace(c, k, grace) == (c.(currentHardDeadline := None), Err(Protocol(NoPromptInFlight)))
  {}

  /** The latest reading a drain without renewals may make: its deadline, and a late pass. */
  lemma DrainEndsInTime(c: Client, id: nat, k: CancelCall, deadline: Time, d: Time)
    requires !c.steerInstalled
    requires LateByAtMost(DrainWait(c, id, k, deadline), DrainEntered(c, id, k, deadline), k.polls, d)
    ensures forall i :: 0 <= i < Passes(DrainWait(c, id, k, deadline), DrainEntered(c, id, k, deadline), k.polls) ==>
      Latest(k.polls[i]) <= deadline + d
  {
    var w, s := DrainWait(c, id, k, deadline), DrainEntered(c, id, k, deadline);
    hide PermissionCancelled, Sent;
    assert s.hardDeadline == deadline && s.renewals == 0 && s.pending == None && !w.steerable;
    var begun: Time := deadline - w.maxDuration;
    assert Budget(w, begun, 0, d) == deadline;
    TurnEndsInTime(w, s, k.polls, begun, d);
    NoReceiverNoSteers(w, s, k.polls);
  }

  /** The drain of either cancel. */
  function CancelDrain(c: Client, k: CancelCall, deadline: Time): (Wait, Loop)
    requires c.lastPromptId.Some?
  {
    var taken := c.(currentHardDeadline := None);
    (DrainWait(taken, c.lastPromptId.value, k, deadline), DrainEntered(taken, c.lastPromptId.value, k, deadline))
  }

  /**
   The inheriting cancel drains the turn until the deadline the turn had, or for 30 seconds if that
   is later; the other one for its grace. Neither makes a clock reading more than a late pass after.
   */
  lemma CancelEndsInTime(c: Client, k: CancelCall, grace: Time, deadline: Time, d: Time)
    requires Resting(c) && Drains(c, k)
    requires deadline == k.now + grace || deadline == Max(k.now + 30_000, c.currentHardDeadline.value)
    requires var (w, s) := CancelDrain(c, k, deadline); LateByAtMost(w, s, k.polls, d)
    ensures var (w, s) := CancelDrain(c, k, deadline);
      && (deadline == Max(k.now + 30_000, c.currentHardDeadline.value) ==>
            CancelledWithCleanup(c, k).0 == Run(w, s, k.polls).loop.client)
      && (deadline == k.now + grace ==> CancelledWithGrace(c, k, grace).0 == Run(w, s, k.polls).loop.client)
      && forall i :: 0 <= i < Passes(w, s, k.polls) ==> Latest(k.polls[i]) <= deadline + d
  {
    DrainEndsInTime(c.(currentHardDeadline := None), c.lastPromptId.value, k, deadline, d);
    hide Run, DrainWait, DrainEntered, StopReasonOf, ClientOk;
    assert CancelDeadline(c.currentHardDeadline, k.now) == Max(k.now + 30_000, c.currentHardDeadline.value);
  }

  predicate AllCancels(calls: seq<Call>) {
    forall i :: 0 <= i < |calls| ==> calls[i].Cancelling? || calls[i].CancellingWithin?
  }

  lemma {:induction false} NothingLeftToCancel(c: Client, cancels: seq<Call>)
    requires Resting(c) && c.lastPromptId.None? && AllCancels(cancels)
    ensures AfterCalls(c, cancels) == c
  {
    if cancels != [] {
      match cancels[0] {
        case Cancelling(k) => CancelWithoutPromptDoesNothing(c, k, 0);
        case CancellingWithin(k, grace) => CancelWithoutPromptDoesNothing(c, k, grace);
      }
      assert c.(currentHardDeadline := None) == c;
      hide CancelledWithCleanup, CancelledWithGrace, Resting;
      NothingLeftToCancel(c, cancels[1..]);
    }
  }

  /** Cancelling more than once is cancelling once: whatever the first did, the others do nothing. */
  lemma FurtherCancelsDoNothing(c: Client, first: Call, others: seq<Call>)
    requires Resting(c) && AllCancels([first] + others)
    ensures AfterCalls(c, [first] + others) == Called(c, first)
  {
    assert ([first] + others)[0] == first && ([first] + others)[1..] == others;
    assert forall i :: 0 <= i < |others| ==> others[i] == ([first] + others)[i + 1];
    hide ClientOk, Prompted, Requested, Initialized, CancelledWithCleanup, CancelledWithGrace;
    match first {
      case Cancelling(k) => CancelsKeepResting(c, k, 0);
      case CancellingWithin(k, grace) => CancelsKeepResting(c, k, grace);
    }
    NothingLeftToCancel(Called(c, first), others);
  }

  predicate AwaitsPrompt(calls: seq<Call>) {
    calls != [] && (calls[0].Prompting? || calls[0].ClearSteer?)
  }

  lemma CallKeepsPairing(c: Client, call: Call)
    requires Paired(c) && (Resting(c) || call.Prompting? || call.ClearSteer?)
    ensures Paired(Called(c, call))
    ensures Called(c, call).lastPromptId.Some? == LeavesInFlight(c, call, c.lastPromptId.Some?)
    ensures !call.InstallSteer? ==> Resting(Called(c, call))
  {
    hide ClientOk, Prompted, CancelledWithCleanup, CancelledWithGrace, Requested, AdvertisesSteering;
    match call
    case Initializing(params, write, lines) =>
      RequestLeavesTurnAlone(c, Rpc("initialize", params), write, lines);
      var d := Requested(c, Rpc("initialize", params), write, lines).0;
      FieldsKeepClient(d, Called(c, call));
    case InstallSteer => FieldsKeepClient(c, Called(c, call));
    case ClearSteer => FieldsKeepClient(c, Called(c, call));
    case Prompting(p) => PromptKeepsPairing(c, p);
    case Cancelling(k) => CancelsKeepResting(c, k, 0);
    case CancellingWithin(k, grace) => CancelsKeepResting(c, k, grace);
    case Requesting(body, write, lines) => RequestLeavesTurnAlone(c, body, write, lines);
  }

  /**
   Over any sequence of calls in which receivers are installed only just before a prompt: a prompt
   is in flight exactly when the last prompt or cancel was a prompt that timed out, exactly then
   there is a hard deadline, ids on the wire strictly increase, and no permission request is
   answered twice.
   */
  lemma {:induction false} CallsKeepPairing(c: Client, calls: seq<Call>)
    requires Paired(c) && WellOrdered(calls)
    requires Resting(c) || AwaitsPrompt(calls) || calls == []
    ensures Paired(AfterCalls(c, calls))
    ensures AfterCalls(c, calls).lastPromptId.Some? == AllLeaveInFlight(c, calls, c.lastPromptId.Some?)
    decreases |calls|
  {
    if calls != [] {
      assert forall i :: 0 <= i < |calls[1..]| ==> calls[1..][i] == calls[i + 1];
      hide ClientOk, Called, LeavesInFlight;
      CallKeepsPairing(c, calls[0]);
      CallsKeepPairing(Called(c, calls[0]), calls[1..]);
    }
  }

  /** The client as spawned. */
  const SPAWNED := Client(0, None, None, None, false, None, false, false, [], [])

  /** Whatever sequence of calls follows the spawn, the pairing holds at every return. */
  lemma PairedSinceSpawn(calls: seq<Call>, n: nat)
    requires WellOrdered(calls) && n <= |calls|
    ensures Paired(AfterCalls(SPAWNED, calls[..n]))
    ensures AfterCalls(SPAWNED, calls[..n]).lastPromptId.Some? == AllLeaveInFlight(SPAWNED, calls[..n], false)
  {
    assert forall i :: 0 <= i < |calls[..n]| ==> calls[..n][i] == calls[i];
    assert Resting(SPAWNED);
    CallsKeepPairing(SPAWNED, calls[..n]);
  }

  /**
   A turn steered into `k` times makes no clock reading later than `(k + 1) * (maxDuration + d)` after
   its deadline was set, if no pass of the loop is late by more than `d`.
   */
  lemma PromptEndsInTime(c: Client, p: PromptCall, d: Time)
    requires p.write.None? && LateByAtMost(PromptWait(c, p), PromptEntered(c, p), p.polls, d)
    ensures var w, s := PromptWait(c, p), PromptEntered(c, p);
      var k := Run(w, s, p.polls).loop.renewals;
      forall i :: 0 <= i < Passes(w, s, p.polls) ==>
        Latest(p.polls[i]) <= p.now + (k + 1) * (p.maxDuration + d)
  {
    var w, s := PromptWait(c, p), PromptEntered(c, p);
    var k := Run(w, s, p.polls).loop.renewals;
    assert Budget(w, p.now, 0, d) == p.now + p.maxDuration;
    TurnEndsInTime(w, s, p.polls, p.now, d);
    BudgetGrows(w, p.now, k, k, d);
    assert (k + 1) * (p.maxDuration + d) == k * (p.maxDuration + d) + (p.maxDuration + d);
  }

  /**
   The order of calls matters: with a receiver installed between a timed-out prompt and its cancel,
   a steer answered during the drain leaves a hard deadline without a prompt in flight.
   */
  lemma StrayReceiverBreaksPairing() returns (c: Client, calls: seq<Call>)
    ensures Resting(c) && !WellOrdered(calls) && !Paired(AfterCalls(c, calls))
  {
    hide Prompted, CancelledWithCleanup, ClientOk, IdsIncrease, PermissionsOk;
    c := SPAWNED.(activeRunId := Some("run"));
    SpawnedIsOk(c);
    var prompt := PromptCall("s", ["hi"], 10, 100_000, 0, None, 0, [Poll(10, Sleep, 10, 10, None)]);
    var steered, answered := Obj(map["id" := Num(1)]), Obj(map["id" := Num(0)]);
    var polls := [Poll(20, Steer(["go"]), 20, 20, None),
                  Poll(20, Read(Message(steered)), 20, 30, None),
                  Poll(30, Read(Message(answered)), 30, 30, None)];
    var cancel := CancelCall("s", 20, None, None, 20, 20, polls);
    IdlePrompt(c, prompt);
    StrayDrain(Called(Called(c, Prompting(prompt)), InstallSteer), cancel, steered, answered);
    calls := [Prompting(prompt), InstallSteer, Cancelling(cancel)];
    ThreeCalls(c, Prompting(prompt), InstallSteer, Cancelling(cancel));
    assert calls[1].InstallSteer? && calls[1 + 1] == Cancelling(cancel);
  }

  lemma ThreeCalls(c: Client, first: Call, second: Call, third: Call)
    ensures AfterCalls(c, [first, second, third]) == Called(Called(Called(c, first), second), third)
  {
    hide Called;
    assert [first, second, third][1..] == [second, third] && [second, third][1..] == [third];
    assert [third][1..] == [];
    var c1 := Called(c, first);
    var c2 := Called(c1, second);
    assert AfterCalls(c2, [third]) == AfterCalls(Called(c2, third), []);
    assert AfterCalls(c1, [second, third]) == AfterCalls(c2, [third]);
  }

  lemma SpawnedIsOk(c: Client)
    requires c.wire == [] && c.asked == [] && c.pendingPermissionId == None && c.lastPromptId == None
    ensures ClientOk(c)
  {}

  lemma IdlePrompt(c: Client, p: PromptCall)
    requires c == SPAWNED.(activeRunId := Some("run"))
    requires p == PromptCall("s", ["hi"], 10, 100_000, 0, None, 0, [Poll(10, Sleep, 10, 10, None)])
    ensures var d := Prompted(c, p).0;
      && d.lastPromptId == Some(0) && d.currentHardDeadline == Some(100_000) && d.nextId == 1
      && d.pendingPermissionId == None && d.activeRunId == Some("run")
  {}

  lemma StrayDrain(c: Client, k: CancelCall, steered: Json, answered: Json)
    requires c.lastPromptId == Some(0) && c.currentHardDeadline == Some(100_000) && c.steerInstalled
    requires c.nextId == 1 && c.pendingPermissionId == None && c.activeRunId == Some("run")
    requires steered == Obj(map["id" := Num(1)]) && answered == Obj(map["id" := Num(0)])
    requires k == CancelCall("s", 20, None, None, 20, 20,
                             [Poll(20, Steer(["go"]), 20, 20, None),
                              Poll(20, Read(Message(steered)), 20, 30, None),
                              Poll(30, Read(Message(answered)), 30, 30, None)])
    ensures var d := CancelledWithCleanup(c, k).0; d.lastPromptId == None && d.currentHardDeadline.Some?
  {
    var taken := c.(currentHardDeadline := None);
    var w, s := DrainWait(taken, 0, k, 100_000), DrainEntered(taken, 0, k, 100_000);
    assert CancelDeadline(c.currentHardDeadline, k.now) == 100_000;
    assert w.maxDuration == 99_980 && s.hardDeadline == 100_000 && s.idleDeadline == 30_020;
    var s1 := Step(w, s, k.polls[0]).loop;
    assert s1.pending == Some(Pending(1, Goose, 0)) && s1.hardDeadline == 100_000 && s1.idleDeadline == 30_020;
    var s2 := Step(w, s1, k.polls[1]).loop;
    assert s2.client.currentHardDeadline == Some(100_010) && s2.pending == None && s2.idleDeadline == 30_020;
    assert IsReplyTo(answered, 0);
    assert Step(w, s2, k.polls[2]).Done?;
    var rest := k.polls[1..];
    assert rest[0] == k.polls[1] && rest[1..][0] == k.polls[2];
    assert Run(w, s, k.polls) == Run(w, s1, rest) == Run(w, s2, rest[1..]);
  }

  // The steers that are dropped.

  /** An agent that says in its first response that it can be steered. */
  const STEERABLE := Obj(map["_meta" := Obj(map["steering" := Obj(map["supported" := Bool(true)])])])

  const GREETING := Obj(map["id" := Num(0), "result" := STEERABLE])

  /** Spawned, initialized, and given a steer receiver. */
  const READIED: seq<Call> :=
    [Initializing(Null, None, [Line(Message(GREETING), None)]), InstallSteer]

  const READY := Client(
    1, None, None, None, false, None, true, true, [Request(0, Rpc("initialize", Null))], [])

  lemma ReadiedIsReady()
    ensures AfterCalls(SPAWNED, READIED) == READY
  {
    var first, greeted := READIED[0], SPAWNED.(nextId := 1, wire := [Request(0, Rpc("initialize", Null))]);
    assert IsReplyTo(GREETING, 0) && AnswerOf(GREETING) == Ok(STEERABLE);
    assert Responded(greeted, 0, first.lines) == (greeted, Ok(STEERABLE));
    assert At(Bool(true), []) == Some(Bool(true));
    assert ["_meta", "steering", "supported"][1..] == ["steering", "supported"];
    assert ["steering", "supported"][1..] == ["supported"] && ["supported"][1..] == [];
    assert AdvertisesSteering(STEERABLE);
    assert Called(SPAWNED, first) == greeted.(steeringSupported := true);
    assert READIED[1..] == [InstallSteer] && READIED[1..][1..] == [];
    assert AfterCalls(Called(Called(SPAWNED, first), InstallSteer), []) == READY;
    assert AfterCalls(Called(SPAWNED, first), READIED[1..]) == READY;
  }

  /** A prompt during which a steer is taken, and then a message is read. */
  function SteeredPrompt(msg: Json, write: Write): PromptCall {
    PromptCall("s", ["hi"], 100, 1000, 0, None, 0,
               [Poll(1, Steer(["go"]), 1, 1, None), Poll(2, Read(Message(msg)), 2, 2, write)])
  }

  /** The steer is written and its wait ends by `?` with no acknowledgement sent. */
  predicate LosesSteer(c: Client, p: PromptCall) {
    var end := Run(PromptWait(c, p), PromptEntered(c, p), p.polls);
    && end.exit.Propagated? && end.loop.acks == []
    && end.loop.steers == [Written(2, AcpExtension)]
    && end.loop.client.wire ==
         c.wire + [Request(1, Prompt(p.session, p.blocks)), Request(2, ExtensionSteer(p.session, ["go"]))]
  }

  lemma FailedDispatchWritesNothing(c: Client, msg: Json, write: Write)
    requires DispatchFails(msg, write)
    ensures Dispatched(c, msg, write).0.wire == c.wire
  {
    hide Dispatched, Unanswerable, Picks, Options, RunAfter, PermissionAfter, RefusedWith;
    var added := DispatchIsRead(c, msg, write);
  }

  lemma SteeredPromptLoses(msg: Json, write: Write)
    requires DispatchFails(msg, write)
    ensures LosesSteer(READY, SteeredPrompt(msg, write))
  {
    var p := SteeredPrompt(msg, write);
    var w, s := PromptWait(READY, p), PromptEntered(READY, p);
    var t := Step(w, s, p.polls[0]).loop;
    assert t.pending == Some(Pending(2, AcpExtension, 0)) && t.acks == [];
    DispatchFailsExactly(t.client, msg, write);
    FailedDispatchWritesNothing(t.client, msg, write);
    assert p.polls[1..][0] == p.polls[1];
    assert Step(w, t, p.polls[1]).Done?;
  }

  /**
   The exit at the permission request: one without an id, read while a steer is pending, ends the
   prompt with the steer neither acknowledged nor let go.
   */
  lemma MalformedPermissionDropsSteer() returns (p: PromptCall)
    ensures LosesSteer(AfterCalls(SPAWNED, READIED), p)
  {
    ReadiedIsReady();
    var request := Obj(map["method" := Str("session/request_permission")]);
    p := SteeredPrompt(request, None);
    assert request.Get("id") == None && request.Get("method") == Some(Str("session/request_permission"));
    SteeredPromptLoses(request, None);
  }

  /** The exit at an unknown request: so does a refusal that cannot be written. */
  lemma FailedRefusalDropsSteer() returns (p: PromptCall)
    ensures LosesSteer(AfterCalls(SPAWNED, READIED), p)
  {
    ReadiedIsReady();
    var request := Obj(map["id" := Str("a"), "method" := Str("fs/read_text_file")]);
    p := SteeredPrompt(request, Some(Io));
    assert request.Get("id") == Some(Str("a")) && request.Get("method") == Some(Str("fs/read_text_file"));
    SteeredPromptLoses(request, Some(Io));
  }
}
