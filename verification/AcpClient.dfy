/**
 The ACP client as it is written: an object whose methods update its fields, and a read loop over
 local deadlines and one pending steer. Every method does exactly what AcpProtocol and AcpCalls say,
 so what is proved there over runs and call sequences holds of it.
 */
module AcpClientModule {
  import opened Wrappers
  import opened Json
  import opened Sequences
  import opened AcpProtocol
  import opened AcpCalls

  /** The variables of the read loop. */
  datatype Vars = Vars(
    pendingSteer: Option<Pending>, idleDeadline: Time, hardDeadline: Time, lastActivityAt: Time,
    received: nat, acks: seq<Acked>)

  class AcpClient {
    var nextId: nat
    var lastPromptId: Option<nat>
    var currentHardDeadline: Option<Time>
    var pendingPermissionId: Option<Json>
    var permissionResponded: bool
    var activeRunId: Option<string>
    var steeringSupported: bool
    var steerRx: bool
    ghost var wire: seq<Wire>
    ghost var asked: seq<Json>

    ghost function Abs(): Client
      reads this
    {
      Client(nextId, lastPromptId, currentHardDeadline, pendingPermissionId, permissionResponded,
             activeRunId, steeringSupported, steerRx, wire, asked)
    }

    /** The client and the loop's variables are what the run records. */
    ghost predicate Holds(s: Loop, v: Vars)
      reads this
    {
      && s.client == Abs() && s.pending == v.pendingSteer && s.idleDeadline == v.idleDeadline
      && s.hardDeadline == v.hardDeadline && s.lastActivity == v.lastActivityAt
      && |s.steers| == v.received && s.acks == v.acks
    }

    constructor ()
      ensures Abs() == SPAWNED
    {
      nextId := 0;
      lastPromptId, currentHardDeadline := None, None;
      pendingPermissionId, permissionResponded := None, false;
      activeRunId, steeringSupported, steerRx := None, false, false;
      wire, asked := [], [];
    }

    method InstallSteerRx()
      requires !steerRx
      modifies this
      ensures Abs() == Called(old(Abs()), InstallSteer)
    {
      steerRx := true;
    }

    method ClearSteerRx()
      modifies this
      ensures Abs() == Called(old(Abs()), ClearSteer)
    {
      steerRx := false;
    }

    method WriteNdjson(message: Wire, write: Write) returns (error: Option<AcpError>)
      modifies this
      ensures Abs() == Sent(old(Abs()), message, write) && error == write
    {
      if write.None? {
        wire := wire + [message];
      }
      error := write;
    }

    method HandlePermissionRequest(msg: Json, write: Write) returns (error: Option<AcpError>)
      modifies this
      ensures (Abs(), error) == PermissionHandled(old(Abs()), msg, write)
    {
      if msg.Get("id").None? {
        return Some(Protocol(PermissionWithoutId));
      }
      var id := msg.Get("id").value;
      pendingPermissionId := Some(id);
      asked := asked + [id];
      permissionResponded := false;
      var options := msg.Index("params").Index("options");
      if !options.Arr? {
        return Some(Protocol(PermissionWithoutOptions));
      }
      var choice := ChosenOption(options.items);
      if choice.Err? {
        return Some(Protocol(choice.error));
      }
      error := WriteNdjson(PermissionReply(id, Selected(choice.value)), write);
      if error.None? {
        permissionResponded := true;
        pendingPermissionId := None;
      }
    }

    method HandleSessionUpdate(msg: Json) returns (toolCallStarted: bool)
      modifies this
      ensures Abs() == old(Abs()).(activeRunId := RunIdAfter(old(activeRunId), msg))
      ensures toolCallStarted == StartsToolCall(msg)
    {
      toolCallStarted := false;
      match UpdateKind(msg)
      case Some(kind) =>
        if kind == "tool_call" {
          toolCallStarted := true;
        } else if kind == "session_info_update" {
          match msg.Index("params").Index("update").Index("_meta").Index("goose").Get("activeRunId")
          case Some(Str(runId)) => activeRunId := Some(runId);
          case Some(Null) => activeRunId := None;
          case _ =>
        }
      case None =>
    }

    /** Dispatch of anything that is no awaited response. */
    method Dispatch(msg: Json, write: Write) returns (error: Option<AcpError>, toolCallStarted: bool)
      modifies this
      ensures (Abs(), error) == Dispatched(old(Abs()), msg, write)
      ensures toolCallStarted <==> msg.Get("method") == Some(Str("session/update")) && StartsToolCall(msg)
    {
      error, toolCallStarted := None, false;
      match msg.Get("method")
      case Some(Str(name)) =>
        if name == "session/update" {
          toolCallStarted := HandleSessionUpdate(msg);
        } else if name == "_goose/unstable/session/update" {
        } else if name == "session/request_permission" {
          error := HandlePermissionRequest(msg, write);
        } else if msg.Get("id").Some? {
          error := WriteNdjson(MethodNotFound(msg.Get("id").value, name), write);
        }
      case _ =>
    }

    method ReadUntilResponse(expectedId: nat, lines: seq<Line>) returns (result: Result<Json, AcpError>)
      modifies this
      ensures (Abs(), result) == Responded(old(Abs()), expectedId, lines)
    {
      for i := 0 to |lines|
        invariant Responded(Abs(), expectedId, lines[i..]) == Responded(old(Abs()), expectedId, lines)
      {
        assert lines[i..][0] == lines[i] && lines[i..][1..] == lines[i + 1..];
        match lines[i].frame
        case Eof => return Err(AgentExited);
        case TooLong => return Err(Protocol(LineTooLong));
        case ReadFailed => return Err(Io);
        case Blank =>
        case NotJson =>
        case Message(msg) =>
          if IsReplyTo(msg, expectedId) {
            return AnswerOf(msg);
          }
          var error, _ := Dispatch(msg, lines[i].write);
          if error.Some? {
            return Err(error.value);
          }
      }
      return Err(Timeout(REQUEST_TIMEOUT));
    }

    method SendRequest(body: Body, write: Write, lines: seq<Line>) returns (result: Result<Json, AcpError>)
      modifies this
      ensures (Abs(), result) == Requested(old(Abs()), body, write, lines)
    {
      var id := nextId;
      nextId := nextId + 1;
      var error := WriteNdjson(Request(id, body), write);
      if error.Some? {
        return Err(error.value);
      }
      result := ReadUntilResponse(id, lines);
    }

    method Initialize(params: Json, write: Write, lines: seq<Line>) returns (result: Result<Json, AcpError>)
      modifies this
      ensures (Abs(), result) == Initialized(old(Abs()), params, write, lines)
    {
      hide Requested, AdvertisesSteering;
      result := SendRequest(Rpc("initialize", params), write, lines);
      if result.Ok? {
        steeringSupported := AdvertisesSteering(result.value);
      }
    }

    /** The steer arm of the select; `received` stands for the sender to be answered. */
    method TakeSteerRequest(v: Vars, blocks: seq<string>, write: Write, w: Wait, ghost s: Loop) returns (v': Vars)
      requires Holds(s, v) && v.pendingSteer.None?
      modifies this
      ensures Holds(TakeSteer(w, s, blocks, write), v')
    {
      match SelectTransport(activeRunId, steeringSupported, w.session, blocks)
      case None =>
        v' := v.(received := v.received + 1,
                 acks := v.acks + [Acked(v.received, Failed(ExpectedRunIdMissing))]);
      case Some((transport, body)) =>
        var id := nextId;
        nextId := nextId + 1;
        var error := WriteNdjson(Request(id, body), write);
        if error.None? {
          v' := v.(received := v.received + 1, pendingSteer := Some(Pending(id, transport, v.received)));
        } else {
          v' := v.(received := v.received + 1, acks := v.acks + [Acked(v.received, Failed(NotWritten))]);
        }
    }

    /** A steer response: acknowledge it, and renew the hard deadline if the steer was injected. */
    method SettleSteer(v: Vars, msg: Json, now: Time, w: Wait, ghost s: Loop) returns (v': Vars)
      requires Holds(s, v) && v.pendingSteer.Some?
      modifies this
      ensures Holds(Settled(w, s, v.pendingSteer.value, msg, now), v')
    {
      var steer := v.pendingSteer.value;
      v' := v.(pendingSteer := None);
      if Injects(steer.transport, msg) {
        var newDeadline := now + w.maxDuration;
        if newDeadline > v.hardDeadline {
          v' := v'.(hardDeadline := newDeadline);
          currentHardDeadline := Some(newDeadline);
        }
      }
      v' := v'.(acks := v.acks + [Acked(steer.ticket, AckFor(w.session, steer.transport, msg))]);
    }

    /** Any way out of the loop but `?`: a pending steer is let go before returning. */
    method LetGo(v: Vars, ghost s: Loop) returns (v': Vars)
      requires Holds(s, v)
      ensures Holds(Drained(s), v')
    {
      v' := v;
      if v.pendingSteer.Some? {
        v' := v.(pendingSteer := None,
                 acks := v.acks + [Acked(v.pendingSteer.value.ticket, PromptCompletedNeutral)]);
      }
    }

    /** One JSON message: the steer response, the awaited response, or anything else. */
    method RouteMessage(v: Vars, msg: Json, poll: Poll, w: Wait, ghost s: Loop)
      returns (v': Vars, returned: Option<Result<Json, AcpError>>)
      requires Holds(s, v)
      modifies this
      ensures var next := Routed(w, Touched(w, s, poll.seen), msg, poll);
        && Holds(next.loop, v')
        && returned == match next { case Go(_) => None case Done(_, outcome, _) => Some(outcome) }
    {
      hide Dispatched, AnswerOf, StartsToolCall, IsReplyTo, Settled, Drained;
      v' := v.(idleDeadline := poll.seen + w.idleTimeout, lastActivityAt := poll.seen);
      ghost var t := Touched(w, s, poll.seen);
      returned := None;
      if v.pendingSteer.Some? && IsReplyTo(msg, v.pendingSteer.value.id) {
        v' := SettleSteer(v', msg, poll.later, w, t);
      } else if IsReplyTo(msg, w.expectedId) {
        v' := LetGo(v', t);
        returned := Some(AnswerOf(msg));
      } else {
        var error, toolCallStarted := Dispatch(msg, poll.write);
        if error.Some? {
          returned := Some(Err(error.value));
        } else if toolCallStarted {
          v' := v'.(idleDeadline := poll.later + w.idleTimeout, lastActivityAt := poll.later);
        }
      }
    }

    /**
     `read_until_response_with_idle_timeout`. The ghost `end` is the whole run; the result, the
     acknowledgements sent and the fields of the client are those of that run.
     */
    method ReadUntilResponseWithIdleTimeout(
      session: string, expectedId: nat, idleTimeout: Time, deadline: Time, maxDuration: Time,
      entered: Time, polls: seq<Poll>)
      returns (result: Result<Json, AcpError>, acks: seq<Acked>, ghost end: Next)
      modifies this
      ensures var w := Wait(session, expectedId, idleTimeout, maxDuration, old(steerRx));
        end == Run(w, Entered(old(Abs()), w, entered, deadline), polls)
      ensures Abs() == end.loop.client && acks == end.loop.acks && result == end.outcome
    {
      hide Routed, TakeSteer, Drained;
      var w := Wait(session, expectedId, idleTimeout, maxDuration, steerRx);
      steerRx := false;
      var v := Vars(None, entered + idleTimeout, deadline, entered, 0, []);
      ghost var s := Entered(old(Abs()), w, entered, deadline);
      end := Run(w, s, polls);
      for i := 0 to |polls|
        invariant Holds(s, v) && Run(w, s, polls[i..]) == end
      {
        var poll := polls[i];
        assert polls[i..][0] == poll && polls[i..][1..] == polls[i + 1..];
        ghost var next := Step(w, s, poll);
        var idleFiresFirst := v.idleDeadline < v.hardDeadline;
        var nextDeadline := if idleFiresFirst then v.idleDeadline else v.hardDeadline;
        if poll.start >= nextDeadline || poll.arrival.Sleep? {
          var now := if poll.start >= nextDeadline then poll.seen else Max(poll.seen, nextDeadline);
          var silence := Max(now - v.lastActivityAt, 0);
          v := LetGo(v, s);
          return Err(if idleFiresFirst then IdleTimeout(idleTimeout) else HardTimeout(silence)), v.acks, end;
        }
        match poll.arrival {
          case Steer(blocks) =>
            if w.steerable && v.pendingSteer.None? {
              v := TakeSteerRequest(v, blocks, poll.write, w, s);
            }
          case Read(Message(msg)) =>
            var returned;
            v, returned := RouteMessage(v, msg, poll, w, s);
            if returned.Some? {
              return returned.value, v.acks, end;
            }
          case Read(frame) =>
            if frame.Eof? || frame.TooLong? || frame.ReadFailed? {
              v := LetGo(v, s);
              return Err(if frame.Eof? then AgentExited
                         else if frame.TooLong? then Protocol(LineTooLong) else Io), v.acks, end;
            }
        }
        s := next.loop;
      }
      v := LetGo(v, s);
      return Err(AgentExited), v.acks, end;
    }

    /** `session_prompt_blocks_with_idle_timeout` */
    method SessionPrompt(p: PromptCall) returns (result: Result<StopReason, AcpError>, acks: seq<Acked>)
      modifies this
      ensures (Abs(), result) == Prompted(old(Abs()), p)
      ensures p.write.None? ==>
        acks == Run(PromptWait(old(Abs()), p), PromptEntered(old(Abs()), p), p.polls).loop.acks
    {
      hide Run, StopReasonOfOutcome;
      acks := [];
      var hardDeadline := p.now + p.maxDuration;
      currentHardDeadline := Some(hardDeadline);
      lastPromptId := Some(nextId);
      var id := nextId;
      nextId := nextId + 1;
      var error := WriteNdjson(Request(id, Prompt(p.session, p.blocks)), p.write);
      if error.Some? {
        lastPromptId, currentHardDeadline := None, None;
        return Err(error.value), acks;
      }
      assert Abs() == PromptSent(old(Abs()), p);
      var outcome;
      ghost var end;
      outcome, acks, end := ReadUntilResponseWithIdleTimeout(
        p.session, id, p.idleTimeout, hardDeadline, p.maxDuration, p.entered, p.polls);
      if !IsTimeout(outcome) {
        lastPromptId, currentHardDeadline := None, None;
      }
      result := StopReasonOfOutcome(outcome);
    }

    method CancelWithCleanupUntil(k: CancelCall, hardDeadline: Time) returns (result: Result<StopReason, AcpError>)
      modifies this
      ensures (Abs(), result) == CancelledUntil(old(Abs()), k, hardDeadline)
    {
      hide Run, StopReasonOfOutcome;
      if lastPromptId.None? {
        return Err(Protocol(NoPromptInFlight));
      }
      var promptId := lastPromptId.value;
      lastPromptId := None;
      ghost var taken := Abs();
      if pendingPermissionId.Some? {
        if !permissionResponded {
          var error := WriteNdjson(PermissionReply(pendingPermissionId.value, Cancelled), k.replyWrite);
          if error.Some? {
            return Err(error.value);
          }
        }
        pendingPermissionId := None;
        permissionResponded := false;
      }
      assert Abs() == PermissionCancelled(taken);
      var error := WriteNdjson(CancelNotice(k.session), k.cancelWrite);
      if error.Some? {
        return Err(error.value);
      }
      var remaining := Max(hardDeadline - k.resumed, 0);
      var outcome, _, _ := ReadUntilResponseWithIdleTimeout(
        k.session, promptId, CLEANUP_GRACE, hardDeadline, remaining, k.entered, k.polls);
      result := StopReasonOfOutcome(outcome);
    }

    method CancelWithCleanup(k: CancelCall) returns (result: Result<StopReason, AcpError>)
      modifies this
      ensures (Abs(), result) == CancelledWithCleanup(old(Abs()), k)
    {
      hide CancelledUntil;
      var stored := currentHardDeadline;
      currentHardDeadline := None;
      var minimum := k.now + CLEANUP_GRACE;
      var hardDeadline := if stored.Some? && stored.value > minimum then stored.value else minimum;
      result := CancelWithCleanupUntil(k, hardDeadline);
    }

    method CancelWithCleanupGrace(k: CancelCall, grace: Time) returns (result: Result<StopReason, AcpError>)
      modifies this
      ensures (Abs(), result) == CancelledWithGrace(old(Abs()), k, grace)
    {
      hide CancelledUntil;
      currentHardDeadline := None;
      result := CancelWithCleanupUntil(k, k.now + grace);
      if result.Err? && result.error.HardTimeout? {
        result := Err(CancelDrainTimeout(grace));
      }
    }
  }
}
