/** What every wait of the read loop keeps, over whole runs. */
module AcpRuns {
  import opened Wrappers
  import opened Json
  import opened Sequences
  import opened AcpProtocol
  import opened AcpReading

  // The client between messages.

  /** Requests go out under strictly increasing ids, all of them already counted. */
  predicate IdsIncrease(c: Client) {
    && (forall i :: 0 <= i < |c.wire| && c.wire[i].Request? ==> c.wire[i].id < c.nextId)
    && (forall i, j :: 0 <= i < j < |c.wire| && c.wire[i].Request? && c.wire[j].Request? ==>
          c.wire[i].id < c.wire[j].id)
  }

  /** The permission requests answered so far, by id. */
  function Replied(wire: seq<Wire>): multiset<Json> {
    if wire == [] then multiset{}
    else
      var last := wire[|wire| - 1];
      Replied(wire[..|wire| - 1]) + (if last.PermissionReply? then multiset{last.to} else multiset{})
  }

  function Unanswered(c: Client): multiset<Json> {
    if c.pendingPermissionId.Some? then multiset{c.pendingPermissionId.value} else multiset{}
  }

  /**
   Every permission request gets at most one reply, the pending one none yet: counting by id,
   replies and the pending request together never exceed the requests received.
   */
  predicate PermissionsOk(c: Client) {
    && (c.pendingPermissionId.Some? ==> !c.permissionResponded)
    && Replied(c.wire) + Unanswered(c) <= multiset(c.asked)
  }

  predicate ClientOk(c: Client) {
    && IdsIncrease(c) && PermissionsOk(c)
    && (c.lastPromptId.Some? ==> c.lastPromptId.value < c.nextId)
  }

  lemma RepliedAppend(wire: seq<Wire>, message: Wire)
    ensures Replied(wire + [message]) ==
      Replied(wire) + (if message.PermissionReply? then multiset{message.to} else multiset{})
  {
    assert (wire + [message])[..|wire|] == wire;
  }

  lemma OtherMessageKeepsIds(c: Client, message: Wire)
    requires IdsIncrease(c) && !message.Request?
    ensures IdsIncrease(c.(wire := c.wire + [message]))
  {}

  lemma SentKeepsClient(c: Client, message: Wire, write: Write)
    requires ClientOk(c) && !message.Request? && !message.PermissionReply?
    ensures ClientOk(Sent(c, message, write))
  {
    OtherMessageKeepsIds(c, message);
    RepliedAppend(c.wire, message);
    hide IdsIncrease, Replied;
  }

  lemma NewRequestKeepsIds(c: Client, body: Body, write: Write)
    requires IdsIncrease(c)
    ensures IdsIncrease(Sent(c.(nextId := c.nextId + 1), Request(c.nextId, body), write))
  {}

  /** A request under the next id keeps the client in order, written or not. */
  lemma RequestKeepsClient(c: Client, body: Body, write: Write)
    requires ClientOk(c)
    ensures ClientOk(Sent(c.(nextId := c.nextId + 1), Request(c.nextId, body), write))
  {
    NewRequestKeepsIds(c, body, write);
    RepliedAppend(c.wire, Request(c.nextId, body));
    hide IdsIncrease, Replied;
  }

  lemma NotedKeepsClient(c: Client, id: Json, noted: Client)
    requires ClientOk(c)
    requires noted == c.(pendingPermissionId := Some(id), permissionResponded := false, asked := c.asked + [id])
    ensures ClientOk(noted)
  {
    assert multiset(c.asked + [id]) == multiset(c.asked) + multiset{id};
    assert IdsIncrease(noted);
    hide IdsIncrease, Replied;
  }

  lemma ReplyKeepsClient(c: Client, id: Json, outcome: PermissionOutcome, responded: bool)
    requires ClientOk(c) && c.pendingPermissionId == Some(id)
    ensures ClientOk(Sent(c, PermissionReply(id, outcome), None)
                     .(permissionResponded := responded, pendingPermissionId := None))
  {
    OtherMessageKeepsIds(c, PermissionReply(id, outcome));
    RepliedAppend(c.wire, PermissionReply(id, outcome));
    assert IdsIncrease(Sent(c, PermissionReply(id, outcome), None)
                       .(permissionResponded := responded, pendingPermissionId := None));
    hide IdsIncrease, Replied;
  }

  lemma PermissionKeepsClient(c: Client, msg: Json, write: Write)
    requires ClientOk(c)
    ensures ClientOk(PermissionHandled(c, msg, write).0)
  {
    hide ClientOk;
    if msg.Get("id").Some? {
      var id := msg.Get("id").value;
      var noted := c.(pendingPermissionId := Some(id), permissionResponded := false, asked := c.asked + [id]);
      NotedKeepsClient(c, id, noted);
      var options := msg.Index("params").Index("options");
      if options.Arr? && ChosenOption(options.items).Ok? && write.None? {
        ReplyKeepsClient(noted, id, Selected(ChosenOption(options.items).value), true);
      }
    }
  }

  lemma RunIdKeepsClient(c: Client, runId: Option<string>)
    requires ClientOk(c)
    ensures ClientOk(c.(activeRunId := runId))
  {
    assert IdsIncrease(c.(activeRunId := runId));
  }

  lemma DispatchKeepsClient(c: Client, msg: Json, write: Write)
    requires ClientOk(c)
    ensures ClientOk(Dispatched(c, msg, write).0)
  {
    hide ClientOk, PermissionHandled;
    PermissionKeepsClient(c, msg, write);
    RunIdKeepsClient(c, RunIdAfter(c.activeRunId, msg));
    if msg.Get("method").Some? && msg.Get("method").value.Str? && msg.Get("id").Some? {
      SentKeepsClient(c, MethodNotFound(msg.Get("id").value, msg.Get("method").value.s), write);
    }
  }

  /** `d` has the fields of the turn from `c`. */
  predicate SameTurn(c: Client, d: Client) {
    && d.nextId == c.nextId && d.currentHardDeadline == c.currentHardDeadline
    && d.lastPromptId == c.lastPromptId && d.steerInstalled == c.steerInstalled
    && d.steeringSupported == c.steeringSupported
  }

  lemma PermissionFrame(c: Client, msg: Json, write: Write)
    ensures SameTurn(c, PermissionHandled(c, msg, write).0)
  {
    hide ChosenOption;
  }

  /** A dispatched message leaves the fields of the turn alone. */
  lemma DispatchFrame(c: Client, msg: Json, write: Write)
    ensures SameTurn(c, Dispatched(c, msg, write).0)
  {
    hide PermissionHandled, RunIdAfter, SameTurn;
    PermissionFrame(c, msg, write);
    SameFields(c);
  }

  lemma SameFields(c: Client)
    ensures SameTurn(c, c)
    ensures forall run :: SameTurn(c, c.(activeRunId := run))
    ensures forall message, write :: SameTurn(c, Sent(c, message, write))
  {
  }

  // The loop at its head.

  /**
   Steers are acknowledged in the order received: the acknowledged ones are exactly the first
   `|acks|`, and the only one left, if any, is pending under an id newer than the awaited one.
   */
  predicate SteersInOrder(w: Wait, s: Loop) {
    && (forall i :: 0 <= i < |s.acks| ==> s.acks[i].ticket == i)
    && match s.pending
       case None => |s.acks| == |s.steers|
       case Some(p) =>
         && |s.acks| + 1 == |s.steers| && p.ticket == |s.acks|
         && s.steers[p.ticket] == Written(p.id, p.transport)
         && w.expectedId < p.id < s.client.nextId
  }

  predicate LoopOk(w: Wait, s: Loop) {
    && ClientOk(s.client) && w.expectedId < s.client.nextId
    && SteersInOrder(w, s)
    && s.idleDeadline == s.lastActivity + w.idleTimeout
  }

  lemma EntryIsOk(c: Client, w: Wait, now: Time, hardDeadline: Time)
    requires ClientOk(c) && w.expectedId < c.nextId
    ensures LoopOk(w, Entered(c, w, now, hardDeadline))
  {}

  /** What no pass of the loop takes back. */
  predicate Grows(s: Loop, t: Loop) {
    && s.steers <= t.steers && s.acks <= t.acks
    && s.hardDeadline <= t.hardDeadline && s.renewals <= t.renewals
    && s.client.nextId <= t.client.nextId
    && s.client.lastPromptId == t.client.lastPromptId
    && s.client.steerInstalled == t.client.steerInstalled
  }

  lemma TakeSteerKeepsLoop(w: Wait, s: Loop, blocks: seq<string>, write: Write)
    requires LoopOk(w, s) && s.pending.None?
    ensures LoopOk(w, TakeSteer(w, s, blocks, write))
    ensures Grows(s, TakeSteer(w, s, blocks, write))
  {
    hide ClientOk, SelectTransport, Sent;
    var t := SelectTransport(s.client.activeRunId, s.client.steeringSupported, w.session, blocks);
    if t.Some? {
      RequestKeepsClient(s.client, t.value.1, write);
      SentFrame(s.client.(nextId := s.client.nextId + 1), Request(s.client.nextId, t.value.1), write);
    }
  }

  lemma SentFrame(c: Client, message: Wire, write: Write)
    ensures Sent(c, message, write) == c.(wire := Sent(c, message, write).wire)
  {}

  lemma DeadlineKeepsClient(c: Client, deadline: Option<Time>)
    requires ClientOk(c)
    ensures ClientOk(c.(currentHardDeadline := deadline))
  {
    assert IdsIncrease(c.(currentHardDeadline := deadline));
  }

  lemma SettledKeepsLoop(w: Wait, s: Loop, msg: Json, now: Time)
    requires LoopOk(w, s) && s.pending.Some?
    ensures LoopOk(w, Settled(w, s, s.pending.value, msg, now))
    ensures Grows(s, Settled(w, s, s.pending.value, msg, now))
  {
    hide ClientOk, Injects, AckFor;
    DeadlineKeepsClient(s.client, Some(now + w.maxDuration));
  }

  lemma StepKeepsLoop(w: Wait, s: Loop, p: Poll)
    requires LoopOk(w, s)
    ensures Step(w, s, p).Go? ==> LoopOk(w, Step(w, s, p).loop)
    ensures Step(w, s, p).Done? ==> ClientOk(Step(w, s, p).loop.client)
    ensures Grows(s, Step(w, s, p).loop)
  {
    hide ClientOk, Dispatched, TakeSteer, Settled, IsReplyTo, StartsToolCall;
    match p.arrival
    case Read(Message(msg)) =>
      DispatchKeepsClient(s.client, msg, p.write);
      DispatchFrame(s.client, msg, p.write);
      if s.pending.Some? {
        SettledKeepsLoop(w, Touched(w, s, p.seen), msg, p.later);
      }
    case Steer(blocks) =>
      if s.pending.None? {
        TakeSteerKeepsLoop(w, s, blocks, p.write);
      }
    case _ =>
  }

  // Steer acknowledgements.

  lemma StepEnds(w: Wait, s: Loop, p: Poll)
    requires LoopOk(w, s) && Step(w, s, p).Done?
    ensures AcksAtExit(Step(w, s, p))
  {
    hide ClientOk, Dispatched, IsReplyTo, StartsToolCall, AnswerOf, TimeoutError;
  }

  /**
   How acknowledgements stand when the loop returns: acknowledgement `i` belongs to steer request
   `i`, and only a `?` exit may leave one request, the pending one, without any.
   */
  predicate AcksAtExit(end: Next) {
    var s := end.loop;
    && end.Done?
    && (forall i :: 0 <= i < |s.acks| ==> s.acks[i].ticket == i)
    && |s.steers| == |s.acks| + (if s.pending.Some? then 1 else 0)
    && (!end.exit.Propagated? ==> s.pending.None?)
  }

  /** The loop at the head of pass `n`. */
  function Before(w: Wait, s: Loop, polls: seq<Poll>, n: nat): Loop
    requires n <= |polls|
    decreases n
  {
    if n == 0 then s else Before(w, Step(w, s, polls[0]).loop, polls[1..], n - 1)
  }

  /**
   A message whose handling ends the wait by `?`: a permission request nobody could answer or whose
   reply cannot be written, or an unknown request whose refusal cannot be written.
   */
  predicate DispatchFails(msg: Json, write: Write) {
    match At(msg, ["method"])
    case Some(Str(name)) =>
      if name == "session/request_permission" then Unanswerable(msg) || write.Some?
      else
        && name != "session/update" && name != "_goose/unstable/session/update"
        && At(msg, ["id"]).Some? && write.Some?
    case _ => false
  }

  /** A pass, begun in time, that reads such a message while a steer is pending. */
  predicate DropsSteer(w: Wait, s: Loop, p: Poll) {
    && p.start < NextDeadline(s) && s.pending.Some?
    && p.arrival.Read? && p.arrival.frame.Message?
    && var msg := p.arrival.frame.msg;
       && !Responds(msg, s.pending.value.id) && !Responds(msg, w.expectedId)
       && DispatchFails(msg, p.write)
  }

  predicate LastPassDrops(w: Wait, s: Loop, polls: seq<Poll>) {
    var n := Passes(w, s, polls);
    n > 0 && DropsSteer(w, Before(w, s, polls, n - 1), polls[n - 1])
  }

  lemma DispatchFailsExactly(c: Client, msg: Json, write: Write)
    ensures Dispatched(c, msg, write).1.Some? <==> DispatchFails(msg, write)
  {
    hide ChosenOption, RunIdAfter, Options, Unanswerable;
    AtMember(msg, "method");
    AtMember(msg, "id");
    UnanswerableIsRead(msg);
    OptionsAreRead(msg);
  }

  lemma StepDropsExactly(w: Wait, s: Loop, p: Poll)
    ensures Step(w, s, p).Done? && Step(w, s, p).loop.pending.Some? <==> DropsSteer(w, s, p)
  {
    hide Dispatched, DispatchFails, IsReplyTo, Responds, StartsToolCall, AnswerOf, TimeoutError, SelectTransport;
    if p.arrival.Read? && p.arrival.frame.Message? {
      ResponseIsRead(p.arrival.frame.msg, w.expectedId);
      if s.pending.Some? {
        ResponseIsRead(p.arrival.frame.msg, s.pending.value.id);
      }
      DispatchFailsExactly(s.client, p.arrival.frame.msg, p.write);
    }
  }

  /**
   Over a whole wait every steer request received is acknowledged at most once. One is left without
   an acknowledgement if and only if the last pass reads, while it is pending, a message whose
   handling fails. Ids, permission replies and the hard deadline stay in order on the way.
   */
  lemma {:induction false} EverySteerIsAcknowledged(w: Wait, s: Loop, polls: seq<Poll>)
    requires LoopOk(w, s)
    ensures AcksAtExit(Run(w, s, polls))
    ensures var end := Run(w, s, polls).loop;
      |end.acks| < |end.steers| <==> LastPassDrops(w, s, polls)
    ensures ClientOk(Run(w, s, polls).loop.client)
    ensures Grows(s, Run(w, s, polls).loop)
    decreases |polls|
  {
    hide ClientOk, Step, DropsSteer;
    if polls != [] {
      StepKeepsLoop(w, s, polls[0]);
      StepDropsExactly(w, s, polls[0]);
      match Step(w, s, polls[0])
      case Go(t) =>
        EverySteerIsAcknowledged(w, t, polls[1..]);
        var n := Passes(w, t, polls[1..]);
        assert n > 0 ==> polls[1..][n - 1] == polls[n];
      case Done(_, _, _) =>
        StepEnds(w, s, polls[0]);
    }
  }

  /** Without a receiver no steer is ever received, acknowledged or renewed for. */
  lemma {:induction false} NoReceiverNoSteers(w: Wait, s: Loop, polls: seq<Poll>)
    requires !w.steerable && s.pending.None?
    ensures var end := Run(w, s, polls).loop;
      end.steers == s.steers && end.acks == s.acks && end.renewals == s.renewals
    decreases |polls|
  {
    hide Dispatched, IsReplyTo, AnswerOf, StartsToolCall, TimeoutError;
    if polls != [] && Step(w, s, polls[0]).Go? {
      NoReceiverNoSteers(w, Step(w, s, polls[0]).loop, polls[1..]);
    }
  }

  /** A response that confirms the steer `id`: its own id, no error, a delivery its transport knows. */
  predicate Confirms(p: Poll, id: nat, transport: Transport) {
    && p.arrival.Read? && p.arrival.frame.Message?
    && var msg := p.arrival.frame.msg;
       && Responds(msg, id) && At(msg, ["error"]) == None
       && (transport.AcpExtension? ==>
             var outcome := At(msg, ["result", "outcome"]);
             outcome == Some(Str("injected")) || outcome == Some(Str("startedNewTurn")))
  }

  /** Acknowledgement `i` is sent in pass `j`, which confirms the steer pending at its head. */
  predicate EarnedAt(w: Wait, s: Loop, polls: seq<Poll>, steers: seq<SteerRecord>, i: nat, j: nat)
    requires j < |polls|
  {
    var before, after := Before(w, s, polls, j), Before(w, s, polls, j + 1);
    && |before.acks| == i && |after.acks| == i + 1
    && i < |before.steers| <= |steers| && steers[i].Written? && before.steers[i] == steers[i]
    && before.pending == Some(Pending(steers[i].id, steers[i].transport, i))
    && Confirms(polls[j], steers[i].id, steers[i].transport)
  }

  /** Every `Success` of a wait was earned in one of its passes. */
  predicate SuccessesEarned(w: Wait, s: Loop, polls: seq<Poll>) {
    var end := Run(w, s, polls).loop;
    forall i :: |s.acks| <= i < |end.acks| && end.acks[i].ack.Success? ==>
      exists j :: 0 <= j < Passes(w, s, polls) && EarnedAt(w, s, polls, end.steers, i, j)
  }

  lemma StepEarns(w: Wait, s: Loop, p: Poll)
    requires LoopOk(w, s)
    ensures var t := Step(w, s, p).loop;
      forall i :: |s.acks| <= i < |t.acks| && t.acks[i].ack.Success? ==>
        && i == |s.acks| && |t.acks| == i + 1
        && i < |s.steers| && s.steers[i].Written?
        && s.pending == Some(Pending(s.steers[i].id, s.steers[i].transport, i))
        && Confirms(p, s.steers[i].id, s.steers[i].transport)
  {
    hide ClientOk, Dispatched, IsReplyTo, Responds, StartsToolCall, AnswerOf, TimeoutError, SelectTransport, AckFor, At;
    if p.arrival.Read? && p.arrival.frame.Message? && s.pending.Some? {
      ResponseIsRead(p.arrival.frame.msg, s.pending.value.id);
      SteerResponseIsRead(w.session, s.pending.value.transport, p.arrival.frame.msg);
    }
  }

  lemma EarnedLater(w: Wait, s: Loop, polls: seq<Poll>, steers: seq<SteerRecord>, i: nat, j: nat)
    requires j + 1 < |polls|
    requires EarnedAt(w, Step(w, s, polls[0]).loop, polls[1..], steers, i, j)
    ensures EarnedAt(w, s, polls, steers, i, j + 1)
  {
    hide Step, Confirms;
    assert polls[1..][j] == polls[j + 1];
  }

  /**
   `Success` is reported for a steer only in a pass that finds that steer written and pending and
   reads a response to it, without an error, and on the extension transport only with one of the two
   outcomes that mean delivery.
   */
  lemma {:induction false} SuccessIsEarned(w: Wait, s: Loop, polls: seq<Poll>)
    requires LoopOk(w, s)
    ensures SuccessesEarned(w, s, polls)
    decreases |polls|
  {
    hide ClientOk, Step, Confirms;
    if polls != [] {
      var p, end := polls[0], Run(w, s, polls).loop;
      var t := Step(w, s, p).loop;
      StepKeepsLoop(w, s, p);
      StepEarns(w, s, p);
      if Step(w, s, p).Go? {
        SuccessIsEarned(w, t, polls[1..]);
        EverySteerIsAcknowledged(w, t, polls[1..]);
      }
      assert Grows(t, end);
      assert Before(w, s, polls, 0) == s && Before(w, s, polls, 1) == Before(w, t, polls[1..], 0) == t;
      forall i | |s.acks| <= i < |end.acks| && end.acks[i].ack.Success?
        ensures exists j :: 0 <= j < Passes(w, s, polls) && EarnedAt(w, s, polls, end.steers, i, j)
      {
        if i < |t.acks| {
          assert t.acks[i] == end.acks[i] && s.steers[i] == t.steers[i] == end.steers[i];
          assert EarnedAt(w, s, polls, end.steers, i, 0);
        } else {
          var j :| 0 <= j < Passes(w, t, polls[1..]) && EarnedAt(w, t, polls[1..], end.steers, i, j);
          EarnedLater(w, s, polls, end.steers, i, j);
        }
      }
    }
  }

  // Routing.

  /** The response the wait is for. */
  predicate IsAwaited(w: Wait, p: Poll) {
    p.arrival.Read? && p.arrival.frame.Message? && Responds(p.arrival.frame.msg, w.expectedId)
  }

  lemma StepRoutes(w: Wait, s: Loop, p: Poll)
    requires LoopOk(w, s)
    ensures match Step(w, s, p)
      case Go(_) => !IsAwaited(w, p)
      case Done(_, outcome, exit) =>
        && (exit.Answered? ==> IsAwaited(w, p) && AnswersWith(p.arrival.frame.msg, outcome))
        && (IsAwaited(w, p) ==> exit.Answered? || exit.TimedOut?)
  {
    hide ClientOk, Dispatched, StartsToolCall, AnswerOf, AnswersWith, Responds, TimeoutError, TakeSteer, Settled;
    if p.arrival.Read? && p.arrival.frame.Message? {
      ResponseIsRead(p.arrival.frame.msg, w.expectedId);
    }
  }

  /**
   Routing is a filter on the messages: the wait returns the result or error of the first message
   with no method under the awaited id. No such message is passed over, and nothing else is ever
   returned as the response.
   */
  lemma {:induction false} FirstResponseIsReturned(w: Wait, s: Loop, polls: seq<Poll>)
    requires LoopOk(w, s)
    ensures var n, end := Passes(w, s, polls), Run(w, s, polls);
      && (forall i :: 0 <= i < n - 1 ==> !IsAwaited(w, polls[i]))
      && (end.exit.Answered? ==>
            n > 0 && IsAwaited(w, polls[n - 1]) && AnswersWith(polls[n - 1].arrival.frame.msg, end.outcome))
      && (n > 0 && IsAwaited(w, polls[n - 1]) ==> end.exit.Answered? || end.exit.TimedOut?)
    decreases |polls|
  {
    hide ClientOk, Step, AnswersWith, Responds;
    if polls != [] {
      StepRoutes(w, s, polls[0]);
      StepKeepsLoop(w, s, polls[0]);
      match Step(w, s, polls[0])
      case Go(t) =>
        FirstResponseIsReturned(w, t, polls[1..]);
        var n := Passes(w, t, polls[1..]);
        assert forall i :: 1 <= i < n + 1 ==> polls[i] == polls[1..][i - 1];
      case Done(_, _, _) =>
    }
  }

  // Deadlines.

  /** A pass that begins at or after a deadline ends the wait without reading or writing anything. */
  lemma NothingIsReadPastTheDeadline(w: Wait, s: Loop, p: Poll)
    requires p.start >= s.idleDeadline || p.start >= s.hardDeadline
    ensures Step(w, s, p).Done? && Step(w, s, p).exit == TimedOut(p.start)
    ensures Step(w, s, p).loop.client == s.client
    ensures forall q: Poll :: q.start == p.start && q.seen == p.seen ==> Step(w, s, q) == Step(w, s, p)
  {}

  /**
   Every pass of a wait but the last begins before both deadlines as they then stand. One that begins
   later is the last, and leaves the client as it finds it.
   */
  lemma {:induction false} PassesBeginInTime(w: Wait, s: Loop, polls: seq<Poll>, i: nat)
    requires i < Passes(w, s, polls)
    ensures var now, end := Before(w, s, polls, i), Run(w, s, polls);
      && (i + 1 < Passes(w, s, polls) ==>
            polls[i].start < now.idleDeadline && polls[i].start < now.hardDeadline)
      && (polls[i].start >= now.idleDeadline || polls[i].start >= now.hardDeadline ==>
            end.exit == TimedOut(polls[i].start) && end.loop.client == now.client)
    decreases i
  {
    hide Step;
    if i == 0 {
      if polls[0].start >= s.idleDeadline || polls[0].start >= s.hardDeadline {
        NothingIsReadPastTheDeadline(w, s, polls[0]);
      }
    } else {
      PassesBeginInTime(w, Step(w, s, polls[0]).loop, polls[1..], i - 1);
      assert polls[1..][i - 1] == polls[i];
    }
  }

  /** A message that starts a tool call, and so counts as activity once more when it is handled. */
  predicate AnnouncesToolCall(msg: Json) {
    At(msg, ["method"]) == Some(Str("session/update")) && Kind(msg) == Some(Str("tool_call"))
  }

  /**
   The idle deadline moves with JSON messages only: to `idleTimeout` after the message was read, or
   after it was handled if it starts a tool call. No other pass moves it.
   */
  lemma OnlyMessagesResetIdle(w: Wait, s: Loop, p: Poll)
    requires Step(w, s, p).Go?
    ensures Step(w, s, p).loop.idleDeadline ==
      if !(p.arrival.Read? && p.arrival.frame.Message?) then s.idleDeadline
      else (if AnnouncesToolCall(p.arrival.frame.msg) then p.later else p.seen) + w.idleTimeout
  {
    hide Dispatched, StartsToolCall, AnswerOf, TimeoutError, SelectTransport, AckFor, Injects, Kind;
    if p.arrival.Read? && p.arrival.frame.Message? {
      AtMember(p.arrival.frame.msg, "method");
      UpdateIsRead(p.arrival.frame.msg, None);
    }
  }

  /**
   A line that is blank or no JSON does not count as activity: with one at 50 ms a wait of 100 ms
   still times out at 100 ms.
   */
  lemma BlankLineKeepsIdleDeadline(c: Client, frame: Frame) returns (w: Wait, polls: seq<Poll>)
    requires frame.Blank? || frame.NotJson?
    ensures w.idleTimeout == 100 && polls != [] && polls[0] == Poll(50, Read(frame), 50, 50, None)
    ensures var end := Run(w, Entered(c, w, 0, 1000), polls);
      end.outcome == Err(IdleTimeout(100)) && end.exit == TimedOut(100)
  {
    w := Wait("s", 0, 100, 1000, false);
    polls := [Poll(50, Read(frame), 50, 50, None), Poll(50, Sleep, 100, 100, None)];
    var s := Entered(c, w, 0, 1000);
    assert Step(w, s, polls[0]) == Go(s);
    assert polls[1..][0] == polls[1];
    assert Step(w, s, polls[1]).Done?;
  }

  /** The steer response in `p`, if any, goes into the awaited turn. */
  predicate InjectsSteer(s: Loop, p: Poll) {
    && p.arrival.Read? && p.arrival.frame.Message? && s.pending.Some?
    && Responds(p.arrival.frame.msg, s.pending.value.id)
    && ReportsInjection(s.pending.value.transport, p.arrival.frame.msg)
  }

  /** A pass, begun in time, that injects a steer late enough for the deadline to move. */
  predicate Renews(w: Wait, s: Loop, p: Poll) {
    p.start < NextDeadline(s) && InjectsSteer(s, p) && p.later + w.maxDuration > s.hardDeadline
  }

  /** What a pass does to the hard deadline, exactly. */
  predicate HardDeadlineKept(w: Wait, s: Loop, p: Poll, t: Loop) {
    if Renews(w, s, p) then
      && t.hardDeadline == p.later + w.maxDuration && t.renewals == s.renewals + 1
      && t.client.currentHardDeadline == Some(t.hardDeadline)
    else
      && t.hardDeadline == s.hardDeadline && t.renewals == s.renewals
      && t.client.currentHardDeadline == s.client.currentHardDeadline
  }

  /**
   A steer injected into the awaited turn moves the hard deadline forward, to `maxDuration` from that
   moment, and the client's copy of it moves along; nothing else ever moves it.
   */
  lemma OnlyInjectedSteersRenew(w: Wait, s: Loop, p: Poll)
    ensures HardDeadlineKept(w, s, p, Step(w, s, p).loop)
  {
    hide StartsToolCall, AnswerOf, TimeoutError, SelectTransport, Dispatched, Injects, ReportsInjection, IsReplyTo, Responds;
    if p.arrival.Read? && p.arrival.frame.Message? {
      DispatchFrame(s.client, p.arrival.frame.msg, p.write);
      if s.pending.Some? {
        ResponseIsRead(p.arrival.frame.msg, s.pending.value.id);
        SteerResponseIsRead(w.session, s.pending.value.transport, p.arrival.frame.msg);
      }
    }
  }

  /**
   In a prompt turn the client's hard deadline is the loop's at every pass; in a drain, which begins
   with none, the client holds one at the end exactly when a steer renewed it.
   */
  lemma {:induction false} ClientSharesHardDeadline(w: Wait, s: Loop, polls: seq<Poll>)
    ensures var end := Run(w, s, polls).loop;
      && (s.client.currentHardDeadline == Some(s.hardDeadline) ==>
            end.client.currentHardDeadline == Some(end.hardDeadline))
      && (s.client.currentHardDeadline == None ==>
            end.client.currentHardDeadline ==
            if end.renewals > s.renewals then Some(end.hardDeadline) else None)
      && end.renewals >= s.renewals
    decreases |polls|
  {
    hide Step, Renews;
    if polls != [] {
      OnlyInjectedSteersRenew(w, s, polls[0]);
      match Step(w, s, polls[0])
      case Go(t) => ClientSharesHardDeadline(w, t, polls[1..]);
      case Done(_, _, _) =>
    }
  }

  /** The latest clock reading of a pass. */
  function Latest(p: Poll): Time { Max(p.start, Max(p.seen, p.later)) }

  /** The script never lets a pass run more than `d` beyond the deadline it set out with. */
  predicate LateByAtMost(w: Wait, s: Loop, polls: seq<Poll>, d: Time)
    decreases |polls|
  {
    polls == [] ||
    (&& Latest(polls[0]) <= NextDeadline(s) + d
     && (Step(w, s, polls[0]).Go? ==> LateByAtMost(w, Step(w, s, polls[0]).loop, polls[1..], d)))
  }

  /** The hard deadline after `k` renewals, at the latest. */
  function Budget(w: Wait, begun: Time, k: nat, d: Time): nat {
    begun + w.maxDuration + k * (w.maxDuration + d)
  }

  lemma BudgetGrows(w: Wait, begun: Time, k: nat, l: nat, d: Time)
    requires k <= l
    ensures Budget(w, begun, k, d) <= Budget(w, begun, l, d)
    ensures Budget(w, begun, k, d) + w.maxDuration + d == Budget(w, begun, k + 1, d)
  {
    assert (k + 1) * (w.maxDuration + d) == k * (w.maxDuration + d) + (w.maxDuration + d);
    assert k * (w.maxDuration + d) <= l * (w.maxDuration + d);
  }

  /**
   However often it is steered, a turn with `k` renewals makes no clock reading after
   `begun + (k + 1) * (maxDuration + d)`, when no pass is late by more than `d`.
   */
  lemma {:induction false} TurnEndsInTime(w: Wait, s: Loop, polls: seq<Poll>, begun: Time, d: Time)
    requires LateByAtMost(w, s, polls, d)
    requires s.hardDeadline <= Budget(w, begun, s.renewals, d)
    ensures var end := Run(w, s, polls).loop;
      && s.renewals <= end.renewals
      && end.hardDeadline <= Budget(w, begun, end.renewals, d)
      && forall i :: 0 <= i < Passes(w, s, polls) ==>
           Latest(polls[i]) <= Budget(w, begun, end.renewals, d) + d
    decreases |polls|
  {
    hide Step, InjectsSteer, Budget;
    if polls != [] {
      var p := polls[0];
      OnlyInjectedSteersRenew(w, s, p);
      var t := Step(w, s, p).loop;
      BudgetGrows(w, begun, s.renewals, s.renewals, d);
      if Step(w, s, p).Go? {
        TurnEndsInTime(w, t, polls[1..], begun, d);
        var end := Run(w, t, polls[1..]).loop;
        BudgetGrows(w, begun, s.renewals, end.renewals, d);
        assert forall i :: 1 <= i < Passes(w, s, polls) ==> polls[i] == polls[1..][i - 1];
      } else {
        BudgetGrows(w, begun, s.renewals, t.renewals, d);
      }
    }
  }

  /** Clock readings never go back. */
  predicate Timely(now: Time, polls: seq<Poll>)
    decreases |polls|
  {
    polls == [] ||
    (now <= polls[0].start <= polls[0].seen <= polls[0].later && Timely(polls[0].later, polls[1..]))
  }

  lemma StepIsActive(w: Wait, s: Loop, p: Poll)
    requires s.lastActivity <= p.start <= p.seen <= p.later
    requires s.idleDeadline == s.lastActivity + w.idleTimeout
    ensures var t := Step(w, s, p).loop;
      && s.lastActivity <= t.lastActivity <= p.later
      && t.idleDeadline == t.lastActivity + w.idleTimeout
      && (Step(w, s, p).Done? && Step(w, s, p).exit.TimedOut? ==>
            t.idleDeadline == s.idleDeadline && t.hardDeadline == s.hardDeadline)
    ensures match Step(w, s, p)
      case Go(t) => p.arrival.Read? && p.arrival.frame.Message? ==> p.seen <= t.lastActivity
      case Done(_, outcome, exit) =>
        && (exit.TimedOut? <==> p.start >= NextDeadline(s) || p.arrival.Sleep?)
        && (exit.TimedOut? ==>
              (outcome == Err(IdleTimeout(w.idleTimeout)) && exit.at >= s.idleDeadline)
              || (outcome.Err? && outcome.error.HardTimeout? && exit.at >= s.hardDeadline))
  {
    hide Dispatched, StartsToolCall, AnswerOf, SelectTransport, IsReplyTo, AckFor, Injects;
  }

  /**
   An idle timeout means silence: every JSON message the wait read came at least `idleTimeout`
   before it. A hard timeout is never early.
   */
  lemma {:induction false} TimeoutsAreEarned(w: Wait, s: Loop, polls: seq<Poll>)
    requires s.idleDeadline == s.lastActivity + w.idleTimeout && Timely(s.lastActivity, polls)
    ensures var end := Run(w, s, polls);
      end.exit.TimedOut? ==>
        && end.exit.at >= NextDeadline(end.loop)
        && (end.outcome == Err(IdleTimeout(w.idleTimeout))
            || (end.outcome.Err? && end.outcome.error.HardTimeout? && end.exit.at >= end.loop.hardDeadline))
        && (end.outcome == Err(IdleTimeout(w.idleTimeout)) ==>
              && end.exit.at >= s.lastActivity + w.idleTimeout
              && forall i :: 0 <= i < Passes(w, s, polls) - 1
                             && polls[i].arrival.Read? && polls[i].arrival.frame.Message? ==>
                   polls[i].seen + w.idleTimeout <= end.exit.at)
    decreases |polls|
  {
    hide Step;
    if polls != [] {
      var p := polls[0];
      StepIsActive(w, s, p);
      match Step(w, s, p)
      case Go(t) =>
        TimelyFrom(t.lastActivity, p.later, polls[1..]);
        TimeoutsAreEarned(w, t, polls[1..]);
        assert forall i :: 1 <= i < Passes(w, s, polls) ==> polls[i] == polls[1..][i - 1];
      case Done(_, _, _) =>
    }
  }

  lemma TimelyFrom(earlier: Time, now: Time, polls: seq<Poll>)
    requires earlier <= now && Timely(now, polls)
    ensures Timely(earlier, polls)
  {}
}
