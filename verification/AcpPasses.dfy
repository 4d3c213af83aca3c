/**
 What a pass of the read loop does that others can see: what it writes to the agent, what it tells the
 sender of a steer, and how it ends the wait. All of it is told from the messages as they read.
 */
module AcpPasses {
  import opened Wrappers
  import opened Json
  import opened Sequences
  import opened AcpProtocol
  import opened AcpReading
  import opened AcpRuns

  /** What a message that is no awaited response makes the client write, if writing succeeds. */
  ghost predicate IsReply(msg: Json, added: seq<Wire>) {
    match At(msg, ["method"])
    case Some(Str(name)) =>
      if name == "session/update" || name == "_goose/unstable/session/update" then added == []
      else if name == "session/request_permission" then
        if Unanswerable(msg) then added == []
        else exists i, optionId ::
          Picks(Options(msg).value, i, optionId)
          && added == [PermissionReply(At(msg, ["id"]).value, Selected(optionId))]
      else (match At(msg, ["id"])
            case Some(id) => added == [MethodNotFound(id, name)]
            case None => added == [])
    case _ => added == []
  }

  /** The error that ends the wait when a message cannot be handled. */
  function RefusedWith(msg: Json, write: Write): Option<AcpError> {
    if !DispatchFails(msg, write) then None
    else if At(msg, ["method"]) != Some(Str("session/request_permission")) || !Unanswerable(msg) then write
    else
      Some(Protocol(
        if At(msg, ["id"]) == None then PermissionWithoutId
        else if Options(msg) == None then PermissionWithoutOptions
        else if HasNo(Options(msg).value, "allow_once") then NoSuitableOption
        else AllowWithoutOptionId))
  }

  /** The permission request that is pending after a message, and whether it is answered. */
  function PermissionAfter(c: Client, msg: Json, write: Write): (Option<Json>, bool) {
    if At(msg, ["method"]) != Some(Str("session/request_permission")) || At(msg, ["id"]) == None then
      (c.pendingPermissionId, c.permissionResponded)
    else if !Unanswerable(msg) && write.None? then (None, true)
    else (At(msg, ["id"]), false)
  }

  /** The active run after a message. */
  function RunAfter(c: Client, msg: Json): Option<string> {
    if At(msg, ["method"]) == Some(Str("session/update")) && Kind(msg) == Some(Str("session_info_update"))
    then ReportedRun(msg, c.activeRunId) else c.activeRunId
  }

  /** What handling a message does: `added` to the wire, to run and permission, and as an error. */
  ghost predicate DispatchReads(
      c: Client, msg: Json, write: Write, d: Client, error: Option<AcpError>, added: seq<Wire>)
  {
    && d.wire == c.wire + added
    && (if write.Some? then added == [] else IsReply(msg, added))
    && d.activeRunId == RunAfter(c, msg)
    && (d.pendingPermissionId, d.permissionResponded) == PermissionAfter(c, msg, write)
    && error == RefusedWith(msg, write)
  }

  lemma PermissionIsRead(c: Client, msg: Json, write: Write) returns (added: seq<Wire>)
    requires At(msg, ["method"]) == Some(Str("session/request_permission"))
    ensures var (d, error) := PermissionHandled(c, msg, write);
      DispatchReads(c, msg, write, d, error, added)
  {
    hide PermissionHandled, Options, Picks, Unanswerable, HasNo, At, Kind, ReportedRun;
    PermissionKeepsRun(c, msg, write);
    if Unanswerable(msg) {
      added := [];
      PermissionIsRefused(c, msg, write);
    } else {
      UnanswerableIsRead(msg);
      AtMember(msg, "id");
      var i, optionId := PermissionIsAnswered(c, msg, write);
      added := if write.None? then [PermissionReply(msg.Get("id").value, Selected(optionId))] else [];
    }
  }

  lemma PermissionKeepsRun(c: Client, msg: Json, write: Write)
    ensures PermissionHandled(c, msg, write).0.activeRunId == c.activeRunId
  {
    hide ChosenOption;
  }

  lemma UpdateIsHandled(c: Client, msg: Json, write: Write)
    requires At(msg, ["method"]) == Some(Str("session/update"))
    ensures var (d, error) := Dispatched(c, msg, write);
      DispatchReads(c, msg, write, d, error, [])
  {
    hide Unanswerable, Options, Kind, ReportedRun, RunIdAfter, At;
    AtMember(msg, "method");
    UpdateIsRead(msg, c.activeRunId);
  }

  lemma NotificationIsIgnored(c: Client, msg: Json, write: Write)
    requires match At(msg, ["method"])
      case Some(Str(name)) =>
        name == "_goose/unstable/session/update" || (At(msg, ["id"]) == None
          && name != "session/update" && name != "session/request_permission")
      case _ => true
    ensures Dispatched(c, msg, write) == (c, None) && DispatchReads(c, msg, write, c, None, [])
  {
    hide PermissionHandled, Unanswerable, Options, Kind, ReportedRun, RunIdAfter, At;
    AtMember(msg, "method");
    AtMember(msg, "id");
  }

  lemma UnknownIsRefused(c: Client, msg: Json, write: Write, name: string) returns (added: seq<Wire>)
    requires At(msg, ["method"]) == Some(Str(name)) && At(msg, ["id"]).Some?
    requires name != "session/update" && name != "session/request_permission"
    requires name != "_goose/unstable/session/update"
    ensures var (d, error) := Dispatched(c, msg, write);
      DispatchReads(c, msg, write, d, error, added)
  {
    hide PermissionHandled, Unanswerable, Options, Kind, ReportedRun, RunIdAfter, At;
    AtMember(msg, "method");
    AtMember(msg, "id");
    added := if write.None? then [MethodNotFound(msg.Get("id").value, name)] else [];
  }

  lemma DispatchIsRead(c: Client, msg: Json, write: Write) returns (added: seq<Wire>)
    ensures var (d, error) := Dispatched(c, msg, write);
      DispatchReads(c, msg, write, d, error, added)
  {
    hide PermissionHandled, DispatchReads, RunIdAfter, At;
    AtMember(msg, "method");
    added := [];
    match At(msg, ["method"]) {
      case Some(Str(name)) =>
        if name == "session/request_permission" {
          added := PermissionIsRead(c, msg, write);
        } else if name == "session/update" {
          UpdateIsHandled(c, msg, write);
        } else if name == "_goose/unstable/session/update" || At(msg, ["id"]) == None {
          NotificationIsIgnored(c, msg, write);
        } else {
          added := UnknownIsRefused(c, msg, write, name);
        }
      case _ => NotificationIsIgnored(c, msg, write);
    }
  }

  // A pass.

  /** The deadlines have not passed when the pass begins. */
  predicate InTime(s: Loop, p: Poll) { p.start < s.idleDeadline && p.start < s.hardDeadline }

  /** The error of a timeout noticed at `now`: it is the hard deadline's unless the idle one is nearer. */
  function Overdue(w: Wait, s: Loop, now: Time): AcpError {
    if s.idleDeadline < s.hardDeadline then IdleTimeout(w.idleTimeout)
    else HardTimeout(if now >= s.lastActivity then now - s.lastActivity else 0)
  }

  /** The sender of a pending steer learns that the turn is over. */
  predicate LetsGo(s: Loop, t: Loop) {
    && t.pending == None && t.client == s.client && t.steers == s.steers
    && t.acks == s.acks +
         if s.pending.Some? then [Acked(s.pending.value.ticket, PromptCompletedNeutral)] else []
  }

  predicate EndsWith(s: Loop, next: Next, error: AcpError) {
    next.Done? && next.outcome == Err(error) && LetsGo(s, next.loop)
  }

  /** A steer request is written by the way the agent can be steered, or refused. */
  predicate TakesSteer(w: Wait, s: Loop, blocks: seq<string>, write: Write, t: Loop) {
    var ticket, id, run := |s.steers|, s.client.nextId, s.client.activeRunId;
    if run.None? && !s.client.steeringSupported then
      && t.client == s.client && t.pending == None
      && t.acks == s.acks + [Acked(ticket, Failed(ExpectedRunIdMissing))]
    else
      && t.client.nextId == id + 1
      && if write.Some? then
           && t.client.wire == s.client.wire && t.pending == None
           && t.acks == s.acks + [Acked(ticket, Failed(NotWritten))]
         else
           && t.client.wire == s.client.wire + [Request(id,
                if run.Some? then GooseSteer(w.session, run.value, blocks) else ExtensionSteer(w.session, blocks))]
           && t.pending == Some(Pending(id, if run.Some? then Goose else AcpExtension, ticket))
           && t.acks == s.acks
  }

  /** The pending steer is told what the response to it means; the agent is told nothing. */
  predicate SettlesSteer(w: Wait, s: Loop, msg: Json, t: Loop)
    requires s.pending.Some?
  {
    var steer := s.pending.value;
    && t.pending == None && t.client.wire == s.client.wire && t.steers == s.steers
    && t.acks == s.acks + [Acked(steer.ticket, ReportedAck(w.session, steer.transport, msg))]
  }

  /** Any other message is handled: a reply if one is due, and the end of the wait if that fails. */
  ghost predicate Handles(s: Loop, msg: Json, write: Write, next: Next) {
    var t := next.loop;
    && t.pending == s.pending && t.acks == s.acks && t.steers == s.steers
    && t.client.activeRunId == RunAfter(s.client, msg)
    && (t.client.pendingPermissionId, t.client.permissionResponded) == PermissionAfter(s.client, msg, write)
    && s.client.wire <= t.client.wire
    && (if write.Some? then t.client.wire == s.client.wire
        else IsReply(msg, t.client.wire[|s.client.wire|..]))
    && match RefusedWith(msg, write)
       case None => next.Go?
       case Some(error) => next.Done? && next.outcome == Err(error)
  }

  ghost predicate ReadsMessage(w: Wait, s: Loop, msg: Json, write: Write, next: Next) {
    if s.pending.Some? && Responds(msg, s.pending.value.id) then next.Go? && SettlesSteer(w, s, msg, next.loop)
    else if Responds(msg, w.expectedId) then
      next.Done? && AnswersWith(msg, next.outcome) && LetsGo(s, next.loop)
    else Handles(s, msg, write, next)
  }

  /** Everything a pass lets others see. */
  ghost predicate PassReads(w: Wait, s: Loop, p: Poll, next: Next) {
    if !InTime(s, p) then EndsWith(s, next, Overdue(w, s, p.seen))
    else
      match p.arrival
      case Sleep => EndsWith(s, next, Overdue(w, s, Max(p.seen, if s.idleDeadline < s.hardDeadline then s.idleDeadline else s.hardDeadline)))
      case Steer(blocks) =>
        next.Go? &&
        if w.steerable && s.pending.None? then TakesSteer(w, s, blocks, p.write, next.loop) else next.loop == s
      case Read(Eof) => EndsWith(s, next, AgentExited)
      case Read(TooLong) => EndsWith(s, next, Protocol(LineTooLong))
      case Read(ReadFailed) => EndsWith(s, next, Io)
      case Read(Blank) => next == Go(s)
      case Read(NotJson) => next == Go(s)
      case Read(Message(msg)) => ReadsMessage(w, s, msg, p.write, next)
  }

  lemma SteerIsTaken(w: Wait, s: Loop, blocks: seq<string>, write: Write)
    requires s.pending.None?
    ensures TakesSteer(w, s, blocks, write, TakeSteer(w, s, blocks, write))
  {
  }

  lemma MessageIsRead(w: Wait, s: Loop, msg: Json, p: Poll)
    ensures ReadsMessage(w, s, msg, p.write, Routed(w, s, msg, p))
  {
    hide Dispatched, IsReplyTo, Responds, AnswerOf, AnswersWith, RunAfter, PermissionAfter, RefusedWith, IsReply;
    hide AckFor, ReportedAck, Injects, ReportsInjection, StartsToolCall;
    ResponseIsRead(msg, w.expectedId);
    if s.pending.Some? {
      ResponseIsRead(msg, s.pending.value.id);
      SteerResponseIsRead(w.session, s.pending.value.transport, msg);
    }
    var added := DispatchIsRead(s.client, msg, p.write);
    var d := Dispatched(s.client, msg, p.write).0;
    assert d.wire[|s.client.wire|..] == added;
  }

  lemma PassIsRead(w: Wait, s: Loop, p: Poll)
    ensures PassReads(w, s, p, Step(w, s, p))
  {
    hide Routed, ReadsMessage, TakeSteer, TakesSteer;
    match p.arrival {
      case Steer(blocks) =>
        if s.pending.None? {
          SteerIsTaken(w, s, blocks, p.write);
        }
      case Read(Message(msg)) =>
        MessageIsRead(w, Touched(w, s, p.seen), msg, p);
        MessageReadsAlike(w, s, Touched(w, s, p.seen), msg, p.write, Routed(w, Touched(w, s, p.seen), msg, p));
      case _ =>
    }
  }

  /** The reading does not look at the clock. */
  lemma MessageReadsAlike(w: Wait, s: Loop, touched: Loop, msg: Json, write: Write, next: Next)
    requires touched.client == s.client && touched.pending == s.pending
    requires touched.acks == s.acks && touched.steers == s.steers
    requires ReadsMessage(w, touched, msg, write, next)
    ensures ReadsMessage(w, s, msg, write, next)
  {
    hide Responds, AnswersWith, RunAfter, PermissionAfter, RefusedWith, IsReply, ReportedAck;
  }

  /**
   A whole wait, pass by pass: each does exactly what its arrival calls for, the last one ends the
   wait, and if the agent closes its output instead, that is reported and a pending steer let go.
   */
  lemma {:induction false} EveryPassIsRead(w: Wait, s: Loop, polls: seq<Poll>, i: nat)
    requires i < Passes(w, s, polls)
    ensures var now, end := Before(w, s, polls, i), Run(w, s, polls);
      if i + 1 < Passes(w, s, polls) then PassReads(w, now, polls[i], Go(Before(w, s, polls, i + 1)))
      else
        || PassReads(w, now, polls[i], end)
        || (i + 1 == |polls|
            && PassReads(w, now, polls[i], Go(Before(w, s, polls, i + 1)))
            && EndsWith(Before(w, s, polls, i + 1), end, AgentExited))
    decreases i
  {
    hide Step, PassReads;
    var t := Step(w, s, polls[0]).loop;
    assert Before(w, s, polls, 1) == Before(w, t, polls[1..], 0) == t;
    if i == 0 {
      PassIsRead(w, s, polls[0]);
    } else {
      EveryPassIsRead(w, t, polls[1..], i - 1);
      assert polls[1..][i - 1] == polls[i];
    }
  }

  lemma ClosedOutputEndsWait(w: Wait, s: Loop)
    ensures EndsWith(s, Run(w, s, []), AgentExited)
  {
  }

  /** What a read loop may write: steers, replies to permission requests, refusals. */
  predicate IsLoopMessage(message: Wire) {
    match message
    case Request(_, body) => body.GooseSteer? || body.ExtensionSteer?
    case PermissionReply(_, outcome) => outcome.Selected?
    case MethodNotFound(_, _) => true
    case CancelNotice(_) => false
  }

  predicate OnlyLoopMessages(added: seq<Wire>) {
    forall i :: 0 <= i < |added| ==> IsLoopMessage(added[i])
  }

  lemma PassWrites(w: Wait, s: Loop, p: Poll)
    ensures var t := Step(w, s, p).loop;
      s.client.wire <= t.client.wire && OnlyLoopMessages(t.client.wire[|s.client.wire|..])
  {
    hide Unanswerable, Options, Responds, AnswersWith, RunAfter, PermissionAfter, RefusedWith, ReportedAck, Picks;
    hide Step, Overdue;
    PassIsRead(w, s, p);
  }

  /** A wait adds nothing else to the wire, and takes nothing off it. */
  lemma {:induction false} WaitWrites(w: Wait, s: Loop, polls: seq<Poll>)
    ensures var end := Run(w, s, polls).loop;
      s.client.wire <= end.client.wire && OnlyLoopMessages(end.client.wire[|s.client.wire|..])
    decreases |polls|
  {
    hide Step, IsLoopMessage;
    if polls != [] {
      PassWrites(w, s, polls[0]);
      if Step(w, s, polls[0]).Go? {
        var t := Step(w, s, polls[0]).loop;
        WaitWrites(w, t, polls[1..]);
        var end := Run(w, t, polls[1..]).loop;
        assert end.client.wire[|s.client.wire|..]
            == t.client.wire[|s.client.wire|..] + end.client.wire[|t.client.wire|..];
      }
    }
  }
}
