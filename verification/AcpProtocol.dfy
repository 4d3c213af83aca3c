/**
 One turn of the ACP client as a function: what a single pass of the read loop does to the client,
 the deadlines and the pending steer, and what a whole wait does to a script of passes. The class in
 AcpClient runs the loop in place and is proved to do exactly this.

 Everything the client does not decide itself comes in with the script: clock readings, which arm of
 the select is ready, what the agent sent, and whether a write succeeds. Times are milliseconds.
 */
module AcpProtocol {
  import opened Wrappers
  import opened Json
  import opened Sequences

  type Time = nat

  datatype Fault =
    | LineTooLong
    | PermissionWithoutId
    | PermissionWithoutOptions
    | AllowWithoutOptionId
    | NoSuitableOption
    | NoPromptInFlight
    | MissingStopReason
    | UnknownStopReason(raw: string)

  datatype AcpError =
    | Io
    | AgentExited
    | IdleTimeout(after: Time)
    | HardTimeout(silence: Time)
    | CancelDrainTimeout(grace: Time)
    | Timeout(after: Time)
    | WriteTimeout
    | Protocol(fault: Fault)
    | AgentError(code: int, message: Json)

  // What goes to the agent.

  datatype Body =
    | Prompt(session: string, blocks: seq<string>)
    | GooseSteer(session: string, runId: string, blocks: seq<string>)
    | ExtensionSteer(session: string, blocks: seq<string>)
    | Rpc(rpcMethod: string, params: Json)

  datatype PermissionOutcome = Selected(optionId: string) | Cancelled

  datatype Wire =
    | Request(id: nat, body: Body)
    | CancelNotice(session: string)
    | PermissionReply(to: Json, outcome: PermissionOutcome)
    | MethodNotFound(to: Json, unknown: string)

  /**
   The fields of the client. `wire` and `asked` only record: the messages written, and the ids of
   the permission requests received.
   */
  datatype Client = Client(
    nextId: nat,
    lastPromptId: Option<nat>,
    currentHardDeadline: Option<Time>,
    pendingPermissionId: Option<Json>,
    permissionResponded: bool,
    activeRunId: Option<string>,
    steeringSupported: bool,
    steerInstalled: bool,
    wire: seq<Wire>,
    asked: seq<Json>)

  /** The outcome of one write: none, or the error of a broken or blocked pipe. */
  type Write = w: Option<AcpError> | w.None? || w.value.Io? || w.value.WriteTimeout?
    witness None

  function Sent(c: Client, message: Wire, write: Write): Client {
    if write.None? then c.(wire := c.wire + [message]) else c
  }

  // What comes from the agent.

  /** A response to request `id`: it carries that id and no method. */
  predicate IsReplyTo(msg: Json, id: nat) {
    msg.Get("id") == Some(Num(id)) && msg.Get("method").None?
  }

  function CodeOf(error: Json, default: int): int {
    match error.Index("code").AsI64()
    case Some(code) => code
    case None => default
  }

  /** The error of a failed request; without a message text the whole error object stands in. */
  function AgentErrorOf(error: Json): AcpError {
    AgentError(CodeOf(error, -32000), if error.Index("message").Str? then error.Index("message") else error)
  }

  function AnswerOf(msg: Json): Result<Json, AcpError> {
    match msg.Get("error")
    case Some(error) => Err(AgentErrorOf(error))
    case None => Ok(msg.Index("result"))
  }

  function FirstOfKind(options: seq<Json>, kind: string): Option<Json> {
    if options == [] then None
    else if options[0].Get("kind") == Some(Str(kind)) then Some(options[0])
    else FirstOfKind(options[1..], kind)
  }

  /** The option id to answer a permission request with. */
  function ChosenOption(options: seq<Json>): Result<string, Fault> {
    match FirstOfKind(options, "allow_once")
    case Some(option) =>
      (match option.Index("optionId").AsStr()
       case Some(id) => Ok(id)
       case None => Err(AllowWithoutOptionId))
    case None =>
      match FirstOfKind(options, "reject_once")
      case Some(option) =>
        (match option.Index("optionId").AsStr()
         case Some(id) => Ok(id)
         case None => Ok("reject"))
      case None => Err(NoSuitableOption)
  }

  /** `handle_permission_request`: the client afterwards, and the error the read loop passes on. */
  function PermissionHandled(c: Client, msg: Json, write: Write): (Client, Option<AcpError>) {
    match msg.Get("id")
    case None => (c, Some(Protocol(PermissionWithoutId)))
    case Some(id) =>
      var noted := c.(pendingPermissionId := Some(id), permissionResponded := false, asked := c.asked + [id]);
      var options := msg.Index("params").Index("options");
      if !options.Arr? then (noted, Some(Protocol(PermissionWithoutOptions)))
      else
        match ChosenOption(options.items)
        case Err(fault) => (noted, Some(Protocol(fault)))
        case Ok(optionId) =>
          if write.Some? then (noted, write)
          else (Sent(noted, PermissionReply(id, Selected(optionId)), write)
                .(permissionResponded := true, pendingPermissionId := None), None)
  }

  function UpdateKind(msg: Json): Option<string> {
    msg.Index("params").Index("update").Index("sessionUpdate").AsStr()
  }

  predicate StartsToolCall(msg: Json) { UpdateKind(msg) == Some("tool_call") }

  /** The active run after a session update: set, cleared by null, or left alone. */
  function RunIdAfter(current: Option<string>, msg: Json): Option<string> {
    if UpdateKind(msg) != Some("session_info_update") then current
    else
      match msg.Index("params").Index("update").Index("_meta").Index("goose").Get("activeRunId")
      case Some(Str(runId)) => Some(runId)
      case Some(Null) => None
      case _ => current
  }

  /** Anything that is no awaited response; the error is the one passed on by `?`. */
  function Dispatched(c: Client, msg: Json, write: Write): (Client, Option<AcpError>) {
    match msg.Get("method")
    case Some(Str(name)) =>
      if name == "session/update" then (c.(activeRunId := RunIdAfter(c.activeRunId, msg)), None)
      else if name == "_goose/unstable/session/update" then (c, None)
      else if name == "session/request_permission" then PermissionHandled(c, msg, write)
      else (match msg.Get("id")
            case Some(id) => (Sent(c, MethodNotFound(id, name), write), write)
            case None => (c, None))
    case _ => (c, None)
  }

  // Steering.

  datatype Transport = Goose | AcpExtension

  datatype SteerError =
    | AgentRejected(code: int, message: Json)
    | NotWritten
    | ExpectedRunIdMissing
    | OutcomeRejected(outcome: Option<Json>)

  datatype SteerAck =
    | Success(session: string)
    | Failed(error: SteerError)
    | PromptCompletedNeutral

  const INJECTED := "injected"
  const STARTED_NEW_TURN := "startedNewTurn"

  /** The way a steer is written, if the agent can be steered at all. */
  function SelectTransport(activeRunId: Option<string>, supported: bool, session: string, blocks: seq<string>)
    : Option<(Transport, Body)>
  {
    match activeRunId
    case Some(runId) => Some((Goose, GooseSteer(session, runId, blocks)))
    case None => if supported then Some((AcpExtension, ExtensionSteer(session, blocks))) else None
  }

  function ReportedOutcome(msg: Json): Option<Json> { At(msg, ["result", "outcome"]) }

  /** How a successful response says the steer was delivered, if it says so. */
  function Delivered(transport: Transport, msg: Json): Option<string> {
    match transport
    case Goose => Some(INJECTED)
    case AcpExtension =>
      match ReportedOutcome(msg)
      case Some(Str(o)) => if o == INJECTED || o == STARTED_NEW_TURN then Some(o) else None
      case _ => None
  }

  function AckFor(session: string, transport: Transport, msg: Json): SteerAck {
    match msg.Get("error")
    case Some(error) => Failed(AgentRejected(CodeOf(error, -1), error))
    case None =>
      if Delivered(transport, msg).Some? then Success(session)
      else Failed(OutcomeRejected(ReportedOutcome(msg)))
  }

  /** A steer that went into the awaited turn; only this renews the hard deadline. */
  predicate Injects(transport: Transport, msg: Json) {
    msg.Get("error").None? && Delivered(transport, msg) == Some(INJECTED)
  }

  // The read loop.

  datatype Frame = Eof | TooLong | ReadFailed | Blank | NotJson | Message(msg: Json)

  datatype Arrival = Read(frame: Frame) | Steer(blocks: seq<string>) | Sleep

  /**
   One pass of the loop: the clock at its head, the arm that is ready, the clock once the select
   returns and at the last reading of the pass, and the outcome of the one write it may make.
   */
  datatype Poll = Poll(start: Time, arrival: Arrival, seen: Time, later: Time, write: Write)

  /** The arguments of a wait; `steerable` says whether a steer receiver was installed. */
  datatype Wait = Wait(
    session: string, expectedId: nat, idleTimeout: Time, maxDuration: Time, steerable: bool)

  datatype Pending = Pending(id: nat, transport: Transport, ticket: nat)

  /** What became of the steer requests the loop received, in the order received. */
  datatype SteerRecord = Refused | Unwritten | Written(id: nat, transport: Transport)

  /** An acknowledgement, with the number of the steer request it was sent for. */
  datatype Acked = Acked(ticket: nat, ack: SteerAck)

  /** The loop's variables; `steers`, `acks` and `renewals` only record. */
  datatype Loop = Loop(
    client: Client,
    pending: Option<Pending>,
    idleDeadline: Time,
    hardDeadline: Time,
    lastActivity: Time,
    steers: seq<SteerRecord>,
    acks: seq<Acked>,
    renewals: nat)

  /** How a wait ends; `Propagated` stands for the two `?` of the dispatch. */
  datatype Exit = TimedOut(at: Time) | StreamEnded | Answered | Propagated

  datatype Next =
    | Go(loop: Loop)
    | Done(loop: Loop, outcome: Result<Json, AcpError>, exit: Exit)

  function NextDeadline(s: Loop): Time {
    if s.idleDeadline < s.hardDeadline then s.idleDeadline else s.hardDeadline
  }

  /** The pending steer is let go as neither delivered nor failed. */
  function Drained(s: Loop): Loop {
    match s.pending
    case None => s
    case Some(p) => s.(pending := None, acks := s.acks + [Acked(p.ticket, PromptCompletedNeutral)])
  }

  function TimeoutError(w: Wait, s: Loop, now: Time): AcpError {
    if s.idleDeadline < s.hardDeadline then IdleTimeout(w.idleTimeout)
    else HardTimeout(Max(now - s.lastActivity, 0))
  }

  function TakeSteer(w: Wait, s: Loop, blocks: seq<string>, write: Write): Loop {
    var ticket := |s.steers|;
    match SelectTransport(s.client.activeRunId, s.client.steeringSupported, w.session, blocks)
    case None =>
      s.(steers := s.steers + [Refused], acks := s.acks + [Acked(ticket, Failed(ExpectedRunIdMissing))])
    case Some((transport, body)) =>
      var id := s.client.nextId;
      var c := Sent(s.client.(nextId := id + 1), Request(id, body), write);
      if write.None? then
        s.(client := c, steers := s.steers + [Written(id, transport)],
           pending := Some(Pending(id, transport, ticket)))
      else
        s.(client := c, steers := s.steers + [Unwritten],
           acks := s.acks + [Acked(ticket, Failed(NotWritten))])
  }

  function Renewed(w: Wait, s: Loop, now: Time): Loop {
    var deadline := now + w.maxDuration;
    if deadline > s.hardDeadline then
      s.(hardDeadline := deadline, renewals := s.renewals + 1,
         client := s.client.(currentHardDeadline := Some(deadline)))
    else s
  }

  function Settled(w: Wait, s: Loop, p: Pending, msg: Json, now: Time): Loop {
    var r := if Injects(p.transport, msg) then Renewed(w, s, now) else s;
    r.(pending := None, acks := s.acks + [Acked(p.ticket, AckFor(w.session, p.transport, msg))])
  }

  function Touched(w: Wait, s: Loop, now: Time): Loop {
    s.(idleDeadline := now + w.idleTimeout, lastActivity := now)
  }

  /** A JSON message: steer response first, then the awaited response, then everything else. */
  function Routed(w: Wait, s: Loop, msg: Json, p: Poll): Next {
    if s.pending.Some? && IsReplyTo(msg, s.pending.value.id) then
      Go(Settled(w, s, s.pending.value, msg, p.later))
    else if IsReplyTo(msg, w.expectedId) then
      Done(Drained(s), AnswerOf(msg), Answered)
    else
      var (c, error) := Dispatched(s.client, msg, p.write);
      if error.Some? then Done(s.(client := c), Err(error.value), Propagated)
      else if msg.Get("method") == Some(Str("session/update")) && StartsToolCall(msg) then
        Go(Touched(w, s.(client := c), p.later))
      else Go(s.(client := c))
  }

  function Step(w: Wait, s: Loop, p: Poll): Next {
    if p.start >= NextDeadline(s) then
      Done(Drained(s), Err(TimeoutError(w, s, p.seen)), TimedOut(p.start))
    else
      match p.arrival
      case Sleep =>
        var woken := Max(p.seen, NextDeadline(s));
        Done(Drained(s), Err(TimeoutError(w, s, woken)), TimedOut(woken))
      case Steer(blocks) =>
        // The arm is off while a steer is pending or when there is no receiver.
        if w.steerable && s.pending.None? then Go(TakeSteer(w, s, blocks, p.write)) else Go(s)
      case Read(Eof) => Done(Drained(s), Err(AgentExited), StreamEnded)
      case Read(TooLong) => Done(Drained(s), Err(Protocol(LineTooLong)), StreamEnded)
      case Read(ReadFailed) => Done(Drained(s), Err(Io), StreamEnded)
      case Read(Blank) => Go(s)
      case Read(NotJson) => Go(s)
      case Read(Message(msg)) => Routed(w, Touched(w, s, p.seen), msg, p)
  }

  /** A whole wait. A script that runs out stands for the agent closing its output. */
  function Run(w: Wait, s: Loop, polls: seq<Poll>): (end: Next)
    ensures end.Done?
    decreases |polls|
  {
    if polls == [] then Done(Drained(s), Err(AgentExited), StreamEnded)
    else
      match Step(w, s, polls[0])
      case Go(s') => Run(w, s', polls[1..])
      case Done(s', outcome, exit) => Done(s', outcome, exit)
  }

  /** How many passes of the script a wait makes. */
  function Passes(w: Wait, s: Loop, polls: seq<Poll>): (n: nat)
    ensures n <= |polls|
    decreases |polls|
  {
    if polls == [] then 0
    else
      match Step(w, s, polls[0])
      case Go(s') => 1 + Passes(w, s', polls[1..])
      case Done(_, _, _) => 1
  }

  /** The loop's variables when a wait begins: the receiver is taken out of the client. */
  function Entered(c: Client, w: Wait, now: Time, hardDeadline: Time): Loop {
    Loop(c.(steerInstalled := false), None, now + w.idleTimeout, hardDeadline, now, [], [], 0)
  }
}
