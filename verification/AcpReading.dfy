/**
 What the messages of the agent say, read off the JSON member by member, and the proof that the client
 reads them so. Nothing here is used by the client itself.
 */
module AcpReading {
  import opened Wrappers
  import opened Json
  import opened Text
  import opened AcpProtocol

  // Responses.

  /** A response to request `id`. */
  predicate Responds(msg: Json, id: nat) {
    At(msg, ["id"]) == Some(Num(id)) && At(msg, ["method"]) == None
  }

  /** The 64-bit integer `code` of an error, or else `default`. */
  function ReportedCode(error: Json, default: int): int {
    match At(error, ["code"])
    case Some(Num(n)) => if -0x8000_0000_0000_0000 <= n <= 0x7FFF_FFFF_FFFF_FFFF then n else default
    case _ => default
  }

  /**
   The outcome that a response reports: its error, with the text under `message` or else all of it,
   and without an error its result, null if it has none.
   */
  predicate AnswersWith(msg: Json, outcome: Result<Json, AcpError>) {
    match At(msg, ["error"])
    case Some(error) =>
      outcome == Err(AgentError(
        ReportedCode(error, -32000),
        match At(error, ["message"]) case Some(Str(text)) => Str(text) case _ => error))
    case None => outcome == Ok(match At(msg, ["result"]) case Some(result) => result case None => Null)
  }

  lemma AtMember(v: Json, key: string)
    ensures At(v, [key]) == v.Get(key)
  {
    assert [key][1..] == [];
    if v.Get(key).Some? {
      assert At(v.Get(key).value, []) == v.Get(key);
    }
  }

  lemma {:induction false} AtIndex(v: Json, key: string, rest: seq<string>)
    ensures At(v, [key] + rest) == if v.Get(key).Some? then At(v.Get(key).value, rest) else None
    ensures rest != [] ==> At(v, [key] + rest) == At(v.Index(key), rest)
  {
    assert ([key] + rest)[1..] == rest;
  }

  lemma ResponseIsRead(msg: Json, id: nat)
    ensures IsReplyTo(msg, id) <==> Responds(msg, id)
    ensures AnswersWith(msg, AnswerOf(msg))
  {
    AtMember(msg, "id");
    AtMember(msg, "method");
    AtMember(msg, "error");
    AtMember(msg, "result");
    if msg.Get("error").Some? {
      AtMember(msg.Get("error").value, "code");
      AtMember(msg.Get("error").value, "message");
    }
  }

  // Permission requests.

  /** The option at `i` is of a kind that none before it is of. */
  predicate IsFirst(options: seq<Json>, kind: string, i: nat) {
    && i < |options| && options[i].Get("kind") == Some(Str(kind))
    && forall j :: 0 <= j < i ==> options[j].Get("kind") != Some(Str(kind))
  }

  predicate HasNo(options: seq<Json>, kind: string) {
    forall j :: 0 <= j < |options| ==> options[j].Get("kind") != Some(Str(kind))
  }

  predicate NamesItself(option: Json) { option.Get("optionId").Some? && option.Get("optionId").value.Str? }

  /** Answering with option `i`, the first to allow once, or else the first to reject once. */
  predicate Picks(options: seq<Json>, i: nat, optionId: string) {
    || (IsFirst(options, "allow_once", i) && options[i].Get("optionId") == Some(Str(optionId)))
    || (HasNo(options, "allow_once") && IsFirst(options, "reject_once", i)
        && if NamesItself(options[i]) then options[i].Get("optionId") == Some(Str(optionId)) else optionId == "reject")
  }

  lemma {:induction false} FirstOfKindIsFirst(options: seq<Json>, kind: string) returns (i: nat)
    ensures FirstOfKind(options, kind).None? ==> HasNo(options, kind)
    ensures FirstOfKind(options, kind).Some? ==>
      IsFirst(options, kind, i) && FirstOfKind(options, kind) == Some(options[i])
  {
    i := 0;
    if options != [] && options[0].Get("kind") != Some(Str(kind)) {
      i := FirstOfKindIsFirst(options[1..], kind);
      i := i + 1;
    }
  }

  /** The reply to a permission request, or why there is none. */
  lemma ChoiceIsRead(options: seq<Json>) returns (i: nat)
    ensures match ChosenOption(options)
      case Ok(optionId) => Picks(options, i, optionId)
      case Err(fault) =>
        || (fault == AllowWithoutOptionId && IsFirst(options, "allow_once", i) && !NamesItself(options[i]))
        || (fault == NoSuitableOption && HasNo(options, "allow_once") && HasNo(options, "reject_once"))
  {
    i := FirstOfKindIsFirst(options, "allow_once");
    if FirstOfKind(options, "allow_once").None? {
      i := FirstOfKindIsFirst(options, "reject_once");
    }
  }

  function Options(msg: Json): Option<seq<Json>> {
    match At(msg, ["params", "options"])
    case Some(Arr(options)) => Some(options)
    case _ => None
  }

  /** A permission request nobody could answer. */
  predicate Unanswerable(msg: Json) {
    || At(msg, ["id"]) == None || Options(msg) == None
    || (HasNo(Options(msg).value, "allow_once") && HasNo(Options(msg).value, "reject_once"))
    || (exists i :: 0 <= i < |Options(msg).value|
          && IsFirst(Options(msg).value, "allow_once", i) && !NamesItself(Options(msg).value[i]))
  }

  lemma OptionsAreRead(msg: Json)
    ensures var o := msg.Index("params").Index("options");
      Options(msg) == if o.Arr? then Some(o.items) else None
  {
    AtIndex(msg, "params", ["options"]);
    assert ["params"] + ["options"] == ["params", "options"];
    AtMember(msg.Index("params"), "options");
  }

  lemma UnanswerableIsRead(msg: Json)
    ensures Unanswerable(msg) <==>
      || msg.Get("id") == None || Options(msg) == None || ChosenOption(Options(msg).value).Err?
  {
    AtMember(msg, "id");
    if Options(msg).Some? {
      var i := ChoiceIsRead(Options(msg).value);
    }
  }

  /**
   An answerable permission request is answered once, under its own id, with the first option that
   allows it once, or else the first that rejects it once; it is pending until its reply is written.
   */
  lemma PermissionIsAnswered(c: Client, msg: Json, write: Write) returns (i: nat, optionId: string)
    requires !Unanswerable(msg)
    ensures Picks(Options(msg).value, i, optionId)
    ensures var (d, error) := PermissionHandled(c, msg, write);
      var id := msg.Get("id").value;
      && error == write && d.asked == c.asked + [id]
      && (write.None? ==>
            && d.wire == c.wire + [PermissionReply(id, Selected(optionId))]
            && d.permissionResponded && d.pendingPermissionId == None)
      && (write.Some? ==> d.wire == c.wire && !d.permissionResponded && d.pendingPermissionId == Some(id))
  {
    UnanswerableIsRead(msg);
    OptionsAreRead(msg);
    i := ChoiceIsRead(Options(msg).value);
    optionId := ChosenOption(Options(msg).value).value;
  }

  /** One that is not is refused with what is wrong with it, and nothing is written. */
  lemma PermissionIsRefused(c: Client, msg: Json, write: Write)
    requires Unanswerable(msg)
    ensures var (d, error) := PermissionHandled(c, msg, write);
      && d.wire == c.wire
      && (At(msg, ["id"]) == None ==> d == c)
      && (At(msg, ["id"]) != None ==> d.pendingPermissionId == At(msg, ["id"]) && !d.permissionResponded)
      && error == Some(Protocol(
           if At(msg, ["id"]) == None then PermissionWithoutId
           else if Options(msg) == None then PermissionWithoutOptions
           else if HasNo(Options(msg).value, "allow_once") then NoSuitableOption
           else AllowWithoutOptionId))
  {
    AtMember(msg, "id");
    UnanswerableIsRead(msg);
    OptionsAreRead(msg);
    if Options(msg).Some? {
      var i := ChoiceIsRead(Options(msg).value);
    }
  }

  // Updates and unknown requests.

  function Kind(msg: Json): Option<Json> { At(msg, ["params", "update", "sessionUpdate"]) }

  /** The active run that an update reports: a string sets it, null clears it, anything else keeps it. */
  function ReportedRun(msg: Json, current: Option<string>): Option<string> {
    match At(msg, ["params", "update", "_meta", "goose", "activeRunId"])
    case Some(Str(run)) => Some(run)
    case Some(Null) => None
    case _ => current
  }

  lemma UpdateIsRead(msg: Json, current: Option<string>)
    ensures StartsToolCall(msg) <==> Kind(msg) == Some(Str("tool_call"))
    ensures RunIdAfter(current, msg) ==
      if Kind(msg) == Some(Str("session_info_update")) then ReportedRun(msg, current) else current
  {
    var update := msg.Index("params").Index("update");
    assert ["params", "update", "sessionUpdate"] == ["params"] + (["update"] + ["sessionUpdate"]);
    AtIndex(msg, "params", ["update"] + ["sessionUpdate"]);
    AtIndex(msg.Index("params"), "update", ["sessionUpdate"]);
    AtMember(update, "sessionUpdate");
    assert ["params", "update", "_meta", "goose", "activeRunId"]
        == ["params"] + (["update"] + (["_meta"] + (["goose"] + ["activeRunId"])));
    AtIndex(msg, "params", ["update"] + (["_meta"] + (["goose"] + ["activeRunId"])));
    AtIndex(msg.Index("params"), "update", ["_meta"] + (["goose"] + ["activeRunId"]));
    AtIndex(update, "_meta", ["goose"] + ["activeRunId"]);
    AtIndex(update.Index("_meta"), "goose", ["activeRunId"]);
    AtMember(update.Index("_meta").Index("goose"), "activeRunId");
  }

  // Steer responses.

  /** What a response means for the steer it answers. */
  function ReportedAck(session: string, transport: Transport, msg: Json): SteerAck {
    var outcome := At(msg, ["result", "outcome"]);
    match At(msg, ["error"])
    case Some(error) => Failed(AgentRejected(ReportedCode(error, -1), error))
    case None =>
      if transport.Goose? || outcome == Some(Str("injected")) || outcome == Some(Str("startedNewTurn"))
      then Success(session) else Failed(OutcomeRejected(outcome))
  }

  /** The steer went into the turn that is running, as goose always reports by answering. */
  predicate ReportsInjection(transport: Transport, msg: Json) {
    && At(msg, ["error"]) == None
    && (transport.Goose? || At(msg, ["result", "outcome"]) == Some(Str("injected")))
  }

  lemma SteerResponseIsRead(session: string, transport: Transport, msg: Json)
    ensures AckFor(session, transport, msg) == ReportedAck(session, transport, msg)
    ensures Injects(transport, msg) <==> ReportsInjection(transport, msg)
  {
    AtMember(msg, "error");
    if msg.Get("error").Some? {
      AtMember(msg.Get("error").value, "code");
    }
  }

  // Stop reasons.

  /** The same letters, whatever their case. */
  predicate SameLetters(a: string, b: string) {
    && |a| == |b|
    && forall i :: 0 <= i < |a| ==>
         a[i] == b[i] || ('A' <= a[i] <= 'Z' && 'a' <= b[i] <= 'z' && a[i] as int - 'A' as int == b[i] as int - 'a' as int)
  }

  predicate IsLower(s: string) { forall i :: 0 <= i < |s| ==> !('A' <= s[i] <= 'Z') }

  lemma LowerIsSameLetters(a: string, b: string)
    requires IsLower(b)
    ensures AsciiLower(a) == b <==> SameLetters(a, b)
  {
    if SameLetters(a, b) {
      assert forall i :: 0 <= i < |a| ==> AsciiLower(a)[i] == b[i];
    } else if |a| == |b| {
      var i :| 0 <= i < |a| && !(a[i] == b[i]
        || ('A' <= a[i] <= 'Z' && 'a' <= b[i] <= 'z' && a[i] as int - 'A' as int == b[i] as int - 'a' as int));
      assert AsciiLower(a)[i] != b[i];
    }
  }
}
