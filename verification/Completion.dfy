/**
 The completion check: how an agent's answer is read, when a streak of incomplete answers ends the
 run, and the loop that asks and drives the agent on. What the agent does is a responder: what it
 answers, or whether it fails, as a function of everything it has been sent so far.
 */
module Completion {
  import opened Wrappers
  import opened Json
  import opened Text
  import opened JsonScanner
  import JsonSyntax

  // Reading an answer.

  datatype Verdict =
    | Complete
    | Incomplete(remaining: seq<string>)
    | BlockedOnHuman(needs: seq<string>)

  datatype VerdictError = NoObject | NotJson | NoComplete

  const UNNAMED := "unfinished work the agent did not name"

  /** Unicode's White_Space, which `str::trim` removes. */
  predicate IsSpace(c: char) {
    var n := c as int;
    || 9 <= n <= 13 || n == 0x20 || n == 0x85 || n == 0xA0 || n == 0x1680 || 0x2000 <= n <= 0x200A
    || n == 0x2028 || n == 0x2029 || n == 0x202F || n == 0x205F || n == 0x3000
  }

  /** An entry that says something: not empty, and no white space around it. */
  predicate IsNamed(entry: string) { entry != "" && IsTrimmed(IsSpace, entry) }

  predicate AllNamed(entries: seq<string>) {
    forall i :: 0 <= i < |entries| ==> IsNamed(entries[i])
  }

  function Entry(item: string): (entries: seq<string>)
    ensures AllNamed(entries) && (entries == [] <==> AllSpace(IsSpace, item))
  {
    TrimIsTrimmed(IsSpace, item);
    if Trim(IsSpace, item) == "" then [] else [Trim(IsSpace, item)]
  }

  predicate NamesSomething(item: Json) { item.Str? && !AllSpace(IsSpace, item.s) }

  function Entries(items: seq<Json>): (entries: seq<string>)
    ensures AllNamed(entries)
  {
    if items == [] then []
    else (if items[0].Str? then Entry(items[0].s) else []) + Entries(items[1..])
  }

  lemma {:induction false} EntriesNameSomething(items: seq<Json>)
    ensures Entries(items) != [] <==> exists i :: 0 <= i < |items| && NamesSomething(items[i])
  {
    if items != [] {
      EntriesNameSomething(items[1..]);
      assert forall i :: 0 < i < |items| ==> items[i] == items[1..][i - 1];
    }
  }

  /** The member `key` is a list that names something, or a string that does. */
  predicate NamesUnder(value: Json, key: string) {
    match value.Get(key)
    case Some(Arr(items)) => exists i :: 0 <= i < |items| && NamesSomething(items[i])
    case Some(item) => NamesSomething(item)
    case None => false
  }

  /** The list under `key`; a bare string is a list of one. */
  function StringList(value: Json, key: string): (entries: seq<string>)
    ensures AllNamed(entries) && (entries != [] <==> NamesUnder(value, key))
  {
    match value.Get(key)
    case Some(Arr(items)) =>
      EntriesNameSomething(items);
      Entries(items)
    case Some(Str(item)) => Entry(item)
    case _ => []
  }

  lemma {:induction false} EntriesOfOneMore(items: seq<Json>, last: Json)
    ensures Entries(items + [last]) == Entries(items) + (if last.Str? then Entry(last.s) else [])
  {
    hide Entry, AllNamed, IsNamed;
    if items == [] {
      assert items + [last] == [last];
    } else {
      assert (items + [last])[1..] == items[1..] + [last];
      EntriesOfOneMore(items[1..], last);
    }
  }

  lemma EntryOfItem(item: Json)
    ensures NamesSomething(item) ==> item.Str? && Entry(item.s) == [Trim(IsSpace, item.s)]
    ensures !NamesSomething(item) ==> (if item.Str? then Entry(item.s) else []) == []
  {
    if item.Str? {
      TrimIsTrimmed(IsSpace, item.s);
    }
  }

  /** `entries` are, in order and each once, the items at `at`, which are all that name something, trimmed. */
  predicate IsSelection(items: seq<Json>, at: seq<nat>, entries: seq<string>) {
    && |at| == |entries|
    && (forall j :: 0 <= j < |at| ==> at[j] < |items| && NamesSomething(items[at[j]]))
    && (forall j :: 0 <= j < |at| ==> items[at[j]].Str? && entries[j] == Trim(IsSpace, items[at[j]].s))
    && (forall j, k :: 0 <= j < k < |at| ==> at[j] < at[k])
    && forall i :: 0 <= i < |items| && NamesSomething(items[i]) ==> i in at
  }

  /** `entries` is everything that is named under `key`. */
  ghost predicate IsListUnder(value: Json, key: string, entries: seq<string>) {
    match value.Get(key)
    case Some(Arr(items)) => exists at :: IsSelection(items, at, entries)
    case Some(Str(item)) => entries == if AllSpace(IsSpace, item) then [] else [Trim(IsSpace, item)]
    case _ => entries == []
  }

  lemma {:induction false} EntriesAreTheNamedItems(items: seq<Json>) returns (at: seq<nat>)
    ensures IsSelection(items, at, Entries(items))
  {
    at := [];
    if items != [] {
      var init, last := items[..|items| - 1], items[|items| - 1];
      assert items == init + [last];
      EntryOfItem(last);
      EntriesOfOneMore(init, last);
      hide Entry, Entries, IsSelection, NamesSomething;
      at := EntriesAreTheNamedItems(init);
      SelectionOfOneMore(init, at, Entries(init), last);
      if NamesSomething(last) {
        at := at + [|init|];
      } else {
        assert Entries(init) + [] == Entries(init);
      }
    }
  }

  lemma SelectionOfOneMore(items: seq<Json>, at: seq<nat>, entries: seq<string>, last: Json)
    requires IsSelection(items, at, entries)
    ensures NamesSomething(last) ==>
      last.Str? && IsSelection(items + [last], at + [|items|], entries + [Trim(IsSpace, last.s)])
    ensures !NamesSomething(last) ==> IsSelection(items + [last], at, entries)
  {
    hide Trim, IsSpace, AllSpace;
  }

  /** The list read is all that is named, and nothing twice. */
  lemma ListIsRead(value: Json, key: string)
    ensures IsListUnder(value, key, StringList(value, key))
  {
    match value.Get(key) {
      case Some(Arr(items)) => var at := EntriesAreTheNamedItems(items);
      case Some(Str(item)) => TrimIsTrimmed(IsSpace, item);
      case _ =>
    }
  }

  function ReadVerdict(value: Json): (verdict: Result<Verdict, VerdictError>)
    ensures verdict == Ok(Complete) <==> value.Get("complete") == Some(Bool(true))
    ensures verdict.Err? <==> value.Get("complete").None? || !value.Get("complete").value.Bool?
    ensures verdict.Ok? && verdict.value.BlockedOnHuman? <==>
      value.Get("complete") == Some(Bool(false)) && NamesUnder(value, "blocked_on_human")
    ensures verdict.Ok? && verdict.value.Incomplete? <==>
      value.Get("complete") == Some(Bool(false)) && !NamesUnder(value, "blocked_on_human")
    ensures verdict.Ok? && verdict.value.BlockedOnHuman? ==>
      && verdict.value.needs == StringList(value, "blocked_on_human")
      && verdict.value.needs != [] && AllNamed(verdict.value.needs)
    ensures verdict.Ok? && verdict.value.Incomplete? ==>
      && verdict.value.remaining != [] && AllNamed(verdict.value.remaining)
      && verdict.value.remaining ==
           if NamesUnder(value, "remaining") then StringList(value, "remaining") else [UNNAMED]
  {
    match value.Get("complete")
    case Some(Bool(complete)) =>
      var blocked, remaining := StringList(value, "blocked_on_human"), StringList(value, "remaining");
      if complete then Ok(Complete)
      else if blocked != [] then Ok(BlockedOnHuman(blocked))
      else if remaining != [] then Ok(Incomplete(remaining))
      else Ok(Incomplete([UNNAMED]))
    case _ => Err(NoComplete)
  }

  function ParseVerdict(parse: string -> Option<Json>, answer: string): Result<Verdict, VerdictError> {
    match Extracted(answer)
    case None => Err(NoObject)
    case Some(found) =>
      match parse(found)
      case None => Err(NotJson)
      case Some(value) => ReadVerdict(value)
  }

  /** Fences and prose around an object, in whatever layout, do not change what it says. */
  lemma ProseDoesNotMatter(
      parse: string -> Option<Json>, prose: string, v: JsonSyntax.Value, suffix: string, value: Json)
    requires '{' !in prose && v.Object? && v.Valid() && parse(v.Print()) == Some(value)
    ensures ParseVerdict(parse, prose + v.Print() + suffix) == ReadVerdict(value)
  {
    JsonSyntax.PrintedObjectIsFound(prose, v, suffix);
  }

  /** Completion is never assumed: some object in the answer itself says that it is complete. */
  lemma CompletionIsStated(parse: string -> Option<Json>, answer: string, found: string)
    requires ParseVerdict(parse, answer) == Ok(Complete)
    requires IsFirstObject(answer, found)
    ensures parse(found).Some? && parse(found).value.Get("complete") == Some(Bool(true))
  {
    ExtractedIsFirstObject(answer, found);
  }

  // The streak.

  const MAX_CONSECUTIVE_INCOMPLETE: nat := 3
  const U32_MAX: nat := 0xFFFF_FFFF

  datatype Event = WasIncomplete | WasComplete | WasReset

  function TrailingRun(history: seq<Event>): (n: nat)
    ensures n <= |history|
  {
    if history == [] || !history[|history| - 1].WasIncomplete? then 0
    else 1 + TrailingRun(history[..|history| - 1])
  }

  lemma {:induction false} TrailingRunIsTheLongestTail(history: seq<Event>, n: nat)
    requires n <= |history|
    ensures TrailingRun(history) == n <==>
      && (forall i :: |history| - n <= i < |history| ==> history[i].WasIncomplete?)
      && (n < |history| ==> !history[|history| - n - 1].WasIncomplete?)
  {
    if history != [] && n > 0 {
      TrailingRunIsTheLongestTail(history[..|history| - 1], n - 1);
    }
  }

  class ContinuationCounter {
    var consecutiveIncomplete: nat
    ghost var history: seq<Event>

    /** The counter is the run of incomplete answers at the end of the history, saturated. */
    ghost predicate Valid()
      reads this
    {
      consecutiveIncomplete == if TrailingRun(history) < U32_MAX then TrailingRun(history) else U32_MAX
    }

    constructor ()
      ensures Valid() && history == []
    {
      consecutiveIncomplete, history := 0, [];
    }

    method RecordIncomplete() returns (mayContinue: bool)
      requires Valid()
      modifies this
      ensures Valid() && history == old(history) + [WasIncomplete]
      ensures mayContinue <==> TrailingRun(history) < 3
    {
      consecutiveIncomplete := if consecutiveIncomplete < U32_MAX then consecutiveIncomplete + 1 else U32_MAX;
      history := history + [WasIncomplete];
      assert history[..|history| - 1] == old(history);
      mayContinue := consecutiveIncomplete < MAX_CONSECUTIVE_INCOMPLETE;
    }

    method RecordComplete()
      requires Valid()
      modifies this
      ensures Valid() && history == old(history) + [WasComplete]
    {
      consecutiveIncomplete, history := 0, history + [WasComplete];
    }

    method Reset()
      requires Valid()
      modifies this
      ensures Valid() && history == old(history) + [WasReset]
    {
      consecutiveIncomplete, history := 0, history + [WasReset];
    }

    predicate Exhausted()
      requires Valid()
      reads this
      ensures Exhausted() <==> TrailingRun(history) >= MAX_CONSECUTIVE_INCOMPLETE
    {
      consecutiveIncomplete >= MAX_CONSECUTIVE_INCOMPLETE
    }
  }

  // The loop.

  datatype Prompt = Check(request: string) | Continue(remaining: seq<string>)

  /** What the agent does with the last prompt of a log: its answer, and whether a turn succeeds. */
  datatype Responder = Responder(ask: seq<Prompt> -> Option<string>, instruct: seq<Prompt> -> bool)

  datatype Outcome =
    | Finished
    | Blocked(needs: seq<string>)
    | Exhausted(remaining: seq<string>)
    | Indeterminate

  /** The verdict on the last prompt of `log`, a check; none if it cannot be asked or not be read. */
  function Judged(parse: string -> Option<Json>, r: Responder, log: seq<Prompt>): Option<Verdict> {
    match r.ask(log)
    case None => None
    case Some(answer) =>
      match ParseVerdict(parse, answer)
      case Ok(verdict) => Some(verdict)
      case Err(_) => None
  }

  /** The outcome and all the prompts sent, when `streak` incomplete answers of `cap` have been given. */
  function Driven(
      parse: string -> Option<Json>, r: Responder, request: string, cap: nat,
      streak: nat, log: seq<Prompt>): (Outcome, seq<Prompt>)
    decreases cap - streak
  {
    var asked := log + [Check(request)];
    match Judged(parse, r, asked)
    case None => (Indeterminate, asked)
    case Some(Complete) => (Finished, asked)
    case Some(BlockedOnHuman(needs)) => (Blocked(needs), asked)
    case Some(Incomplete(remaining)) =>
      var told := asked + [Continue(remaining)];
      if streak + 1 >= cap then (Exhausted(remaining), asked)
      else if !r.instruct(told) then (Indeterminate, told)
      else Driven(parse, r, request, cap, streak + 1, told)
  }

  method RunCompletionLoop(parse: string -> Option<Json>, r: Responder, request: string)
      returns (outcome: Outcome, log: seq<Prompt>)
    ensures (outcome, log) == Driven(parse, r, request, 3, 0, [])
  {
    log := [];
    var counter := new ContinuationCounter();
    while true
      invariant fresh(counter) && counter.Valid()
      invariant TrailingRun(counter.history) == |counter.history| < MAX_CONSECUTIVE_INCOMPLETE
      invariant Driven(parse, r, request, MAX_CONSECUTIVE_INCOMPLETE, 0, []) ==
        Driven(parse, r, request, MAX_CONSECUTIVE_INCOMPLETE, |counter.history|, log)
      decreases MAX_CONSECUTIVE_INCOMPLETE - |counter.history|
    {
      log := log + [Check(request)];
      var answer := r.ask(log);
      if answer.None? {
        return Indeterminate, log;
      }
      var verdict := ParseVerdict(parse, answer.value);
      if verdict.Err? {
        return Indeterminate, log;
      }
      match verdict.value {
        case Complete => return Finished, log;
        case BlockedOnHuman(needs) => return Blocked(needs), log;
        case Incomplete(remaining) =>
          ghost var before := counter.history;
          var mayContinue := counter.RecordIncomplete();
          assert counter.history[..|counter.history| - 1] == before;
          if !mayContinue {
            return Exhausted(remaining), log;
          }
          log := log + [Continue(remaining)];
          if !r.instruct(log) {
            return Indeterminate, log;
          }
      }
    }
  }

  /** The answer to the last check of `log` has `value` as its first object. */
  ghost predicate Finds(parse: string -> Option<Json>, r: Responder, log: seq<Prompt>, value: Json) {
    && r.ask(log).Some?
    && exists found :: IsFirstObject(r.ask(log).value, found) && parse(found) == Some(value)
  }

  ghost predicate SaysBlocked(value: Json, needs: seq<string>) {
    && value.Get("complete") == Some(Bool(false))
    && needs != [] && IsListUnder(value, "blocked_on_human", needs)
  }

  ghost predicate SaysIncomplete(value: Json, remaining: seq<string>) {
    && value.Get("complete") == Some(Bool(false)) && !NamesUnder(value, "blocked_on_human")
    && if NamesUnder(value, "remaining") then remaining != [] && IsListUnder(value, "remaining", remaining)
       else remaining == ["unfinished work the agent did not name"]
  }

  predicate SaysNeither(value: Json) {
    value.Get("complete") != Some(Bool(true)) && value.Get("complete") != Some(Bool(false))
  }

  /**
   What the answer to the last check comes to: what its first object states, and none when it could
   not be asked, has no object that parses, or one that does not say whether the work is complete.
   */
  ghost predicate Answers(
      parse: string -> Option<Json>, r: Responder, log: seq<Prompt>, verdict: Option<Verdict>)
  {
    match verdict
    case Some(Complete) => exists value :: Finds(parse, r, log, value) && value.Get("complete") == Some(Bool(true))
    case Some(BlockedOnHuman(needs)) => exists value :: Finds(parse, r, log, value) && SaysBlocked(value, needs)
    case Some(Incomplete(remaining)) => exists value :: Finds(parse, r, log, value) && SaysIncomplete(value, remaining)
    case None => forall value :: Finds(parse, r, log, value) ==> SaysNeither(value)
  }

  lemma OnlyOneObject(parse: string -> Option<Json>, r: Responder, log: seq<Prompt>, v: Json, u: Json)
    requires Finds(parse, r, log, v) && Finds(parse, r, log, u)
    ensures v == u
  {
    var answer := r.ask(log).value;
    var found :| IsFirstObject(answer, found) && parse(found) == Some(v);
    var other :| IsFirstObject(answer, other) && parse(other) == Some(u);
    ExtractedIsFirstObject(answer, found);
    ExtractedIsFirstObject(answer, other);
  }

  lemma VerdictIsRead(value: Json)
    ensures match ReadVerdict(value)
      case Ok(Complete) => value.Get("complete") == Some(Bool(true))
      case Ok(BlockedOnHuman(needs)) => SaysBlocked(value, needs)
      case Ok(Incomplete(remaining)) => SaysIncomplete(value, remaining)
      case Err(_) => SaysNeither(value)
  {
    hide IsListUnder, StringList, NamesUnder, ReadVerdict;
    ListIsRead(value, "blocked_on_human");
    ListIsRead(value, "remaining");
  }

  lemma JudgementIsRead(parse: string -> Option<Json>, r: Responder, log: seq<Prompt>)
    ensures Answers(parse, r, log, Judged(parse, r, log))
  {
    hide ReadVerdict, IsFirstObject, Extracted, SaysBlocked, SaysIncomplete;
    if r.ask(log).Some? {
      var answer := r.ask(log).value;
      if Extracted(answer).Some? {
        ExtractedIsFirstObject(answer, Extracted(answer).value);
        if parse(Extracted(answer).value).Some? {
          var value := parse(Extracted(answer).value).value;
          assert Finds(parse, r, log, value);
          VerdictIsRead(value);
        }
      }
      forall value | Finds(parse, r, log, value)
        ensures Extracted(answer).Some? && parse(Extracted(answer).value) == Some(value)
      {
        var found :| IsFirstObject(answer, found) && parse(found) == Some(value);
        ExtractedIsFirstObject(answer, found);
      }
    }
  }

  /** One answer cannot come to verdicts of two kinds. */
  lemma OnlyOneVerdict(
      parse: string -> Option<Json>, r: Responder, log: seq<Prompt>, a: Option<Verdict>, b: Option<Verdict>)
    requires Answers(parse, r, log, a) && Answers(parse, r, log, b)
    ensures a.None? <==> b.None?
    ensures a == Some(Complete) <==> b == Some(Complete)
    ensures a.Some? && a.value.Incomplete? <==> b.Some? && b.value.Incomplete?
  {
    hide Finds, IsListUnder;
    forall v, u | Finds(parse, r, log, v) && Finds(parse, r, log, u)
      ensures v == u
    {
      OnlyOneObject(parse, r, log, v, u);
    }
    forall v, needs | SaysBlocked(v, needs)
      ensures NamesUnder(v, "blocked_on_human")
    {
      ListedIsNamed(v, "blocked_on_human", needs);
    }
  }

  lemma ListedIsNamed(value: Json, key: string, entries: seq<string>)
    requires IsListUnder(value, key, entries) && entries != []
    ensures NamesUnder(value, key)
  {
    match value.Get(key) {
      case Some(Arr(items)) =>
        var at :| IsSelection(items, at, entries);
        assert NamesSomething(items[at[0]]);
      case _ =>
    }
  }

  /** A log of checks and continuations: every continuation names what the check before it left over. */
  ghost predicate Alternates(parse: string -> Option<Json>, r: Responder, request: string, log: seq<Prompt>) {
    forall i :: 0 <= i < |log| ==>
      if i % 2 == 0 then
        && log[i] == Check(request)
        && (i > 0 ==> r.instruct(log[..i]))
      else
        && log[i].Continue?
        && Answers(parse, r, log[..i], Some(Incomplete(log[i].remaining)))
  }

  /** How a run that sent `log` ended, exactly, given that at most `cap` checks are made. */
  ghost predicate EndsAs(
      parse: string -> Option<Json>, r: Responder, cap: nat, log: seq<Prompt>, outcome: Outcome)
    requires log != []
  {
    var checked := log[|log| - 1].Check?;
    && (outcome == Finished <==> checked && Answers(parse, r, log, Some(Complete)))
    && (outcome == Indeterminate <==> if checked then Answers(parse, r, log, None) else !r.instruct(log))
    && (outcome.Blocked? <==> checked && exists needs :: Answers(parse, r, log, Some(BlockedOnHuman(needs))))
    && (outcome.Blocked? ==> Answers(parse, r, log, Some(BlockedOnHuman(outcome.needs))))
    && (outcome.Exhausted? <==> checked && exists remaining :: Answers(parse, r, log, Some(Incomplete(remaining))))
    && (outcome.Exhausted? ==>
          |log| == 2 * cap - 1 && Answers(parse, r, log, Some(Incomplete(outcome.remaining))))
  }

  /** The outcome that goes with a verdict is the only one that does. */
  lemma EndsByVerdict(
      parse: string -> Option<Json>, r: Responder, cap: nat, log: seq<Prompt>, verdict: Option<Verdict>, outcome: Outcome)
    requires log != [] && log[|log| - 1].Check? && Answers(parse, r, log, verdict)
    requires match verdict
      case None => outcome == Indeterminate
      case Some(Complete) => outcome == Finished
      case Some(BlockedOnHuman(needs)) => outcome == Blocked(needs)
      case Some(Incomplete(remaining)) => outcome == Exhausted(remaining) && |log| == 2 * cap - 1
    ensures EndsAs(parse, r, cap, log, outcome)
  {
    hide Answers;
    forall other | Answers(parse, r, log, other)
      ensures verdict.None? <==> other.None?
      ensures verdict == Some(Complete) <==> other == Some(Complete)
      ensures verdict.Some? && verdict.value.Incomplete? <==> other.Some? && other.value.Incomplete?
    {
      OnlyOneVerdict(parse, r, log, verdict, other);
    }
  }

  lemma AlternatesAndOneMore(
      parse: string -> Option<Json>, r: Responder, request: string, log: seq<Prompt>, last: Prompt)
    requires Alternates(parse, r, request, log)
    requires if |log| % 2 == 0 then last == Check(request) && (log != [] ==> r.instruct(log))
             else last.Continue? && Answers(parse, r, log, Some(Incomplete(last.remaining)))
    ensures Alternates(parse, r, request, log + [last])
  {
    hide Answers;
    var all := log + [last];
    assert forall i :: 0 <= i <= |log| ==> all[..i] == log[..i];
    assert log[..|log|] == log;
  }

  /**
   For every responder and every cap: at most `cap` checks and `cap - 1` continuations, alternating;
   every check but the last was answered with work that remains, which the continuation after it
   passes on; and the outcome says exactly what the last prompt came to, as the answer states it.
   */
  lemma {:induction false} RunAlternates(
      parse: string -> Option<Json>, r: Responder, request: string, cap: nat, streak: nat, log: seq<Prompt>)
    requires streak < cap && |log| == 2 * streak
    requires Alternates(parse, r, request, log) && (log != [] ==> r.instruct(log))
    ensures var (outcome, all) := Driven(parse, r, request, cap, streak, log);
            && 1 <= |all| <= 2 * cap - 1
            && Alternates(parse, r, request, all)
            && EndsAs(parse, r, cap, all, outcome)
    decreases cap - streak
  {
    hide Alternates, Answers, Judged, EndsAs;
    var asked := log + [Check(request)];
    JudgementIsRead(parse, r, asked);
    AlternatesAndOneMore(parse, r, request, log, Check(request));
    var verdict := Judged(parse, r, asked);
    match verdict {
      case Some(Incomplete(remaining)) =>
        var told := asked + [Continue(remaining)];
        AlternatesAndOneMore(parse, r, request, asked, Continue(remaining));
        if streak + 1 >= cap {
          EndsByVerdict(parse, r, cap, asked, verdict, Exhausted(remaining));
        } else if r.instruct(told) {
          RunAlternates(parse, r, request, cap, streak + 1, told);
        } else {
          EndsByFailure(parse, r, cap, told);
        }
      case Some(Complete) => EndsByVerdict(parse, r, cap, asked, verdict, Finished);
      case Some(BlockedOnHuman(needs)) => EndsByVerdict(parse, r, cap, asked, verdict, Blocked(needs));
      case None => EndsByVerdict(parse, r, cap, asked, verdict, Indeterminate);
    }
  }

  lemma EndsByFailure(parse: string -> Option<Json>, r: Responder, cap: nat, log: seq<Prompt>)
    requires log != [] && log[|log| - 1].Continue? && !r.instruct(log)
    ensures EndsAs(parse, r, cap, log, Indeterminate)
  {
  }

  /** The run is handed back exactly when `cap` checks were made and every answer names work that remains. */
  lemma ExhaustedExactlyAtTheCap(parse: string -> Option<Json>, r: Responder, request: string, cap: nat)
    requires cap > 0
    ensures var (outcome, all) := Driven(parse, r, request, cap, 0, []);
            outcome.Exhausted? <==>
              && |all| == 2 * cap - 1
              && forall i {:trigger all[..i]} :: 0 < i <= |all| && i % 2 == 1 ==>
                   exists remaining :: Answers(parse, r, all[..i], Some(Incomplete(remaining)))
  {
    hide Driven, Answers;
    RunAlternates(parse, r, request, cap, 0, []);
    var (outcome, all) := Driven(parse, r, request, cap, 0, []);
    assert all[..|all|] == all;
    if outcome.Exhausted? {
      forall i | 0 < i <= |all| && i % 2 == 1
        ensures exists remaining :: Answers(parse, r, all[..i], Some(Incomplete(remaining)))
      {
        if i < |all| {
          assert Answers(parse, r, all[..i], Some(Incomplete(all[i].remaining)));
        }
      }
    }
  }
}
