# Colony, modelled and proved in Dafny

Colony is a workspace in which people and software agents share channels. This project models the
parts of it that are algorithms rather than plumbing, and proves what they promise.

- **The agent protocol** (`AcpProtocol`, `AcpReading`, `AcpRuns`, `AcpPasses`, `AcpCalls`, `AcpClient`). The harness talks JSON-RPC
  to an agent process: it prompts, steers a running turn, answers permission requests, and gives up on
  an idle or a hard deadline, after which a cancel drains the turn on the deadline it inherits. The
  client is a class, as in the source; a function says what one pass of its read loop does, and the
  theorems are about whole waits and whole sequences of calls. The class is proved to do exactly that.
  What the agent's messages say is told a second time, member by member of the JSON, and every pass, reply
  and result is proved to be the one that the messages call for.
- **Layered configuration** (`ConfigMerge`): the recursive JSON merge, path by path.
- **npub strings** (`Bech32`, `BitRegroup`, `Npub`): the bech32 checksum as linear algebra over GF(2)
  (the Checksum part of BIP 173), bit regrouping on 32-bit integers, and the `npub` strings of NIP-19.
- **The completion check** (`JsonScanner`, `JsonSyntax`, `Completion`): the brace scanner against the
  grammar of RFC 8259, and the bounded ask-and-continue loop.
- **The bus harness** (`Resp`, `BusTopics`, `BusScaling`): the Redis protocol codec, and delivery counts
  against the arithmetic model of the same scenario.
- **The apt source rewriter** (`PyText`, `AptSources`, `AptPrepare`).
- **Subscription filters** (`ChannelFilters`), resolved for all channels and for one.
- **Audio worklets** (`Batches`, `DictationWorklet`, `SttTapWorklet`).

`Json.dfy`, `Text.dfy` and `Sequences.dfy` hold what several of these share. Methods with loops and classes mirror the
imperative source; each is proved equal to a function, and the lemmas about that function say what it
means, in terms of the messages, texts and numbers that go in and come out. Clocks, writes, the agent's output, other processes, JSON parsing and UTF-8 come in as arguments,
so every statement holds for all of them.

Where the code and its comments differ, the model follows the code:

- A comment in the read loop (`crates/buzz-acp/src/acp.rs:1553-1555`) says a pending steer is drained on
  every return path. Two error exits (lines 1926 and 1940) drop it without an answer:
  `AcpCalls.MalformedPermissionDropsSteer` and `AcpCalls.FailedRefusalDropsSteer` are such runs, and
  `AcpRuns.EverySteerIsAcknowledged` says exactly when it happens.
- One comment (`crates/buzz-acp/src/acp.rs:1501-1503`) resets the idle deadline on every line of output.
  The code does so only for lines that are JSON (`AcpRuns.BlankLineKeepsIdleDeadline`), and once more
  for a tool call that starts; `AcpRuns.OnlyMessagesResetIdle` says exactly when.
- The bus harness accepts a negative number of interested pods. Its two modes then disagree:
  `BusScaling.ModelPredictsMeasurement` says exactly when they agree, `BusScaling.NegativeInterestDisagrees`
  shows a case.
- An audio block of more than 960 samples can overflow the speech tap's new buffer, and then samples are
  lost: `SttTapWorklet.BlockConserves` says exactly when, `SttTapWorklet.LongBlockLosesSamples` shows a case.

## Model

| member | source | states |
|---|---|---|
| AcpRuns.EverySteerIsAcknowledged | crates/buzz-acp/src/acp.rs:1532-1948 | over any wait, acknowledgement `i` goes to steer request `i`, no request gets two, and one is left without any if and only if the last pass, begun in time, reads while a steer is pending a message that answers neither id and whose handling fails; ids stay in order and deadlines never go back |
| AcpRuns.DispatchFailsExactly | crates/buzz-acp/src/acp.rs:1912-1943 | handling a message fails exactly for a permission request without id, options, or an answerable option, or whose reply cannot be written, and for an unknown request whose refusal cannot be written |
| AcpCalls.MalformedPermissionDropsSteer | crates/buzz-acp/src/acp.rs:1925-1927 | from spawn, initialize and an installed receiver: a prompt, a steer written, then a permission request without an id; the wait ends with the steer unanswered |
| AcpCalls.FailedRefusalDropsSteer | crates/buzz-acp/src/acp.rs:1928-1941 | the same at the other `?` exit: an unknown request whose refusal cannot be written |
| AcpRuns.StepKeepsLoop | crates/buzz-acp/src/acp.rs:1566-1947 | every pass keeps: at most one steer pending, under an id newer than the awaited one and already counted; permission replies never exceed requests; nothing recorded is taken back |
| AcpRuns.SuccessIsEarned | crates/buzz-acp/src/acp.rs:1788-1889 | a `Success` is sent in a pass that finds that very steer written and pending and reads an error-free response to it, on the extension transport with outcome `injected` or `startedNewTurn` |
| AcpRuns.NoReceiverNoSteers | crates/buzz-acp/src/acp.rs:1542-1625 | without a steer receiver a wait takes, answers and renews for no steer |
| AcpRuns.FirstResponseIsReturned | crates/buzz-acp/src/acp.rs:1788-1909 | a wait returns what the first message with the awaited id and no method reports: its error as code and text, else its result, else null; it passes none over, and returns nothing else as the response |
| AcpReading.ResponseIsRead | crates/buzz-acp/src/acp.rs:1459-1466 | an error in a response is an agent error, with its 64-bit `code` or -32000 and its text or else all of it; without an error the outcome is `result`, or null |
| AcpReading.PermissionIsAnswered | crates/buzz-acp/src/acp.rs:2183-2258 | an answerable permission request gets one reply, under its own id: the `optionId` of the lowest index of kind `allow_once`, or else that of the lowest `reject_once`, or `reject` if that has none; it stays pending exactly if the write fails |
| AcpReading.PermissionIsRefused | crates/buzz-acp/src/acp.rs:2183-2258 | any other one is refused with what is wrong with it, and nothing is written |
| AcpReading.UpdateIsRead | crates/buzz-acp/src/acp.rs:1965-2076 | an update sets the active run to a string, clears it on null and keeps it otherwise; a tool call starts exactly on kind `tool_call` |
| AcpReading.SteerResponseIsRead | crates/buzz-acp/src/acp.rs:1798-1889 | what the sender of a steer is told, by the error, outcome and session that the response to it names |
| AcpPasses.DispatchIsRead | crates/buzz-acp/src/acp.rs:1912-1943 | what handling any message does to the wire, the pending permission, the active run, and whether and with what it ends the wait |
| AcpPasses.EveryPassIsRead | crates/buzz-acp/src/acp.rs:1566-1947 | each pass of any wait does what its clock readings and its arrival call for: which timeout, which steer by which transport, which acknowledgement, which answer, which reply; what closed output ends is reported so |
| AcpPasses.WaitWrites | crates/buzz-acp/src/acp.rs:1532-1948 | a wait takes nothing off the wire and adds only steers, selected permission replies and refusals |
| AcpRuns.PassesBeginInTime | crates/buzz-acp/src/acp.rs:1566-1599 | every pass of a wait but the last begins before both deadlines as they then stand; one that begins later ends the wait as a timeout and leaves the client alone |
| AcpRuns.OnlyInjectedSteersRenew | crates/buzz-acp/src/acp.rs:1832-1864 | the hard deadline moves exactly when a steer injected into the awaited turn would put it later, to `max_duration` from then, together with the client's copy |
| AcpRuns.OnlyMessagesResetIdle | crates/buzz-acp/src/acp.rs:1752-1921 | the idle deadline moves with JSON messages only: to `idle_timeout` after the message was read, or after it was handled if it starts a tool call |
| AcpRuns.BlankLineKeepsIdleDeadline | crates/buzz-acp/src/acp.rs:1754-1777 | a line that is blank or no JSON does not put off an idle timeout |
| AcpRuns.ClientSharesHardDeadline | crates/buzz-acp/src/acp.rs:1561-1864 | in a prompt turn the client's deadline is the loop's throughout; a drain leaves one behind exactly when a steer renewed it |
| AcpRuns.TurnEndsInTime | crates/buzz-acp/src/acp.rs:1566-1720 | with `k` renewals and passes late by at most `d`, no clock reading of a wait comes after `begun + max_duration + k * (max_duration + d) + d` |
| AcpRuns.TimeoutsAreEarned | crates/buzz-acp/src/acp.rs:1566-1720 | an idle timeout comes at least `idle_timeout` after every JSON message read, a hard timeout never before the hard deadline |
| AcpCalls.FirstPlainResponseIsReturned | crates/buzz-acp/src/acp.rs:1408-1499 | the plain wait returns what the first awaited response reports, unless it ended before it, and leaves the client as the lines before did |
| AcpCalls.PlainLineIsRead | crates/buzz-acp/src/acp.rs:1408-1499 | what every other line does to the wire and the client, and whether and how it ends the plain wait |
| AcpCalls.RequestReportsResponse | crates/buzz-acp/src/acp.rs:1313-1343 | a request returns the error or result of the first response under its id |
| AcpCalls.CapabilityIsRead | crates/buzz-acp/src/acp.rs:693-706 | `initialize` takes the steering capability from `_meta.steering.supported` of the result alone |
| AcpCalls.StopReasonIsRead | crates/buzz-acp/src/acp.rs:2260-2268 | a result ends the turn by the stop reason it names, in any case; an unknown or missing one is an error |
| AcpCalls.PromptIsThisRun | crates/buzz-acp/src/acp.rs:966-1030 | a prompt written is the run awaiting its id under its two deadlines and reports how that ends; one not written is over, with nothing in flight |
| AcpCalls.PromptReportsResponse | crates/buzz-acp/src/acp.rs:966-1030 | an answered prompt reports the error of its response, or the stop reason of the result in it |
| AcpCalls.RequestLeavesTurnAlone | crates/buzz-acp/src/acp.rs:1313-1343 | a plain request uses one id and leaves prompt, deadline and steer receiver alone |
| AcpCalls.PromptKeepsPairing | crates/buzz-acp/src/acp.rs:966-1030 | after a prompt, id and deadline are both set exactly when it timed out, with its own id and a deadline no earlier than the first |
| AcpCalls.PromptEndsInTime | crates/buzz-acp/src/acp.rs:966-1010 | a turn with `k` renewals makes no clock reading after `(k + 1) * (max_duration + d)` from its start |
| AcpCalls.CancelEndsTurn | crates/buzz-acp/src/acp.rs:1230-1278 | a cancel leaves no prompt in flight, and a deadline exactly when it drained the turn and a steer renewed it meanwhile, which takes a receiver installed for the drain |
| AcpCalls.CancelsKeepResting | crates/buzz-acp/src/acp.rs:1170-1228 | both cancels bring the client to rest: no prompt, no deadline, no stray receiver |
| AcpCalls.FurtherCancelsDoNothing | crates/buzz-acp/src/acp.rs:1170-1240 | after one cancel, any number of further ones leave the client as it is and write nothing |
| AcpCalls.CancelIsWritten | crates/buzz-acp/src/acp.rs:1230-1278 | a cancel writes the answer to an open permission request, then one cancel notice, then only what a read loop writes, so no second notice; a write that fails leaves exactly what came before it on the wire |
| AcpCalls.CancelsAreWritten | crates/buzz-acp/src/acp.rs:1170-1228 | the same of both cancels with a prompt in flight |
| AcpCalls.CancelsAreTheseRuns | crates/buzz-acp/src/acp.rs:1170-1278 | both cancels drain by the run awaiting the prompt's own id: until the later of its deadline and 30 seconds from now, or for the grace, and running out of that is reported as such |
| AcpCalls.CancelEndsInTime | crates/buzz-acp/src/acp.rs:1170-1278 | the inheriting cancel drains on the later of the inherited deadline and 30 seconds from now, the other on its grace; neither makes a clock reading more than one late pass after it |
| AcpCalls.CallsKeepPairing | crates/buzz-acp/src/acp.rs:966-1278 | over any sequence of calls with receivers installed only right before a prompt: a prompt is in flight exactly when the last prompt or cancel was a prompt that timed out, exactly then there is a deadline, ids strictly increase, no permission request is answered twice |
| AcpCalls.PairedSinceSpawn | crates/buzz-acp/src/acp.rs:966-1278 | the same at every return since the client was spawned |
| AcpCalls.StrayReceiverBreaksPairing | crates/buzz-acp/src/acp.rs:1261-1278 | the order is needed: a receiver installed between a timed-out prompt and its cancel can leave a deadline without a prompt |
| AcpClientModule.AcpClient.Initialize | crates/buzz-acp/src/acp.rs:693-706 | `initialize` does what the call model says, and sets the steering capability from the response |
| AcpClientModule.AcpClient.HandlePermissionRequest | crates/buzz-acp/src/acp.rs:2183-2258 | the handler does what the protocol model says, failed write included; which reply that is, `AcpReading.PermissionIsAnswered` says |
| AcpClientModule.AcpClient.HandleSessionUpdate | crates/buzz-acp/src/acp.rs:1965-2076 | a session update changes only the active run id and tells whether a tool call started |
| AcpClientModule.AcpClient.ReadUntilResponse | crates/buzz-acp/src/acp.rs:1408-1499 | the plain loop returns and leaves behind what the function of its lines says |
| AcpClientModule.AcpClient.SendRequest | crates/buzz-acp/src/acp.rs:1313-1343 | writing and waiting refine the modelled request |
| AcpClientModule.AcpClient.ReadUntilResponseWithIdleTimeout | crates/buzz-acp/src/acp.rs:1532-1948 | the loop over deadlines and a pending steer ends as the run of the modelled steps does, with the same acknowledgements |
| AcpClientModule.AcpClient.SessionPrompt | crates/buzz-acp/src/acp.rs:966-1030 | a prompt refines the modelled one, result, client and acknowledgements |
| AcpClientModule.AcpClient.CancelWithCleanupUntil | crates/buzz-acp/src/acp.rs:1230-1278 | a cancel refines the modelled one on all its exits |
| AcpClientModule.AcpClient.CancelWithCleanup | crates/buzz-acp/src/acp.rs:1170-1201 | the inheriting cancel refines the modelled one |
| AcpClientModule.AcpClient.CancelWithCleanupGrace | crates/buzz-acp/src/acp.rs:1214-1228 | the bounded cancel refines the modelled one; a drain that runs out is no hard timeout |
| ConfigMerge.DeepMerge | crates/buzz-acp/src/acp.rs:245-265 | the pass over the overlay computes the recursive merge |
| ConfigMerge.MergeAtPath | crates/buzz-acp/src/acp.rs:245-265 | what any path of a merge leads to, in terms of the two sides: overlay values win, objects on both sides merge, a replaced object hides all below it |
| ConfigMerge.BaseLeafSurvives | crates/buzz-acp/src/acp.rs:242-265 | a base leaf is kept exactly when the overlay binds neither its path differently nor a non-object above it |
| ConfigMerge.MergeIsIdempotent | crates/buzz-acp/src/acp.rs:245-265 | merging the same layer again changes nothing |
| ConfigMerge.CoveredLayerIsInvisible | crates/buzz-acp/src/acp.rs:245-265 | a layer vanishes under another exactly when that one covers it |
| ConfigMerge.MergeAssociatesExactlyWhenGroupable | crates/buzz-acp/src/acp.rs:245-265 | merging is associative on exactly the layers whose shapes are compatible |
| ConfigMerge.MergeIsNotAssociative | crates/buzz-acp/src/acp.rs:245-265 | three objects for which the grouping matters |
| ConfigMerge.LastBindingWins | crates/buzz-acp/src/acp.rs:294-362 | in a stack of layers a leaf is the one of the last layer that binds its path |
| ConfigMerge.BuildCodexConfigEnv | crates/buzz-acp/src/acp.rs:294-382 | built exactly with a generated entry: a leaf of the parent's text is in the config, an entry's unless a later text binds or cuts its path, and no other leaf is, apart from network access, which is granted; refused by the first text that is no object, or a sandbox entry that is none |
| ConfigMerge.BuiltFromTexts | crates/buzz-acp/src/acp.rs:294-381 | the stack under the forced overlay holds, path by path, the leaves of the last text that says anything there |
| ConfigMerge.ForcedChangesOnePath | crates/buzz-acp/src/acp.rs:364-381 | the forced overlay makes network access true and changes no path beside it |
| Gf2Step.StepIsLinear | admin-web/src/npub.ts:16-28 | one checksum step is linear over GF(2) |
| Gf2Step.StepIsInjective | admin-web/src/npub.ts:12-28 | no non-zero 30-bit checksum becomes zero in a step on a zero symbol, or leaves 30 bits |
| Gf2Step.StepDividesByGenerator | admin-web/src/npub.ts:12-28 | over GF(32), a step moves the six symbols up and takes off the multiple of the generator polynomial of BIP 173, coefficients 29, 22, 20, 21, 29, 18 |
| Bech32.ComputePolymod | admin-web/src/npub.ts:16-28 | the loop computes the fold of the step |
| Bech32.PolymodIsLinear | admin-web/src/npub.ts:16-28 | the checksum of a sum of sequences is the sum of the checksums |
| Bech32.WindowIsSeen | admin-web/src/npub.ts:16-28 | up to six symbols, not all zero, shifted into an empty checksum leave it non-zero |
| Bech32.ComputeChecksum | admin-web/src/npub.ts:40-48 | the loop over shifts computes the six checksum symbols |
| Bech32.AppendedSymbolsAdd | admin-web/src/npub.ts:40-48 | six symbols of a value, appended, add exactly that value to the checksum |
| Bech32.ChecksumVerifies | admin-web/src/npub.ts:16-48 | for every prefix and all data, the data with its checksum verifies, and the checksum is six 5-bit symbols |
| Bech32.KnownStringVerifies | admin-web/src/npub.ts:16-48 | `a12uel5l`, the first valid string of BIP 173, verifies |
| Bech32.BurstChangesPolymod | admin-web/src/npub.ts:16-28 | changing one symbol, or any within six neighbouring places, changes the checksum of a sequence of any length |
| Bech32.BurstIsDetected | admin-web/src/npub.ts:12-48 | a codeword so altered never verifies |
| BitRegroup.ConvertBitsTo5 | admin-web/src/npub.ts:50-66 | though the accumulator wraps at 32 bits, the words spell the bits of the bytes in groups of five, zero padded, and number ceil(8n/5) |
| BitRegroup.PushAppendsByte | admin-web/src/npub.ts:55-55 | pushing a byte onto the wrapping accumulator keeps the bits not yet taken and appends eight |
| BitRegroup.BitsAreBinary | admin-web/src/npub.ts:50-66 | the bits of a number are its binary notation, high bit first |
| BitRegroup.RegroupingIsInjective | admin-web/src/npub.ts:50-66 | byte sequences of any lengths regroup to the same words only if they are the same |
| Npub.PubkeyToNpub | admin-web/src/npub.ts:68-81 | null for anything but 64 hex digits; otherwise 63 characters that start with `npub1`, verify, and spell the key's bytes |
| Npub.ValueOfCharset | admin-web/src/npub.ts:10-10 | symbol `n` is spelt by character `n` of the alphabet, and no two are spelt alike |
| Npub.SpeltKeyIsRead | admin-web/src/npub.ts:68-75 | 64 hex digits in either case, white space around or not, are a key, byte `i` from digits `2i` and `2i + 1` |
| Npub.ReadKeyIsSpelt | admin-web/src/npub.ts:68-75 | nothing else is a key |
| Npub.TypoIsDetected | admin-web/src/npub.ts:68-81 | two strings that both denote something cannot differ in six neighbouring characters only |
| Npub.DenotationIsOneToOne | admin-web/src/npub.ts:68-81 | bytes determine the string and the string the bytes |
| Npub.NpubIdentifiesKey | admin-web/src/npub.ts:68-81 | two normalised keys have the same npub only if they are the same key |
| JsonScanner.ExtractJsonObject | crates/buzz-acp/src/completion_check.rs:186-217 | the one-pass loop, whose depth never goes below zero, returns what the recursive scan does |
| JsonScanner.ScanCountsOpenBraces | crates/buzz-acp/src/completion_check.rs:193-214 | the scan's depth is the number of open braces in the text with its string literals taken out |
| JsonScanner.ExtractedIsFirstObject | crates/buzz-acp/src/completion_check.rs:180-217 | a text is returned if and only if it is the shortest stretch from the first brace with braces balanced outside strings |
| JsonSyntax.QuietValue | crates/buzz-acp/src/completion_check.rs:193-214 | any JSON value of RFC 8259, however laid out and escaped, leaves the scan as it was and never takes it lower |
| JsonSyntax.PrintedObjectIsFound | crates/buzz-acp/src/completion_check.rs:180-217 | any JSON object, after any prose without a brace and before any suffix, is returned exactly |
| Completion.EntriesAreTheNamedItems | crates/buzz-acp/src/completion_check.rs:223-232 | the list read is, in order and each once, the strings that are not blank, trimmed |
| Completion.ListIsRead | crates/buzz-acp/src/completion_check.rs:223-237 | an array gives all it names, a string that is not blank itself, anything else nothing |
| Completion.ReadVerdict | crates/buzz-acp/src/completion_check.rs:150-178 | complete exactly for a literal `true`, an error exactly without a boolean, otherwise blocked exactly when something is named under `blocked_on_human`, whatever is remaining; what is listed is never empty, always named, and taken from its own field or the placeholder |
| Completion.ProseDoesNotMatter | crates/buzz-acp/src/completion_check.rs:135-178 | fences, prose and layout around an object do not change the verdict |
| Completion.CompletionIsStated | crates/buzz-acp/src/completion_check.rs:135-178 | completion is never assumed: the first object of the answer itself says so |
| Completion.JudgementIsRead | crates/buzz-acp/src/completion_check.rs:135-178 | an answer comes to what its first object states under `complete`, `blocked_on_human` and `remaining`, and to nothing if it could not be asked for, has no object that parses, or none with a boolean `complete` |
| Completion.TrailingRunIsTheLongestTail | crates/buzz-acp/src/completion_check.rs:248-265 | the run counted is the longest tail of incompletes in the history |
| Completion.ContinuationCounter.RecordIncomplete | crates/buzz-acp/src/completion_check.rs:261-264 | over any history the saturating counter is the trailing run of incompletes, and work may go on while that is below 3 |
| Completion.RunCompletionLoop | crates/buzz-acp/src/completion_check.rs:371-428 | the loop with its counter refines the modelled run with cap 3, for every responder |
| Completion.RunAlternates | crates/buzz-acp/src/completion_check.rs:371-428 | for any cap `n`: at most `n` checks and `n - 1` continuations, alternating, each continuation passing on what the answer before left over; finished, blocked or exhausted exactly when the first object of the last answer says so, indeterminate exactly when it says neither or a continuation failed |
| Completion.ExhaustedExactlyAtTheCap | crates/buzz-acp/src/completion_check.rs:412-416 | the run is handed back if and only if `n` checks were made and the first object of every answer says that work is left |
| Resp.EncodeCommand | perf/relay_bus_scaling.py:110-117 | the frame list joined is the printed command |
| Resp.LengthReadsBack | perf/relay_bus_scaling.py:112-114 | a printed length reads back as that number under Python's `int` |
| Resp.IntIsSpelled | perf/relay_bus_scaling.py:138-138 | white space around a number and a plus sign do not count, a minus sign does |
| Resp.UnderscoreJoins | perf/relay_bus_scaling.py:138-138 | an underscore between two numbers joins them |
| Resp.OuterUnderscoreIsRefused | perf/relay_bus_scaling.py:138-138 | one before or behind a number spoils it |
| Resp.ReadResp | perf/relay_bus_scaling.py:129-153 | reading off a stream returns and consumes what the recursive reading of the bytes does, on every error path, negative lengths included |
| Resp.ByteStream.ReadLine | perf/relay_bus_scaling.py:120-126 | a line is taken up to and with its newline, or to the end |
| Resp.CommandIsRead | perf/relay_bus_scaling.py:110-153 | a command followed by any bytes reads back as exactly its parts and leaves exactly those bytes, whatever the parts contain |
| Resp.CommandsArePrefixFree | perf/relay_bus_scaling.py:110-117 | no command is a proper prefix of another, and equal bytes mean equal parts |
| Resp.PipelineIsRead | perf/relay_bus_scaling.py:110-153 | commands written back to back read back one by one |
| Resp.ReplyStays | perf/relay_bus_scaling.py:129-153 | a reply once read does not change when more bytes arrive |
| Resp.ReplyIsRead | perf/relay_bus_scaling.py:129-153 | status lines, signed integers, bulk strings, null and arrays of them, as printed, are read as what they mean and leave the rest |
| Resp.ErrorIsRaised | perf/relay_bus_scaling.py:135-153 | an error reply is raised with its text, and so is an unknown type byte |
| Resp.NegativeLengthIsRead | perf/relay_bus_scaling.py:139-153 | an array of length below -1 is empty; a bulk string of such a length is an error |
| Resp.MisplacedEndIsRefused | perf/relay_bus_scaling.py:139-146 | a bulk string that does not end where its length says is refused |
| Resp.BareNewlineIsRefused | perf/relay_bus_scaling.py:120-153 | for every type byte a line ending in a newline alone is refused |
| Resp.CutLineIsRefused | perf/relay_bus_scaling.py:120-153 | so is one that does not end; nothing at all means a closed connection |
| Resp.NoNumberIsRefused | perf/relay_bus_scaling.py:137-149 | so is a number or length that Python reads as none |
| Resp.BadTextIsRefused | perf/relay_bus_scaling.py:133-136 | a line that is no UTF-8 is refused |
| Resp.BadBulkTextIsRefused | perf/relay_bus_scaling.py:139-147 | and so is such a bulk string |
| Resp.PingIsPrinted | perf/relay_bus_scaling.py:110-117 | the bytes of one known command |
| Resp.CutCommandFails | perf/relay_bus_scaling.py:129-153 | a command cut short never reads as a reply |
| BusTopics.TopicsAreDistinct | perf/relay_bus_scaling.py:99-107 | communities have distinct ids and topics, none of them the old global one |
| BusTopics.TopicIsSpelled | perf/relay_bus_scaling.py:99-107 | a topic is `buzz:`, the dashed 32 hex digits of the community's number, `:global` |
| BusTopics.PayloadNamesItsCommunity | perf/relay_bus_scaling.py:244-248 | the community read off a payload is the one it was published for |
| BusScaling.PublishScenario | perf/relay_bus_scaling.py:294-305 | the nested loops add to every subscriber's counters what the closed sums say |
| BusScaling.GlobalBusCounts | perf/relay_bus_scaling.py:351-371 | on the global bus a pod hears communities times events, and all but the subscribed share is irrelevant |
| BusScaling.ScopedBusCounts | perf/relay_bus_scaling.py:373-393 | on the scoped bus a pod hears subscribed times events, and nothing irrelevant |
| BusScaling.MeasureRedisForPods | perf/relay_bus_scaling.py:337-410 | counting deliveries on subscribers gives the closed-form row, with its error cases |
| BusScaling.FailuresAreExact | perf/relay_bus_scaling.py:337-438 | measuring fails exactly for rates that are not whole or ids beyond 128 bits, modelling exactly for no events |
| BusScaling.TruncatedIsNearest | perf/relay_bus_scaling.py:428-435 | figures are truncated towards zero |
| BusScaling.RowInPlainNumbers | perf/relay_bus_scaling.py:413-438 | the figures of a modelled row as plain products and shares of pods, communities and events |
| BusScaling.ModelPredictsMeasurement | perf/relay_bus_scaling.py:337-438 | for a whole positive rate both modes report the same row if and only if the interest argument is not negative |
| BusScaling.NegativeInterestDisagrees | perf/relay_bus_scaling.py:337-438 | with an interest of -1 no pod subscribes and the model counts minus one delivery |
| BusScaling.ModelPassesExactlyWhen | perf/relay_bus_scaling.py:413-457 | a modelled row passes if and only if the ratio is at most pods by interested pods and the irrelevance limit is not negative |
| BusScaling.ModelCannotFail | perf/relay_bus_scaling.py:445-457 | for positive inputs and a ratio up to 1 every modelled row passes, its reduction at least communities by subscribed |
| BusScaling.AssertScaling | perf/relay_bus_scaling.py:445-457 | the loop finds the first row that fails, if one does |
| BusScaling.RunModel | perf/relay_bus_scaling.py:501-530 | a whole model-mode run on such inputs passes |
| PyText.SplitIsLines | scripts/ci-prepare-apt-sources.py:40-40 | splitting lines yields whole lines with a break between any two |
| PyText.LineHasOneBreak | scripts/ci-prepare-apt-sources.py:40-40 | a line has a break at its end only, the two characters of CR LF counting as one |
| PyText.WordComesFirst | scripts/ci-prepare-apt-sources.py:53-53 | white space, a word and what is split off it are read as that word and the words of the rest |
| PyText.SplitJoined | scripts/ci-prepare-apt-sources.py:57-57 | such lines, joined, split into themselves |
| AptSources.ListSource | scripts/ci-prepare-apt-sources.py:37-57 | the loop refuses or rewrites as the function of the lines says |
| AptSources.ListIsRewritten | scripts/ci-prepare-apt-sources.py:37-57 | output lines are input lines in order, commented out exactly where an active Chrome URI stands, and each of those spells an entry for Chrome alone; none is left; rewriting again changes nothing |
| AptSources.ChromeIsRead | scripts/ci-prepare-apt-sources.py:33-34 | a text has a Chrome URI in it exactly if one of them stands there as a word of its own |
| AptSources.ActiveIsRead | scripts/ci-prepare-apt-sources.py:41-41 | active is what stands before a hash, without the white space around it |
| AptSources.EntryIsRead | scripts/ci-prepare-apt-sources.py:45-55 | an active line is accepted if and only if it spells an entry: kind, options in brackets or none, a Chrome URI, `stable`, `main` |
| AptSources.ListIsRefusedExactly | scripts/ci-prepare-apt-sources.py:37-57 | a list is refused if and only if some line has an active Chrome URI and spells no such entry |
| AptSources.SourcesStanza | scripts/ci-prepare-apt-sources.py:60-91 | the loop over fields handles a stanza as modelled: untouched, commented out whole, or refused |
| AptSources.StanzaIsRead | scripts/ci-prepare-apt-sources.py:60-91 | a stanza without active Chrome URI or with `Enabled: no` stays, one whose fields cannot be read is refused, one for Chrome only is commented out, any other refused |
| AptSources.FieldLineIsRead | scripts/ci-prepare-apt-sources.py:71-77 | name, colon, blanks and value are read as the lower-cased name and that value |
| AptSources.FieldIsRead | scripts/ci-prepare-apt-sources.py:67-77 | a field with its indented lines adds all of them to the fields; a second of the same name is refused |
| AptSources.OtherLineIsRefused | scripts/ci-prepare-apt-sources.py:71-75 | a line that is no field line and goes on with none is refused |
| AptSources.SourcesAreRefusedExactly | scripts/ci-prepare-apt-sources.py:60-105 | a file is refused if and only if some stanza with an active Chrome URI cannot be read, or is neither for Chrome only nor says `Enabled: no` |
| AptSources.Deb822Source | scripts/ci-prepare-apt-sources.py:94-105 | gathering stanzas line by line rewrites the file stanza by stanza |
| AptSources.SourcesAreRewritten | scripts/ci-prepare-apt-sources.py:60-105 | stanzas stay apart and in order, each untouched or commented out whole; one commented out has only Chrome URIs, `stable` and `main`; those left with an active Chrome URI say `Enabled: no`; rewriting again changes nothing |
| AptSources.ChromeIsInSomeLine | scripts/ci-prepare-apt-sources.py:33-34 | the test on a joined stanza is the test on each of its active lines |
| AptPrepare.PlanIsExact | scripts/ci-prepare-apt-sources.py:119-135 | planning fails exactly when some file is not regular, not UTF-8 or refused, with the fault of the first such file; otherwise it holds every file that changes, once and in the order of the paths |
| AptPrepare.SuffixIsRead | scripts/ci-prepare-apt-sources.py:131-131 | a file is taken for deb822 exactly if its name ends in `.sources` after something |
| AptPrepare.AptRoot.Prepare | scripts/ci-prepare-apt-sources.py:108-141 | a refused plan, a linked root or a foreign runner writes nothing; otherwise files and result are those of the write phase |
| AptPrepare.HostedIsRead | scripts/ci-prepare-apt-sources.py:24-30 | the three variables that make a runner a hosted Linux one |
| AptPrepare.WritesUpToFirstDisturbed | scripts/ci-prepare-apt-sources.py:136-141 | whatever other processes write, exactly the changes before the first file found altered are written; all of them if and only if none is |
| AptPrepare.WritesLeaveTheLast | scripts/ci-prepare-apt-sources.py:136-141 | every path ends with what was put there last, by a change or by another process |
| AptPrepare.PreparationIsComplete | scripts/ci-prepare-apt-sources.py:108-141 | undisturbed, all planned files take their rewrites, all others stay, and a second run plans nothing |
| ChannelFilters.ResolveChannelFilters | crates/buzz-acp/src/config.rs:1538-1622 | the channels resolved are the discovered ones in scope, each with its filter, in every mode |
| ChannelFilters.ResolveDynamicChannelFilter | crates/buzz-acp/src/config.rs:1633-1706 | one channel resolved alone gets its filter, or none when out of scope |
| ChannelFilters.ResolveBothWays | crates/buzz-acp/src/config.rs:1538-1706 | for every discovered channel both resolvers give the same, or both nothing |
| ChannelFilters.FilterByMode | crates/buzz-acp/src/config.rs:1538-1706 | the filter in each mode: default kinds and mentions on listed channels, all events on listed channels, or any covering rule whatever the list |
| ChannelFilters.MergedSaysWhatRulesSay | crates/buzz-acp/src/config.rs:1584-1617 | all kinds if and only if an applicable rule is a wildcard, else the union without duplicates; a mention needed if and only if every applicable rule needs one |
| ChannelFilters.RuleOrderDoesNotMatter | crates/buzz-acp/src/config.rs:1584-1617 | reordering rules changes at most the order of kinds |
| DictationWorklet.DictationProcessor.Process | desktop/public/dictation-worklet.js:25-40 | a block is clamped and kept up to the limit, what has been posted is always a function of what was accepted, and the result says whether to go on |
| DictationWorklet.ClampedIsNearest | desktop/public/dictation-worklet.js:30-30 | a sample is replaced by the nearest one from -1 to 1, and NaN stays |
| DictationWorklet.DictationProcessor.OnMessage | desktop/public/dictation-worklet.js:9-24 | stopping posts the rest and the notice once |
| DictationWorklet.DictationProcessor.Replay | desktop/public/dictation-worklet.js:2-41 | any sequence of blocks and messages ends as the modelled capture does |
| DictationWorklet.RunAcceptsWhatItHears | desktop/public/dictation-worklet.js:9-40 | a run accepts the clamped samples heard before a stop, in order, at most 960000, and is finished if and only if stopped or full |
| DictationWorklet.SamplesAreConserved | desktop/public/dictation-worklet.js:13-40 | batches posted and then the buffered rest are the accepted samples; all batches have 1600 but the one finishing posts; the notice comes once and last |
| SttTapWorklet.SttTapProcessor.Process | desktop/public/worklet.js:34-64 | a block moves the tap as modelled, and throws exactly when held and new samples exceed 1920 |
| SttTapWorklet.TalkIsAsPressed | desktop/public/worklet.js:23-31 | the tap transmits exactly as the last push-to-talk message said |
| SttTapWorklet.BlockConserves | desktop/public/worklet.js:45-61 | a block loses no sample if and only if it does not throw |
| SttTapWorklet.LongBlockLosesSamples | desktop/public/worklet.js:45-61 | a first block of 1921 samples throws, and 961 of them are lost |
| SttTapWorklet.RunConservesSamples | desktop/public/worklet.js:34-64 | while nothing throws, batches have 960 samples and what was sent since the last gated block with what is held is all that came in since |
| SttTapWorklet.ShortBlocksNeverThrow | desktop/public/worklet.js:19-64 | with blocks of at most 960 samples nothing throws and fewer than 960 are held between calls |

## Left out

- Processes, environment, kill and reap, Windows flags, the metered gateway: effects on the operating system.
- Observer events, logging and usage tracking in the ACP client: they feed nothing back into the protocol.
- Dropping a client call half way (outer cancellation of its future): every write is one atomic success or failure.
- A write that would outlast the 60 seconds of a plain request shows as a failed write or as the request's timeout.
- The stale-response drain before a reused session, and authentication, session and model calls: plain requests with their own parameters.
- Steer requests still waiting in their channel when a wait ends: the loop never received them.
- The order in which ready arms of the select are polled: a script of polls may take any arm that the code could.
- Overflow of the 64-bit request ids.
- Error texts; an agent's error keeps its code and its JSON.
- JSON numbers that are not integers, duplicate member names, and the order of members, which the JSON parser settles before this code sees a value.
- JsonScanner.ExtractJsonObject: works on characters, because all it looks at is ASCII and the two scans then agree; slicing UTF-8 by bytes is not modelled.
- The texts of prompts and notices of the completion check.
- Npub.PubkeyToNpub: lower-cases ASCII only, which is all that can match the hex pattern.
- Resp.ReadResp: takes UTF-8 as a parameter with the round-trip law, leaves out the interpreter's cap on the digits of an integer, and stands for blocking reads by the bytes that arrive before the end of the stream.
- Real Redis sockets, threads, timeouts and subscription handshakes: a publish reaches each subscriber of its channel at once.
- Rounding of rates and percentages, and the printed table of the bus harness: rates are exact numbers.
- AptPrepare.AptRoot.Prepare: takes the paths found and whether a directory is linked as arguments, and stands for a deleted file by one that is no regular file; a write that fails is not modelled.
- ChannelFilters.ResolveChannelFilters: takes UUID parsing as a parameter; rule expressions, prompt tags and the loading of rules are not part of this model.
- Infinite float samples, and rounding of audio samples: a sample is a number or NaN.
- Ownership transfer of audio buffers: what is posted is the contents at that moment.
- Agent memory fetch and discovery context, user interface, site, video, release scripts: plumbing with no deep invariant.
