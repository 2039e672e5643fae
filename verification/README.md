# CodeSeeX: verified model of the proxy's core

CodeSeeX is a local proxy between Codex and a DeepSeek-compatible upstream. This
project models the parts of it whose correctness does not show on one screen, in
Dafny 4.11, and proves what they promise for every input and every run.
`dafny verify dfyconfig.toml` checks the whole project.

## What is modelled

**Responses-to-Chat compiler** (`Redaction`, `Chat`, `ChatProtocol`, `ChatCalls`,
`ChatSecondPass`, `Compiler`, `CompilerReadings`, `CompilerSafety`,
`CompilerReasoning`, `CompilerConservation`, `CompilerConversation`,
`CompilerCalls`, `CompilerCounts`). One pass over the items of a Responses input keeps a
pending assistant message, two reasoning strings, the ids and names of the calls
seen and a fact list; a second pass regroups tool calls and results. The loops
are methods proved equal to specification functions, and about those functions
it is proved that the output is a legal tool protocol for any input, which lists
the sanitiser leaves alone, that no tool output and nothing said is lost, and
exactly which call messages are compiled and which of them carry reasoning. JSON printing, JSON
parsing and base64 decoding are fields of a `Codec` parameter, so every
statement holds whatever they do.

**Hosted rounds** (`Splice`, `Rounds`). The splice that rebuilds provider turns
inside the client's array, and the bounded, expiring store of rounds as a class
with a state machine over register, continue, settle and report. Instants are
natural numbers passed in by the caller.

**SSE usage scanner** (`SseScanner`). The incremental framer as a class that
extends, drains and clears a buffer, against a one-shot framing of the whole
stream. UTF-8 and JSON decoding are a `Decoder` parameter.

**Windows argument quoting** (`CommandLine`), against a parser written from
Microsoft's "Parsing C command-line arguments".

**Pricing** (`CivilDate`, `Pricing`, `PricingFields`, `Billing`). The civil-date day count against
a day-by-day Gregorian calendar (leap years as in Appendix C of RFC 3339), the
table's parser, printer and overrides, and the billing period of a timestamp
(fields as in section 5.6 of RFC 3339).

**Catalog** (`Versions`, `Catalog`, `CatalogFields`, `CatalogService`,
`CatalogOverlap`). Version and
revision order, layer merging, user overrides, paging, and the refresh with the
network's answer as a parameter: as one step, and as a beginning and an end with
other refreshes in between. Which layer is active is decided by object identity, as
in the source.

**Config splice** (`ConfigSplice`). Where a new `[codeseex]` table goes in the
user's file and what the splice does to its lines.

`Wrappers`, `Json`, `Seqs`, `Text` and `Ordered` hold what the others share:
options and results, JSON values, sequences, text as the Rust standard library
sees it, and iteration in `BTreeMap` key order.

## What the proofs brought out

- Sanitising is idempotent when the caller declares no valid ids. With a valid
  id a second pass can change the list (`ChatProtocol.SecondPassCanDiffer`): a
  blank message that kept an extra answer apart is removed by the first pass.
  `ChatSecondPass.SecondPassExactly` says for which lists this happens, and
  `ChatProtocol.SanitizeFixedIffCanonical` gives the fixed points.
- A reasoning item reaches a call message only if it comes before the last call
  of that message's run. One that arrives after the run's last call and before
  its outputs is too late, and the message goes out without reasoning
  (`CompilerReasoning.ReasoningCanComeTooLate`).
  `CompilerCalls.CompiledUnreasonedExactly` says for which inputs this happens.
- A call that is made once across the retained turns and has a recognised output
  gets exactly one output if and only if the client's items before the first
  offset hold none of its outputs (`Splice.OneOutputPerCall`).
- A refresh that no other overlaps can roll the catalog back, but only with a
  candidate whose revision does not start with a number
  (`CatalogService.RollsBackExactly`).
- A refresh compares its document with the revision it read before its request.
  If another refresh overtakes it, it can put an older document in place of the
  newer one, numeric revisions or not (`CatalogOverlap.OverlapCanRollBack`);
  `OverlapRollsBackExactly` says exactly when.
- With user overrides in place the active revision carries a `+user` mark, so the
  same document fetched again is turned away as older and its validator is not
  remembered. After a restart, when the document comes from the cache file and no
  validator is known, every later refresh downloads it whole
  (`CatalogService.ValidatorRememberedIff`, `RestartForgetsValidator`,
  `DownloadsAgainExactly`); the comment at
  `crates/proxy/src/catalog_service.rs:298-299` says otherwise.
- `revision_is_older` is documented as "older" but also turns away a candidate of
  equal rank written differently, such as `1.0` after `1`
  (`Versions.EqualRankTurnedAway`, `MeansOlderExactly`); the model follows the
  code.
- A signed time-zone name gets the offset it spells if and only if that fits in 32
  bits (`Pricing.OffsetAsSpelled`). Only upper bounds are checked, so
  `+-2147483648` is accepted and gets the offset zero (`Pricing.OffsetCanWrap`);
  the model wraps as a release build does.
- When more than the cap is left undelimited the stream scanner drops the bytes
  and starts afresh in the middle of a frame, so the dropped frame's tail is read
  as a frame of its own; `SseScanner.RestartsAtDrop` gives the exact form.
- Prompt fields come from the seed's common fields first and from the seed model
  only where those have none; every other field has the opposite order
  (`Catalog.LayerPrecedence`).

## Model

| member | source | states |
|---|---|---|
| Redaction.RedactInlineDataUrls | crates/core/src/context.rs:834-868 | the cursor loop with its terminator scan ends for every text and computes the redaction that the following rows are about |
| Redaction.RedactedIsMarkerFree | crates/core/src/context.rs:834-875 | redacted text contains no `data:` anywhere, not even across the joints of kept text and placeholders |
| Redaction.RedactFixedIffMarkerFree | crates/core/src/context.rs:834-868 | redaction leaves a text unchanged if and only if it contains no `data:` |
| Redaction.RedactIdempotent | crates/core/src/context.rs:834-868 | redacting twice is redacting once, which the pipeline relies on |
| Redaction.CutExists | crates/core/src/context.rs:834-875 | every text splits into plain stretches free of `data:` and URLs that start with it and run to the next terminator |
| Redaction.RedactReplacesUrls | crates/core/src/context.rs:834-875 | on any such split, the plain stretches come out unchanged and in place and each URL becomes its placeholder |
| Redaction.TruncateMarkerFree | crates/core/src/context.rs:787-798 | truncating text free of `data:` cannot bring one back, at the cut or in the suffix |
| Redaction.TruncateNonblank | crates/core/src/context.rs:787-798 | truncation never makes a non-blank text blank |
| Redaction.TruncateShows | crates/core/src/context.rs:787-798 | a text shown up to a limit is its redacted form if that fits, and otherwise as many of its characters as the limit says, followed by a note that gives the full count |
| Redaction.PlaceholderTells | crates/core/src/context.rs:834-868 | a placeholder gives the size of what it stands for in characters and in bytes, and ends with its hash |
| Redaction.FnvMore | crates/core/src/context.rs:877-884 | the hash mixes the bytes in from first to last |
| Chat.OrderedToolMessages | crates/core/src/context.rs:360-371 | indexing results by id and taking them out in call order |
| Chat.CollectRun | crates/core/src/context.rs:298-312 | the scan stops exactly at the first message that does not answer the group, collects first occurrences only, and its id set counts them |
| Chat.SanitizeChatToolProtocol | crates/core/src/context.rs:276-347 | the cursor loop over growing output computes the regrouping that the `ChatProtocol` rows are about |
| Chat.OrphanTells | crates/core/src/context.rs:404-417 | the fact told about a stray result gives the id of its call, up to 120 characters, and ends with its text, redacted and up to 4096 characters |
| ChatProtocol.CompleteGroup | crates/core/src/context.rs:296-317 | the results of a complete group are a permutation of the collected ones that answers the calls one by one, and its ids are distinct |
| ChatCalls.CompleteExactly | crates/core/src/context.rs:296-317 | a group is complete if and only if its ids are distinct and the run directly after it answers each of them |
| ChatProtocol.SanitizeIsLegal | crates/core/src/context.rs:276-347 | the sanitised list obeys the tool protocol, for every message list and every valid set |
| ChatProtocol.LegalAt | crates/core/src/context.rs:1399-1428 | the protocol position by position: each call message is followed at once by one result per call in order, and every other tool message carries a valid id |
| ChatProtocol.ExpectedExactly | crates/core/src/context.rs:284-295 | an assistant message waits for the ids of its calls in order, missing and blank ones left out; no other message waits for any |
| ChatProtocol.LoneMessage | crates/core/src/context.rs:335-347 | outside any group a message that is not a tool message is kept unless it has no text, no calls, no reasoning (an assistant) and no call id (any other) |
| ChatProtocol.LoneResult | crates/core/src/context.rs:335-358 | outside any group a result is kept if its id is valid and otherwise told as a fact that gives its text |
| ChatProtocol.LoneCaller | crates/core/src/context.rs:379-402 | a call message that nothing answers keeps its text and its reasoning, loses its calls, and goes if it has neither |
| ChatProtocol.SanitizeFixedIffCanonical | crates/core/src/context.rs:276-347 | sanitising leaves a list unchanged if and only if it is legal, useful throughout, and no group is directly followed by one more of its answers |
| ChatProtocol.SanitizeIdempotent | crates/core/src/context.rs:276-347 | with an empty valid set sanitising twice equals sanitising once, for every list |
| ChatProtocol.SecondPassCanDiffer | crates/core/src/context.rs:335-347 | with a valid id a list exists that the second pass changes again |
| ChatSecondPass.FrontSurfaces | crates/core/src/context.rs:276-347 | the first sanitised message answers given ids if and only if such an answer with a valid id stands behind nothing but messages that leave no trace: useless ones and unanswered call messages without text and reasoning |
| ChatSecondPass.SecondPassExactly | crates/core/src/context.rs:276-347 | a second pass changes the list again if and only if, in the list itself, some complete group is followed, but for messages that leave no trace, by one more of its answers under a valid id |
| ChatProtocol.SanitizeSplits | crates/core/src/context.rs:276-347 | sanitising is local: a list may be cut in front of any message that is not a tool message and its parts sanitised apart |
| ChatProtocol.SanitizeBalances | crates/core/src/context.rs:276-347 | conservation as multisets: every message received is kept, downgraded, told as a fact or counted as a repeat, and the output is exactly what those accounts emit |
| ChatProtocol.LedgerSorted | crates/core/src/context.rs:276-347 | each account of that ledger holds only the kind of message it is named after |
| ChatProtocol.ToolMessageFate | crates/core/src/context.rs:296-346 | every occurrence of a tool message is kept as it is, told by a fact in the output that gives its call id and text, or a repeat |
| ChatProtocol.RepeatHasFirst | crates/core/src/context.rs:300-312 | a result counted as a repeat follows another with its id inside one contiguous run of results |
| ChatCalls.CallMessagesExactly | crates/core/src/context.rs:276-347 | the sanitiser keeps exactly the call messages that stand complete in the input, unchanged, in order and as often |
| ChatCalls.CompleteCallsAt | crates/core/src/context.rs:296-317 | by position: a call message is among them if and only if it stands somewhere with distinct ids, each answered in the results that directly follow |
| Chat.OrphanFact | crates/core/src/context.rs:404-417 | a result told as a fact becomes a user message that the final filter keeps |
| Compiler.JoinNonemptyBlank | crates/core/src/context.rs:443-453 | joined reasoning is blank if and only if both parts are |
| Compiler.JoinNonemptyOrder | crates/core/src/context.rs:443-453 | the earlier reasoning comes first, trimmed, on lines of its own |
| Compiler.ReasoningText | crates/core/src/context.rs:556-583 | only reasoning items yield reasoning, and what they yield is never blank, after truncation too |
| Compiler.ItemCallId | crates/core/src/context.rs:538-544 | a call id is never blank |
| Compiler.ItemToolCall | crates/core/src/context.rs:464-491 | a call is replayed only under a non-blank id that some output of the input resolves |
| Compiler.ItemResult | crates/core/src/context.rs:585-622 | a result message answers the item's own call id |
| CompilerReadings.ContentSays | crates/core/src/context.rs:657-704 | what a value says: a string itself, the parts of an array joined by newlines, nothing for null, the first text of an object, and otherwise its JSON form |
| CompilerReadings.PartSays | crates/core/src/context.rs:693-704 | a part says the first text it has under `text`, `input_text` and `output_text`, redacted, and nothing without one |
| CompilerReadings.PartsInOrder | crates/core/src/context.rs:657-664 | the texts of an array are those of its parts that say something, in order |
| CompilerReadings.CallIdExactly | crates/core/src/context.rs:538-544 | the call id is the text in the first of `call_id`, `tool_call_id` and `id` that the item has, if it is not blank |
| CompilerReadings.ResolvedExactly | crates/core/src/context.rs:455-462 | an id is resolved if and only if some tool output of the input has it as its call id |
| CompilerReadings.ResultExactly | crates/core/src/context.rs:585-622 | an item is read as a result if and only if it is a tool output whose call is replayed before it or valid from outside; the message then shows the first of `output`, `content` and `result` the item has, a plain string that fits unchanged, under the item's call id |
| CompilerReadings.CallExactly | crates/core/src/context.rs:464-536 | an item is read as a call if and only if its kind, id and name are there and some output resolves it; the call has the item's tool name and passes on its arguments |
| CompilerReadings.NewlinesNormal | crates/core/src/context.rs:506-518 | text of a patch without carriage returns is passed on unchanged |
| CompilerReadings.ReturnNewline | crates/core/src/context.rs:506-518 | in a patch each carriage return, with the newline behind it if there is one, becomes a newline |
| CompilerReadings.ReasoningExactly | crates/core/src/context.rs:556-583 | a reasoning item is read as the first of its decoded content, summary and content that is not blank, and as reasoning if and only if there is one |
| CompilerReadings.CompactionExactly | crates/core/src/context.rs:671-691 | a compaction is told by its summary, or its content if that is blank, at the end of a user message |
| CompilerReadings.FactExactly | crates/core/src/context.rs:706-757 | an item is read as a fact if and only if its role or type tells of a tool and it is nothing looked for before |
| CompilerReadings.FactReads | crates/core/src/context.rs:706-740 | a fact gives every one of the twelve telling fields the item has, a plain string that fits unchanged |
| CompilerReadings.SaidExactly | crates/core/src/context.rs:644-655 | an item that is nothing else is read as a message if and only if its content is not blank, with that content and the role the item names |
| CompilerReadings.RolesMap | crates/core/src/context.rs:811-818 | system and developer speak as system, unknown roles as the user |
| CompilerReadings.ListingExactly | crates/core/src/context.rs:624-642 | a listing of MCP resources or templates gets a fact of its own if and only if it is an empty array |
| Compiler.FlushPendingAssistant | crates/core/src/context.rs:240-274 | flushing appends the pending message if it holds anything and then leaves nothing pending |
| Compiler.CompileLoop | crates/core/src/context.rs:104-198 | the item loop over messages, facts, pending assistant, reasoning strings, id set and names computes the state the compiler theorems are about |
| Compiler.CompileResponsesInput | crates/core/src/context.rs:85-231 | the whole compiler: text, array, null and other inputs, facts message first, sanitiser, fallback for an empty result |
| Compiler.FactsMessage | crates/core/src/context.rs:759-772 | the facts message is a user message without calls that the sanitiser's filter keeps |
| CompilerSafety.CompiledLegal | crates/core/src/context.rs:85-231 | for every input the compiled messages are a legal tool protocol, calls occur only in assistant messages and carry ids, tool messages name the call they answer |
| CompilerSafety.CompiledToolProtocol | crates/core/src/context.rs:85-371 | each compiled message with calls is followed immediately by exactly one tool message per call, in call order and with distinct ids; any other tool message carries an id from the caller's valid set |
| CompilerSafety.CompiledToolTextRedacted | crates/core/src/context.rs:585-622 | no compiled tool message contains `data:`, after truncation too |
| CompilerSafety.StepReasons | crates/core/src/context.rs:116-197 | loop invariant: once reasoning has been read, no item adds a call message without reasoning, and the last reasoning stays non-blank |
| CompilerSafety.RunReasons | crates/core/src/context.rs:116-198 | the same over any run of items |
| CompilerSafety.CompiledCallsReasoned | crates/core/src/context.rs:113-141 | in the final output, a call message without reasoning occurs no more often than the items up to the reasoning item had already fixed it: every later one carries reasoning |
| CompilerSafety.CompiledCallsAllReasoned | crates/core/src/context.rs:113-274 | if a reasoning item comes before every replayable call, every compiled call message carries reasoning |
| CompilerReasoning.UnreasonedExactly | crates/core/src/context.rs:113-198 | among the messages handed to the sanitiser, before incomplete groups are taken out, a call message lacks reasoning if and only if some run of calls in the input has no reasoning item before its last call |
| CompilerReasoning.StepExplained | crates/core/src/context.rs:116-197 | loop invariant tying last, pending and assistant reasoning and the messages so far to the input alone |
| CompilerReasoning.LateReasoningMisses | crates/core/src/context.rs:117-141 | in every input made of a call, a reasoning item and that call's output, the call message goes out without reasoning |
| CompilerReasoning.ReasoningCanComeTooLate | crates/core/src/context.rs:117-141 | such an input exists, whatever the JSON and base64 functions do |
| CompilerCalls.CompiledCallsExactly | crates/core/src/context.rs:85-347 | the compiled call messages are, in order and whole, one for each run of calls in the input whose ids are distinct and all answered where the run ends: it makes the calls of its run with their names and arguments, says what the assistant said directly in front, and carries the reasoning the run has taken up |
| CompilerCalls.ReasoningReachesCall | crates/core/src/context.rs:113-141 | a reasoning item in front of or inside a run is, trimmed, part of the reasoning of the compiled message of that run once a call has followed it |
| CompilerCalls.RunReasonedExactly | crates/core/src/context.rs:113-141 | the message of a run carries reasoning if and only if a reasoning item precedes the run's last call |
| CompilerCalls.CompiledUnreasonedExactly | crates/core/src/context.rs:85-347 | some compiled call message lacks reasoning if and only if some run of calls is so answered and has no reasoning item before its last call |
| CompilerCalls.AnswersFollow | crates/core/src/context.rs:142-197 | the results that directly follow a flushed call message are those of the items from there on: reasoning, facts and unsupported items do not interrupt them, anything else does |
| CompilerConservation.CompiledTracks | crates/core/src/context.rs:116-198 | loop invariant: the tool messages are the input's results in order, the facts are a prefix of the input's facts up to the limit, and the overflow counter is what is missing |
| CompilerConservation.ToolOutputRead | crates/core/src/context.rs:142-178 | every tool-output item is read as a result or as a fact, never dropped |
| CompilerConservation.OverflowIsCounted | crates/core/src/context.rs:168-178 | `truncated_items` is exactly the number of facts past 128 |
| CompilerConservation.ResultsAccounted | crates/core/src/context.rs:142-346 | counted with multiplicity, every result of the input is a compiled tool message, told by a compiled fact that gives its call id and text, or a repeat within one run |
| CompilerConservation.ResultItemSurvives | crates/core/src/context.rs:142-346 | the same for a single item |
| CompilerConservation.FactItemSurvives | crates/core/src/context.rs:168-205 | a fact within the limit is a line of the first compiled message |
| CompilerConservation.NoToolOutputLost | crates/core/src/context.rs:85-346 | no tool-output item is lost: read as a result, its message carries the item's output under its call id and is compiled, told with its text by a compiled fact, or a repeat within one run; read as a fact, all its fields are told by a line of the first message, unless it is past the limit |
| CompilerConversation.RunEchoes | crates/core/src/context.rs:116-198 | loop invariant: the messages so far, with the pending one, say what the items read so far say |
| CompilerConversation.SanitizeSpeaks | crates/core/src/context.rs:276-347 | sanitising keeps everything said, by the same role, with the same text and in order |
| CompilerConversation.ConversationSurvives | crates/core/src/context.rs:85-231 | everything said in the input is said in the compiled messages, in the same order |
| CompilerCounts.CompiledCounted | crates/core/src/context.rs:104-231 | each diagnostic count says how many items were read in its way |
| CompilerCounts.OtherInputs | crates/core/src/context.rs:85-231 | a text is one redacted user message, null none, any other value its JSON form |
| CompilerCounts.OmittedTold | crates/core/src/context.rs:759-772 | the facts message ends by saying how many facts were left out |
| Splice.SplitRecord | crates/proxy/src/native_coordinator.rs:271-282 | provider items in order, and for each id the record's last output and no other |
| Splice.RecordOutputExactly | crates/proxy/src/native_coordinator.rs:271-282 | the record's output of a call is the last one it holds, and there is one if and only if some item is an output of the call |
| Splice.ClientOutputExactly | crates/proxy/src/native_coordinator.rs:288-295 | the client's output of a call is the first one anywhere in its input, and there is one if and only if some item is an output of the call |
| Splice.TurnLayout | crates/proxy/src/native_coordinator.rs:268-299 | a rebuilt turn is the record without its outputs, whole and in order, and then one output for each call that the record or the client answers, in call order, the record's last before the client's first |
| Splice.DroppedExactly | crates/proxy/src/native_coordinator.rs:196-229 | told from the fields: an item is left out if and only if it lies at or after the smallest offset and carries a call id of a retained item or belongs to the reasoning run just before the first that does |
| Splice.BuildReplayedTurn | crates/proxy/src/native_coordinator.rs:268-299 | the provider's items whole, followed by one output per answered call, the record's before the client's first |
| Splice.FindDropped | crates/proxy/src/native_coordinator.rs:196-229 | an item is dropped if and only if it lies at or after the smallest offset and carries a retained call id or belongs to the reasoning run just before the first such item |
| Splice.Continuation | crates/proxy/src/native_coordinator.rs:188-254 | the merge loop computes the layout the next rows are about, for any offsets, sorted or not |
| Splice.MergedLayout | crates/proxy/src/native_coordinator.rs:231-248 | the merged input is the kept client items once each and in order and every turn once, whole and in order, each turn standing exactly between the client items below and from its landing index on |
| Splice.LandingSorted | crates/proxy/src/native_coordinator.rs:231-248 | with segments sorted by offset the landing index is the offset itself |
| Splice.WeaveParts | crates/proxy/src/native_coordinator.rs:231-248 | from any state of the merge loop the rest holds the remaining kept items and turns, each once and in order |
| Splice.WeavePlaces | crates/proxy/src/native_coordinator.rs:233-248 | a turn precedes a client item if and only if the item's index is not below the turn's landing index |
| Splice.NothingRetained | crates/proxy/src/native_coordinator.rs:188-254 | without retained segments the client's input comes out unchanged |
| Splice.TurnCounted | crates/proxy/src/native_coordinator.rs:268-299 | a replayed turn holds one output per call of an id that has a recognised output, and none otherwise |
| Splice.MergedOutputs | crates/proxy/src/native_coordinator.rs:188-299 | how many outputs of each id the merged input holds, for all ids and all inputs |
| Splice.OneOutputPerCall | crates/proxy/src/native_coordinator.rs:188-299 | a call made once across the retained turns gets one output if its record or the client holds one and none otherwise, if and only if the client items before the first offset hold none |
| Splice.OutputsFollowCalls | crates/proxy/src/native_coordinator.rs:283-298 | a turn's outputs are as many as its answered calls, and the n-th is the output of the n-th of them, the record's before the client's |
| Rounds.MatchingIsNewest | crates/proxy/src/native_coordinator.rs:323-344 | an exact response link wins; otherwise the newest candidate |
| Rounds.NamedContinues | crates/proxy/src/native_coordinator.rs:87-100 | a request that names a retained round continues that one, if it has an input array |
| Rounds.AnchoredContinues | crates/proxy/src/native_coordinator.rs:315-355 | any other request continues a round if and only if some retained round of its session made a call that an item of its input carries; it is then the newest such, the last in key order among equals |
| Rounds.AnchorExactly | crates/proxy/src/native_coordinator.rs:357-377 | the session anchor names the cache key and the installation id, as far as the request has them, the id under `client_metadata` before that under `metadata` |
| Rounds.RetainUnexpired | crates/proxy/src/native_coordinator.rs:392-401 | the visit in key order keeps exactly the unexpired rounds and lists exactly the others |
| Rounds.NativePendingToolGroups.constructor | crates/proxy/src/native_coordinator.rs:48-56 | the store starts empty with nothing to report |
| Rounds.NativePendingToolGroups.PruneExpired | crates/proxy/src/native_coordinator.rs:392-401 | expired rounds move to the evicted list |
| Rounds.NativePendingToolGroups.TrimToCapacity | crates/proxy/src/native_coordinator.rs:403-418 | the oldest rounds move to the evicted list until the bound is met |
| Rounds.NativePendingToolGroups.Register | crates/proxy/src/native_coordinator.rs:71-83 | prune, insert or replace, trim |
| Rounds.NativePendingToolGroups.ContinuationFor | crates/proxy/src/native_coordinator.rs:87-100 | prunes, then splices the matching round into the request's input, if there is one and the input is an array |
| Rounds.NativePendingToolGroups.Settle | crates/proxy/src/native_coordinator.rs:104-110 | forgets one round and touches nothing else |
| Rounds.NativePendingToolGroups.TakeEvictions | crates/proxy/src/native_coordinator.rs:122-128 | hands over all evictions since the last call and empties the list |
| Rounds.EveryRoundAccounted | crates/proxy/src/native_coordinator.rs:71-128 | over every run, every registration is retained, replaced by a later one with its id, settled, waiting to be reported or reported, counted with multiplicity |
| Rounds.StoreBounded | crates/proxy/src/native_coordinator.rs:24-83 | after every run at most 64 rounds are retained, each under its own id |
| Rounds.WithinCapacity | crates/proxy/src/native_coordinator.rs:403-418 | trimming ends exactly at the bound and evicts nothing while there is room |
| Rounds.WithinCapacityKeeps | crates/proxy/src/native_coordinator.rs:403-418 | trimming changes no round it keeps and never removes one newer than one it keeps |
| Rounds.CapacityEvictsOldest | crates/proxy/src/native_coordinator.rs:71-83 | at a registration no unexpired round evicted is newer than one retained, the new one included |
| Rounds.OldestIsFirst | crates/proxy/src/native_coordinator.rs:403-418 | of equally old rounds the first in key order is evicted |
| Rounds.RetainedIsLive | crates/proxy/src/native_coordinator.rs:71-110 | over every run, a retained round is the latest registration of its id and has not been settled since |
| Rounds.ContinuationIsLive | crates/proxy/src/native_coordinator.rs:87-110 | over every run, a continuation comes from a registered round less than thirty minutes old that has been neither settled nor replaced |
| SseScanner.FindsEarliest | crates/proxy/src/http_response.rs:146-160 | the search returns a delimiter if and only if it is the earliest of either kind, and none if and only if there is none |
| SseScanner.DelimiterStable | crates/proxy/src/http_response.rs:146-160 | the earliest delimiter does not change when bytes are appended |
| SseScanner.FramesResume | crates/proxy/src/http_response.rs:102-108 | framing can be interrupted at any byte: residue and later bytes yield the frames and the residue still to come |
| SseScanner.FramesPartition | crates/proxy/src/http_response.rs:102-108 | frames, their delimiters and the residue rebuild the stream, and neither a frame nor the residue contains a delimiter |
| SseScanner.FramesUsageConcat | crates/proxy/src/http_response.rs:124-144 | reading frames in two batches reports the same usage as in one |
| SseScanner.ReportedExactly | crates/proxy/src/http_response.rs:124-144 | a frame reports the `usage` of the JSON that its payload lines, joined by newlines, hold, and nothing if they are blank, `[DONE]` or no JSON, or the bytes no UTF-8 |
| SseScanner.DataLinesExactly | crates/proxy/src/http_response.rs:128-133 | the payload lines are what stands behind `data:` in the lines that start with it, in order |
| SseScanner.LinesMore | crates/proxy/src/http_response.rs:128-133 | a line ends at a newline and loses a carriage return in front of it |
| SseScanner.OneDataLine | crates/proxy/src/http_response.rs:124-144 | a frame of one line `data:` and a payload reports what the payload holds |
| SseScanner.NoDataLine | crates/proxy/src/http_response.rs:124-144 | a frame without a `data:` line reports nothing |
| SseScanner.LatestIsLast | crates/proxy/src/http_response.rs:124-144 | reading frames from the front and keeping the latest report finds the report nearest the end |
| SseScanner.LastReportedAt | crates/proxy/src/http_response.rs:124-144 | by position: that report is the one of the frame after which none reports |
| SseScanner.NothingReported | crates/proxy/src/http_response.rs:124-144 | if no frame reports a usage there is none |
| SseScanner.FeedsFrames | crates/proxy/src/http_response.rs:102-116 | over every chunking, capped or not, the scan's usage is the last one that the frames it read report |
| SseScanner.RestartsAtDrop | crates/proxy/src/http_response.rs:102-116 | over every chunking, the frames read since bytes were last dropped, and the bytes still buffered, are those of the rest of the stream taken on its own |
| SseScanner.DropsExactly | crates/proxy/src/http_response.rs:109-114 | bytes are dropped if and only if some chunk boundary leaves more than the cap |
| SseScanner.ExtractsAll | crates/proxy/src/http_response.rs:102-116 | within the cap the scan reads exactly the frames of the whole stream and keeps exactly its residue |
| SseScanner.EndedReads | crates/proxy/src/http_response.rs:102-122 | over every chunking, the final usage is the last one that the frames read and the bytes left over report |
| SseScanner.UsageScanner.constructor | crates/proxy/src/http_response.rs:28-60 | a scan starts with an empty buffer, no usage and nothing dropped |
| SseScanner.UsageScanner.CaptureStreamUsage | crates/proxy/src/http_response.rs:102-116 | one chunk: all complete frames read in order, the residue kept, and the buffer never left above the cap |
| SseScanner.UsageScanner.CaptureRemainingStreamUsage | crates/proxy/src/http_response.rs:118-122 | once a stream fed within the cap has ended, the usage is the one reported nearest its end, the unfinished last frame included; a blank or silent residue changes nothing |
| SseScanner.ChunkedEqualsOneShot | crates/proxy/src/http_response.rs:102-160 | any chunking within the cap ends exactly where the one-shot scan does, and a drop is reported if and only if some chunk boundary leaves more than the cap |
| SseScanner.ChunkingIrrelevant | crates/proxy/src/http_response.rs:102-160 | two chunkings of one stream within the cap give the same frames, the same usage, the same leftover, and the same final usage, which is the stream's last report |
| CommandLine.WindowsQuoteCommandLineArgument | crates/proxy/src/codex_app.rs:1992-2019 | the loop with its backslash counter prints the quoted form that the next rows are about |
| CommandLine.EscapeParses | crates/proxy/src/codex_app.rs:2001-2018 | the quoted rest of an argument after any number of pending backslashes parses back to those backslashes and that rest |
| CommandLine.QuoteParses | crates/proxy/src/codex_app.rs:1992-2019 | one quoted argument in front of a separator or the end parses back to the argument |
| CommandLine.RoundTrip | crates/proxy/src/codex_app.rs:1983-2019 | parsing the joined command line by Microsoft's rules gives back the argument list, for every list of strings |
| CommandLine.CommandLineInjective | crates/proxy/src/codex_app.rs:1983-2019 | different argument lists never share a command line |
| CommandLine.QuotesOnlyIfNeeded | crates/proxy/src/codex_app.rs:1992-2000 | an argument is left as it is if and only if it is not empty and holds no white space, quote or backslash |
| CivilDate.FormulaCountsDays | crates/core/src/pricing.rs:601-609 | the era formula equals the day-by-day Gregorian count for every valid date, negative years included |
| CivilDate.EpochIsZero | crates/core/src/pricing.rs:601-609 | 1970-01-01 maps to 0 |
| CivilDate.NextDayCounts | crates/core/src/pricing.rs:601-609 | consecutive dates differ by one |
| CivilDate.CountsAreOrdered | crates/core/src/pricing.rs:601-609 | the map is strictly increasing and injective on valid dates |
| CivilDate.EveryDayHasADate | crates/core/src/pricing.rs:601-609 | every integer is the count of a valid date |
| Pricing.ParseHhmm | crates/core/src/pricing.rs:500-508 | a parsed time of day is a minute below 1440 |
| Pricing.HhmmRoundTrip | crates/core/src/pricing.rs:496-508 | every minute of the day survives printing and parsing |
| Pricing.HhmmPrinted | crates/core/src/pricing.rs:496-498 | a time of day is printed as two digits, a colon and two digits |
| Pricing.HhmmExactly | crates/core/src/pricing.rs:500-508 | a time of day is read from an hour below 24 and a minute below 60 with a colon between them and blanks around either, and from nothing else |
| PricingFields.NamedZones | crates/core/src/pricing.rs:510-517 | the zones with a name, in any case and with blanks around |
| Pricing.OffsetAsSpelled | crates/core/src/pricing.rs:510-531 | a signed time-zone name is accepted if and only if its parts parse and pass the upper bounds, and then gets the offset it spells if and only if that fits in 32 bits |
| Pricing.OffsetCanWrap | crates/core/src/pricing.rs:510-531 | `+-2147483648` is accepted and gets the offset zero |
| Pricing.RatesFromValue | crates/core/src/pricing.rs:51-66 | accepted rates are never negative |
| Pricing.WindowsFromValue | crates/core/src/pricing.rs:184-197 | accepted windows satisfy from < to < 1440 |
| PricingFields.RatesExactly | crates/core/src/pricing.rs:51-65 | rates are accepted if and only if each is missing, and then zero, or a number that is not negative |
| PricingFields.RateMapExactly | crates/core/src/pricing.rs:473-494 | a rate map is accepted if and only if it is missing or has no blank key and only accepted rates; of keys that trim to one name the last in key order wins |
| PricingFields.WindowExactly | crates/core/src/pricing.rs:208-226 | a window is two times of day under `from` and `to` |
| PricingFields.PeakValleyExactly | crates/core/src/pricing.rs:152-205 | a peak rule is accepted if and only if its time zone is known and every other field is missing or in its bounds; what is missing is Shanghai time, 2, true and no windows |
| PricingFields.TableExactly | crates/core/src/pricing.rs:300-339 | a table is accepted if and only if its revision is not blank and its peak rule and rate maps are accepted; what is missing takes the stated defaults |
| Pricing.ParseRateMap | crates/core/src/pricing.rs:473-494 | the loop that fills a rate map in key order, its trimmed keys and its errors |
| Pricing.OverridePeakValley | crates/core/src/pricing.rs:428-458 | field-by-field edits of a copied peak rule amount to reading the override first and applying it as a whole, or failing |
| Pricing.WithOverride | crates/core/src/pricing.rs:408-471 | the same for the whole table |
| Pricing.DefaultValid | crates/core/src/pricing.rs:89-297 | the default table satisfies the table invariant: offset matches time-zone name, windows in order, multiplier from 1 to 100, trimmed texts, valid rates |
| Pricing.ParsedValid | crates/core/src/pricing.rs:152-339 | every table the parser accepts satisfies it |
| Pricing.OverrideKeepsValid | crates/core/src/pricing.rs:408-471 | overriding keeps it |
| Pricing.OverrideIdempotent | crates/core/src/pricing.rs:408-471 | applying the same override again changes nothing further |
| Pricing.TableRoundTrip | crates/core/src/pricing.rs:136-358 | every table with the invariant, hence every default, parsed or overridden one, survives printing and parsing |
| Billing.LocalMinuteOfDay | crates/core/src/pricing.rs:533-538 | the local minute is in 0..1439, whatever the date and the offsets |
| Billing.PeriodExactly | crates/core/src/pricing.rs:110-134 | a timestamp is billed at the peak multiplier if and only if the rule is enabled and raises the price, the timestamp is accepted and its local minute lies in some window, start included and end not; everything else is off-peak at 1 |
| Billing.UnreadableIsOffPeak | crates/core/src/pricing.rs:115-125 | a timestamp that cannot be read is off-peak |
| Billing.RereadSame | crates/core/src/pricing.rs:597-609 | rewriting a timestamp with any other offset, the date rolling over at midnight, keeps its UTC minute |
| Billing.SameInstantSamePeriod | crates/core/src/pricing.rs:119-134 | a timestamp rewritten with any other offset is billed in the same period |
| Billing.SameInstantIsReread | crates/core/src/pricing.rs:597-609 | two timestamps of one instant always are such rewritings of each other |
| Billing.DateCancels | crates/core/src/pricing.rs:533-608 | the date part cancels modulo a day |
| Billing.SameClockSamePeriod | crates/core/src/pricing.rs:119-134 | the date never affects the period |
| Versions.VersionAtLeast | crates/core/src/catalog.rs:1241-1260 | the index loop over zero-padded segments decides the comparison that the next rows are about |
| Versions.AtLeastIsNotLess | crates/core/src/catalog.rs:1252-1259 | the loop decides the zero-padded lexicographic order |
| Versions.AtLeastIsTotalPreorder | crates/core/src/catalog.rs:1241-1260 | the comparison is reflexive, total and transitive, and two versions are equivalent if and only if their segments agree up to trailing zeros |
| Versions.DottedSegments | crates/core/src/catalog.rs:1242-1250 | a version printed from numbers, with or without a `v`, has those numbers as segments |
| Versions.NotOlderRanksHigher | crates/core/src/catalog.rs:1264-1274 | a numeric candidate that is not turned away ranks at least as high as the current revision |
| Versions.OlderExactly | crates/core/src/catalog.rs:1262-1274 | a candidate is turned away if and only if it is numeric and either ranks lower or has equal rank in different words |
| Versions.MeansOlderExactly | crates/core/src/catalog.rs:1262-1274 | for a numeric candidate the comparison means "older" if and only if the two are not of equal rank in different words |
| Versions.EqualRankTurnedAway | crates/core/src/catalog.rs:1262-1274 | `1.0` is turned away after `1`, although neither is older |
| Versions.UserSuffixKeepsRank | crates/core/src/catalog.rs:1318-1320 | the `+user` suffix does not change a revision's rank |
| Catalog.MergeSeedFields | crates/core/src/catalog.rs:308-341 | merging a seed field by field in key order: the seed decides prompt fields, the model every other field it has |
| Catalog.CatalogFromSeedAndDocument | crates/core/src/catalog.rs:283-317 | the document's models without billing-only ones, each with its seed model's and the common fields; the seed's own models when the document has none |
| CatalogFields.SeededInOrder | crates/core/src/catalog.rs:295-313 | the document's models that are not for billing only come out in order, changed in their further fields alone |
| CatalogFields.BillingOnlyExactly | crates/core/src/catalog.rs:115-128 | a model is for billing only if and only if its kind is one of four words, in any case and with blanks around |
| Catalog.ApplyCommonModelFields | crates/core/src/catalog.rs:319-328 | the early return on no fields makes no difference |
| Catalog.LayerPrecedence | crates/core/src/catalog.rs:279-341 | one precedence for every key: prompt fields from the seed before the document, all others document, then seed model, then common fields |
| Catalog.FillGaps | crates/core/src/catalog.rs:1013-1018 | base fields fill gaps only |
| Catalog.MergeAuthoritative | crates/core/src/catalog.rs:1008-1046 | the merge loop and each field's fallback |
| Catalog.MergeKeepsOverlay | crates/core/src/catalog.rs:1005-1021 | the overlay decides the model set and every field it declares; the base model, found by slug or alias, fills the rest |
| Catalog.MergeIdempotent | crates/core/src/catalog.rs:1008-1046 | merging onto the same base twice changes nothing further |
| CatalogFields.FindModelExactly | crates/core/src/catalog.rs:911-930 | a name finds the first model with that slug, or else the first with that alias in any case, and nothing only when there is neither |
| CatalogFields.MergedFields | crates/core/src/catalog.rs:1022-1045 | which document each field of a merge comes from |
| Catalog.ApplyCatalogOverrides | crates/core/src/catalog.rs:1295-1388 | the override loop in key order, new models, pricing that fails to parse left alone, the revision marked once |
| Catalog.OverridesIdempotent | crates/core/src/catalog.rs:1295-1388 | applying the same overrides twice changes nothing further, new models included |
| Catalog.NoModelRemoved | crates/core/src/catalog.rs:1293-1322 | overrides never remove or reorder a model |
| CatalogFields.DocumentModelAt | crates/core/src/catalog.rs:1295-1362 | each model of the document comes out as it was, or with every value its slug's override gives in place of its own, if it is the first with that slug |
| CatalogFields.FreshModelAdded | crates/core/src/catalog.rs:1306-1387 | an override for an unknown slug adds a model, shaped after the built-in document's first, if and only if it gives a name or a description |
| CatalogFields.OverriddenRest | crates/core/src/catalog.rs:1299-1321 | pricing overrides apply if they can be read, the revision is marked once, and without overrides nothing changes |
| CatalogFields.FieldThroughLayers | crates/core/src/catalog.rs:1008-1362 | a further field of a fetched model is the user's override, or else the document's, or else the built-in model's |
| Catalog.FindSlug | crates/core/src/catalog.rs:911-915 | the first model with the slug, none only if there is none |
| CatalogFields.AllListedExactly | crates/core/src/catalog.rs:258-264 | the models listed are those not hidden by flag or visibility, or all if asked for, in order |
| CatalogFields.PageHolds | crates/core/src/catalog.rs:243-277 | a page holds as many entries as asked for, fifty if none or zero were, or as are left |
| Catalog.PageStartIs | crates/core/src/catalog.rs:248-252 | a page starts at its cursor, and at the beginning without a readable one |
| Catalog.NextCursorAdvances | crates/core/src/catalog.rs:243-277 | the next cursor leads strictly forward to the entry right after the page's last, so no entry is skipped or repeated |
| Catalog.FollowFrom | crates/core/src/catalog.rs:243-277 | following cursors from any start lists all entries from there on |
| Catalog.FollowListsAll | crates/core/src/catalog.rs:243-277 | following cursors from the first page lists every visible model exactly once and in order, for every limit |
| CatalogService.Runtime.LoadCachedCatalog | crates/core/src/config.rs:588-604 | the cached document becomes the cache layer unless remote catalogs are off, it is missing, or the built-in revision is newer |
| CatalogService.Runtime.SetCatalogDocument | crates/proxy/src/runtime_config.rs:208-227 | a document is swapped in, as the remote layer, if and only if its revision differs from the one in place |
| CatalogService.Service.Activate | crates/proxy/src/catalog_service.rs:324-349 | the document is offered to the runtime, success recorded, the failure cleared, the validator kept when none came |
| CatalogService.Service.RecordRefreshFailure | crates/proxy/src/catalog_service.rs:351-364 | only the failure fields change |
| CatalogService.Service.BeginRefresh | crates/proxy/src/catalog_service.rs:195-222 | before the request: the revision and layer to compare with are read, and the attempt is noted, if and only if remote catalogs are on and the throttle allows it |
| CatalogService.Service.FinishRefresh | crates/proxy/src/catalog_service.rs:232-321 | from the answer on, for every answer: failed in five ways, not modified, ignored, unchanged or activated, compared with what was read before and applied to what is there now |
| CatalogService.Service.Refresh | crates/proxy/src/catalog_service.rs:190-321 | a refresh that no other overlaps is its beginning followed by its end, for every answer of the network |
| CatalogService.OnlyActivationChanges | crates/proxy/src/catalog_service.rs:190-364 | a disabled, throttled, failed, ignored or unchanged refresh leaves the catalog and its layer as they were |
| CatalogService.ActiveField | crates/core/src/config.rs:611-618 | a further field of an active model: the user's override, or else the fetched document's value, or else the built-in one |
| CatalogService.RefreshKeepsRank | crates/proxy/src/catalog_service.rs:281-321 | one refresh with a numeric candidate never lowers the active revision, user overrides or not |
| CatalogService.RollsBackExactly | crates/proxy/src/catalog_service.rs:190-321 | a refresh lowers the active revision if and only if it gets through and fetches a non-numeric revision ranking below it |
| CatalogService.RunNeverRollsBack | crates/proxy/src/catalog_service.rs:190-364 | over every run of refreshes with numeric candidates the active revision never decreases |
| CatalogService.NonNumericCanRollBack | crates/core/src/catalog.rs:1262-1274 | a candidate that lowers the revision and is not turned away exists |
| CatalogService.ValidatorRemembered | crates/proxy/src/catalog_service.rs:281-312 | in every state, the validator of a fetched document is remembered if and only if the refresh runs and the document is not turned away |
| CatalogService.ValidatorRememberedIff | crates/proxy/src/catalog_service.rs:287-312 | a document fetched again under the revision in place, on any layer, has its validator remembered if and only if that revision does not start with a number or is active without a `+user` mark |
| CatalogService.DownloadsAgainExactly | crates/proxy/src/catalog_service.rs:228-312 | over every run against a server that holds one document, after a first refresh that ran the server answers every later request with the whole document if and only if its revision starts with a number and is active with a `+user` mark |
| CatalogService.RestartForgetsValidator | crates/proxy/src/catalog_service.rs:287-296 | a concrete case: restarted from the cache file with a price override, the service turns its own document away and remembers no validator |
| CatalogOverlap.FinishRollsBackExactly | crates/proxy/src/catalog_service.rs:281-321 | whatever it had read, the end of a refresh lowers the active revision if and only if its document gets through against what it had read and ranks below what is active by then |
| CatalogOverlap.WaitingSince | crates/proxy/src/catalog_service.rs:190-232 | over every run of overlapping refreshes, what a waiting refresh compares with was active when it began |
| CatalogOverlap.OverlapRollsBackExactly | crates/proxy/src/catalog_service.rs:190-321 | over every run of overlapping refreshes, an end lowers the active revision if and only if its document gets through against the revision active at its beginning and ranks below the one active now |
| CatalogOverlap.RollbackNeedsOvertaking | crates/proxy/src/catalog_service.rs:190-321 | with numeric candidates that takes another refresh, waiting too, whose end after this one's beginning raised the active revision above the candidate |
| CatalogOverlap.SomeEventRaises | crates/proxy/src/catalog_service.rs:190-321 | over every run, if the active revision rises above a rank, the end of some waiting refresh takes it across |
| CatalogOverlap.OverlapCanRollBack | crates/proxy/src/catalog_service.rs:190-321 | a concrete run of two numeric refreshes that rolls the catalog back |
| ConfigSplice.CodeseexInsertOffset | crates/core/src/codex_config.rs:202-226 | the offset is a line boundary: the first header after the last `[model_providers.` header or the end of file; without one the first header or the end of file |
| ConfigSplice.InsertOffsetUnique | crates/core/src/codex_config.rs:196-226 | that description singles out one offset, inside the file or at its end |
| ConfigSplice.HeaderExactly | crates/core/src/codex_config.rs:207-218 | a line is a header if and only if its first character that is not white space is `[`, and a provider header if and only if `[model_providers.` starts there |
| ConfigSplice.SpliceBlock | crates/core/src/codex_config.rs:159-173 | the output is the file with one stretch of text inserted at that offset |
| ConfigSplice.DeletingRestores | crates/core/src/codex_config.rs:159-173 | deleting the inserted text restores the file |
| ConfigSplice.SpliceKeepsLines | crates/core/src/codex_config.rs:159-173 | every line of the file stays whole and in order, with an empty line and the block's own lines between two of them; at most the newline missing from the last line is added |
| ConfigSplice.SpliceKeepsTables | crates/core/src/codex_config.rs:159-226 | the splice leaves every line under the header line it was under, or under none; a header line is one whose first non-blank character is `[` |
| ConfigSplice.SpliceOwnsBlock | crates/core/src/codex_config.rs:159-194 | the lines of a block that starts with a header line fall under the block's own header lines |

## Left out

- JSON printing and parsing, base64 and UTF-8 decoding: foreign code, taken as parameters; the statements hold whatever they return.
- Floating-point rounding: rates, multipliers and JSON numbers are reals.
- 64-bit overflow in the day count and in timestamp arithmetic: integers are unbounded. The 32-bit time-zone offset wraps around; the panic of a build with overflow checks is not modelled.
- Extraction of the fields of an RFC 3339 text: a timestamp is given by its fields; the checks on them are modelled.
- Error message texts of the pricing parser: an error is one of an enumeration, in the order the code checks.
- Cost estimates, rate lookup and model resolution by role, alias pattern or request: each is settled by reading one branch.
- `request_looks_like_codex_full_context`: a structural guess without a deeper property.
- Parsing and validation of catalog documents, and the mapping of a model to the app server's fields: field-by-field copying.
- Locks and poisoned mutexes: each operation of the store and the runtime slot, and each of the two halves of a refresh, is one atomic step; the configuration does not change while refreshes run.
- File writes, the cache file's contents, logging and HTTP requests: input and output.
- `has_round_for` and the hashes and diagnostics of rounds: they only report.
- The branches of `upsert_upstream_base_url` that edit an existing table: they belong to the `toml_edit` library; the check that the spliced text still parses is left out for the same reason.
- ConfigSplice.SpliceKeepsTables: header lines are recognised as the source does, by their first character, so a line of a multi-line string or array that starts with `[` counts as one; TOML's own tables are not modelled.
- ConfigSplice.CodeseexInsertOffset: offsets count characters, not UTF-8 bytes; line boundaries are the same in both.
- Rounds.NativePendingToolGroups.ContinuationFor: the clock is a parameter read once per call, and a round's creation time is part of the round.
- The user interface, the manager's HTTP interface, process launch, the rest of the Codex integration and community tools: not part of this model.
