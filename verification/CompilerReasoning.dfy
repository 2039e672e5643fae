/** Exactly when a call message goes out without reasoning. */
module CompilerReasoning {
  import opened Wrappers
  import opened Json
  import opened Text
  import opened Chat
  import opened ChatProtocol
  import opened Redaction
  import opened Compiler
  import opened CompilerSafety
  import opened CompilerConservation

  // ------------------------------------- call runs, told from the input alone

  /** Calls and reasoning extend an open run of calls; every other item ends it. */
  predicate Extends(reading: Reading) {
    reading.Call? || reading.Reasoning?
  }

  /** The first `k` items end inside a run of calls. */
  predicate OpenAt(env: Env, items: seq<Json>, k: nat)
    requires k <= |items|
  {
    k > 0 && (ReadAt(env, items, k - 1).Call?
              || (ReadAt(env, items, k - 1).Reasoning? && OpenAt(env, items, k - 1)))
  }

  /** The last call of the open run. */
  function LastCall(env: Env, items: seq<Json>, k: nat): (c: nat)
    requires k <= |items| && OpenAt(env, items, k)
    ensures c < k
  {
    hide Read;
    if ReadAt(env, items, k - 1).Call? then k - 1 else LastCall(env, items, k - 1)
  }

  predicate ReasonedBefore(env: Env, items: seq<Json>, k: nat)
    requires k <= |items|
  {
    exists j | 0 <= j < k :: ReasoningText(env.codec, items[j]).Some?
  }

  /** A run of calls ends at `j`, and no reasoning item comes before its last call. */
  predicate UnreasonedRun(env: Env, items: seq<Json>, j: nat) {
    && j <= |items|
    && (j < |items| ==> !Extends(ReadAt(env, items, j)))
    && OpenAt(env, items, j)
    && !ReasonedBefore(env, items, LastCall(env, items, j))
  }

  predicate SomeUnreasoned(ms: seq<Message>) {
    exists m | m in ms :: IsUnreasoned(m)
  }

  // ------------------------------------------------------- the loop invariant

  predicate PendingExplained(env: Env, items: seq<Json>, k: nat, p: Pending)
    requires k <= |items|
  {
    && NamedCalls(p.toolCalls)
    && (p.toolCalls != [] <==> OpenAt(env, items, k))
    && (OpenAt(env, items, k) ==> (!Blank(p.reasoning) <==> ReasonedBefore(env, items, LastCall(env, items, k))))
  }

  predicate Explained(env: Env, items: seq<Json>, k: nat, st: State)
    requires k <= |items|
  {
    && (!Blank(st.lastReasoning) <==> ReasonedBefore(env, items, k))
    && (Blank(st.lastReasoning) ==> Blank(st.pending.reasoning) && Blank(st.pendingReasoning))
    && PendingExplained(env, items, k, st.pending)
    && (SomeUnreasoned(st.messages) <==> exists j: nat | j < k :: UnreasonedRun(env, items, j))
  }

  lemma PendingUnreasoned(p: Pending)
    requires NamedCalls(p.toolCalls)
    ensures SomeUnreasoned(PendingMessages(p)) <==> p.toolCalls != [] && Blank(p.reasoning)
  {
    NamedCallIds(p.toolCalls);
    if p.toolCalls != [] && Blank(p.reasoning) {
      assert PendingMessages(p)[0] in PendingMessages(p);
      assert IsUnreasoned(PendingMessages(p)[0]);
    }
  }

  lemma SomeUnreasonedConcat(a: seq<Message>, b: seq<Message>)
    ensures SomeUnreasoned(a + b) <==> SomeUnreasoned(a) || SomeUnreasoned(b)
  {
    hide IsUnreasoned;
    if m :| m in a && IsUnreasoned(m) {
      assert m in a + b;
    }
    if m :| m in b && IsUnreasoned(m) {
      assert m in a + b;
    }
  }

  lemma ReasonedMore(env: Env, items: seq<Json>, k: nat)
    requires k < |items|
    ensures ReasonedBefore(env, items, k + 1)
            <==> ReasonedBefore(env, items, k) || ReasoningText(env.codec, items[k]).Some?
    ensures ReadAt(env, items, k).Reasoning? <==> ReasoningText(env.codec, items[k]).Some?
  {
    hide ReasoningText, ItemToolCall, ItemResult, CompactionMessage, VerifiedFact, ItemMessage, CalledIds;
  }

  lemma UnreasonedMore(env: Env, items: seq<Json>, k: nat)
    requires k < |items|
    ensures (exists j: nat | j < k + 1 :: UnreasonedRun(env, items, j))
            <==> (exists j: nat | j < k :: UnreasonedRun(env, items, j)) || UnreasonedRun(env, items, k)
  {
    hide UnreasonedRun;
  }

  /** An item that ends the run: the pending message goes out and nothing stays pending. */
  lemma EndExplained(env: Env, items: seq<Json>, k: nat, st: State, next: State, extra: seq<Message>)
    requires k < |items| && Explained(env, items, k, st) && !Extends(ReadAt(env, items, k))
    requires next.messages == st.messages + PendingMessages(st.pending) + extra && !SomeUnreasoned(extra)
    requires next.lastReasoning == st.lastReasoning && next.pending.toolCalls == []
    requires Blank(st.lastReasoning) ==> Blank(next.pending.reasoning) && Blank(next.pendingReasoning)
    ensures Explained(env, items, k + 1, next)
  {
    hide ReadAt, ReasonedBefore, Blank, PendingMessages, SomeUnreasoned;
    ReasonedMore(env, items, k);
    UnreasonedMore(env, items, k);
    PendingUnreasoned(st.pending);
    SomeUnreasonedConcat(st.messages, PendingMessages(st.pending));
    SomeUnreasonedConcat(st.messages + PendingMessages(st.pending), extra);
    assert UnreasonedRun(env, items, k) <==> SomeUnreasoned(PendingMessages(st.pending));
  }

  lemma PlainUnreasoned(ms: seq<Message>)
    requires forall m | m in ms :: m.toolCalls.None? || IsTool(m)
    ensures !SomeUnreasoned(ms)
  {
    forall m | m in ms
      ensures !IsUnreasoned(m)
    {
      PlainNoCalls(m);
    }
  }

  /** What every step that ends a run does to the messages and the reasoning. */
  lemma EndShape(env: Env, st: State, item: Json) returns (extra: seq<Message>)
    requires !Extends(Read(env, st.seenIds, item))
    ensures var next := Step(env, st, item);
            && next.messages == Flushed(st) + extra && !SomeUnreasoned(extra)
            && next.lastReasoning == st.lastReasoning && next.pending.toolCalls == []
            && (Blank(st.pending.reasoning) && Blank(st.pendingReasoning)
                ==> Blank(next.pending.reasoning) && Blank(next.pendingReasoning))
  {
    hide Read, Flushed, ResultFact, WellFormed, SomeUnreasoned, UserMessage, JoinNonempty, PendingMessages;
    ReadWellFormed(env, st.seenIds, item);
    UserPlain();
    assert Flushed(st) + [] == Flushed(st);
    assert Blank("");
    extra := [];
    match Read(env, st.seenIds, item) {
      case ResultOf(message) =>
        var fact := ResultFact(env, st.seenNames, item, message);
        extra := if fact.Some? then [message] + [UserMessage(fact.value)] else [message];
      case Compaction(message) =>
        extra := [message];
      case Said(message) =>
        if message.role != Assistant {
          extra := [message];
        } else {
          JoinNonemptyBlank(AfterFlush(st.pending).reasoning, st.pendingReasoning);
        }
      case _ =>
    }
    PlainUnreasoned(extra);
  }

  lemma UserPlain()
    ensures forall text :: UserMessage(text).toolCalls.None?
  {
  }

  lemma CallExplained(env: Env, items: seq<Json>, k: nat, st: State, call: ToolCall)
    requires k < |items| && Explained(env, items, k, st) && ReadAt(env, items, k) == Call(call)
    requires call.id.Some? && !Blank(call.id.value)
    ensures Explained(env, items, k + 1, StepToolCall(st, call))
  {
    hide ReadAt, ReasonedBefore, Blank, SomeUnreasoned, JoinNonempty;
    ReasonedMore(env, items, k);
    UnreasonedMore(env, items, k);
    JoinNonemptyBlank(st.pending.reasoning, st.pendingReasoning);
    NothingBlank();
  }

  lemma NothingBlank()
    ensures Blank("")
  {
  }

  lemma StepExplained(env: Env, items: seq<Json>, k: nat, st: State)
    requires k < |items| && st.seenIds == CalledIds(env, items, k) && Explained(env, items, k, st)
    ensures Explained(env, items, k + 1, Step(env, st, items[k]))
  {
    hide Read, CalledIds, ReasonedBefore, Blank, SomeUnreasoned, JoinNonempty, PendingMessages, ResultFact, UserMessage,
      AfterFlush, StepToolCall;
    var next := Step(env, st, items[k]);
    var reading := ReadAt(env, items, k);
    ReadWellFormed(env, st.seenIds, items[k]);
    match reading {
      case Call(call) =>
        assert [call][0] == call;
        CallExplained(env, items, k, st, call);
      case Reasoning(text) =>
        ReasonedMore(env, items, k);
        UnreasonedMore(env, items, k);
        ReadReasoning(env, st.seenIds, items[k]);
        JoinNonemptyBlank(st.pendingReasoning, text);
      case _ =>
        var extra := EndShape(env, st, items[k]);
        EndExplained(env, items, k, st, next, extra);
    }
  }

  lemma {:induction false} RunExplained(env: Env, items: seq<Json>, k: nat, st: State)
    requires k <= |items| && Tracks(env, items, k, st) && Explained(env, items, k, st)
    ensures Explained(env, items, |items|, Run(env, st, items[k..]))
    decreases |items| - k
  {
    hide Tracks, Step, Explained, CalledIds;
    if k < |items| {
      StepTracks(env, items, k, st);
      TracksSeen(env, items, k, st);
      StepExplained(env, items, k, st);
      RunStep(env, st, items, k);
      RunExplained(env, items, k + 1, Step(env, st, items[k]));
    } else {
      RunNone(env, st, items);
    }
  }

  lemma StartExplained(env: Env, items: seq<Json>)
    ensures Explained(env, items, 0, Start(items))
  {
    hide ReadAt, UnreasonedRun;
  }

  /** A call message goes to the sanitiser without reasoning exactly when some run of calls has no
      reasoning item before its last call. */
  lemma UnreasonedExactly(codec: Codec, items: seq<Json>, valid: set<string>)
    ensures SomeUnreasoned(AssembledFor(codec, items, valid))
            <==> exists j: nat :: UnreasonedRun(EnvOf(codec, items, valid), items, j)
  {
    hide Run, Read, ResolvedIds, Tracks, SomeUnreasoned, UnreasonedRun, FactsMessage, PendingMessages;
    var env := EnvOf(codec, items, valid);
    var st := Run(env, Start(items), items);
    StartTracks(env, items);
    StartExplained(env, items);
    assert items[0..] == items;
    RunExplained(env, items, 0, Start(items));
    var facts := if st.facts == [] then [] else [FactsMessage(st.facts, st.diagnostic.truncatedItems)];
    PlainUnreasoned(facts);
    SomeUnreasonedConcat(facts, Flushed(st));
    SomeUnreasonedConcat(st.messages, PendingMessages(st.pending));
    PendingUnreasoned(st.pending);
    AtTheEnd(env, items, st.pending);
  }

  lemma AtTheEnd(env: Env, items: seq<Json>, p: Pending)
    requires PendingExplained(env, items, |items|, p)
    ensures p.toolCalls != [] && Blank(p.reasoning) <==> UnreasonedRun(env, items, |items|)
    ensures (exists j: nat | j < |items| :: UnreasonedRun(env, items, j)) || UnreasonedRun(env, items, |items|)
            <==> exists j: nat :: UnreasonedRun(env, items, j)
  {
    hide ReadAt, ReasonedBefore, Blank;
    forall j: nat | UnreasonedRun(env, items, j)
      ensures j <= |items|
    {
    }
  }

  // ----------------------------------------- reasoning that comes too late

  /** A call and its output with a reasoning item between them. */
  predicate ReasonedLate(codec: Codec, items: seq<Json>, valid: set<string>, call: ToolCall, result: Message) {
    var env := EnvOf(codec, items, valid);
    && |items| == 3 && ReadAt(env, items, 0) == Call(call) && ReadAt(env, items, 1).Reasoning?
    && ReadAt(env, items, 2) == ResultOf(result)
    && ExpectedIds(CallMessage(call)) == [result.CallId()] && result.IsResult()
  }

  /** The message of a single call read before any reasoning. */
  function CallMessage(call: ToolCall): Message {
    Message(Assistant, "", Some([call]), None, Some(""))
  }

  lemma StepReads(env: Env, items: seq<Json>, k: nat, st: State)
    requires k < |items| && Tracks(env, items, k, st)
    ensures Read(env, st.seenIds, items[k]) == ReadAt(env, items, k)
    ensures Tracks(env, items, k + 1, Step(env, st, items[k]))
  {
    hide Read, CalledIds, Step, Tracks;
    StepTracks(env, items, k, st);
    TracksSeen(env, items, k, st);
  }

  lemma FirstCall(env: Env, items: seq<Json>, call: ToolCall)
    ensures var st := StepToolCall(Start(items), call);
            st.messages == [] && st.facts == [] && st.pending == Pending("", "", [call])
  {
    hide JoinNonempty, Blank;
    NothingBlank();
    JoinNonemptyBlank("", "");
  }

  /** What a call, a reasoning item and a result leave behind. */
  lemma LateReasoningRun(env: Env, items: seq<Json>, call: ToolCall, result: Message) returns (extra: seq<Message>)
    requires |items| == 3 && ReadAt(env, items, 0) == Call(call) && ReadAt(env, items, 1).Reasoning?
    requires ReadAt(env, items, 2) == ResultOf(result)
    ensures Assembled(Run(env, Start(items), items)) == [CallMessage(call), result] + extra
    ensures extra == [] || !IsTool(extra[0])
  {
    hide Read, ReadAt, Tracks, ResultFact, UserMessage, JoinNonempty, StepToolCall;
    var s0 := Start(items);
    StartTracks(env, items);
    StepReads(env, items, 0, s0);
    var s1 := Step(env, s0, items[0]);
    FirstCall(env, items, call);
    StepReads(env, items, 1, s1);
    var s2 := Step(env, s1, items[1]);
    assert s2.messages == [] && s2.facts == [] && s2.pending == s1.pending;
    StepReads(env, items, 2, s2);
    var s3 := Step(env, s2, items[2]);
    assert PendingMessages(s2.pending) == [CallMessage(call)];
    var fact := ResultFact(env, s2.seenNames, items[2], result);
    extra := if fact.Some? then [UserMessage(fact.value)] else [];
    if fact.Some? {
      UserNotTool(fact.value);
    }
    assert Flushed(s3) == [CallMessage(call), result] + extra;
    assert Run(env, s0, items) == s3 by {
      RunStep(env, s0, items, 0);
      RunStep(env, s1, items, 1);
      RunStep(env, s2, items, 2);
      RunNone(env, s3, items);
      assert items[0..] == items;
    }
  }

  /** The call goes out without reasoning, although its result is read after the reasoning item. */
  lemma LateReasoningMisses(codec: Codec, items: seq<Json>, valid: set<string>, call: ToolCall, result: Message)
    requires ReasonedLate(codec, items, valid, call, result)
    ensures CallMessage(call) in CompileItems(codec, items, valid).messages && IsUnreasoned(CallMessage(call))
  {
    hide ReadAt, ResolvedIds, Sanitize, Canonical, ExpectedIds, Assembled, Run, UserMessage;
    var caller := CallMessage(call);
    var extra := LateReasoningRun(EnvOf(codec, items, valid), items, call, result);
    OneAnswerCanonical(caller, result, valid);
    SanitizeFixedIffCanonical([caller, result], valid);
    SanitizeSplits([caller, result], extra, valid);
  }

  function Item(kind: string, key: string, text: string, other: string, otherText: string): Json {
    Obj(map["type" := Str(kind), key := Str(text), other := Str(otherText)])
  }

  lemma CallItemParts(codec: Codec, item: Json)
    requires item == Item("function_call", "call_id", "a", "name", "f")
    ensures IsToolCallItem(item) && Kind(item) != "reasoning"
    ensures ItemCallId(item) == Some("a") && ItemToolName(item) == Some("f") && ItemArguments(codec, item) == "{}"
  {
    assert !IsWhitespace("a"[0]) && !IsWhitespace("f"[0]);
  }

  lemma CallItemRead(env: Env, seenIds: set<string>, item: Json)
    requires item == Item("function_call", "call_id", "a", "name", "f") && "a" in env.resolved
    ensures Read(env, seenIds, item) == Call(ToolCall(Some("a"), "f", "{}"))
  {
    hide ItemResult, CompactionMessage, VerifiedFact, ItemMessage, Item, ItemCallId, ItemToolName, ItemArguments, Kind,
      IsToolCallItem;
    CallItemParts(env.codec, item);
  }

  lemma PlainText(text: string)
    requires text == "r"
    ensures Redact(text) == text && !Blank(text)
  {
    hide Redact;
    RedactFixedIffMarkerFree(text);
    assert !IsWhitespace(text[0]);
  }

  lemma ReasoningItemRead(env: Env, seenIds: set<string>, item: Json)
    requires item == Item("reasoning", "summary", "r", "id", "i")
    ensures Read(env, seenIds, item).Reasoning?
  {
    hide ItemToolCall, ItemResult, CompactionMessage, VerifiedFact, ItemMessage, Truncate, Redact, Blank;
    PlainText("r");
    assert item.Get("summary") == Some(Str("r")) && item.GetStr("encrypted_content") == None;
    assert Kind(item) == "reasoning";
    assert FieldText(env.codec, item, "summary") == Some("r");
  }

  lemma OutputItemParts(item: Json)
    requires item == Item("function_call_output", "call_id", "a", "output", "x")
    ensures Kind(item) == "function_call_output" && ItemCallId(item) == Some("a")
  {
    assert !IsWhitespace("a"[0]);
  }

  lemma OutputItemKind(item: Json)
    requires Kind(item) == "function_call_output"
    ensures IsToolOutput(item) && !IsToolCallItem(item) && Kind(item) != "reasoning"
  {
    hide Kind;
  }

  lemma OutputItemRead(env: Env, seenIds: set<string>, item: Json)
    requires item == Item("function_call_output", "call_id", "a", "output", "x")
    requires "a" in env.resolved && "a" in seenIds
    ensures Read(env, seenIds, item).ResultOf? && Read(env, seenIds, item).message.CallId() == "a"
    ensures Read(env, seenIds, item).message.IsResult()
    ensures IsToolOutput(item) && ItemCallId(item) == Some("a")
  {
    hide CompactionMessage, VerifiedFact, ItemMessage, ToolOutputText, Truncate, Redact, Item, Kind, ItemCallId,
      IsToolOutput, IsToolCallItem, ItemToolName, ItemArguments;
    OutputItemParts(item);
    OutputItemKind(item);
  }

  /** A concrete input, whatever the JSON and base64 functions do. */
  lemma ReasoningCanComeTooLate(codec: Codec, valid: set<string>) returns (items: seq<Json>)
    ensures |items| == 3 && ReasoningText(codec, items[1]).Some? && IsToolOutput(items[2])
    ensures SomeUnreasoned(CompileItems(codec, items, valid).messages)
  {
    hide Read, Item, ItemToolCall, ReasoningText, IsToolOutput, ItemCallId, CompileItems, IsUnreasoned, CalledIds,
      ResolvedIds;
    items := [Item("function_call", "call_id", "a", "name", "f"), Item("reasoning", "summary", "r", "id", "i"),
              Item("function_call_output", "call_id", "a", "output", "x")];
    var env := EnvOf(codec, items, valid);
    var call := ToolCall(Some("a"), "f", "{}");
    OutputItemRead(env.(resolved := {"a"}), {"a"}, items[2]);
    assert "a" in env.resolved by {
      Resolves(items, 2, "a");
    }
    CallItemRead(env, CalledIds(env, items, 0), items[0]);
    ReasoningItemRead(env, CalledIds(env, items, 1), items[1]);
    ReasonedMore(env, items, 1);
    CalledMore(env, items, 0);
    CalledMore(env, items, 1);
    OutputItemRead(env, CalledIds(env, items, 2), items[2]);
    assert ExpectedIds(CallMessage(call)) == ["a"] by {
      assert !IsWhitespace("a"[0]);
      assert CallIds([call][1..]) == [];
    }
    LateReasoningMisses(codec, items, valid, call, ReadAt(env, items, 2).message);
  }

  lemma Resolves(items: seq<Json>, k: nat, id: string)
    requires k < |items| && IsToolOutput(items[k]) && ItemCallId(items[k]) == Some(id)
    ensures id in ResolvedIds(items)
  {
    hide IsToolOutput, ItemCallId;
    assert items[k] in items;
  }
}
