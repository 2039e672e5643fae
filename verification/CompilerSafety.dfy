/** What the compiler guarantees for every input. */
module CompilerSafety {
  import opened Wrappers
  import opened Json
  import opened Text
  import opened Redaction
  import opened Seqs
  import opened Chat
  import opened ChatProtocol
  import opened Compiler

  // --------------------------------------------------------- the tool protocol

  predicate NamedCalls(calls: seq<ToolCall>) {
    forall i | 0 <= i < |calls| :: calls[i].id.Some? && !Blank(calls[i].id.value)
  }

  /** Calls only in assistant messages, never none at all, each with an id; and tool messages
      carry the id they answer and redacted text. */
  predicate WellFormed(m: Message) {
    && (m.toolCalls.Some? ==> m.role == Assistant && m.toolCalls.value != [] && NamedCalls(m.toolCalls.value))
    && (IsTool(m) ==> m.IsResult() && MarkerFree(m.content))
  }

  predicate AllWellFormed(ms: seq<Message>) {
    forall m | m in ms :: WellFormed(m)
  }

  lemma {:induction false} NamedCallIds(calls: seq<ToolCall>)
    requires NamedCalls(calls)
    ensures |CallIds(calls)| == |calls|
    ensures forall k | 0 <= k < |calls| :: CallIds(calls)[k] == calls[k].id.value
  {
    if calls != [] {
      NamedCallIds(calls[1..]);
    }
  }

  lemma PendingWellFormed(p: Pending)
    requires NamedCalls(p.toolCalls)
    ensures AllWellFormed(PendingMessages(p))
  {
  }

  lemma ToolOutputWellFormed(codec: Codec, item: Json, id: string)
    ensures WellFormed(ToolOutputMessage(codec, item, id))
  {
    hide Redact, Truncate, MarkerFree, ToolOutputText;
    var text := ToolOutputText(codec, item);
    RedactedIsMarkerFree(text);
    TruncateMarkerFree(Redact(text), MAX_TOOL_OUTPUT_CHARS);
  }

  /** A message read from an item is not a tool message: such an item is read as a fact. */
  lemma SaidIsNotTool(env: Env, seenIds: set<string>, item: Json)
    ensures Read(env, seenIds, item).Said? ==>
              var m := Read(env, seenIds, item).message; m == TextMessage(m.role, m.content) && !IsTool(m)
  {
    hide ReasoningText, ItemToolCall, ItemResult, CompactionMessage, FactText, Blank, FieldText, Truncate,
      Contains, EndsWith, Kind;
  }

  lemma ReadWellFormed(env: Env, seenIds: set<string>, item: Json)
    ensures match Read(env, seenIds, item)
            case Call(call) => NamedCalls([call])
            case ResultOf(m) => WellFormed(m) && IsTool(m)
            case Compaction(m) => WellFormed(m) && !IsTool(m) && m.toolCalls.None?
            case Said(m) => WellFormed(m) && !IsTool(m) && m.toolCalls.None?
            case _ => true
  {
    hide ReasoningText, ItemToolCall, CompactionMessage, VerifiedFact, ItemMessage, ToolOutputMessage;
    SaidIsNotTool(env, seenIds, item);
    CompactionShape(env.codec, item);
    var id := ItemCallId(item);
    if id.Some? {
      ToolOutputWellFormed(env.codec, item, id.value);
    }
  }

  predicate StateWellFormed(st: State) {
    AllWellFormed(st.messages) && NamedCalls(st.pending.toolCalls)
  }

  lemma FlushedWellFormed(st: State, extra: seq<Message>)
    requires StateWellFormed(st) && AllWellFormed(extra)
    ensures AllWellFormed(Flushed(st) + extra) && AllWellFormed(Flushed(st))
  {
    hide WellFormed, PendingMessages;
    PendingWellFormed(st.pending);
  }

  lemma StepWellFormed(env: Env, st: State, item: Json)
    requires StateWellFormed(st)
    ensures StateWellFormed(Step(env, st, item))
  {
    hide Read, WellFormed, ResultFact, JoinNonempty, Blank, Flushed, UserMessage, AllWellFormed, AfterFlush;
    ReadWellFormed(env, st.seenIds, item);
    NothingWellFormed();
    FlushedWellFormed(st, []);
    match Read(env, st.seenIds, item) {
      case ResultOf(message) =>
        OneWellFormed(message);
        FlushedWellFormed(st, [message]);
        var fact := ResultFact(env, st.seenNames, item, message);
        if fact.Some? {
          UserWellFormed();
          TwoWellFormed(message, UserMessage(fact.value));
          FlushedWellFormed(st, [message, UserMessage(fact.value)]);
          assert Flushed(st) + [message] + [UserMessage(fact.value)]
                 == Flushed(st) + [message, UserMessage(fact.value)];
        }
      case Compaction(message) =>
        OneWellFormed(message);
        FlushedWellFormed(st, [message]);
      case Said(message) =>
        OneWellFormed(message);
        FlushedWellFormed(st, [message]);
      case _ =>
    }
  }

  lemma NothingWellFormed()
    ensures AllWellFormed([])
  {
  }

  lemma OneWellFormed(m: Message)
    requires WellFormed(m)
    ensures AllWellFormed([m])
  {
    hide WellFormed;
  }

  lemma TwoWellFormed(m: Message, m': Message)
    requires WellFormed(m) && WellFormed(m')
    ensures AllWellFormed([m, m'])
  {
    hide WellFormed;
  }

  lemma UserWellFormed()
    ensures forall text :: WellFormed(UserMessage(text))
  {
    hide Redact;
  }

  lemma {:induction false} RunWellFormed(env: Env, st: State, items: seq<Json>)
    requires StateWellFormed(st)
    ensures StateWellFormed(Run(env, st, items))
    decreases |items|
  {
    hide Step, StateWellFormed;
    if items != [] {
      StepWellFormed(env, st, items[0]);
      RunWellFormed(env, Step(env, st, items[0]), items[1..]);
    }
  }

  lemma AssembledWellFormed(env: Env, items: seq<Json>)
    ensures AllWellFormed(Assembled(Run(env, Start(items), items)))
  {
    hide Run, WellFormed, PendingMessages, FactsMessage;
    var st := Run(env, Start(items), items);
    RunWellFormed(env, Start(items), items);
    PendingWellFormed(st.pending);
    assert WellFormed(FactsMessage(st.facts, st.diagnostic.truncatedItems)) by {
      FactsWellFormed(st.facts, st.diagnostic.truncatedItems);
    }
  }

  lemma FactsWellFormed(facts: seq<string>, truncated: nat)
    ensures WellFormed(FactsMessage(facts, truncated))
    ensures ExpectedIds(FactsMessage(facts, truncated)) == []
  {
    hide FactsMessage;
  }

  /** Sanitising keeps the message shapes. */
  lemma SanitizedWellFormed(ms: seq<Message>, valid: set<string>)
    requires AllWellFormed(ms)
    ensures AllWellFormed(Sanitize(ms, valid))
  {
    hide LedgerOf, Filter, Sanitize, OrphanFact, WellFormed, ExpectedIds, OrphanFacts;
    var ledger, out := LedgerOf(ms, valid), Sanitize(ms, valid);
    SanitizeBalances(ms, valid);
    LedgerSorted(ms, valid);
    DowngradesNoTool(ledger.lost);
    forall m | m in out
      ensures WellFormed(m)
    {
      assert m in multiset(out);
      FilterMember(Useful, ledger.texts, m);
      if m in ledger.texts || m in ledger.callers || m in ledger.results {
        assert m in multiset(ms);
      } else if m in Downgrades(ledger.lost) {
        PlainWellFormed(m);
      } else {
        assert m in OrphanFacts(ledger.orphans);
        OrphanFactsPlain(ledger.orphans, m);
      }
    }
  }

  lemma OrphanFactsPlain(ms: seq<Message>, m: Message)
    requires m in OrphanFacts(ms)
    ensures WellFormed(m)
  {
    hide OrphanText, Redact, Truncate;
  }

  lemma PlainWellFormed(m: Message)
    requires m.role == Assistant && m.toolCalls.None?
    ensures WellFormed(m)
  {
  }

  /** Whatever the input, the compiled messages are legal and well formed. */
  lemma CompiledLegal(codec: Codec, input: Json, valid: set<string>)
    ensures Legal(Compile(codec, input, valid).messages, valid)
    ensures AllWellFormed(Compile(codec, input, valid).messages)
  {
    hide Run, Sanitize, Assembled, UserMessage, ResolvedIds, Legal, WellFormed;
    UserWellFormed();
    forall text
      ensures Legal([UserMessage(text)], valid)
    {
      UserLegal(text, valid);
    }
    LegalNone(valid);
    if input.Arr? {
      var env := EnvOf(codec, input.items, valid);
      var ms := Assembled(Run(env, Start(input.items), input.items));
      AssembledWellFormed(env, input.items);
      SanitizeIsLegal(ms, valid);
      SanitizedWellFormed(ms, valid);
    }
  }

  lemma UserLegal(text: string, valid: set<string>)
    ensures Legal([UserMessage(text)], valid)
  {
    hide Redact;
    assert [UserMessage(text)][1..] == [];
  }

  /** Message `j` answers call `j - i - 1` of message `i`. */
  predicate AnswersCallOf(out: seq<Message>, i: nat, j: nat)
    requires i < j < |out|
  {
    && out[i].role == Assistant && out[i].toolCalls.Some?
    && var calls := out[i].toolCalls.value;
       j - i <= |calls| && calls[j - i - 1].id.Some? && out[j].toolCallId == calls[j - i - 1].id
  }

  lemma OwnedAnswersCall(out: seq<Message>, i: nat, j: nat)
    requires i < j < |out| && WellFormed(out[i]) && WellFormed(out[j]) && IsTool(out[j]) && Owns(out, i, j)
    ensures AnswersCallOf(out, i, j)
  {
    hide CallIds, MarkerFree;
    NoCallsExpectNothing(out[i]);
    NamedCallIds(out[i].toolCalls.value);
  }

  /** Every compiled assistant message with calls is followed at once by one result per call, in
      call order; every other tool message answers an id the caller declared valid. */
  lemma CompiledToolProtocol(codec: Codec, input: Json, valid: set<string>, j: nat)
    requires j < |Compile(codec, input, valid).messages|
    ensures var out := Compile(codec, input, valid).messages;
            && (out[j].toolCalls.Some? ==>
                  var calls := out[j].toolCalls.value;
                  && calls != [] && j + |calls| < |out|
                  && (forall k | 0 <= k < |calls| ::
                        out[j + 1 + k].role == Tool && calls[k].id.Some? && out[j + 1 + k].toolCallId == calls[k].id)
                  && (forall k, l | 0 <= k < l < |calls| :: calls[k].id != calls[l].id))
            && (out[j].role == Tool ==>
                  || (out[j].toolCallId.Some? && out[j].toolCallId.value in valid)
                  || exists i: nat | i < j :: AnswersCallOf(out, i, j))
  {
    hide Compile, Legal, CallIds, MarkerFree;
    var out := Compile(codec, input, valid).messages;
    CompiledLegal(codec, input, valid);
    LegalAt(out, valid, j);
    assert WellFormed(out[j]);
    if out[j].toolCalls.Some? {
      var calls, ids := out[j].toolCalls.value, ExpectedIds(out[j]);
      NamedCallIds(calls);
      forall k | 0 <= k < |calls|
        ensures IsTool(out[j + 1 + k]) && out[j + 1 + k].toolCallId == calls[k].id
      {
        assert out[j + 1..][k] == out[j + 1 + k];
        assert calls[k].id.value == ids[k];
      }
      forall k, l | 0 <= k < l < |calls|
        ensures calls[k].id != calls[l].id
      {
        assert ids[k] != ids[l];
      }
    }
    if out[j].role == Tool && !(out[j].toolCallId.Some? && out[j].toolCallId.value in valid) {
      var i: nat :| i < j && Owns(out, i, j);
      assert WellFormed(out[i]);
      OwnedAnswersCall(out, i, j);
    }
  }

  /** No compiled tool message contains `data:`. */
  lemma CompiledToolTextRedacted(codec: Codec, input: Json, valid: set<string>, m: Message)
    requires m in Compile(codec, input, valid).messages && IsTool(m)
    ensures MarkerFree(m.content)
  {
    hide Compile, MarkerFree;
    CompiledLegal(codec, input, valid);
    assert WellFormed(m);
  }

  // ------------------------------------------------------- reasoning is carried

  lemma {:induction false} RunSplits(env: Env, st: State, a: seq<Json>, b: seq<Json>)
    ensures Run(env, st, a + b) == Run(env, Run(env, st, a), b)
    decreases |a|
  {
    hide Step;
    if a == [] {
      assert a + b == b;
    } else {
      var s := a + b;
      assert s[1..] == a[1..] + b;
      RunSplits(env, Step(env, st, a[0]), a[1..], b);
    }
  }

  /** A call message without reasoning. */
  predicate IsUnreasoned(m: Message) {
    IsCallMessage(m) && !m.HasReasoning()
  }

  lemma PendingReasoned(p: Pending, m: Message)
    requires IsUnreasoned(m)
    ensures p.toolCalls == [] || !Blank(p.reasoning) ==> m !in PendingMessages(p)
  {
    NoCallsExpectNothing(m);
  }

  /** Flushing and pushing messages other than `m` does not add to the count of `m`. */
  lemma PushesNone(st: State, next: State, extra: seq<Message>, m: Message)
    requires next.messages == Flushed(st) + extra
    requires m !in extra && m !in PendingMessages(next.pending)
    ensures multiset(Flushed(next))[m] <= multiset(Flushed(st))[m]
  {
    hide PendingMessages;
  }

  lemma CallReasons(st: State, call: ToolCall, m: Message)
    requires !Blank(st.lastReasoning) && IsUnreasoned(m)
    ensures !Blank(StepToolCall(st, call).lastReasoning)
    ensures multiset(Flushed(StepToolCall(st, call)))[m] <= multiset(Flushed(st))[m]
  {
    hide IsUnreasoned, PendingMessages, JoinNonempty, Blank;
    PendingReasoned(StepToolCall(st, call).pending, m);
  }

  /** Reading one more item after a reasoning item adds no call message without reasoning. */
  lemma StepReasons(env: Env, st: State, item: Json, m: Message)
    requires !Blank(st.lastReasoning) && IsUnreasoned(m)
    ensures !Blank(Step(env, st, item).lastReasoning)
    ensures multiset(Flushed(Step(env, st, item)))[m] <= multiset(Flushed(st))[m]
  {
    hide Read, IsUnreasoned, PendingMessages, JoinNonempty, Blank, ResultFact, WellFormed, UserMessage, AfterFlush,
      Flushed, StepToolCall;
    var next := Step(env, st, item);
    ReadWellFormed(env, st.seenIds, item);
    ReadReasoning(env, st.seenIds, item);
    PendingReasoned(next.pending, m);
    match Read(env, st.seenIds, item) {
      case Reasoning(text) =>
        JoinNonemptyBlank(st.pendingReasoning, text);
        SameFlushed(st, next);
      case Call(call) =>
        CallReasons(st, call, m);
      case ResultOf(message) =>
        NotCallMessage(message, m);
        UserNotCall(m);
        var fact := ResultFact(env, st.seenNames, item, message);
        var extra := if fact.Some? then [message] + [UserMessage(fact.value)] else [message];
        assert next.messages == Flushed(st) + extra;
        PushesNone(st, next, extra, m);
      case Compaction(message) =>
        NotCallMessage(message, m);
        PushesNone(st, next, [message], m);
      case Said(message) =>
        NotCallMessage(message, m);
        assert Flushed(st) + [] == Flushed(st);
        PushesNone(st, next, if message.role == Assistant then [] else [message], m);
      case _ =>
        assert Flushed(st) + [] == Flushed(st);
        PushesNone(st, next, [], m);
    }
  }

  lemma SameFlushed(a: State, b: State)
    requires a.messages == b.messages && a.pending == b.pending
    ensures Flushed(a) == Flushed(b)
  {
  }

  lemma ReadReasoning(env: Env, seenIds: set<string>, item: Json)
    ensures Read(env, seenIds, item).Reasoning? ==> !Blank(Read(env, seenIds, item).text)
    ensures ReasoningText(env.codec, item).Some? ==> Read(env, seenIds, item).Reasoning?
  {
    hide ReasoningText, ItemToolCall, ItemResult, CompactionMessage, VerifiedFact, ItemMessage;
  }

  lemma NotCallMessage(message: Message, m: Message)
    requires IsUnreasoned(m)
    ensures message.toolCalls.None? || IsTool(message) ==> message != m
  {
    NoCallsExpectNothing(m);
  }

  lemma UserNotCall(m: Message)
    requires IsUnreasoned(m)
    ensures forall text :: UserMessage(text) != m
  {
    hide Redact;
    NoCallsExpectNothing(m);
  }

  lemma {:induction false} RunReasons(env: Env, st: State, items: seq<Json>, m: Message)
    requires !Blank(st.lastReasoning) && IsUnreasoned(m)
    ensures multiset(Flushed(Run(env, st, items)))[m] <= multiset(Flushed(st))[m]
    decreases |items|
  {
    hide Step, IsUnreasoned, Flushed, Blank;
    if items != [] {
      StepReasons(env, st, items[0], m);
      RunReasons(env, Step(env, st, items[0]), items[1..], m);
    }
  }

  lemma {:induction false} RunKeepsReasoning(env: Env, st: State, items: seq<Json>)
    requires !Blank(st.lastReasoning) || exists item | item in items :: ReasoningText(env.codec, item).Some?
    ensures !Blank(Run(env, st, items).lastReasoning)
    decreases |items|
  {
    hide Read, JoinNonempty, Blank, ReasoningText, Flushed, AfterFlush, ResultFact;
    if items != [] {
      var item := items[0];
      ReadReasoning(env, st.seenIds, item);
      var next := Step(env, st, item);
      if ReasoningText(env.codec, item).Some? {
        JoinNonemptyBlank(st.pendingReasoning, Read(env, st.seenIds, item).text);
      } else if Blank(st.lastReasoning) {
        var later :| later in items && ReasoningText(env.codec, later).Some?;
        assert later in items[1..];
      } else if Read(env, st.seenIds, item).Reasoning? {
        JoinNonemptyBlank(st.pendingReasoning, Read(env, st.seenIds, item).text);
      }
      assert !Blank(st.lastReasoning) ==> !Blank(next.lastReasoning);
      RunKeepsReasoning(env, next, items[1..]);
    }
  }

  /** Once a reasoning item has been read, every later call message carries reasoning: each
      compiled call message without reasoning is one that the items up to the reasoning item had
      already fixed, counting occurrences. */
  lemma CompiledCallsReasoned(codec: Codec, a: seq<Json>, b: seq<Json>, valid: set<string>, m: Message)
    requires exists item | item in a :: ReasoningText(codec, item).Some?
    requires IsUnreasoned(m)
    ensures var env := EnvOf(codec, a + b, valid);
            multiset(CompileItems(codec, a + b, valid).messages)[m]
            <= multiset(Flushed(Run(env, Start(a + b), a)))[m]
  {
    hide Run, Sanitize, IsUnreasoned, ReasoningText, ResolvedIds, Blank, Flushed, FactsMessage, UserMessage;
    var items := a + b;
    var env := EnvOf(codec, items, valid);
    var mid, st := Run(env, Start(items), a), Run(env, Start(items), items);
    RunSplits(env, Start(items), a, b);
    RunKeepsReasoning(env, Start(items), a);
    RunReasons(env, mid, b, m);
    assert IsCallMessage(m) by {
      UnreasonedIsCall(m);
    }
    CallMessagesKept(Assembled(st), valid, m);
    NotCallMessage(FactsMessage(st.facts, st.diagnostic.truncatedItems), m);
    UserNotCall(m);
  }

  lemma UnreasonedIsCall(m: Message)
    requires IsUnreasoned(m)
    ensures IsCallMessage(m)
  {
  }

  predicate NoCallsYet(st: State) {
    st.pending.toolCalls == [] && forall m | m in st.messages :: !IsCallMessage(m)
  }

  lemma PendingNoCalls(p: Pending)
    requires p.toolCalls == []
    ensures forall m | m in PendingMessages(p) :: !IsCallMessage(m)
  {
  }

  lemma PlainNoCalls(m: Message)
    ensures m.toolCalls.None? || IsTool(m) ==> !IsCallMessage(m)
  {
    NoCallsExpectNothing(m);
  }

  lemma StepNoCalls(env: Env, st: State, item: Json)
    requires NoCallsYet(st) && ItemToolCall(env, item).None?
    ensures NoCallsYet(Step(env, st, item))
  {
    hide Read, IsCallMessage, PendingMessages, JoinNonempty, Blank, ResultFact, WellFormed, UserMessage;
    PendingNoCalls(st.pending);
    ReadWellFormed(env, st.seenIds, item);
    NotReadAsCall(env, st.seenIds, item);
    match Read(env, st.seenIds, item) {
      case ResultOf(message) =>
        PlainNoCalls(message);
        UserNoCalls();
      case Compaction(message) =>
        PlainNoCalls(message);
      case Said(message) =>
        PlainNoCalls(message);
      case _ =>
    }
  }

  lemma NotReadAsCall(env: Env, seenIds: set<string>, item: Json)
    requires ItemToolCall(env, item).None?
    ensures !Read(env, seenIds, item).Call?
  {
    hide ReasoningText, ItemResult, CompactionMessage, VerifiedFact, ItemMessage;
  }

  lemma UserNoCalls()
    ensures forall text :: !IsCallMessage(UserMessage(text))
  {
    hide Redact;
  }

  lemma {:induction false} RunNoCalls(env: Env, st: State, items: seq<Json>)
    requires NoCallsYet(st) && forall item | item in items :: ItemToolCall(env, item).None?
    ensures NoCallsYet(Run(env, st, items))
    decreases |items|
  {
    hide Step, NoCallsYet, ItemToolCall;
    if items != [] {
      StepNoCalls(env, st, items[0]);
      RunNoCalls(env, Step(env, st, items[0]), items[1..]);
    }
  }

  /** If a reasoning item comes before every replayable call, every compiled call message carries
      non-blank reasoning. */
  lemma CompiledCallsAllReasoned(codec: Codec, a: seq<Json>, b: seq<Json>, valid: set<string>, m: Message)
    requires exists item | item in a :: ReasoningText(codec, item).Some?
    requires forall item | item in a :: ItemToolCall(EnvOf(codec, a + b, valid), item).None?
    requires m in CompileItems(codec, a + b, valid).messages && IsCallMessage(m)
    ensures m.HasReasoning()
  {
    hide Run, CompileItems, ReasoningText, ItemToolCall, ResolvedIds, IsCallMessage, PendingMessages;
    var env := EnvOf(codec, a + b, valid);
    var mid := Run(env, Start(a + b), a);
    RunNoCalls(env, Start(a + b), a);
    PendingNoCalls(mid.pending);
    assert multiset(Flushed(mid))[m] == 0;
    if !m.HasReasoning() {
      CompiledCallsReasoned(codec, a, b, valid, m);
    }
  }
}
