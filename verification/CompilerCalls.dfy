/** Exactly which call messages are compiled, told from the input alone. */
module CompilerCalls {
  import opened Wrappers
  import opened Json
  import opened Text
  import opened Seqs
  import opened Chat
  import opened ChatProtocol
  import opened ChatCalls
  import opened Compiler
  import opened CompilerSafety
  import opened CompilerConservation
  import opened CompilerConversation
  import opened CompilerReasoning

  // --------------------------------------------------------------- reference

  /** The run of calls open after `k` items, in order. */
  function RunCalls(env: Env, items: seq<Json>, k: nat): seq<ToolCall>
    requires k <= |items|
  {
    if k == 0 then []
    else
      match ReadAt(env, items, k - 1)
      case Call(call) => RunCalls(env, items, k - 1) + [call]
      case Reasoning(_) => RunCalls(env, items, k - 1)
      case _ => []
  }

  /** What the assistant said directly in front of the run. */
  function RunSaid(env: Env, items: seq<Json>, k: nat): string
    requires k <= |items|
  {
    if k == 0 then ""
    else
      match ReadAt(env, items, k - 1)
      case Call(_) => RunSaid(env, items, k - 1)
      case Reasoning(_) => RunSaid(env, items, k - 1)
      case Said(m) => if m.role == Assistant then m.content else ""
      case _ => ""
  }

  /** The reasoning that no message has taken up yet.  Results leave it in place. */
  function FreeReasoning(env: Env, items: seq<Json>, k: nat): string
    requires k <= |items|
  {
    if k == 0 then ""
    else
      match ReadAt(env, items, k - 1)
      case Reasoning(text) => JoinNonempty(FreeReasoning(env, items, k - 1), text)
      case ResultOf(_) => FreeReasoning(env, items, k - 1)
      case _ => ""
  }

  /** The reasoning known after the latest reasoning item. */
  function LatestReasoning(env: Env, items: seq<Json>, k: nat): string
    requires k <= |items|
  {
    if k == 0 then ""
    else if ReadAt(env, items, k - 1).Reasoning? then FreeReasoning(env, items, k)
    else LatestReasoning(env, items, k - 1)
  }

  /** The reasoning taken up by the run: a call takes up what is free, and a run that has none by then
      repeats the latest. */
  function RunReasoning(env: Env, items: seq<Json>, k: nat): string
    requires k <= |items|
  {
    if k == 0 then ""
    else
      match ReadAt(env, items, k - 1)
      case Call(_) =>
        var taken := JoinNonempty(RunReasoning(env, items, k - 1), FreeReasoning(env, items, k - 1));
        if Blank(taken) then LatestReasoning(env, items, k - 1) else taken
      case Reasoning(_) => RunReasoning(env, items, k - 1)
      case Said(m) => if m.role == Assistant then FreeReasoning(env, items, k - 1) else ""
      case _ => ""
  }

  function RunIds(env: Env, items: seq<Json>, k: nat): seq<string>
    requires k <= |items|
  {
    CallIds(RunCalls(env, items, k))
  }

  /** The call message of the run. */
  function RunMessage(env: Env, items: seq<Json>, k: nat): Message
    requires k <= |items|
  {
    Message(Assistant, RunSaid(env, items, k), Some(RunCalls(env, items, k)), None,
            Some(RunReasoning(env, items, k)))
  }

  /** A result that is followed by a fact about it ends the results that count. */
  predicate EndsResults(env: Env, items: seq<Json>, k: nat, result: Message)
    requires k < |items|
  {
    ResultFact(env, CalledNames(env, items, k), items[k], result).Some?
  }

  /** Which of the ids are answered from item `k` on.  Reasoning, facts and unsupported items do not
      interrupt the answers; a call, a message, a compaction or another result does. */
  function AnsweredFrom(env: Env, items: seq<Json>, k: nat, ids: seq<string>): set<string>
    requires k <= |items|
    decreases |items| - k
  {
    if k == |items| then {}
    else
      match ReadAt(env, items, k)
      case ResultOf(result) =>
        if result.CallId() !in ids then {}
        else if EndsResults(env, items, k, result) then {result.CallId()}
        else {result.CallId()} + AnsweredFrom(env, items, k + 1, ids)
      case Reasoning(_) => AnsweredFrom(env, items, k + 1, ids)
      case Fact(_) => AnsweredFrom(env, items, k + 1, ids)
      case Unsupported => AnsweredFrom(env, items, k + 1, ids)
      case _ => {}
  }

  /** The run of calls open after `k` items has distinct ids, and each is answered from there on. */
  predicate AnsweredRun(env: Env, items: seq<Json>, k: nat)
    requires k <= |items|
  {
    var ids := RunIds(env, items, k);
    OpenAt(env, items, k) && Distinct(ids) && Elements(ids) <= AnsweredFrom(env, items, k, ids)
  }

  /** A run of calls ends at `k`. */
  predicate EndsAt(env: Env, items: seq<Json>, k: nat)
    requires k <= |items|
  {
    k < |items| ==> !Extends(ReadAt(env, items, k))
  }

  /** One call message per answered run of calls that ends at item `k` or later, in order. */
  function RunMessages(env: Env, items: seq<Json>, k: nat): seq<Message>
    requires k <= |items|
    decreases |items| - k
  {
    var later := if k == |items| then [] else RunMessages(env, items, k + 1);
    if EndsAt(env, items, k) && AnsweredRun(env, items, k) then [RunMessage(env, items, k)] + later else later
  }

  // ------------------------------------------------------------ what a step adds

  predicate Knows(env: Env, items: seq<Json>, k: nat, st: State)
    requires k <= |items|
  {
    st.seenIds == CalledIds(env, items, k) && st.seenNames == CalledNames(env, items, k)
  }

  lemma StepKnows(env: Env, items: seq<Json>, k: nat, st: State)
    requires k < |items| && Knows(env, items, k, st)
    ensures Knows(env, items, k + 1, Step(env, st, items[k]))
  {
    hide Read, CalledIds, Flushed, ResultFact, JoinNonempty, Blank, UserMessage, AfterFlush;
    CalledMore(env, items, k);
    ReadCallId(env, st.seenIds, items[k]);
  }

  /** The messages an item pushes after the flush. */
  function Pushed(env: Env, names: map<string, string>, item: Json, reading: Reading): seq<Message> {
    match reading
    case ResultOf(m) =>
      (match ResultFact(env, names, item, m)
       case Some(fact) => [m, UserMessage(fact)]
       case None => [m])
    case Compaction(m) => [m]
    case Said(m) => if m.role == Assistant then [] else [m]
    case _ => []
  }

  lemma StepPushes(env: Env, st: State, item: Json)
    ensures var reading, next := Read(env, st.seenIds, item), Step(env, st, item);
            if Extends(reading) then next.messages == st.messages
            else next.messages == Flushed(st) + Pushed(env, st.seenNames, item, reading)
  {
    hide Read, Flushed, ResultFact, JoinNonempty, Blank, UserMessage, AfterFlush;
  }

  lemma PushedPlain(env: Env, st: State, item: Json)
    ensures var pushed := Pushed(env, st.seenNames, item, Read(env, st.seenIds, item));
            forall i | 0 <= i < |pushed| :: ExpectedIds(pushed[i]) == []
  {
    hide Read, ResultFact, UserMessage, WellFormed, ExpectedIds;
    ReadWellFormed(env, st.seenIds, item);
    UserPlain();
    var pushed := Pushed(env, st.seenNames, item, Read(env, st.seenIds, item));
    forall i | 0 <= i < |pushed|
      ensures ExpectedIds(pushed[i]) == []
    {
      NoCallsExpectNothing(pushed[i]);
    }
  }

  /** What the items from `k` on add to the messages, the pending one included. */
  function Emitted(env: Env, st: State, items: seq<Json>, k: nat): seq<Message>
    requires k <= |items|
  {
    var all := Flushed(Run(env, st, items[k..]));
    if |st.messages| <= |all| then all[|st.messages|..] else []
  }

  lemma {:induction false} Grows(env: Env, st: State, items: seq<Json>, k: nat)
    requires k <= |items|
    ensures st.messages <= Flushed(Run(env, st, items[k..]))
    decreases |items| - k
  {
    hide Step, Run, PendingMessages, Read, Pushed;
    if k == |items| {
      RunNone(env, st, items);
    } else {
      RunStep(env, st, items, k);
      StepPushes(env, st, items[k]);
      Grows(env, Step(env, st, items[k]), items, k + 1);
    }
  }

  lemma EmittedEnd(env: Env, st: State, items: seq<Json>)
    ensures Emitted(env, st, items, |items|) == PendingMessages(st.pending)
  {
    hide Run, PendingMessages;
    RunNone(env, st, items);
  }

  lemma EmittedStep(env: Env, st: State, items: seq<Json>, k: nat)
    requires k < |items|
    ensures var reading, next := Read(env, st.seenIds, items[k]), Step(env, st, items[k]);
            Emitted(env, st, items, k)
            == if Extends(reading) then Emitted(env, next, items, k + 1)
               else PendingMessages(st.pending)
                    + (Pushed(env, st.seenNames, items[k], reading) + Emitted(env, next, items, k + 1))
  {
    hide Step, Run, PendingMessages, Read, Pushed;
    var next := Step(env, st, items[k]);
    RunStep(env, st, items, k);
    StepPushes(env, st, items[k]);
    Grows(env, next, items, k + 1);
    Grows(env, st, items, k);
  }

  // ---------------------------------------------------- the results that follow

  lemma PendingIsAssistant(p: Pending)
    ensures forall m | m in PendingMessages(p) :: !IsTool(m)
  {
  }

  lemma SaidSpeaks(env: Env, seenIds: set<string>, item: Json)
    ensures Read(env, seenIds, item).Said? ==> !Blank(Read(env, seenIds, item).message.content)
  {
    hide ReasoningText, ItemToolCall, ItemResult, CompactionMessage, VerifiedFact, FieldText, Blank;
  }

  /** A pending message stays in front of everything the later items add. */
  lemma {:induction false} PendingComesFirst(env: Env, st: State, items: seq<Json>, k: nat)
    requires k <= |items| && PendingMessages(st.pending) != []
    ensures Emitted(env, st, items, k) != [] && !IsTool(Emitted(env, st, items, k)[0])
    decreases |items| - k
  {
    hide Run, Read, Pushed, Emitted, JoinNonempty, Blank, Flushed, ResultFact, UserMessage;
    PendingIsAssistant(st.pending);
    if k == |items| {
      EmittedEnd(env, st, items);
    } else {
      EmittedStep(env, st, items, k);
      if Extends(Read(env, st.seenIds, items[k])) {
        PendingComesFirst(env, Step(env, st, items[k]), items, k + 1);
      } else {
        assert PendingMessages(st.pending)[0] in PendingMessages(st.pending);
      }
    }
  }

  lemma AnsweredNone(rest: seq<Message>, ids: seq<string>)
    requires rest == [] || !IsTool(rest[0]) || rest[0].CallId() !in ids
    ensures AnsweredIds(rest, ids) == {}
  {
    assert RunLength(rest, ids) == 0;
  }

  lemma AnsweredMore(m: Message, rest: seq<Message>, ids: seq<string>)
    requires Answers(m, ids)
    ensures AnsweredIds([m] + rest, ids) == {m.CallId()} + AnsweredIds(rest, ids)
  {
    hide Answers;
    var all, n := [m] + rest, RunLength(rest, ids);
    assert all[1..] == rest && RunLength(all, ids) == 1 + n;
    assert all[..1 + n] == [m] + rest[..n];
    IdsOneMore(m, rest[..n]);
  }

  lemma FlushedEmpty(p: Pending)
    ensures PendingMessages(AfterFlush(p)) == []
    ensures PendingMessages(p) == [] ==> AfterFlush(p) == p
  {
  }

  /** The pending message after an item that is read with nothing pending. */
  lemma PendingAfter(env: Env, st: State, item: Json)
    requires PendingMessages(st.pending) == []
    ensures var reading, next := Read(env, st.seenIds, item), Step(env, st, item);
            if reading.Call? || (reading.Said? && reading.message.role == Assistant)
            then PendingMessages(next.pending) != []
            else next.pending == st.pending
  {
    hide Read, Flushed, ResultFact, JoinNonempty, UserMessage, Blank;
    SaidSpeaks(env, st.seenIds, item);
  }

  /** With nothing pending, the results that directly follow answer what the items from there on
      answer. */
  lemma {:induction false} AnswersFollow(env: Env, st: State, items: seq<Json>, k: nat, ids: seq<string>)
    requires k <= |items| && Knows(env, items, k, st) && PendingMessages(st.pending) == []
    ensures AnsweredIds(Emitted(env, st, items, k), ids) == AnsweredFrom(env, items, k, ids)
    decreases |items| - k
  {
    hide Run, Read, Emitted, Step, PendingMessages, CalledIds, CalledNames, ResultFact, UserMessage, AnsweredIds,
      WellFormed;
    if k == |items| {
      EmittedEnd(env, st, items);
      AnsweredNone([], ids);
    } else {
      var reading, next := ReadAt(env, items, k), Step(env, st, items[k]);
      var later := Emitted(env, next, items, k + 1);
      EmittedStep(env, st, items, k);
      StepKnows(env, items, k, st);
      PendingAfter(env, st, items[k]);
      ReadWellFormed(env, st.seenIds, items[k]);
      match reading {
        case ResultOf(result) =>
          ResultIsResult(env, st.seenIds, items[k]);
          AnswersFollow(env, next, items, k + 1, ids);
          ResultThen(env, items, k, st.seenNames, result, later, ids);
        case Reasoning(_) =>
          AnswersFollow(env, next, items, k + 1, ids);
        case Fact(_) =>
          AnswersFollow(env, next, items, k + 1, ids);
          assert [] + ([] + later) == later;
        case Unsupported =>
          AnswersFollow(env, next, items, k + 1, ids);
          assert [] + ([] + later) == later;
        case Call(_) =>
          PendingComesFirst(env, next, items, k + 1);
          AnsweredNone(later, ids);
        case Compaction(m) =>
          assert ([] + ([m] + later))[0] == m;
          AnsweredNone([] + ([m] + later), ids);
        case Said(m) =>
          if m.role == Assistant {
            PendingComesFirst(env, next, items, k + 1);
            assert [] + ([] + later) == later;
            AnsweredNone(later, ids);
          } else {
            assert ([] + ([m] + later))[0] == m;
            AnsweredNone([] + ([m] + later), ids);
          }
      }
    }
  }

  lemma ResultIsResult(env: Env, seenIds: set<string>, item: Json)
    ensures Read(env, seenIds, item).ResultOf? ==> Read(env, seenIds, item).message.IsResult()
  {
    hide ReasoningText, ItemToolCall, CompactionMessage, VerifiedFact, ItemMessage;
  }

  lemma ResultThen(env: Env, items: seq<Json>, k: nat, names: map<string, string>, result: Message,
                   later: seq<Message>, ids: seq<string>)
    requires k < |items| && names == CalledNames(env, items, k) && result.IsResult()
    ensures var pushed := Pushed(env, names, items[k], ResultOf(result));
            AnsweredIds([] + (pushed + later), ids)
            == if result.CallId() !in ids then {}
               else if EndsResults(env, items, k, result) then {result.CallId()}
               else {result.CallId()} + AnsweredIds(later, ids)
  {
    hide ResultFact, UserMessage, AnsweredIds, CalledNames;
    var fact := ResultFact(env, names, items[k], result);
    var rest := if fact.Some? then [UserMessage(fact.value)] + later else later;
    var pushed := Pushed(env, names, items[k], ResultOf(result));
    assert [] + (pushed + later) == [result] + rest;
    if result.CallId() !in ids {
      AnsweredNone([result] + rest, ids);
    } else {
      AnsweredMore(result, rest, ids);
      if fact.Some? {
        UserNotTool(fact.value);
        AnsweredNone(rest, ids);
      }
    }
  }

  // ------------------------------------------------------------ the main result

  /** The state with the pending message flushed. */
  function FlushedState(st: State): State {
    st.(messages := Flushed(st), pending := AfterFlush(st.pending))
  }

  lemma FlushedStep(env: Env, st: State, item: Json)
    requires !Extends(Read(env, st.seenIds, item))
    ensures Step(env, FlushedState(st), item) == Step(env, st, item)
  {
    hide Read, StepToolResult, StepPush, StepFact, StepAssistant, StepUnsupported, FlushedState;
    assert FlushedState(st).seenIds == st.seenIds by {
      FlushedSeen(st);
    }
    match Read(env, st.seenIds, item) {
      case ResultOf(message) => FlushedResult(env, st, item, message);
      case Compaction(message) => FlushedPush(st, message);
      case Fact(fact) => FlushedFact(st, fact);
      case Said(message) =>
        FlushedPush(st, message);
        FlushedAssistant(st, message.content);
      case _ => FlushedUnsupported(st);
    }
  }

  lemma FlushedSeen(st: State)
    ensures FlushedState(st).seenIds == st.seenIds
  {
  }

  lemma FlushedResult(env: Env, st: State, item: Json, message: Message)
    ensures StepToolResult(env, FlushedState(st), item, message) == StepToolResult(env, st, item, message)
  {
    hide Flushed, AfterFlush, ResultFact, UserMessage, Contains;
    FlushedTwice(st);
  }

  lemma FlushedPush(st: State, message: Message)
    ensures StepPush(FlushedState(st), message) == StepPush(st, message)
  {
    hide Flushed, AfterFlush;
    FlushedTwice(st);
  }

  lemma FlushedFact(st: State, fact: string)
    ensures StepFact(FlushedState(st), fact) == StepFact(st, fact)
  {
    hide Flushed, AfterFlush;
    FlushedTwice(st);
  }

  lemma FlushedAssistant(st: State, content: string)
    ensures StepAssistant(FlushedState(st), content) == StepAssistant(st, content)
  {
    hide Flushed, AfterFlush, JoinNonempty;
    FlushedTwice(st);
  }

  lemma FlushedUnsupported(st: State)
    ensures StepUnsupported(FlushedState(st)) == StepUnsupported(st)
  {
    hide Flushed, AfterFlush;
    FlushedTwice(st);
  }

  lemma FlushedTwice(st: State)
    ensures Flushed(FlushedState(st)) == Flushed(st) && AfterFlush(AfterFlush(st.pending)) == AfterFlush(st.pending)
  {
    hide PendingMessages, AfterFlush;
    FlushedEmpty(st.pending);
    FlushedEmpty(AfterFlush(st.pending));
  }

  /** Where a run of calls ends, its message comes out in front of the rest. */
  lemma EmittedFlush(env: Env, st: State, items: seq<Json>, k: nat)
    requires k <= |items| && (k < |items| ==> !Extends(Read(env, st.seenIds, items[k])))
    ensures Emitted(env, st, items, k) == PendingMessages(st.pending) + Emitted(env, FlushedState(st), items, k)
  {
    hide Run, Read, Pushed, Step, PendingMessages, AfterFlush, Emitted;
    var flushed := FlushedState(st);
    FlushedEmpty(st.pending);
    if k == |items| {
      EmittedEnd(env, st, items);
      EmittedEnd(env, flushed, items);
    } else {
      EmittedStep(env, st, items, k);
      EmittedStep(env, flushed, items, k);
      FlushedStep(env, st, items[k]);
      var rest := Emitted(env, flushed, items, k);
      assert rest == Pushed(env, st.seenNames, items[k], Read(env, st.seenIds, items[k]))
                     + Emitted(env, Step(env, st, items[k]), items, k + 1);
    }
  }

  /** What is pending after `k` items, told from the input. */
  predicate Holds(env: Env, items: seq<Json>, k: nat, st: State)
    requires k <= |items|
  {
    && st.pending == Pending(RunSaid(env, items, k), RunReasoning(env, items, k), RunCalls(env, items, k))
    && st.pendingReasoning == FreeReasoning(env, items, k)
    && st.lastReasoning == LatestReasoning(env, items, k)
  }

  predicate Collects(env: Env, items: seq<Json>, k: nat, st: State)
    requires k <= |items|
  {
    Knows(env, items, k, st) && Explained(env, items, k, st) && Holds(env, items, k, st)
  }

  lemma JoinTrimmed(left: string, right: string)
    ensures Trimmed(JoinNonempty(left, right))
    ensures Blank(JoinNonempty(left, right)) ==> JoinNonempty(left, right) == ""
    ensures Trimmed(right) ==> JoinNonempty("", right) == right
  {
    hide IsWhitespace, Trim;
    var l, r := Trim(left), Trim(right);
    TrimIsTrimmed(left);
    TrimIsTrimmed(right);
    TrimEmptyIffBlank(left);
    TrimEmptyIffBlank(right);
    JoinNonemptyBlank(left, right);
    TrimFixed("");
    if Trimmed(right) {
      TrimFixed(right);
    }
    if l != "" && r != "" {
      var all := l + "\n" + r;
      assert all[0] == l[0] && all[|all| - 1] == r[|r| - 1];
    }
  }

  /** The reasoning strings are trimmed, and so blank only when empty. */
  lemma {:induction false} ReasoningTrimmed(env: Env, items: seq<Json>, k: nat)
    requires k <= |items|
    ensures Trimmed(FreeReasoning(env, items, k)) && Trimmed(LatestReasoning(env, items, k))
            && Trimmed(RunReasoning(env, items, k))
  {
    hide ReadAt, JoinNonempty, IsWhitespace, Blank;
    if k > 0 {
      ReasoningTrimmed(env, items, k - 1);
      JoinTrimmed(RunReasoning(env, items, k - 1), FreeReasoning(env, items, k - 1));
      match ReadAt(env, items, k - 1) {
        case Reasoning(text) =>
          JoinTrimmed(FreeReasoning(env, items, k - 1), text);
        case _ =>
      }
    }
  }

  lemma TrimmedBlank(s: string)
    requires Trimmed(s) && Blank(s)
    ensures s == ""
  {
    hide IsWhitespace;
  }

  lemma {:induction false} SaidNonblank(env: Env, items: seq<Json>, k: nat)
    requires k <= |items|
    ensures Blank(RunSaid(env, items, k)) ==> RunSaid(env, items, k) == ""
  {
    hide Read, Blank;
    if k > 0 {
      SaidNonblank(env, items, k - 1);
      SaidSpeaks(env, CalledIds(env, items, k - 1), items[k - 1]);
    }
  }

  lemma FlushLeavesNothing(env: Env, items: seq<Json>, k: nat, st: State)
    requires k <= |items| && Holds(env, items, k, st)
    ensures AfterFlush(st.pending) == Pending("", "", [])
  {
    hide Blank, Trim, IsWhitespace;
    ReasoningTrimmed(env, items, k);
    SaidNonblank(env, items, k);
    if Blank(st.pending.reasoning) {
      TrimmedBlank(st.pending.reasoning);
    }
  }

  lemma StepHolds(env: Env, items: seq<Json>, k: nat, st: State)
    requires k < |items| && Knows(env, items, k, st) && Holds(env, items, k, st)
    ensures Holds(env, items, k + 1, Step(env, st, items[k]))
  {
    hide Knows, Read, CalledIds, AfterFlush, Flushed, ResultFact, UserMessage, JoinNonempty, Blank, Trimmed;
    KnowsReading(env, items, k, st);
    FlushLeavesNothing(env, items, k, st);
    ReasoningTrimmed(env, items, k);
    JoinTrimmed("", FreeReasoning(env, items, k));
  }

  lemma StepCollects(env: Env, items: seq<Json>, k: nat, st: State)
    requires k < |items| && Collects(env, items, k, st)
    ensures Collects(env, items, k + 1, Step(env, st, items[k]))
  {
    hide Knows, Explained, Holds, Step, CalledIds;
    StepKnows(env, items, k, st);
    KnowsReading(env, items, k, st);
    StepExplained(env, items, k, st);
    StepHolds(env, items, k, st);
  }

  lemma KnowsReading(env: Env, items: seq<Json>, k: nat, st: State)
    requires k < |items| && Knows(env, items, k, st)
    ensures st.seenIds == CalledIds(env, items, k) && st.seenNames == CalledNames(env, items, k)
    ensures Read(env, st.seenIds, items[k]) == ReadAt(env, items, k)
  {
    hide Read, CalledIds;
  }

  lemma ExplainedPending(env: Env, items: seq<Json>, k: nat, st: State)
    requires k <= |items| && Explained(env, items, k, st)
    ensures PendingExplained(env, items, k, st.pending)
  {
    hide PendingExplained;
  }

  /** The pending message is the call message of the run, or makes no calls. */
  lemma PendingIs(env: Env, items: seq<Json>, k: nat, p: Pending)
    requires k <= |items| && NamedCalls(p.toolCalls)
    requires p == Pending(RunSaid(env, items, k), RunReasoning(env, items, k), RunCalls(env, items, k))
    ensures p.toolCalls == [] ==> forall i | 0 <= i < |PendingMessages(p)| :: ExpectedIds(PendingMessages(p)[i]) == []
    ensures p.toolCalls != [] ==>
              && PendingMessages(p) == [RunMessage(env, items, k)]
              && ExpectedIds(RunMessage(env, items, k)) == RunIds(env, items, k) != []
  {
    hide Blank, RunSaid, RunReasoning, RunCalls, IsWhitespace;
    NamedCallIds(p.toolCalls);
    ReasoningTrimmed(env, items, k);
    if Blank(p.reasoning) {
      TrimmedBlank(p.reasoning);
    }
  }

  lemma CollectsPending(env: Env, items: seq<Json>, k: nat, st: State)
    requires k <= |items| && Collects(env, items, k, st)
    ensures Knows(env, items, k, st) && PendingExplained(env, items, k, st.pending)
    ensures st.pending == Pending(RunSaid(env, items, k), RunReasoning(env, items, k), RunCalls(env, items, k))
  {
    hide Knows, Explained;
    ExplainedPending(env, items, k, st);
  }

  /** The complete call messages, when a run of calls ends here. */
  lemma EndedCalls(env: Env, items: seq<Json>, k: nat, st: State)
    requires k <= |items| && EndsAt(env, items, k) && Collects(env, items, k, st)
    ensures var later := CompleteCalls(Emitted(env, FlushedState(st), items, k));
            CompleteCalls(Emitted(env, st, items, k))
            == if AnsweredRun(env, items, k) then [RunMessage(env, items, k)] + later else later
  {
    hide Read, Emitted, PendingMessages, AfterFlush, CalledIds, CalledNames, CompleteCalls, ExpectedIds, Collects,
      CallIds, AnsweredIds, AnsweredFrom, ReasonedBefore, Blank, Flushed, RunSaid, RunReasoning, RunCalls, RunMessage,
      RunIds;
    var rest, p := Emitted(env, FlushedState(st), items, k), st.pending;
    CollectsReading(env, items, k, st);
    EmittedFlush(env, st, items, k);
    CollectsPending(env, items, k, st);
    PendingIs(env, items, k, p);
    FlushedEmpty(p);
    AnswersFollow(env, FlushedState(st), items, k, RunIds(env, items, k));
    if p.toolCalls == [] {
      SkipAll(PendingMessages(p), rest);
    } else {
      CompleteOne(RunMessage(env, items, k), rest);
    }
  }

  lemma {:induction false} EmittedCalls(env: Env, items: seq<Json>, k: nat, st: State)
    requires k <= |items| && Collects(env, items, k, st)
    ensures CompleteCalls(Emitted(env, st, items, k)) == RunMessages(env, items, k)
    decreases |items| - k
  {
    hide Read, Emitted, Step, PendingMessages, AfterFlush, CompleteCalls, Collects, AnsweredRun, RunMessage, Pushed;
    CollectsReading(env, items, k, st);
    if k == |items| {
      EndedCalls(env, items, k, st);
      EmittedEnd(env, FlushedState(st), items);
      FlushedEmpty(st.pending);
      NothingComplete();
    } else {
      var next := Step(env, st, items[k]);
      StepCollects(env, items, k, st);
      EmittedCalls(env, items, k + 1, next);
      EmittedStep(env, st, items, k);
      if EndsAt(env, items, k) {
        EndedCalls(env, items, k, st);
        EndedRest(env, items, k, st);
      }
    }
  }

  lemma CollectsReading(env: Env, items: seq<Json>, k: nat, st: State)
    requires k <= |items| && Collects(env, items, k, st)
    ensures k < |items| ==> Read(env, st.seenIds, items[k]) == ReadAt(env, items, k)
  {
    hide Read, Explained, Knows, Holds, CalledIds;
    if k < |items| {
      KnowsReading(env, items, k, st);
    }
  }

  /** After the flush an item adds no call message of its own. */
  lemma EndedRest(env: Env, items: seq<Json>, k: nat, st: State)
    requires k < |items| && !Extends(Read(env, st.seenIds, items[k]))
    ensures CompleteCalls(Emitted(env, FlushedState(st), items, k))
            == CompleteCalls(Emitted(env, Step(env, st, items[k]), items, k + 1))
  {
    hide Read, Emitted, Step, PendingMessages, AfterFlush, CompleteCalls, Pushed, ExpectedIds;
    var flushed, later := FlushedState(st), Emitted(env, Step(env, st, items[k]), items, k + 1);
    FlushedEmpty(st.pending);
    FlushedStep(env, st, items[k]);
    EmittedStep(env, flushed, items, k);
    PushedPlain(env, flushed, items[k]);
    var pushed := Pushed(env, st.seenNames, items[k], Read(env, st.seenIds, items[k]));
    SkipAll(pushed, later);
    assert [] + (pushed + later) == pushed + later;
  }

  lemma StartCollects(env: Env, items: seq<Json>)
    ensures Collects(env, items, 0, Start(items))
  {
    hide Read, Explained;
    StartExplained(env, items);
    StartTracks(env, items);
  }

  /** The call messages of the messages handed to the sanitiser that are complete there. */
  lemma AssembledCalls(codec: Codec, items: seq<Json>, valid: set<string>)
    ensures CompleteCalls(AssembledFor(codec, items, valid)) == RunMessages(EnvOf(codec, items, valid), items, 0)
  {
    hide Run, ResolvedIds, FactsMessage, CompleteCalls, ExpectedIds, RunMessages, PendingMessages, Collects;
    var env := EnvOf(codec, items, valid);
    var st := Run(env, Start(items), items);
    StartCollects(env, items);
    EmittedCalls(env, items, 0, Start(items));
    assert items[0..] == items;
    assert Emitted(env, Start(items), items, 0) == Flushed(st);
    if st.facts != [] {
      var facts := FactsMessage(st.facts, st.diagnostic.truncatedItems);
      FactsWellFormed(st.facts, st.diagnostic.truncatedItems);
      SkipPlain(facts, Flushed(st));
    } else {
      assert [] + Flushed(st) == Flushed(st);
    }
  }

  /** The compiled call messages are, in order, one for every run of calls in the input whose ids are
      distinct and all answered where the run ends; each makes the calls of its run, says what the
      assistant said directly in front of it and carries the reasoning the run has taken up. */
  lemma CompiledCallsExactly(codec: Codec, items: seq<Json>, valid: set<string>)
    ensures Filter(IsCallMessage, CompileItems(codec, items, valid).messages)
            == RunMessages(EnvOf(codec, items, valid), items, 0)
  {
    hide Run, ResolvedIds, Assembled, CompleteCalls, Sanitize, Filter, IsCallMessage, RunMessages, UserMessage;
    var ms := AssembledFor(codec, items, valid);
    AssembledCalls(codec, items, valid);
    CallMessagesExactly(ms, valid);
    UserNoCalls();
    var out := CompileItems(codec, items, valid).messages;
    if Sanitize(ms, valid) == [] {
      NoCallMessages(out);
      NoCallMessages([]);
    }
  }

  lemma {:induction false} RunMessagesAt(env: Env, items: seq<Json>, k: nat, j: nat)
    requires k <= j <= |items| && EndsAt(env, items, j) && AnsweredRun(env, items, j)
    ensures RunMessage(env, items, j) in RunMessages(env, items, k)
    decreases |items| - k
  {
    hide EndsAt, AnsweredRun, RunMessage;
    if k < j {
      RunMessagesAt(env, items, k + 1, j);
    }
  }

  // ------------------------------------------------------- reasoning that arrives

  predicate CallSince(env: Env, items: seq<Json>, i: nat, k: nat)
    requires k <= |items|
  {
    exists c | i < c < k :: ReadAt(env, items, c).Call?
  }

  lemma JoinKeeps(left: string, right: string, word: string)
    requires word != [] && Trimmed(word)
    ensures Contains(left, word) || Contains(right, word) ==> Contains(JoinNonempty(left, right), word)
    ensures Contains(left, word) || Contains(right, word) ==> !Blank(JoinNonempty(left, right))
  {
    hide Trim, Contains, IsWhitespace, Blank;
    var l, r := Trim(left), Trim(right);
    if Contains(left, word) {
      TrimKeeps(left, word);
      ContainsMore("", l, "\n" + r, word);
      NotEmptyWith(l, word);
      assert "" + l + ("\n" + r) == l + "\n" + r;
    }
    if Contains(right, word) {
      TrimKeeps(right, word);
      ContainsMore(l + "\n", r, "", word);
      NotEmptyWith(r, word);
      assert (l + "\n") + r + "" == l + "\n" + r;
    }
    if Contains(left, word) || Contains(right, word) {
      NotBlankWith(JoinNonempty(left, right), word);
    }
  }

  lemma NotEmptyWith(text: string, word: string)
    requires Contains(text, word) && word != []
    ensures text != []
  {
  }

  lemma NotBlankWith(text: string, word: string)
    requires Contains(text, word) && word != [] && Trimmed(word)
    ensures !Blank(text)
  {
    hide IsWhitespace;
    var i: nat :| i <= |text| && OccursAt(text, word, i);
    assert text[i] == word[0];
  }

  /** A reasoning item inside or in front of a run of calls is part of the reasoning of that run once
      a call has followed it. */
  lemma {:induction false} ReasoningTakenUp(env: Env, items: seq<Json>, i: nat, k: nat)
    requires i < k <= |items| && ReadAt(env, items, i).Reasoning? && !Blank(ReadAt(env, items, i).text)
    requires forall j | i < j < k :: Extends(ReadAt(env, items, j))
    ensures var text := Trim(ReadAt(env, items, i).text);
            if CallSince(env, items, i, k) then Contains(RunReasoning(env, items, k), text)
            else Contains(FreeReasoning(env, items, k), text)
    decreases k
  {
    hide ReadAt, JoinNonempty, Contains, Trim, Blank, IsWhitespace;
    var text := Trim(ReadAt(env, items, i).text);
    TrimIsTrimmed(ReadAt(env, items, i).text);
    TrimEmptyIffBlank(ReadAt(env, items, i).text);
    if k - 1 == i {
      ContainsSelf(text);
      TrimmedPart(ReadAt(env, items, i).text);
      JoinKeeps(FreeReasoning(env, items, i), ReadAt(env, items, i).text, text);
    } else {
      ReasoningTakenUp(env, items, i, k - 1);
      var last := ReadAt(env, items, k - 1);
      assert CallSince(env, items, i, k) <==> CallSince(env, items, i, k - 1) || last.Call?;
      JoinKeeps(RunReasoning(env, items, k - 1), FreeReasoning(env, items, k - 1), text);
      if last.Reasoning? {
        JoinKeeps(FreeReasoning(env, items, k - 1), last.text, text);
      }
    }
  }

  lemma TrimmedPart(text: string)
    ensures Contains(text, Trim(text))
  {
    var start := TrimStart(text);
    var t := TrimEnd(start);
    assert OccursAt(text, t, |text| - |start|);
  }

  /** So it reaches the compiled message of the run. */
  lemma ReasoningReachesCall(codec: Codec, items: seq<Json>, valid: set<string>, i: nat, k: nat)
    requires var env := EnvOf(codec, items, valid);
             && i < k <= |items| && ReadAt(env, items, i).Reasoning? && !Blank(ReadAt(env, items, i).text)
             && (forall j | i < j < k :: Extends(ReadAt(env, items, j)))
             && CallSince(env, items, i, k) && EndsAt(env, items, k) && AnsweredRun(env, items, k)
    ensures var env := EnvOf(codec, items, valid);
            exists m | m in CompileItems(codec, items, valid).messages ::
              && m.toolCalls == Some(RunCalls(env, items, k)) && m.reasoning.Some?
              && Contains(m.reasoning.value, Trim(ReadAt(env, items, i).text))
  {
    hide ResolvedIds, CompileItems, ReadAt, AnsweredRun, CallSince, EndsAt, Contains, Trim, Blank, RunMessages, Filter,
      RunCalls, RunReasoning, RunSaid, IsCallMessage;
    var env := EnvOf(codec, items, valid);
    var out := CompileItems(codec, items, valid).messages;
    ReasoningTakenUp(env, items, i, k);
    CompiledCallsExactly(codec, items, valid);
    RunMessagesAt(env, items, 0, k);
    FilterMember(IsCallMessage, out, RunMessage(env, items, k));
  }

  // ----------------------------------------------------- call messages without reasoning

  lemma {:induction false} Reaches(env: Env, items: seq<Json>, k: nat) returns (st: State)
    requires k <= |items|
    ensures Collects(env, items, k, st)
  {
    hide Collects, Step;
    if k == 0 {
      st := Start(items);
      StartCollects(env, items);
    } else {
      st := Reaches(env, items, k - 1);
      StepCollects(env, items, k - 1, st);
      st := Step(env, st, items[k - 1]);
    }
  }

  /** The message of a run carries reasoning exactly when a reasoning item precedes its last call. */
  lemma RunReasonedExactly(env: Env, items: seq<Json>, k: nat)
    requires k <= |items| && OpenAt(env, items, k)
    ensures IsUnreasoned(RunMessage(env, items, k)) <==> !ReasonedBefore(env, items, LastCall(env, items, k))
  {
    hide Collects, ReadAt, ReasonedBefore, Blank, RunCalls, RunSaid, RunReasoning, RunIds, ExpectedIds;
    var st := Reaches(env, items, k);
    CollectsPending(env, items, k, st);
    PendingIs(env, items, k, st.pending);
  }

  /** A run of calls that is answered and has no reasoning before its last call. */
  predicate BareRun(env: Env, items: seq<Json>, j: nat) {
    UnreasonedRun(env, items, j) && AnsweredRun(env, items, j)
  }

  lemma SomeUnreasonedMore(m: Message, rest: seq<Message>)
    ensures SomeUnreasoned([m] + rest) <==> IsUnreasoned(m) || SomeUnreasoned(rest)
  {
    hide IsUnreasoned;
    var all := [m] + rest;
    assert forall x :: x in all <==> x == m || x in rest;
  }

  lemma {:induction false} BareRuns(env: Env, items: seq<Json>, k: nat)
    requires k <= |items|
    ensures SomeUnreasoned(RunMessages(env, items, k)) <==> exists j: nat | k <= j :: BareRun(env, items, j)
    decreases |items| - k
  {
    hide ReadAt, SomeUnreasoned, RunIds, RunMessage, AnsweredFrom, ReasonedBefore, IsUnreasoned;
    var later := if k == |items| then [] else RunMessages(env, items, k + 1);
    if k < |items| {
      BareRuns(env, items, k + 1);
    } else {
      NoneUnreasoned();
    }
    if EndsAt(env, items, k) && AnsweredRun(env, items, k) {
      RunReasonedExactly(env, items, k);
      SomeUnreasonedMore(RunMessage(env, items, k), later);
    }
    assert SomeUnreasoned(RunMessages(env, items, k)) <==> BareRun(env, items, k) || SomeUnreasoned(later);
  }

  lemma NoneUnreasoned()
    ensures !SomeUnreasoned([])
  {
  }

  lemma FilteredUnreasoned(ms: seq<Message>)
    ensures SomeUnreasoned(Filter(IsCallMessage, ms)) <==> SomeUnreasoned(ms)
  {
    hide Filter;
    forall m
      ensures m in Filter(IsCallMessage, ms) <==> m in ms && IsCallMessage(m)
    {
      FilterMember(IsCallMessage, ms, m);
    }
  }

  /** A compiled call message lacks reasoning exactly when some run of calls is answered where it ends
      and no reasoning item comes before its last call. */
  lemma CompiledUnreasonedExactly(codec: Codec, items: seq<Json>, valid: set<string>)
    ensures SomeUnreasoned(CompileItems(codec, items, valid).messages)
            <==> exists j: nat :: BareRun(EnvOf(codec, items, valid), items, j)
  {
    hide ResolvedIds, CompileItems, Filter, RunMessages, BareRun, SomeUnreasoned;
    CompiledCallsExactly(codec, items, valid);
    FilteredUnreasoned(CompileItems(codec, items, valid).messages);
    BareRuns(EnvOf(codec, items, valid), items, 0);
  }
}
