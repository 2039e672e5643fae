/** No tool output of the input is lost on the way to the compiled messages. */
module CompilerConservation {
  import opened Wrappers
  import opened Json
  import opened Text
  import opened Seqs
  import opened Chat
  import opened ChatProtocol
  import opened Compiler
  import opened CompilerSafety
  import opened CompilerReadings

  // ---------------------------------------------- routes, told from the input alone

  /** An earlier item is a replayable call with this id. */
  predicate CalledBefore(env: Env, items: seq<Json>, k: nat, id: string)
    requires k <= |items|
  {
    exists j | 0 <= j < k ::
      ReasoningText(env.codec, items[j]).None?
      && ItemToolCall(env, items[j]).Some? && ItemToolCall(env, items[j]).value.id == Some(id)
  }

  /** The ids of the replayable calls among the first `k` items. */
  function CalledIds(env: Env, items: seq<Json>, k: nat): set<string>
    requires k <= |items|
  {
    set id | id in env.resolved && CalledBefore(env, items, k, id)
  }

  /** How item `k` is read, given the items before it. */
  function ReadAt(env: Env, items: seq<Json>, k: nat): Reading
    requires k < |items|
  {
    Read(env, CalledIds(env, items, k), items[k])
  }

  /** The results among the first `k` items, in input order. */
  function Results(env: Env, items: seq<Json>, k: nat): seq<Message>
    requires k <= |items|
  {
    if k == 0 then []
    else
      match ReadAt(env, items, k - 1)
      case ResultOf(message) => Results(env, items, k - 1) + [message]
      case _ => Results(env, items, k - 1)
  }

  /** The fact texts among the first `k` items, in input order. */
  function Facts(env: Env, items: seq<Json>, k: nat): seq<string>
    requires k <= |items|
  {
    if k == 0 then []
    else
      match ReadAt(env, items, k - 1)
      case Fact(fact) => Facts(env, items, k - 1) + [fact]
      case _ => Facts(env, items, k - 1)
  }

  // ------------------------------------------- the loop state matches the routes

  /** The state after `k` items: tool messages, facts and the overflow count. */
  predicate Tracks(env: Env, items: seq<Json>, k: nat, st: State)
    requires k <= |items|
  {
    && st.seenIds == CalledIds(env, items, k)
    && Filter(IsTool, st.messages) == Results(env, items, k)
    && st.facts <= Facts(env, items, k)
    && |st.facts| <= MAX_FACTS
    && |Facts(env, items, k)| == |st.facts| + st.diagnostic.truncatedItems
    && (st.diagnostic.truncatedItems > 0 ==> |st.facts| == MAX_FACTS)
  }

  lemma FlushedTools(st: State, extra: seq<Message>)
    ensures Filter(IsTool, Flushed(st) + extra) == Filter(IsTool, st.messages) + Filter(IsTool, extra)
    ensures Filter(IsTool, Flushed(st)) == Filter(IsTool, st.messages)
  {
    hide Filter;
    FilterDropsAll(IsTool, PendingMessages(st.pending));
    FilterConcat(IsTool, st.messages, PendingMessages(st.pending));
    FilterConcat(IsTool, Flushed(st), extra);
  }

  lemma CalledMore(env: Env, items: seq<Json>, k: nat)
    requires k < |items|
    ensures CalledIds(env, items, k + 1)
            == CalledIds(env, items, k)
               + (match ReadAt(env, items, k) case Call(call) => {call.id.value} case _ => {})
  {
    hide ReasoningText, ItemToolCall, ItemResult, CompactionMessage, VerifiedFact, ItemMessage;
    var call := ItemToolCall(env, items[k]);
    var isCall := ReasoningText(env.codec, items[k]).None? && call.Some?;
    forall id
      ensures CalledBefore(env, items, k + 1, id)
              <==> CalledBefore(env, items, k, id) || (isCall && call.value.id == Some(id))
    {
      if isCall && call.value.id == Some(id) {
        assert 0 <= k < k + 1;
      }
    }
  }

  lemma StepTracks(env: Env, items: seq<Json>, k: nat, st: State)
    requires k < |items| && Tracks(env, items, k, st)
    ensures Tracks(env, items, k + 1, Step(env, st, items[k]))
  {
    hide CalledIds, Read, Filter, Flushed, ResultFact, JoinNonempty, Blank, WellFormed, UserMessage, AfterFlush,
      Contains;
    CalledMore(env, items, k);
    ReadWellFormed(env, st.seenIds, items[k]);
    ReadCallId(env, st.seenIds, items[k]);
    var reading := Read(env, st.seenIds, items[k]);
    assert reading == ReadAt(env, items, k);
    FlushedTools(st, []);
    match reading {
      case ResultOf(message) =>
        FlushedTools(st, [message]);
        FilterKeepsAll(IsTool, [message]);
        var fact := ResultFact(env, st.seenNames, items[k], message);
        if fact.Some? {
          var user := UserMessage(fact.value);
          UserNotTool(fact.value);
          FilterDropsAll(IsTool, [user]);
          FilterConcat(IsTool, Flushed(st) + [message], [user]);
          assert Results(env, items, k + 1) + [] == Results(env, items, k + 1);
        }
      case Compaction(message) =>
        PushTracks(st, message);
      case Said(message) =>
        PushTracks(st, message);
      case Fact(fact) =>
        FactTracks(Facts(env, items, k), st.facts, fact);
      case _ =>
    }
  }

  lemma FactTracks(all: seq<string>, facts: seq<string>, fact: string)
    requires facts <= all
    ensures facts <= all + [fact]
    ensures |facts| == |all| ==> facts + [fact] <= all + [fact]
  {
  }

  lemma PushTracks(st: State, message: Message)
    requires !IsTool(message)
    ensures Filter(IsTool, Flushed(st) + [message]) == Filter(IsTool, st.messages)
  {
    hide Filter;
    FlushedTools(st, [message]);
    FilterDropsAll(IsTool, [message]);
  }

  lemma UserNotTool(text: string)
    ensures !IsTool(UserMessage(text))
  {
  }

  lemma ReadCallId(env: Env, seenIds: set<string>, item: Json)
    ensures Read(env, seenIds, item).Call? ==> Read(env, seenIds, item).call.id.Some?
  {
    hide ReasoningText, ItemResult, CompactionMessage, VerifiedFact, ItemMessage;
  }

  lemma TracksSeen(env: Env, items: seq<Json>, k: nat, st: State)
    requires k <= |items| && Tracks(env, items, k, st)
    ensures st.seenIds == CalledIds(env, items, k)
  {
  }

  lemma {:induction false} RunTracks(env: Env, items: seq<Json>, k: nat, st: State)
    requires k <= |items| && Tracks(env, items, k, st)
    ensures Tracks(env, items, |items|, Run(env, st, items[k..]))
    decreases |items| - k
  {
    hide Tracks, Step;
    if k < |items| {
      StepTracks(env, items, k, st);
      RunStep(env, st, items, k);
      RunTracks(env, items, k + 1, Step(env, st, items[k]));
    } else {
      RunNone(env, st, items);
    }
  }

  lemma CompiledTracks(env: Env, items: seq<Json>)
    ensures Tracks(env, items, |items|, Run(env, Start(items), items))
  {
    hide Run, Tracks;
    assert items[0..] == items;
    StartTracks(env, items);
    RunTracks(env, items, 0, Start(items));
  }

  lemma StartTracks(env: Env, items: seq<Json>)
    ensures Tracks(env, items, 0, Start(items))
  {
    hide ItemToolCall;
    assert CalledIds(env, items, 0) == {};
  }

  // --------------------------------------------------------- each item's fate

  lemma ToolOutputIsFactLike(item: Json)
    requires IsToolOutput(item)
    ensures IsFactLike(item) && !IsToolCallItem(item) && Kind(item) != "reasoning" && Kind(item) != "compaction"
  {
    var kind := Kind(item);
    if kind == "function_call_output" {
      assert OccursAt(kind, "function_call", 0);
    } else if kind == "custom_tool_call_output" {
      assert OccursAt(kind, "tool", 7);
    } else if kind == "tool_search_output" {
      assert OccursAt(kind, "tool", 0);
    }
  }

  /** Every tool output is read as a result or as a fact. */
  lemma ToolOutputRead(env: Env, seenIds: set<string>, item: Json)
    requires IsToolOutput(item)
    ensures Read(env, seenIds, item).ResultOf? || Read(env, seenIds, item).Fact?
  {
    hide FactText, IsFactLike, IsToolOutput, IsToolCallItem, Kind;
    ToolOutputIsFactLike(item);
    CompactionShape(env.codec, item);
  }

  lemma {:induction false} FactLine(facts: seq<string>, n: nat) returns (before: string, after: string)
    requires n < |facts|
    ensures FactLines(facts) == before + ("- " + facts[n] + "\n") + after
  {
    if n == 0 {
      before, after := "", FactLines(facts[1..]);
    } else {
      before, after := FactLine(facts[1..], n - 1);
      before := "- " + facts[0] + "\n" + before;
    }
  }

  lemma FactsMessageHasLine(facts: seq<string>, truncated: nat, n: nat)
    requires n < |facts|
    ensures Contains(FactsMessage(facts, truncated).content, "- " + facts[n] + "\n")
  {
    hide HeadedLines, FactLines, OmittedLine;
    var before, after := FactLine(facts, n);
    var line := "- " + facts[n] + "\n";
    var content := FactsMessage(facts, truncated).content;
    var lines := FactLines(facts) + OmittedLine(truncated);
    var header := content[..|content| - |lines|];
    assert content == header + lines;
    assert content == (header + before) + line + (after + OmittedLine(truncated));
    ContainsMiddle(header + before, line, after + OmittedLine(truncated));
  }

  /** The facts message stays first. */
  lemma FactsComeFirst(facts: seq<string>, truncated: nat, rest: seq<Message>, valid: set<string>)
    ensures var fm := FactsMessage(facts, truncated);
            Sanitize([fm] + rest, valid) == [fm] + Sanitize(rest, valid)
  {
    hide FactsMessage, Regroup, ExpectedIds;
    var fm := FactsMessage(facts, truncated);
    FactsWellFormed(facts, truncated);
    RegroupOne(fm, rest, valid);
    FilterConcat(Useful, [fm], Regroup(rest, valid));
    FilterKeepsAll(Useful, [fm]);
  }

  /** Exactly the facts past the budget are left out, and the diagnostic says how many. */
  lemma OverflowIsCounted(codec: Codec, items: seq<Json>, valid: set<string>)
    ensures var all := Facts(EnvOf(codec, items, valid), items, |items|);
            CompileItems(codec, items, valid).diagnostic.truncatedItems
            == if |all| > MAX_FACTS then |all| - MAX_FACTS else 0
  {
    hide Run, Facts, Results, Filter, CalledIds, Sanitize, Assembled, ResolvedIds, UserMessage;
    CompiledTracks(EnvOf(codec, items, valid), items);
  }

  lemma {:induction false} FactAt(env: Env, items: seq<Json>, k: nat, n: nat)
    requires k < n <= |items| && ReadAt(env, items, k).Fact?
    ensures |Facts(env, items, k)| < |Facts(env, items, n)|
    ensures Facts(env, items, n)[|Facts(env, items, k)|] == ReadAt(env, items, k).fact
    decreases n
  {
    hide ReadAt;
    if k + 1 < n {
      FactAt(env, items, k, n - 1);
    }
  }

  lemma {:induction false} ResultAt(env: Env, items: seq<Json>, k: nat, n: nat)
    requires k < n <= |items| && ReadAt(env, items, k).ResultOf?
    ensures ReadAt(env, items, k).message in Results(env, items, n)
    decreases n
  {
    hide ReadAt;
    if k + 1 < n {
      ResultAt(env, items, k, n - 1);
    }
  }

  /** The tool messages handed to the sanitiser are the results of the input. */
  lemma AssembledTools(env: Env, items: seq<Json>)
    ensures Filter(IsTool, Assembled(Run(env, Start(items), items))) == Results(env, items, |items|)
  {
    hide Run, Filter, Results, Facts, CalledIds, Flushed, FactsMessage;
    var st := Run(env, Start(items), items);
    CompiledTracks(env, items);
    FlushedTools(st, []);
    var front := if st.facts == [] then [] else [FactsMessage(st.facts, st.diagnostic.truncatedItems)];
    FilterDropsAll(IsTool, front);
    FilterConcat(IsTool, front, Flushed(st));
    assert [] + Filter(IsTool, Flushed(st)) == Filter(IsTool, Flushed(st));
  }

  lemma {:induction false} FilterCount<T>(p: T -> bool, s: seq<T>, x: T)
    requires p(x)
    ensures multiset(Filter(p, s))[x] == multiset(s)[x]
  {
    if s != [] {
      FilterCount(p, s[1..], x);
      assert s == [s[0]] + s[1..];
    }
  }

  lemma CompiledOr(codec: Codec, items: seq<Json>, valid: set<string>)
    ensures var out := Sanitize(Assembled(Run(EnvOf(codec, items, valid), Start(items), items)), valid);
            var c := CompileItems(codec, items, valid).messages;
            if out != [] then c == out else |c| == 1 && !IsTool(c[0])
  {
    hide Run, Sanitize, Assembled;
  }

  /** Every result of the input, counted: kept as a tool message, told as an orphan fact that is
      in the compiled messages, or a repeat of an id its run had already answered. */
  lemma ResultsAccounted(codec: Codec, items: seq<Json>, valid: set<string>, t: Message)
    requires IsTool(t)
    ensures var env := EnvOf(codec, items, valid);
            var ms := Assembled(Run(env, Start(items), items));
            var out := CompileItems(codec, items, valid).messages;
            var ledger := LedgerOf(ms, valid);
            && multiset(Results(env, items, |items|))[t]
               == multiset(out)[t] + multiset(ledger.orphans)[t] + multiset(ledger.repeats)[t]
            && (t in ledger.orphans ==> exists fact | fact in out :: TellsResult(fact, t))
            && (t in ledger.repeats ==> exists i: nat, j: nat | i < j < |ms| :: ms[j] == t && RepeatsAt(ms, i, j))
  {
    hide Run, Sanitize, Assembled, Filter, LedgerOf, OrphanFact, TellsResult, Results, ResolvedIds, RepeatsAt,
      CompileItems;
    var env := EnvOf(codec, items, valid);
    var ms := Assembled(Run(env, Start(items), items));
    var ledger := LedgerOf(ms, valid);
    AssembledTools(env, items);
    FilterCount(IsTool, ms, t);
    ToolMessageFate(ms, valid, t);
    CompiledOr(codec, items, valid);
    var out := CompileItems(codec, items, valid).messages;
    assert Sanitize(ms, valid) == [] ==> multiset(out)[t] == 0 by {
      if Sanitize(ms, valid) == [] {
        assert out == [out[0]];
      }
    }
    if t in ledger.repeats {
      var i, j := RepeatHasFirst(ms, valid, t);
      assert i < j < |ms| && ms[j] == t && RepeatsAt(ms, i, j);
    }
  }

  /** The result is a compiled tool message, told as a compiled orphan fact, or repeats a result
      in the same run. */
  ghost predicate ResultSurvives(ms: seq<Message>, out: seq<Message>, t: Message) {
    t in out || (exists fact | fact in out :: TellsResult(fact, t))
    || (exists i: nat, j: nat | i < j < |ms| :: ms[j] == t && RepeatsAt(ms, i, j))
  }

  /** The fact is a line of the first compiled message. */
  predicate FactSurvives(out: seq<Message>, fact: string) {
    out != [] && Contains(out[0].content, "- " + fact + "\n")
  }

  /** The messages an input array hands to the sanitiser. */
  function AssembledFor(codec: Codec, items: seq<Json>, valid: set<string>): seq<Message> {
    Assembled(Run(EnvOf(codec, items, valid), Start(items), items))
  }

  lemma ResultItemSurvives(codec: Codec, items: seq<Json>, valid: set<string>, k: nat)
    requires k < |items| && ReadAt(EnvOf(codec, items, valid), items, k).ResultOf?
    ensures ResultSurvives(AssembledFor(codec, items, valid), CompileItems(codec, items, valid).messages,
                           ReadAt(EnvOf(codec, items, valid), items, k).message)
  {
    hide Run, Sanitize, Assembled, LedgerOf, TellsResult, Results, ResolvedIds, RepeatsAt, CompileItems, Read,
      CalledIds;
    var env := EnvOf(codec, items, valid);
    var t := ReadAt(env, items, k).message;
    ReadWellFormed(env, CalledIds(env, items, k), items[k]);
    ResultAt(env, items, k, |items|);
    ResultsAccounted(codec, items, valid, t);
    assert multiset(Results(env, items, |items|))[t] > 0;
  }

  lemma FactItemSurvives(codec: Codec, items: seq<Json>, valid: set<string>, k: nat)
    requires k < |items| && ReadAt(EnvOf(codec, items, valid), items, k).Fact?
    requires |Facts(EnvOf(codec, items, valid), items, k)| < MAX_FACTS
    ensures FactSurvives(CompileItems(codec, items, valid).messages, ReadAt(EnvOf(codec, items, valid), items, k).fact)
  {
    hide Run, Sanitize, Results, Facts, ResolvedIds, CompileItems, Contains, Read, FactsMessage, Filter, CalledIds,
      Flushed;
    var env := EnvOf(codec, items, valid);
    var st := Run(env, Start(items), items);
    CompiledTracks(env, items);
    FactAt(env, items, k, |items|);
    var n := |Facts(env, items, k)|;
    assert st.facts[n] == Facts(env, items, |items|)[n];
    FactsMessageHasLine(st.facts, st.diagnostic.truncatedItems, n);
    FactsComeFirst(st.facts, st.diagnostic.truncatedItems, Flushed(st), valid);
    CompiledOr(codec, items, valid);
  }

  /** The fact tells every telling field of the item, its call id and its output among them. */
  predicate TellsItem(codec: Codec, fact: string, item: Json) {
    forall key | item.Obj? && key in item.fields && IsFactKey(key) :: TellsField(codec, fact, key, item.fields[key])
  }

  /** No tool output is lost.  One read as a result carries the item's output under the item's call
      id, and is a tool message, told by a fact of its own, or a repeat; any other is told, with all
      its fields, by a line of the facts message, unless it is past the budget. */
  lemma NoToolOutputLost(codec: Codec, items: seq<Json>, valid: set<string>, k: nat)
    requires k < |items| && IsToolOutput(items[k])
    ensures var out := CompileItems(codec, items, valid).messages;
            var env := EnvOf(codec, items, valid);
            match ReadAt(env, items, k)
            case ResultOf(t) =>
              && t.toolCallId.Some? && HasCallId(items[k], t.toolCallId.value) && CarriesOutput(codec, items[k], t)
              && ResultSurvives(AssembledFor(codec, items, valid), out, t)
            case Fact(fact) =>
              && TellsItem(codec, fact, items[k])
              && (|Facts(env, items, k)| < MAX_FACTS ==> FactSurvives(out, fact))
            case _ => false
  {
    hide Facts, ResolvedIds, CompileItems, Read, CalledIds, IsToolOutput, ResultSurvives, FactSurvives, AssembledFor,
      TellsField, IsFactKey, HasCallId, CarriesOutput;
    var env := EnvOf(codec, items, valid);
    ToolOutputRead(env, CalledIds(env, items, k), items[k]);
    ResultExactly(env, CalledIds(env, items, k), items[k]);
    forall key | items[k].Obj? && key in items[k].fields && IsFactKey(key)
      ensures ReadAt(env, items, k).Fact? ==>
                TellsField(codec, ReadAt(env, items, k).fact, key, items[k].fields[key])
    {
      FactReads(env, CalledIds(env, items, k), items[k], key);
    }
    if ReadAt(env, items, k).ResultOf? {
      ResultItemSurvives(codec, items, valid, k);
    } else if |Facts(env, items, k)| < MAX_FACTS {
      FactItemSurvives(codec, items, valid, k);
    }
  }
}
