/**
 * Chat messages and the sanitiser that makes any message list obey the chat
 * tool protocol (crates/core/src/protocol.rs, crates/core/src/context.rs).
 */
module Chat {
  import opened Wrappers
  import opened Text
  import opened Redaction
  import opened Seqs

  const MAX_FACT_TEXT_CHARS: nat := 4096

  datatype Role = System | User | Assistant | Tool

  datatype ToolCall = ToolCall(id: Option<string>, name: string, arguments: string)

  datatype Message = Message(
    role: Role,
    content: string,
    toolCalls: Option<seq<ToolCall>>,
    toolCallId: Option<string>,
    reasoning: Option<string>)
  {
    predicate HasCalls() {
      toolCalls.Some? && toolCalls.value != []
    }

    predicate HasReasoning() {
      reasoning.Some? && !Blank(reasoning.value)
    }

    function CallId(): string {
      if toolCallId.Some? then toolCallId.value else ""
    }

    /** A tool message that names the call it answers. */
    predicate IsResult() {
      role == Tool && toolCallId.Some?
    }
  }

  function TextMessage(role: Role, content: string): Message {
    Message(role, content, None, None, None)
  }

  function ToolResult(callId: string, content: string): Message {
    Message(Tool, content, None, Some(callId), None)
  }

  predicate Useful(m: Message) {
    !Blank(m.content) || m.HasCalls()
    || if m.role == Assistant then m.HasReasoning() else m.toolCallId.Some?
  }

  predicate IsTool(m: Message) {
    m.role == Tool
  }

  /** The ids a result can answer to: blank and missing ids are passed over. */
  function CallIds(calls: seq<ToolCall>): seq<string> {
    if calls == [] then []
    else
      var id := calls[0].id;
      if id.Some? && !Blank(id.value) then [id.value] + CallIds(calls[1..]) else CallIds(calls[1..])
  }

  /** The results an assistant message waits for. */
  function ExpectedIds(m: Message): seq<string> {
    if m.role == Assistant && m.toolCalls.Some? then CallIds(m.toolCalls.value) else []
  }

  predicate Answers(m: Message, ids: seq<string>) {
    m.IsResult() && m.CallId() in ids
  }

  /** How many messages at the front answer one of the ids. */
  function RunLength(ms: seq<Message>, ids: seq<string>): (n: nat)
    ensures n <= |ms|
    ensures forall i | 0 <= i < n :: Answers(ms[i], ids)
    ensures n < |ms| ==> !Answers(ms[n], ids)
  {
    if ms == [] || !Answers(ms[0], ids) then 0 else 1 + RunLength(ms[1..], ids)
  }

  /** The messages whose id occurs neither in `seen` nor earlier in the run. */
  function FirstResults(run: seq<Message>, seen: set<string>): (r: seq<Message>)
    ensures |r| <= |run|
  {
    if run == [] then []
    else
      var id := run[0].CallId();
      if id in seen then FirstResults(run[1..], seen)
      else [run[0]] + FirstResults(run[1..], seen + {id})
  }

  /** The messages of a run that repeat an id already answered in it. */
  function RepeatedResults(run: seq<Message>, seen: set<string>): seq<Message>
  {
    if run == [] then []
    else
      var id := run[0].CallId();
      if id in seen then [run[0]] + RepeatedResults(run[1..], seen)
      else RepeatedResults(run[1..], seen + {id})
  }

  function ById(results: seq<Message>): map<string, Message>
  {
    if results == [] then map[]
    else
      var last := results[|results| - 1];
      var byId := ById(results[..|results| - 1]);
      if last.CallId() in byId then byId else byId[last.CallId() := last]
  }

  function TakeInOrder(byId: map<string, Message>, ids: seq<string>): seq<Message> {
    if ids == [] then []
    else if ids[0] in byId then [byId[ids[0]]] + TakeInOrder(byId - {ids[0]}, ids[1..])
    else TakeInOrder(byId, ids[1..])
  }

  method OrderedToolMessages(results: seq<Message>, ids: seq<string>) returns (ordered: seq<Message>)
    ensures ordered == TakeInOrder(ById(results), ids)
  {
    var byId: map<string, Message> := map[];
    for i := 0 to |results|
      invariant byId == ById(results[..i])
    {
      var id := results[i].CallId();
      assert results[..i + 1][..i] == results[..i];
      if id !in byId {
        byId := byId[id := results[i]];
      }
    }
    assert results[..|results|] == results;
    ordered := [];
    for i := 0 to |ids|
      invariant ordered + TakeInOrder(byId, ids[i..]) == TakeInOrder(ById(results), ids)
    {
      if ids[i] in byId {
        ordered := ordered + [byId[ids[i]]];
        byId := byId - {ids[i]};
      }
    }
  }

  /** What is left of an assistant message whose results are incomplete. */
  function Downgrade(m: Message): seq<Message> {
    if Blank(m.content) && !m.HasReasoning() then []
    else [m.(toolCalls := None, reasoning := if m.HasReasoning() then m.reasoning else None)]
  }

  function OrphanText(callId: string, output: string): (s: string)
    ensures !Blank(s)
  {
    var s := "V" + ("erified prior tool result without replayable parent call. tool_call_id="
                    + Truncate(callId, 120) + " output=" + output);
    assert s[0] == 'V';
    s
  }

  /** A result whose call cannot be replayed, told as a fact. */
  function OrphanFact(m: Message): (fact: Message)
    ensures fact.role == User && Useful(fact)
  {
    TextMessage(User,
                OrphanText(m.CallId(), Truncate(Redact(m.content), MAX_FACT_TEXT_CHARS)))
  }

  /** A user message that tells a result: the id of its call and, at the end, its text. */
  ghost predicate TellsResult(fact: Message, result: Message) {
    && fact.role == User && fact.toolCalls.None?
    && (|result.CallId()| <= 120 ==> Contains(fact.content, "tool_call_id=" + result.CallId() + " "))
    && (|result.CallId()| > 120 ==> Contains(fact.content, "tool_call_id=" + result.CallId()[..120]))
    && exists shown :: Shows(shown, result.content, 4096) && EndsWith(fact.content, "output=" + shown)
  }

  lemma OrphanTells(m: Message)
    ensures TellsResult(OrphanFact(m), m)
  {
    hide Redact, Truncate, Shows, Contains, EndsWith;
    var id, shown := Truncate(m.CallId(), 120), Truncate(Redact(m.content), 4096);
    TruncateShows(m.content, 4096);
    OrphanTextParts(m.CallId(), shown);
    assert OrphanFact(m).content == OrphanText(m.CallId(), shown);
  }

  lemma OrphanTextParts(callId: string, output: string)
    ensures var s := OrphanText(callId, output);
            && (|callId| <= 120 ==> Contains(s, "tool_call_id=" + callId + " "))
            && (|callId| > 120 ==> Contains(s, "tool_call_id=" + callId[..120]))
            && EndsWith(s, "output=" + output)
  {
    hide Truncate, Contains;
    var id, s := Truncate(callId, 120), OrphanText(callId, output);
    var header := "V" + "erified prior tool result without replayable parent call. ";
    var named, told := "tool_call_id=" + id + " ", "output=" + output;
    SplitOrphanText(callId, output, id, s, header, named, told);
    ContainsMiddle(header, named, told);
    if |callId| > 120 {
      IdIsCut(callId, id);
      var cut := "tool_call_id=" + callId[..120];
      assert named == cut + (id[120..] + " ");
      assert s == header + cut + ((id[120..] + " ") + told);
      ContainsMiddle(header, cut, (id[120..] + " ") + told);
    } else {
      IdIsWhole(callId);
    }
  }

  lemma IdIsCut(callId: string, id: string)
    requires |callId| > 120 && id == Truncate(callId, 120)
    ensures |id| > 120 && id[..120] == callId[..120] && id == id[..120] + id[120..]
  {
    TruncateTail(callId, 120);
  }

  lemma IdIsWhole(callId: string)
    requires |callId| <= 120
    ensures Truncate(callId, 120) == callId
  {
  }

  lemma SplitOrphanText(callId: string, output: string, id: string, s: string, header: string, named: string,
                        told: string)
    requires id == Truncate(callId, 120) && s == OrphanText(callId, output)
    requires header == "V" + "erified prior tool result without replayable parent call. "
    requires named == "tool_call_id=" + id + " " && told == "output=" + output
    ensures s == header + named + told
  {
    hide Truncate;
  }

  function OrphanFacts(ms: seq<Message>): seq<Message>
  {
    seq(|ms|, i requires 0 <= i < |ms| => OrphanFact(ms[i]))
  }

  predicate IsCurrentOutput(m: Message, valid: set<string>) {
    m.toolCallId.Some? && m.toolCallId.value in valid
  }

  /** A message outside any group: a stray result is told as a fact. */
  function Settle(m: Message, valid: set<string>): Message {
    if m.role == Tool && !IsCurrentOutput(m, valid) then OrphanFact(m) else m
  }

  /** The messages of the group opened by `m`, whose answering run is `run`. */
  function Group(m: Message, run: seq<Message>): seq<Message>
  {
    var ids := ExpectedIds(m);
    var results := FirstResults(run, {});
    if |results| == |ids| then [m] + TakeInOrder(ById(results), ids)
    else Downgrade(m) + OrphanFacts(results)
  }

  function Regroup(ms: seq<Message>, valid: set<string>): seq<Message>
    decreases |ms|
  {
    if ms == [] then []
    else
      var ids := ExpectedIds(ms[0]);
      if ids == [] then [Settle(ms[0], valid)] + Regroup(ms[1..], valid)
      else
        var n := RunLength(ms[1..], ids);
        Group(ms[0], ms[1..][..n]) + Regroup(ms[1..][n..], valid)
  }

  function Sanitize(ms: seq<Message>, valid: set<string>): seq<Message> {
    Filter(Useful, Regroup(ms, valid))
  }

  // ------------------------------------------------------- the sanitiser loop

  /** The results that directly follow position `start`, first occurrences only. */
  method CollectRun(messages: seq<Message>, start: nat, ids: seq<string>)
    returns (results: seq<Message>, seen: set<string>, cursor: nat)
    requires start <= |messages|
    ensures cursor == start + RunLength(messages[start..], ids) <= |messages|
    ensures results == FirstResults(messages[start..][..cursor - start], {})
    ensures |seen| == |results|
  {
    hide FirstResults, RunLength;
    results, seen, cursor := [], {}, start;
    ghost var n := RunLength(messages[start..], ids);
    ghost var run := messages[start..][..n];
    assert run[0..] == run;
    while cursor < |messages| && Answers(messages[cursor], ids)
      invariant start <= cursor <= start + n
      invariant results + FirstResults(run[cursor - start..], seen) == FirstResults(run, {})
      invariant |seen| == |results|
    {
      assert messages[cursor] == messages[start..][cursor - start];
      FirstResultsAt(run, cursor - start, seen);
      var id := messages[cursor].CallId();
      if id !in seen {
        seen := seen + {id};
        results := results + [messages[cursor]];
      }
      cursor := cursor + 1;
    }
    assert cursor < |messages| ==> messages[cursor] == messages[start..][cursor - start];
    FirstResultsEnd(run, seen);
    assert results + [] == results;
  }

  lemma FirstResultsAt(run: seq<Message>, i: nat, seen: set<string>)
    requires i < |run|
    ensures var id := run[i].CallId();
            FirstResults(run[i..], seen)
            == if id in seen then FirstResults(run[i + 1..], seen)
               else [run[i]] + FirstResults(run[i + 1..], seen + {id})
  {
    assert run[i..][1..] == run[i + 1..];
  }

  lemma FirstResultsEnd(run: seq<Message>, seen: set<string>)
    ensures FirstResults(run[|run|..], seen) == []
  {
  }

  /** One turn of the sanitiser loop, in terms of positions in the whole list. */
  lemma RegroupAt(ms: seq<Message>, index: nat, valid: set<string>)
    requires index < |ms|
    ensures var ids := ExpectedIds(ms[index]);
            if ids == [] then
              Regroup(ms[index..], valid) == [Settle(ms[index], valid)] + Regroup(ms[index + 1..], valid)
            else
              var n := RunLength(ms[index + 1..], ids);
              Regroup(ms[index..], valid)
              == Group(ms[index], ms[index + 1..][..n]) + Regroup(ms[index + 1 + n..], valid)
  {
    hide ExpectedIds, Answers, Group, Settle;
    assert ms[index..][1..] == ms[index + 1..];
    var n := RunLength(ms[index + 1..], ExpectedIds(ms[index]));
    assert ms[index + 1..][n..] == ms[index + 1 + n..];
  }

  method SanitizeChatToolProtocol(messages: seq<Message>, valid: set<string>)
    returns (output: seq<Message>)
    ensures output == Sanitize(messages, valid)
  {
    hide Answers, ExpectedIds, OrphanFact, OrphanFacts, IsCurrentOutput, Downgrade, TakeInOrder,
      FirstResults, ById, Regroup, Filter, RunLength, Useful, Group, Settle;
    output := [];
    var index := 0;
    assert messages[0..] == messages;
    while index < |messages|
      invariant index <= |messages|
      invariant output + Regroup(messages[index..], valid) == Regroup(messages, valid)
    {
      RegroupAt(messages, index, valid);
      var message := messages[index];
      var ids := ExpectedIds(message);
      if ids != [] {
        var results, seen, cursor := CollectRun(messages, index + 1, ids);
        GroupCases(message, messages[index + 1..][..cursor - index - 1]);
        ghost var before, rest := output, Regroup(messages[cursor..], valid);
        if |seen| == |ids| {
          var ordered := OrderedToolMessages(results, ids);
          output := output + ([message] + ordered);
          Appended(before, [message] + ordered, rest);
        } else {
          output := output + (Downgrade(message) + OrphanFacts(results));
          Appended(before, Downgrade(message) + OrphanFacts(results), rest);
        }
        index := cursor;
      } else {
        SettleCases(message, valid);
        Appended(output, [Settle(message, valid)], Regroup(messages[index + 1..], valid));
        if message.role == Tool && IsCurrentOutput(message, valid) {
          output := output + [message];
        } else if message.role == Tool {
          output := output + [OrphanFact(message)];
        } else {
          output := output + [message];
        }
        index := index + 1;
      }
    }
    assert messages[index..] == [];
    RegroupNone(valid);
    assert output + [] == output;
    output := Filter(Useful, output);
  }

  lemma Appended(before: seq<Message>, piece: seq<Message>, rest: seq<Message>)
    ensures before + (piece + rest) == (before + piece) + rest
  {
  }

  lemma GroupCases(m: Message, run: seq<Message>)
    ensures var results := FirstResults(run, {});
            Group(m, run)
            == if |results| == |ExpectedIds(m)| then [m] + TakeInOrder(ById(results), ExpectedIds(m))
               else Downgrade(m) + OrphanFacts(results)
  {
    hide ExpectedIds, TakeInOrder, ById, FirstResults, Downgrade, OrphanFacts;
  }

  lemma SettleCases(m: Message, valid: set<string>)
    ensures Settle(m, valid) == if m.role == Tool && !IsCurrentOutput(m, valid) then OrphanFact(m) else m
  {
    hide OrphanFact;
  }

  lemma RegroupNone(valid: set<string>)
    ensures Regroup([], valid) == []
  {
  }
}
