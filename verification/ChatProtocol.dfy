/**
 * What the sanitiser guarantees for every message list: a legal tool protocol,
 * its exact fixed points, and that no tool result and no text is lost.
 */
module ChatProtocol {
  import opened Wrappers
  import opened Text
  import opened Seqs
  import opened Chat

  // ----------------------------------------------------------- complete groups

  /** The first messages are results for the ids, one each and in that order. */
  predicate AnswersInOrder(ms: seq<Message>, ids: seq<string>) {
    && |ids| <= |ms|
    && forall k | 0 <= k < |ids| :: ms[k].IsResult() && ms[k].CallId() == ids[k]
  }

  predicate DistinctIds(results: seq<Message>) {
    forall i, j | 0 <= i < j < |results| :: results[i].CallId() != results[j].CallId()
  }

  lemma {:induction false} FirstResultsDistinct(run: seq<Message>, seen: set<string>)
    ensures var r := FirstResults(run, seen);
            && DistinctIds(r)
            && forall i | 0 <= i < |r| :: r[i].CallId() !in seen && r[i] in run
  {
    if run != [] {
      var id := run[0].CallId();
      FirstResultsDistinct(run[1..], if id in seen then seen else seen + {id});
    }
  }

  /** The map holds exactly the given results, each under its own id. */
  predicate Indexes(byId: map<string, Message>, results: seq<Message>) {
    && |byId.Keys| == |results|
    && (forall i | 0 <= i < |results| ::
          results[i].CallId() in byId && byId[results[i].CallId()] == results[i])
    && (forall id | id in byId :: byId[id] in results && byId[id].CallId() == id)
  }

  lemma IndexMore(byId: map<string, Message>, results: seq<Message>, r: Message)
    requires Indexes(byId, results) && r.CallId() !in byId
    ensures Indexes(byId[r.CallId() := r], results + [r])
  {
    var id := r.CallId();
    var next, all := byId[id := r], results + [r];
    assert next.Keys == byId.Keys + {id};
    forall k | k in next
      ensures next[k] in all && next[k].CallId() == k
    {
      if k == id {
        assert all[|results|] == r;
      } else {
        assert byId[k] in results;
      }
    }
    forall i | 0 <= i < |all|
      ensures all[i].CallId() in next && next[all[i].CallId()] == all[i]
    {
      if i < |results| {
        assert all[i] == results[i];
      }
    }
  }

  lemma {:induction false} ByIdEntries(results: seq<Message>)
    requires DistinctIds(results)
    ensures Indexes(ById(results), results)
  {
    if results != [] {
      var n := |results| - 1;
      var init := results[..n];
      ByIdEntries(init);
      var id := results[n].CallId();
      assert id !in ById(init);
      IndexMore(ById(init), init, results[n]);
      assert results == init + [results[n]];
    }
  }

  lemma {:induction false} TakeAll(byId: map<string, Message>, ids: seq<string>)
    requires Distinct(ids) && forall i | 0 <= i < |ids| :: ids[i] in byId
    ensures var o := TakeInOrder(byId, ids);
            |o| == |ids| && forall i | 0 <= i < |ids| :: o[i] == byId[ids[i]]
  {
    if ids != [] {
      TakeAll(byId - {ids[0]}, ids[1..]);
    }
  }

  /** As many first results as expected ids: then the ids are distinct and the ordered results
      are a permutation that answers them one by one. */
  lemma CompleteGroup(run: seq<Message>, ids: seq<string>)
    requires forall i | 0 <= i < |run| :: Answers(run[i], ids)
    requires |FirstResults(run, {})| == |ids|
    ensures Distinct(ids)
    ensures var o := TakeInOrder(ById(FirstResults(run, {})), ids);
            |o| == |ids| && AnswersInOrder(o, ids) && multiset(o) == multiset(FirstResults(run, {}))
  {
    var results := FirstResults(run, {});
    FirstResultsDistinct(run, {});
    ByIdEntries(results);
    var byId := ById(results);
    hide FirstResults, ById, TakeInOrder;
    assert byId.Keys <= Elements(ids) by {
      forall id | id in byId
        ensures id in ids
      {
        var i :| 0 <= i < |results| && results[i] == byId[id];
        var j :| 0 <= j < |run| && run[j] == results[i];
        assert Answers(run[j], ids);
      }
    }
    SubsetCardinality(byId.Keys, Elements(ids));
    DistinctCardinality(ids);
    assert byId.Keys == Elements(ids);
    assert forall i | 0 <= i < |ids| :: ids[i] in byId;
    TakeAll(byId, ids);
    PermutedById(results, byId, ids, TakeInOrder(byId, ids));
    AnsweredById(run, results, byId, ids, TakeInOrder(byId, ids));
  }

  lemma AnsweredById(run: seq<Message>, results: seq<Message>, byId: map<string, Message>, ids: seq<string>,
                     o: seq<Message>)
    requires forall i | 0 <= i < |run| :: Answers(run[i], ids)
    requires forall i | 0 <= i < |results| :: results[i] in run
    requires |o| == |ids| && forall i | 0 <= i < |ids| :: ids[i] in byId && o[i] == byId[ids[i]]
    requires Indexes(byId, results)
    ensures AnswersInOrder(o, ids)
  {
    forall k | 0 <= k < |ids|
      ensures o[k].IsResult() && o[k].CallId() == ids[k]
    {
      assert byId[ids[k]] in results;
      var i :| 0 <= i < |results| && results[i] == byId[ids[k]];
      var j :| 0 <= j < |run| && run[j] == results[i];
      assert Answers(run[j], ids);
    }
  }

  lemma PermutedById(results: seq<Message>, byId: map<string, Message>, ids: seq<string>, o: seq<Message>)
    requires DistinctIds(results) && Distinct(ids) && byId.Keys == Elements(ids)
    requires |o| == |ids| && forall i | 0 <= i < |ids| :: ids[i] in byId && o[i] == byId[ids[i]]
    requires Indexes(byId, results)
    ensures multiset(o) == multiset(results)
  {
    forall x
      ensures x in o <==> x in results
    {
      if x in results {
        var i :| 0 <= i < |results| && results[i] == x;
        var id := x.CallId();
        assert id in Elements(ids);
        var k :| 0 <= k < |ids| && ids[k] == id;
        assert o[k] == x;
      }
    }
    assert Distinct(o) by {
      assert forall i | 0 <= i < |o| :: o[i].CallId() == ids[i];
    }
    SameElementsPermute(o, results);
  }

  // ------------------------------------------------------------------ legality

  /** The chat tool protocol: each assistant message with calls is followed at once by exactly
      one result per call, in call order; any other tool message answers a valid id. */
  predicate Legal(ms: seq<Message>, valid: set<string>)
    decreases |ms|
  {
    if ms == [] then true
    else
      var ids := ExpectedIds(ms[0]);
      if ids == [] then
        (IsTool(ms[0]) ==> IsCurrentOutput(ms[0], valid)) && Legal(ms[1..], valid)
      else
        Distinct(ids) && AnswersInOrder(ms[1..], ids) && Legal(ms[1..][|ids|..], valid)
  }

  lemma LegalGroup(m: Message, results: seq<Message>, rest: seq<Message>, valid: set<string>)
    requires ExpectedIds(m) != [] && Distinct(ExpectedIds(m))
    requires |results| == |ExpectedIds(m)| && AnswersInOrder(results, ExpectedIds(m))
    ensures Legal([m] + results + rest, valid) == Legal(rest, valid)
  {
    hide ExpectedIds;
    var ms := [m] + results + rest;
    assert ms[1..] == results + rest;
    assert ms[1..][|results|..] == rest;
  }

  lemma LegalPlain(ms: seq<Message>, rest: seq<Message>, valid: set<string>)
    requires forall i | 0 <= i < |ms| :: ExpectedIds(ms[i]) == []
    requires forall i | 0 <= i < |ms| :: IsTool(ms[i]) ==> IsCurrentOutput(ms[i], valid)
    ensures Legal(ms + rest, valid) == Legal(rest, valid)
    decreases |ms|
  {
    hide ExpectedIds, IsCurrentOutput, AnswersInOrder;
    if ms == [] {
      assert ms + rest == rest;
    } else {
      LegalPlain(ms[1..], rest, valid);
      assert (ms + rest)[1..] == ms[1..] + rest;
    }
  }

  lemma NoCallsExpectNothing(m: Message)
    ensures !m.HasCalls() ==> ExpectedIds(m) == []
    ensures ExpectedIds(m) != [] ==> m.role == Assistant && m.HasCalls() && Useful(m)
  {
  }

  /** The useful messages of a group, and how the protocol continues after it. */
  lemma GroupLegal(m: Message, run: seq<Message>, rest: seq<Message>, valid: set<string>)
    requires ExpectedIds(m) != []
    requires forall i | 0 <= i < |run| :: Answers(run[i], ExpectedIds(m))
    ensures Legal(Filter(Useful, Group(m, run)) + rest, valid) == Legal(rest, valid)
  {
    hide ExpectedIds, TakeInOrder, ById, FirstResults, OrphanFact, Legal;
    var ids := ExpectedIds(m);
    var results := FirstResults(run, {});
    NoCallsExpectNothing(m);
    if |results| == |ids| {
      CompleteGroup(run, ids);
      var o := TakeInOrder(ById(results), ids);
      FilterKeepsAll(Useful, [m] + o);
      LegalGroup(m, o, rest, valid);
    } else {
      var g := Filter(Useful, Group(m, run));
      forall i | 0 <= i < |g|
        ensures ExpectedIds(g[i]) == [] && !IsTool(g[i])
      {
        FilterMember(Useful, Group(m, run), g[i]);
        NoCallsExpectNothing(g[i]);
      }
      LegalPlain(g, rest, valid);
    }
  }

  /** The sanitiser's output is legal, whatever the messages. */
  lemma {:induction false} SanitizeIsLegal(ms: seq<Message>, valid: set<string>)
    ensures Legal(Sanitize(ms, valid), valid)
    decreases |ms|
  {
    hide ExpectedIds, Group, OrphanFact, Filter, Legal;
    if ms == [] {
      LegalPlain([], [], valid);
      LegalNone(valid);
      FilterKeepsAll(Useful, []);
    } else {
      var ids := ExpectedIds(ms[0]);
      if ids == [] {
        var head := [Settle(ms[0], valid)];
        SanitizeIsLegal(ms[1..], valid);
        FilterConcat(Useful, head, Regroup(ms[1..], valid));
        var kept := Filter(Useful, head);
        SettleExpectsNothing(ms[0], valid);
        forall i | 0 <= i < |kept|
          ensures kept[i] in head
        {
          FilterMember(Useful, head, kept[i]);
        }
        LegalPlain(kept, Sanitize(ms[1..], valid), valid);
      } else {
        var n := RunLength(ms[1..], ids);
        var run, rest := ms[1..][..n], ms[1..][n..];
        SanitizeIsLegal(rest, valid);
        FilterConcat(Useful, Group(ms[0], run), Regroup(rest, valid));
        GroupLegal(ms[0], run, Sanitize(rest, valid), valid);
      }
    }
  }

  lemma LegalNone(valid: set<string>)
    ensures Legal([], valid)
  {
  }

  lemma SettleExpectsNothing(m: Message, valid: set<string>)
    requires ExpectedIds(m) == []
    ensures var s := Settle(m, valid);
            ExpectedIds(s) == [] && (IsTool(s) ==> IsCurrentOutput(s, valid))
  {
    hide OrphanFact;
    NoCallsExpectNothing(OrphanFact(m));
  }

  /** The id of message `j` is the one that the call message `i` expects there. */
  predicate Owns(ms: seq<Message>, i: nat, j: nat)
    requires i < j < |ms|
  {
    var ids := ExpectedIds(ms[i]);
    j - i <= |ids| && ms[j].CallId() == ids[j - i - 1]
  }

  /** Legality read position by position. */
  lemma {:induction false} LegalAt(ms: seq<Message>, valid: set<string>, j: nat)
    requires Legal(ms, valid) && j < |ms|
    ensures ExpectedIds(ms[j]) != [] ==>
              Distinct(ExpectedIds(ms[j])) && AnswersInOrder(ms[j + 1..], ExpectedIds(ms[j]))
    ensures IsTool(ms[j]) ==>
              || (ms[j].toolCallId.Some? && ms[j].toolCallId.value in valid)
              || exists i: nat | i < j :: Owns(ms, i, j)
    decreases |ms|
  {
    hide ExpectedIds;
    var ids := ExpectedIds(ms[0]);
    var skip := 1 + |ids|;
    if j == 0 {
      NoCallsExpectNothing(ms[0]);
    } else if j < skip {
      NoCallsExpectNothing(ms[j]);
      assert ms[1..][j - 1] == ms[j];
      assert Owns(ms, 0, j);
    } else {
      assert ms[skip..] == ms[1..][|ids|..];
      var rest := ms[skip..];
      LegalAt(rest, valid, j - skip);
      assert rest[j - skip + 1..] == ms[j + 1..];
      if !IsCurrentOutput(ms[j], valid) && IsTool(ms[j]) {
        var i: nat :| i < j - skip && Owns(rest, i, j - skip);
        assert rest[i] == ms[skip + i];
        assert Owns(ms, skip + i, j);
      }
    }
  }

  // ------------------------------------------------------------ single messages

  /** Outside any group a message that is not a tool message is kept unless it is empty. */
  lemma LoneMessage(m: Message, valid: set<string>)
    requires m.role != Tool && ExpectedIds(m) == []
    ensures var empty := && Blank(m.content) && (m.toolCalls.None? || m.toolCalls.value == [])
                         && (m.role == Assistant ==> m.reasoning.None? || Blank(m.reasoning.value))
                         && (m.role != Assistant ==> m.toolCallId.None?);
            Sanitize([m], valid) == if empty then [] else [m]
  {
    hide ExpectedIds, Blank, Regroup;
    assert [m] == [m] + [];
    RegroupOne(m, [], valid);
    RegroupNone(valid);
    assert [m][1..] == [];
  }

  /** Outside any group a result is kept under a valid id, and otherwise told as a fact. */
  lemma LoneResult(t: Message, valid: set<string>)
    requires t.role == Tool
    ensures if t.toolCallId.Some? && t.toolCallId.value in valid then Sanitize([t], valid) == [t]
            else exists fact :: Sanitize([t], valid) == [fact] && TellsResult(fact, t)
  {
    hide Regroup, TellsResult, OrphanText;
    assert [t] == [t] + [];
    NoCallsExpectNothing(t);
    RegroupOne(t, [], valid);
    RegroupNone(valid);
    OrphanTells(t);
    assert [t][1..] == [] && [OrphanFact(t)][1..] == [];
  }

  predicate HasId(call: ToolCall) {
    call.id.Some? && !Blank(call.id.value)
  }

  /** An assistant message waits for the ids of its calls, in order, calls without an id or with a
      blank one left out; no other message waits for any. */
  lemma ExpectedExactly(m: Message)
    ensures var named := if m.role == Assistant && m.toolCalls.Some? then Filter(HasId, m.toolCalls.value) else [];
            && |ExpectedIds(m)| == |named|
            && forall n | 0 <= n < |named| :: named[n].id == Some(ExpectedIds(m)[n])
  {
    hide Filter, CallIds;
    if m.toolCalls.Some? {
      CallIdsExactly(m.toolCalls.value);
    }
  }

  lemma {:induction false} CallIdsExactly(calls: seq<ToolCall>)
    ensures var named := Filter(HasId, calls);
            |CallIds(calls)| == |named| && forall n | 0 <= n < |named| :: named[n].id == Some(CallIds(calls)[n])
  {
    hide Blank;
    if calls != [] {
      CallIdsExactly(calls[1..]);
    }
  }

  /** A call message that nothing answers keeps its text and its reasoning, if it has any, and loses
      its calls. */
  lemma LoneCaller(m: Message, valid: set<string>)
    requires ExpectedIds(m) != []
    ensures var reasoned := m.reasoning.Some? && !Blank(m.reasoning.value);
            Sanitize([m], valid)
            == if Blank(m.content) && !reasoned then []
               else [m.(toolCalls := None, reasoning := if reasoned then m.reasoning else None)]
  {
    hide ExpectedIds, Blank, Regroup;
    NoCallsExpectNothing(m);
    assert [m] == [m] + [] + [];
    RegroupParts(m, [], [], valid);
    RegroupNone(valid);
    var kept := Downgrade(m);
    assert Group(m, []) + [] == kept;
    assert kept != [] ==> kept[1..] == [];
  }

  // -------------------------------------------------------------- fixed points

  /** Legal, useful throughout, and no group directly followed by one more of its answers. */
  predicate Canonical(ms: seq<Message>, valid: set<string>)
    decreases |ms|
  {
    if ms == [] then true
    else
      var ids := ExpectedIds(ms[0]);
      if ids == [] then
        && Useful(ms[0])
        && (IsTool(ms[0]) ==> IsCurrentOutput(ms[0], valid))
        && Canonical(ms[1..], valid)
      else
        var rest := ms[1..];
        && Distinct(ids) && AnswersInOrder(rest, ids)
        && (|ids| < |rest| ==> !Answers(rest[|ids|], ids))
        && Canonical(rest[|ids|..], valid)
  }

  predicate AllUseful(ms: seq<Message>) {
    forall i | 0 <= i < |ms| :: Useful(ms[i])
  }

  lemma AllUsefulConcat(a: seq<Message>, b: seq<Message>)
    ensures AllUseful(a + b) <==> AllUseful(a) && AllUseful(b)
  {
    hide Useful;
    assert forall i | 0 <= i < |a| :: (a + b)[i] == a[i];
    assert forall i | 0 <= i < |b| :: (a + b)[|a| + i] == b[i];
  }

  lemma RunIs(run: seq<Message>, tail: seq<Message>, ids: seq<string>)
    requires forall i | 0 <= i < |run| :: Answers(run[i], ids)
    requires tail != [] ==> !Answers(tail[0], ids)
    ensures RunLength(run + tail, ids) == |run| && (run + tail)[..|run|] == run
  {
    hide Answers, RunLength;
    var rest, n := run + tail, RunLength(run + tail, ids);
    assert forall i | 0 <= i < |run| :: rest[i] == run[i] && Answers(rest[i], ids);
    assert |run| < |rest| ==> !Answers(rest[|run|], ids);
  }

  /** Regrouping a call message, its answering run and what follows. */
  lemma RegroupParts(m: Message, run: seq<Message>, tail: seq<Message>, valid: set<string>)
    requires ExpectedIds(m) != []
    requires forall i | 0 <= i < |run| :: Answers(run[i], ExpectedIds(m))
    requires tail != [] ==> !Answers(tail[0], ExpectedIds(m))
    ensures Regroup([m] + run + tail, valid) == Group(m, run) + Regroup(tail, valid)
  {
    hide ExpectedIds, Answers, Group, Regroup, RunLength;
    var ms, rest := [m] + run + tail, run + tail;
    RunIs(run, tail, ExpectedIds(m));
    assert ms[1..] == rest && ms[0] == m && ms[0..] == ms && ms[1 + |run|..] == tail;
    RegroupAt(ms, 0, valid);
  }

  lemma {:induction false} FirstResultsAll(run: seq<Message>, seen: set<string>)
    requires DistinctIds(run)
    requires forall i | 0 <= i < |run| :: run[i].CallId() !in seen
    ensures FirstResults(run, seen) == run
  {
    if run != [] {
      FirstResultsAll(run[1..], seen + {run[0].CallId()});
    }
  }

  /** A group that is already in order is left alone. */
  lemma GroupInOrder(m: Message, run: seq<Message>)
    requires |run| == |ExpectedIds(m)| && AnswersInOrder(run, ExpectedIds(m))
    requires Distinct(ExpectedIds(m))
    ensures Group(m, run) == [m] + run
  {
    hide ExpectedIds, FirstResults, ById, TakeInOrder;
    var ids := ExpectedIds(m);
    assert forall i | 0 <= i < |run| :: run[i].CallId() == ids[i];
    FirstResultsAll(run, {});
    ByIdEntries(run);
    assert forall i | 0 <= i < |ids| :: ids[i] in ById(run) && ById(run)[ids[i]] == run[i];
    TakeAll(ById(run), ids);
  }

  lemma {:induction false} CanonicalRegroup(ms: seq<Message>, valid: set<string>)
    requires Canonical(ms, valid)
    ensures Regroup(ms, valid) == ms && AllUseful(ms)
    decreases |ms|
  {
    hide ExpectedIds, Group, OrphanFact, IsCurrentOutput, Regroup, Answers, Useful, AllUseful, Distinct, AnswersInOrder;
    if ms == [] {
      RegroupNone(valid);
      NothingUseful();
    } else {
      var m, ids, rest := ms[0], ExpectedIds(ms[0]), ms[1..];
      NoCallsExpectNothing(m);
      assert ms == [m] + rest;
      AllUsefulConcat([m], rest);
      OneUseful(m);
      if ids == [] {
        CanonicalRegroup(rest, valid);
        RegroupOne(m, rest, valid);
      } else {
        var run, tail := CanonicalParts(ms, valid);
        CanonicalRegroup(tail, valid);
        InOrderAnswers(run, ids);
        GroupInOrder(m, run);
        RegroupParts(m, run, tail, valid);
        AllUsefulConcat(run, tail);
      }
    }
  }

  /** A canonical list that starts with a call message. */
  lemma CanonicalParts(ms: seq<Message>, valid: set<string>) returns (run: seq<Message>, tail: seq<Message>)
    requires Canonical(ms, valid) && ms != [] && ExpectedIds(ms[0]) != []
    ensures ms == [ms[0]] + run + tail && ms[1..] == run + tail && Canonical(tail, valid)
    ensures var ids := ExpectedIds(ms[0]);
            Distinct(ids) && |run| == |ids| && AnswersInOrder(run, ids) && (tail != [] ==> !Answers(tail[0], ids))
  {
    hide ExpectedIds, Answers, Useful, IsCurrentOutput;
    var ids, rest := ExpectedIds(ms[0]), ms[1..];
    run, tail := rest[..|ids|], rest[|ids|..];
  }

  lemma NothingUseful()
    ensures AllUseful([])
  {
  }

  lemma OneUseful(m: Message)
    ensures Useful(m) ==> AllUseful([m])
  {
    hide Useful;
  }

  lemma InOrderAnswers(run: seq<Message>, ids: seq<string>)
    requires |run| == |ids| && AnswersInOrder(run, ids)
    ensures AllUseful(run) && forall i | 0 <= i < |run| :: Answers(run[i], ids)
  {
  }

  lemma GroupSize(m: Message, run: seq<Message>)
    requires ExpectedIds(m) != []
    requires forall i | 0 <= i < |run| :: Answers(run[i], ExpectedIds(m))
    ensures |Group(m, run)| <= 1 + |run|
    ensures Group(m, run) == [m] + run ==>
              |run| == |ExpectedIds(m)| && Distinct(ExpectedIds(m)) && AnswersInOrder(run, ExpectedIds(m))
  {
    hide ExpectedIds, FirstResults, ById, TakeInOrder, OrphanFact;
    var ids := ExpectedIds(m);
    var results := FirstResults(run, {});
    NoCallsExpectNothing(m);
    if |results| == |ids| {
      CompleteGroup(run, ids);
      assert Group(m, run)[1..] == TakeInOrder(ById(results), ids);
      assert ([m] + run)[1..] == run;
    } else {
      assert Group(m, run) != [] ==> Group(m, run)[0] != m;
    }
  }

  lemma {:induction false} RegroupSize(ms: seq<Message>, valid: set<string>)
    ensures |Regroup(ms, valid)| <= |ms|
    decreases |ms|
  {
    hide ExpectedIds, Group, OrphanFact, Answers;
    if ms != [] {
      var ids := ExpectedIds(ms[0]);
      if ids == [] {
        RegroupSize(ms[1..], valid);
      } else {
        var n := RunLength(ms[1..], ids);
        RegroupSize(ms[1..][n..], valid);
        GroupSize(ms[0], ms[1..][..n]);
      }
    }
  }

  lemma {:induction false} RegroupedCanonical(ms: seq<Message>, valid: set<string>)
    requires Regroup(ms, valid) == ms
    requires AllUseful(ms)
    ensures Canonical(ms, valid)
    decreases |ms|
  {
    hide ExpectedIds, Group, OrphanFact, IsCurrentOutput, Regroup, Answers, Useful, RunLength;
    if ms != [] {
      var m, ids, rest := ms[0], ExpectedIds(ms[0]), ms[1..];
      assert ms == [m] + rest;
      AllUsefulConcat([m], rest);
      if ids == [] {
        RegroupOne(m, rest, valid);
        assert ms[1..] == Regroup(rest, valid);
        RegroupedCanonical(rest, valid);
      } else {
        var n := RunLength(rest, ids);
        var run, tail := rest[..n], rest[n..];
        assert ms == [m] + run + tail;
        RegroupParts(m, run, tail, valid);
        GroupSize(m, run);
        RegroupSize(tail, valid);
        SplitEqual(Group(m, run), Regroup(tail, valid), [m] + run, tail);
        AllUsefulConcat([m] + run, tail);
        RegroupedCanonical(tail, valid);
        hide Canonical;
        CanonicalGroup(m, run, tail, valid);
      }
    }
  }

  lemma CanonicalGroup(m: Message, run: seq<Message>, tail: seq<Message>, valid: set<string>)
    requires var ids := ExpectedIds(m);
             ids != [] && Distinct(ids) && |run| == |ids| && AnswersInOrder(run, ids)
             && (tail != [] ==> !Answers(tail[0], ids))
    requires Canonical(tail, valid)
    ensures Canonical([m] + run + tail, valid)
  {
    hide ExpectedIds, Answers;
    var ms := [m] + run + tail;
    var rest := ms[1..];
    assert rest == run + tail;
    assert forall k | 0 <= k < |run| :: run[k] == rest[k];
    assert rest[|run|..] == tail;
  }

  lemma SplitEqual(a: seq<Message>, b: seq<Message>, c: seq<Message>, d: seq<Message>)
    requires a + b == c + d && |a| <= |c| && |b| <= |d|
    ensures a == c && b == d
  {
    assert a == (a + b)[..|a|] && c == (c + d)[..|c|];
    assert b == (a + b)[|a|..] && d == (c + d)[|c|..];
  }

  /** The fixed points of the sanitiser are exactly the canonical lists. */
  lemma SanitizeFixedIffCanonical(ms: seq<Message>, valid: set<string>)
    ensures Sanitize(ms, valid) == ms <==> Canonical(ms, valid)
  {
    hide Regroup, Canonical, Filter;
    if Canonical(ms, valid) {
      CanonicalRegroup(ms, valid);
      FilterKeepsAll(Useful, ms);
    }
    if Sanitize(ms, valid) == ms {
      var regrouped := Regroup(ms, valid);
      RegroupSize(ms, valid);
      FilterFull(Useful, regrouped);
      SanitizedUseful(ms, valid);
      RegroupedCanonical(ms, valid);
    }
  }

  /** A complete group directly followed by one more answer to one of its calls. */
  predicate TrailingAnswer(ms: seq<Message>, i: nat)
    requires i < |ms|
  {
    var ids := ExpectedIds(ms[i]);
    ids != [] && i + 1 + |ids| < |ms| && Answers(ms[i + 1 + |ids|], ids)
  }

  predicate NoTrailingAnswer(ms: seq<Message>) {
    forall i: nat | i < |ms| :: !TrailingAnswer(ms, i)
  }

  lemma TrailingShift(ms: seq<Message>, skip: nat)
    requires skip <= |ms|
    ensures NoTrailingAnswer(ms[skip..]) <==> forall i: nat | skip <= i < |ms| :: !TrailingAnswer(ms, i)
  {
    hide ExpectedIds, Answers;
    var rest := ms[skip..];
    assert forall i: nat | skip <= i < |ms| :: TrailingAnswer(ms, i) == TrailingAnswer(rest, i - skip);
    assert forall i: nat | i < |rest| :: TrailingAnswer(rest, i) == TrailingAnswer(ms, skip + i);
  }

  lemma {:induction false} LegalCanonical(ms: seq<Message>, valid: set<string>)
    requires Legal(ms, valid) && AllUseful(ms)
    ensures Canonical(ms, valid) <==> NoTrailingAnswer(ms)
    decreases |ms|
  {
    hide ExpectedIds, IsCurrentOutput, Answers, Useful;
    if ms != [] {
      var ids := ExpectedIds(ms[0]);
      var skip := 1 + |ids|;
      assert ms[skip..] == ms[1..][|ids|..];
      var rest := ms[skip..];
      LegalCanonical(rest, valid);
      TrailingShift(ms, skip);
      forall i: nat | 0 < i < skip
        ensures !TrailingAnswer(ms, i)
      {
        assert ms[i] == ms[1..][i - 1];
        NoCallsExpectNothing(ms[i]);
      }
      assert NoTrailingAnswer(ms) <==> !TrailingAnswer(ms, 0) && NoTrailingAnswer(rest);
    }
  }

  lemma SanitizedUseful(ms: seq<Message>, valid: set<string>)
    ensures AllUseful(Sanitize(ms, valid))
  {
    var out := Sanitize(ms, valid);
    forall i | 0 <= i < |out|
      ensures Useful(out[i])
    {
      FilterMember(Useful, Regroup(ms, valid), out[i]);
    }
  }

  /** Sanitising again changes nothing exactly when no group of the result is followed by a
      trailing answer. */
  lemma SanitizeTwice(ms: seq<Message>, valid: set<string>)
    ensures var out := Sanitize(ms, valid);
            Sanitize(out, valid) == out <==> NoTrailingAnswer(out)
  {
    var out := Sanitize(ms, valid);
    SanitizeIsLegal(ms, valid);
    SanitizedUseful(ms, valid);
    LegalCanonical(out, valid);
    SanitizeFixedIffCanonical(out, valid);
  }

  /** With no valid ids from outside, sanitising is idempotent. */
  lemma SanitizeIdempotent(ms: seq<Message>)
    ensures Sanitize(Sanitize(ms, {}), {}) == Sanitize(ms, {})
  {
    hide Sanitize, Legal;
    var out := Sanitize(ms, {});
    SanitizeIsLegal(ms, {});
    forall i: nat | i < |out|
      ensures !TrailingAnswer(out, i)
    {
      var j := i + 1 + |ExpectedIds(out[i])|;
      if j < |out| && ExpectedIds(out[i]) != [] && IsTool(out[j]) {
        LegalAt(out, {}, j);
        var k: nat :| k < j && Owns(out, k, j);
        StrayAfterGroup(out, i, k);
      }
    }
    SanitizeTwice(ms, {});
  }

  /** The message just past a group belongs to no group. */
  lemma StrayAfterGroup(ms: seq<Message>, i: nat, k: nat)
    requires Legal(ms, {}) && i < |ms| && ExpectedIds(ms[i]) != []
    requires k < i + 1 + |ExpectedIds(ms[i])| < |ms|
    ensures !Owns(ms, k, i + 1 + |ExpectedIds(ms[i])|)
  {
    hide Legal, ExpectedIds;
    LegalAt(ms, {}, i);
    LegalAt(ms, {}, k);
    NoCallsExpectNothing(ms[i]);
    NoCallsExpectNothing(ms[k]);
    assert i < k ==> ms[i + 1..][k - i - 1] == ms[k];
    assert k < i ==> ms[k + 1..][i - k - 1] == ms[i];
  }

  // -------------------------------------------------------------------- locality

  /** Sanitising works piece by piece: a list can be cut in front of any message that is not a
      tool message. */
  lemma {:induction false} SanitizeSplits(a: seq<Message>, b: seq<Message>, valid: set<string>)
    requires b == [] || !IsTool(b[0])
    ensures Sanitize(a + b, valid) == Sanitize(a, valid) + Sanitize(b, valid)
  {
    RegroupSplits(a, b, valid);
    FilterConcat(Useful, Regroup(a, valid), Regroup(b, valid));
  }

  lemma RegroupOne(m: Message, tail: seq<Message>, valid: set<string>)
    requires ExpectedIds(m) == []
    ensures Regroup([m] + tail, valid) == [Settle(m, valid)] + Regroup(tail, valid)
  {
    assert ([m] + tail)[1..] == tail;
  }

  lemma NotAnswer(b: seq<Message>, ids: seq<string>)
    requires b == [] || !IsTool(b[0])
    ensures b != [] ==> !Answers(b[0], ids)
  {
  }

  lemma {:induction false} RegroupSplits(a: seq<Message>, b: seq<Message>, valid: set<string>)
    requires b == [] || !IsTool(b[0])
    ensures Regroup(a + b, valid) == Regroup(a, valid) + Regroup(b, valid)
    decreases |a|
  {
    hide ExpectedIds, Group, Settle, Regroup, Answers, RunLength;
    if a == [] {
      assert a + b == b;
      RegroupNone(valid);
    } else {
      var m, rest := a[0], a[1..];
      var ids := ExpectedIds(m);
      assert a == [m] + rest;
      if ids == [] {
        assert a + b == [m] + (rest + b);
        RegroupSplits(rest, b, valid);
        RegroupOne(m, rest, valid);
        RegroupOne(m, rest + b, valid);
      } else {
        var n := RunLength(rest, ids);
        var run, tail := rest[..n], rest[n..];
        RegroupSplits(tail, b, valid);
        assert a == [m] + run + tail;
        assert a + b == [m] + run + (tail + b);
        assert tail + b != [] ==> !Answers((tail + b)[0], ids) by {
          NotAnswer(b, ids);
        }
        RegroupParts(m, run, tail, valid);
        RegroupParts(m, run, tail + b, valid);
      }
    }
  }

  // ---------------------------------------------------------------- conservation

  /** Where the messages of a list go when it is sanitised. */
  datatype Ledger = Ledger(
    texts: seq<Message>,    // messages outside any group that are not tool messages
    callers: seq<Message>,  // call messages with all their results
    results: seq<Message>,  // results kept as tool messages
    lost: seq<Message>,     // call messages whose results are incomplete
    orphans: seq<Message>,  // results told as facts
    repeats: seq<Message>)  // results that repeat an id answered earlier in their run
  {
    function Add(other: Ledger): Ledger {
      Ledger(texts + other.texts, callers + other.callers, results + other.results,
             lost + other.lost, orphans + other.orphans, repeats + other.repeats)
    }

    function Received(): multiset<Message> {
      multiset(texts) + multiset(callers) + multiset(results)
      + multiset(lost) + multiset(orphans) + multiset(repeats)
    }

    function Emitted(): multiset<Message> {
      multiset(Filter(Useful, texts)) + multiset(callers) + multiset(results)
      + multiset(Downgrades(lost)) + multiset(OrphanFacts(orphans))
    }

    /** Each column holds the messages it is named after. */
    predicate Sorted() {
      && (forall m | m in texts :: !IsTool(m) && ExpectedIds(m) == [])
      && (forall m | m in callers :: ExpectedIds(m) != [])
      && (forall m | m in lost :: ExpectedIds(m) != [])
      && (forall m | m in results :: m.IsResult())
      && (forall m | m in orphans :: IsTool(m))
      && (forall m | m in repeats :: m.IsResult())
    }
  }

  function Downgrades(ms: seq<Message>): seq<Message> {
    if ms == [] then [] else Downgrade(ms[0]) + Downgrades(ms[1..])
  }

  function SingleLedger(m: Message, valid: set<string>): Ledger {
    if !IsTool(m) then Ledger([m], [], [], [], [], [])
    else if IsCurrentOutput(m, valid) then Ledger([], [], [m], [], [], [])
    else Ledger([], [], [], [], [m], [])
  }

  function GroupLedger(m: Message, run: seq<Message>): Ledger {
    var results, repeats := FirstResults(run, {}), RepeatedResults(run, {});
    if |results| == |ExpectedIds(m)| then Ledger([], [m], results, [], [], repeats)
    else Ledger([], [], [], [m], results, repeats)
  }

  function LedgerOf(ms: seq<Message>, valid: set<string>): Ledger
    decreases |ms|
  {
    if ms == [] then Ledger([], [], [], [], [], [])
    else
      var ids := ExpectedIds(ms[0]);
      if ids == [] then SingleLedger(ms[0], valid).Add(LedgerOf(ms[1..], valid))
      else
        var n := RunLength(ms[1..], ids);
        GroupLedger(ms[0], ms[1..][..n]).Add(LedgerOf(ms[1..][n..], valid))
  }

  /** Both sides of the ledger balance. */
  predicate Balanced(ledger: Ledger, ms: seq<Message>, out: seq<Message>) {
    multiset(ms) == ledger.Received() && multiset(out) == ledger.Emitted()
  }

  lemma {:induction false} DowngradesConcat(a: seq<Message>, b: seq<Message>)
    ensures Downgrades(a + b) == Downgrades(a) + Downgrades(b)
  {
    hide Downgrade;
    if a == [] {
      assert a + b == b;
    } else {
      var s := a + b;
      assert s[1..] == a[1..] + b;
      DowngradesConcat(a[1..], b);
    }
  }

  lemma EmittedAdd(a: Ledger, b: Ledger)
    ensures a.Add(b).Emitted() == a.Emitted() + b.Emitted()
  {
    hide Filter, Downgrades, OrphanFact;
    FilterConcat(Useful, a.texts, b.texts);
    DowngradesConcat(a.lost, b.lost);
    assert OrphanFacts(a.orphans + b.orphans) == OrphanFacts(a.orphans) + OrphanFacts(b.orphans);
  }

  lemma BalancedAdd(a: Ledger, ms1: seq<Message>, out1: seq<Message>, b: Ledger, ms2: seq<Message>, out2: seq<Message>)
    requires Balanced(a, ms1, out1) && Balanced(b, ms2, out2)
    ensures Balanced(a.Add(b), ms1 + ms2, out1 + out2)
  {
    hide Ledger.Emitted;
    EmittedAdd(a, b);
  }

  lemma {:induction false} RunPartition(run: seq<Message>, seen: set<string>)
    ensures multiset(run) == multiset(FirstResults(run, seen)) + multiset(RepeatedResults(run, seen))
  {
    if run != [] {
      var head, rest, id := run[0], run[1..], run[0].CallId();
      assert run == [head] + rest;
      assert multiset(run) == multiset{head} + multiset(rest);
      if id in seen {
        RunPartition(rest, seen);
        assert multiset([head] + RepeatedResults(rest, seen)) == multiset{head} + multiset(RepeatedResults(rest, seen));
      } else {
        RunPartition(rest, seen + {id});
        var first := FirstResults(rest, seen + {id});
        assert multiset([head] + first) == multiset{head} + multiset(first);
      }
    }
  }

  lemma SingleBalanced(m: Message, valid: set<string>)
    ensures Balanced(SingleLedger(m, valid), [m], Filter(Useful, [Settle(m, valid)]))
  {
    hide OrphanFact;
  }

  lemma CompleteBalanced(m: Message, run: seq<Message>)
    requires ExpectedIds(m) != [] && |FirstResults(run, {})| == |ExpectedIds(m)|
    requires forall i | 0 <= i < |run| :: Answers(run[i], ExpectedIds(m))
    ensures Balanced(GroupLedger(m, run), [m] + run, Filter(Useful, Group(m, run)))
  {
    hide ExpectedIds, FirstResults, RepeatedResults, TakeInOrder, ById, Filter, OrphanFact;
    var ids, results := ExpectedIds(m), FirstResults(run, {});
    NoCallsExpectNothing(m);
    CompleteGroup(run, ids);
    RunPartition(run, {});
    var o := TakeInOrder(ById(results), ids);
    FilterKeepsAll(Useful, [m] + o);
    FilterKeepsAll(Useful, []);
    assert Group(m, run) == [m] + o;
    hide Group, AnswersInOrder;
    assert OrphanFacts([]) == [];
    var ledger := GroupLedger(m, run);
    assert ledger.Emitted() == multiset{m} + multiset(results);
    assert ledger.Received() == multiset{m} + multiset(results) + multiset(RepeatedResults(run, {}));
  }

  lemma IncompleteBalanced(m: Message, run: seq<Message>)
    requires ExpectedIds(m) != [] && |FirstResults(run, {})| != |ExpectedIds(m)|
    ensures Balanced(GroupLedger(m, run), [m] + run, Filter(Useful, Group(m, run)))
  {
    hide ExpectedIds, FirstResults, RepeatedResults, OrphanFact, Filter;
    var results := FirstResults(run, {});
    RunPartition(run, {});
    NoCallsExpectNothing(m);
    assert Group(m, run) == Downgrade(m) + OrphanFacts(results);
    FilterKeepsAll(Useful, Group(m, run));
    FilterKeepsAll(Useful, []);
    hide Downgrade, OrphanFacts, Group;
    assert Downgrades([m]) == Downgrade(m) + [] == Downgrade(m);
    var ledger := GroupLedger(m, run);
    assert ledger.Emitted() == multiset(Downgrade(m)) + multiset(OrphanFacts(results));
    assert ledger.Received() == multiset{m} + multiset(results) + multiset(RepeatedResults(run, {}));
  }

  /** Every message received is in the ledger, and every message emitted comes from it: call
      messages are kept with all their results or downgraded, results are kept, told as facts or
      repeats, and all other useful messages are kept. */
  lemma {:induction false} SanitizeBalances(ms: seq<Message>, valid: set<string>)
    ensures Balanced(LedgerOf(ms, valid), ms, Sanitize(ms, valid))
    decreases |ms|
  {
    hide ExpectedIds, GroupLedger, SingleLedger, Group, Settle, Filter, Balanced, Regroup, Ledger.Add;
    if ms == [] {
      NothingBalanced(valid);
    } else {
      var m, rest := ms[0], ms[1..];
      assert ms == [m] + rest;
      var ids := ExpectedIds(m);
      if ids == [] {
        SanitizeBalances(rest, valid);
        SingleBalanced(m, valid);
        RegroupOne(m, rest, valid);
        FilterConcat(Useful, [Settle(m, valid)], Regroup(rest, valid));
        BalancedAdd(SingleLedger(m, valid), [m], Filter(Useful, [Settle(m, valid)]),
                    LedgerOf(rest, valid), rest, Sanitize(rest, valid));
      } else {
        var n := RunLength(rest, ids);
        var run, tail := rest[..n], rest[n..];
        assert ms == [m] + run + tail;
        SanitizeBalances(tail, valid);
        if |FirstResults(run, {})| == |ids| {
          CompleteBalanced(m, run);
        } else {
          IncompleteBalanced(m, run);
        }
        RegroupParts(m, run, tail, valid);
        FilterConcat(Useful, Group(m, run), Regroup(tail, valid));
        BalancedAdd(GroupLedger(m, run), [m] + run, Filter(Useful, Group(m, run)),
                    LedgerOf(tail, valid), tail, Sanitize(tail, valid));
      }
    }
  }

  lemma NothingBalanced(valid: set<string>)
    ensures Balanced(LedgerOf([], valid), [], Sanitize([], valid))
  {
    assert OrphanFacts([]) == [];
  }

  // ------------------------------------------------- what the ledger's columns hold

  /** The result at `j` repeats the id of the one at `i`, with only results between them. */
  predicate RepeatsAt(ms: seq<Message>, i: nat, j: nat)
    requires i < j < |ms|
  {
    ms[i].CallId() == ms[j].CallId() && forall k | i <= k <= j :: ms[k].IsResult()
  }

  lemma {:induction false} RepeatedResultAt(run: seq<Message>, seen: set<string>, r: Message) returns (i: nat, j: nat)
    requires r in RepeatedResults(run, seen)
    ensures j < |run| && run[j] == r
    ensures r.CallId() in seen || (i < j && run[i].CallId() == r.CallId())
  {
    var id := run[0].CallId();
    if id in seen && run[0] == r {
      i, j := 0, 0;
    } else {
      i, j := RepeatedResultAt(run[1..], if id in seen then seen else seen + {id}, r);
      if r.CallId() !in seen && r.CallId() == id {
        i, j := 0, j + 1;
      } else {
        i, j := i + 1, j + 1;
      }
    }
  }

  lemma LedgerOne(m: Message, tail: seq<Message>, valid: set<string>)
    requires ExpectedIds(m) == []
    ensures LedgerOf([m] + tail, valid) == SingleLedger(m, valid).Add(LedgerOf(tail, valid))
  {
    hide SingleLedger, ExpectedIds;
    assert ([m] + tail)[1..] == tail;
  }

  lemma LedgerParts(ms: seq<Message>, valid: set<string>) returns (m: Message, run: seq<Message>, tail: seq<Message>)
    requires ms != [] && ExpectedIds(ms[0]) != []
    ensures m == ms[0] && ms == [m] + run + tail
    ensures forall i | 0 <= i < |run| :: run[i].IsResult()
    ensures LedgerOf(ms, valid) == GroupLedger(m, run).Add(LedgerOf(tail, valid))
  {
    hide GroupLedger, ExpectedIds;
    var n := RunLength(ms[1..], ExpectedIds(ms[0]));
    m, run, tail := ms[0], ms[1..][..n], ms[1..][n..];
  }

  /** A result counted as a repeat follows, within one run of results, another with its id. */
  lemma {:induction false} RepeatHasFirst(ms: seq<Message>, valid: set<string>, r: Message) returns (i: nat, j: nat)
    requires r in LedgerOf(ms, valid).repeats
    ensures i < j < |ms| && ms[j] == r && RepeatsAt(ms, i, j)
    decreases |ms|
  {
    hide ExpectedIds, RepeatedResults, FirstResults, RepeatsAt, LedgerOf;
    if ms == [] {
      assert LedgerOf(ms, valid) == Ledger([], [], [], [], [], []) by {
        NothingLedger(valid);
      }
    } else if ExpectedIds(ms[0]) == [] {
      var rest := ms[1..];
      assert ms == [ms[0]] + rest;
      LedgerOne(ms[0], rest, valid);
      i, j := RepeatHasFirst(rest, valid, r);
      RepeatsShift([ms[0]], rest, i, j);
      i, j := i + 1, j + 1;
    } else {
      var m, run, tail := LedgerParts(ms, valid);
      if r in RepeatedResults(run, {}) {
        i, j := RepeatedResultAt(run, {}, r);
        RepeatsInRun(m, run, tail, i, j);
        i, j := i + 1, j + 1;
      } else {
        i, j := RepeatHasFirst(tail, valid, r);
        RepeatsShift([m] + run, tail, i, j);
        i, j := 1 + |run| + i, 1 + |run| + j;
      }
    }
  }

  lemma NothingLedger(valid: set<string>)
    ensures LedgerOf([], valid) == Ledger([], [], [], [], [], [])
  {
  }

  lemma RepeatsShift(front: seq<Message>, tail: seq<Message>, i: nat, j: nat)
    requires i < j < |tail| && RepeatsAt(tail, i, j)
    ensures RepeatsAt(front + tail, |front| + i, |front| + j)
  {
    forall k | |front| + i <= k <= |front| + j
      ensures (front + tail)[k].IsResult()
    {
      assert (front + tail)[k] == tail[k - |front|];
    }
  }

  lemma RepeatsInRun(m: Message, run: seq<Message>, tail: seq<Message>, i: nat, j: nat)
    requires forall k | 0 <= k < |run| :: run[k].IsResult()
    requires i < j < |run| && run[i].CallId() == run[j].CallId()
    ensures RepeatsAt([m] + run + tail, i + 1, j + 1)
  {
    var ms := [m] + run + tail;
    assert forall k | 1 <= k <= |run| :: ms[k] == run[k - 1];
  }

  lemma {:induction false} LedgerSorted(ms: seq<Message>, valid: set<string>)
    ensures LedgerOf(ms, valid).Sorted()
    decreases |ms|
  {
    hide ExpectedIds, RepeatedResults, FirstResults, LedgerOf;
    if ms == [] {
      NothingLedger(valid);
    } else if ExpectedIds(ms[0]) == [] {
      var rest := ms[1..];
      assert ms == [ms[0]] + rest;
      LedgerOne(ms[0], rest, valid);
      LedgerSorted(rest, valid);
    } else {
      var m, run, tail := LedgerParts(ms, valid);
      LedgerSorted(tail, valid);
      RunPartition(run, {});
      forall x | x in FirstResults(run, {}) || x in RepeatedResults(run, {})
        ensures x.IsResult()
      {
        assert x in multiset(run);
      }
    }
  }

  /** For each tool message, how often it is kept, told or repeated; and each one told is in the
      output as a fact. */
  lemma ToolMessageFate(ms: seq<Message>, valid: set<string>, t: Message)
    requires IsTool(t)
    ensures var ledger := LedgerOf(ms, valid);
            && multiset(ms)[t]
               == multiset(ledger.results)[t] + multiset(ledger.orphans)[t] + multiset(ledger.repeats)[t]
            && multiset(Sanitize(ms, valid))[t] == multiset(ledger.results)[t]
            && (t in ledger.orphans ==> exists fact | fact in Sanitize(ms, valid) :: TellsResult(fact, t))
            && (t in ledger.orphans ==> OrphanFact(t) in Sanitize(ms, valid))
  {
    hide ExpectedIds, LedgerOf, Filter, Sanitize, OrphanFact, TellsResult;
    OrphanTells(t);
    var ledger, out := LedgerOf(ms, valid), Sanitize(ms, valid);
    SanitizeBalances(ms, valid);
    LedgerSorted(ms, valid);
    NoCallsExpectNothing(t);
    FilterMember(Useful, ledger.texts, t);
    DowngradesNoTool(ledger.lost);
    assert t !in OrphanFacts(ledger.orphans);
    if t in ledger.orphans {
      var k :| 0 <= k < |ledger.orphans| && ledger.orphans[k] == t;
      assert OrphanFacts(ledger.orphans)[k] == OrphanFact(t);
      assert OrphanFact(t) in multiset(out);
    }
  }

  lemma {:induction false} DowngradesNoTool(ms: seq<Message>)
    requires forall m | m in ms :: ExpectedIds(m) != []
    ensures forall m | m in Downgrades(ms) :: m.role == Assistant && m.toolCalls.None?
  {
    hide ExpectedIds;
    if ms != [] {
      NoCallsExpectNothing(ms[0]);
      DowngradesNoTool(ms[1..]);
    }
  }

  predicate IsCallMessage(m: Message) {
    ExpectedIds(m) != []
  }

  /** The call messages of the output come from the input, occurrence by occurrence. */
  lemma CallMessagesKept(ms: seq<Message>, valid: set<string>, m: Message)
    requires IsCallMessage(m)
    ensures multiset(Sanitize(ms, valid))[m] <= multiset(ms)[m]
  {
    hide ExpectedIds, LedgerOf, Filter, Sanitize, OrphanFact;
    var ledger := LedgerOf(ms, valid);
    SanitizeBalances(ms, valid);
    LedgerSorted(ms, valid);
    NoCallsExpectNothing(m);
    FilterMember(Useful, ledger.texts, m);
    DowngradesNoTool(ledger.lost);
    assert m !in OrphanFacts(ledger.orphans);
  }

  lemma OneAnswerCanonical(caller: Message, answer: Message, valid: set<string>)
    requires ExpectedIds(caller) == [answer.CallId()] && answer.IsResult()
    ensures Canonical([caller, answer], valid)
  {
    hide ExpectedIds;
    var ms := [caller, answer];
    assert ms[1..] == [answer] && ms[1..][1..] == [];
  }

  lemma BlankDropped(blank: Message, answer: Message, valid: set<string>)
    requires blank == TextMessage(User, "") && answer.IsResult() && answer.CallId() in valid
    ensures Sanitize([blank, answer], valid) == [answer]
  {
    NoCallsExpectNothing(answer);
    assert [blank, answer] == [blank] + [answer] && [answer] == [answer] + [];
    RegroupOne(blank, [answer], valid);
    RegroupOne(answer, [], valid);
    RegroupNone(valid);
    assert Regroup([blank, answer], valid) == [blank] + [answer];
    FilterConcat(Useful, [blank], [answer]);
    FilterDropsAll(Useful, [blank]);
    FilterKeepsAll(Useful, [answer]);
  }

  /** With an outside id in play a second pass can still change the list: here the blank message
      that kept the second answer apart is gone after the first pass. */
  lemma SecondPassCanDiffer()
    ensures exists ms, valid :: Sanitize(Sanitize(ms, valid), valid) != Sanitize(ms, valid)
  {
    hide Sanitize, Regroup, Canonical;
    var calls := [ToolCall(Some("a"), "f", "{}")];
    var caller := Message(Assistant, "", Some(calls), None, Some(""));
    var answer, blank := ToolResult("a", "x"), TextMessage(User, "");
    var valid := {"a"};
    assert ExpectedIds(caller) == ["a"] by {
      assert !IsWhitespace("a"[0]);
      assert CallIds(calls[1..]) == [];
    }
    OneAnswerCanonical(caller, answer, valid);
    SanitizeFixedIffCanonical([caller, answer], valid);
    SanitizeSplits([caller, answer], [blank, answer], valid);
    BlankDropped(blank, answer, valid);
    assert TrailingAnswer([caller, answer] + [answer], 0);
    SanitizeTwice([caller, answer] + [blank, answer], valid);
  }
}
