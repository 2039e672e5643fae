/** Exactly which call messages the sanitiser keeps. */
module ChatCalls {
  import opened Wrappers
  import opened Seqs
  import opened Chat
  import opened ChatProtocol

  function Ids(run: seq<Message>): set<string> {
    set m | m in run :: m.CallId()
  }

  /** The ids answered in the results that directly follow a call message. */
  function AnsweredIds(rest: seq<Message>, ids: seq<string>): set<string> {
    Ids(rest[..RunLength(rest, ids)])
  }

  /** The calls of `m` have distinct ids, and each is answered in the results that directly follow. */
  predicate IsComplete(m: Message, rest: seq<Message>) {
    var ids := ExpectedIds(m);
    ids != [] && Distinct(ids) && Elements(ids) <= AnsweredIds(rest, ids)
  }

  // --------------------------------------------------------------- one group

  /** The first results of a run answer every id the run answers. */
  lemma {:induction false} FirstResultsCover(run: seq<Message>, seen: set<string>)
    ensures Ids(FirstResults(run, seen)) == Ids(run) - seen
  {
    if run != [] {
      var id, rest := run[0].CallId(), run[1..];
      assert run == [run[0]] + rest;
      IdsOneMore(run[0], rest);
      if id in seen {
        FirstResultsCover(rest, seen);
      } else {
        FirstResultsCover(rest, seen + {id});
        IdsOneMore(run[0], FirstResults(rest, seen + {id}));
      }
    }
  }

  lemma IdsOneMore(m: Message, rest: seq<Message>)
    ensures Ids([m] + rest) == {m.CallId()} + Ids(rest)
  {
    var all := [m] + rest;
    assert forall x :: x in all <==> x == m || x in rest;
  }

  function IdSeq(ms: seq<Message>): seq<string> {
    seq(|ms|, i requires 0 <= i < |ms| => ms[i].CallId())
  }

  lemma DistinctIdsCount(results: seq<Message>)
    requires DistinctIds(results)
    ensures |Ids(results)| == |results|
  {
    var ids := IdSeq(results);
    assert Elements(ids) == Ids(results) by {
      assert forall i | 0 <= i < |results| :: ids[i] == results[i].CallId() && results[i] in results;
      assert forall x | x in Ids(results) :: x in ids by {
        forall x | x in Ids(results)
          ensures x in ids
        {
          var m :| m in results && m.CallId() == x;
          var i :| 0 <= i < |results| && results[i] == m;
          assert ids[i] == x;
        }
      }
    }
    DistinctCardinality(ids);
  }

  /** A group is complete exactly when its ids are distinct and the run answers each of them. */
  lemma CompleteExactly(run: seq<Message>, ids: seq<string>)
    requires forall i | 0 <= i < |run| :: Answers(run[i], ids)
    ensures |FirstResults(run, {})| == |ids| <==> Distinct(ids) && Elements(ids) <= Ids(run)
  {
    var results := FirstResults(run, {});
    FirstResultsCover(run, {});
    FirstResultsDistinct(run, {});
    DistinctIdsCount(results);
    DistinctCardinality(ids);
    SubsetCardinality(Ids(run), Elements(ids));
    assert Elements(ids) <= Ids(run) ==> Ids(run) == Elements(ids);
    if |results| == |ids| {
      CompleteGroup(run, ids);
    }
  }

  // --------------------------------------------------------------- whole lists

  /** The call messages that are complete where they stand, in order. */
  function CompleteCalls(ms: seq<Message>): seq<Message> {
    if ms == [] then []
    else if IsComplete(ms[0], ms[1..]) then [ms[0]] + CompleteCalls(ms[1..])
    else CompleteCalls(ms[1..])
  }

  lemma SkipPlain(m: Message, rest: seq<Message>)
    requires ExpectedIds(m) == []
    ensures CompleteCalls([m] + rest) == CompleteCalls(rest)
  {
    hide ExpectedIds, AnsweredIds;
    var all := [m] + rest;
    assert all[1..] == rest;
  }

  /** Messages that make no calls do not matter, tool messages among them. */
  lemma {:induction false} SkipAll(plain: seq<Message>, rest: seq<Message>)
    requires forall i | 0 <= i < |plain| :: ExpectedIds(plain[i]) == []
    ensures CompleteCalls(plain + rest) == CompleteCalls(rest)
    decreases |plain|
  {
    hide ExpectedIds, CompleteCalls;
    if plain == [] {
      assert plain + rest == rest;
    } else {
      assert plain + rest == [plain[0]] + (plain[1..] + rest);
      SkipPlain(plain[0], plain[1..] + rest);
      SkipAll(plain[1..], rest);
    }
  }

  lemma {:induction false} NoCallMessages(ms: seq<Message>)
    requires forall i | 0 <= i < |ms| :: !IsCallMessage(ms[i])
    ensures Filter(IsCallMessage, ms) == []
  {
    hide IsCallMessage;
    if ms != [] {
      NoCallMessages(ms[1..]);
    }
  }

  /** What is left of the call message of a group. */
  lemma GroupCalls(m: Message, run: seq<Message>)
    requires ExpectedIds(m) != [] && forall i | 0 <= i < |run| :: Answers(run[i], ExpectedIds(m))
    ensures Filter(IsCallMessage, Group(m, run))
            == if Distinct(ExpectedIds(m)) && Elements(ExpectedIds(m)) <= Ids(run) then [m] else []
  {
    hide Downgrade, FirstResults, Ids;
    var ids, results := ExpectedIds(m), FirstResults(run, {});
    CompleteExactly(run, ids);
    GroupCases(m, run);
    if |results| == |ids| {
      CompleteGroup(run, ids);
      var o := TakeInOrder(ById(results), ids);
      NoCallMessages(o);
      FilterConcat(IsCallMessage, [m], o);
      FilterKeepsAll(IsCallMessage, [m]);
    } else {
      DowngradePlain(m);
      NoCallMessages(Downgrade(m) + OrphanFacts(results));
    }
  }

  lemma DowngradePlain(m: Message)
    ensures forall i | 0 <= i < |Downgrade(m)| :: !IsCallMessage(Downgrade(m)[i])
  {
  }

  lemma CompleteOne(m: Message, rest: seq<Message>)
    ensures CompleteCalls([m] + rest)
            == if IsComplete(m, rest) then [m] + CompleteCalls(rest) else CompleteCalls(rest)
  {
    hide IsComplete;
    var all := [m] + rest;
    assert all[1..] == rest && all[0] == m;
  }

  lemma AnsweredIs(run: seq<Message>, tail: seq<Message>, ids: seq<string>)
    requires forall i | 0 <= i < |run| :: Answers(run[i], ids)
    requires tail != [] ==> !Answers(tail[0], ids)
    ensures AnsweredIds(run + tail, ids) == Ids(run)
  {
    hide Answers, RunLength, Ids;
    RunIs(run, tail, ids);
  }

  lemma CompleteParts(m: Message, run: seq<Message>, tail: seq<Message>)
    requires ExpectedIds(m) != [] && forall i | 0 <= i < |run| :: Answers(run[i], ExpectedIds(m))
    requires tail != [] ==> !Answers(tail[0], ExpectedIds(m))
    ensures IsComplete(m, run + tail) <==> Distinct(ExpectedIds(m)) && Elements(ExpectedIds(m)) <= Ids(run)
    ensures CompleteCalls([m] + run + tail)
            == if IsComplete(m, run + tail) then [m] + CompleteCalls(tail) else CompleteCalls(tail)
  {
    hide ExpectedIds, Ids, AnsweredIds, Answers, CompleteCalls, Elements;
    AnsweredIs(run, tail, ExpectedIds(m));
    assert [m] + run + tail == [m] + (run + tail);
    CompleteOne(m, run + tail);
    ResultsExpectNothing(run, ExpectedIds(m));
    SkipAll(run, tail);
  }

  lemma ResultsExpectNothing(run: seq<Message>, ids: seq<string>)
    requires forall i | 0 <= i < |run| :: Answers(run[i], ids)
    ensures forall i | 0 <= i < |run| :: ExpectedIds(run[i]) == []
  {
  }

  /** The sanitiser keeps exactly the complete call messages, in order and unchanged. */
  lemma CallMessagesExactly(ms: seq<Message>, valid: set<string>)
    ensures Filter(IsCallMessage, Sanitize(ms, valid)) == CompleteCalls(ms)
  {
    hide Sanitize, Regroup, IsCallMessage, Filter, CompleteCalls;
    RegroupedCalls(ms, valid);
    assert Filter(IsCallMessage, Sanitize(ms, valid)) == Filter(IsCallMessage, Regroup(ms, valid)) by {
      UsefulCalls(Regroup(ms, valid));
      SanitizeIs(ms, valid);
    }
  }

  lemma SanitizeIs(ms: seq<Message>, valid: set<string>)
    ensures Sanitize(ms, valid) == Filter(Useful, Regroup(ms, valid))
  {
    hide Filter, Regroup;
  }

  lemma UsefulCalls(ms: seq<Message>)
    ensures Filter(IsCallMessage, Filter(Useful, ms)) == Filter(IsCallMessage, ms)
  {
    forall m | m in ms && IsCallMessage(m)
      ensures Useful(m)
    {
      NoCallsExpectNothing(m);
    }
    FilterFilter(Useful, IsCallMessage, ms);
  }

  lemma {:induction false} RegroupedCalls(ms: seq<Message>, valid: set<string>)
    ensures Filter(IsCallMessage, Regroup(ms, valid)) == CompleteCalls(ms)
    decreases |ms|
  {
    hide Regroup, Filter, CompleteCalls, ExpectedIds, Group, Settle, IsComplete, Ids, Answers;
    if ms == [] {
      RegroupNone(valid);
      NoCallMessages([]);
      NothingComplete();
    } else {
      var m, ids := ms[0], ExpectedIds(ms[0]);
      if ids == [] {
        var rest := ms[1..];
        assert ms == [m] + rest;
        RegroupOne(m, rest, valid);
        RegroupedCalls(rest, valid);
        SettleExpectsNothing(m, valid);
        NoCallMessages([Settle(m, valid)]);
        FilterConcat(IsCallMessage, [Settle(m, valid)], Regroup(rest, valid));
        SkipPlain(m, rest);
        assert [] + CompleteCalls(rest) == CompleteCalls(rest);
      } else {
        var n := RunLength(ms[1..], ids);
        var run, tail := ms[1..][..n], ms[1..][n..];
        assert ms == [m] + run + tail;
        RegroupParts(m, run, tail, valid);
        RegroupedCalls(tail, valid);
        GroupCalls(m, run);
        CompleteParts(m, run, tail);
        FilterConcat(IsCallMessage, Group(m, run), Regroup(tail, valid));
        assert [] + CompleteCalls(tail) == CompleteCalls(tail);
      }
    }
  }

  lemma NothingComplete()
    ensures CompleteCalls([]) == []
  {
  }

  /** By membership: a call message is kept exactly when it stands somewhere complete. */
  lemma {:induction false} CompleteCallsAt(ms: seq<Message>, m: Message)
    ensures m in CompleteCalls(ms) <==> exists i | 0 <= i < |ms| :: ms[i] == m && IsComplete(m, ms[i + 1..])
  {
    hide IsComplete;
    if ms != [] {
      CompleteCallsAt(ms[1..], m);
      assert forall i | 1 <= i < |ms| :: ms[i] == ms[1..][i - 1] && ms[i + 1..] == ms[1..][i..];
    }
  }
}
