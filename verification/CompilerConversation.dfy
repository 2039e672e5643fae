/** Everything said in the input is said in the compiled messages, in the same order. */
module CompilerConversation {
  import opened Wrappers
  import opened Json
  import opened Text
  import opened Seqs
  import opened Chat
  import opened ChatProtocol
  import opened Compiler
  import opened CompilerSafety
  import opened CompilerConservation

  /** Something said: by whom and what. */
  datatype Utterance = Utterance(role: Role, text: string)

  function Spoken(m: Message): seq<Utterance> {
    if IsTool(m) || Blank(m.content) then [] else [Utterance(m.role, m.content)]
  }

  function Conversation(ms: seq<Message>): seq<Utterance> {
    if ms == [] then [] else Spoken(ms[0]) + Conversation(ms[1..])
  }

  lemma {:induction false} ConversationConcat(a: seq<Message>, b: seq<Message>)
    ensures Conversation(a + b) == Conversation(a) + Conversation(b)
  {
    hide Spoken;
    if a == [] {
      assert a + b == b;
    } else {
      var s := a + b;
      assert s[1..] == a[1..] + b;
      ConversationConcat(a[1..], b);
    }
  }

  lemma ConversationOne(m: Message)
    ensures Conversation([m]) == Spoken(m)
  {
    hide Spoken;
    assert [m][1..] == [];
    assert Spoken(m) + [] == Spoken(m);
  }

  // ---------------------------------------------------- from items to messages

  /** The names of the calls read among the first `k` items. */
  function CalledNames(env: Env, items: seq<Json>, k: nat): map<string, string>
    requires k <= |items|
  {
    if k == 0 then map[]
    else
      match ReadAt(env, items, k - 1)
      case Call(call) =>
        if call.id.Some? && !Blank(call.name) then CalledNames(env, items, k - 1)[call.id.value := call.name]
        else CalledNames(env, items, k - 1)
      case _ => CalledNames(env, items, k - 1)
  }

  /** What item `k` says. */
  function SaidAt(env: Env, items: seq<Json>, k: nat): seq<Utterance>
    requires k < |items|
  {
    match ReadAt(env, items, k)
    case Compaction(m) => Spoken(m)
    case Said(m) => Spoken(m)
    case ResultOf(m) =>
      (match ResultFact(env, CalledNames(env, items, k), items[k], m)
       case Some(fact) => Spoken(UserMessage(fact))
       case None => [])
    case _ => []
  }

  function SaidBy(env: Env, items: seq<Json>, k: nat): seq<Utterance>
    requires k <= |items|
  {
    if k == 0 then [] else SaidBy(env, items, k - 1) + SaidAt(env, items, k - 1)
  }

  predicate Echoes(env: Env, items: seq<Json>, k: nat, st: State)
    requires k <= |items|
  {
    && st.seenNames == CalledNames(env, items, k)
    && Conversation(Flushed(st)) == SaidBy(env, items, k)
  }

  lemma PendingSpoken(p: Pending)
    ensures Conversation(PendingMessages(p)) == if Blank(p.content) then [] else [Utterance(Assistant, p.content)]
  {
    hide Blank;
    if PendingMessages(p) != [] {
      var m := PendingMessages(p)[0];
      assert PendingMessages(p) == [m];
      ConversationOne(m);
    }
  }

  lemma FlushedSpoken(st: State)
    ensures Conversation(Flushed(st))
            == Conversation(st.messages)
               + if Blank(st.pending.content) then [] else [Utterance(Assistant, st.pending.content)]
  {
    hide PendingMessages, Conversation;
    ConversationConcat(st.messages, PendingMessages(st.pending));
    PendingSpoken(st.pending);
  }

  lemma AfterFlushSilent(p: Pending)
    ensures Blank(AfterFlush(p).content)
  {
  }

  /** Flushing and pushing messages appends what they say. */
  lemma PushSpoken(st: State, next: State, extra: seq<Message>)
    requires next.messages == Flushed(st) + extra && Blank(next.pending.content)
    ensures Conversation(Flushed(next)) == Conversation(Flushed(st)) + Conversation(extra)
  {
    hide Conversation, Flushed, Blank;
    FlushedSpoken(next);
    ConversationConcat(Flushed(st), extra);
    var c := Conversation(Flushed(st)) + Conversation(extra);
    assert c + [] == c;
  }

  lemma StepEchoes(env: Env, items: seq<Json>, k: nat, st: State)
    requires k < |items| && Tracks(env, items, k, st) && Echoes(env, items, k, st)
    ensures Echoes(env, items, k + 1, Step(env, st, items[k]))
  {
    hide Tracks, Read, Conversation, Flushed, ResultFact, JoinNonempty, Blank, UserMessage, AfterFlush, Spoken,
      CalledIds;
    assert st.seenIds == CalledIds(env, items, k) by {
      TracksSeen(env, items, k, st);
    }
    var reading := Read(env, st.seenIds, items[k]);
    assert reading == ReadAt(env, items, k);
    var next := Step(env, st, items[k]);
    var before := SaidBy(env, items, k);
    AfterFlushSilent(st.pending);
    SilentNothing();
    assert before + [] == before;
    assert Flushed(st) + [] == Flushed(st);
    match reading {
      case Reasoning(_) =>
        FlushedSpoken(st);
        FlushedSpoken(next);
      case Call(_) =>
        FlushedSpoken(st);
        FlushedSpoken(next);
      case ResultOf(m) =>
        ReadWellFormed(env, st.seenIds, items[k]);
        ConversationOne(m);
        ToolSilent(m);
        var fact := ResultFact(env, st.seenNames, items[k], m);
        if fact.Some? {
          var user := UserMessage(fact.value);
          ConversationOne(user);
          ConversationConcat([m], [user]);
          assert [] + Spoken(user) == Spoken(user);
          assert next.messages == Flushed(st) + ([m] + [user]);
          PushSpoken(st, next, [m] + [user]);
        } else {
          PushSpoken(st, next, [m]);
        }
      case Compaction(m) =>
        ConversationOne(m);
        PushSpoken(st, next, [m]);
      case Said(m) =>
        SaidIsNotTool(env, st.seenIds, items[k]);
        if m.role == Assistant {
          FlushedSpoken(next);
          AssistantSpoken(m);
        } else {
          ConversationOne(m);
          PushSpoken(st, next, [m]);
        }
      case _ =>
        PushSpoken(st, next, []);
    }
  }

  lemma AssistantSpoken(m: Message)
    requires m.role == Assistant
    ensures Spoken(m) == if Blank(m.content) then [] else [Utterance(Assistant, m.content)]
  {
  }

  lemma ToolSilent(m: Message)
    requires IsTool(m)
    ensures Spoken(m) == []
  {
  }

  lemma SilentNothing()
    ensures Conversation([]) == []
  {
  }

  lemma {:induction false} RunEchoes(env: Env, items: seq<Json>, k: nat, st: State)
    requires k <= |items| && Tracks(env, items, k, st) && Echoes(env, items, k, st)
    ensures Echoes(env, items, |items|, Run(env, st, items[k..]))
    decreases |items| - k
  {
    hide Tracks, Echoes, Step;
    if k < |items| {
      StepTracks(env, items, k, st);
      StepEchoes(env, items, k, st);
      RunStep(env, st, items, k);
      RunEchoes(env, items, k + 1, Step(env, st, items[k]));
    } else {
      RunNone(env, st, items);
    }
  }

  // ------------------------------------------------------------ through the sanitiser

  /** `a` can be read off `b` by skipping elements. */
  predicate Subsequence<T(==)>(a: seq<T>, b: seq<T>)
    decreases |b|
  {
    a == [] || (b != [] && ((a[0] == b[0] && Subsequence(a[1..], b[1..])) || Subsequence(a, b[1..])))
  }

  lemma {:induction false} SubsequenceJoin<T>(a: seq<T>, b: seq<T>, c: seq<T>, d: seq<T>)
    requires Subsequence(a, b) && Subsequence(c, d)
    ensures Subsequence(a + c, b + d)
    decreases |b|
  {
    var x, y := a + c, b + d;
    if b == [] {
      assert x == c && y == d;
    } else {
      assert y[1..] == b[1..] + d;
      if a == [] {
        SubsequenceJoin(a, b[1..], c, d);
      } else if a[0] == b[0] && Subsequence(a[1..], b[1..]) {
        assert x[1..] == a[1..] + c;
        SubsequenceJoin(a[1..], b[1..], c, d);
      } else {
        SubsequenceJoin(a, b[1..], c, d);
      }
    }
  }

  lemma {:induction false} SubsequenceSelf<T>(a: seq<T>)
    ensures Subsequence(a, a)
  {
    if a != [] {
      SubsequenceSelf(a[1..]);
    }
  }

  lemma {:induction false} UsefulSpoken(ms: seq<Message>)
    ensures Conversation(Filter(Useful, ms)) == Conversation(ms)
  {
    hide Blank;
    if ms != [] {
      UsefulSpoken(ms[1..]);
      var kept := Filter(Useful, ms);
      if Useful(ms[0]) {
        assert kept[1..] == Filter(Useful, ms[1..]);
      } else {
        assert Spoken(ms[0]) == [];
      }
    }
  }

  lemma {:induction false} ResultsSilent(ms: seq<Message>)
    requires forall i | 0 <= i < |ms| :: IsTool(ms[i])
    ensures Conversation(ms) == []
  {
    if ms != [] {
      ResultsSilent(ms[1..]);
      ToolSilent(ms[0]);
    }
  }

  lemma DowngradeSpeaks(m: Message)
    requires m.role == Assistant
    ensures Subsequence(Spoken(m), Conversation(Downgrade(m)))
  {
    hide Blank;
    if Downgrade(m) != [] {
      var d := Downgrade(m)[0];
      assert Downgrade(m) == [d];
      ConversationOne(d);
      SubsequenceSelf(Spoken(m));
    }
  }

  /** A group says at least what its call message says. */
  lemma GroupSpeaks(m: Message, run: seq<Message>)
    requires ExpectedIds(m) != []
    requires forall i | 0 <= i < |run| :: Answers(run[i], ExpectedIds(m))
    ensures Subsequence(Conversation([m] + run), Conversation(Group(m, run)))
  {
    hide ExpectedIds, FirstResults, ById, TakeInOrder, OrphanFact, Conversation, Spoken, Subsequence;
    var ids, results := ExpectedIds(m), FirstResults(run, {});
    NoCallsExpectNothing(m);
    ConversationConcat([m], run);
    ConversationOne(m);
    ResultsSilent(run);
    assert Spoken(m) + [] == Spoken(m);
    if |results| == |ids| {
      CompleteGroup(run, ids);
      var o := TakeInOrder(ById(results), ids);
      ResultsSilent(o);
      ConversationConcat([m], o);
      SubsequenceSelf(Spoken(m));
    } else {
      ConversationConcat(Downgrade(m), OrphanFacts(results));
      DowngradeSpeaks(m);
      NothingBefore(Conversation(OrphanFacts(results)));
      SubsequenceJoin(Spoken(m), Conversation(Downgrade(m)), [], Conversation(OrphanFacts(results)));
    }
  }

  lemma NothingBefore<T>(b: seq<T>)
    ensures Subsequence([], b)
  {
  }

  lemma SettleSpeaks(m: Message, valid: set<string>)
    ensures Subsequence(Spoken(m), Conversation([Settle(m, valid)]))
  {
    hide OrphanFact, Blank;
    ConversationOne(Settle(m, valid));
    if IsTool(m) {
      ToolSilent(m);
    } else {
      SubsequenceSelf(Spoken(m));
    }
  }

  lemma {:induction false} RegroupSpeaks(ms: seq<Message>, valid: set<string>)
    ensures Subsequence(Conversation(ms), Conversation(Regroup(ms, valid)))
    decreases |ms|
  {
    hide ExpectedIds, Group, Settle, Regroup, Conversation, Spoken, Subsequence;
    if ms == [] {
      RegroupNone(valid);
      SubsequenceSelf(Conversation(ms));
    } else {
      var m, rest := ms[0], ms[1..];
      var ids := ExpectedIds(m);
      assert ms == [m] + rest;
      if ids == [] {
        RegroupSpeaks(rest, valid);
        RegroupOne(m, rest, valid);
        SettleSpeaks(m, valid);
        ConversationOne(m);
        ConversationConcat([m], rest);
        ConversationConcat([Settle(m, valid)], Regroup(rest, valid));
        SubsequenceJoin(Spoken(m), Conversation([Settle(m, valid)]),
                        Conversation(rest), Conversation(Regroup(rest, valid)));
      } else {
        var n := RunLength(rest, ids);
        var run, tail := rest[..n], rest[n..];
        assert ms == [m] + run + tail;
        RegroupSpeaks(tail, valid);
        RegroupParts(m, run, tail, valid);
        GroupSpeaks(m, run);
        ConversationConcat([m] + run, tail);
        ConversationConcat(Group(m, run), Regroup(tail, valid));
        SubsequenceJoin(Conversation([m] + run), Conversation(Group(m, run)),
                        Conversation(tail), Conversation(Regroup(tail, valid)));
      }
    }
  }

  /** Sanitising may add orphan facts, but everything said stays said, in order. */
  lemma SanitizeSpeaks(ms: seq<Message>, valid: set<string>)
    ensures Subsequence(Conversation(ms), Conversation(Sanitize(ms, valid)))
  {
    hide Regroup, Filter, Conversation, Subsequence;
    RegroupSpeaks(ms, valid);
    UsefulSpoken(Regroup(ms, valid));
  }

  /** Whatever the items, everything said in them is said in the compiled messages, in order. */
  lemma ConversationSurvives(codec: Codec, items: seq<Json>, valid: set<string>)
    ensures Subsequence(SaidBy(EnvOf(codec, items, valid), items, |items|),
                        Conversation(CompileItems(codec, items, valid).messages))
  {
    hide Run, Sanitize, Conversation, Subsequence, SaidBy, CalledNames, ResolvedIds, Tracks, Flushed, FactsMessage,
      CompileItems;
    var env := EnvOf(codec, items, valid);
    var st := Run(env, Start(items), items);
    StartEchoes(env, items);
    assert items[0..] == items;
    RunEchoes(env, items, 0, Start(items));
    var front := if st.facts == [] then [] else [FactsMessage(st.facts, st.diagnostic.truncatedItems)];
    ConversationConcat(front, Flushed(st));
    NothingBefore(Conversation(front));
    var said := Conversation(Flushed(st));
    SubsequenceSelf(said);
    SubsequenceJoin([], Conversation(front), said, said);
    assert [] + said == said;
    SanitizeSpeaks(Assembled(st), valid);
    SubsequenceTransitive(said, Conversation(Assembled(st)), Conversation(Sanitize(Assembled(st), valid)));
    CompiledOr(codec, items, valid);
    if Sanitize(Assembled(st), valid) == [] {
      SilentNothing();
      OnlyNothing(said);
      NothingBefore(Conversation(CompileItems(codec, items, valid).messages));
    }
  }

  lemma OnlyNothing<T>(a: seq<T>)
    requires Subsequence(a, [])
    ensures a == []
  {
  }

  lemma StartEchoes(env: Env, items: seq<Json>)
    ensures Tracks(env, items, 0, Start(items)) && Echoes(env, items, 0, Start(items))
  {
    hide ItemToolCall;
    assert CalledIds(env, items, 0) == {};
  }

  lemma {:induction false} SubsequenceTransitive<T>(a: seq<T>, b: seq<T>, c: seq<T>)
    requires Subsequence(a, b) && Subsequence(b, c)
    ensures Subsequence(a, c)
    decreases |c|
  {
    if a != [] {
      if b[0] == c[0] && Subsequence(b[1..], c[1..]) {
        if a[0] == b[0] && Subsequence(a[1..], b[1..]) {
          SubsequenceTransitive(a[1..], b[1..], c[1..]);
        } else {
          SubsequenceTransitive(a, b[1..], c[1..]);
        }
      } else {
        SubsequenceTransitive(a, b, c[1..]);
      }
    }
  }
}
