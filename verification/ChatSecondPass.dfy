/** Exactly which message lists a second pass of the sanitiser changes again. */
module ChatSecondPass {
  import opened Wrappers
  import opened Seqs
  import opened Chat
  import opened ChatProtocol
  import opened ChatCalls

  // --------------------------------------------------------- told from the list

  /** Message `k` leaves nothing behind: a useless message, or a call message without text and
      reasoning that nothing answers. */
  predicate Fades(ms: seq<Message>, k: nat)
    requires k < |ms|
  {
    var m, ids := ms[k], ExpectedIds(ms[k]);
    !IsTool(m)
    && if ids == [] then !Useful(m)
       else Downgrade(m) == [] && (k + 1 < |ms| ==> !Answers(ms[k + 1], ids))
  }

  /** Everything in front of message `j` fades, and `j` answers one of the ids with a valid id. */
  predicate SurfacesAt(ms: seq<Message>, ids: seq<string>, valid: set<string>, j: nat) {
    j < |ms| && Answers(ms[j], ids) && ms[j].CallId() in valid && forall k | 0 <= k < j :: Fades(ms, k)
  }

  ghost predicate Surfaces(ms: seq<Message>, ids: seq<string>, valid: set<string>) {
    exists j: nat :: SurfacesAt(ms, ids, valid, j)
  }

  /** What follows the results of a call message. */
  function Behind(m: Message, rest: seq<Message>): seq<Message> {
    rest[RunLength(rest, ExpectedIds(m))..]
  }

  /** The complete group at `i` is followed, but for messages that fade, by one more of its answers. */
  ghost predicate TrailedAt(ms: seq<Message>, valid: set<string>, i: nat) {
    && i < |ms| && IsComplete(ms[i], ms[i + 1..])
    && Surfaces(Behind(ms[i], ms[i + 1..]), ExpectedIds(ms[i]), valid)
  }

  ghost predicate Trailed(ms: seq<Message>, valid: set<string>) {
    exists i: nat :: TrailedAt(ms, valid, i)
  }

  // ----------------------------------------------------- the front of the output

  predicate FrontAnswers(ms: seq<Message>, ids: seq<string>) {
    ms != [] && Answers(ms[0], ids)
  }

  lemma SurfacesNow(m: Message, rest: seq<Message>, ids: seq<string>, valid: set<string>)
    requires !Fades([m] + rest, 0)
    ensures Surfaces([m] + rest, ids, valid) <==> Answers(m, ids) && m.CallId() in valid
  {
    hide Fades, Answers;
    var all := [m] + rest;
    if Answers(m, ids) && m.CallId() in valid {
      assert SurfacesAt(all, ids, valid, 0);
    }
  }

  lemma SurfacesLater(m: Message, rest: seq<Message>, ids: seq<string>, valid: set<string>)
    requires Fades([m] + rest, 0)
    ensures Surfaces([m] + rest, ids, valid) <==> Surfaces(rest, ids, valid)
  {
    var all := [m] + rest;
    assert !IsTool(m);
    assert forall k | 0 <= k < |rest| :: all[k + 1] == rest[k];
    assert forall k | 0 <= k < |rest| :: Fades(all, k + 1) == Fades(rest, k);
    if j: nat :| SurfacesAt(all, ids, valid, j) {
      assert SurfacesAt(rest, ids, valid, j - 1) by {
        forall k | 0 <= k < j - 1
          ensures Fades(rest, k)
        {
          assert Fades(all, k + 1);
        }
      }
    }
    if j: nat :| SurfacesAt(rest, ids, valid, j) {
      assert SurfacesAt(all, ids, valid, j + 1) by {
        forall k | 0 <= k < j + 1
          ensures Fades(all, k)
        {
          if k > 0 {
            assert Fades(rest, k - 1);
          }
        }
      }
    }
  }

  /** The useful messages of a group. */
  function Kept(m: Message, run: seq<Message>): seq<Message> {
    Filter(Useful, Group(m, run))
  }

  lemma SanitizePlain(m: Message, rest: seq<Message>, valid: set<string>)
    requires ExpectedIds(m) == []
    ensures Sanitize([m] + rest, valid)
            == (if Useful(Settle(m, valid)) then [Settle(m, valid)] else []) + Sanitize(rest, valid)
  {
    hide Regroup, Settle, ExpectedIds, Useful;
    RegroupOne(m, rest, valid);
    FilterConcat(Useful, [Settle(m, valid)], Regroup(rest, valid));
    var one := [Settle(m, valid)];
    assert one[1..] == [];
  }

  lemma SanitizeGroup(m: Message, run: seq<Message>, tail: seq<Message>, valid: set<string>)
    requires ExpectedIds(m) != [] && forall i | 0 <= i < |run| :: Answers(run[i], ExpectedIds(m))
    requires tail != [] ==> !Answers(tail[0], ExpectedIds(m))
    ensures Sanitize([m] + run + tail, valid) == Kept(m, run) + Sanitize(tail, valid)
  {
    hide Regroup, Group, ExpectedIds, Answers, Filter;
    RegroupParts(m, run, tail, valid);
    FilterConcat(Useful, Group(m, run), Regroup(tail, valid));
  }

  /** A complete group stays whole. */
  lemma KeptWhole(m: Message, run: seq<Message>) returns (o: seq<Message>)
    requires ExpectedIds(m) != [] && forall i | 0 <= i < |run| :: Answers(run[i], ExpectedIds(m))
    requires Distinct(ExpectedIds(m)) && Elements(ExpectedIds(m)) <= Ids(run)
    ensures Kept(m, run) == [m] + o && |o| == |ExpectedIds(m)| && forall i | 0 <= i < |o| :: IsTool(o[i])
  {
    hide ExpectedIds, TakeInOrder, ById, FirstResults, Filter, Ids, Elements;
    var ids, results := ExpectedIds(m), FirstResults(run, {});
    NoCallsExpectNothing(m);
    CompleteExactly(run, ids);
    CompleteGroup(run, ids);
    o := TakeInOrder(ById(results), ids);
    FilterKeepsAll(Useful, [m] + o);
  }

  predicate IsPlain(m: Message) {
    !IsTool(m) && ExpectedIds(m) == []
  }

  /** An incomplete group leaves plain messages, and none exactly when its call message has nothing to
      say and no results. */
  lemma KeptParts(m: Message, run: seq<Message>)
    requires ExpectedIds(m) != [] && forall i | 0 <= i < |run| :: Answers(run[i], ExpectedIds(m))
    requires !(Distinct(ExpectedIds(m)) && Elements(ExpectedIds(m)) <= Ids(run))
    ensures forall i | 0 <= i < |Kept(m, run)| :: IsPlain(Kept(m, run)[i])
    ensures Kept(m, run) == [] <==> Downgrade(m) == [] && run == []
  {
    hide ExpectedIds, FirstResults, Filter, Ids, Elements, OrphanFact, IsPlain;
    var parts, results := Group(m, run), FirstResults(run, {});
    NoCallsExpectNothing(m);
    CompleteExactly(run, ExpectedIds(m));
    SomeFirst(run);
    forall i | 0 <= i < |parts|
      ensures IsPlain(parts[i]) && Useful(parts[i])
    {
      PartIsPlain(m, results, parts[i]);
    }
    FilterKeepsAll(Useful, parts);
  }

  lemma PartIsPlain(m: Message, results: seq<Message>, part: Message)
    requires part in Downgrade(m) + OrphanFacts(results) && m.role == Assistant
    ensures IsPlain(part) && Useful(part)
  {
    hide OrphanText;
    NoCallsExpectNothing(part);
  }

  lemma SomeFirst(run: seq<Message>)
    ensures FirstResults(run, {}) == [] <==> run == []
  {
  }

  lemma TrailPlain(plain: seq<Message>, rest: seq<Message>)
    requires forall i | 0 <= i < |plain| :: ExpectedIds(plain[i]) == []
    ensures NoTrailingAnswer(plain + rest) <==> NoTrailingAnswer(rest)
  {
    hide ExpectedIds, Answers;
    var all := plain + rest;
    assert all[|plain|..] == rest;
    TrailingShift(all, |plain|);
    assert forall i: nat | i < |plain| :: all[i] == plain[i] && !TrailingAnswer(all, i);
  }

  lemma TrailGroup(m: Message, o: seq<Message>, rest: seq<Message>)
    requires ExpectedIds(m) != [] && |o| == |ExpectedIds(m)| && forall i | 0 <= i < |o| :: IsTool(o[i])
    ensures NoTrailingAnswer([m] + o + rest)
            <==> !FrontAnswers(rest, ExpectedIds(m)) && NoTrailingAnswer(rest)
  {
    hide ExpectedIds, Answers;
    var all, n := [m] + o + rest, 1 + |o|;
    assert all[n..] == rest && all[0] == m;
    TrailingShift(all, n);
    forall i: nat | 1 <= i < n
      ensures !TrailingAnswer(all, i)
    {
      assert all[i] == o[i - 1];
      NoCallsExpectNothing(all[i]);
    }
    assert TrailingAnswer(all, 0) <==> FrontAnswers(rest, ExpectedIds(m));
  }

  /** The parts of a list that starts with a call message. */
  lemma Parts(ms: seq<Message>) returns (run: seq<Message>, tail: seq<Message>)
    requires ms != [] && ExpectedIds(ms[0]) != []
    ensures ms == [ms[0]] + run + tail && tail == Behind(ms[0], ms[1..])
    ensures forall i | 0 <= i < |run| :: Answers(run[i], ExpectedIds(ms[0]))
    ensures tail != [] ==> !Answers(tail[0], ExpectedIds(ms[0]))
    ensures IsComplete(ms[0], ms[1..]) <==> Distinct(ExpectedIds(ms[0])) && Elements(ExpectedIds(ms[0])) <= Ids(run)
    ensures run == [] <==> (1 < |ms| ==> !Answers(ms[1], ExpectedIds(ms[0])))
  {
    hide ExpectedIds, Answers, Ids;
    var rest, ids := ms[1..], ExpectedIds(ms[0]);
    var n := RunLength(rest, ids);
    run, tail := rest[..n], rest[n..];
  }

  lemma NothingSurfaces(ids: seq<string>, valid: set<string>)
    ensures !Surfaces([], ids, valid) && Sanitize([], valid) == []
  {
  }

  /** A message outside any group fades, or comes out in front. */
  lemma PlainFront(m: Message, ids: seq<string>, valid: set<string>)
    requires ExpectedIds(m) == []
    ensures Useful(Settle(m, valid)) <==> IsTool(m) || Useful(m)
    ensures Answers(Settle(m, valid), ids) <==> Answers(m, ids) && m.CallId() in valid
  {
    hide OrphanText, ExpectedIds;
  }

  /** A group fades, or comes out in front with a message that answers nothing. */
  lemma CallerFront(m: Message, run: seq<Message>, ids: seq<string>)
    requires ExpectedIds(m) != [] && forall i | 0 <= i < |run| :: Answers(run[i], ExpectedIds(m))
    ensures Kept(m, run) == [] <==> Downgrade(m) == [] && run == []
    ensures !IsTool(m) && !FrontAnswers(Kept(m, run), ids)
  {
    hide ExpectedIds, Downgrade, Kept;
    NoCallsExpectNothing(m);
    if Distinct(ExpectedIds(m)) && Elements(ExpectedIds(m)) <= Ids(run) {
      var o := KeptWhole(m, run);
      assert ExpectedIds(m)[0] in Elements(ExpectedIds(m));
    } else {
      KeptParts(m, run);
    }
  }

  /** The first message of the output answers one of the ids exactly when such an answer, with a valid
      id, has only fading messages in front of it. */
  lemma {:induction false} FrontSurfaces(ms: seq<Message>, ids: seq<string>, valid: set<string>)
    ensures FrontAnswers(Sanitize(ms, valid), ids) <==> Surfaces(ms, ids, valid)
    decreases |ms|
  {
    hide Sanitize, Surfaces, ExpectedIds, Downgrade, Ids, Kept, IsComplete;
    if ms == [] {
      NothingSurfaces(ids, valid);
    } else {
      var m, rest := ms[0], ms[1..];
      assert ms == [m] + rest;
      if ExpectedIds(m) == [] {
        SanitizePlain(m, rest, valid);
        PlainFront(m, ids, valid);
        if Fades(ms, 0) {
          FrontSurfaces(rest, ids, valid);
          SurfacesLater(m, rest, ids, valid);
        } else {
          SurfacesNow(m, rest, ids, valid);
        }
      } else {
        var run, tail := Parts(ms);
        SanitizeGroup(m, run, tail, valid);
        CallerFront(m, run, ids);
        if Fades(ms, 0) {
          assert rest == tail;
          FrontSurfaces(rest, ids, valid);
          SurfacesLater(m, rest, ids, valid);
        } else {
          SurfacesNow(m, rest, ids, valid);
        }
      }
    }
  }

  // ------------------------------------------------------------ the main result

  lemma TrailedShift(front: seq<Message>, ms: seq<Message>, valid: set<string>, i: nat)
    ensures TrailedAt(front + ms, valid, |front| + i) <==> TrailedAt(ms, valid, i)
  {
    hide IsComplete, Surfaces, Behind, ExpectedIds;
    var all := front + ms;
    if i < |ms| {
      assert all[|front| + i] == ms[i] && all[|front| + i + 1..] == ms[i + 1..];
    }
  }

  lemma PlainNotTrailed(front: seq<Message>, ms: seq<Message>, valid: set<string>, i: nat)
    requires i < |front| && ExpectedIds(front[i]) == []
    ensures !TrailedAt(front + ms, valid, i)
  {
    hide Surfaces, Behind, ExpectedIds;
    assert (front + ms)[i] == front[i];
  }

  /** A list is trailed at its first message, or further on. */
  lemma TrailedSplit(front: seq<Message>, ms: seq<Message>, valid: set<string>)
    requires front != [] && forall i | 1 <= i < |front| :: ExpectedIds(front[i]) == []
    ensures Trailed(front + ms, valid) <==> TrailedAt(front + ms, valid, 0) || Trailed(ms, valid)
  {
    hide TrailedAt, ExpectedIds;
    var all := front + ms;
    if i: nat :| TrailedAt(all, valid, i) {
      if i >= |front| {
        TrailedShift(front, ms, valid, i - |front|);
      } else if i > 0 {
        PlainNotTrailed(front, ms, valid, i);
      }
    }
    if i: nat :| TrailedAt(ms, valid, i) {
      TrailedShift(front, ms, valid, i);
    }
  }

  /** The output has a group with a trailing answer exactly when the list is trailed. */
  lemma {:induction false} TrailingIffTrailed(ms: seq<Message>, valid: set<string>)
    ensures NoTrailingAnswer(Sanitize(ms, valid)) <==> !Trailed(ms, valid)
    decreases |ms|
  {
    hide Sanitize, ExpectedIds, Ids, Elements, Kept, IsComplete, Trailed, TrailedAt, NoTrailingAnswer, Settle;
    if ms == [] {
      NothingTrailed(valid);
    } else if ExpectedIds(ms[0]) == [] {
      var m, rest := ms[0], ms[1..];
      assert ms == [m] + rest;
      TrailingIffTrailed(rest, valid);
      SanitizePlain(m, rest, valid);
      SettleExpectsNothing(m, valid);
      TrailPlain(if Useful(Settle(m, valid)) then [Settle(m, valid)] else [], Sanitize(rest, valid));
      NoIdsIncomplete(m, rest);
      NotTrailed(ms, valid);
      TrailedSplit([m], rest, valid);
    } else {
      var m := ms[0];
      var run, tail := Parts(ms);
      TrailingIffTrailed(tail, valid);
      SanitizeGroup(m, run, tail, valid);
      ResultsExpectNothing(run, ExpectedIds(m));
      TrailedSplit([m] + run, tail, valid);
      if IsComplete(m, ms[1..]) {
        var o := KeptWhole(m, run);
        TrailGroup(m, o, Sanitize(tail, valid));
        FrontSurfaces(tail, ExpectedIds(m), valid);
        TrailedHead(ms, valid);
      } else {
        KeptParts(m, run);
        TrailPlain(Kept(m, run), Sanitize(tail, valid));
        NotTrailed(ms, valid);
      }
    }
  }

  lemma NothingTrailed(valid: set<string>)
    ensures !Trailed([], valid) && NoTrailingAnswer(Sanitize([], valid))
  {
    hide IsComplete, Surfaces;
  }

  lemma NoIdsIncomplete(m: Message, rest: seq<Message>)
    requires ExpectedIds(m) == []
    ensures !IsComplete(m, rest)
  {
  }

  lemma NotTrailed(ms: seq<Message>, valid: set<string>)
    requires ms != [] && !IsComplete(ms[0], ms[1..])
    ensures !TrailedAt(ms, valid, 0)
  {
    hide IsComplete, Surfaces;
  }

  lemma TrailedHead(ms: seq<Message>, valid: set<string>)
    requires ms != [] && IsComplete(ms[0], ms[1..])
    ensures TrailedAt(ms, valid, 0) <==> Surfaces(Behind(ms[0], ms[1..]), ExpectedIds(ms[0]), valid)
  {
    hide IsComplete, Surfaces, Behind, ExpectedIds;
  }

  /** A second pass changes the list again exactly when, in the list itself, some complete group is
      followed, but for messages that fade, by one more of its answers under a valid id. */
  lemma SecondPassExactly(ms: seq<Message>, valid: set<string>)
    ensures Sanitize(Sanitize(ms, valid), valid) == Sanitize(ms, valid) <==> !Trailed(ms, valid)
  {
    hide Sanitize, Trailed, NoTrailingAnswer;
    SanitizeTwice(ms, valid);
    TrailingIffTrailed(ms, valid);
  }
}
