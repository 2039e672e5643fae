/**
 * Catalog refreshes that overlap (crates/proxy/src/catalog_service.rs): each
 * reads the active revision before its request and compares the answer with
 * what it read then, while other refreshes may have finished in between.
 */
module CatalogOverlap {
  import opened Wrappers
  import opened Text
  import opened Catalog
  import opened Versions
  import opened CatalogService

  /** The service and the refreshes that wait for an answer. */
  datatype World = World(state: State, waiting: map<nat, Snapshot>)

  datatype Event =
    | Begin(id: nat, now: nat)
    | Finish(id: nat, now: nat, answer: Answer)

  function Next(config: Config, w: World, e: Event): World {
    match e
    case Begin(id, now) =>
      if id !in w.waiting && Runs(config, w.state, now) then
        World(Begun(w.state, now), w.waiting[id := SnapshotOf(config, w.state)])
      else w
    case Finish(id, now, answer) =>
      if id in w.waiting then
        World(Finished(config, w.waiting[id], w.state, now, answer).0, w.waiting - {id})
      else w
  }

  function After(config: Config, s: State, events: seq<Event>): World {
    if events == [] then World(s, map[])
    else Next(config, After(config, s, events[..|events| - 1]), events[|events| - 1])
  }

  function RankIn(config: Config, s: State): seq<nat> {
    Rank(ActiveRevision(config, s))
  }

  /** The answer is put in place, judged by what the refresh had read. */
  predicate GetsThrough(seen: Snapshot, answer: Answer) {
    && answer.Fetched?
    && !RevisionIsOlder(seen.revision, answer.document.revision)
    && !(answer.document.revision == seen.revision && seen.layer == Remote)
  }

  /** Whatever the refresh had read, its end lowers the active revision exactly when its document
      gets through and ranks below what is active by then. */
  lemma FinishRollsBackExactly(config: Config, seen: Snapshot, s: State, now: nat, answer: Answer)
    ensures !AtLeast(RankIn(config, Finished(config, seen, s, now, answer).0), RankIn(config, s))
            <==> GetsThrough(seen, answer) && !AtLeast(Rank(answer.document.revision), RankIn(config, s))
  {
    hide Rank, AtLeast, RevisionIsOlder, ActiveDocument, Marked, SameRank;
    var next := Finished(config, seen, s, now, answer).0;
    var before, after := RankIn(config, s), RankIn(config, next);
    AtLeastIsTotalPreorder(before, before, before);
    ActiveRevisionMarked(config, s);
    ActiveRevisionMarked(config, next);
    if GetsThrough(seen, answer) {
      var fetched := Rank(answer.document.revision);
      MarkedKeepsRank(config, answer.document.revision);
      AtLeastIsTotalPreorder(after, fetched, before);
      AtLeastIsTotalPreorder(fetched, after, before);
    }
  }

  /** Refresh `id` began at event `i`, when `seen` was active, and waits since. */
  predicate WaitsSince(config: Config, s: State, events: seq<Event>, id: nat, seen: Snapshot, i: nat) {
    && i < |events| && events[i].Begin? && events[i].id == id
    && seen == SnapshotOf(config, After(config, s, events[..i]).state)
    && forall j | i < j < |events| :: !(events[j].Finish? && events[j].id == id)
  }

  /** Over every run, what a waiting refresh compares with was active when it began. */
  lemma {:induction false} WaitingSince(config: Config, s: State, events: seq<Event>, id: nat) returns (i: nat)
    requires id in After(config, s, events).waiting
    ensures WaitsSince(config, s, events, id, After(config, s, events).waiting[id], i)
    decreases |events|
  {
    hide SnapshotOf, Runs, Finished;
    if events == [] {
      assert false;
    } else {
      var n := |events| - 1;
      var init := events[..n];
      var w := After(config, s, init);
      if events[n].Begin? && events[n].id == id && id !in w.waiting {
        i := n;
      } else {
        i := WaitingSince(config, s, init, id);
        assert init[..i] == events[..i];
      }
    }
  }

  /** Over every run, a refresh that ends lowers the active revision exactly when its document gets
      through against the revision active when it began and ranks below the one active by now. */
  lemma OverlapRollsBackExactly(config: Config, s: State, events: seq<Event>, id: nat, now: nat, answer: Answer)
    returns (i: nat)
    requires id in After(config, s, events).waiting
    ensures WaitsSince(config, s, events, id, After(config, s, events).waiting[id], i)
    ensures var began, ended := After(config, s, events[..i]).state, After(config, s, events).state;
            var last := After(config, s, events + [Finish(id, now, answer)]).state;
            !AtLeast(RankIn(config, last), RankIn(config, ended))
            <==> GetsThrough(SnapshotOf(config, began), answer)
                 && !AtLeast(Rank(answer.document.revision), RankIn(config, ended))
  {
    hide Rank, AtLeast, RevisionIsOlder, ActiveRevision, Finished, GetsThrough;
    i := WaitingSince(config, s, events, id);
    var w := After(config, s, events);
    FinishRollsBackExactly(config, w.waiting[id], w.state, now, answer);
    var all := events + [Finish(id, now, answer)];
    assert all[..|all| - 1] == events;
  }

  /** Event `j` ends a waiting refresh and raises the active revision above the rank. */
  predicate Raises(config: Config, s: State, events: seq<Event>, j: nat, rank: seq<nat>)
    requires j < |events|
  {
    var before, after := After(config, s, events[..j]), After(config, s, events[..j + 1]);
    && events[j].Finish? && events[j].id in before.waiting
    && AtLeast(rank, RankIn(config, before.state)) && !AtLeast(rank, RankIn(config, after.state))
  }

  /** The catalog changes only when a waiting refresh ends. */
  lemma OnlyEndsChange(config: Config, w: World, e: Event)
    ensures !(e.Finish? && e.id in w.waiting) ==> Next(config, w, e).state.remote == w.state.remote
  {
    hide SnapshotOf, Runs, Finished;
  }

  /** If the active revision rises above a rank, some event raises it. */
  lemma {:induction false} SomeEventRaises(config: Config, s: State, events: seq<Event>, i: nat, rank: seq<nat>)
    returns (j: nat)
    requires i <= |events| && AtLeast(rank, RankIn(config, After(config, s, events[..i]).state))
    requires !AtLeast(rank, RankIn(config, After(config, s, events).state))
    ensures i <= j < |events| && Raises(config, s, events, j, rank)
    decreases |events|
  {
    hide AtLeast, Rank, ActiveDocument, Next;
    assert i < |events| by {
      assert events[..|events|] == events;
    }
    var n := |events| - 1;
    var init := events[..n];
    assert events[..n + 1] == events && init[..i] == events[..i];
    if AtLeast(rank, RankIn(config, After(config, s, init).state)) {
      j := n;
      OnlyEndsChange(config, After(config, s, init), events[n]);
    } else {
      j := SomeEventRaises(config, s, init, i, rank);
      assert init[..j] == events[..j] && init[..j + 1] == events[..j + 1];
    }
  }

  /** With a numeric candidate that takes another refresh that overtook this one: it was waiting too,
      it ended after this one began, and its end raised the active revision above the candidate. */
  lemma RollbackNeedsOvertaking(config: Config, s: State, events: seq<Event>, id: nat, now: nat, answer: Answer)
    returns (i: nat, j: nat)
    requires id in After(config, s, events).waiting && IsNumeric(answer)
    requires var ended := After(config, s, events).state;
             !AtLeast(RankIn(config, After(config, s, events + [Finish(id, now, answer)]).state), RankIn(config, ended))
    ensures i < j < |events| && events[i].Begin? && events[i].id == id && events[j].id != id
    ensures answer.Fetched? && Raises(config, s, events, j, Rank(answer.document.revision))
  {
    hide Rank, AtLeast, RevisionIsOlder, ActiveDocument, StartsNumeric, After;
    i := OverlapRollsBackExactly(config, s, events, id, now, answer);
    var began := After(config, s, events[..i]).state;
    var fetched := answer.document.revision;
    NotOlderRanksHigher(ActiveRevision(config, began), fetched);
    j := SomeEventRaises(config, s, events, i, Rank(fetched));
  }

  // --------------------------------------------------------- a concrete overlap

  function Fresh(): State {
    State(None, Builtin, None, None, None, None, None)
  }

  /** Two refreshes, the second of which ends first. */
  function Overtaken(): seq<Event> {
    [Begin(0, 0), Begin(1, CATALOG_FETCH_THROTTLE), Finish(1, CATALOG_FETCH_THROTTLE, Fetched(Sample("3"), None))]
  }

  lemma DigitRank(revision: string, d: nat)
    requires d < 10 && revision == [Digit(d)]
    ensures Rank(revision) == [d] && Normalize(revision) == revision && StartsNumeric(revision)
  {
    hide Normalize, FirstSeparator, SegmentValue, ParseUnsigned;
    PlainNormalizes(revision);
    DigitParses(revision, d);
    assert revision[..1] == revision;
  }

  /** Revisions of one digit compare as digits. */
  lemma DigitsCompare(current: string, a: nat, candidate: string, b: nat)
    requires a < 10 && b < 10 && current == [Digit(a)] && candidate == [Digit(b)]
    ensures AtLeast(Rank(current), Rank(candidate)) <==> a >= b
    ensures a < b ==> !RevisionIsOlder(current, candidate)
  {
    hide Rank, Normalize, StartsNumeric;
    DigitRank(current, a);
    DigitRank(candidate, b);
    var x, y := [a], [b];
    assert Rank(current) == x && Rank(candidate) == y;
    assert Padded(x, 0) == a && Padded(y, 0) == b && Longer(x, y) == 1;
    assert AtLeastFrom(x, y, 1);
  }

  lemma AfterOneMore(config: Config, s: State, events: seq<Event>, e: Event)
    ensures After(config, s, events + [e]) == Next(config, After(config, s, events), e)
  {
    hide Next;
    var all := events + [e];
    assert all[..|all| - 1] == events;
  }

  lemma SampleActive(s: State)
    requires s.remote.None? || s.remote.value.revision == "3"
    ensures ActiveRevision(SampleConfig(false), s) == if s.remote.Some? then "3" else "1"
  {
    hide ActiveRevision;
    ActiveRevisionMarked(SampleConfig(false), s);
  }

  lemma BothBegun(config: Config)
    requires config == SampleConfig(false)
    ensures var w := After(config, Fresh(), [Begin(0, 0), Begin(1, CATALOG_FETCH_THROTTLE)]);
            0 in w.waiting && 1 in w.waiting && w.waiting[0] == w.waiting[1] == Snapshot("1", Builtin)
            && w.state.remote.None?
  {
    hide After, ActiveRevision;
    var s, t := Fresh(), CATALOG_FETCH_THROTTLE;
    AfterNone(config, s);
    AfterOneMore(config, s, [], Begin(0, 0));
    AfterOneMore(config, s, [Begin(0, 0)], Begin(1, t));
    assert [] + [Begin(0, 0)] == [Begin(0, 0)];
    assert [Begin(0, 0)] + [Begin(1, t)] == [Begin(0, 0), Begin(1, t)];
    SampleActive(s);
    SampleActive(Begun(s, 0));
  }

  /** A refresh that ends puts its document in place and leaves the other waiting. */
  lemma EndsFirst(config: Config, w: World, id: nat, other: nat, now: nat, document: Document)
    requires id in w.waiting && other in w.waiting && id != other && w.state.remote.None?
    requires w.waiting[id].layer == Builtin && !RevisionIsOlder(w.waiting[id].revision, document.revision)
    ensures var next := Next(config, w, Finish(id, now, Fetched(document, None)));
            other in next.waiting && next.waiting[other] == w.waiting[other] && next.state.remote == Some(document)
  {
    hide RevisionIsOlder;
  }

  lemma OvertakenState()
    ensures var w := After(SampleConfig(false), Fresh(), Overtaken());
            0 in w.waiting && w.waiting[0] == Snapshot("1", Builtin) && w.state.remote == Some(Sample("3"))
  {
    hide After, RevisionIsOlder, Sample, SampleConfig, Next, Fresh;
    var config, t, answer := SampleConfig(false), CATALOG_FETCH_THROTTLE, Fetched(Sample("3"), None);
    var two := [Begin(0, 0), Begin(1, t)];
    BothBegun(config);
    AfterOneMore(config, Fresh(), two, Finish(1, t, answer));
    assert two + [Finish(1, t, answer)] == Overtaken();
    SampleRevision("3");
    DigitsCompare("1", 1, "3", 3);
    EndsFirst(config, After(config, Fresh(), two), 1, 0, t, Sample("3"));
  }

  lemma SampleRevision(revision: string)
    ensures Sample(revision).revision == revision
  {
  }

  lemma AfterNone(config: Config, s: State)
    ensures After(config, s, []) == World(s, map[])
  {
  }

  /** The first refresh, ending last with an older document, lowers the active revision, although
      every candidate is numeric and was newer than what its refresh had read. */
  lemma OverlapCanRollBack(now: nat)
    ensures var config, w := SampleConfig(false), After(SampleConfig(false), Fresh(), Overtaken());
            var answer := Fetched(Sample("2"), None);
            && 0 in w.waiting && IsNumeric(answer)
            && !AtLeast(RankIn(config, Finished(config, w.waiting[0], w.state, now, answer).0), RankIn(config, w.state))
  {
    hide After, ActiveRevision, RevisionIsOlder, Sample, SampleConfig, Finished, AtLeast, Rank, StartsNumeric;
    var config, answer := SampleConfig(false), Fetched(Sample("2"), None);
    var w := After(config, Fresh(), Overtaken());
    OvertakenState();
    SampleRevision("2");
    SampleRevision("3");
    SampleActive(w.state);
    DigitRank("2", 2);
    DigitsCompare("1", 1, "2", 2);
    DigitsCompare("2", 2, "3", 3);
    FinishRollsBackExactly(config, w.waiting[0], w.state, now, answer);
  }
}
