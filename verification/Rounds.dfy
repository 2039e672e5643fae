/**
 * The bounded, expiring store of hosted rounds the client never saw
 * (crates/proxy/src/native_coordinator.rs).  Instants are counted in
 * nanoseconds and passed in by the caller.
 */
module Rounds {
  import opened Wrappers
  import opened Json
  import opened Text
  import opened Ordered
  import Splice

  const MAX_PENDING_NATIVE_GROUPS: nat := 64
  const PENDING_NATIVE_GROUP_TTL: nat := 30 * 60 * 1_000_000_000

  datatype Group = Group(
    responseId: string,
    anchor: Option<string>,
    clientCallIds: seq<string>,
    injected: seq<Splice.Segment>,
    createdAt: nat)

  datatype Continuation = Continuation(
    pendingResponseId: string,
    mergedInput: seq<Json>,
    injected: seq<Splice.Segment>)

  type Groups = map<string, Group>

  // --------------------------------------------------------------------- requests

  function NonemptyTrimmed(value: Option<Json>): Option<string> {
    match value
    case Some(Str(text)) => if Trim(text) == "" then None else Some(Trim(text))
    case _ => None
  }

  function Pointer(request: Json, outer: string, inner: string): Option<Json> {
    match request.Get(outer)
    case Some(value) => value.Get(inner)
    case None => None
  }

  function RequestAnchor(request: Json): Option<string> {
    var cache := NonemptyTrimmed(request.Get("prompt_cache_key"));
    var direct := Pointer(request, "client_metadata", "x-codex-installation-id");
    var installation :=
      NonemptyTrimmed(if direct.Some? then direct else Pointer(request, "metadata", "x-codex-installation-id"));
    match (cache, installation)
    case (Some(c), Some(i)) => Some("cache:" + c + "\U{0}" + "installation:" + i)
    case (Some(c), None) => Some("cache:" + c)
    case (None, Some(i)) => Some("installation:" + i)
    case (None, None) => None
  }

  function RequestInput(request: Json): Option<seq<Json>> {
    match request.Get("input") case Some(Arr(items)) => Some(items) case _ => None
  }

  predicate Mentions(input: seq<Json>, callId: string) {
    exists i | 0 <= i < |input| :: Splice.CallId(input[i]) == Some(callId)
  }

  /** The replay carries at least one tool call of the group. */
  predicate IsContinuedBy(group: Group, input: seq<Json>) {
    exists i | 0 <= i < |group.clientCallIds| :: Mentions(input, group.clientCallIds[i])
  }

  /** The group belongs to the session and the replay mentions one of its calls. */
  predicate Candidate(group: Group, anchor: string, input: seq<Json>) {
    group.anchor == Some(anchor) && IsContinuedBy(group, input)
  }

  /** The most recent candidate among the keys, the last one among equals. */
  function NewestCandidate(groups: Groups, keys: seq<string>, anchor: string, input: seq<Json>): (r: Option<string>)
    requires forall k | k in keys :: k in groups
    ensures r.Some? ==> r.value in keys && Candidate(groups[r.value], anchor, input)
    ensures r.Some? ==> forall k | k in keys && Candidate(groups[k], anchor, input) ::
                          groups[k].createdAt <= groups[r.value].createdAt
    ensures r.None? ==> forall k | k in keys :: !Candidate(groups[k], anchor, input)
  {
    if keys == [] then None
    else
      var last := keys[|keys| - 1];
      var init := keys[..|keys| - 1];
      assert forall k :: k in keys <==> k == last || k in init;
      var r := NewestCandidate(groups, init, anchor, input);
      if Candidate(groups[last], anchor, input)
         && (r.None? || groups[r.value].createdAt <= groups[last].createdAt) then Some(last) else r
  }

  function MatchingGroup(groups: Groups, request: Json): (r: Option<string>)
    ensures r.Some? ==> r.value in groups
  {
    var previous := NonemptyTrimmed(request.Get("previous_response_id"));
    if previous.Some? && previous.value in groups then previous
    else
      match (RequestAnchor(request), RequestInput(request))
      case (Some(anchor), Some(input)) => NewestCandidate(groups, Ascending(groups.Keys), anchor, input)
      case _ => None
  }

  /** The exact link wins; otherwise the newest group of the session whose calls are mentioned, and
      nothing only when there is none. */
  lemma MatchingIsNewest(groups: Groups, request: Json)
    ensures var previous := NonemptyTrimmed(request.Get("previous_response_id"));
            var r := MatchingGroup(groups, request);
            if previous.Some? && previous.value in groups then r == previous
            else
              match (RequestAnchor(request), RequestInput(request))
              case (Some(anchor), Some(input)) =>
                (if r.Some? then
                   Candidate(groups[r.value], anchor, input)
                   && (forall k | k in groups && Candidate(groups[k], anchor, input) ::
                         groups[k].createdAt <= groups[r.value].createdAt)
                 else forall k | k in groups :: !Candidate(groups[k], anchor, input))
              case _ => r == None
  {
    hide RequestAnchor, Ascending, Candidate;
  }

  // -------------------------------------------------------------------- the store

  datatype Store = Store(groups: Groups, evicted: seq<string>)

  /** `duration_since` is zero for an instant in the future. */
  predicate Expired(group: Group, now: nat) {
    now >= group.createdAt && now - group.createdAt >= PENDING_NATIVE_GROUP_TTL
  }

  function ExpiredKeys(groups: Groups, keys: seq<string>, now: nat): seq<string>
    requires forall k | k in keys :: k in groups
  {
    if keys == [] then []
    else if Expired(groups[keys[0]], now) then [keys[0]] + ExpiredKeys(groups, keys[1..], now)
    else ExpiredKeys(groups, keys[1..], now)
  }

  function Unexpired(groups: Groups, now: nat): Groups {
    map k | k in groups && !Expired(groups[k], now) :: groups[k]
  }

  function Pruned(s: Store, now: nat): Store {
    Store(Unexpired(s.groups, now), s.evicted + ExpiredKeys(s.groups, Ascending(s.groups.Keys), now))
  }

  /** The key of the oldest group, the first one among equals. */
  function OldestKey(groups: Groups, keys: seq<string>): (r: string)
    requires keys != [] && forall k | k in keys :: k in groups
    ensures r in keys && forall k | k in keys :: groups[r].createdAt <= groups[k].createdAt
  {
    var last := keys[|keys| - 1];
    if |keys| == 1 then
      assert forall k | k in keys :: k == last;
      last
    else
      var init := keys[..|keys| - 1];
      assert forall k :: k in keys <==> k == last || k in init;
      var r := OldestKey(groups, init);
      if groups[last].createdAt < groups[r].createdAt then last else r
  }

  function Oldest(groups: Groups): (r: string)
    requires |groups| > 0
    ensures r in groups && forall k | k in groups :: groups[r].createdAt <= groups[k].createdAt
  {
    OldestKey(groups, Ascending(groups.Keys))
  }

  lemma RemoveOne(groups: Groups, k: string)
    requires k in groups
    ensures |groups - {k}| == |groups| - 1
  {
    assert (groups - {k}).Keys == groups.Keys - {k};
    assert |groups.Keys| == |groups|;
    assert |(groups - {k}).Keys| == |groups - {k}|;
  }

  function WithinCapacity(s: Store): (r: Store)
    ensures |r.groups| == if |s.groups| <= MAX_PENDING_NATIVE_GROUPS then |s.groups| else MAX_PENDING_NATIVE_GROUPS
    decreases |s.groups|
  {
    if |s.groups| <= MAX_PENDING_NATIVE_GROUPS then s
    else
      var k := Oldest(s.groups);
      RemoveOne(s.groups, k);
      WithinCapacity(Store(s.groups - {k}, s.evicted + [k]))
  }

  function Registered(s: Store, group: Group, now: nat): Store {
    var pruned := Pruned(s, now);
    WithinCapacity(pruned.(groups := pruned.groups[group.responseId := group]))
  }

  ghost function ContinuationOf(s: Store, request: Json): Option<Continuation> {
    match (MatchingGroup(s.groups, request), RequestInput(request))
    case (Some(id), Some(input)) =>
      var g := s.groups[id];
      Some(Continuation(g.responseId, Splice.MergedInput(g.injected, input), g.injected))
    case _ => None
  }

  function UnexpiredAmong(groups: Groups, keys: seq<string>, now: nat): Groups {
    map k | k in groups && k in keys && !Expired(groups[k], now) :: groups[k]
  }

  lemma UnexpiredOneMore(groups: Groups, keys: seq<string>, i: nat, now: nat)
    requires i < |keys| && keys[i] in groups
    ensures var kept := UnexpiredAmong(groups, keys[..i], now);
            UnexpiredAmong(groups, keys[..i + 1], now)
            == if Expired(groups[keys[i]], now) then kept else kept[keys[i] := groups[keys[i]]]
  {
    hide Expired;
    assert forall k :: k in keys[..i + 1] <==> k == keys[i] || k in keys[..i];
  }

  lemma UnexpiredAll(groups: Groups, keys: seq<string>, now: nat)
    requires forall k | k in groups :: k in keys
    ensures UnexpiredAmong(groups, keys[..|keys|], now) == Unexpired(groups, now)
  {
    hide Expired;
    assert keys[..|keys|] == keys;
  }

  lemma UnexpiredNone(groups: Groups, keys: seq<string>, now: nat)
    ensures UnexpiredAmong(groups, keys[..0], now) == map[]
  {
    assert UnexpiredAmong(groups, keys[..0], now).Keys == {};
  }

  /** Visits the groups in key order, keeping the unexpired ones and noting the others. */
  method RetainUnexpired(groups: Groups, now: nat) returns (kept: Groups, expired: seq<string>)
    ensures kept == Unexpired(groups, now)
    ensures expired == ExpiredKeys(groups, Ascending(groups.Keys), now)
  {
    hide Expired, Ascending, UnexpiredAmong, Unexpired;
    var keys := Ascending(groups.Keys);
    kept, expired := map[], [];
    assert keys[0..] == keys;
    UnexpiredNone(groups, keys, now);
    for i := 0 to |keys|
      invariant kept == UnexpiredAmong(groups, keys[..i], now)
      invariant expired + ExpiredKeys(groups, keys[i..], now) == ExpiredKeys(groups, keys, now)
    {
      var id := keys[i];
      assert id in keys && keys[i..][1..] == keys[i + 1..];
      UnexpiredOneMore(groups, keys, i, now);
      if Expired(groups[id], now) {
        expired := expired + [id];
      } else {
        kept := kept[id := groups[id]];
      }
    }
    UnexpiredAll(groups, keys, now);
  }

  /** The store shared by all requests, updated in place under a lock. */
  class NativePendingToolGroups {
    var groups: Groups
    var evicted: seq<string>

    ghost function View(): Store
      reads this
    {
      Store(groups, evicted)
    }

    constructor ()
      ensures View() == Store(map[], [])
    {
      groups, evicted := map[], [];
    }

    method PruneExpired(now: nat)
      modifies this
      ensures View() == Pruned(old(View()), now)
    {
      hide Expired, Least, ExpiredKeys;
      var kept, expired := RetainUnexpired(groups, now);
      groups, evicted := kept, evicted + expired;
    }

    method TrimToCapacity()
      modifies this
      ensures View() == WithinCapacity(old(View()))
    {
      hide Oldest;
      while |groups| > MAX_PENDING_NATIVE_GROUPS
        invariant WithinCapacity(View()) == WithinCapacity(old(View()))
        decreases |groups|
      {
        var oldest := Oldest(groups);
        RemoveOne(groups, oldest);
        groups := groups - {oldest};
        evicted := evicted + [oldest];
      }
    }

    method Register(group: Group, now: nat)
      modifies this
      ensures View() == Registered(old(View()), group, now)
    {
      PruneExpired(now);
      groups := groups[group.responseId := group];
      TrimToCapacity();
    }

    method ContinuationFor(request: Json, now: nat) returns (r: Option<Continuation>)
      modifies this
      ensures View() == Pruned(old(View()), now)
      ensures r == ContinuationOf(View(), request)
    {
      PruneExpired(now);
      var id, input := MatchingGroup(groups, request), RequestInput(request);
      if id.None? || input.None? {
        return None;
      }
      var group := groups[id.value];
      var merged := Splice.Continuation(group.injected, input.value);
      return Some(Continuation(group.responseId, merged, group.injected));
    }

    method Settle(responseId: string)
      modifies this`groups
      ensures View() == Store(old(groups) - {responseId}, old(evicted))
    {
      groups := groups - {responseId};
    }

    method TakeEvictions() returns (taken: seq<string>)
      modifies this`evicted
      ensures taken == old(evicted) && View() == Store(old(groups), [])
    {
      taken := evicted;
      evicted := [];
    }
  }

  // ----------------------------------------------------------------- whole runs

  datatype Event =
    | Register(group: Group, now: nat)
    | Continue(request: Json, now: nat)
    | Settle(responseId: string)
    | Report

  function Apply(s: Store, e: Event): Store {
    match e
    case Register(group, now) => Registered(s, group, now)
    case Continue(_, now) => Pruned(s, now)
    case Settle(id) => s.(groups := s.groups - {id})
    case Report => s.(evicted := [])
  }

  function After(events: seq<Event>): Store {
    if events == [] then Store(map[], []) else Apply(After(events[..|events| - 1]), events[|events| - 1])
  }

  /** What has happened to the ids registered so far, counting registrations. */
  datatype History = History(
    registered: multiset<string>,  // every registration
    replaced: multiset<string>,    // registrations overwritten by a later one with the same id
    settled: multiset<string>,     // rounds forgotten because their request was accepted
    reported: multiset<string>)    // evictions handed to the caller

  function Record(h: History, s: Store, e: Event): History {
    match e
    case Register(group, now) =>
      var id := group.responseId;
      h.(registered := h.registered + multiset{id},
         replaced := h.replaced + if id in Pruned(s, now).groups then multiset{id} else multiset{})
    case Continue(_, _) => h
    case Settle(id) => h.(settled := h.settled + if id in s.groups then multiset{id} else multiset{})
    case Report => h.(reported := h.reported + multiset(s.evicted))
  }

  function HistoryOf(events: seq<Event>): History {
    if events == [] then History(multiset{}, multiset{}, multiset{}, multiset{})
    else
      var init := events[..|events| - 1];
      Record(HistoryOf(init), After(init), events[|events| - 1])
  }

  /** Retained and evicted ids together. */
  function Held(s: Store): multiset<string> {
    multiset(s.groups.Keys) + multiset(s.evicted)
  }

  lemma {:induction false} ExpiredPartition(groups: Groups, keys: seq<string>, now: nat, k: string)
    requires forall x | x in keys :: x in groups
    requires forall i, j | 0 <= i < j < |keys| :: keys[i] != keys[j]
    ensures multiset(ExpiredKeys(groups, keys, now))[k]
            == if k in keys && Expired(groups[k], now) then 1 else 0
    decreases |keys|
  {
    hide Expired;
    if keys != [] {
      var rest := keys[1..];
      ExpiredPartition(groups, rest, now, k);
      assert k in keys <==> k == keys[0] || k in rest;
      assert keys[0] !in rest;
    }
  }

  /** Pruning moves ids from the retained to the evicted side. */
  lemma PrunedHolds(s: Store, now: nat)
    ensures Held(Pruned(s, now)) == Held(s)
  {
    hide Expired, Ascending, ExpiredKeys;
    var keys := Ascending(s.groups.Keys);
    var expired := ExpiredKeys(s.groups, keys, now);
    AscendingSorted(s.groups.Keys);
    forall k
      ensures Held(Pruned(s, now))[k] == Held(s)[k]
    {
      ExpiredPartition(s.groups, keys, now, k);
      assert k in Unexpired(s.groups, now).Keys <==> k in s.groups.Keys && !Expired(s.groups[k], now);
    }
  }

  /** Trimming does too. */
  lemma {:induction false} WithinCapacityHolds(s: Store)
    ensures Held(WithinCapacity(s)) == Held(s)
    decreases |s.groups|
  {
    hide Oldest;
    if |s.groups| > MAX_PENDING_NATIVE_GROUPS {
      var k := Oldest(s.groups);
      RemoveOne(s.groups, k);
      var next := Store(s.groups - {k}, s.evicted + [k]);
      WithinCapacityHolds(next);
      assert s.groups.Keys == next.groups.Keys + {k};
    }
  }

  /** Every registration is retained, replaced, settled, or evicted and then either waiting to be
      reported or reported. */
  predicate Accounted(h: History, s: Store) {
    h.registered == Held(s) + h.replaced + h.settled + h.reported
  }

  lemma RegisterAccounted(h: History, s: Store, group: Group, now: nat)
    requires Accounted(h, s)
    ensures var e := Register(group, now); Accounted(Record(h, s, e), Apply(s, e))
  {
    hide Pruned, WithinCapacity, Held;
    var pruned := Pruned(s, now);
    PrunedHolds(s, now);
    WithinCapacityHolds(pruned.(groups := pruned.groups[group.responseId := group]));
    InsertHolds(pruned, group);
    var id := group.responseId;
    var extra := if id in pruned.groups then multiset{id} else multiset{};
    var after := Held(Registered(s, group, now));
    assert after + extra == Held(s) + multiset{id};
    assert h.registered + multiset{id} == (Held(s) + multiset{id}) + h.replaced + h.settled + h.reported;
    assert after + (h.replaced + extra) + h.settled + h.reported
           == (after + extra) + h.replaced + h.settled + h.reported;
  }

  lemma SettleAccounted(h: History, s: Store, id: string)
    requires Accounted(h, s)
    ensures Accounted(Record(h, s, Settle(id)), Apply(s, Settle(id)))
  {
    hide Held;
    RemoveHolds(s, id);
    var extra := if id in s.groups then multiset{id} else multiset{};
    var after := Held(Apply(s, Settle(id)));
    assert after + h.replaced + (h.settled + extra) + h.reported
           == (after + extra) + h.replaced + h.settled + h.reported;
  }

  /** Over every run, every registration is accounted for. */
  lemma {:induction false} EveryRoundAccounted(events: seq<Event>)
    ensures Accounted(HistoryOf(events), After(events))
  {
    hide Pruned, Registered, Accounted;
    if events == [] {
      NothingAccounted();
    } else {
      var init, e := events[..|events| - 1], events[|events| - 1];
      EveryRoundAccounted(init);
      var h, s := HistoryOf(init), After(init);
      match e {
        case Register(group, now) =>
          RegisterAccounted(h, s, group, now);
        case Continue(_, now) =>
          ContinueAccounted(h, s, now);
        case Settle(id) =>
          SettleAccounted(h, s, id);
        case Report =>
          ReportAccounted(h, s);
      }
    }
  }

  lemma NothingAccounted()
    ensures Accounted(HistoryOf([]), After([]))
  {
  }

  lemma ContinueAccounted(h: History, s: Store, now: nat)
    requires Accounted(h, s)
    ensures Accounted(h, Pruned(s, now))
  {
    hide Pruned, Held;
    PrunedHolds(s, now);
  }

  lemma ReportAccounted(h: History, s: Store)
    requires Accounted(h, s)
    ensures Accounted(Record(h, s, Report), Apply(s, Report))
  {
  }

  lemma InsertHolds(s: Store, group: Group)
    ensures var id := group.responseId;
            Held(s.(groups := s.groups[id := group])) + (if id in s.groups then multiset{id} else multiset{})
            == Held(s) + multiset{id}
  {
    var id := group.responseId;
    assert s.groups[id := group].Keys == s.groups.Keys + {id};
  }

  lemma RemoveHolds(s: Store, id: string)
    ensures Held(s.(groups := s.groups - {id})) + (if id in s.groups then multiset{id} else multiset{}) == Held(s)
  {
    assert (s.groups - {id}).Keys == s.groups.Keys - {id};
  }

  /** At no time are more than the allowed number of rounds retained, each under its own id. */
  lemma {:induction false} StoreBounded(events: seq<Event>)
    ensures |After(events).groups| <= 64
    ensures forall k | k in After(events).groups :: After(events).groups[k].responseId == k
  {
    hide Expired, WithinCapacity, ExpiredKeys;
    if events != [] {
      var init, e := events[..|events| - 1], events[|events| - 1];
      StoreBounded(init);
      var s := After(init);
      match e {
        case Register(group, now) =>
          var pruned := Pruned(s, now);
          WithinCapacityKeeps(pruned.(groups := pruned.groups[group.responseId := group]));
        case Continue(_, now) =>
          SubmapSize(Unexpired(s.groups, now), s.groups);
        case Settle(id) =>
          SubmapSize(s.groups - {id}, s.groups);
        case Report =>
      }
    }
  }

  lemma SubmapSize(a: Groups, b: Groups)
    requires a.Keys <= b.Keys
    ensures |a| <= |b|
  {
    assert b.Keys == a.Keys + (b.Keys - a.Keys);
    assert |a.Keys| == |a| && |b.Keys| == |b|;
  }

  /** Trimming keeps groups as they are, and never removes one newer than one it keeps. */
  lemma {:induction false} WithinCapacityKeeps(s: Store)
    ensures var t := WithinCapacity(s);
            && (forall k | k in t.groups :: k in s.groups && t.groups[k] == s.groups[k])
            && (forall gone, kept | gone in s.groups && gone !in t.groups && kept in t.groups ::
                  s.groups[gone].createdAt <= t.groups[kept].createdAt)
    decreases |s.groups|
  {
    hide Oldest, WithinCapacity;
    TrimStep(s);
    if |s.groups| > MAX_PENDING_NATIVE_GROUPS {
      var k := Oldest(s.groups);
      RemoveOne(s.groups, k);
      WithinCapacityKeeps(Store(s.groups - {k}, s.evicted + [k]));
    }
  }

  lemma TrimStep(s: Store)
    ensures WithinCapacity(s)
            == if |s.groups| <= MAX_PENDING_NATIVE_GROUPS then s
               else WithinCapacity(Store(s.groups - {Oldest(s.groups)}, s.evicted + [Oldest(s.groups)]))
  {
    hide Oldest;
  }

  /** The capacity bound evicts the oldest rounds only: among the rounds unexpired at a registration,
      the new one included, none evicted is newer than one retained. */
  lemma CapacityEvictsOldest(s: Store, group: Group, now: nat, gone: string, kept: string)
    requires var all := Pruned(s, now).groups[group.responseId := group];
             gone in all && gone !in Registered(s, group, now).groups && kept in Registered(s, group, now).groups
    ensures var all := Pruned(s, now).groups[group.responseId := group];
            all[gone].createdAt <= Registered(s, group, now).groups[kept].createdAt
  {
    hide Pruned, WithinCapacity;
    var pruned := Pruned(s, now);
    WithinCapacityKeeps(pruned.(groups := pruned.groups[group.responseId := group]));
  }

  /** Event `i` registered the group, and no later event settled it or registered its id again. */
  predicate LiveSince(events: seq<Event>, i: nat, group: Group)
    requires i < |events|
  {
    && events[i].Register? && events[i].group == group
    && forall j | i < j < |events| ::
         events[j] != Settle(group.responseId)
         && (events[j].Register? ==> events[j].group.responseId != group.responseId)
  }

  /** A round retained after an event was registered by it, or was retained before and is not
      touched by it. */
  lemma StepRetains(s: Store, e: Event, id: string)
    requires id in Apply(s, e).groups
    ensures var g := Apply(s, e).groups[id];
            if e.Register? && e.group.responseId == id then g == e.group
            else id in s.groups && s.groups[id] == g && e != Settle(id)
  {
    hide Expired, WithinCapacity, ExpiredKeys;
    if e.Register? {
      var pruned := Pruned(s, e.now);
      WithinCapacityKeeps(pruned.(groups := pruned.groups[e.group.responseId := e.group]));
    }
  }

  /** A retained round is the latest registration of its id, not settled since. */
  lemma {:induction false} RetainedIsLive(events: seq<Event>, id: string) returns (i: nat)
    requires id in After(events).groups
    ensures i < |events| && After(events).groups[id].responseId == id && LiveSince(events, i, After(events).groups[id])
  {
    hide Apply;
    StoreBounded(events);
    var n := |events| - 1;
    var init, e := events[..n], events[n];
    StepRetains(After(init), e, id);
    if e.Register? && e.group.responseId == id {
      i := n;
    } else {
      i := RetainedIsLive(init, id);
      assert forall j | i < j < n :: events[j] == init[j];
    }
  }

  /** Whatever the run, a continuation is built from a round that was registered, has not been
      settled or replaced since, is still retained and has not expired. */
  lemma ContinuationIsLive(events: seq<Event>, request: Json, now: nat) returns (i: nat)
    requires ContinuationOf(After(events + [Continue(request, now)]), request).Some?
    ensures i < |events|
    ensures var c := ContinuationOf(After(events + [Continue(request, now)]), request).value;
            && events[i].Register?
            && events[i].group.responseId == c.pendingResponseId && events[i].group.injected == c.injected
            && LiveSince(events, i, events[i].group)
            && now < events[i].group.createdAt + 30 * 60 * 1_000_000_000
  {
    hide ExpiredKeys, MatchingGroup, Splice.MergedInput;
    var run := events + [Continue(request, now)];
    assert run[..|run| - 1] == events;
    var s := After(events);
    var id := MatchingGroup(Pruned(s, now).groups, request).value;
    assert id in s.groups && !Expired(s.groups[id], now);
    i := RetainedIsLive(events, id);
  }

  // ------------------------------------------- which round, told from the fields

  /** The value is a text that trims to this one, which is not empty. */
  predicate IsText(value: Option<Json>, text: string) {
    text != "" && value.Some? && value.value.Str? && Trim(value.value.text) == text
  }

  /** The value under two keys, one inside the other. */
  predicate IsUnder(request: Json, outer: string, inner: string, value: Json) {
    request.Get(outer).Some? && request.Get(outer).value.Get(inner) == Some(value)
  }

  /** The installation id of a request: under `client_metadata` if there is any there, or else under
      `metadata`. */
  ghost predicate IsInstallation(request: Json, text: string) {
    exists value: Json ::
      && IsText(Some(value), text)
      && (|| IsUnder(request, "client_metadata", "x-codex-installation-id", value)
          || (&& (forall other :: !IsUnder(request, "client_metadata", "x-codex-installation-id", other))
              && IsUnder(request, "metadata", "x-codex-installation-id", value)))
  }

  /** The anchor names the cache key and the installation, as far as the request has them. */
  lemma AnchorExactly(request: Json, cache: string, installation: string)
    ensures var anchor := RequestAnchor(request);
            var key := request.Get("prompt_cache_key");
            && (IsText(key, cache) && IsInstallation(request, installation) ==>
                  anchor == Some("cache:" + cache + "\U{0}" + "installation:" + installation))
            && (IsText(key, cache) && (forall i :: !IsInstallation(request, i)) ==> anchor == Some("cache:" + cache))
            && ((forall c :: !IsText(key, c)) && IsInstallation(request, installation) ==>
                  anchor == Some("installation:" + installation))
            && ((forall c :: !IsText(key, c)) && (forall i :: !IsInstallation(request, i)) ==> anchor == None)
  {
    hide Trim;
    TextIs(request.Get("prompt_cache_key"), cache);
    InstallationIs(request, installation);
  }

  /** The installation the source looks up. */
  function Installation(request: Json): Option<string> {
    var direct := Pointer(request, "client_metadata", "x-codex-installation-id");
    NonemptyTrimmed(if direct.Some? then direct else Pointer(request, "metadata", "x-codex-installation-id"))
  }

  lemma TextIs(value: Option<Json>, text: string)
    ensures NonemptyTrimmed(value) == Some(text) <==> IsText(value, text)
    ensures NonemptyTrimmed(value) == None <==> forall t :: !IsText(value, t)
  {
    hide Trim;
    if NonemptyTrimmed(value).Some? {
      assert IsText(value, NonemptyTrimmed(value).value);
    }
  }

  lemma InstallationIs(request: Json, text: string)
    ensures Installation(request) == Some(text) <==> IsInstallation(request, text)
    ensures Installation(request) == None <==> forall t :: !IsInstallation(request, t)
  {
    hide Trim, IsText, NonemptyTrimmed;
    var direct := Pointer(request, "client_metadata", "x-codex-installation-id");
    var value := if direct.Some? then direct else Pointer(request, "metadata", "x-codex-installation-id");
    UnderIs(request, "client_metadata", "x-codex-installation-id");
    UnderIs(request, "metadata", "x-codex-installation-id");
    forall t
      ensures Installation(request) == Some(t) <==> IsInstallation(request, t)
    {
      TextIs(value, t);
      NoText(t);
    }
  }

  lemma NoText(text: string)
    ensures !IsText(None, text)
  {
  }

  lemma UnderIs(request: Json, outer: string, inner: string)
    ensures forall value :: Pointer(request, outer, inner) == Some(value) <==> IsUnder(request, outer, inner, value)
  {
  }

  /** The request carries a call of the round and belongs to its session. */
  predicate Continues(group: Group, request: Json) {
    && RequestAnchor(request).Some? && group.anchor == RequestAnchor(request)
    && request.Get("input").Some? && request.Get("input").value.Arr?
    && exists i, j | 0 <= i < |group.clientCallIds| && 0 <= j < |request.Get("input").value.items| ::
         request.Get("input").value.items[j].GetStr("call_id") == Some(group.clientCallIds[i])
  }

  lemma ContinuesIsCandidate(group: Group, request: Json)
    ensures Continues(group, request)
            <==> RequestAnchor(request).Some? && RequestInput(request).Some?
                 && Candidate(group, RequestAnchor(request).value, RequestInput(request).value)
  {
    hide RequestAnchor;
    if RequestInput(request).Some? {
      var input := RequestInput(request).value;
      if IsContinuedBy(group, input) {
        var i :| 0 <= i < |group.clientCallIds| && Mentions(input, group.clientCallIds[i]);
        var j :| 0 <= j < |input| && Splice.CallId(input[j]) == Some(group.clientCallIds[i]);
        assert input[j].GetStr("call_id") == Some(group.clientCallIds[i]);
      }
      if Continues(group, request) {
        var i, j :| 0 <= i < |group.clientCallIds| && 0 <= j < |input|
                    && input[j].GetStr("call_id") == Some(group.clientCallIds[i]);
        assert Splice.CallId(input[j]) == Some(group.clientCallIds[i]);
        assert Mentions(input, group.clientCallIds[i]);
      }
    }
  }

  /** The continuation is built from this round and the request's input. */
  ghost predicate IsFrom(c: Continuation, group: Group, request: Json) {
    && request.Get("input").Some? && request.Get("input").value.Arr?
    && c == Continuation(group.responseId, Splice.MergedInput(group.injected, request.Get("input").value.items),
                         group.injected)
  }

  /** The round continues, and no other that does is newer, or as new and later in key order. */
  predicate IsNewest(groups: Groups, request: Json, id: string) {
    && id in groups && Continues(groups[id], request)
    && forall k | k in groups && Continues(groups[k], request) ::
         && groups[k].createdAt <= groups[id].createdAt
         && (groups[k].createdAt == groups[id].createdAt ==> Leq(k, id))
  }

  /** A request that names a retained round continues that one, if it has an input array. */
  lemma NamedContinues(s: Store, request: Json, previous: string)
    requires IsText(request.Get("previous_response_id"), previous) && previous in s.groups
    ensures var c := ContinuationOf(s, request);
            && (c.Some? <==> request.Get("input").Some? && request.Get("input").value.Arr?)
            && (c.Some? ==> IsFrom(c.value, s.groups[previous], request))
  {
    hide IsText, Splice.MergedInput;
    TextIs(request.Get("previous_response_id"), previous);
  }

  /** Any other request continues a round exactly when some retained round of its session made a call
      that an item of its input carries; it is then the newest such, the last in key order among
      equals. */
  lemma AnchoredContinues(s: Store, request: Json)
    requires forall p | IsText(request.Get("previous_response_id"), p) :: p !in s.groups
    ensures var c := ContinuationOf(s, request);
            && (c.Some? <==> exists id | id in s.groups :: Continues(s.groups[id], request))
            && (c.Some? ==> exists id | id in s.groups ::
                  IsNewest(s.groups, request, id) && IsFrom(c.value, s.groups[id], request))
  {
    hide IsText, RequestAnchor, Candidate, Continues, Splice.MergedInput, Leq, IsNewest;
    NotNamed(s.groups, request);
    NewestContinues(s.groups, request);
    var r := MatchingGroup(s.groups, request);
    if r.Some? {
      ContinuesIsCandidate(s.groups[r.value], request);
      NewestIs(s.groups, request, r.value);
    }
  }

  lemma NewestIs(groups: Groups, request: Json, id: string)
    requires IsNewest(groups, request, id)
    ensures id in groups && Continues(groups[id], request)
  {
  }

  lemma NotNamed(groups: Groups, request: Json)
    requires forall p | IsText(request.Get("previous_response_id"), p) :: p !in groups
    ensures MatchingGroup(groups, request)
            == match (RequestAnchor(request), RequestInput(request))
               case (Some(anchor), Some(input)) => NewestCandidate(groups, Ascending(groups.Keys), anchor, input)
               case _ => None
  {
    hide IsText, RequestAnchor, NewestCandidate, Ascending;
    var value := request.Get("previous_response_id");
    var named := NonemptyTrimmed(value);
    if named.Some? {
      TextIs(value, named.value);
    }
  }

  lemma NewestContinues(groups: Groups, request: Json)
    ensures var r := match (RequestAnchor(request), RequestInput(request))
                     case (Some(anchor), Some(input)) => NewestCandidate(groups, Ascending(groups.Keys), anchor, input)
                     case _ => None;
            && (r.Some? ==> IsNewest(groups, request, r.value))
            && (r.None? ==> forall id | id in groups :: !Continues(groups[id], request))
  {
    hide RequestAnchor, RequestInput, Candidate, Continues, Leq, NewestCandidate, Ascending, StrictlyAscending;
    forall id | id in groups
      ensures Continues(groups[id], request)
              <==> RequestAnchor(request).Some? && RequestInput(request).Some?
                   && Candidate(groups[id], RequestAnchor(request).value, RequestInput(request).value)
    {
      ContinuesIsCandidate(groups[id], request);
    }
    if RequestAnchor(request).Some? && RequestInput(request).Some? {
      var anchor, input := RequestAnchor(request).value, RequestInput(request).value;
      AscendingSorted(groups.Keys);
      NewestIsLast(groups, Ascending(groups.Keys), anchor, input);
    }
  }

  lemma {:induction false} NewestIsLast(groups: Groups, keys: seq<string>, anchor: string, input: seq<Json>)
    requires StrictlyAscending(keys) && forall k | k in keys :: k in groups
    ensures var r := NewestCandidate(groups, keys, anchor, input);
            r.Some? ==> forall k | k in keys && Candidate(groups[k], anchor, input)
                                   && groups[k].createdAt == groups[r.value].createdAt :: Leq(k, r.value)
  {
    hide Candidate, Leq;
    if keys != [] {
      var n := |keys| - 1;
      assert forall k | k in keys[..n] :: k in keys;
      assert forall k | k in keys :: k == keys[n] || k in keys[..n];
      NewestIsLast(groups, keys[..n], anchor, input);
      LeqTotal(keys[n], keys[n]);
    }
  }

  /** Of equally old rounds the first in key order is evicted. */
  lemma OldestIsFirst(groups: Groups, k: string)
    requires k in groups && groups[k].createdAt == groups[Oldest(groups)].createdAt
    ensures Leq(Oldest(groups), k)
  {
    hide Leq;
    AscendingSorted(groups.Keys);
    OldestKeyIsFirst(groups, Ascending(groups.Keys), k);
  }

  lemma {:induction false} OldestKeyIsFirst(groups: Groups, keys: seq<string>, k: string)
    requires StrictlyAscending(keys) && k in keys && forall x | x in keys :: x in groups
    requires groups[k].createdAt == groups[OldestKey(groups, keys)].createdAt
    ensures Leq(OldestKey(groups, keys), k)
  {
    hide Leq;
    var n := |keys| - 1;
    LeqTotal(k, k);
    assert forall x | x in keys :: x == keys[n] || x in keys[..n];
    if n > 0 && k in keys[..n] {
      OldestKeyIsFirst(groups, keys[..n], k);
    }
  }
}
