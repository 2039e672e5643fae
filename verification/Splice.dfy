/**
 * Rebuilding retained provider turns inside the client's own input array
 * (crates/proxy/src/native_coordinator.rs).
 */
module Splice {
  import opened Wrappers
  import opened Json
  import opened Seqs

  /** A block of upstream input that the client never saw. */
  datatype Segment = Segment(offset: nat, items: seq<Json>)

  function CallId(item: Json): Option<string> {
    item.GetStr("call_id")
  }

  predicate IsToolOutput(item: Json) {
    item.GetStr("type") == Some("function_call_output") || item.GetStr("type") == Some("custom_tool_call_output")
  }

  predicate IsReasoning(item: Json) {
    item.GetStr("type") == Some("reasoning")
  }

  predicate IsProviderItem(item: Json) {
    !IsToolOutput(item)
  }

  /** A recognised output of the call `id`. */
  predicate IsOutputOf(item: Json, id: string) {
    IsToolOutput(item) && CallId(item) == Some(id)
  }

  // -------------------------------------------------------------- replayed turns

  /** The record's own output of a call: the last one it holds. */
  function RecordOutput(items: seq<Json>, id: string): (r: Option<Json>)
    ensures r.Some? ==> IsOutputOf(r.value, id)
  {
    if items == [] then None
    else
      var last := items[|items| - 1];
      if IsOutputOf(last, id) then Some(last) else RecordOutput(items[..|items| - 1], id)
  }

  /** The client's output of a call: the first one in its input. */
  function ClientOutput(input: seq<Json>, id: string): (r: Option<Json>)
    ensures r.Some? ==> IsOutputOf(r.value, id)
  {
    if input == [] then None
    else if IsOutputOf(input[0], id) then Some(input[0])
    else ClientOutput(input[1..], id)
  }

  /** The output a call is answered with; the record wins. */
  function OutputFor(items: seq<Json>, input: seq<Json>, id: string): (r: Option<Json>)
    ensures r.Some? ==> IsOutputOf(r.value, id)
  {
    if RecordOutput(items, id).Some? then RecordOutput(items, id) else ClientOutput(input, id)
  }

  function OutputsInOrder(calls: seq<Json>, items: seq<Json>, input: seq<Json>): seq<Json> {
    if calls == [] then []
    else
      var id := CallId(calls[0]);
      if id.Some? && OutputFor(items, input, id.value).Some? then
        [OutputFor(items, input, id.value).value] + OutputsInOrder(calls[1..], items, input)
      else OutputsInOrder(calls[1..], items, input)
  }

  /** The provider's items, followed by one output per call in provider order. */
  function ReplayedTurn(items: seq<Json>, input: seq<Json>): seq<Json> {
    var provider := Filter(IsProviderItem, items);
    provider + OutputsInOrder(provider, items, input)
  }

  /** The record's outputs by call id, a later one replacing an earlier one. */
  ghost predicate HoldsOutputs(hosted: map<string, Json>, items: seq<Json>) {
    && (forall id :: id in hosted <==> RecordOutput(items, id).Some?)
    && (forall id | id in hosted :: RecordOutput(items, id) == Some(hosted[id]))
  }

  lemma OneMoreItem(hosted: map<string, Json>, items: seq<Json>, item: Json)
    requires HoldsOutputs(hosted, items)
    ensures HoldsOutputs(
              if IsToolOutput(item) && CallId(item).Some? then hosted[CallId(item).value := item] else hosted,
              items + [item])
  {
    hide IsToolOutput, CallId;
    var all := items + [item];
    assert all[..|all| - 1] == items;
  }

  method SplitRecord(items: seq<Json>) returns (providerItems: seq<Json>, hostedOutputs: map<string, Json>)
    ensures providerItems == Filter(IsProviderItem, items)
    ensures HoldsOutputs(hostedOutputs, items)
  {
    hide IsToolOutput, CallId, HoldsOutputs;
    providerItems, hostedOutputs := [], map[];
    assert HoldsOutputs(map[], items[..0]) by {
      NoItems();
    }
    for i := 0 to |items|
      invariant providerItems == Filter(IsProviderItem, items[..i])
      invariant HoldsOutputs(hostedOutputs, items[..i])
    {
      var item := items[i];
      assert items[..i + 1] == items[..i] + [item];
      OneMoreItem(hostedOutputs, items[..i], item);
      FilterConcat(IsProviderItem, items[..i], [item]);
      if IsToolOutput(item) {
        if CallId(item).Some? {
          hostedOutputs := hostedOutputs[CallId(item).value := item];
        }
      } else {
        providerItems := providerItems + [item];
      }
    }
    assert items[..|items|] == items;
  }

  lemma NoItems()
    ensures HoldsOutputs(map[], [])
  {
  }

  method BuildReplayedTurn(items: seq<Json>, input: seq<Json>) returns (turn: seq<Json>)
    ensures turn == ReplayedTurn(items, input)
  {
    hide IsToolOutput, CallId, Filter, RecordOutput, ClientOutput;
    var providerItems, hostedOutputs := SplitRecord(items);
    var outputs: seq<Json> := [];
    assert providerItems[0..] == providerItems;
    for i := 0 to |providerItems|
      invariant outputs + OutputsInOrder(providerItems[i..], items, input)
                == OutputsInOrder(providerItems, items, input)
    {
      assert providerItems[i..][1..] == providerItems[i + 1..];
      var id := CallId(providerItems[i]);
      if id.Some? {
        if id.value in hostedOutputs {
          outputs := outputs + [hostedOutputs[id.value]];
        } else {
          var output := ClientOutput(input, id.value);
          if output.Some? {
            outputs := outputs + [output.value];
          }
        }
      }
    }
    turn := providerItems + outputs;
  }

  // ------------------------------------------------------- the client's dropped copy

  function SegmentCallIds(segment: Segment): set<string> {
    set item | item in segment.items && CallId(item).Some? :: CallId(item).value
  }

  function OwnedIds(segments: seq<Segment>): set<string> {
    set s, id | s in segments && id in SegmentCallIds(s) :: id
  }

  predicate OwnedHere(item: Json, owned: set<string>) {
    CallId(item).Some? && CallId(item).value in owned
  }

  /** The smallest offset, or the end of the input. */
  function TailStart(segments: seq<Segment>, n: nat): (t: nat)
    ensures t <= n
    ensures forall k | 0 <= k < |segments| :: t <= segments[k].offset
    ensures t == n || exists k | 0 <= k < |segments| :: t == segments[k].offset
  {
    if segments == [] then n
    else
      var init := segments[..|segments| - 1];
      var last := segments[|segments| - 1];
      if last.offset < TailStart(init, n) then last.offset else TailStart(init, n)
  }

  /** Item `f` is the first of the tail that carries a retained call id. */
  predicate IsFirstOwned(input: seq<Json>, tail: nat, owned: set<string>, f: nat) {
    tail <= f < |input| && OwnedHere(input[f], owned) && forall i | tail <= i < f :: !OwnedHere(input[i], owned)
  }

  /** Item `i` belongs to the reasoning run just before the first owned item. */
  predicate InOpeningReasoning(input: seq<Json>, tail: nat, owned: set<string>, i: nat) {
    exists f | i < f < |input| ::
      IsFirstOwned(input, tail, owned, f) && tail <= i && forall k | i <= k < f :: IsReasoning(input[k])
  }

  /** The client items the rebuilt turns replace. */
  predicate IsDropped(input: seq<Json>, tail: nat, owned: set<string>, i: nat) {
    tail <= i < |input| && (OwnedHere(input[i], owned) || InOpeningReasoning(input, tail, owned, i))
  }

  method FindDropped(input: seq<Json>, tail: nat, owned: set<string>) returns (dropped: set<nat>)
    requires tail <= |input|
    ensures forall i :: i in dropped <==> IsDropped(input, tail, owned, i)
  {
    hide OwnedHere, IsReasoning;
    dropped := {};
    var first := tail;
    while first < |input| && !OwnedHere(input[first], owned)
      invariant tail <= first <= |input|
      invariant forall i | tail <= i < first :: !OwnedHere(input[i], owned)
    {
      first := first + 1;
    }
    if first < |input| {
      var index := first;
      while index > tail && IsReasoning(input[index - 1])
        invariant tail <= index <= first
        invariant forall k | index <= k < first :: IsReasoning(input[k])
        invariant forall i :: i in dropped <==> index <= i < first
      {
        dropped := dropped + {index - 1};
        index := index - 1;
      }
      assert IsFirstOwned(input, tail, owned, first);
      forall i: nat
        ensures i in dropped <==> InOpeningReasoning(input, tail, owned, i)
      {
        OpeningRun(input, tail, owned, first, index, i);
      }
    } else {
      assert forall i: nat :: !InOpeningReasoning(input, tail, owned, i);
    }
    ghost var opening := dropped;
    for i := tail to |input|
      invariant forall j :: j in dropped <==> j in opening || (tail <= j < i && OwnedHere(input[j], owned))
    {
      if OwnedHere(input[i], owned) {
        dropped := dropped + {i};
      }
    }
    assert forall i | i in opening :: IsDropped(input, tail, owned, i);
  }

  lemma OpeningRun(input: seq<Json>, tail: nat, owned: set<string>, first: nat, index: nat, i: nat)
    requires tail <= index <= first && IsFirstOwned(input, tail, owned, first)
    requires forall k | index <= k < first :: IsReasoning(input[k])
    requires index > tail ==> !IsReasoning(input[index - 1])
    ensures InOpeningReasoning(input, tail, owned, i) <==> index <= i < first
  {
    hide OwnedHere, IsReasoning;
    if index <= i < first {
      assert IsFirstOwned(input, tail, owned, first);
    }
    if InOpeningReasoning(input, tail, owned, i) {
      var f :| i < f < |input| && IsFirstOwned(input, tail, owned, f) && tail <= i
               && forall k | i <= k < f :: IsReasoning(input[k]);
      assert f == first;
      assert forall k | i <= k < first :: IsReasoning(input[k]);
    }
  }

  // ------------------------------------------------------------------- the merge

  /** What the merged array is made of. */
  datatype Piece = Client(index: nat) | Turn(segment: nat)

  /** From client item `i` on, with segment `k` next: a segment goes in as soon as its offset is
      reached, client items follow unless dropped. */
  ghost function Weave(segments: seq<Segment>, n: nat, dropped: set<nat>, k: nat, i: nat): seq<Piece>
    requires k <= |segments| && i <= n
    decreases (n - i) + (|segments| - k)
  {
    if k < |segments| && Min(segments[k].offset, n) <= i then
      [Turn(k)] + Weave(segments, n, dropped, k + 1, i)
    else if i == n then []
    else if i in dropped then Weave(segments, n, dropped, k, i + 1)
    else [Client(i)] + Weave(segments, n, dropped, k, i + 1)
  }

  function Content(p: Piece, segments: seq<Segment>, input: seq<Json>): seq<Json> {
    match p
    case Client(i) => if i < |input| then [input[i]] else []
    case Turn(k) => if k < |segments| then ReplayedTurn(segments[k].items, input) else []
  }

  function Flatten(pieces: seq<Piece>, segments: seq<Segment>, input: seq<Json>): seq<Json> {
    if pieces == [] then []
    else Content(pieces[0], segments, input) + Flatten(pieces[1..], segments, input)
  }

  /** The indices the rebuilt turns replace. */
  ghost function DroppedSet(segments: seq<Segment>, input: seq<Json>): set<nat> {
    set i: nat | i < |input| && IsDropped(input, TailStart(segments, |input|), OwnedIds(segments), i)
  }

  ghost function Layout(segments: seq<Segment>, input: seq<Json>): seq<Piece> {
    Weave(segments, |input|, DroppedSet(segments, input), 0, 0)
  }

  ghost function MergedInput(segments: seq<Segment>, input: seq<Json>): seq<Json> {
    Flatten(Layout(segments, input), segments, input)
  }

  ghost function Woven(segments: seq<Segment>, input: seq<Json>, dropped: set<nat>, k: nat, i: nat): seq<Json>
    requires k <= |segments| && i <= |input|
  {
    Flatten(Weave(segments, |input|, dropped, k, i), segments, input)
  }

  lemma WovenStep(segments: seq<Segment>, input: seq<Json>, dropped: set<nat>, k: nat, i: nat)
    requires k <= |segments| && i <= |input|
    ensures var n := |input|;
            if k < |segments| && Min(segments[k].offset, n) <= i then
              Woven(segments, input, dropped, k, i)
              == ReplayedTurn(segments[k].items, input) + Woven(segments, input, dropped, k + 1, i)
            else if i == n then Woven(segments, input, dropped, k, i) == []
            else
              Woven(segments, input, dropped, k, i)
              == (if i in dropped then [] else [input[i]]) + Woven(segments, input, dropped, k, i + 1)
  {
    hide ReplayedTurn;
    var n := |input|;
    var w := Weave(segments, n, dropped, k, i);
    if k < |segments| && Min(segments[k].offset, n) <= i {
      assert w[1..] == Weave(segments, n, dropped, k + 1, i);
    } else if i < n {
      if i !in dropped {
        assert w[1..] == Weave(segments, n, dropped, k, i + 1);
      } else {
        assert [] + Woven(segments, input, dropped, k, i + 1) == Woven(segments, input, dropped, k, i + 1);
      }
    }
  }

  method Continuation(segments: seq<Segment>, input: seq<Json>) returns (merged: seq<Json>)
    ensures merged == MergedInput(segments, input)
  {
    hide ReplayedTurn, Weave, Flatten, IsDropped, OwnedIds, TailStart, Min, Woven;
    var tail := TailStart(segments, |input|);
    var dropped := FindDropped(input, tail, OwnedIds(segments));
    assert dropped == DroppedSet(segments, input) by {
      assert forall i | i in dropped :: i < |input| by {
        DroppedInRange(segments, input, dropped);
      }
    }
    merged := [];
    var k := 0;
    assert Woven(segments, input, dropped, 0, 0) == MergedInput(segments, input) by {
      WovenIsMerged(segments, input);
    }
    for index := 0 to |input|
      invariant k <= |segments|
      invariant merged + Woven(segments, input, dropped, k, index) == MergedInput(segments, input)
    {
      while k < |segments| && Min(segments[k].offset, |input|) <= index
        invariant k <= |segments|
        invariant merged + Woven(segments, input, dropped, k, index) == MergedInput(segments, input)
      {
        WovenStep(segments, input, dropped, k, index);
        var turn := BuildReplayedTurn(segments[k].items, input);
        merged := merged + turn;
        k := k + 1;
      }
      WovenStep(segments, input, dropped, k, index);
      if index !in dropped {
        merged := merged + [input[index]];
      } else {
        assert [] + Woven(segments, input, dropped, k, index + 1) == Woven(segments, input, dropped, k, index + 1);
      }
    }
    while k < |segments|
      invariant k <= |segments|
      invariant merged + Woven(segments, input, dropped, k, |input|) == MergedInput(segments, input)
    {
      MinBound(segments[k].offset, |input|);
      WovenStep(segments, input, dropped, k, |input|);
      var turn := BuildReplayedTurn(segments[k].items, input);
      merged := merged + turn;
      k := k + 1;
    }
    WovenStep(segments, input, dropped, k, |input|);
    assert merged + [] == merged;
  }

  lemma MinBound(offset: nat, n: nat)
    ensures Min(offset, n) <= n
  {
  }

  lemma WovenIsMerged(segments: seq<Segment>, input: seq<Json>)
    ensures Woven(segments, input, DroppedSet(segments, input), 0, 0) == MergedInput(segments, input)
  {
  }

  lemma DroppedInRange(segments: seq<Segment>, input: seq<Json>, dropped: set<nat>)
    requires forall i :: i in dropped <==> IsDropped(input, TailStart(segments, |input|), OwnedIds(segments), i)
    ensures forall i | i in dropped :: i < |input|
  {
  }

  // ------------------------------------------------------- where everything lands

  predicate IsClient(p: Piece) {
    p.Client?
  }

  predicate IsTurn(p: Piece) {
    p.Turn?
  }

  /** The client items that are kept, from index `i` on. */
  ghost function Kept(n: nat, dropped: set<nat>, i: nat): seq<Piece>
    requires i <= n
    decreases n - i
  {
    if i == n then [] else if i in dropped then Kept(n, dropped, i + 1) else [Client(i)] + Kept(n, dropped, i + 1)
  }

  /** All turns, from segment `k` on. */
  function Turns(count: nat, k: nat): seq<Piece>
    requires k <= count
    decreases count - k
  {
    if k == count then [] else [Turn(k)] + Turns(count, k + 1)
  }

  /** Where segment `k` goes in: at its offset, or later if an earlier segment goes in later. */
  function Landing(segments: seq<Segment>, n: nat, k: nat): (r: nat)
    requires k < |segments|
    ensures r <= n
  {
    var own := Min(segments[k].offset, n);
    if k == 0 || Landing(segments, n, k - 1) < own then own else Landing(segments, n, k - 1)
  }

  predicate SortedByOffset(segments: seq<Segment>) {
    forall j, k | 0 <= j < k < |segments| :: segments[j].offset <= segments[k].offset
  }

  /** Sorted segments go in exactly at their offsets. */
  lemma {:induction false} LandingSorted(segments: seq<Segment>, n: nat, k: nat)
    requires k < |segments| && SortedByOffset(segments)
    ensures Landing(segments, n, k) == Min(segments[k].offset, n)
  {
    if k > 0 {
      LandingSorted(segments, n, k - 1);
    }
  }

  /** The merged array holds the kept client items once each and in order, and every turn once,
      whole and in order. */
  lemma {:induction false} WeaveParts(segments: seq<Segment>, n: nat, dropped: set<nat>, k: nat, i: nat)
    requires k <= |segments| && i <= n
    ensures Filter(IsClient, Weave(segments, n, dropped, k, i)) == Kept(n, dropped, i)
    ensures Filter(IsTurn, Weave(segments, n, dropped, k, i)) == Turns(|segments|, k)
    decreases (n - i) + (|segments| - k)
  {
    var w := Weave(segments, n, dropped, k, i);
    if k < |segments| && Min(segments[k].offset, n) <= i {
      WeaveParts(segments, n, dropped, k + 1, i);
      assert w[1..] == Weave(segments, n, dropped, k + 1, i);
    } else if i < n {
      WeaveParts(segments, n, dropped, k, i + 1);
      if i !in dropped {
        assert w[1..] == Weave(segments, n, dropped, k, i + 1);
      }
    }
  }

  /** The state of the weave: everything before segment `k` has landed by item `i`. */
  predicate Reached(segments: seq<Segment>, n: nat, k: nat, i: nat) {
    k <= |segments| && i <= n && (k > 0 ==> Landing(segments, n, k - 1) <= i)
    && (forall j | k <= j < |segments| :: i <= Landing(segments, n, j))
  }

  lemma {:induction false} LandingGrows(segments: seq<Segment>, n: nat, j: nat, k: nat)
    requires j <= k < |segments|
    ensures Landing(segments, n, j) <= Landing(segments, n, k)
    decreases k - j
  {
    if j < k {
      LandingGrows(segments, n, j, k - 1);
    }
  }

  lemma ReachedTurn(segments: seq<Segment>, n: nat, k: nat, i: nat)
    requires Reached(segments, n, k, i) && k < |segments| && Min(segments[k].offset, n) <= i
    ensures Landing(segments, n, k) == i && Reached(segments, n, k + 1, i)
  {
  }

  lemma ReachedItem(segments: seq<Segment>, n: nat, k: nat, i: nat)
    requires Reached(segments, n, k, i) && i < n
    requires k < |segments| ==> Min(segments[k].offset, n) > i
    ensures Reached(segments, n, k, i + 1)
  {
    forall j | k <= j < |segments|
      ensures i + 1 <= Landing(segments, n, j)
    {
      LandingGrows(segments, n, k, j);
    }
  }

  lemma {:induction false} WeaveRange(segments: seq<Segment>, n: nat, dropped: set<nat>, k: nat, i: nat, p: nat)
    requires k <= |segments| && i <= n && p < |Weave(segments, n, dropped, k, i)|
    ensures match Weave(segments, n, dropped, k, i)[p]
            case Client(j) => i <= j < n
            case Turn(j) => k <= j < |segments|
    decreases (n - i) + (|segments| - k)
  {
    if k < |segments| && Min(segments[k].offset, n) <= i {
      if p > 0 {
        WeaveRange(segments, n, dropped, k + 1, i, p - 1);
      }
    } else if i in dropped {
      WeaveRange(segments, n, dropped, k, i + 1, p);
    } else if p > 0 {
      WeaveRange(segments, n, dropped, k, i + 1, p - 1);
    }
  }

  /** A turn stands after the client items below its landing index and before the others. */
  lemma {:induction false} WeavePlaces(segments: seq<Segment>, n: nat, dropped: set<nat>, k: nat, i: nat, p: nat,
                                      q: nat)
    requires Reached(segments, n, k, i)
    requires p < |Weave(segments, n, dropped, k, i)| && q < |Weave(segments, n, dropped, k, i)|
    requires Weave(segments, n, dropped, k, i)[p].Turn? && Weave(segments, n, dropped, k, i)[q].Client?
    ensures var w := Weave(segments, n, dropped, k, i);
            w[p].segment < |segments| && (q < p <==> w[q].index < Landing(segments, n, w[p].segment))
    decreases (n - i) + (|segments| - k)
  {
    hide Landing;
    WeaveRange(segments, n, dropped, k, i, p);
    WeaveRange(segments, n, dropped, k, i, q);
    if k < |segments| && Min(segments[k].offset, n) <= i {
      ReachedTurn(segments, n, k, i);
      if p > 0 {
        WeavePlaces(segments, n, dropped, k + 1, i, p - 1, q - 1);
      }
    } else {
      ReachedItem(segments, n, k, i);
      if i in dropped {
        WeavePlaces(segments, n, dropped, k, i + 1, p, q);
      } else if q > 0 {
        WeavePlaces(segments, n, dropped, k, i + 1, p - 1, q - 1);
      }
    }
  }

  /** The layout of the merged input, for any offsets: kept client items and turns, each once and
      in order, every turn right at its landing index. */
  lemma MergedLayout(segments: seq<Segment>, input: seq<Json>)
    ensures var layout := Layout(segments, input);
            && Filter(IsClient, layout) == Kept(|input|, DroppedSet(segments, input), 0)
            && Filter(IsTurn, layout) == Turns(|segments|, 0)
            && (forall p, q | 0 <= p < |layout| && 0 <= q < |layout| && layout[p].Turn? && layout[q].Client? ::
                  && layout[p].segment < |segments|
                  && (q < p <==> layout[q].index < Landing(segments, |input|, layout[p].segment)))
  {
    hide Weave, Landing, Filter, DroppedSet, Reached;
    var n, dropped := |input|, DroppedSet(segments, input);
    WeaveParts(segments, n, dropped, 0, 0);
    var layout := Layout(segments, input);
    forall p, q | 0 <= p < |layout| && 0 <= q < |layout| && layout[p].Turn? && layout[q].Client?
      ensures layout[p].segment < |segments|
              && (q < p <==> layout[q].index < Landing(segments, n, layout[p].segment))
    {
      StartReached(segments, n);
      WeavePlaces(segments, n, dropped, 0, 0, p, q);
    }
  }

  lemma StartReached(segments: seq<Segment>, n: nat)
    ensures Reached(segments, n, 0, 0)
  {
  }

  /** Without retained segments the client's input is forwarded as it is. */
  lemma {:induction false} NothingRetained(input: seq<Json>)
    ensures MergedInput([], input) == input
  {
    assert OwnedIds([]) == {};
    NothingWoven(input, 0);
  }

  lemma {:induction false} NothingWoven(input: seq<Json>, i: nat)
    requires i <= |input| && OwnedIds([]) == {}
    ensures Woven([], input, DroppedSet([], input), 0, i) == input[i..]
    decreases |input| - i
  {
    hide Weave, Woven;
    var dropped := DroppedSet([], input);
    WovenStep([], input, dropped, 0, i);
    if i < |input| {
      NothingWoven(input, i + 1);
    }
  }

  // --------------------------------------------------------- one output per call

  function CountOutputs(items: seq<Json>, id: string): nat {
    if items == [] then 0
    else (if IsOutputOf(items[0], id) then 1 else 0) + CountOutputs(items[1..], id)
  }

  lemma {:induction false} CountConcat(a: seq<Json>, b: seq<Json>, id: string)
    ensures CountOutputs(a + b, id) == CountOutputs(a, id) + CountOutputs(b, id)
  {
    hide IsOutputOf;
    if a == [] {
      assert a + b == b;
    } else {
      var s := a + b;
      assert s[1..] == a[1..] + b;
      CountConcat(a[1..], b, id);
    }
  }

  /** How often the provider items of a record call `id`. */
  function CountCalls(items: seq<Json>, id: string): nat {
    if items == [] then 0
    else (if IsProviderItem(items[0]) && CallId(items[0]) == Some(id) then 1 else 0) + CountCalls(items[1..], id)
  }

  lemma {:induction false} ProviderHasNoOutputs(items: seq<Json>, id: string)
    ensures CountOutputs(Filter(IsProviderItem, items), id) == 0
    ensures CountCalls(Filter(IsProviderItem, items), id) == CountCalls(items, id)
  {
    hide IsToolOutput, CallId;
    if items != [] {
      ProviderHasNoOutputs(items[1..], id);
      if IsProviderItem(items[0]) {
        assert Filter(IsProviderItem, items)[1..] == Filter(IsProviderItem, items[1..]);
      }
    }
  }

  lemma {:induction false} OutputsCounted(calls: seq<Json>, items: seq<Json>, input: seq<Json>, id: string)
    requires forall c | c in calls :: IsProviderItem(c)
    ensures CountOutputs(OutputsInOrder(calls, items, input), id)
            == if OutputFor(items, input, id).Some? then CountCalls(calls, id) else 0
  {
    hide OutputFor, IsToolOutput, CallId;
    if calls != [] {
      OutputsCounted(calls[1..], items, input, id);
      var o := OutputsInOrder(calls, items, input);
      var c := CallId(calls[0]);
      assert calls[0] in calls;
      if c.Some? && OutputFor(items, input, c.value).Some? {
        assert o[1..] == OutputsInOrder(calls[1..], items, input);
        assert IsOutputOf(o[0], c.value);
      }
    }
  }

  /** A replayed turn answers each of its calls that has an output once per call item. */
  lemma TurnCounted(items: seq<Json>, input: seq<Json>, id: string)
    ensures CountOutputs(ReplayedTurn(items, input), id)
            == if OutputFor(items, input, id).Some? then CountCalls(items, id) else 0
  {
    hide OutputFor, CountOutputs, OutputsInOrder, Filter;
    var provider := Filter(IsProviderItem, items);
    forall c | c in provider
      ensures IsProviderItem(c)
    {
      FilterMember(IsProviderItem, items, c);
    }
    ProviderHasNoOutputs(items, id);
    OutputsCounted(provider, items, input, id);
    CountConcat(provider, OutputsInOrder(provider, items, input), id);
  }

  /** The outputs of `id` in all turns from segment `k` on. */
  function TurnsOutputs(segments: seq<Segment>, input: seq<Json>, id: string, k: nat): nat
    requires k <= |segments|
    decreases |segments| - k
  {
    if k == |segments| then 0
    else CountOutputs(ReplayedTurn(segments[k].items, input), id) + TurnsOutputs(segments, input, id, k + 1)
  }

  /** The outputs of `id` among the client items from `i` on that are kept. */
  ghost function KeptOutputs(input: seq<Json>, dropped: set<nat>, id: string, i: nat): nat
    requires i <= |input|
    decreases |input| - i
  {
    if i == |input| then 0
    else (if i !in dropped && IsOutputOf(input[i], id) then 1 else 0) + KeptOutputs(input, dropped, id, i + 1)
  }

  lemma {:induction false} WovenCounted(segments: seq<Segment>, input: seq<Json>, dropped: set<nat>, id: string,
                                       k: nat, i: nat)
    requires k <= |segments| && i <= |input|
    ensures CountOutputs(Woven(segments, input, dropped, k, i), id)
            == TurnsOutputs(segments, input, id, k) + KeptOutputs(input, dropped, id, i)
    decreases (|input| - i) + (|segments| - k)
  {
    hide ReplayedTurn, Woven, IsOutputOf;
    WovenStep(segments, input, dropped, k, i);
    if k < |segments| && Min(segments[k].offset, |input|) <= i {
      WovenCounted(segments, input, dropped, id, k + 1, i);
      CountConcat(ReplayedTurn(segments[k].items, input), Woven(segments, input, dropped, k + 1, i), id);
    } else if i < |input| {
      WovenCounted(segments, input, dropped, id, k, i + 1);
      CountConcat(if i in dropped then [] else [input[i]], Woven(segments, input, dropped, k, i + 1), id);
    } else {
      OffsetsBound(segments, |input|);
    }
  }

  lemma OffsetsBound(segments: seq<Segment>, n: nat)
    ensures forall k | 0 <= k < |segments| :: Min(segments[k].offset, n) <= n
  {
  }

  /** Of a retained call id the client keeps only the outputs before the first offset; of any other
      id it keeps all. */
  lemma {:induction false} KeptCounted(segments: seq<Segment>, input: seq<Json>, id: string, i: nat)
    requires i <= |input|
    ensures var tail := TailStart(segments, |input|);
            var from := if id in OwnedIds(segments) then input[i..if i < tail then tail else i] else input[i..];
            KeptOutputs(input, DroppedSet(segments, input), id, i) == CountOutputs(from, id)
    decreases |input| - i
  {
    hide OwnedIds, TailStart;
    var tail := TailStart(segments, |input|);
    if i < |input| {
      KeptCounted(segments, input, id, i + 1);
      if IsOutputOf(input[i], id) {
        DroppedOutput(segments, input, id, i);
      }
      var from := if id in OwnedIds(segments) then input[i..if i < tail then tail else i] else input[i..];
      if from != [] {
        assert from[1..] == if id in OwnedIds(segments) then input[i + 1..tail] else input[i + 1..];
      }
    }
  }

  lemma DroppedOutput(segments: seq<Segment>, input: seq<Json>, id: string, i: nat)
    requires i < |input| && IsOutputOf(input[i], id)
    ensures i in DroppedSet(segments, input) <==> TailStart(segments, |input|) <= i && id in OwnedIds(segments)
  {
    hide OwnedIds, TailStart;
    assert !IsReasoning(input[i]);
  }

  /** Exactly how many outputs of each id the merged input holds. */
  lemma MergedOutputs(segments: seq<Segment>, input: seq<Json>, id: string)
    ensures CountOutputs(MergedInput(segments, input), id)
            == TurnsOutputs(segments, input, id, 0)
               + CountOutputs(if id in OwnedIds(segments) then input[..TailStart(segments, |input|)] else input, id)
  {
    hide OwnedIds, TailStart, DroppedSet, Weave, Flatten;
    WovenCounted(segments, input, DroppedSet(segments, input), id, 0, 0);
    KeptCounted(segments, input, id, 0);
    assert input[0..] == input;
    assert input[0..TailStart(segments, |input|)] == input[..TailStart(segments, |input|)];
  }

  /** The call `id` is made once, in segment `k`, across all retained turns. */
  predicate CalledOnce(segments: seq<Segment>, k: nat, id: string) {
    k < |segments| && forall j | 0 <= j < |segments| :: CountCalls(segments[j].items, id) == if j == k then 1 else 0
  }

  lemma {:induction false} TurnsOutputsOnce(segments: seq<Segment>, input: seq<Json>, id: string, k: nat, j: nat)
    requires CalledOnce(segments, k, id) && j <= |segments|
    ensures TurnsOutputs(segments, input, id, j)
            == if j <= k && OutputFor(segments[k].items, input, id).Some? then 1 else 0
    decreases |segments| - j
  {
    hide ReplayedTurn, OutputFor, CountCalls;
    if j < |segments| {
      TurnCounted(segments[j].items, input, id);
      TurnsOutputsOnce(segments, input, id, k, j + 1);
    }
  }

  lemma {:induction false} CalledIsOwned(items: seq<Json>, id: string)
    requires CountCalls(items, id) > 0
    ensures exists item | item in items :: CallId(item) == Some(id)
  {
    hide CallId, IsToolOutput;
    if IsProviderItem(items[0]) && CallId(items[0]) == Some(id) {
      assert items[0] in items;
    } else {
      CalledIsOwned(items[1..], id);
      var item :| item in items[1..] && CallId(item) == Some(id);
      assert item in items;
    }
  }

  // ---------------------------------------------------- outputs told from the fields

  predicate IsOutputType(item: Json) {
    item.GetStr("type") == Some("function_call_output") || item.GetStr("type") == Some("custom_tool_call_output")
  }

  predicate IsOutput(item: Json, id: string) {
    IsOutputType(item) && item.GetStr("call_id") == Some(id)
  }

  predicate HasOutput(items: seq<Json>, id: string) {
    exists i | 0 <= i < |items| :: IsOutput(items[i], id)
  }

  predicate IsLastOutput(items: seq<Json>, id: string, i: nat) {
    i < |items| && IsOutput(items[i], id) && forall j | i < j < |items| :: !IsOutput(items[j], id)
  }

  predicate IsFirstOutput(items: seq<Json>, id: string, i: nat) {
    i < |items| && IsOutput(items[i], id) && forall j | 0 <= j < i :: !IsOutput(items[j], id)
  }

  lemma KindsAre(item: Json, id: string)
    ensures IsToolOutput(item) <==> IsOutputType(item)
    ensures IsOutputOf(item, id) <==> IsOutput(item, id)
    ensures IsReasoning(item) <==> item.GetStr("type") == Some("reasoning")
    ensures CallId(item) == item.GetStr("call_id")
  {
  }

  /** The client's output of a call is the first one anywhere in its input. */
  lemma {:induction false} ClientOutputExactly(input: seq<Json>, id: string)
    ensures ClientOutput(input, id).Some? <==> HasOutput(input, id)
    ensures ClientOutput(input, id).Some? ==>
              exists i: nat :: IsFirstOutput(input, id, i) && ClientOutput(input, id).value == input[i]
  {
    hide IsOutput, IsOutputOf;
    if input != [] {
      var rest := input[1..];
      KindsAre(input[0], id);
      ClientOutputExactly(rest, id);
      if IsOutput(input[0], id) {
        assert IsFirstOutput(input, id, 0);
      } else if ClientOutput(rest, id).Some? {
        var i: nat :| IsFirstOutput(rest, id, i) && ClientOutput(rest, id).value == rest[i];
        assert IsFirstOutput(input, id, i + 1) && input[i + 1] == rest[i];
      } else {
        assert forall j | 1 <= j < |input| :: input[j] == rest[j - 1];
      }
    }
  }

  /** The record's output of a call is the last one it holds. */
  lemma {:induction false} RecordOutputExactly(items: seq<Json>, id: string)
    ensures RecordOutput(items, id).Some? <==> HasOutput(items, id)
    ensures RecordOutput(items, id).Some? ==>
              exists i: nat :: IsLastOutput(items, id, i) && RecordOutput(items, id).value == items[i]
  {
    hide IsOutput, IsOutputOf;
    if items != [] {
      var n := |items| - 1;
      KindsAre(items[n], id);
      RecordOutputExactly(items[..n], id);
      if IsOutput(items[n], id) {
        assert IsLastOutput(items, id, n);
      } else if RecordOutput(items[..n], id).Some? {
        var i: nat :| IsLastOutput(items[..n], id, i) && RecordOutput(items[..n], id).value == items[i];
        assert IsLastOutput(items, id, i);
      } else {
        assert forall j | 0 <= j < n :: items[..n][j] == items[j];
      }
    }
  }

  /** The record's last output, or else the client's first. */
  ghost predicate IsAnswer(items: seq<Json>, input: seq<Json>, id: string, output: Json) {
    if HasOutput(items, id) then exists i: nat :: IsLastOutput(items, id, i) && output == items[i]
    else exists i: nat :: IsFirstOutput(input, id, i) && output == input[i]
  }

  /** A call is answered whenever the record or the client holds an output of it. */
  lemma AnswerExactly(items: seq<Json>, input: seq<Json>, id: string)
    ensures OutputFor(items, input, id).Some? <==> HasOutput(items, id) || HasOutput(input, id)
    ensures OutputFor(items, input, id).Some? ==> IsAnswer(items, input, id, OutputFor(items, input, id).value)
  {
    hide HasOutput, IsOutput;
    RecordOutputExactly(items, id);
    ClientOutputExactly(input, id);
  }

  /** A call made once gets exactly one output if the record or the client holds one, and none
      otherwise, exactly when the client items before the first offset hold none of its outputs. */
  lemma OneOutputPerCall(segments: seq<Segment>, input: seq<Json>, id: string, k: nat)
    requires CalledOnce(segments, k, id)
    ensures var found := HasOutput(segments[k].items, id) || HasOutput(input, id);
            CountOutputs(MergedInput(segments, input), id) == (if found then 1 else 0)
            <==> !HasOutput(input[..TailStart(segments, |input|)], id)
  {
    hide OutputFor, MergedInput, TailStart, CountCalls, TurnsOutputs, HasOutput;
    assert id in OwnedIds(segments) by {
      CalledIsOwned(segments[k].items, id);
      assert segments[k] in segments && id in SegmentCallIds(segments[k]);
    }
    MergedOutputs(segments, input, id);
    TurnsOutputsOnce(segments, input, id, k, 0);
    AnswerExactly(segments[k].items, input, id);
    SomeCounted(input[..TailStart(segments, |input|)], id);
  }

  lemma {:induction false} SomeCounted(items: seq<Json>, id: string)
    ensures CountOutputs(items, id) > 0 <==> HasOutput(items, id)
  {
    hide IsOutput, IsOutputOf;
    if items != [] {
      KindsAre(items[0], id);
      SomeCounted(items[1..], id);
      assert forall j | 1 <= j < |items| :: items[j] == items[1..][j - 1];
    }
  }

  // -------------------------------------------------------------- a whole turn

  predicate IsProvided(item: Json) {
    !IsOutputType(item)
  }

  /** The item makes a call that the record or the client answers. */
  predicate IsAnsweredCall(items: seq<Json>, input: seq<Json>, call: Json) {
    var id := call.GetStr("call_id");
    id.Some? && (HasOutput(items, id.value) || HasOutput(input, id.value))
  }

  /** A rebuilt turn is the record without its outputs, whole and in order, and then one output for
      each call that has one, in call order: the record's last or else the client's first. */
  lemma TurnLayout(items: seq<Json>, input: seq<Json>)
    ensures var turn, provided := ReplayedTurn(items, input), Filter(IsProvided, items);
            var calls := Filter(call => IsAnsweredCall(items, input, call), provided);
            && |turn| == |provided| + |calls| && turn[..|provided|] == provided
            && forall n | 0 <= n < |calls| ::
                 calls[n].GetStr("call_id").Some?
                 && IsAnswer(items, input, calls[n].GetStr("call_id").value, turn[|provided| + n])
  {
    hide OutputFor, IsOutputType, HasOutput, IsAnswer, Filter, ReplayedTurn, OutputsInOrder, IsAnsweredCall, IsAnswered;
    var provided := Filter(IsProvided, items);
    TurnIs(items, input);
    AnsweredAgree(items, input, provided);
    OutputsFollowCalls(provided, items, input);
    var calls := Filter(call => IsAnsweredCall(items, input, call), provided);
    forall n | 0 <= n < |calls|
      ensures calls[n].GetStr("call_id").Some?
      ensures IsAnswer(items, input, calls[n].GetStr("call_id").value, OutputsInOrder(provided, items, input)[n])
    {
      KindsAre(calls[n], "");
      AnswerExactly(items, input, CallId(calls[n]).value);
    }
  }

  lemma TurnIs(items: seq<Json>, input: seq<Json>)
    ensures var provided := Filter(IsProvided, items);
            ReplayedTurn(items, input) == provided + OutputsInOrder(provided, items, input)
  {
    hide Filter, OutputsInOrder, IsOutputType, IsToolOutput;
    forall item | item in items
      ensures IsProviderItem(item) == IsProvided(item)
    {
      KindsAre(item, "");
    }
    FilterAgree(IsProviderItem, IsProvided, items);
  }

  lemma AnsweredAgree(items: seq<Json>, input: seq<Json>, provided: seq<Json>)
    ensures Filter(call => IsAnsweredCall(items, input, call), provided)
            == Filter(call => IsAnswered(items, input, call), provided)
  {
    hide Filter, OutputFor, HasOutput;
    forall call | call in provided
      ensures IsAnsweredCall(items, input, call) == IsAnswered(items, input, call)
    {
      KindsAre(call, "");
      if CallId(call).Some? {
        AnswerExactly(items, input, CallId(call).value);
      }
    }
    FilterAgree(call => IsAnsweredCall(items, input, call), call => IsAnswered(items, input, call), provided);
  }

  // ---------------------------------------------------------- what is left out

  /** Some retained item carries the item's call id. */
  predicate IsRetained(segments: seq<Segment>, item: Json) {
    item.GetStr("call_id").Some?
    && exists k, i | 0 <= k < |segments| && 0 <= i < |segments[k].items| ::
         segments[k].items[i].GetStr("call_id") == item.GetStr("call_id")
  }

  /** Item `f` is the first one from `tail` on that carries a retained call id. */
  predicate IsFirstRetained(segments: seq<Segment>, input: seq<Json>, tail: nat, f: nat) {
    tail <= f < |input| && IsRetained(segments, input[f])
    && forall j | tail <= j < f :: !IsRetained(segments, input[j])
  }

  lemma RetainedIsOwned(segments: seq<Segment>, item: Json)
    ensures OwnedHere(item, OwnedIds(segments)) <==> IsRetained(segments, item)
  {
    KindsAre(item, "");
    if OwnedHere(item, OwnedIds(segments)) {
      var id := CallId(item).value;
      var s :| s in segments && id in SegmentCallIds(s);
      var x :| x in s.items && CallId(x).Some? && CallId(x).value == id;
      var k :| 0 <= k < |segments| && segments[k] == s;
      var i :| 0 <= i < |s.items| && s.items[i] == x;
      assert segments[k].items[i].GetStr("call_id") == item.GetStr("call_id");
    }
    if IsRetained(segments, item) {
      var k, i :| 0 <= k < |segments| && 0 <= i < |segments[k].items|
                  && segments[k].items[i].GetStr("call_id") == item.GetStr("call_id");
      assert segments[k].items[i] in segments[k].items;
      assert CallId(item).value in SegmentCallIds(segments[k]);
    }
  }

  /** A client item is left out exactly when it lies at or after the smallest offset and either
      carries a retained call id or belongs to the reasoning run just before the first that does. */
  lemma DroppedExactly(segments: seq<Segment>, input: seq<Json>, i: nat)
    ensures var tail := TailStart(segments, |input|);
            i in DroppedSet(segments, input)
            <==> && tail <= i < |input|
                 && (|| IsRetained(segments, input[i])
                     || exists f: nat | i < f < |input| ::
                          IsFirstRetained(segments, input, tail, f)
                          && forall j | i <= j < f :: input[j].GetStr("type") == Some("reasoning"))
  {
    hide OwnedIds, OwnedHere, TailStart, IsRetained;
    var tail, owned := TailStart(segments, |input|), OwnedIds(segments);
    forall j | 0 <= j < |input|
      ensures OwnedHere(input[j], owned) <==> IsRetained(segments, input[j])
      ensures IsReasoning(input[j]) <==> input[j].GetStr("type") == Some("reasoning")
    {
      RetainedIsOwned(segments, input[j]);
      KindsAre(input[j], "");
    }
    forall f: nat
      ensures IsFirstRetained(segments, input, tail, f) <==> IsFirstOwned(input, tail, owned, f)
    {
    }
  }

  /** The item calls an id that the record or the client answers. */
  predicate IsAnswered(items: seq<Json>, input: seq<Json>, call: Json) {
    CallId(call).Some? && OutputFor(items, input, CallId(call).value).Some?
  }

  /** The outputs of a turn follow its provider items, one per answered call and in call order: as
      many as there are answered calls, the n-th for the n-th of them. */
  lemma {:induction false} OutputsFollowCalls(calls: seq<Json>, items: seq<Json>, input: seq<Json>)
    ensures var answered := Filter(call => IsAnswered(items, input, call), calls);
            var outputs := OutputsInOrder(calls, items, input);
            && |outputs| == |answered|
            && forall n | 0 <= n < |outputs| ::
                 CallId(answered[n]).Some?
                 && OutputFor(items, input, CallId(answered[n]).value) == Some(outputs[n])
                 && IsOutputOf(outputs[n], CallId(answered[n]).value)
  {
    hide OutputFor, IsToolOutput, CallId;
    if calls != [] {
      OutputsFollowCalls(calls[1..], items, input);
    }
  }
}
