/**
 Gathering one batch of errors (apps/api/src/modules/monitoring/error-collector.service.ts:35-96): the loop
 with its map of groups, against the groups of each key taken alone.
 */
module ErrorAggregation {
  import opened Options
  import opened ErrorGroups

  /** What stands for the errors that the full buffer turned away. */
  function DroppedGroup(now: int, overflow: string): CapturedError {
    CapturedError(ERROR, APP, Some("Monitoring"), None, None, overflow, None, now)
  }

  function Once(event: CapturedError): Weighted {
    Weighted(event, 1)
  }

  function Weigh(events: seq<CapturedError>): seq<Weighted> {
    if events == [] then [] else Weigh(events[..|events| - 1]) + [Once(events[|events| - 1])]
  }

  /** The events of a batch, each once, and then one event for all that were dropped. */
  function Batch(events: seq<CapturedError>, dropped: nat, now: int, overflow: string): seq<Weighted> {
    Weigh(events) + if dropped > 0 then [Weighted(DroppedGroup(now, overflow), dropped)] else []
  }

  lemma {:induction false} WeighWeighs(events: seq<CapturedError>)
    ensures Weight(Weigh(events)) == |events| == |Weigh(events)|
  {
    if events != [] {
      WeighWeighs(events[..|events| - 1]);
    }
  }

  lemma BatchWeighs(events: seq<CapturedError>, dropped: nat, now: int, overflow: string)
    ensures Weight(Batch(events, dropped, now, overflow)) == |events| + dropped
  {
    WeighWeighs(events);
    var all := Weigh(events);
    if dropped > 0 {
      assert (all + [Weighted(DroppedGroup(now, overflow), dropped)])[..|all|] == all;
    } else {
      assert all + [] == all;
    }
  }

  lemma {:induction false} WeighEach(events: seq<CapturedError>)
    ensures |Weigh(events)| == |events|
    ensures forall k :: 0 <= k < |events| ==> Weigh(events)[k] == Weighted(events[k], 1)
  {
    if events != [] {
      WeighEach(events[..|events| - 1]);
    }
  }

  /** Each event counts once and keeps its place; all that were dropped are one error of the monitoring itself. */
  lemma BatchHolds(events: seq<CapturedError>, dropped: nat, now: int, overflow: string)
    ensures var batch := Batch(events, dropped, now, overflow);
            && |batch| == |events| + (if dropped > 0 then 1 else 0)
            && (forall k :: 0 <= k < |events| ==> batch[k] == Weighted(events[k], 1))
            && (dropped > 0 ==>
                  && batch[|events|].weight == dropped
                  && var e := batch[|events|].event;
                     e.level == ERROR && e.source == APP && e.context == Some("Monitoring") && e.route == None &&
                     e.statusCode == None && e.message == overflow && e.stack == None && e.at == now)
  {
    WeighEach(events);
  }

  // ---- The groups of a batch ----

  ghost predicate IsGroupAt(groups: seq<Group>, ws: seq<Weighted>, keyOf: Keying, k: nat)
    requires k < |groups|
  {
    GroupOf(groups[k].key, ws, keyOf) == Some(groups[k])
  }

  ghost predicate HasDistinctKeys(groups: seq<Group>) {
    forall j, k :: 0 <= j < k < |groups| ==> groups[j].key != groups[k].key
  }

  ghost predicate HoldsKey(groups: seq<Group>, key: Key) {
    exists k :: 0 <= k < |groups| && groups[k].key == key
  }

  /** One group for each key of the batch, and each is what the errors of its key come to. */
  ghost predicate IsAggregate(groups: seq<Group>, ws: seq<Weighted>, keyOf: Keying) {
    && HasDistinctKeys(groups)
    && (forall k :: 0 <= k < |groups| ==> IsGroupAt(groups, ws, keyOf, k))
    && (forall key :: GroupOf(key, ws, keyOf).Some? ==> HoldsKey(groups, key))
  }

  /** The map from keys to the places of their groups; a key keeps its place. */
  ghost predicate IsIndex(index: map<Key, nat>, groups: seq<Group>) {
    && (forall key :: key in index ==> index[key] < |groups| && groups[index[key]].key == key)
    && (forall k :: 0 <= k < |groups| ==> groups[k].key in index && index[groups[k].key] == k)
  }

  lemma IndexIsFaithful(index: map<Key, nat>, groups: seq<Group>)
    requires IsIndex(index, groups)
    ensures HasDistinctKeys(groups)
    ensures forall key :: key in index <==> HoldsKey(groups, key)
  {}

  lemma IndexGrows(index: map<Key, nat>, groups: seq<Group>, g: Group)
    requires IsIndex(index, groups) && g.key !in index
    ensures IsIndex(index[g.key := |groups|], groups + [g])
  {}

  lemma IndexStays(index: map<Key, nat>, groups: seq<Group>, g: Group)
    requires IsIndex(index, groups) && g.key in index
    ensures IsIndex(index, groups[index[g.key] := g])
  {}

  lemma AggregateGrows(groups: seq<Group>, ws: seq<Weighted>, w: Weighted, keyOf: Keying)
    requires IsAggregate(groups, ws, keyOf) && !HoldsKey(groups, keyOf(w.event))
    ensures IsAggregate(groups + [NewGroup(w, keyOf)], ws + [w], keyOf)
  {
    hide GroupOf;
    var key, g := keyOf(w.event), NewGroup(w, keyOf);
    var longer := groups + [g];
    GroupOfSnoc(key, ws, w, keyOf);
    forall k | 0 <= k < |longer|
      ensures IsGroupAt(longer, ws + [w], keyOf, k)
    {
      GroupOfSnoc(longer[k].key, ws, w, keyOf);
      assert k < |groups| ==> IsGroupAt(groups, ws, keyOf, k);
    }
    forall other | GroupOf(other, ws + [w], keyOf).Some?
      ensures HoldsKey(longer, other)
    {
      GroupOfSnoc(other, ws, w, keyOf);
      if other == key {
        assert longer[|groups|].key == key;
      } else {
        var k :| 0 <= k < |groups| && groups[k].key == other;
        assert longer[k].key == other;
      }
    }
  }

  lemma AggregateMerges(groups: seq<Group>, ws: seq<Weighted>, w: Weighted, k: nat, keyOf: Keying)
    requires IsAggregate(groups, ws, keyOf) && k < |groups| && groups[k].key == keyOf(w.event)
    ensures IsAggregate(groups[k := Merged(groups[k], w)], ws + [w], keyOf)
  {
    hide GroupOf, Merged;
    var changed := groups[k := Merged(groups[k], w)];
    forall j | 0 <= j < |changed|
      ensures IsGroupAt(changed, ws + [w], keyOf, j)
    {
      GroupOfSnoc(changed[j].key, ws, w, keyOf);
      assert IsGroupAt(groups, ws, keyOf, j);
    }
    forall other | GroupOf(other, ws + [w], keyOf).Some?
      ensures HoldsKey(changed, other)
    {
      GroupOfSnoc(other, ws, w, keyOf);
      if other == groups[k].key {
        assert changed[k].key == other;
      } else {
        var j :| 0 <= j < |groups| && groups[j].key == other;
        assert changed[j].key == other;
      }
    }
  }

  ghost predicate IsGathered(
    groups: seq<Group>, index: map<Key, nat>, ws: seq<Weighted>, keyOf: Keying)
  {
    IsAggregate(groups, ws, keyOf) && IsIndex(index, groups) && CountOf(groups) == Weight(ws)
  }

  lemma NothingGathered(keyOf: Keying)
    ensures IsGathered([], map[], [], keyOf)
  {}

  method Gather(
    groups: seq<Group>, index: map<Key, nat>, w: Weighted, keyOf: Keying, ghost ws: seq<Weighted>)
    returns (groups': seq<Group>, index': map<Key, nat>)
    requires IsGathered(groups, index, ws, keyOf)
    ensures IsGathered(groups', index', ws + [w], keyOf)
  {
    hide GroupOf, IsAggregate;
    assert (ws + [w])[..|ws|] == ws;
    IndexIsFaithful(index, groups);
    var key := keyOf(w.event);
    if key !in index {
      var g := NewGroup(w, keyOf);
      AggregateGrows(groups, ws, w, keyOf);
      IndexGrows(index, groups, g);
      CountOfSnoc(groups, g);
      groups', index' := groups + [g], index[key := |groups|];
    } else {
      var g := Merged(groups[index[key]], w);
      AggregateMerges(groups, ws, w, index[key], keyOf);
      IndexStays(index, groups, g);
      CountOfChanged(groups, index[key], g);
      groups', index' := groups[index[key] := g], index;
    }
  }

  method AggregateBatch(
    events: seq<CapturedError>, dropped: nat, now: int, overflow: string, keyOf: Keying)
    returns (groups: seq<Group>)
    ensures IsAggregate(groups, Batch(events, dropped, now, overflow), keyOf)
    ensures CountOf(groups) == |events| + dropped
  {
    hide IsGathered;
    var weighted := Batch(events, dropped, now, overflow);
    BatchWeighs(events, dropped, now, overflow);
    var index: map<Key, nat> := map[];
    groups := [];
    NothingGathered(keyOf);
    for k := 0 to |weighted|
      invariant IsGathered(groups, index, weighted[..k], keyOf)
    {
      assert weighted[..k + 1] == weighted[..k] + [weighted[k]];
      groups, index := Gather(groups, index, weighted[k], keyOf, weighted[..k]);
    }
    assert weighted[..|weighted|] == weighted;
    GatheredMeans(groups, index, weighted, keyOf);
  }

  lemma GatheredMeans(groups: seq<Group>, index: map<Key, nat>, ws: seq<Weighted>, keyOf: Keying)
    requires IsGathered(groups, index, ws, keyOf)
    ensures IsAggregate(groups, ws, keyOf) && CountOf(groups) == Weight(ws)
  {}
}
