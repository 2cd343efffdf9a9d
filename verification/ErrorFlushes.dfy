/**
 Flush after flush against one aggregation of the whole stream
 (apps/api/src/modules/monitoring/error-collector.service.ts:50-151, 202-217): the rows that the upserts
 leave are those of a single batch, for every way of cutting the stream into flushes.
 */
module ErrorFlushes {
  import opened Options
  import opened ErrorGroups
  import opened ErrorAggregation

  // ---- One transaction, key by key ----

  function Stored(row: Option<Group>, g: Option<Group>): Option<Group> {
    if g.None? then row else Some(Upserted(row, g.value))
  }

  lemma {:induction false} OthersUntouched(rows: Rows, groups: seq<Group>, key: Key)
    requires forall k :: 0 <= k < |groups| ==> groups[k].key != key
    ensures RowAt(UpsertAll(rows, groups), key) == RowAt(rows, key)
  {
    hide Upserted;
    if groups != [] {
      OthersUntouched(rows, groups[..|groups| - 1], key);
    }
  }

  lemma {:induction false} UpsertedOnce(rows: Rows, groups: seq<Group>, k: nat)
    requires HasDistinctKeys(groups) && k < |groups|
    ensures RowAt(UpsertAll(rows, groups), groups[k].key) == Some(Upserted(RowAt(rows, groups[k].key), groups[k]))
  {
    hide Upserted;
    var front := groups[..|groups| - 1];
    if k == |groups| - 1 {
      OthersUntouched(rows, front, groups[k].key);
    } else {
      UpsertedOnce(rows, front, k);
    }
  }

  /** What a committed flush makes of the row of each key. */
  lemma CommitStores(rows: Rows, groups: seq<Group>, ws: seq<Weighted>, keyOf: Keying, key: Key)
    requires IsAggregate(groups, ws, keyOf)
    ensures RowAt(UpsertAll(rows, groups), key) == Stored(RowAt(rows, key), GroupOf(key, ws, keyOf))
  {
    hide GroupOf, Upserted, UpsertAll, RowAt;
    if HoldsKey(groups, key) {
      var k :| 0 <= k < |groups| && groups[k].key == key;
      assert IsGroupAt(groups, ws, keyOf, k);
      UpsertedOnce(rows, groups, k);
    } else {
      OthersUntouched(rows, groups, key);
    }
  }

  // ---- The stream and its cuts ----

  function Stream(batches: seq<seq<Weighted>>): seq<Weighted> {
    if batches == [] then [] else Stream(batches[..|batches| - 1]) + batches[|batches| - 1]
  }

  /** The row of a key after all flushes committed. */
  function RowAfter(batches: seq<seq<Weighted>>, key: Key, keyOf: Keying): Option<Group> {
    if batches == [] then None
    else
      Stored(RowAfter(batches[..|batches| - 1], key, keyOf), GroupOf(key, batches[|batches| - 1], keyOf))
  }

  predicate TimesNeverGoBack(ws: seq<Weighted>) {
    forall j, k :: 0 <= j < k < |ws| ==> ws[j].event.at <= ws[k].event.at
  }

  predicate IsOver(g: Option<Group>, time: int) {
    g.Some? ==> g.value.firstSeenAt <= g.value.lastSeenAt <= time
  }

  lemma {:induction false} GroupIsOver(key: Key, ws: seq<Weighted>, time: int, keyOf: Keying)
    requires forall k :: 0 <= k < |ws| ==> ws[k].event.at <= time
    ensures IsOver(GroupOf(key, ws, keyOf), time)
  {
    if ws != [] {
      GroupIsOver(key, ws[..|ws| - 1], time, keyOf);
    }
  }

  predicate SameButStack(a: Option<Group>, b: Option<Group>) {
    && a.Some? == b.Some?
    && (a.Some? ==> a.value.(stack := None) == b.value.(stack := None))
  }

  /** One more error, before the update or after it. */
  lemma JoiningCommutes(row: Option<Group>, g: Option<Group>, w: Weighted, keyOf: Keying)
    requires IsOver(row, w.event.at) && IsOver(g, w.event.at)
    ensures SameButStack(Some(Joined(Stored(row, g), w, keyOf)), Stored(row, Some(Joined(g, w, keyOf))))
  {}

  lemma JoiningSimilar(a: Option<Group>, b: Option<Group>, w: Weighted, keyOf: Keying)
    requires SameButStack(a, b)
    ensures SameButStack(Some(Joined(a, w, keyOf)), Some(Joined(b, w, keyOf)))
  {}

  lemma StoringSimilar(a: Option<Group>, b: Option<Group>, g: Option<Group>)
    requires SameButStack(a, b)
    ensures SameButStack(Stored(a, g), Stored(b, g))
  {}

  lemma StreamSplits(a: seq<Weighted>, b: seq<Weighted>)
    requires TimesNeverGoBack(a + b) && b != []
    ensures a + b == (a + b[..|b| - 1]) + [b[|b| - 1]]
    ensures TimesNeverGoBack(a + b[..|b| - 1])
    ensures forall k :: 0 <= k < |a| ==> a[k].event.at <= b[|b| - 1].event.at
    ensures forall k :: 0 <= k < |b| - 1 ==> b[k].event.at <= b[|b| - 1].event.at
  {
    var ws := a + b;
    forall k | 0 <= k < |a|
      ensures a[k].event.at <= b[|b| - 1].event.at
    {
      assert ws[k].event.at <= ws[|ws| - 1].event.at;
    }
    forall k | 0 <= k < |b| - 1
      ensures b[k].event.at <= b[|b| - 1].event.at
    {
      assert ws[|a| + k].event.at <= ws[|ws| - 1].event.at;
    }
    var shorter := a + b[..|b| - 1];
    forall j, k | 0 <= j < k < |shorter|
      ensures shorter[j].event.at <= shorter[k].event.at
    {
      assert ws[j].event.at <= ws[k].event.at;
    }
  }

  lemma {:induction false} CutKeepsAllButStack(key: Key, a: seq<Weighted>, b: seq<Weighted>, keyOf: Keying)
    requires TimesNeverGoBack(a + b)
    ensures SameButStack(GroupOf(key, a + b, keyOf),
                         Stored(GroupOf(key, a, keyOf), GroupOf(key, b, keyOf)))
    decreases |b|
  {
    hide Joined, SameButStack, TimesNeverGoBack, Upserted;
    if b == [] {
      assert a + b == a;
      SimilarToItself(GroupOf(key, a, keyOf));
    } else {
      var front, last := b[..|b| - 1], b[|b| - 1];
      StreamSplits(a, b);
      CutKeepsAllButStack(key, a, front, keyOf);
      GroupOfSnoc(key, a + front, last, keyOf);
      if keyOf(last.event) == key {
        var row, g := GroupOf(key, a, keyOf), GroupOf(key, front, keyOf);
        GroupIsOver(key, a, last.event.at, keyOf);
        GroupIsOver(key, front, last.event.at, keyOf);
        JoiningSimilar(GroupOf(key, a + front, keyOf), Stored(row, g), last, keyOf);
        JoiningCommutes(row, g, last, keyOf);
        SimilarThrough(Some(Joined(GroupOf(key, a + front, keyOf), last, keyOf)),
                       Some(Joined(Stored(row, g), last, keyOf)), Stored(row, Some(Joined(g, last, keyOf))));
      }
    }
  }

  lemma SimilarToItself(a: Option<Group>)
    ensures SameButStack(a, a)
  {}

  lemma SimilarThrough(a: Option<Group>, b: Option<Group>, c: Option<Group>)
    requires SameButStack(a, b) && SameButStack(b, c)
    ensures SameButStack(a, c)
  {}

  lemma StreamPrefix(a: seq<Weighted>, b: seq<Weighted>)
    requires TimesNeverGoBack(a + b)
    ensures TimesNeverGoBack(a)
  {
    forall j, k | 0 <= j < k < |a|
      ensures a[j].event.at <= a[k].event.at
    {
      assert (a + b)[j].event.at <= (a + b)[k].event.at;
    }
  }

  /** Key, level, source, counts, times, message and status are those of the whole stream, however it is cut. */
  lemma {:induction false} FlushesKeepAllButStack(batches: seq<seq<Weighted>>, key: Key, keyOf: Keying)
    requires TimesNeverGoBack(Stream(batches))
    ensures SameButStack(GroupOf(key, Stream(batches), keyOf), RowAfter(batches, key, keyOf))
  {
    hide GroupOf, SameButStack, TimesNeverGoBack, Stored;
    if batches == [] {
      NoErrors(key, keyOf);
    } else {
      var front, last := batches[..|batches| - 1], batches[|batches| - 1];
      StreamPrefix(Stream(front), last);
      FlushesKeepAllButStack(front, key, keyOf);
      CutKeepsAllButStack(key, Stream(front), last, keyOf);
      var g := GroupOf(key, last, keyOf);
      StoringSimilar(GroupOf(key, Stream(front), keyOf), RowAfter(front, key, keyOf), g);
      SimilarThrough(GroupOf(key, Stream(batches), keyOf), Stored(GroupOf(key, Stream(front), keyOf), g),
                     RowAfter(batches, key, keyOf));
    }
  }

  // ---- Clocks that go back ----

  /** What no order of the errors and no cut can change. */
  predicate SameInAnyOrder(a: Option<Group>, b: Option<Group>) {
    && a.Some? == b.Some?
    && (a.Some? ==>
          && a.value.key == b.value.key && a.value.level == b.value.level && a.value.source == b.value.source
          && a.value.context == b.value.context && a.value.route == b.value.route && a.value.count == b.value.count)
  }

  lemma JoiningInAnyOrder(row: Option<Group>, g: Option<Group>, whole: Option<Group>, w: Weighted, keyOf: Keying)
    requires SameInAnyOrder(whole, Stored(row, g))
    ensures SameInAnyOrder(Some(Joined(whole, w, keyOf)), Stored(row, Some(Joined(g, w, keyOf))))
  {}

  lemma {:induction false} CutInAnyOrder(key: Key, a: seq<Weighted>, b: seq<Weighted>, keyOf: Keying)
    ensures SameInAnyOrder(GroupOf(key, a + b, keyOf), Stored(GroupOf(key, a, keyOf), GroupOf(key, b, keyOf)))
    decreases |b|
  {
    hide Joined, Upserted;
    if b == [] {
      assert a + b == a;
    } else {
      var front, last := b[..|b| - 1], b[|b| - 1];
      CutInAnyOrder(key, a, front, keyOf);
      assert a + b == (a + front) + [last];
      GroupOfSnoc(key, a + front, last, keyOf);
      if keyOf(last.event) == key {
        var row, g := GroupOf(key, a, keyOf), GroupOf(key, front, keyOf);
        JoiningInAnyOrder(row, g, GroupOf(key, a + front, keyOf), last, keyOf);
      }
    }
  }

  lemma StoringInAnyOrder(a: Option<Group>, b: Option<Group>, g: Option<Group>)
    requires SameInAnyOrder(a, b)
    ensures SameInAnyOrder(Stored(a, g), Stored(b, g))
  {}

  /** Key, level, source, context, route and count, in whatever order the errors come and however they are cut. */
  lemma {:induction false} FlushesKeepCounts(batches: seq<seq<Weighted>>, key: Key, keyOf: Keying)
    ensures SameInAnyOrder(GroupOf(key, Stream(batches), keyOf), RowAfter(batches, key, keyOf))
  {
    hide GroupOf, Stored;
    if batches == [] {
      NoErrors(key, keyOf);
    } else {
      var front, last := batches[..|batches| - 1], batches[|batches| - 1];
      FlushesKeepCounts(front, key, keyOf);
      CutInAnyOrder(key, Stream(front), last, keyOf);
      StoringInAnyOrder(GroupOf(key, Stream(front), keyOf), RowAfter(front, key, keyOf), GroupOf(key, last, keyOf));
    }
  }

  lemma NoErrors(key: Key, keyOf: Keying)
    ensures GroupOf(key, [], keyOf) == None
    ensures SameButStack(None, None)
  {}
}
