/**
 What a group of errors says about the errors of its key
 (apps/api/src/modules/monitoring/error-collector.service.ts:58-95), in whatever order they were captured, and
 what the stored row says about all of them, however they were cut into flushes (lines 202-217).
 */
module ErrorSummaries {
  import opened Options
  import opened ErrorGroups
  import opened ErrorFlushes
  import opened WeekArithmetic

  ghost predicate HasKey(ws: seq<Weighted>, k: nat, key: Key, keyOf: Keying) {
    k < |ws| && keyOf(ws[k].event) == key
  }

  ghost predicate Occurs(key: Key, ws: seq<Weighted>, keyOf: Keying) {
    exists k: nat :: HasKey(ws, k, key, keyOf)
  }

  /** The first error of the key to come. */
  ghost predicate IsFirst(ws: seq<Weighted>, k: nat, key: Key, keyOf: Keying) {
    HasKey(ws, k, key, keyOf) && forall j: nat :: j < k ==> !HasKey(ws, j, key, keyOf)
  }

  /** The last to come of the errors of the key that no other one is later than. */
  ghost predicate IsLatest(ws: seq<Weighted>, k: nat, key: Key, keyOf: Keying) {
    && HasKey(ws, k, key, keyOf)
    && (forall j: nat :: HasKey(ws, j, key, keyOf) ==> ws[j].event.at <= ws[k].event.at)
    && (forall j: nat :: j > k && HasKey(ws, j, key, keyOf) ==> ws[j].event.at < ws[k].event.at)
  }

  /** No earlier error of the key is later. */
  ghost predicate IsRecord(ws: seq<Weighted>, k: nat, key: Key, keyOf: Keying) {
    && HasKey(ws, k, key, keyOf)
    && forall j: nat :: j < k && HasKey(ws, j, key, keyOf) ==> ws[j].event.at <= ws[k].event.at
  }

  /** The last to come of such errors that carry a stack. */
  ghost predicate IsLastStack(ws: seq<Weighted>, k: nat, key: Key, keyOf: Keying) {
    && IsRecord(ws, k, key, keyOf) && ws[k].event.stack.Some?
    && forall j: nat :: j > k && IsRecord(ws, j, key, keyOf) ==> ws[j].event.stack.None?
  }

  ghost predicate IsFatal(ws: seq<Weighted>, k: nat, key: Key, keyOf: Keying) {
    HasKey(ws, k, key, keyOf) && ws[k].event.level == FATAL
  }

  function KeyWeight(key: Key, ws: seq<Weighted>, keyOf: Keying): nat {
    if ws == [] then 0
    else
      var last := ws[|ws| - 1];
      KeyWeight(key, ws[..|ws| - 1], keyOf) + if keyOf(last.event) == key then last.weight else 0
  }

  // ---- What a group says ----

  predicate Opened(g: Group, e: CapturedError) {
    g.source == e.source && g.context == e.context && g.route == e.route
  }

  predicate Shows(g: Group, e: CapturedError) {
    g.lastSeenAt == e.at && g.message == e.message && g.statusCode == e.statusCode
  }

  /** The count, the first error's source, context and route, and whether any is fatal. */
  ghost predicate Counts(g: Group, ws: seq<Weighted>, keyOf: Keying) {
    && g.count == KeyWeight(g.key, ws, keyOf)
    && (exists k: nat :: IsFirst(ws, k, g.key, keyOf) && Opened(g, ws[k].event))
    && (g.level == FATAL <==> exists k: nat :: IsFatal(ws, k, g.key, keyOf))
  }

  /** The times are those of an earliest and of the latest error, and the message and status are the latest's. */
  ghost predicate Spans(g: Group, ws: seq<Weighted>, keyOf: Keying) {
    && (exists k: nat :: HasKey(ws, k, g.key, keyOf) && ws[k].event.at == g.firstSeenAt)
    && (forall k: nat :: HasKey(ws, k, g.key, keyOf) ==> g.firstSeenAt <= ws[k].event.at)
    && (exists k: nat :: IsLatest(ws, k, g.key, keyOf) && Shows(g, ws[k].event))
  }

  /** The stack is the last one that an error brought which was the latest so far. */
  ghost predicate HoldsStack(g: Group, ws: seq<Weighted>, keyOf: Keying) {
    if g.stack.None? then forall k: nat :: IsRecord(ws, k, g.key, keyOf) ==> ws[k].event.stack.None?
    else exists k: nat :: IsLastStack(ws, k, g.key, keyOf) && ws[k].event.stack == g.stack
  }

  ghost predicate Describes(g: Group, ws: seq<Weighted>, keyOf: Keying) {
    Counts(g, ws, keyOf) && Spans(g, ws, keyOf) && HoldsStack(g, ws, keyOf)
  }

  // ---- One more error of another key ----

  lemma OtherKey(ws: seq<Weighted>, w: Weighted, k: nat, key: Key, keyOf: Keying)
    requires keyOf(w.event) != key
    ensures HasKey(ws + [w], k, key, keyOf) <==> HasKey(ws, k, key, keyOf)
    ensures k < |ws| ==> (ws + [w])[k] == ws[k]
  {}

  lemma OtherKeySame(ws: seq<Weighted>, w: Weighted, k: nat, key: Key, keyOf: Keying)
    requires keyOf(w.event) != key
    ensures IsFirst(ws + [w], k, key, keyOf) <==> IsFirst(ws, k, key, keyOf)
    ensures IsLatest(ws + [w], k, key, keyOf) <==> IsLatest(ws, k, key, keyOf)
    ensures IsRecord(ws + [w], k, key, keyOf) <==> IsRecord(ws, k, key, keyOf)
    ensures IsFatal(ws + [w], k, key, keyOf) <==> IsFatal(ws, k, key, keyOf)
  {
    hide HasKey;
    forall j: nat
      ensures HasKey(ws + [w], j, key, keyOf) <==> HasKey(ws, j, key, keyOf)
      ensures j < |ws| ==> (ws + [w])[j] == ws[j]
    {
      OtherKey(ws, w, j, key, keyOf);
    }
    HasKeyWithin(ws, key, keyOf);
    HasKeyWithin(ws + [w], key, keyOf);
  }

  lemma HasKeyWithin(ws: seq<Weighted>, key: Key, keyOf: Keying)
    ensures forall k: nat :: HasKey(ws, k, key, keyOf) ==> k < |ws|
  {}

  lemma OtherKeyDescribes(g: Group, ws: seq<Weighted>, w: Weighted, keyOf: Keying)
    requires Describes(g, ws, keyOf) && keyOf(w.event) != g.key
    ensures Describes(g, ws + [w], keyOf)
  {
    hide HasKey, IsFirst, IsLatest, IsRecord, IsFatal, KeyWeight, IsLastStack, Shows;
    KeyWeightSnoc(g.key, ws, w, keyOf);
    forall k: nat
      ensures HasKey(ws + [w], k, g.key, keyOf) <==> HasKey(ws, k, g.key, keyOf)
      ensures IsFirst(ws + [w], k, g.key, keyOf) <==> IsFirst(ws, k, g.key, keyOf)
      ensures IsLatest(ws + [w], k, g.key, keyOf) <==> IsLatest(ws, k, g.key, keyOf)
      ensures IsRecord(ws + [w], k, g.key, keyOf) <==> IsRecord(ws, k, g.key, keyOf)
      ensures IsFatal(ws + [w], k, g.key, keyOf) <==> IsFatal(ws, k, g.key, keyOf)
      ensures IsLastStack(ws + [w], k, g.key, keyOf) <==> IsLastStack(ws, k, g.key, keyOf)
      ensures k < |ws| ==> (ws + [w])[k] == ws[k]
    {
      OtherKey(ws, w, k, g.key, keyOf);
      OtherKeySame(ws, w, k, g.key, keyOf);
      OtherKeyStack(ws, w, k, g.key, keyOf);
    }
    HasKeyWithin(ws, g.key, keyOf);
    MarksWithin(ws, g.key, keyOf);
    MarksWithin(ws + [w], g.key, keyOf);
  }

  /** What marks an error is said of errors of the key only. */
  lemma MarksWithin(ws: seq<Weighted>, key: Key, keyOf: Keying)
    ensures forall k: nat :: IsFirst(ws, k, key, keyOf) ==> k < |ws|
    ensures forall k: nat :: IsLatest(ws, k, key, keyOf) ==> k < |ws|
    ensures forall k: nat :: IsRecord(ws, k, key, keyOf) ==> k < |ws|
    ensures forall k: nat :: IsLastStack(ws, k, key, keyOf) ==> k < |ws|
  {}

  lemma OtherKeyStack(ws: seq<Weighted>, w: Weighted, k: nat, key: Key, keyOf: Keying)
    requires keyOf(w.event) != key
    ensures IsLastStack(ws + [w], k, key, keyOf) <==> IsLastStack(ws, k, key, keyOf)
  {
    hide IsRecord;
    forall j: nat
      ensures IsRecord(ws + [w], j, key, keyOf) <==> IsRecord(ws, j, key, keyOf)
      ensures j < |ws| ==> (ws + [w])[j] == ws[j]
    {
      OtherKeySame(ws, w, j, key, keyOf);
    }
    MarksWithin(ws, key, keyOf);
    MarksWithin(ws + [w], key, keyOf);
  }

  lemma KeyWeightSnoc(key: Key, ws: seq<Weighted>, w: Weighted, keyOf: Keying)
    ensures KeyWeight(key, ws + [w], keyOf)
         == KeyWeight(key, ws, keyOf) + if keyOf(w.event) == key then w.weight else 0
  {
    assert (ws + [w])[..|ws|] == ws;
  }

  // ---- The first error of a key ----

  lemma FirstIsAlone(key: Key, ws: seq<Weighted>, w: Weighted, k: nat, keyOf: Keying)
    requires !Occurs(key, ws, keyOf) && keyOf(w.event) == key
    ensures HasKey(ws + [w], k, key, keyOf) <==> k == |ws|
  {
    assert k < |ws| ==> (ws + [w])[k] == ws[k] && !HasKey(ws, k, key, keyOf);
  }

  lemma {:induction false} NoErrorNoWeight(key: Key, ws: seq<Weighted>, keyOf: Keying)
    requires !Occurs(key, ws, keyOf)
    ensures KeyWeight(key, ws, keyOf) == 0
  {
    if ws != [] {
      var front, last := ws[..|ws| - 1], ws[|ws| - 1];
      assert !HasKey(ws, |ws| - 1, key, keyOf);
      forall k: nat
        ensures !HasKey(front, k, key, keyOf)
      {
        assert !HasKey(ws, k, key, keyOf);
      }
      NoErrorNoWeight(key, front, keyOf);
    }
  }

  lemma FirstDescribes(ws: seq<Weighted>, w: Weighted, keyOf: Keying)
    requires !Occurs(keyOf(w.event), ws, keyOf)
    ensures Describes(NewGroup(w, keyOf), ws + [w], keyOf)
  {
    hide HasKey, KeyWeight, Occurs;
    var g, longer := NewGroup(w, keyOf), ws + [w];
    NoErrorNoWeight(g.key, ws, keyOf);
    KeyWeightSnoc(g.key, ws, w, keyOf);
    forall k: nat
      ensures HasKey(longer, k, g.key, keyOf) <==> k == |ws|
    {
      FirstIsAlone(g.key, ws, w, k, keyOf);
    }
    assert longer[|ws|] == w;
    assert IsFirst(longer, |ws|, g.key, keyOf) && IsLatest(longer, |ws|, g.key, keyOf);
    assert IsRecord(longer, |ws|, g.key, keyOf) && (IsFatal(longer, |ws|, g.key, keyOf) <==> g.level == FATAL);
    assert g.stack.Some? ==> IsLastStack(longer, |ws|, g.key, keyOf);
  }

  // ---- A later error of the key ----

  /** The errors of the key are those before, where they were, and the new one. */
  lemma SameKey(ws: seq<Weighted>, w: Weighted, key: Key, k: nat, keyOf: Keying)
    requires keyOf(w.event) == key
    ensures HasKey(ws + [w], k, key, keyOf) <==> HasKey(ws, k, key, keyOf) || k == |ws|
    ensures k < |ws| ==> (ws + [w])[k] == ws[k]
  {}

  lemma SameKeys(ws: seq<Weighted>, w: Weighted, key: Key, keyOf: Keying)
    requires keyOf(w.event) == key
    ensures forall k: nat :: HasKey(ws + [w], k, key, keyOf) <==> HasKey(ws, k, key, keyOf) || k == |ws|
    ensures forall k: nat :: k < |ws| ==> (ws + [w])[k] == ws[k]
    ensures forall k: nat :: HasKey(ws, k, key, keyOf) ==> k < |ws|
  {
    forall k: nat
      ensures HasKey(ws + [w], k, key, keyOf) <==> HasKey(ws, k, key, keyOf) || k == |ws|
    {
      SameKey(ws, w, key, k, keyOf);
    }
  }

  lemma MergedCounts(g: Group, ws: seq<Weighted>, w: Weighted, keyOf: Keying)
    requires Counts(g, ws, keyOf) && keyOf(w.event) == g.key
    ensures Counts(Merged(g, w), ws + [w], keyOf)
  {
    hide HasKey, KeyWeight;
    var longer := ws + [w];
    KeyWeightSnoc(g.key, ws, w, keyOf);
    SameKeys(ws, w, g.key, keyOf);
    var first: nat :| IsFirst(ws, first, g.key, keyOf) && Opened(g, ws[first].event);
    assert IsFirst(longer, first, g.key, keyOf);
    assert longer[|ws|] == w && (IsFatal(longer, |ws|, g.key, keyOf) <==> w.event.level == FATAL);
    if g.level == FATAL {
      var fatal: nat :| IsFatal(ws, fatal, g.key, keyOf);
      assert IsFatal(longer, fatal, g.key, keyOf);
    } else {
      assert forall k: nat :: k < |ws| && IsFatal(longer, k, g.key, keyOf) ==> IsFatal(ws, k, g.key, keyOf);
    }
  }

  lemma MergedSpans(g: Group, ws: seq<Weighted>, w: Weighted, keyOf: Keying)
    requires Spans(g, ws, keyOf) && keyOf(w.event) == g.key
    ensures Spans(Merged(g, w), ws + [w], keyOf)
  {
    hide HasKey;
    var longer := ws + [w];
    SameKeys(ws, w, g.key, keyOf);
    assert longer[|ws|] == w && HasKey(longer, |ws|, g.key, keyOf);
    var shown: nat :| IsLatest(ws, shown, g.key, keyOf) && Shows(g, ws[shown].event);
    assert HasKey(longer, shown, g.key, keyOf);
    if w.event.at >= g.lastSeenAt {
      assert IsLatest(longer, |ws|, g.key, keyOf);
    } else {
      assert IsLatest(longer, shown, g.key, keyOf);
    }
    var earliest: nat :| HasKey(ws, earliest, g.key, keyOf) && ws[earliest].event.at == g.firstSeenAt;
    assert HasKey(longer, earliest, g.key, keyOf) && longer[earliest] == ws[earliest];
  }

  lemma RecordBefore(ws: seq<Weighted>, w: Weighted, key: Key, k: nat, keyOf: Keying)
    requires keyOf(w.event) == key && k < |ws|
    ensures IsRecord(ws + [w], k, key, keyOf) <==> IsRecord(ws, k, key, keyOf)
  {
    hide HasKey;
    SameKeys(ws, w, key, keyOf);
  }

  /** The new error is the latest so far exactly when it is not before the group's last time. */
  lemma RecordLast(g: Group, ws: seq<Weighted>, w: Weighted, keyOf: Keying)
    requires Spans(g, ws, keyOf) && keyOf(w.event) == g.key
    ensures IsRecord(ws + [w], |ws|, g.key, keyOf) <==> w.event.at >= g.lastSeenAt
    ensures (ws + [w])[|ws|] == w
  {
    hide HasKey;
    SameKeys(ws, w, g.key, keyOf);
    var shown: nat :| IsLatest(ws, shown, g.key, keyOf) && Shows(g, ws[shown].event);
  }

  lemma MergedStack(g: Group, ws: seq<Weighted>, w: Weighted, keyOf: Keying)
    requires Spans(g, ws, keyOf) && HoldsStack(g, ws, keyOf) && keyOf(w.event) == g.key
    ensures HoldsStack(Merged(g, w), ws + [w], keyOf)
  {
    hide IsRecord, Spans, HasKey;
    var longer, g' := ws + [w], Merged(g, w);
    RecordLast(g, ws, w, keyOf);
    forall k: nat | k < |ws|
      ensures IsRecord(longer, k, g.key, keyOf) <==> IsRecord(ws, k, g.key, keyOf)
      ensures longer[k] == ws[k]
    {
      RecordBefore(ws, w, g.key, k, keyOf);
    }
    MarksWithin(ws, g.key, keyOf);
    MarksWithin(longer, g.key, keyOf);
    if w.event.at >= g.lastSeenAt && w.event.stack.Some? {
      assert IsLastStack(longer, |ws|, g.key, keyOf);
    } else if g.stack.Some? {
      var k: nat :| IsLastStack(ws, k, g.key, keyOf) && ws[k].event.stack == g.stack;
      assert IsLastStack(longer, k, g.key, keyOf);
    }
  }

  // ---- The whole group ----

  lemma OccursSnoc(key: Key, ws: seq<Weighted>, w: Weighted, keyOf: Keying)
    ensures Occurs(key, ws + [w], keyOf) <==> Occurs(key, ws, keyOf) || keyOf(w.event) == key
  {
    var longer := ws + [w];
    if keyOf(w.event) == key {
      assert HasKey(longer, |ws|, key, keyOf);
    } else {
      forall k: nat
        ensures HasKey(longer, k, key, keyOf) <==> HasKey(ws, k, key, keyOf)
      {
        OtherKey(ws, w, k, key, keyOf);
      }
    }
  }

  /** There is a group exactly when there are errors of its key, and it is exactly what they come to. */
  lemma {:induction false} GroupSummarisesItsErrors(key: Key, ws: seq<Weighted>, keyOf: Keying)
    ensures GroupOf(key, ws, keyOf).Some? <==> Occurs(key, ws, keyOf)
    ensures GroupOf(key, ws, keyOf).Some? ==> Describes(GroupOf(key, ws, keyOf).value, ws, keyOf)
  {
    hide Describes, Merged, NewGroup;
    if ws != [] {
      var front, last := ws[..|ws| - 1], ws[|ws| - 1];
      var g := GroupOf(key, front, keyOf);
      GroupSummarisesItsErrors(key, front, keyOf);
      assert ws == front + [last];
      OccursSnoc(key, front, last, keyOf);
      if keyOf(last.event) == key {
        if g.None? {
          FirstDescribes(front, last, keyOf);
        } else {
          MergedDescribes(g.value, front, last, keyOf);
        }
      } else if g.Some? {
        OtherKeyDescribes(g.value, front, last, keyOf);
      }
    }
  }

  lemma MergedDescribes(g: Group, ws: seq<Weighted>, w: Weighted, keyOf: Keying)
    requires Describes(g, ws, keyOf) && keyOf(w.event) == g.key
    ensures Describes(Merged(g, w), ws + [w], keyOf)
  {
    hide Counts, Spans, HoldsStack, Merged;
    MergedCounts(g, ws, w, keyOf);
    MergedSpans(g, ws, w, keyOf);
    MergedStack(g, ws, w, keyOf);
  }

  // ---- The stored row ----

  /**
   The stored row of a key is there exactly when an error of it was committed.  Its count, source, context,
   route and level are those of all its errors together, however they were cut and in whatever order they came.
   */
  lemma StoredRowCounts(batches: seq<seq<Weighted>>, key: Key, keyOf: Keying)
    ensures RowAfter(batches, key, keyOf).Some? <==> Occurs(key, Stream(batches), keyOf)
    ensures RowAfter(batches, key, keyOf).Some? ==>
              && RowAfter(batches, key, keyOf).value.key == key
              && Counts(RowAfter(batches, key, keyOf).value, Stream(batches), keyOf)
  {
    hide GroupOf, RowAfter, Occurs, KeyWeight, IsFirst, IsFatal, Spans, HoldsStack, Stream;
    GroupSummarisesItsErrors(key, Stream(batches), keyOf);
    FlushesKeepCounts(batches, key, keyOf);
  }

  /** When no clock goes back, its times, message and status are those of all its errors too. */
  lemma StoredRowSpans(batches: seq<seq<Weighted>>, key: Key, keyOf: Keying)
    requires TimesNeverGoBack(Stream(batches)) && RowAfter(batches, key, keyOf).Some?
    ensures Spans(RowAfter(batches, key, keyOf).value, Stream(batches), keyOf)
  {
    hide GroupOf, RowAfter, Occurs, IsLatest, HasKey, Counts, HoldsStack, Stream, TimesNeverGoBack;
    GroupSummarisesItsErrors(key, Stream(batches), keyOf);
    FlushesKeepAllButStack(batches, key, keyOf);
  }

  /** The errors of a row share its fingerprint and are of its week, in all years but 0 to 99. */
  lemma ErrorsOfAKeyShareItsWeek(ws: seq<Weighted>, k: nat, key: Key, fingerprint: CapturedError -> string)
    requires HasKey(ws, k, key, KeyBy(fingerprint))
    requires ws[k].event.at + 25200000 < -719528 * 86400000 || ws[k].event.at + 25200000 >= -683003 * 86400000
    ensures fingerprint(ws[k].event) == key.fingerprint
    ensures (key.weekStart + 25200000 - 4 * 86400000) % 604800000 == 0
    ensures key.weekStart <= ws[k].event.at < key.weekStart + 604800000
  {
    hide WeekStartOf;
    MondayMidnightInVietnam(ws[k].event.at);
  }
}
