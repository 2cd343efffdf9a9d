/**
 The bounded buffer of captured errors, the service that flushes it, and the purge of old groups
 (apps/api/src/modules/monitoring/error-capture.ts:13-35,
 apps/api/src/modules/monitoring/error-collector.service.ts:102-151, 202-217,
 apps/api/src/modules/monitoring/monitoring-report.service.ts:260-279).  A flush waits for its transaction;
 errors may be pushed, other flushes begin and return, and groups be purged while it does.
 */
module ErrorCollector {
  import opened Options
  import opened ErrorGroups
  import opened ErrorAggregation
  import opened ErrorFlushes
  import opened ErrorSummaries

  const MAX_BUFFERED_ERRORS: nat := 1000

  class ErrorSink {
    var buffer: seq<CapturedError>
    var dropped: nat

    /** Nothing is dropped before the buffer is full. */
    ghost predicate Valid()
      reads this
    {
      |buffer| <= MAX_BUFFERED_ERRORS && (dropped > 0 ==> |buffer| == MAX_BUFFERED_ERRORS)
    }

    constructor ()
      ensures Valid() && buffer == [] && dropped == 0
    {
      buffer, dropped := [], 0;
    }

    method Push(event: CapturedError)
      requires Valid()
      modifies this
      ensures Valid() && |buffer| + dropped == old(|buffer| + dropped) + 1
      ensures if old(|buffer|) < 1000 then buffer == old(buffer) + [event] && dropped == old(dropped)
              else buffer == old(buffer) && dropped == old(dropped) + 1
    {
      if |buffer| >= MAX_BUFFERED_ERRORS {
        dropped := dropped + 1;
        return;
      }
      buffer := buffer + [event];
    }

    method Drain() returns (events: seq<CapturedError>, lost: nat)
      requires Valid()
      modifies this
      ensures Valid() && buffer == [] && dropped == 0
      ensures events == old(buffer) && lost == old(dropped)
    {
      events, lost := buffer, dropped;
      buffer, dropped := [], 0;
    }
  }

  // ---- The total of the stored counts ----

  ghost function Total(rows: Rows): nat {
    if rows == map[] then 0
    else
      var key :| key in rows;
      rows[key].count + Total(rows - {key})
  }

  lemma {:induction false} TotalWithout(rows: Rows, key: Key)
    requires key in rows
    ensures Total(rows) == rows[key].count + Total(rows - {key})
    decreases |rows|
  {
    var other :| other in rows && Total(rows) == rows[other].count + Total(rows - {other});
    if other != key {
      TotalWithout(rows - {other}, key);
      TotalWithout(rows - {key}, other);
      assert rows - {other} - {key} == rows - {key} - {other};
    }
  }

  lemma UpsertAdds(rows: Rows, g: Group)
    ensures Total(Upsert(rows, g)) == Total(rows) + g.count
  {
    hide Total;
    var stored := Upsert(rows, g);
    TotalWithout(stored, g.key);
    if g.key in rows {
      TotalWithout(rows, g.key);
      assert stored - {g.key} == rows - {g.key};
    } else {
      assert stored - {g.key} == rows;
    }
  }

  lemma {:induction false} UpsertAllAdds(rows: Rows, groups: seq<Group>)
    ensures Total(UpsertAll(rows, groups)) == Total(rows) + CountOf(groups)
  {
    hide Total, Upsert;
    if groups != [] {
      UpsertAllAdds(rows, groups[..|groups| - 1]);
      UpsertAdds(UpsertAll(rows, groups[..|groups| - 1]), groups[|groups| - 1]);
    }
  }

  lemma TakenOneByOne(rows: Rows, gone: set<Key>, key: Key)
    requires key in gone && gone <= rows.Keys
    ensures rows - {key} - (gone - {key}) == rows - gone
    ensures gone - {key} <= (rows - {key}).Keys
  {}

  lemma SizeFalls(rows: Rows, gone: set<Key>)
    requires gone <= rows.Keys
    ensures |rows - gone| == |rows| - |gone|
  {
    assert (rows - gone).Keys == rows.Keys - gone;
  }

  lemma {:induction false} TotalFalls(rows: Rows, gone: set<Key>)
    requires gone <= rows.Keys
    ensures Total(rows - gone) <= Total(rows)
    decreases |gone|
  {
    hide Total;
    if gone == {} {
      assert rows - gone == rows;
    } else {
      var key :| key in gone;
      TotalWithout(rows, key);
      TakenOneByOne(rows, gone, key);
      TotalFalls(rows - {key}, gone - {key});
    }
  }

  // ---- Old groups ----

  const PURGE_BATCH: nat := 5000

  predicate IsExpired(g: Group, cutoff: int) {
    g.lastSeenAt < cutoff
  }

  function Expired(rows: Rows, cutoff: int): set<Key> {
    set key | key in rows && IsExpired(rows[key], cutoff)
  }

  function NotExpired(rows: Rows, cutoff: int): Rows {
    map key | key in rows && !IsExpired(rows[key], cutoff) :: rows[key]
  }

  /** Up to `PURGE_BATCH` of them, whichever the query returns. */
  method TakeBatch(expired: set<Key>) returns (batch: set<Key>)
    ensures batch <= expired && |batch| == if |expired| < PURGE_BATCH then |expired| else PURGE_BATCH
  {
    batch := {};
    var rest := expired;
    while rest != {} && |batch| < PURGE_BATCH
      invariant batch <= expired && rest == expired - batch && |batch| <= PURGE_BATCH
      invariant |batch| + |rest| == |expired|
      decreases |rest|
    {
      var key :| key in rest;
      batch, rest := batch + {key}, rest - {key};
    }
  }

  lemma BatchIsExpired(rows: Rows, batch: set<Key>, cutoff: int)
    requires batch <= Expired(rows, cutoff)
    requires |batch| == if |Expired(rows, cutoff)| < PURGE_BATCH then |Expired(rows, cutoff)| else PURGE_BATCH
    ensures batch <= rows.Keys && NotExpired(rows - batch, cutoff) == NotExpired(rows, cutoff)
    ensures |batch| < PURGE_BATCH ==> rows - batch == NotExpired(rows, cutoff)
  {
    var expired := Expired(rows, cutoff);
    if |batch| < PURGE_BATCH {
      assert batch == expired by {
        SameSize(batch, expired);
      }
    }
  }

  lemma NotExpiredMeans(rows: Rows, cutoff: int)
    ensures forall key :: key in NotExpired(rows, cutoff) <==> key in rows && rows[key].lastSeenAt >= cutoff
    ensures forall key :: key in NotExpired(rows, cutoff) ==> NotExpired(rows, cutoff)[key] == rows[key]
  {}

  lemma SameSize(a: set<Key>, b: set<Key>)
    requires a <= b && |a| == |b|
    ensures a == b
  {
    assert |b - a| == |b| - |a|;
  }

  function WithPurged(purges: map<Key, nat>, gone: set<Key>, at: nat): map<Key, nat> {
    purges + map key | key in gone :: at
  }

  // ---- The service ----

  class ErrorCollectorService {
    const sink: ErrorSink
    const keyOf: Keying
    const overflow: string
    var flushing: bool
    /** The groups that the waiting flush is writing. */
    var groups: seq<Group>
    /** The table. */
    var rows: Rows

    ghost var pushed: nat
    ghost var lost: nat
    ghost var purged: nat
    ghost var committed: seq<seq<Weighted>>
    ghost var pending: seq<Weighted>
    /** How many flushes had been committed when the group was purged last. */
    ghost var purgedAt: map<Key, nat>

    /** The flushes that the group still stands for: those since it was purged last. */
    ghost function Since(flushes: seq<seq<Weighted>>, purges: map<Key, nat>, key: Key): seq<seq<Weighted>> {
      if key in purges && purges[key] <= |flushes| then flushes[purges[key]..] else flushes
    }

    /** The rows of the table are what the committed flushes since their last purge store, key by key. */
    ghost predicate IsTableOf(table: Rows, flushes: seq<seq<Weighted>>, purges: map<Key, nat>) {
      && (forall key :: key in purges ==> purges[key] <= |flushes|)
      && (forall key :: RowAt(table, key) == RowAfter(Since(flushes, purges, key), key, keyOf))
    }

    /**
     Every error pushed is buffered, counted as dropped, being written, stored, lost with a failed flush, or
     purged with its group.
     */
    ghost predicate Conserves()
      reads this, sink
    {
      pushed == |sink.buffer| + sink.dropped + CountOf(groups) + Total(rows) + lost + purged
    }

    ghost predicate Valid()
      reads this, sink
    {
      && sink.Valid() && Conserves()
      && (if flushing then IsAggregate(groups, pending, keyOf) else groups == [])
      && IsTableOf(rows, committed, purgedAt)
    }

    /** What no flush touches. */
    ghost function Purges(): (nat, map<Key, nat>)
      reads this
    {
      (purged, purgedAt)
    }

    constructor (fingerprint: CapturedError -> string, overflow: string)
      ensures Valid() && fresh(sink) && !flushing && rows == map[] && pushed == 0 && committed == []
      ensures Purges() == (0, map[])
      ensures keyOf == KeyBy(fingerprint)
    {
      sink := new ErrorSink();
      keyOf, this.overflow := KeyBy(fingerprint), overflow;
      flushing, groups, rows := false, [], map[];
      pushed, lost, purged, committed, pending, purgedAt := 0, 0, 0, [], [], map[];
    }

    method Push(event: CapturedError)
      requires Valid()
      modifies this, sink
      ensures Valid() && pushed == old(pushed) + 1
      ensures flushing == old(flushing) && groups == old(groups) && pending == old(pending)
      ensures rows == old(rows) && lost == old(lost) && committed == old(committed) && Purges() == old(Purges())
    {
      hide IsAggregate, IsTableOf, Total, CountOf;
      sink.Push(event);
      pushed := pushed + 1;
    }

    /** Up to the wait for the transaction; a flush that finds another one waiting does nothing. */
    method BeginFlush(now: int) returns (begun: bool)
      requires Valid()
      modifies this, sink
      ensures Valid() && rows == old(rows) && lost == old(lost) && pushed == old(pushed) && committed == old(committed)
      ensures Purges() == old(Purges())
      ensures begun <==> !old(flushing) && old(|sink.buffer| + sink.dropped) > 0
      ensures begun ==> flushing && sink.buffer == [] && sink.dropped == 0
                        && pending == Batch(old(sink.buffer), old(sink.dropped), now, overflow)
      ensures !begun ==> flushing == old(flushing) && groups == old(groups) && pending == old(pending)
                         && sink.buffer == old(sink.buffer) && sink.dropped == old(sink.dropped)
    {
      hide IsAggregate, IsTableOf, Total, Batch;
      if flushing {
        return false;
      }
      var events, dropped := sink.Drain();
      if events == [] && dropped == 0 {
        return false;
      }
      flushing := true;
      pending := Batch(events, dropped, now, overflow);
      groups := AggregateBatch(events, dropped, now, overflow, keyOf);
      return true;
    }

    /** The transaction went through. */
    method Commit()
      requires Valid() && flushing
      modifies this
      ensures Valid() && !flushing && pushed == old(pushed) && lost == old(lost)
      ensures committed == old(committed) + [old(pending)] && Purges() == old(Purges())
      ensures rows == UpsertAll(old(rows), old(groups))
    {
      UpsertAllAdds(rows, groups);
      TableGrows();
      hide IsAggregate, IsTableOf, Total, UpsertAll;
      rows := UpsertAll(rows, groups);
      committed := committed + [pending];
      flushing, groups := false, [];
    }

    lemma TableGrows()
      requires IsAggregate(groups, pending, keyOf) && IsTableOf(rows, committed, purgedAt)
      ensures IsTableOf(UpsertAll(rows, groups), committed + [pending], purgedAt)
    {
      hide IsAggregate, UpsertAll, GroupOf, RowAt, Stored, RowAfter;
      forall key
        ensures RowAt(UpsertAll(rows, groups), key)
             == RowAfter(Since(committed + [pending], purgedAt, key), key, keyOf)
      {
        CommitStores(rows, groups, pending, keyOf, key);
        RowAfterSnoc(Since(committed, purgedAt, key), pending, key);
        assert Since(committed + [pending], purgedAt, key) == Since(committed, purgedAt, key) + [pending];
      }
    }

    lemma RowAfterSnoc(flushes: seq<seq<Weighted>>, last: seq<Weighted>, key: Key)
      ensures RowAfter(flushes + [last], key, keyOf) == Stored(RowAfter(flushes, key, keyOf), GroupOf(key, last, keyOf))
    {
      assert (flushes + [last])[..|flushes|] == flushes;
    }

    /**
     A row of the table is there exactly when an error of its key was committed since the key was purged last,
     and counts those errors.
     */
    lemma TableCounts(key: Key)
      requires Valid()
      ensures key in rows <==> Occurs(key, Stream(Since(committed, purgedAt, key)), keyOf)
      ensures key in rows ==>
                rows[key].key == key && Counts(rows[key], Stream(Since(committed, purgedAt, key)), keyOf)
    {
      hide Conserves, IsAggregate, RowAfter, Stream, Occurs, Counts, Since;
      assert RowAt(rows, key) == RowAfter(Since(committed, purgedAt, key), key, keyOf);
      StoredRowCounts(Since(committed, purgedAt, key), key, keyOf);
    }

    /** The transaction failed: its errors are gone, the table is as before. */
    method Fail()
      requires Valid() && flushing
      modifies this
      ensures Valid() && !flushing && pushed == old(pushed) && rows == old(rows) && committed == old(committed)
      ensures Purges() == old(Purges())
      ensures lost == old(lost) + CountOf(old(groups))
    {
      hide IsAggregate, IsTableOf, Total;
      lost := lost + CountOf(groups);
      flushing, groups := false, [];
    }

    lemma TableFalls(gone: set<Key>)
      requires IsTableOf(rows, committed, purgedAt) && gone <= rows.Keys
      ensures IsTableOf(rows - gone, committed, WithPurged(purgedAt, gone, |committed|))
    {
      hide RowAfter;
      var purges := WithPurged(purgedAt, gone, |committed|);
      forall key
        ensures RowAt(rows - gone, key) == RowAfter(Since(committed, purges, key), key, keyOf)
      {
        if key in gone {
          NothingStored(key);
          assert Since(committed, purges, key) == [];
        } else {
          assert RowAt(rows - gone, key) == RowAt(rows, key);
          assert Since(committed, purges, key) == Since(committed, purgedAt, key);
        }
      }
    }

    lemma NothingStored(key: Key)
      ensures RowAfter([], key, keyOf) == None
    {}

    /** One batch of groups is deleted. */
    method DeleteGroups(gone: set<Key>)
      requires Valid() && gone <= rows.Keys
      modifies this`rows, this`purged, this`purgedAt
      ensures Valid() && rows == old(rows) - gone && |rows| == old(|rows|) - |gone|
      ensures purged + Total(rows) == old(purged + Total(rows))
    {
      hide IsAggregate, IsTableOf, Total, CountOf, WithPurged;
      TotalFalls(rows, gone);
      SizeFalls(rows, gone);
      TableFalls(gone);
      var kept := rows - gone;
      purged := purged + (Total(rows) - Total(kept));
      purgedAt := WithPurged(purgedAt, gone, |committed|);
      rows := kept;
    }

    /** Every group last seen before the cutoff goes, batch by batch, and nothing else does. */
    method PurgeExpired(cutoff: int) returns (deleted: nat)
      requires Valid()
      modifies this`rows, this`purged, this`purgedAt
      ensures Valid() && deleted == old(|rows|) - |rows|
      ensures forall key :: key in rows <==> key in old(rows) && old(rows)[key].lastSeenAt >= cutoff
      ensures forall key :: key in rows ==> rows[key] == old(rows)[key]
      ensures purged + Total(rows) == old(purged + Total(rows))
    {
      hide Valid, Total;
      deleted := 0;
      while true
        invariant Valid() && NotExpired(rows, cutoff) == NotExpired(old(rows), cutoff)
        invariant deleted == old(|rows|) - |rows|
        invariant purged + Total(rows) == old(purged + Total(rows))
        decreases |rows|
      {
        var batch := TakeBatch(Expired(rows, cutoff));
        BatchIsExpired(rows, batch, cutoff);
        if batch == {} {
          break;
        }
        DeleteGroups(batch);
        deleted := deleted + |batch|;
        if |batch| < PURGE_BATCH {
          break;
        }
      }
      NotExpiredMeans(old(rows), cutoff);
    }
  }
}
