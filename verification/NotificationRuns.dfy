/**
 Attempts at one alert's delivery, interleaved in any way
 (apps/api/src/modules/alerts/notification-dispatch.service.ts:84-215): queue attempts and their retries, and
 the synchronous fallback that a timeout may start beside a job that is queued all the same.  Each statement on
 the table is one event; an attempt may break off anywhere, and recipients may read in between.
 */
module NotificationRuns {
  import opened Options
  import opened Notifications

  type AttemptId = nat

  datatype Phase = Begun | Stored | Announcing | Completed | BrokenOff

  /** `pending` is still to be announced; `readSince` has been read since the attempt stored its rows. */
  datatype Attempt = Attempt(phase: Phase, mine: set<RowId>, pending: set<RowId>, readSince: set<RowId>)

  datatype State = State(rows: Table, attempts: map<AttemptId, Attempt>, announced: multiset<RowId>)

  datatype Event =
    | Begin(attempt: AttemptId)
    | Store(attempt: AttemptId, ids: seq<RowId>)
    | Refresh(attempt: AttemptId)
    | Announce(attempt: AttemptId, row: RowId)
    | Finish(attempt: AttemptId)
    | BreakOff(attempt: AttemptId)
    | Read(row: RowId)

  predicate IsAt(s: State, a: AttemptId, phase: Phase) {
    a in s.attempts && s.attempts[a].phase == phase
  }

  ghost predicate IsEnabled(s: State, d: Delivery, e: Event) {
    match e
    case Begin(a) => a !in s.attempts
    case Store(a, ids) => IsAt(s, a, Begun) && AreFreshIds(s.rows, d, ids)
    case Refresh(a) => IsAt(s, a, Stored)
    case Announce(a, row) => IsAt(s, a, Announcing) && row in s.attempts[a].pending
    case Finish(a) => IsAt(s, a, Announcing) && s.attempts[a].pending == {}
    case BreakOff(a) => a in s.attempts && s.attempts[a].phase != Completed
    case Read(row) => row in s.rows
  }

  function Told(s: State, a: AttemptId): set<StaffId>
    requires a in s.attempts
  {
    RecipientsOf(s.rows, s.attempts[a].mine)
  }

  function ReadByAll(attempts: map<AttemptId, Attempt>, row: RowId): map<AttemptId, Attempt> {
    map a | a in attempts :: attempts[a].(readSince := attempts[a].readSince + {row})
  }

  ghost function After(s: State, d: Delivery, e: Event): State
    requires IsEnabled(s, d, e)
  {
    match e
    case Begin(a) => s.(attempts := s.attempts[a := Attempt(Begun, {}, {}, {})])
    case Store(a, ids) =>
      var rows := Inserted(s.rows, d, ids, |ids|);
      s.(rows := rows, attempts := s.attempts[a := Attempt(Stored, rows.Keys - s.rows.Keys, {}, {})])
    case Refresh(a) =>
      var t := s.attempts[a];
      var told := Told(s, a);
      s.(rows := Refreshed(s.rows, d, told),
         attempts := s.attempts[a := t.(phase := Announcing, pending := t.mine + RefreshedIds(s.rows, d, told),
                                        readSince := t.readSince - RefreshedIds(s.rows, d, told))])
    case Announce(a, row) =>
      var t := s.attempts[a];
      s.(announced := s.announced + multiset{row}, attempts := s.attempts[a := t.(pending := t.pending - {row})])
    case Finish(a) => s.(attempts := s.attempts[a := s.attempts[a].(phase := Completed)])
    case BreakOff(a) => s.(attempts := s.attempts[a := s.attempts[a].(phase := BrokenOff)])
    case Read(row) =>
      s.(rows := s.rows[row := s.rows[row].(isRead := true)], attempts := ReadByAll(s.attempts, row))
  }

  // ---- What every event keeps ----

  predicate HasStored(t: Attempt) {
    t.phase.Stored? || t.phase.Announcing? || t.phase.Completed?
  }

  /** Rows are never lost, and every attempt that has stored has told every recipient. */
  ghost predicate HasToldAll(s: State, d: Delivery, a: AttemptId)
    requires a in s.attempts && d.source.AlertSource?
  {
    HasStored(s.attempts[a]) ==> forall m :: 0 <= m < |d.recipients| ==> IsTold(s.rows, d.recipients[m], d.source.alert)
  }

  /** An attempt's own rows are in the table and no other attempt's. */
  ghost predicate OwnsRows(s: State, a: AttemptId)
    requires a in s.attempts
  {
    && s.attempts[a].mine <= s.rows.Keys && s.attempts[a].pending <= s.rows.Keys
    && (forall b :: b in s.attempts && b != a ==> s.attempts[a].mine !! s.attempts[b].mine)
  }

  ghost predicate Invariant(s: State, d: Delivery)
    requires d.source.AlertSource?
  {
    && HasUniqueKeys(s.rows)
    && (forall a :: a in s.attempts ==> OwnsRows(s, a) && HasToldAll(s, d, a))
    && (forall i :: i in s.announced ==> i in s.rows)
  }

  ghost predicate KeepsRows(s: State, s': State) {
    && (forall i :: i in s.rows ==> i in s'.rows && SameAddress(s.rows[i], s'.rows[i]))
  }

  predicate SameAddress(a: Row, b: Row) {
    a.recipient == b.recipient && a.alertId == b.alertId && a.analysisVersionId == b.analysisVersionId
    && a.discussionMessageId == b.discussionMessageId
  }

  lemma ToldStays(s: State, s': State, d: Delivery, a: AttemptId)
    requires d.source.AlertSource? && KeepsRows(s, s') && a in s.attempts && a in s'.attempts && HasToldAll(s, d, a)
    requires HasStored(s'.attempts[a]) ==> HasStored(s.attempts[a])
    ensures HasToldAll(s', d, a)
  {
    if HasStored(s'.attempts[a]) {
      forall m | 0 <= m < |d.recipients|
        ensures IsTold(s'.rows, d.recipients[m], d.source.alert)
      {
        assert IsTold(s.rows, d.recipients[m], d.source.alert);
        var i :| i in s.rows && IsFor(s.rows[i], d.recipients[m], d.source.alert);
        assert IsFor(s'.rows[i], d.recipients[m], d.source.alert);
      }
    }
  }

  lemma EventKeepsRows(s: State, d: Delivery, e: Event)
    requires IsEnabled(s, d, e)
    ensures KeepsRows(s, After(s, d, e))
  {
    hide IsToRefresh, Inserted;
    if e.Store? {
      InsertionAdds(s.rows, d, e.ids, |e.ids|);
    }
  }

  lemma KeysKept(s: State, d: Delivery, e: Event)
    requires IsEnabled(s, d, e) && HasUniqueKeys(s.rows)
    ensures HasUniqueKeys(After(s, d, e).rows)
  {
    hide Inserted, IsToRefresh, RefreshedRow;
    match e
    case Store(_, ids) => InsertionKeepsKeys(s.rows, d, ids, |ids|);
    case Refresh(a) => RefreshKeepsKeys(s.rows, d, Told(s, a));
    case Read(row) =>
      forall i, j | i in s.rows && j in s.rows && i != j
        ensures !Clash(After(s, d, e).rows[i], After(s, d, e).rows[j])
      {
        assert !Clash(s.rows[i], s.rows[j]);
      }
    case _ =>
  }

  /** Only storing gives an attempt rows, and those are new. */
  lemma OwnRowsKept(s: State, d: Delivery, e: Event, a: AttemptId)
    requires IsEnabled(s, d, e) && a in After(s, d, e).attempts
    ensures var s' := After(s, d, e);
            s'.attempts[a].mine == if e == Store(a, if e.Store? then e.ids else []) then s'.rows.Keys - s.rows.Keys
                                   else if a in s.attempts then s.attempts[a].mine else {}
    ensures a in s.attempts && s.attempts[a].pending <= s.rows.Keys && s.attempts[a].mine <= s.rows.Keys ==>
              After(s, d, e).attempts[a].pending <= s.rows.Keys
    ensures a !in s.attempts ==> After(s, d, e).attempts[a].pending == {}
  {
    hide Inserted, IsToRefresh, AreFreshIds;
  }

  lemma OwnershipKept(s: State, d: Delivery, e: Event)
    requires d.source.AlertSource? && Invariant(s, d) && IsEnabled(s, d, e)
    ensures forall a :: a in After(s, d, e).attempts ==> OwnsRows(After(s, d, e), a)
  {
    hide HasUniqueKeys, HasToldAll, After, IsEnabled;
    var s' := After(s, d, e);
    EventKeepsRows(s, d, e);
    forall a | a in s'.attempts
      ensures OwnsRows(s', a)
    {
      OwnRowsKept(s, d, e, a);
      assert a in s.attempts ==> OwnsRows(s, a);
      forall b | b in s'.attempts && b != a
        ensures s'.attempts[a].mine !! s'.attempts[b].mine
      {
        OwnRowsKept(s, d, e, b);
        assert b in s.attempts ==> OwnsRows(s, b);
      }
    }
  }

  lemma TellingKept(s: State, d: Delivery, e: Event)
    requires d.source.AlertSource? && Invariant(s, d) && IsEnabled(s, d, e)
    ensures forall a :: a in After(s, d, e).attempts ==> HasToldAll(After(s, d, e), d, a)
  {
    hide HasUniqueKeys, OwnsRows, IsToRefresh, Inserted, KeepsRows, IsTold;
    var s' := After(s, d, e);
    EventKeepsRows(s, d, e);
    forall a | a in s'.attempts
      ensures HasToldAll(s', d, a)
    {
      if e.Store? && a == e.attempt {
        StoringTells(s, d, a, e.ids);
      } else if a in s.attempts {
        ToldStays(s, s', d, a);
      }
    }
  }

  lemma StoringTells(s: State, d: Delivery, a: AttemptId, ids: seq<RowId>)
    requires d.source.AlertSource? && IsEnabled(s, d, Store(a, ids))
    ensures HasToldAll(After(s, d, Store(a, ids)), d, a)
  {
    hide Inserted, IsTold;
    forall m | 0 <= m < |d.recipients|
      ensures IsTold(Inserted(s.rows, d, ids, |ids|), d.recipients[m], d.source.alert)
    {
      InsertionTells(s.rows, d, ids, |ids|, m);
    }
  }

  lemma EventKeeps(s: State, d: Delivery, e: Event)
    requires d.source.AlertSource? && Invariant(s, d) && IsEnabled(s, d, e)
    ensures Invariant(After(s, d, e), d)
  {
    KeysKept(s, d, e);
    OwnershipKept(s, d, e);
    TellingKept(s, d, e);
    hide OwnsRows, HasToldAll, HasUniqueKeys, Inserted, IsToRefresh;
    EventKeepsRows(s, d, e);
    assert e.Announce? ==> e.row in s.rows by {
      if e.Announce? {
        PendingIsThere(s, e.attempt, e.row);
      }
    }
  }

  lemma PendingIsThere(s: State, a: AttemptId, row: RowId)
    requires a in s.attempts && OwnsRows(s, a) && row in s.attempts[a].pending
    ensures row in s.rows
  {}

  // ---- Announcing at most once ----

  /** Without a replay: what is announced or still to be was stored by one attempt, and counts once. */
  ghost predicate AnnouncesOwnRowsOnce(s: State) {
    && (forall a :: a in s.attempts ==> s.attempts[a].pending <= s.attempts[a].mine)
    && (forall i :: i in s.announced ==> s.announced[i] == 1 && IsSpent(s, i))
  }

  /** Some attempt that can announce no more of it owns the row. */
  ghost predicate IsSpent(s: State, i: RowId) {
    exists a :: a in s.attempts && i in s.attempts[a].mine && i !in s.attempts[a].pending
                && !s.attempts[a].phase.Begun? && !s.attempts[a].phase.Stored?
  }

  lemma PendingStaysOwn(s: State, d: Delivery, e: Event, a: AttemptId)
    requires d.source.AlertSource? && !d.replay && AnnouncesOwnRowsOnce(s) && IsEnabled(s, d, e)
    requires a in After(s, d, e).attempts
    ensures After(s, d, e).attempts[a].pending <= After(s, d, e).attempts[a].mine
  {
    hide Inserted, AreFreshIds, IsSpent;
  }

  lemma AnnouncingKept(s: State, d: Delivery, e: Event)
    requires d.source.AlertSource? && !d.replay && Invariant(s, d) && AnnouncesOwnRowsOnce(s) && IsEnabled(s, d, e)
    ensures AnnouncesOwnRowsOnce(After(s, d, e))
  {
    hide HasUniqueKeys, HasToldAll, Inserted, AreFreshIds, OwnsRows, IsToRefresh;
    var s' := After(s, d, e);
    forall a | a in s'.attempts
      ensures s'.attempts[a].pending <= s'.attempts[a].mine
    {
      PendingStaysOwn(s, d, e, a);
    }
    forall i | i in s'.announced
      ensures s'.announced[i] == 1 && IsSpent(s', i)
    {
      if i in s.announced {
        SpentStays(s, d, e, i);
      } else {
        assert i in s'.attempts[e.attempt].mine && i !in s'.attempts[e.attempt].pending;
      }
    }
  }

  lemma SpentStays(s: State, d: Delivery, e: Event, i: RowId)
    requires d.source.AlertSource? && !d.replay && Invariant(s, d) && AnnouncesOwnRowsOnce(s) && IsEnabled(s, d, e)
    requires i in s.announced
    ensures IsSpent(After(s, d, e), i) && After(s, d, e).announced[i] == 1
  {
    hide HasUniqueKeys, HasToldAll, Inserted, AreFreshIds, IsToRefresh, RefreshedRow;
    var s' := After(s, d, e);
    var a :| a in s.attempts && i in s.attempts[a].mine && i !in s.attempts[a].pending
             && !s.attempts[a].phase.Begun? && !s.attempts[a].phase.Stored?;
    assert OwnsRows(s, a);
    assert a in s'.attempts && i in s'.attempts[a].mine && i !in s'.attempts[a].pending;
  }

  // ---- The rows that attempts store ----

  /** The row carries the text of this delivery, and is unread unless it was read since. */
  predicate IsNews(row: Row, i: RowId, d: Delivery, t: Attempt) {
    row.title == d.title && row.body == d.body && (row.isRead ==> i in t.readSince)
  }

  /** The attempt's own rows are of this alert, and are news. */
  ghost predicate HasNews(s: State, d: Delivery, a: AttemptId)
    requires a in s.attempts && d.source.AlertSource?
  {
    forall i :: i in s.attempts[a].mine ==>
      i in s.rows && s.rows[i].alertId == Some(d.source.alert) && IsNews(s.rows[i], i, d, s.attempts[a])
  }

  /** After the refresh of a replay, the row of every listed recipient is news. */
  ghost predicate HasRenewedAll(s: State, d: Delivery, a: AttemptId)
    requires a in s.attempts && d.source.AlertSource?
  {
    d.replay && (s.attempts[a].phase.Announcing? || s.attempts[a].phase.Completed?) ==>
      forall i :: i in s.rows && IsListed(s.rows[i], d) ==> IsNews(s.rows[i], i, d, s.attempts[a])
  }

  predicate IsListed(row: Row, d: Delivery)
    requires d.source.AlertSource?
  {
    row.recipient in d.recipients && row.alertId == Some(d.source.alert)
  }

  ghost predicate NewsIsKept(s: State, d: Delivery)
    requires d.source.AlertSource?
  {
    forall a :: a in s.attempts ==> HasNews(s, d, a) && HasRenewedAll(s, d, a)
  }

  /** What an event makes of a row that was there: it is read, renewed, or as it was. */
  lemma RowThrough(s: State, d: Delivery, e: Event, i: RowId)
    requires IsEnabled(s, d, e) && i in s.rows
    ensures i in After(s, d, e).rows && SameAddress(s.rows[i], After(s, d, e).rows[i])
    ensures var r, r' := s.rows[i], After(s, d, e).rows[i];
            || r' == r || (e == Read(i) && r' == r.(isRead := true))
            || (e.Refresh? && r'.title == d.title && r'.body == d.body && !r'.isRead)
  {
    hide Inserted;
    if e.Store? {
      InsertionAdds(s.rows, d, e.ids, |e.ids|);
    }
  }

  lemma NewsThrough(s: State, d: Delivery, e: Event, i: RowId, a: AttemptId)
    requires IsEnabled(s, d, e) && i in s.rows && a in s.attempts && IsNews(s.rows[i], i, d, s.attempts[a])
    requires e.Store? ==> e.attempt != a
    ensures a in After(s, d, e).attempts
    ensures i in After(s, d, e).rows && IsNews(After(s, d, e).rows[i], i, d, After(s, d, e).attempts[a])
  {
    RowThrough(s, d, e, i);
    hide Inserted, AreFreshIds, IsToRefresh, RefreshedRow;
    if e.Refresh? && e.attempt == a {
      RefreshedOrNot(s, d, a, i);
    }
  }

  lemma RefreshedOrNot(s: State, d: Delivery, a: AttemptId, i: RowId)
    requires IsAt(s, a, Stored) && i in s.rows
    ensures var s' := After(s, d, Refresh(a));
            if i in RefreshedIds(s.rows, d, Told(s, a)) then
              s'.rows[i] == s.rows[i].(isRead := false, title := d.title, body := d.body)
            else s'.rows[i] == s.rows[i]
  {}

  lemma StoredIsNews(s: State, d: Delivery, a: AttemptId, ids: seq<RowId>, i: RowId)
    requires d.source.AlertSource? && IsEnabled(s, d, Store(a, ids))
    requires i in Inserted(s.rows, d, ids, |ids|) && i !in s.rows
    ensures var row := Inserted(s.rows, d, ids, |ids|)[i];
            row.alertId == Some(d.source.alert) && row.title == d.title && row.body == d.body && !row.isRead
  {
    InsertionAdds(s.rows, d, ids, |ids|);
    assert IsNewRow(Inserted(s.rows, d, ids, |ids|), d, ids, |ids|, i);
  }

  lemma OwnNewsKept(s: State, d: Delivery, e: Event, a: AttemptId)
    requires d.source.AlertSource? && IsEnabled(s, d, e) && a in After(s, d, e).attempts
    requires a in s.attempts ==> HasNews(s, d, a)
    ensures HasNews(After(s, d, e), d, a)
  {
    var s' := After(s, d, e);
    OwnRowsKept(s, d, e, a);
    hide Inserted, AreFreshIds, IsToRefresh, RefreshedRow, IsNews;
    forall i | i in s'.attempts[a].mine
      ensures i in s'.rows && s'.rows[i].alertId == Some(d.source.alert) && IsNews(s'.rows[i], i, d, s'.attempts[a])
    {
      if e.Store? && e.attempt == a {
        StoredIsNews(s, d, a, e.ids, i);
        UnreadIsNews(s'.rows[i], i, d, s'.attempts[a]);
      } else {
        RowThrough(s, d, e, i);
        NewsThrough(s, d, e, i, a);
      }
    }
  }

  lemma UnreadIsNews(row: Row, i: RowId, d: Delivery, t: Attempt)
    requires row.title == d.title && row.body == d.body && !row.isRead
    ensures IsNews(row, i, d, t)
  {}

  /** A listed recipient's row is either renewed or the attempt's own. */
  lemma RefreshRenews(s: State, d: Delivery, a: AttemptId)
    requires d.source.AlertSource? && d.replay && HasUniqueKeys(s.rows) && IsAt(s, a, Stored) && HasNews(s, d, a)
    ensures HasRenewedAll(After(s, d, Refresh(a)), d, a)
  {
    var s' := After(s, d, Refresh(a));
    forall i | i in s'.rows && IsListed(s'.rows[i], d)
      ensures IsNews(s'.rows[i], i, d, s'.attempts[a])
    {
      RefreshedOrNot(s, d, a, i);
      if i !in RefreshedIds(s.rows, d, Told(s, a)) {
        assert s.rows[i].recipient in Told(s, a);
        var j :| j in s.attempts[a].mine && j in s.rows && s.rows[j].recipient == s.rows[i].recipient;
        assert Clash(s.rows[i], s.rows[j]) || i == j;
      }
    }
  }

  lemma RenewalKept(s: State, d: Delivery, e: Event, a: AttemptId)
    requires d.source.AlertSource? && Invariant(s, d) && NewsIsKept(s, d) && IsEnabled(s, d, e)
    requires a in After(s, d, e).attempts
    ensures HasRenewedAll(After(s, d, e), d, a)
  {
    var s' := After(s, d, e);
    if d.replay && (s'.attempts[a].phase.Announcing? || s'.attempts[a].phase.Completed?) {
      if e == Refresh(a) {
        RefreshRenews(s, d, a);
      } else {
        hide Inserted, IsToRefresh, RefreshedRow, IsNews, HasUniqueKeys;
        forall i | i in s'.rows && IsListed(s'.rows[i], d)
          ensures IsNews(s'.rows[i], i, d, s'.attempts[a])
        {
          if i in s.rows {
            RowThrough(s, d, e, i);
            NewsThrough(s, d, e, i, a);
          } else {
            StoredIsNews(s, d, e.attempt, e.ids, i);
            UnreadIsNews(s'.rows[i], i, d, s'.attempts[a]);
          }
        }
      }
    }
  }

  lemma NewsKept(s: State, d: Delivery, e: Event)
    requires d.source.AlertSource? && Invariant(s, d) && NewsIsKept(s, d) && IsEnabled(s, d, e)
    ensures NewsIsKept(After(s, d, e), d)
  {
    hide Invariant, HasNews, HasRenewedAll, After, IsEnabled;
    forall a | a in After(s, d, e).attempts
      ensures HasNews(After(s, d, e), d, a) && HasRenewedAll(After(s, d, e), d, a)
    {
      OwnNewsKept(s, d, e, a);
      RenewalKept(s, d, e, a);
    }
  }

  // ---- Runs ----

  ghost predicate IsRun(states: seq<State>, events: seq<Event>, d: Delivery) {
    && |states| == |events| + 1 && states[0].attempts == map[] && states[0].announced == multiset{}
    && HasUniqueKeys(states[0].rows)
    && (forall k :: 0 <= k < |events| ==> IsStep(states, events, d, k))
  }

  ghost predicate IsStep(states: seq<State>, events: seq<Event>, d: Delivery, k: nat)
    requires k < |events| && |states| == |events| + 1
  {
    IsEnabled(states[k], d, events[k]) && states[k + 1] == After(states[k], d, events[k])
  }

  lemma {:induction false} RunKeeps(states: seq<State>, events: seq<Event>, d: Delivery, k: nat)
    requires d.source.AlertSource? && IsRun(states, events, d) && k < |states|
    ensures Invariant(states[k], d) && NewsIsKept(states[k], d)
    ensures !d.replay ==> AnnouncesOwnRowsOnce(states[k])
    decreases k
  {
    hide After, IsEnabled, HasUniqueKeys, HasNews, HasRenewedAll, OwnsRows, HasToldAll;
    if k > 0 {
      RunKeeps(states, events, d, k - 1);
      hide Invariant, NewsIsKept, AnnouncesOwnRowsOnce;
      assert IsStep(states, events, d, k - 1);
      EventKeeps(states[k - 1], d, events[k - 1]);
      NewsKept(states[k - 1], d, events[k - 1]);
      if !d.replay {
        AnnouncingKept(states[k - 1], d, events[k - 1]);
      }
    }
  }

  ghost predicate IsOnlyRowFor(rows: Table, i: RowId, recipient: StaffId, alert: nat) {
    && i in rows && IsFor(rows[i], recipient, alert)
    && forall j :: j in rows && IsFor(rows[j], recipient, alert) ==> j == i
  }

  lemma OneRowEach(s: State, d: Delivery, a: AttemptId, m: nat) returns (i: RowId)
    requires d.source.AlertSource? && Invariant(s, d) && m < |d.recipients|
    requires a in s.attempts && HasStored(s.attempts[a])
    ensures IsOnlyRowFor(s.rows, i, d.recipients[m], d.source.alert)
  {
    assert HasToldAll(s, d, a);
    assert IsTold(s.rows, d.recipients[m], d.source.alert);
    i :| i in s.rows && IsFor(s.rows[i], d.recipients[m], d.source.alert);
    forall j | j in s.rows && IsFor(s.rows[j], d.recipients[m], d.source.alert)
      ensures j == i
    {
      assert Clash(s.rows[i], s.rows[j]);
    }
  }

  /**
   However attempts interleave: once one of them has completed, each recipient has exactly one row for the
   alert; without a replay nobody has been told of it twice; and after a completed replay each recipient's row
   has the new text and is unread, unless it was read since.
   */
  lemma DeliveryReachesEachOnce(
    states: seq<State>, events: seq<Event>, d: Delivery, k: nat, a: AttemptId, m: nat) returns (i: RowId)
    requires d.source.AlertSource? && IsRun(states, events, d) && k < |states| && m < |d.recipients|
    requires a in states[k].attempts && states[k].attempts[a].phase == Completed
    ensures IsOnlyRowFor(states[k].rows, i, d.recipients[m], d.source.alert)
    ensures d.replay ==> IsNews(states[k].rows[i], i, d, states[k].attempts[a])
  {
    RunKeeps(states, events, d, k);
    i := OneRowEach(states[k], d, a, m);
    assert HasRenewedAll(states[k], d, a);
    assert IsListed(states[k].rows[i], d);
  }

  lemma NobodyIsToldTwice(states: seq<State>, events: seq<Event>, d: Delivery, k: nat, i: RowId, j: RowId)
    requires d.source.AlertSource? && !d.replay && IsRun(states, events, d) && k < |states|
    requires i in states[k].announced && j in states[k].announced
    ensures i in states[k].rows && j in states[k].rows && states[k].announced[i] == 1
    ensures states[k].rows[i].recipient == states[k].rows[j].recipient ==> i == j
  {
    RunKeeps(states, events, d, k);
    AnnouncedIsOfAlert(states[k], d, i);
    AnnouncedIsOfAlert(states[k], d, j);
    if states[k].rows[i].recipient == states[k].rows[j].recipient {
      assert Clash(states[k].rows[i], states[k].rows[j]);
    }
  }

  lemma AnnouncedIsOfAlert(s: State, d: Delivery, i: RowId)
    requires d.source.AlertSource? && NewsIsKept(s, d) && AnnouncesOwnRowsOnce(s) && i in s.announced
    ensures i in s.rows && s.rows[i].alertId == Some(d.source.alert)
  {
    assert IsSpent(s, i);
    var a :| a in s.attempts && i in s.attempts[a].mine;
    assert HasNews(s, d, a);
  }
}
