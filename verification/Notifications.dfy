/**
 The notification table and one delivery to it
 (apps/api/src/modules/alerts/notification-dispatch.service.ts:15-48, 111-215, 258-301,
 apps/api/prisma/schema.prisma:546-577).
 */
module Notifications {
  import opened Options

  type StaffId = nat
  type RowId = nat

  datatype Source =
    | AlertSource(alert: nat, alertUrl: Option<string>)
    | AnalysisSource(version: nat, alertOfVersion: Option<nat>, targetUrl: string)
    | DiscussionSource(message: nat, targetUrl: string)

  datatype Delivery = Delivery(recipients: seq<StaffId>, title: string, body: string, source: Source, replay: bool)

  datatype Row = Row(
    recipient: StaffId, alertId: Option<nat>, analysisVersionId: Option<nat>, discussionMessageId: Option<nat>,
    title: string, body: string, targetUrl: Option<string>, isRead: bool)

  type Table = map<RowId, Row>

  function BuildRow(recipient: StaffId, d: Delivery): Row {
    match d.source
    case AlertSource(alert, url) => Row(recipient, Some(alert), None, None, d.title, d.body, url, false)
    case DiscussionSource(message, url) => Row(recipient, None, None, Some(message), d.title, d.body, Some(url), false)
    case AnalysisSource(version, alert, url) =>
      Row(recipient, alert, Some(version), None, d.title, d.body, Some(url), false)
  }

  // ---- The unique keys ----

  predicate SameKey(a: Option<nat>, b: Option<nat>) {
    a.Some? && a == b
  }

  /** The rows are of one recipient and share an alert, an analysis or a discussion message. */
  predicate Clash(a: Row, b: Row) {
    && a.recipient == b.recipient
    && (SameKey(a.alertId, b.alertId) || SameKey(a.analysisVersionId, b.analysisVersionId)
        || SameKey(a.discussionMessageId, b.discussionMessageId))
  }

  ghost predicate HasUniqueKeys(rows: Table) {
    forall i, j :: i in rows && j in rows && i != j ==> !Clash(rows[i], rows[j])
  }

  predicate IsThere(rows: Table, row: Row) {
    exists i :: i in rows && Clash(rows[i], row)
  }

  // ---- Inserting, with duplicates skipped ----

  ghost predicate AreFreshIds(rows: Table, d: Delivery, ids: seq<RowId>) {
    && |ids| == |d.recipients|
    && (forall k :: 0 <= k < |ids| ==> ids[k] !in rows)
    && (forall j, k :: 0 <= j < k < |ids| ==> ids[j] != ids[k])
  }

  function Inserted(rows: Table, d: Delivery, ids: seq<RowId>, k: nat): Table
    requires k <= |ids| == |d.recipients|
  {
    if k == 0 then rows
    else
      var before, row := Inserted(rows, d, ids, k - 1), BuildRow(d.recipients[k - 1], d);
      if IsThere(before, row) then before else before[ids[k - 1] := row]
  }

  lemma {:induction false} InsertionAdds(rows: Table, d: Delivery, ids: seq<RowId>, k: nat)
    requires AreFreshIds(rows, d, ids) && k <= |ids|
    ensures forall i :: i in rows ==> i in Inserted(rows, d, ids, k) && Inserted(rows, d, ids, k)[i] == rows[i]
    ensures forall i :: i in Inserted(rows, d, ids, k) && i !in rows ==>
              IsNewRow(Inserted(rows, d, ids, k), d, ids, k, i)
  {
    hide BuildRow, IsThere;
    if k > 0 {
      InsertionAdds(rows, d, ids, k - 1);
      var before, after := Inserted(rows, d, ids, k - 1), Inserted(rows, d, ids, k);
      forall i | i in after && i !in rows
        ensures IsNewRow(after, d, ids, k, i)
      {
        if i in before {
          assert IsNewRow(before, d, ids, k - 1, i);
          var m :| 0 <= m < k - 1 && i == ids[m] && before[i] == BuildRow(d.recipients[m], d);
          assert after[i] == BuildRow(d.recipients[m], d);
        } else {
          assert i == ids[k - 1];
        }
      }
    }
  }

  lemma NewRowHasItsId(rows: Table, d: Delivery, ids: seq<RowId>, k: nat, i: RowId) returns (m: nat)
    requires AreFreshIds(rows, d, ids) && k <= |ids| && i in Inserted(rows, d, ids, k) && i !in rows
    ensures m < k && i == ids[m]
  {
    InsertionAdds(rows, d, ids, k);
    assert IsNewRow(Inserted(rows, d, ids, k), d, ids, k, i);
    m :| 0 <= m < k && i == ids[m];
  }

  lemma NextIdIsFree(rows: Table, d: Delivery, ids: seq<RowId>, k: nat)
    requires AreFreshIds(rows, d, ids) && k < |ids|
    ensures ids[k] !in Inserted(rows, d, ids, k)
  {
    if ids[k] in Inserted(rows, d, ids, k) {
      var m := NewRowHasItsId(rows, d, ids, k, ids[k]);
    }
  }

  ghost predicate IsNewRow(rows: Table, d: Delivery, ids: seq<RowId>, k: nat, i: RowId)
    requires i in rows && k <= |ids| == |d.recipients|
  {
    exists m :: 0 <= m < k && i == ids[m] && rows[i] == BuildRow(d.recipients[m], d)
  }

  lemma {:induction false} InsertionKeepsKeys(rows: Table, d: Delivery, ids: seq<RowId>, k: nat)
    requires HasUniqueKeys(rows) && k <= |ids| == |d.recipients|
    ensures HasUniqueKeys(Inserted(rows, d, ids, k))
  {
    hide BuildRow;
    if k > 0 {
      InsertionKeepsKeys(rows, d, ids, k - 1);
      var before, row := Inserted(rows, d, ids, k - 1), BuildRow(d.recipients[k - 1], d);
      if !IsThere(before, row) {
        forall i | i in before
          ensures !Clash(before[i], row)
        {}
      }
    }
  }

  /** A row of the recipient for this alert. */
  predicate IsFor(row: Row, recipient: StaffId, alert: nat) {
    row.recipient == recipient && row.alertId == Some(alert)
  }

  ghost predicate IsTold(rows: Table, recipient: StaffId, alert: nat) {
    exists i :: i in rows && IsFor(rows[i], recipient, alert)
  }

  /** Every recipient has a row for the alert afterwards, old or new. */
  lemma {:induction false} InsertionTells(rows: Table, d: Delivery, ids: seq<RowId>, k: nat, m: nat)
    requires AreFreshIds(rows, d, ids) && m < k <= |ids| && d.source.AlertSource?
    ensures IsTold(Inserted(rows, d, ids, k), d.recipients[m], d.source.alert)
  {
    var before, after := Inserted(rows, d, ids, k - 1), Inserted(rows, d, ids, k);
    var row := BuildRow(d.recipients[k - 1], d);
    InsertionAdds(rows, d, ids, k - 1);
    if m == k - 1 {
      if IsThere(before, row) {
        var i :| i in before && Clash(before[i], row);
        assert IsFor(after[i], d.recipients[m], d.source.alert);
      } else {
        assert IsFor(after[ids[m]], d.recipients[m], d.source.alert);
      }
    } else {
      InsertionTells(rows, d, ids, k - 1, m);
      var i :| i in before && IsFor(before[i], d.recipients[m], d.source.alert);
      StaysInserted(rows, d, ids, k, i);
      assert IsFor(after[i], d.recipients[m], d.source.alert);
    }
  }

  lemma StaysInserted(rows: Table, d: Delivery, ids: seq<RowId>, k: nat, i: RowId)
    requires AreFreshIds(rows, d, ids) && 0 < k <= |ids| && i in Inserted(rows, d, ids, k - 1)
    ensures i in Inserted(rows, d, ids, k) && Inserted(rows, d, ids, k)[i] == Inserted(rows, d, ids, k - 1)[i]
  {
    hide BuildRow, IsThere;
    InsertionAdds(rows, d, ids, k - 1);
    if i !in rows {
      assert IsNewRow(Inserted(rows, d, ids, k - 1), d, ids, k - 1, i);
      var m :| 0 <= m < k - 1 && i == ids[m];
    }
  }

  // ---- Refreshing for a replay ----

  /** The rows that a replay makes unread again: of this alert, for the recipients without a new row. */
  predicate IsToRefresh(row: Row, d: Delivery, told: set<StaffId>) {
    && d.replay && d.source.AlertSource?
    && row.alertId == Some(d.source.alert) && row.recipient in d.recipients && row.recipient !in told
  }

  function RefreshedRow(row: Row, d: Delivery, told: set<StaffId>): Row {
    if IsToRefresh(row, d, told) then row.(isRead := false, title := d.title, body := d.body) else row
  }

  function Refreshed(rows: Table, d: Delivery, told: set<StaffId>): Table {
    map i | i in rows :: RefreshedRow(rows[i], d, told)
  }

  /** The recipients of the rows that this attempt inserted. */
  function RecipientsOf(rows: Table, inserted: set<RowId>): set<StaffId> {
    set i | i in inserted && i in rows :: rows[i].recipient
  }

  function RefreshedIds(rows: Table, d: Delivery, told: set<StaffId>): set<RowId> {
    set i | i in rows && IsToRefresh(rows[i], d, told)
  }

  lemma RefreshKeepsKeys(rows: Table, d: Delivery, told: set<StaffId>)
    requires HasUniqueKeys(rows)
    ensures HasUniqueKeys(Refreshed(rows, d, told))
  {
    forall i, j | i in rows && j in rows && i != j
      ensures !Clash(Refreshed(rows, d, told)[i], Refreshed(rows, d, told)[j])
    {
      assert !Clash(rows[i], rows[j]);
    }
  }

  // ---- One delivery, undisturbed ----

  predicate IsDistinct(list: seq<RowId>) {
    forall j, k :: 0 <= j < k < |list| ==> list[j] != list[k]
  }

  lemma BothDistinct(a: seq<RowId>, b: seq<RowId>)
    requires IsDistinct(a) && IsDistinct(b) && (forall i :: i in a ==> i !in b)
    ensures IsDistinct(a + b)
  {
    var all := a + b;
    forall j, k | 0 <= j < k < |all|
      ensures all[j] != all[k]
    {
      assert j < |a| ==> all[j] in a;
      assert |a| <= k ==> all[k] in b;
    }
  }

  class NotificationDesk {
    var rows: Table
    /** The rows announced, in order. */
    var emitted: seq<RowId>

    ghost predicate Valid()
      reads this
    {
      HasUniqueKeys(rows)
    }

    constructor ()
      ensures Valid() && rows == map[] && emitted == []
    {
      rows, emitted := map[], [];
    }

    method CreateManyAndReturn(d: Delivery, ids: seq<RowId>) returns (inserted: seq<RowId>)
      requires Valid() && AreFreshIds(rows, d, ids)
      modifies this`rows
      ensures Valid() && rows == Inserted(old(rows), d, ids, |ids|)
      ensures forall i :: i in inserted <==> i in rows && i !in old(rows)
      ensures IsDistinct(inserted)
    {
      hide BuildRow, IsThere;
      ghost var before := rows;
      InsertionKeepsKeys(rows, d, ids, |ids|);
      inserted := [];
      for k := 0 to |ids|
        invariant rows == Inserted(before, d, ids, k)
        invariant forall i :: i in inserted <==> i in rows && i !in before
        invariant IsDistinct(inserted)
      {
        NextIdIsFree(before, d, ids, k);
        var row := BuildRow(d.recipients[k], d);
        if !IsThere(rows, row) {
          rows := rows[ids[k] := row];
          inserted := inserted + [ids[k]];
        }
      }
    }

    /** Rows inserted or refreshed are announced, each once. */
    method Deliver(d: Delivery, ids: seq<RowId>) returns (delivered: nat, ghost news: seq<RowId>)
      requires Valid() && AreFreshIds(rows, d, ids)
      modifies this
      ensures Valid() && rows == Delivered(old(rows), d, ids)
      ensures emitted == old(emitted) + news && delivered == |news|
      ensures IsDistinct(news)
      ensures forall i :: i in news <==> i in NewIds(old(rows), d, ids) || i in ReplayedIds(old(rows), d, ids)
    {
      hide BuildRow, Clash, HasUniqueKeys, IsToRefresh, Inserted;
      var inserted: seq<RowId>, more: seq<RowId> := [], [];
      if |d.recipients| == 0 {
        NothingToDeliver(rows, d, ids);
      } else {
        inserted := CreateManyAndReturn(d, ids);
        var insertedIds := set i | i in inserted;
        assert insertedIds == NewIds(old(rows), d, ids);
        var told := RecipientsOf(rows, insertedIds);
        InsertedAreTold(rows, d, insertedIds);
        more := Listed(RefreshedIds(rows, d, told));
        RefreshKeepsKeys(rows, d, told);
        rows := Refreshed(rows, d, told);
      }
      BothDistinct(inserted, more);
      news := inserted + more;
      emitted := emitted + (inserted + more);
      delivered := |inserted| + |more|;
    }

    method Listed(ids: set<RowId>) returns (list: seq<RowId>)
      ensures forall i :: i in list <==> i in ids
      ensures IsDistinct(list)
    {
      list := [];
      var rest := ids;
      while rest != {}
        invariant forall i :: i in list <==> i in ids && i !in rest
        invariant IsDistinct(list)
        invariant rest <= ids
        decreases |rest|
      {
        var i :| i in rest;
        list, rest := list + [i], rest - {i};
      }
    }
  }

  // ---- What a delivery comes to ----

  function NewIds(rows: Table, d: Delivery, ids: seq<RowId>): set<RowId>
    requires |ids| == |d.recipients|
  {
    Inserted(rows, d, ids, |ids|).Keys - rows.Keys
  }

  function ReplayedIds(rows: Table, d: Delivery, ids: seq<RowId>): set<RowId>
    requires |ids| == |d.recipients|
  {
    var after := Inserted(rows, d, ids, |ids|);
    RefreshedIds(after, d, RecipientsOf(after, NewIds(rows, d, ids)))
  }

  function Delivered(rows: Table, d: Delivery, ids: seq<RowId>): Table
    requires |ids| == |d.recipients|
  {
    var after := Inserted(rows, d, ids, |ids|);
    Refreshed(after, d, RecipientsOf(after, NewIds(rows, d, ids)))
  }

  lemma NothingToDeliver(rows: Table, d: Delivery, ids: seq<RowId>)
    requires |ids| == |d.recipients| == 0
    ensures Delivered(rows, d, ids) == rows && NewIds(rows, d, ids) == {} && ReplayedIds(rows, d, ids) == {}
  {}

  lemma InsertedAreTold(rows: Table, d: Delivery, inserted: set<RowId>)
    requires inserted <= rows.Keys
    ensures inserted !! RefreshedIds(rows, d, RecipientsOf(rows, inserted))
  {
    forall i | i in inserted
      ensures i !in RefreshedIds(rows, d, RecipientsOf(rows, inserted))
    {
      assert rows[i].recipient in RecipientsOf(rows, inserted);
    }
  }
}
