/**
 What a delivery leaves in the table, row by row
 (apps/api/src/modules/alerts/notification-dispatch.service.ts:111-125, 187-215, 258-287).
 */
module NotificationLaws {
  import opened Options
  import opened Notifications

  /** The row points to what the delivery is about, and to where it is to be read. */
  predicate PointsTo(row: Row, source: Source) {
    match source
    case AlertSource(alert, url) =>
      && row.alertId == Some(alert) && row.analysisVersionId.None? && row.discussionMessageId.None?
      && row.targetUrl == url
    case DiscussionSource(message, url) =>
      && row.alertId.None? && row.analysisVersionId.None? && row.discussionMessageId == Some(message)
      && row.targetUrl == Some(url)
    case AnalysisSource(version, alert, url) =>
      && row.alertId == alert && row.analysisVersionId == Some(version) && row.discussionMessageId.None?
      && row.targetUrl == Some(url)
  }

  predicate IsUnreadNews(row: Row, recipient: StaffId, d: Delivery) {
    && row.recipient == recipient && row.title == d.title && row.body == d.body && !row.isRead
    && PointsTo(row, d.source)
  }

  /** The person has been told of it: of the alert, of the message, of the analysis or of the alert it made. */
  predicate Tells(row: Row, recipient: StaffId, source: Source) {
    && row.recipient == recipient
    && match source
       case AlertSource(alert, _) => row.alertId == Some(alert)
       case DiscussionSource(message, _) => row.discussionMessageId == Some(message)
       case AnalysisSource(version, alert, _) =>
         row.analysisVersionId == Some(version) || (alert.Some? && row.alertId == alert)
  }

  ghost predicate WasTold(rows: Table, recipient: StaffId, source: Source) {
    exists i :: i in rows && Tells(rows[i], recipient, source)
  }

  lemma BuiltRowIs(recipient: StaffId, d: Delivery, row: Row)
    ensures IsUnreadNews(BuildRow(recipient, d), recipient, d)
    ensures Clash(row, BuildRow(recipient, d)) <==> Tells(row, recipient, d.source)
  {}

  lemma ThereIfTold(rows: Table, recipient: StaffId, d: Delivery)
    ensures IsThere(rows, BuildRow(recipient, d)) <==> WasTold(rows, recipient, d.source)
  {
    hide BuildRow, Clash, Tells;
    forall i | i in rows
      ensures Clash(rows[i], BuildRow(recipient, d)) <==> Tells(rows[i], recipient, d.source)
    {
      BuiltRowIs(recipient, d, rows[i]);
    }
  }

  // ---- The insertion ----

  ghost predicate IsInsertedFor(rows: Table, row: Row, d: Delivery, ids: seq<RowId>, k: nat, i: RowId)
    requires k <= |ids| == |d.recipients|
  {
    exists m :: 0 <= m < k && i == ids[m] && row == BuildRow(d.recipients[m], d)
                && !IsThere(rows, BuildRow(d.recipients[m], d))
  }

  lemma {:induction false} InsertedAreNew(rows: Table, d: Delivery, ids: seq<RowId>, k: nat, i: RowId)
    requires AreFreshIds(rows, d, ids) && k <= |ids| && i in Inserted(rows, d, ids, k) && i !in rows
    ensures IsInsertedFor(rows, Inserted(rows, d, ids, k)[i], d, ids, k, i)
  {
    hide BuildRow, Clash;
    var before := Inserted(rows, d, ids, k - 1);
    if i in before {
      StaysInserted(rows, d, ids, k, i);
      InsertedAreNew(rows, d, ids, k - 1, i);
      var m :| 0 <= m < k - 1 && i == ids[m] && before[i] == BuildRow(d.recipients[m], d)
               && !IsThere(rows, BuildRow(d.recipients[m], d));
    } else {
      InsertionAdds(rows, d, ids, k - 1);
      FewerAreThere(rows, before, BuildRow(d.recipients[k - 1], d));
      assert i == ids[k - 1];
    }
  }

  lemma FewerAreThere(rows: Table, more: Table, row: Row)
    requires forall i :: i in rows ==> i in more && more[i] == rows[i]
    ensures IsThere(rows, row) ==> IsThere(more, row)
  {
    if IsThere(rows, row) {
      var i :| i in rows && Clash(rows[i], row);
      assert Clash(more[i], row);
    }
  }

  ghost predicate IsReached(after: Table, rows: Table, recipient: StaffId, d: Delivery) {
    WasTold(rows, recipient, d.source) || exists i :: i in after && i !in rows && after[i].recipient == recipient
  }

  lemma {:induction false} InsertionReaches(rows: Table, d: Delivery, ids: seq<RowId>, k: nat, m: nat)
    requires AreFreshIds(rows, d, ids) && m < k <= |ids|
    ensures IsReached(Inserted(rows, d, ids, k), rows, d.recipients[m], d)
  {
    hide BuildRow, Clash, WasTold;
    var before, after := Inserted(rows, d, ids, k - 1), Inserted(rows, d, ids, k);
    if m < k - 1 {
      InsertionReaches(rows, d, ids, k - 1, m);
      if !WasTold(rows, d.recipients[m], d.source) {
        var i :| i in before && i !in rows && before[i].recipient == d.recipients[m];
        StaysInserted(rows, d, ids, k, i);
        assert after[i].recipient == d.recipients[m];
      }
    } else {
      LastIsReached(rows, d, ids, k);
    }
  }

  lemma LastIsReached(rows: Table, d: Delivery, ids: seq<RowId>, k: nat)
    requires AreFreshIds(rows, d, ids) && 0 < k <= |ids|
    ensures IsReached(Inserted(rows, d, ids, k), rows, d.recipients[k - 1], d)
  {
    hide Inserted, WasTold, BuildRow, Clash, IsThere;
    var before, after := Inserted(rows, d, ids, k - 1), Inserted(rows, d, ids, k);
    var recipient := d.recipients[k - 1];
    InsertionStep(rows, d, ids, k);
    InsertionAdds(rows, d, ids, k - 1);
    if IsThere(before, BuildRow(recipient, d)) {
      ClashIsNewOrOld(rows, before, recipient, d);
    } else {
      BuiltRowIs(recipient, d, BuildRow(recipient, d));
      assert after[ids[k - 1]].recipient == recipient;
    }
  }

  lemma InsertionStep(rows: Table, d: Delivery, ids: seq<RowId>, k: nat)
    requires 0 < k <= |ids| == |d.recipients|
    ensures var before, row := Inserted(rows, d, ids, k - 1), BuildRow(d.recipients[k - 1], d);
            Inserted(rows, d, ids, k) == if IsThere(before, row) then before else before[ids[k - 1] := row]
  {}

  lemma ClashIsNewOrOld(rows: Table, before: Table, recipient: StaffId, d: Delivery)
    requires (forall i :: i in rows ==> i in before && before[i] == rows[i]) && IsThere(before, BuildRow(recipient, d))
    ensures IsReached(before, rows, recipient, d)
  {
    ThereIfTold(before, recipient, d);
    var i :| i in before && Tells(before[i], recipient, d.source);
    if i in rows {
      assert Tells(rows[i], recipient, d.source);
    }
  }

  // ---- The whole delivery ----

  /** A replay of an alert makes the old rows of its recipients unread, with the new text; nothing else changes. */
  predicate IsRenewed(row: Row, d: Delivery) {
    && d.replay && d.source.AlertSource? && row.alertId == Some(d.source.alert) && row.recipient in d.recipients
  }

  lemma OldIsNotTold(rows: Table, d: Delivery, ids: seq<RowId>, i: RowId)
    requires AreFreshIds(rows, d, ids) && i in rows && d.source.AlertSource?
    requires rows[i].alertId == Some(d.source.alert)
    ensures rows[i].recipient
         !in RecipientsOf(Inserted(rows, d, ids, |ids|), Inserted(rows, d, ids, |ids|).Keys - rows.Keys)
  {
    hide Inserted;
    var after := Inserted(rows, d, ids, |ids|);
    forall j | j in after && j !in rows
      ensures after[j].recipient != rows[i].recipient
    {
      InsertedAreNew(rows, d, ids, |ids|, j);
      NotForTheTold(rows, after[j], d, ids, j, i);
    }
  }

  lemma NotForTheTold(rows: Table, row: Row, d: Delivery, ids: seq<RowId>, j: RowId, i: RowId)
    requires |ids| == |d.recipients| && IsInsertedFor(rows, row, d, ids, |ids|, j)
    requires i in rows && d.source.AlertSource? && rows[i].alertId == Some(d.source.alert)
    ensures row.recipient != rows[i].recipient
  {
    var m :| 0 <= m < |ids| && j == ids[m] && row == BuildRow(d.recipients[m], d)
             && !IsThere(rows, BuildRow(d.recipients[m], d));
    assert !Clash(rows[i], row);
  }

  lemma OldAfterDelivery(rows: Table, d: Delivery, ids: seq<RowId>, i: RowId)
    requires AreFreshIds(rows, d, ids) && i in rows
    ensures i in Delivered(rows, d, ids)
    ensures Delivered(rows, d, ids)[i]
         == if IsRenewed(rows[i], d) then rows[i].(isRead := false, title := d.title, body := d.body) else rows[i]
  {
    hide Inserted, RecipientsOf;
    InsertionAdds(rows, d, ids, |ids|);
    if d.source.AlertSource? && rows[i].alertId == Some(d.source.alert) {
      OldIsNotTold(rows, d, ids, i);
    }
  }

  /** A new row is an unread one with the delivery's text, for a recipient who had not been told of it. */
  lemma NewAfterDelivery(rows: Table, d: Delivery, ids: seq<RowId>, i: RowId)
    requires AreFreshIds(rows, d, ids) && i in Delivered(rows, d, ids) && i !in rows
    ensures exists m :: 0 <= m < |ids| && i == ids[m] && IsUnreadNews(Delivered(rows, d, ids)[i], d.recipients[m], d)
                        && !WasTold(rows, d.recipients[m], d.source)
  {
    hide Inserted, RecipientsOf, WasTold, Clash;
    InsertedAreNew(rows, d, ids, |ids|, i);
    var row := Inserted(rows, d, ids, |ids|)[i];
    var m :| 0 <= m < |ids| && i == ids[m] && row == BuildRow(d.recipients[m], d)
             && !IsThere(rows, BuildRow(d.recipients[m], d));
    ThereIfTold(rows, d.recipients[m], d);
    BuiltRowIs(d.recipients[m], d, row);
    hide BuildRow;
    assert IsUnreadNews(Delivered(rows, d, ids)[i], d.recipients[m], d);
  }

  /**
   What a delivery leaves.  Old rows stay, and only a replay renews those of its recipients; every new row is
   unread news for someone who had not been told; and every recipient had been told or has a new row.
   */
  lemma DeliveryLeaves(rows: Table, d: Delivery, ids: seq<RowId>)
    requires AreFreshIds(rows, d, ids)
    ensures var after := Delivered(rows, d, ids);
            && (forall i :: i in rows ==>
                  && i in after
                  && after[i] == if IsRenewed(rows[i], d) then
                                   rows[i].(isRead := false, title := d.title, body := d.body)
                                 else rows[i])
            && (forall i :: i in after && i !in rows ==> IsNewsFor(rows, after[i], d, ids, i))
            && (forall m :: 0 <= m < |d.recipients| ==> IsReached(after, rows, d.recipients[m], d))
  {
    hide Delivered, IsReached, Inserted, IsUnreadNews, WasTold;
    var after := Delivered(rows, d, ids);
    forall i | i in rows
      ensures i in after
      ensures after[i] == if IsRenewed(rows[i], d) then rows[i].(isRead := false, title := d.title, body := d.body)
                          else rows[i]
    {
      OldAfterDelivery(rows, d, ids, i);
    }
    forall i | i in after && i !in rows
      ensures IsNewsFor(rows, after[i], d, ids, i)
    {
      NewAfterDelivery(rows, d, ids, i);
    }
    forall m | 0 <= m < |d.recipients|
      ensures IsReached(after, rows, d.recipients[m], d)
    {
      InsertionReaches(rows, d, ids, |ids|, m);
      ReachedAfterRefresh(rows, d, ids, d.recipients[m]);
    }
  }

  ghost predicate IsNewsFor(rows: Table, row: Row, d: Delivery, ids: seq<RowId>, i: RowId)
    requires |ids| == |d.recipients|
  {
    exists m :: 0 <= m < |ids| && i == ids[m] && IsUnreadNews(row, d.recipients[m], d)
                && !WasTold(rows, d.recipients[m], d.source)
  }

  lemma ReachedAfterRefresh(rows: Table, d: Delivery, ids: seq<RowId>, recipient: StaffId)
    requires |ids| == |d.recipients| && IsReached(Inserted(rows, d, ids, |ids|), rows, recipient, d)
    ensures IsReached(Delivered(rows, d, ids), rows, recipient, d)
  {
    hide WasTold, Inserted, RecipientsOf;
    var before, after := Inserted(rows, d, ids, |ids|), Delivered(rows, d, ids);
    if !WasTold(rows, recipient, d.source) {
      var i :| i in before && i !in rows && before[i].recipient == recipient;
      assert after[i].recipient == recipient;
    }
  }

  /** What a delivery announces: exactly the rows that it made and those that it renewed. */
  lemma AnnouncedAreNews(rows: Table, d: Delivery, ids: seq<RowId>, i: RowId)
    requires AreFreshIds(rows, d, ids)
    ensures i in NewIds(rows, d, ids) || i in ReplayedIds(rows, d, ids)
       <==> i in Delivered(rows, d, ids) && (i !in rows || IsRenewed(rows[i], d))
  {
    hide Inserted, RecipientsOf;
    InsertionAdds(rows, d, ids, |ids|);
    if i in rows && d.source.AlertSource? && rows[i].alertId == Some(d.source.alert) {
      OldIsNotTold(rows, d, ids, i);
    }
  }
}
