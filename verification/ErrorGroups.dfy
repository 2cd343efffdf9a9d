/**
 Captured errors and the weekly groups they are gathered in
 (apps/api/src/modules/monitoring/error-collector.service.ts:20-96, 202-217,
 apps/api/src/modules/monitoring/error-fingerprint.ts:61-77).  The hash of an error is a parameter.
 */
module ErrorGroups {
  import opened Options
  import opened WeekArithmetic

  datatype Level = ERROR | FATAL

  datatype Source = HTTP | QUEUE | PROCESS | APP

  datatype CapturedError = CapturedError(
    level: Level, source: Source, context: Option<string>, route: Option<string>,
    statusCode: Option<int>, message: string, stack: Option<string>, at: int)

  /** An error and how often it counts. */
  datatype Weighted = Weighted(event: CapturedError, weight: nat)

  datatype Key = Key(fingerprint: string, weekStart: int)

  datatype Group = Group(
    key: Key, level: Level, source: Source, context: Option<string>, route: Option<string>,
    statusCode: Option<int>, message: string, stack: Option<string>,
    count: nat, firstSeenAt: int, lastSeenAt: int)

  /** What errors are gathered by; what follows holds for any. */
  type Keying = CapturedError -> Key

  /** The service gathers by the hash of the error and the week of its time. */
  function KeyBy(fingerprint: CapturedError -> string): Keying {
    (e: CapturedError) => Key(fingerprint(e), WeekStartOf(e.at))
  }

  function NewGroup(w: Weighted, keyOf: Keying): (g: Group)
    ensures g.key == keyOf(w.event)
  {
    var e := w.event;
    Group(keyOf(e), e.level, e.source, e.context, e.route, e.statusCode, e.message, e.stack,
          w.weight, e.at, e.at)
  }

  /** The group with one more error: the latest one shows, its stack only if it has one. */
  function Merged(g: Group, w: Weighted): (g': Group)
    ensures g'.key == g.key
  {
    var e := w.event;
    var isLatest := e.at >= g.lastSeenAt;
    g.(level := if e.level == FATAL then FATAL else g.level,
       message := if isLatest then e.message else g.message,
       statusCode := if isLatest then e.statusCode else g.statusCode,
       stack := if isLatest && e.stack.Some? then e.stack else g.stack,
       count := g.count + w.weight,
       firstSeenAt := if e.at < g.firstSeenAt then e.at else g.firstSeenAt,
       lastSeenAt := if isLatest then e.at else g.lastSeenAt)
  }

  function Joined(g: Option<Group>, w: Weighted, keyOf: Keying): Group {
    if g.None? then NewGroup(w, keyOf) else Merged(g.value, w)
  }

  /** What the errors of one key come to, taken in order. */
  function GroupOf(key: Key, ws: seq<Weighted>, keyOf: Keying): (g: Option<Group>)
    ensures g.Some? ==> g.value.key == key
  {
    if ws == [] then None
    else
      var front, last := GroupOf(key, ws[..|ws| - 1], keyOf), ws[|ws| - 1];
      if keyOf(last.event) == key then Some(Joined(front, last, keyOf)) else front
  }

  lemma GroupOfSnoc(key: Key, ws: seq<Weighted>, w: Weighted, keyOf: Keying)
    ensures GroupOf(key, ws + [w], keyOf)
         == if keyOf(w.event) == key then Some(Joined(GroupOf(key, ws, keyOf), w, keyOf))
            else GroupOf(key, ws, keyOf)
  {
    assert (ws + [w])[..|ws|] == ws;
  }

  // ---- The stored rows ----

  /** The row after the update that an upsert makes; an empty stack counts as none here. */
  function Updated(row: Group, g: Group): Group {
    row.(count := row.count + g.count,
         lastSeenAt := g.lastSeenAt,
         message := g.message,
         statusCode := g.statusCode,
         stack := if g.stack.Some? && g.stack.value != "" then g.stack else row.stack,
         level := if g.level == FATAL then FATAL else row.level)
  }

  function Upserted(row: Option<Group>, g: Group): Group {
    if row.None? then g else Updated(row.value, g)
  }

  type Rows = map<Key, Group>

  function RowAt(rows: Rows, key: Key): Option<Group> {
    if key in rows then Some(rows[key]) else None
  }

  function Upsert(rows: Rows, g: Group): Rows {
    rows[g.key := Upserted(RowAt(rows, g.key), g)]
  }

  /** One transaction: the upserts of all groups, in their order. */
  function UpsertAll(rows: Rows, groups: seq<Group>): Rows {
    if groups == [] then rows else Upsert(UpsertAll(rows, groups[..|groups| - 1]), groups[|groups| - 1])
  }

  // ---- Counts ----

  function Weight(ws: seq<Weighted>): nat {
    if ws == [] then 0 else Weight(ws[..|ws| - 1]) + ws[|ws| - 1].weight
  }

  function CountOf(groups: seq<Group>): nat {
    if groups == [] then 0 else CountOf(groups[..|groups| - 1]) + groups[|groups| - 1].count
  }

  lemma {:induction false} CountOfChanged(groups: seq<Group>, k: nat, g: Group)
    requires k < |groups|
    ensures CountOf(groups[k := g]) == CountOf(groups) - groups[k].count + g.count
  {
    var front := groups[..|groups| - 1];
    if k < |groups| - 1 {
      CountOfChanged(front, k, g);
      assert groups[k := g][..|groups| - 1] == front[k := g];
    } else {
      assert groups[k := g][..|groups| - 1] == front;
    }
  }

  lemma CountOfSnoc(groups: seq<Group>, g: Group)
    ensures CountOf(groups + [g]) == CountOf(groups) + g.count
  {
    assert (groups + [g])[..|groups|] == groups;
  }
}
