/**
 How many open alerts still wait for the viewer's own care
 (apps/api/src/modules/statistics/my-alert-care.ts:1-38): one pass over the logs, against asking of every
 alert about every log.
 */
module MyAlertCare {
  import opened Options

  datatype AlertRef = AlertRef(id: nat, student: nat, createdAt: int)

  datatype LogRef = LogRef(student: nat, alert: Option<nat>, createdAt: int)

  /** The log answers the alert itself, or is about its student and no older than the alert. */
  predicate CaresFor(log: LogRef, alert: AlertRef) {
    log.alert == Some(alert.id) || (log.student == alert.student && log.createdAt >= alert.createdAt)
  }

  predicate IsAwaiting(alert: AlertRef, logs: seq<LogRef>) {
    forall k :: 0 <= k < |logs| ==> !CaresFor(logs[k], alert)
  }

  function CountAwaiting(alerts: seq<AlertRef>, logs: seq<LogRef>): nat {
    if alerts == [] then 0
    else CountAwaiting(alerts[..|alerts| - 1], logs) + if IsAwaiting(alerts[|alerts| - 1], logs) then 1 else 0
  }

  predicate HasLogFor(logs: seq<LogRef>, alert: nat) {
    exists k :: 0 <= k < |logs| && logs[k].alert == Some(alert)
  }

  /** `latest` holds, for each student with a log, the time of the newest one. */
  ghost predicate IsLatest(latest: map<nat, int>, logs: seq<LogRef>) {
    && (forall k :: 0 <= k < |logs| ==> logs[k].student in latest && logs[k].createdAt <= latest[logs[k].student])
    && (forall s :: s in latest ==> IsTimeOf(logs, s, latest[s]))
  }

  predicate IsTimeOf(logs: seq<LogRef>, student: nat, time: int) {
    exists k :: 0 <= k < |logs| && logs[k].student == student && logs[k].createdAt == time
  }

  lemma LatestStep(latest: map<nat, int>, logs: seq<LogRef>, log: LogRef)
    requires IsLatest(latest, logs)
    ensures var newer := log.student !in latest || log.createdAt > latest[log.student];
            IsLatest(if newer then latest[log.student := log.createdAt] else latest, logs + [log])
  {
    var newer := log.student !in latest || log.createdAt > latest[log.student];
    var latest', longer := if newer then latest[log.student := log.createdAt] else latest, logs + [log];
    forall s | s in latest'
      ensures IsTimeOf(longer, s, latest'[s])
    {
      if s == log.student && newer {
        assert longer[|logs|] == log;
      } else {
        assert IsTimeOf(logs, s, latest[s]);
        var k :| 0 <= k < |logs| && logs[k].student == s && logs[k].createdAt == latest[s];
        assert longer[k] == logs[k];
      }
    }
  }

  lemma OwnLogCares(alert: AlertRef, logs: seq<LogRef>)
    requires HasLogFor(logs, alert.id)
    ensures !IsAwaiting(alert, logs)
  {
    var k :| 0 <= k < |logs| && logs[k].alert == Some(alert.id);
    assert CaresFor(logs[k], alert);
  }

  /** The two look-ups together ask about every log. */
  lemma LookUpsDecide(alert: AlertRef, logs: seq<LogRef>, cared: set<nat>, latest: map<nat, int>)
    requires IsLatest(latest, logs) && (forall id: nat :: id in cared <==> HasLogFor(logs, id))
    ensures IsAwaiting(alert, logs)
       <==> alert.id !in cared && (alert.student !in latest || latest[alert.student] < alert.createdAt)
  {
    if IsAwaiting(alert, logs) {
      if alert.student in latest {
        assert IsTimeOf(logs, alert.student, latest[alert.student]);
        var k :| 0 <= k < |logs| && logs[k].student == alert.student && logs[k].createdAt == latest[alert.student];
        assert !CaresFor(logs[k], alert);
      }
      if HasLogFor(logs, alert.id) {
        OwnLogCares(alert, logs);
      }
    }
  }

  /** No log answers the alert, and every log about its student is older than it. */
  ghost predicate IsLeftAlone(alert: AlertRef, logs: seq<LogRef>) {
    && (forall k :: 0 <= k < |logs| ==> logs[k].alert != Some(alert.id))
    && (forall k :: 0 <= k < |logs| && logs[k].student == alert.student ==> logs[k].createdAt < alert.createdAt)
  }

  ghost function LeftAlone(alerts: seq<AlertRef>, logs: seq<LogRef>): set<nat> {
    set k: nat | k < |alerts| && IsLeftAlone(alerts[k], logs)
  }

  lemma AwaitingIsLeftAlone(alert: AlertRef, logs: seq<LogRef>)
    ensures IsAwaiting(alert, logs) <==> IsLeftAlone(alert, logs)
  {
    if IsAwaiting(alert, logs) {
      forall k | 0 <= k < |logs|
        ensures logs[k].alert != Some(alert.id)
        ensures logs[k].student == alert.student ==> logs[k].createdAt < alert.createdAt
      {
        assert !CaresFor(logs[k], alert);
      }
    }
  }

  lemma {:induction false} AwaitingAreLeftAlone(alerts: seq<AlertRef>, logs: seq<LogRef>)
    ensures CountAwaiting(alerts, logs) == |LeftAlone(alerts, logs)|
  {
    hide IsAwaiting, IsLeftAlone;
    if alerts == [] {
      assert LeftAlone(alerts, logs) == {};
    } else {
      var last: nat := |alerts| - 1;
      AwaitingAreLeftAlone(alerts[..last], logs);
      AwaitingIsLeftAlone(alerts[last], logs);
      if IsLeftAlone(alerts[last], logs) {
        assert LeftAlone(alerts, logs) == LeftAlone(alerts[..last], logs) + {last};
      } else {
        assert LeftAlone(alerts, logs) == LeftAlone(alerts[..last], logs);
      }
    }
  }

  method CountAlertsAwaitingMyCare(alerts: seq<AlertRef>, myLogs: seq<LogRef>) returns (count: nat)
    ensures count == |LeftAlone(alerts, myLogs)|
  {
    AwaitingAreLeftAlone(alerts, myLogs);
    var cared: set<nat> := {};
    var latest: map<nat, int> := map[];
    for k := 0 to |myLogs|
      invariant IsLatest(latest, myLogs[..k])
      invariant forall id: nat :: id in cared <==> HasLogFor(myLogs[..k], id)
    {
      var log := myLogs[k];
      assert myLogs[..k + 1] == myLogs[..k] + [log];
      LatestStep(latest, myLogs[..k], log);
      CaredStep(cared, myLogs[..k], log);
      hide IsLatest, HasLogFor;
      if log.alert.Some? {
        cared := cared + {log.alert.value};
      }
      if log.student !in latest || log.createdAt > latest[log.student] {
        latest := latest[log.student := log.createdAt];
      }
    }
    assert myLogs[..|myLogs|] == myLogs;
    count := 0;
    for k := 0 to |alerts|
      invariant count == CountAwaiting(alerts[..k], myLogs)
    {
      hide IsAwaiting, IsLatest, HasLogFor;
      assert alerts[..k + 1][..k] == alerts[..k];
      LookUpsDecide(alerts[k], myLogs, cared, latest);
      if alerts[k].id !in cared && (alerts[k].student !in latest || latest[alerts[k].student] < alerts[k].createdAt) {
        count := count + 1;
      }
    }
    assert alerts[..|alerts|] == alerts;
  }

  lemma CaredStep(cared: set<nat>, logs: seq<LogRef>, log: LogRef)
    requires forall id: nat :: id in cared <==> HasLogFor(logs, id)
    ensures forall id: nat :: (id in cared || log.alert == Some(id)) <==> HasLogFor(logs + [log], id)
  {
    var longer := logs + [log];
    forall id: nat
      ensures HasLogFor(longer, id) <==> HasLogFor(logs, id) || log.alert == Some(id)
    {
      if HasLogFor(logs, id) {
        var k :| 0 <= k < |logs| && logs[k].alert == Some(id);
        assert longer[k] == logs[k];
      }
      assert longer[|logs|] == log;
    }
  }
}
