/**
 Whether raising an alert creates one, escalates the open one or adds to its reason
 (apps/api/src/modules/alerts/raise-decision.ts:1-72).
 */
module RaiseDecision {
  import opened Options
  import opened Alerts

  datatype RaiseDecision =
    | Create(level: int, raisedBySystem: bool)
    | Escalate(alertId: AlertId, fromLevel: int, level: int, raisedBySystem: bool)
    | Merge(alertId: AlertId, level: int)

  datatype OpenAlert = OpenAlert(id: AlertId, level: int)

  function Min(a: int, b: int): int {
    if a < b then a else b
  }

  function Max(a: int, b: int): int {
    if a < b then b else a
  }

  function ClampLevel(level: int): int {
    Min(4, Max(1, level))
  }

  function DecideRaise(requestedLevel: int, systemLevel: int, open: Option<OpenAlert>): RaiseDecision {
    var requested := ClampLevel(requestedLevel);
    var level := Max(requested, ClampLevel(systemLevel));
    var raisedBySystem := level > requested;
    if open.None? then Create(level, raisedBySystem)
    else if level > open.value.level then Escalate(open.value.id, open.value.level, level, raisedBySystem)
    else Merge(open.value.id, open.value.level)
  }

  /**
   The level after raising is the least one in 1 to 4 that is below neither the requested level, the
   system's nor the open alert's; someone is told exactly when it is above the open one.
   */
  lemma RaisedLevelIsLeast(requestedLevel: int, systemLevel: int, open: Option<OpenAlert>, level: int)
    requires open.Some? ==> 1 <= open.value.level <= 4
    requires 1 <= level <= 4
    ensures level >= DecideRaise(requestedLevel, systemLevel, open).level
       <==> && (level >= requestedLevel || level == 4) && (level >= systemLevel || level == 4)
            && (open.Some? ==> level >= open.value.level)
    ensures DecideRaise(requestedLevel, systemLevel, open).Create? <==> open.None?
    ensures DecideRaise(requestedLevel, systemLevel, open).Merge? <==>
              open.Some? && DecideRaise(requestedLevel, systemLevel, open).level == open.value.level
  {}

  // ---- Reasons ----

  /** The library's part of the texts: trimming, dates and notes. */
  datatype Texts = Texts(trim: string -> string, date: int -> string, note: (int, int) -> string)

  predicate Contains(text: string, part: string) {
    exists i {:trigger text[i..]} :: 0 <= i <= |text| && |part| <= |text[i..]| && text[i..][..|part|] == part
  }

  function MergedReason(current: string, addition: string, at: int, texts: Texts): string {
    var next := texts.trim(addition);
    if next == "" || Contains(current, next) then current
    else current + "\n\n[Cập nhật " + texts.date(at) + "] " + next
  }

  /** An addition is kept, the reason before it too, and adding it again at any time changes nothing. */
  lemma MergingTwiceIsMergingOnce(current: string, addition: string, at: int, later: int, texts: Texts)
    ensures var once := MergedReason(current, addition, at, texts);
            && current <= once && Contains(once, texts.trim(addition))
            && MergedReason(once, addition, later, texts) == once
  {
    var next, once := texts.trim(addition), MergedReason(current, addition, at, texts);
    if next == "" {
      assert once[0..][..0] == "";
    } else if !Contains(current, next) {
      var head := current + "\n\n[Cập nhật " + texts.date(at) + "] ";
      assert once[|head|..][..|next|] == next;
    }
  }
}
