/**
 The stack trace of a stored row (apps/api/src/modules/monitoring/error-collector.service.ts:88, 212,
 apps/api/src/modules/monitoring/sanitize-log-text.ts:59-64).  Gathering keeps the latest stack that is
 there, storing keeps the latest that is not empty: the two agree on every cut exactly when an empty stack
 does not decide, and the sanitiser leaves none.
 */
module ErrorStacks {
  import opened Options
  import opened ErrorGroups
  import opened ErrorFlushes
  import opened ErrorSummaries

  // ---- The stacks of a key ----

  predicate Concerns(w: Weighted, key: Key, keyOf: Keying) {
    keyOf(w.event) == key
  }

  function LastStack(key: Key, ws: seq<Weighted>, keyOf: Keying): Option<string> {
    if ws == [] then None
    else
      var last := ws[|ws| - 1];
      if Concerns(last, key, keyOf) && last.event.stack.Some? then last.event.stack
      else LastStack(key, ws[..|ws| - 1], keyOf)
  }

  /** The stack of the first error of the key. */
  function FirstStack(key: Key, ws: seq<Weighted>, keyOf: Keying): Option<string> {
    if ws == [] then None
    else
      var front, last := ws[..|ws| - 1], ws[|ws| - 1];
      if Concerns(last, key, keyOf) && GroupOf(key, front, keyOf).None? then last.event.stack
      else FirstStack(key, front, keyOf)
  }

  predicate IsFull(stack: Option<string>) {
    stack.Some? && stack.value != ""
  }

  predicate HasFullStack(key: Key, ws: seq<Weighted>, keyOf: Keying) {
    ws != [] &&
    (HasFullStack(key, ws[..|ws| - 1], keyOf) ||
     (Concerns(ws[|ws| - 1], key, keyOf) && IsFull(ws[|ws| - 1].event.stack)))
  }

  /** The latest stack is not an empty one, unless the first one is and there is no other. */
  predicate KeepsStack(key: Key, ws: seq<Weighted>, keyOf: Keying) {
    || LastStack(key, ws, keyOf) != Some("")
    || (FirstStack(key, ws, keyOf) == Some("") && !HasFullStack(key, ws, keyOf))
  }

  lemma {:induction false} GroupStackIsLast(key: Key, ws: seq<Weighted>, keyOf: Keying)
    requires TimesNeverGoBack(ws)
    ensures var g := GroupOf(key, ws, keyOf);
            LastStack(key, ws, keyOf) == if g.Some? then g.value.stack else None
  {
    if ws != [] {
      var front, last := ws[..|ws| - 1], ws[|ws| - 1];
      GroupStackIsLast(key, front, keyOf);
      GroupIsOver(key, front, last.event.at, keyOf);
    }
  }

  lemma {:induction false} StacksOfOne(key: Key, ws: seq<Weighted>, keyOf: Keying)
    ensures FirstStack(key, ws, keyOf).Some? ==> LastStack(key, ws, keyOf).Some?
    ensures IsFull(LastStack(key, ws, keyOf)) ==> HasFullStack(key, ws, keyOf)
    ensures GroupOf(key, ws, keyOf).None? ==>
              FirstStack(key, ws, keyOf) == None == LastStack(key, ws, keyOf) &&
              !HasFullStack(key, ws, keyOf)
  {
    if ws != [] {
      StacksOfOne(key, ws[..|ws| - 1], keyOf);
    }
  }

  lemma {:induction false} StacksOfBoth(key: Key, a: seq<Weighted>, b: seq<Weighted>, keyOf: Keying)
    ensures LastStack(key, a + b, keyOf)
         == if LastStack(key, b, keyOf).Some? then LastStack(key, b, keyOf)
            else LastStack(key, a, keyOf)
    ensures HasFullStack(key, a + b, keyOf)
       <==> HasFullStack(key, a, keyOf) || HasFullStack(key, b, keyOf)
    decreases |b|
  {
    hide Concerns;
    if b == [] {
      assert a + b == a;
    } else {
      assert (a + b)[..|a + b| - 1] == a + b[..|b| - 1];
      StacksOfBoth(key, a, b[..|b| - 1], keyOf);
    }
  }

  lemma {:induction false} FirstOfBoth(key: Key, a: seq<Weighted>, b: seq<Weighted>, keyOf: Keying)
    ensures GroupOf(key, a + b, keyOf).Some?
       <==> GroupOf(key, a, keyOf).Some? || GroupOf(key, b, keyOf).Some?
    ensures FirstStack(key, a + b, keyOf)
         == if GroupOf(key, a, keyOf).Some? then FirstStack(key, a, keyOf)
            else FirstStack(key, b, keyOf)
    decreases |b|
  {
    hide Joined;
    if b == [] {
      assert a + b == a;
      StacksOfOne(key, a, keyOf);
    } else {
      assert (a + b)[..|a + b| - 1] == a + b[..|b| - 1];
      FirstOfBoth(key, a, b[..|b| - 1], keyOf);
    }
  }

  // ---- Where nothing is lost ----

  predicate HasStack(row: Option<Group>, stack: Option<string>) {
    stack == if row.Some? then row.value.stack else None
  }

  /** How the latest stack and the stored one move on together. */
  lemma StoredStack(row: Option<Group>, g: Option<Group>, earlier: Option<string>)
    requires HasStack(row, earlier)
    ensures IsFull(if g.Some? then g.value.stack else None) ==> HasStack(Stored(row, g), g.value.stack)
    ensures !IsFull(if g.Some? then g.value.stack else None) && row.Some? ==> HasStack(Stored(row, g), earlier)
    ensures row.None? ==> HasStack(Stored(row, g), if g.Some? then g.value.stack else None)
  {}

  lemma KeptBefore(key: Key, a: seq<Weighted>, b: seq<Weighted>, keyOf: Keying)
    requires KeepsStack(key, a + b, keyOf) && !IsFull(LastStack(key, b, keyOf))
    requires GroupOf(key, a, keyOf).Some?
    ensures KeepsStack(key, a, keyOf)
    ensures LastStack(key, a + b, keyOf) == LastStack(key, a, keyOf)
  {
    hide LastStack, FirstStack, HasFullStack;
    StacksOfBoth(key, a, b, keyOf);
    FirstOfBoth(key, a, b, keyOf);
    StacksOfOne(key, a, keyOf);
  }

  lemma {:induction false} FlushesKeepTheStack(batches: seq<seq<Weighted>>, key: Key, keyOf: Keying)
    requires TimesNeverGoBack(Stream(batches)) && KeepsStack(key, Stream(batches), keyOf)
    ensures HasStack(RowAfter(batches, key, keyOf), LastStack(key, Stream(batches), keyOf))
  {
    if batches == [] {
    } else {
      hide KeepsStack, LastStack, GroupOf, HasStack, Stored, TimesNeverGoBack, SameButStack;
      var front, last := batches[..|batches| - 1], batches[|batches| - 1];
      var a := Stream(front);
      var row, g := RowAfter(front, key, keyOf), GroupOf(key, last, keyOf);
      StreamPrefix(a, last);
      StreamSuffix(a, last);
      GroupStackIsLast(key, last, keyOf);
      FlushesKeepAllButStack(front, key, keyOf);
      RowIffGroup(front, key, keyOf);
      StacksOfBoth(key, a, last, keyOf);
      if GroupOf(key, a, keyOf).None? {
        StacksOfOne(key, a, keyOf);
        NoRowNoStack(row, LastStack(key, a, keyOf));
        StoredStack(row, g, LastStack(key, a, keyOf));
      } else if IsFull(LastStack(key, last, keyOf)) {
        StoredStack(row, g, if row.Some? then row.value.stack else None) by {
          RowHasItsStack(row);
        }
      } else {
        KeptBefore(key, a, last, keyOf);
        FlushesKeepTheStack(front, key, keyOf);
        StoredStack(row, g, LastStack(key, a, keyOf));
      }
    }
  }

  lemma RowHasItsStack(row: Option<Group>)
    ensures HasStack(row, if row.Some? then row.value.stack else None)
  {}

  lemma NoRowNoStack(row: Option<Group>, stack: Option<string>)
    requires row.None? && stack.None?
    ensures HasStack(row, stack)
  {}

  lemma RowIffGroup(batches: seq<seq<Weighted>>, key: Key, keyOf: Keying)
    requires TimesNeverGoBack(Stream(batches))
    ensures RowAfter(batches, key, keyOf).Some? <==> GroupOf(key, Stream(batches), keyOf).Some?
  {
    hide GroupOf, TimesNeverGoBack, RowAfter;
    FlushesKeepAllButStack(batches, key, keyOf);
  }

  lemma StreamSuffix(a: seq<Weighted>, b: seq<Weighted>)
    requires TimesNeverGoBack(a + b)
    ensures TimesNeverGoBack(b)
  {
    forall j, k | 0 <= j < k < |b|
      ensures b[j].event.at <= b[k].event.at
    {
      assert (a + b)[|a| + j].event.at <= (a + b)[|a| + k].event.at;
    }
  }

  // ---- Where something is: each error flushed alone ----

  function Alone(ws: seq<Weighted>): seq<seq<Weighted>> {
    if ws == [] then [] else Alone(ws[..|ws| - 1]) + [[ws[|ws| - 1]]]
  }

  lemma {:induction false} AloneIsACut(ws: seq<Weighted>)
    ensures Stream(Alone(ws)) == ws
  {
    if ws != [] {
      var front := ws[..|ws| - 1];
      AloneIsACut(front);
      assert (Alone(front) + [[ws[|ws| - 1]]])[..|Alone(front)|] == Alone(front);
      assert front + [ws[|ws| - 1]] == ws;
    }
  }

  lemma GroupOfOne(key: Key, w: Weighted, keyOf: Keying)
    ensures GroupOf(key, [w], keyOf)
         == if Concerns(w, key, keyOf) then Some(NewGroup(w, keyOf)) else None
  {
    assert [w][..0] == [];
  }

  predicate IsEmptyStack(row: Option<Group>) {
    row.Some? && row.value.stack == Some("")
  }

  lemma {:induction false} AloneLength(ws: seq<Weighted>)
    ensures |Alone(ws)| == |ws|
  {
    if ws != [] {
      AloneLength(ws[..|ws| - 1]);
    }
  }

  lemma AloneStep(ws: seq<Weighted>, key: Key, keyOf: Keying)
    requires ws != []
    ensures var row, last := RowAfter(Alone(ws[..|ws| - 1]), key, keyOf), ws[|ws| - 1];
            var g := if Concerns(last, key, keyOf) then Some(NewGroup(last, keyOf)) else None;
            RowAfter(Alone(ws), key, keyOf) == Stored(row, g)
  {
    hide Stored, GroupOf, NewGroup, Concerns;
    var front, last := ws[..|ws| - 1], ws[|ws| - 1];
    GroupOfOne(key, last, keyOf);
    assert Alone(ws)[..|ws| - 1] == Alone(front) by {
      AloneLength(front);
    }
    AloneLength(ws);
  }

  lemma EmptyStackStep(row: Option<Group>, w: Weighted, keyOf: Keying)
    ensures var row' := Stored(row, Some(NewGroup(w, keyOf)));
            && row'.Some?
            && (IsEmptyStack(row') ==>
                  !IsFull(w.event.stack) && if row.None? then w.event.stack == Some("") else IsEmptyStack(row))
    ensures Stored(row, None) == row
  {}

  /** An empty stack is stored only by the first error, and kept only if no other has a full one. */
  lemma {:induction false} EmptyStackOnlyAtFirst(ws: seq<Weighted>, key: Key, keyOf: Keying)
    ensures RowAfter(Alone(ws), key, keyOf).Some? <==> GroupOf(key, ws, keyOf).Some?
    ensures IsEmptyStack(RowAfter(Alone(ws), key, keyOf)) ==>
              FirstStack(key, ws, keyOf) == Some("") && !HasFullStack(key, ws, keyOf)
  {
    hide Joined, Stored, NewGroup, IsFull, IsEmptyStack, LastStack;
    if ws == [] {
      NothingStored(key, keyOf);
    } else {
      var front, last := ws[..|ws| - 1], ws[|ws| - 1];
      EmptyStackOnlyAtFirst(front, key, keyOf);
      StacksOfOne(key, front, keyOf);
      AloneStep(ws, key, keyOf);
      EmptyStackStep(RowAfter(Alone(front), key, keyOf), last, keyOf);
    }
  }

  lemma NothingStored(key: Key, keyOf: Keying)
    ensures RowAfter(Alone([]), key, keyOf) == None && !IsEmptyStack(None)
  {}

  /**
   For errors in order of time: every way of flushing them leaves, for this key, the row that one batch of
   all of them would, exactly when an empty stack does not decide.
   */
  lemma EveryCutIsOneBatch(key: Key, ws: seq<Weighted>, keyOf: Keying)
    requires TimesNeverGoBack(ws)
    ensures (forall batches :: Stream(batches) == ws ==>
               RowAfter(batches, key, keyOf) == GroupOf(key, ws, keyOf))
       <==> KeepsStack(key, ws, keyOf)
  {
    hide KeepsStack, GroupOf, RowAfter, TimesNeverGoBack, Stream, LastStack;
    GroupStackIsLast(key, ws, keyOf);
    if KeepsStack(key, ws, keyOf) {
      forall batches | Stream(batches) == ws
        ensures RowAfter(batches, key, keyOf) == GroupOf(key, ws, keyOf)
      {
        FlushesKeepAllButStack(batches, key, keyOf);
        FlushesKeepTheStack(batches, key, keyOf);
        SameWithStack(GroupOf(key, ws, keyOf), RowAfter(batches, key, keyOf));
      }
    } else {
      AloneIsACut(ws);
      LostWhenAlone(key, ws, keyOf);
    }
  }

  lemma SameWithStack(a: Option<Group>, b: Option<Group>)
    requires SameButStack(a, b) && HasStack(b, if a.Some? then a.value.stack else None)
    ensures a == b
  {}

  lemma LostWhenAlone(key: Key, ws: seq<Weighted>, keyOf: Keying)
    requires TimesNeverGoBack(ws) && !KeepsStack(key, ws, keyOf)
    ensures RowAfter(Alone(ws), key, keyOf) != GroupOf(key, ws, keyOf)
  {
    hide GroupOf, RowAfter, TimesNeverGoBack, LastStack, FirstStack, HasFullStack;
    GroupStackIsLast(key, ws, keyOf);
    EmptyStackOnlyAtFirst(ws, key, keyOf);
  }

  // ---- Captured errors have no empty stack ----

  function SanitizeStack(stack: Option<string>, clean: string -> string): (r: Option<string>)
    ensures r.Some? ==> stack.Some? && 0 < |r.value| <= 4000
  {
    if stack.None? || stack.value == "" then None
    else
      var cleaned := clean(if |stack.value| > 8000 then stack.value[..8000] else stack.value);
      var kept := if |cleaned| > 4000 then cleaned[..4000] else cleaned;
      if kept == "" then None else Some(kept)
  }

  /** Errors as the capturing hook makes them: their stacks come from the sanitiser. */
  ghost predicate IsCaptured(e: CapturedError, clean: string -> string) {
    exists stack :: e.stack == SanitizeStack(stack, clean)
  }

  lemma {:induction false} CapturedLastStack(
    key: Key, ws: seq<Weighted>, keyOf: Keying, clean: string -> string)
    requires forall k :: 0 <= k < |ws| ==> IsCaptured(ws[k].event, clean)
    ensures LastStack(key, ws, keyOf) != Some("")
  {
    hide Concerns;
    if ws != [] {
      assert IsCaptured(ws[|ws| - 1].event, clean);
      CapturedLastStack(key, ws[..|ws| - 1], keyOf, clean);
    }
  }

  /** So captured errors, in order of time, may be flushed whenever one likes. */
  lemma CapturedErrorsCutAnywhere(
    batches: seq<seq<Weighted>>, key: Key, keyOf: Keying, clean: string -> string)
    requires TimesNeverGoBack(Stream(batches))
    requires forall k :: 0 <= k < |Stream(batches)| ==> IsCaptured(Stream(batches)[k].event, clean)
    ensures RowAfter(batches, key, keyOf) == GroupOf(key, Stream(batches), keyOf)
  {
    hide LastStack, IsCaptured, GroupOf, RowAfter, TimesNeverGoBack, Stream;
    CapturedLastStack(key, Stream(batches), keyOf, clean);
    EveryCutIsOneBatch(key, Stream(batches), keyOf);
  }

  /** And then the stored row says of all its errors all that a group says. */
  lemma CapturedRowDescribes(
    batches: seq<seq<Weighted>>, key: Key, keyOf: Keying, clean: string -> string)
    requires TimesNeverGoBack(Stream(batches))
    requires forall k :: 0 <= k < |Stream(batches)| ==> IsCaptured(Stream(batches)[k].event, clean)
    ensures RowAfter(batches, key, keyOf).Some? <==> Occurs(key, Stream(batches), keyOf)
    ensures RowAfter(batches, key, keyOf).Some? ==>
              Describes(RowAfter(batches, key, keyOf).value, Stream(batches), keyOf)
  {
    hide IsCaptured, GroupOf, RowAfter, TimesNeverGoBack, Stream, Describes, Occurs;
    CapturedErrorsCutAnywhere(batches, key, keyOf, clean);
    GroupSummarisesItsErrors(key, Stream(batches), keyOf);
  }
}
