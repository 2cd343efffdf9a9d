/**
 The message editor (apps/web/src/lib/discussion-composer.ts:6-16, 29-53, 82-105), and why a mention it
 inserts is one that the parser reads back.
 */
module DiscussionComposer {
  import opened Options
  import opened MarkupText
  import opened InlineMarkup

  const SPACE := Blank(32)

  datatype MentionQuery = MentionQuery(start: nat, query: Text)

  // ---- Wrapping a selection in a marker ----

  datatype TextEdit = TextEdit(value: Text, selectionStart: int, selectionEnd: int)

  /** `value.slice(lo, hi)` for bounds that are not negative. */
  function Slice(value: Text, lo: nat, hi: nat): Text {
    if lo >= |value| || hi <= lo then [] else if hi >= |value| then value[lo..] else value[lo..hi]
  }

  predicate IsWrapped(value: Text, start: nat, end: nat, marker: Text) {
    && start >= |marker|
    && Slice(value, start - |marker|, start) == marker
    && Slice(value, end, end + |marker|) == marker
  }

  function WrapSelection(value: Text, start: nat, end: nat, marker: Text): TextEdit
    requires start <= end <= |value|
  {
    if IsWrapped(value, start, end, marker) && end > start then
      TextEdit(value[..start - |marker|] + value[start..end] + Slice(value, end + |marker|, |value|),
               start - |marker|, end - |marker|)
    else
      TextEdit(value[..start] + marker + value[start..end] + marker + value[end..],
               start + |marker|, end + |marker|)
  }

  /** The five parts of a text can be read off it. */
  lemma PartsOf(a: Text, m: Text, x: Text, n: Text, b: Text) returns (w: Text)
    ensures w == a + m + x + n + b
    ensures w[..|a|] == a && w[|a|..|a| + |m|] == m && w[|a| + |m|..|a| + |m| + |x|] == x
    ensures w[|a| + |m| + |x|..|a| + |m| + |x| + |n|] == n && w[|a| + |m| + |x| + |n|..] == b
  {
    w := a + m + x + n + b;
  }

  lemma WrappedParts(a: Text, x: Text, b: Text, marker: Text)
    ensures IsWrapped(a + marker + x + marker + b, |a| + |marker|, |a| + |marker| + |x|, marker)
    ensures x != [] ==>
      WrapSelection(a + marker + x + marker + b, |a| + |marker|, |a| + |marker| + |x|, marker)
      == TextEdit(a + x + b, |a|, |a| + |x|)
  {
    var w := PartsOf(a, marker, x, marker, b);
  }

  /** Two markers before the selection and two after it. */
  predicate IsDoublyWrapped(value: Text, start: nat, end: nat, marker: Text) {
    IsWrapped(value, start, end, marker + marker)
  }

  function WrapAgain(edit: TextEdit, marker: Text): TextEdit
    requires 0 <= edit.selectionStart <= edit.selectionEnd <= |edit.value|
  {
    WrapSelection(edit.value, edit.selectionStart, edit.selectionEnd, marker)
  }

  lemma UnwrappedParts(value: Text, start: nat, end: nat, marker: Text)
    requires start < end <= |value| && marker != [] && IsWrapped(value, start, end, marker)
    ensures var a, x, b := value[..start - |marker|], value[start..end], value[end + |marker|..];
            && end + |marker| <= |value| && value == a + marker + x + marker + b
            && WrapSelection(value, start, end, marker) == TextEdit(a + x + b, |a|, |a| + |x|)
  {
    var a, x, b := value[..start - |marker|], value[start..end], value[end + |marker|..];
    assert value[start - |marker|..start] == marker && value[end..end + |marker|] == marker;
    assert value == a + marker + x + marker + b;
  }

  lemma SameHalves(p: Text, marker: Text, q: Text)
    requires |p| == |marker| == |q|
    ensures p + q == marker + marker <==> p == marker && q == marker
  {
    assert (p + q)[..|marker|] == p && (p + q)[|marker|..] == q;
    assert (marker + marker)[..|marker|] == marker && (marker + marker)[|marker|..] == marker;
  }

  lemma DoublyWrappedMeans(a: Text, x: Text, b: Text, marker: Text)
    requires marker != []
    ensures IsDoublyWrapped(a + marker + x + marker + b, |a| + |marker|, |a| + |marker| + |x|, marker)
       <==> IsWrapped(a + x + b, |a|, |a| + |x|, marker)
  {
    if |a| >= |marker| && |b| >= |marker| {
      SameHalves(a[|a| - |marker|..], marker, marker);
      SameHalves(marker, marker, b[..|marker|]);
      WrappedMeans(a, x, b, marker);
      DoublyWrappedParts(a, x, b, marker);
    }
  }

  lemma WrappedMeans(a: Text, x: Text, b: Text, marker: Text)
    requires marker != [] && |a| >= |marker| && |b| >= |marker|
    ensures IsWrapped(a + x + b, |a|, |a| + |x|, marker) <==> a[|a| - |marker|..] == marker && b[..|marker|] == marker
  {
    OuterParts(a, x, b, marker);
  }

  lemma DoublyWrappedParts(a: Text, x: Text, b: Text, marker: Text)
    requires marker != [] && |a| >= |marker| && |b| >= |marker|
    ensures IsDoublyWrapped(a + marker + x + marker + b, |a| + |marker|, |a| + |marker| + |x|, marker)
       <==> a[|a| - |marker|..] + marker == marker + marker && marker + b[..|marker|] == marker + marker
  {
    OuterParts(a, x, b, marker);
  }

  lemma OuterParts(a: Text, x: Text, b: Text, marker: Text)
    requires marker != [] && |a| >= |marker| && |b| >= |marker|
    ensures var w := a + marker + x + marker + b;
            var start, end, size := |a| + |marker|, |a| + |marker| + |x|, |marker|;
            && w[start - size - size..start] == a[|a| - size..] + marker
            && w[end..end + size + size] == marker + b[..size]
    ensures (a + x + b)[|a| - |marker|..|a|] == a[|a| - |marker|..]
    ensures (a + x + b)[|a| + |x|..|a| + |x| + |marker|] == b[..|marker|]
  {}

  lemma DoublyWrappedIsWrapped(value: Text, start: nat, end: nat, marker: Text)
    requires start <= end <= |value| && marker != [] && IsDoublyWrapped(value, start, end, marker)
    ensures IsWrapped(value, start, end, marker)
  {
    var size := |marker|;
    assert value[start - size..start] == value[start - size - size..start][size..];
    assert value[end..end + size] == value[end..end + size + size][..size];
    assert (marker + marker)[size..] == marker == (marker + marker)[..size];
  }

  lemma ThreeParts(a: Text, x: Text, b: Text) returns (v: Text)
    ensures v == a + x + b
    ensures v[..|a|] == a && v[|a|..|a| + |x|] == x && v[|a| + |x|..] == b
  {
    v := a + x + b;
  }

  /** What the first press makes of `a + x + b`. */
  lemma Wraps(a: Text, x: Text, b: Text, marker: Text)
    requires !IsWrapped(a + x + b, |a|, |a| + |x|, marker)
    ensures WrapSelection(a + x + b, |a|, |a| + |x|, marker)
         == TextEdit(a + marker + x + marker + b, |a| + |marker|, |a| + |marker| + |x|)
  {
    var v := ThreeParts(a, x, b);
  }

  lemma WrapsAgain(a: Text, x: Text, b: Text, marker: Text)
    requires x != [] && !IsWrapped(a + x + b, |a|, |a| + |x|, marker)
    ensures WrapAgain(WrapSelection(a + x + b, |a|, |a| + |x|, marker), marker) == TextEdit(a + x + b, |a|, |a| + |x|)
  {
    hide WrapSelection;
    Wraps(a, x, b, marker);
    WrappedParts(a, x, b, marker);
  }

  /** A wrapped selection is unwrapped, and then wrapped again unless it was wrapped twice over. */
  lemma UnwrapsFirst(a: Text, x: Text, b: Text, marker: Text)
    requires x != [] && marker != []
    ensures var value, start, end := a + marker + x + marker + b, |a| + |marker|, |a| + |marker| + |x|;
            WrapAgain(WrapSelection(value, start, end, marker), marker) == TextEdit(value, start, end)
            <==> !IsDoublyWrapped(value, start, end, marker)
  {
    hide WrapSelection, IsWrapped, IsDoublyWrapped;
    WrappedParts(a, x, b, marker);
    DoublyWrappedMeans(a, x, b, marker);
    if IsWrapped(a + x + b, |a|, |a| + |x|, marker) {
      StillWrapped(a, x, b, marker);
    } else {
      Wraps(a, x, b, marker);
    }
  }

  lemma StillWrapped(a: Text, x: Text, b: Text, marker: Text)
    requires x != [] && IsWrapped(a + x + b, |a|, |a| + |x|, marker)
    ensures WrapSelection(a + x + b, |a|, |a| + |x|, marker).selectionStart == |a| - |marker|
  {}

  /**
   Pressing the button twice gives back the text and the selection exactly when something is selected and
   it is not wrapped twice over already.
   */
  lemma WrappingTwiceRestores(value: Text, start: nat, end: nat, marker: Text)
    requires start <= end <= |value| && marker != []
    ensures WrapAgain(WrapSelection(value, start, end, marker), marker) == TextEdit(value, start, end)
       <==> start < end && !IsDoublyWrapped(value, start, end, marker)
  {
    hide WrapSelection, IsWrapped, IsDoublyWrapped;
    var x := value[start..end];
    if start == end {
      EmptySelectionGrows(value, start, marker);
    } else if IsWrapped(value, start, end, marker) {
      UnwrappedParts(value, start, end, marker);
      UnwrapsFirst(value[..start - |marker|], x, value[end + |marker|..], marker);
    } else {
      assert value == value[..start] + x + value[end..];
      WrapsAgain(value[..start], x, value[end..], marker);
      if IsDoublyWrapped(value, start, end, marker) {
        DoublyWrappedIsWrapped(value, start, end, marker);
      }
    }
  }

  lemma EmptySelectionGrows(value: Text, at: nat, marker: Text)
    requires at <= |value| && marker != []
    ensures |WrapAgain(WrapSelection(value, at, at, marker), marker).value| > |value|
  {}

  /** Whether a press wraps or unwraps, what was selected is selected afterwards. */
  lemma WrappingKeepsSelection(value: Text, start: nat, end: nat, marker: Text)
    requires start <= end <= |value| && marker != []
    ensures var edit := WrapSelection(value, start, end, marker);
            && 0 <= edit.selectionStart <= edit.selectionEnd <= |edit.value|
            && edit.value[edit.selectionStart..edit.selectionEnd] == value[start..end]
  {
    hide WrapSelection, IsWrapped;
    var a, x, b := value[..start], value[start..end], value[end..];
    assert value == a + x + b;
    if IsWrapped(value, start, end, marker) && start < end {
      UnwrappedParts(value, start, end, marker);
      var v := ThreeParts(value[..start - |marker|], x, value[end + |marker|..]);
    } else if start == end {
      EmptySelectionStays(value, start, marker);
    } else {
      Wraps(a, x, b, marker);
      var w := PartsOf(a, marker, x, marker, b);
    }
  }

  lemma EmptySelectionStays(value: Text, at: nat, marker: Text)
    requires at <= |value|
    ensures var edit := WrapSelection(value, at, at, marker);
            0 <= edit.selectionStart == edit.selectionEnd <= |edit.value|
  {}

  // ---- Asking for and inserting a mention ----

  /** `value.lastIndexOf('@', from)` for `from` that is not negative. */
  function LastAt(value: Text, from: nat): (at: int)
    ensures at == -1 || (0 <= at <= from && at < |value| && value[at] == At)
  {
    if from < |value| && value[from] == At then from
    else if from == 0 then -1
    else LastAt(value, from - 1)
  }

  predicate AreCodeChars(t: Text) {
    forall k :: 0 <= k < |t| ==> IsCodeChar(t[k])
  }

  /** The mention being typed before the caret; `lastIndexOf` takes a negative position for zero. */
  function ActiveMentionQuery(value: Text, caret: nat): (query: Option<MentionQuery>)
    requires caret <= |value|
    ensures query.Some? ==> query.value.start < |value| && (caret > 0 ==> query.value.start < caret)
  {
    var at := LastAt(value, if caret == 0 then 0 else caret - 1);
    if at == -1 || !MayMention(value, at) then None
    else
      var query := Slice(value, at + 1, caret);
      if AreCodeChars(query) then Some(MentionQuery(at, query)) else None
  }

  /** An at-sign that may begin a mention, with nothing but the characters of a code between it and the caret. */
  predicate IsTyping(value: Text, caret: nat, at: nat)
    requires caret <= |value|
  {
    && at < |value| && value[at] == At && MayMention(value, at) && (at < caret || (at == 0 && caret == 0))
    && forall k :: at < k < caret ==> IsCodeChar(value[k])
  }

  lemma {:induction false} LastAtIsLast(value: Text, from: nat, at: nat)
    requires at <= from && at < |value| && value[at] == At
    ensures LastAt(value, from) >= at
    decreases from
  {
    if !(from < |value| && value[from] == At) {
      LastAtIsLast(value, from - 1, at);
    }
  }

  lemma SliceIs(value: Text, lo: nat, hi: nat)
    requires hi <= |value|
    ensures Slice(value, lo, hi) == if lo <= hi then value[lo..hi] else []
    ensures AreCodeChars(Slice(value, lo, hi)) <==> forall k :: lo <= k < hi ==> IsCodeChar(value[k])
  {
    hide IsCodeChar;
    if lo < hi {
      assert Slice(value, lo, hi) == value[lo..hi];
      forall k | lo <= k < hi && AreCodeChars(value[lo..hi])
        ensures IsCodeChar(value[k])
      {
        assert value[lo..hi][k - lo] == value[k];
      }
    }
  }

  lemma QueryAtLast(value: Text, caret: nat)
    requires caret <= |value|
    ensures var last, query := LastAt(value, if caret == 0 then 0 else caret - 1), ActiveMentionQuery(value, caret);
            && (query.Some? <==> last >= 0 && IsTyping(value, caret, last))
            && (query.Some? ==> query == Some(MentionQuery(last, if caret == 0 then [] else value[last + 1..caret])))
  {
    hide Slice, IsCodeChar, AreCodeChars, LastAt;
    var last := LastAt(value, if caret == 0 then 0 else caret - 1);
    if last >= 0 {
      SliceIs(value, last + 1, caret);
    }
  }

  /** A mention is offered exactly where one is being typed, and is what has been typed of it so far. */
  lemma QueryIsOffered(value: Text, caret: nat, at: nat)
    requires caret <= |value|
    ensures ActiveMentionQuery(value, caret).Some? && ActiveMentionQuery(value, caret).value.start == at
       <==> IsTyping(value, caret, at)
    ensures IsTyping(value, caret, at) ==>
              ActiveMentionQuery(value, caret).value.query == if caret == 0 then [] else value[at + 1..caret]
  {
    hide ActiveMentionQuery, LastAt;
    var from := if caret == 0 then 0 else caret - 1;
    QueryAtLast(value, caret);
    if IsTyping(value, caret, at) {
      LastAtIsLast(value, from, at);
      assert LastAt(value, from) > at ==> IsCodeChar(value[LastAt(value, from)]);
    }
  }

  datatype Insertion = Insertion(value: Text, caret: nat)

  function InsertMention(value: Text, start: nat, caret: nat, code: Text): Insertion
    requires start <= |value| && caret <= |value|
  {
    var inserted := [At] + code + [SPACE];
    Insertion(value[..start] + inserted + value[caret..], start + |inserted|)
  }

  /** The caret stands behind the mention and its space, and the text on either side is what it was. */
  lemma CaretFollowsMention(value: Text, start: nat, caret: nat, code: Text)
    requires start <= |value| && caret <= |value|
    ensures var edit := InsertMention(value, start, caret, code);
            && edit.caret <= |edit.value|
            && edit.value[..edit.caret] == value[..start] + [At] + code + [Blank(' ' as nat)]
            && edit.value[edit.caret..] == value[caret..]
  {
    var edit, inserted := InsertMention(value, start, caret, code), [At] + code + [SPACE];
    assert edit.value == (value[..start] + inserted) + value[caret..];
    assert value[..start] + inserted == value[..start] + [At] + code + [Blank(' ' as nat)];
  }
}
