/**
 Which codes are read back whatever stands around them
 (packages/shared-types/src/discussion-format.ts:46-49, 60-66, 95-131): all but those in which an underscore
 is followed by a dot or a dash, because there an italic span from before the mention may close.
 */
module MentionSurvival {
  import opened MarkupText
  import opened InlineMarkup
  import opened InlineRendering
  import opened InlineSpans

  /** The code stands after an at-sign that may begin a mention, and ends there. */
  ghost predicate HoldsCode(t: Text, at: nat, code: Text) {
    && at + 1 + |code| <= |t| && t[at] == At && MayMention(t, at)
    && t[at + 1..at + 1 + |code|] == code
    && (at + 1 + |code| < |t| ==> !IsCodeChar(t[at + 1 + |code|]))
  }

  predicate ClosesAt(code: Text, k: nat)
    requires k < |code|
  {
    code[k] == Underscore && k + 1 < |code| && !IsWordChar(code[k + 1])
  }

  /** An italic span that was opened before the code can close inside it. */
  ghost predicate ClosesInside(code: Text) {
    exists k :: 0 <= k < |code| && ClosesAt(code, k)
  }

  /** No underscore before the position opens an italic span. */
  ghost predicate OpensNoItalicBefore(t: Text, at: nat) {
    forall k :: 0 <= k < |t| && k < at ==> !OpensItalicAt(t, k)
  }

  /** What is enough for the mention to come through. */
  ghost predicate LetsThrough(t: Text, at: nat, code: Text) {
    !ClosesInside(code) || OpensNoItalicBefore(t, at)
  }

  /** A mention with this code, in bold, italics or neither. */
  ghost predicate MentionsCode(tokens: seq<Token>, code: Text) {
    exists k :: 0 <= k < |tokens| && IsMentionOf(tokens[k], code)
  }

  predicate IsMentionOf(token: Token, code: Text) {
    token.MentionToken? && token.code == code
  }

  lemma MentionsConcat(a: seq<Token>, b: seq<Token>, code: Text)
    ensures MentionsCode(a + b, code) <==> MentionsCode(a, code) || MentionsCode(b, code)
  {
    if MentionsCode(a + b, code) {
      var k :| 0 <= k < |a + b| && IsMentionOf((a + b)[k], code);
      assert k < |a| ==> IsMentionOf(a[k], code);
      assert k >= |a| ==> IsMentionOf(b[k - |a|], code);
    }
    if MentionsCode(a, code) {
      var k :| 0 <= k < |a| && IsMentionOf(a[k], code);
      assert IsMentionOf((a + b)[k], code);
    }
    if MentionsCode(b, code) {
      var k :| 0 <= k < |b| && IsMentionOf(b[k], code);
      assert IsMentionOf((a + b)[|a| + k], code);
    }
  }

  // ---- Nothing before it takes the code apart ----

  lemma CodeCharAt(t: Text, at: nat, code: Text, k: nat)
    requires HoldsCode(t, at, code) && k < |code|
    ensures t[at + 1 + k] == code[k]
  {
    assert t[at + 1..at + 1 + |code|][k] == code[k];
  }

  /** A position within the mention: the at-sign, or a character of the code. */
  lemma InsideIsCode(t: Text, at: nat, code: Text, j: nat)
    requires HoldsCode(t, at, code) && IsStaffCode(code) && at <= j < at + 1 + |code|
    ensures j < |t| && t[j] != Star && (j == at || t[j] == code[j - at - 1])
  {
    if j > at {
      CodeCharAt(t, at, code, j - at - 1);
      assert IsCodeChar(code[j - at - 1]);
    }
  }

  /** No italic span closes within the mention. */
  lemma NoCloseInside(t: Text, at: nat, code: Text, close: nat)
    requires HoldsCode(t, at, code) && IsStaffCode(code) && !ClosesInside(code)
    requires ItalicCloseAt(t, close)
    ensures close < at || close > at + |code|
  {
    if at <= close <= at + |code| {
      InsideIsCode(t, at, code, close);
      var k := close - at - 1;
      assert k + 1 < |code|;
      InsideIsCode(t, at, code, close + 1);
      assert ClosesAt(code, k);
    }
  }

  lemma NoPairInside(t: Text, at: nat, code: Text, close: nat)
    requires HoldsCode(t, at, code) && IsStaffCode(code) && StarPairAt(t, close)
    ensures close + 2 <= at || close > at + |code|
  {
    if close + 2 > at && close <= at + |code| {
      InsideIsCode(t, at, code, if close < at then close + 1 else close);
    }
  }

  /** A span around the mention holds it as the line does. */
  lemma InnerHolds(t: Text, lo: nat, hi: nat, at: nat, code: Text)
    requires HoldsCode(t, at, code) && lo <= at && at + 1 + |code| <= hi <= |t|
    ensures HoldsCode(t[lo..hi], at - lo, code)
  {
    SliceOfSlice(t, lo, hi, at - lo + 1, at - lo + 1 + |code|);
  }

  lemma SliceOfSlice(t: Text, lo: nat, hi: nat, a: nat, b: nat)
    requires lo <= hi <= |t| && a <= b <= hi - lo
    ensures t[lo..hi][a..b] == t[lo + a..lo + b]
  {
    var inner, slice := t[lo..hi][a..b], t[lo + a..lo + b];
    assert |inner| == |slice|;
    forall k | 0 <= k < |slice|
      ensures inner[k] == slice[k]
    {
      assert t[lo..hi][a + k] == t[lo + (a + k)];
    }
  }

  /** Behind a character that belongs to no word, no underscore opens a span that did not before. */
  lemma InnerLetsThrough(t: Text, lo: nat, hi: nat, at: nat, code: Text)
    requires lo <= at <= hi <= |t| && LetsThrough(t, at, code) && !WordCharAt(t, lo - 1)
    ensures LetsThrough(t[lo..hi], at - lo, code)
  {
    hide ClosesInside;
    if OpensNoItalicBefore(t, at) {
      forall k | 0 <= k < |t[lo..hi]| && k < at - lo
        ensures !OpensItalicAt(t[lo..hi], k)
      {
        assert !OpensItalicAt(t, lo + k);
      }
    }
  }

  lemma RunStops(t: Text, i: nat, at: nat)
    requires i <= at < |t| && !IsCodeChar(t[at])
    ensures CodeRunEnd(t, i) <= at
    decreases at - i
  {
    if i < at {
      RunStops(t, i + 1, at);
    }
  }

  /** What the piece before the mention does: it ends before it, or is a span around it. */
  lemma PieceBefore(t: Text, i: nat, at: nat, code: Text)
    requires i < at && HoldsCode(t, at, code) && IsStaffCode(code) && LetsThrough(t, at, code)
    ensures var p := PieceAt(t, i);
            || p.Next(i) <= at
            || (p.BoldSpan? && i + 2 <= at && at + 1 + |code| <= p.close)
            || (p.ItalicSpan? && at + 1 + |code| <= p.close && !ClosesInside(code))
  {
    match PieceAt(t, i)
    case BoldSpan(close) => NoPairInside(t, at, code, close);
    case ItalicSpan(close) =>
      ItalicSpanCloses(t, i);
      assert OpensItalicAt(t, i) && !ClosesInside(code);
      NoCloseInside(t, at, code, close);
    case Mention(end) => RunStops(t, i + 1, at);
    case PlainChar =>
  }

  lemma ItalicSpanCloses(t: Text, i: nat)
    requires i < |t| && PieceAt(t, i).ItalicSpan?
    ensures ItalicCloseAt(t, PieceAt(t, i).close) && PieceAt(t, i).close == ItalicClose(t, i + 1)
  {}

  lemma MentionHere(t: Text, at: nat, code: Text, bold: bool, italic: bool)
    requires HoldsCode(t, at, code) && IsStaffCode(code)
    ensures MentionsCode(PieceTokens(t, bold, italic, at), code)
  {
    CodeIsReadBack(t, at + 1, code);
    assert PieceTokens(t, bold, italic, at)[0] == MentionToken(code, bold, italic);
  }

  /**
   A code in which nothing closes is mentioned, whatever stands before and after it; any code is, if no italic
   span opens before it.
   */
  lemma {:induction false} CodeIsMentioned(t: Text, i: nat, at: nat, code: Text, bold: bool, italic: bool)
    requires i <= at && HoldsCode(t, at, code) && IsStaffCode(code) && LetsThrough(t, at, code)
    ensures MentionsCode(Pieces(t, i, bold, italic), code)
    decreases |t|, |t| - i
  {
    hide HoldsCode, IsStaffCode, ClosesInside, OpensNoItalicBefore, MentionsCode, PieceAt;
    assert at < |t| by {
      MentionFits(t, at, code);
    }
    var next := PieceAt(t, i).Next(i);
    MentionsConcat(PieceTokens(t, bold, italic, i), Pieces(t, next, bold, italic), code);
    if i == at {
      MentionHere(t, at, code, bold, italic);
    } else {
      PieceBefore(t, i, at, code);
      if next <= at {
        CodeIsMentioned(t, next, at, code, bold, italic);
      } else {
        match PieceAt(t, i)
        case BoldSpan(close) =>
          InnerHolds(t, i + 2, close, at, code);
          InnerLetsThrough(t, i + 2, close, at, code);
          CodeIsMentioned(t[i + 2..close], 0, at - (i + 2), code, true, italic);
        case ItalicSpan(close) =>
          InnerHolds(t, i + 1, close, at, code);
          CodeIsMentioned(t[i + 1..close], 0, at - (i + 1), code, bold, true);
      }
    }
  }

  lemma MentionFits(t: Text, at: nat, code: Text)
    requires HoldsCode(t, at, code)
    ensures at + 1 + |code| <= |t|
  {}

  // ---- A mention stands at an at-sign, and there is room for its code ----

  lemma {:induction false} MentionNeedsAt(t: Text, i: nat, bold: bool, italic: bool, code: Text) returns (at: nat)
    requires i <= |t| && MentionsCode(Pieces(t, i, bold, italic), code)
    ensures i <= at && at + 1 + |code| <= |t| && t[at] == At
    decreases |t|, |t| - i
  {
    hide MentionsCode, PieceAt;
    if i == |t| {
      NothingMentioned(code);
      assert false;
    } else {
      var next := PieceAt(t, i).Next(i);
      MentionsConcat(PieceTokens(t, bold, italic, i), Pieces(t, next, bold, italic), code);
      if MentionsCode(Pieces(t, next, bold, italic), code) {
        at := MentionNeedsAt(t, next, bold, italic, code);
      } else {
        match PieceAt(t, i)
        case BoldSpan(close) =>
          at := MentionNeedsAt(t[i + 2..close], 0, true, italic, code);
          at := at + i + 2;
        case ItalicSpan(close) =>
          at := MentionNeedsAt(t[i + 1..close], 0, bold, true, code);
          at := at + i + 1;
        case Mention(end) =>
          OneMentioned(MentionToken(t[i + 1..end], bold, italic), code);
          at := i;
        case PlainChar =>
          OneMentioned(TextToken([t[i]], bold, italic), code);
          assert false;
      }
    }
  }

  lemma NothingMentioned(code: Text)
    ensures !MentionsCode([], code)
  {}

  lemma OneMentioned(token: Token, code: Text)
    ensures MentionsCode([token], code) <==> IsMentionOf(token, code)
  {
    if IsMentionOf(token, code) {
      assert IsMentionOf([token][0], code);
    }
  }

  // ---- Where a span does close inside ----

  /** An underscore that opens a span, a letter and a space before the mention, and a space after it. */
  function Italicised(code: Text): Text {
    [Underscore, Alnum(120), Blank(32), At] + code + [Blank(32)]
  }

  lemma {:induction false} FirstClose(t: Text, from: nat, j: nat)
    requires from <= j && ItalicCloseAt(t, j)
    ensures from <= ItalicClose(t, from) <= j
    decreases j - from
  {
    if !ItalicCloseAt(t, from) {
      FirstClose(t, from + 1, j);
    }
  }

  lemma ItalicisedHolds(code: Text)
    requires IsStaffCode(code)
    ensures HoldsCode(Italicised(code), 3, code)
    ensures |Italicised(code)| == 5 + |code| && Italicised(code)[3] == At
    ensures forall j :: 1 <= j < 4 ==> Italicised(code)[j] != Underscore
    ensures forall j :: 0 <= j < |Italicised(code)| && j != 3 ==> Italicised(code)[j] != At
    ensures forall k :: 0 <= k < |code| ==> Italicised(code)[4 + k] == code[k]
  {
    var t := Italicised(code);
    assert t[4..4 + |code|] == code;
    forall j | 0 <= j < |t| && j != 3
      ensures t[j] != At
    {
      assert 4 <= j < 4 + |code| ==> t[j] == code[j - 4] && IsCodeChar(code[j - 4]);
    }
  }

  lemma ItalicisedClosesEarly(code: Text) returns (close: nat)
    requires IsStaffCode(code) && ClosesInside(code)
    ensures 4 < close < 4 + |code| && ItalicClose(Italicised(code), 1) == close
  {
    hide Italicised;
    var t := Italicised(code);
    var k :| 0 <= k < |code| && ClosesAt(code, k);
    ItalicisedHolds(code);
    assert t[4 + k] == code[k] && t[4 + (k + 1)] == code[k + 1];
    FirstClose(t, 1, 4 + k);
    close := ItalicClose(t, 1);
    assert t[4] == code[0];
  }

  lemma ItalicisedIsOpened(code: Text, close: nat)
    requires IsStaffCode(code) && 4 < close < 4 + |code| && ItalicClose(Italicised(code), 1) == close
    ensures PieceAt(Italicised(code), 0) == ItalicSpan(close)
  {
    hide ItalicClose;
    var t := Italicised(code);
    assert t[1..close][0] == Alnum(120) && t[1..close][close - 2] == t[close - 1];
    assert t[close - 1] == code[close - 5] && IsCodeChar(code[close - 5]);
  }

  /** A code in which something closes is lost in the text above. */
  lemma ClosedCodeIsLost(code: Text, bold: bool, italic: bool)
    requires IsStaffCode(code) && ClosesInside(code)
    ensures !MentionsCode(Pieces(Italicised(code), 0, bold, italic), code)
  {
    hide PieceAt, MentionsCode, IsStaffCode, ClosesInside, Italicised;
    var t := Italicised(code);
    var close := ItalicisedClosesEarly(code);
    ItalicisedIsOpened(code, close);
    ItalicisedHolds(code);
    MentionFits(t, 3, code);
    MentionsConcat(Pieces(t[1..close], 0, bold, true), Pieces(t, close + 1, bold, italic), code);
    if MentionsCode(Pieces(t, close + 1, bold, italic), code) {
      var at := MentionNeedsAt(t, close + 1, bold, italic, code);
      assert false;
    }
    if MentionsCode(Pieces(t[1..close], 0, bold, true), code) {
      var at := MentionNeedsAt(t[1..close], 0, bold, true, code);
      assert false;
    }
  }

  /**
   A code is read back in every line that holds it, whatever bold and italic spans stand before it, exactly if
   no underscore in it is followed by a dot or a dash.
   */
  lemma CodeSurvivesIff(code: Text, bold: bool, italic: bool)
    requires IsStaffCode(code)
    ensures (forall t, at :: HoldsCode(t, at, code) ==> MentionsCode(Pieces(t, 0, bold, italic), code))
       <==> !ClosesInside(code)
  {
    hide HoldsCode, MentionsCode, Pieces, IsStaffCode, ClosesInside, OpensNoItalicBefore;
    if ClosesInside(code) {
      ItalicisedHolds(code);
      ClosedCodeIsLost(code, bold, italic);
    } else {
      forall t, at | HoldsCode(t, at, code)
        ensures MentionsCode(Pieces(t, 0, bold, italic), code)
      {
        CodeIsMentioned(t, 0, at, code, bold, italic);
      }
    }
  }
}
