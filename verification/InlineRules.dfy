/**
 What begins at a position of a line, character by character
 (packages/shared-types/src/discussion-format.ts:46-66, 95-131): a bold span, an italic span, a mention or nothing.
 */
module InlineRules {
  import opened MarkupText
  import opened InlineMarkup

  predicate IsLetterOrDigit(c: Ch) {
    c.Alnum? || c.AsciiDigit?
  }

  predicate IsInWord(c: Ch) {
    c.Alnum? || c.AsciiDigit? || c == Underscore
  }

  predicate IsDotDashOrUnderscore(c: Ch) {
    c == Dot || c == Dash || c == Underscore
  }

  /** Neither its first nor its last character is white space, and it has one. */
  predicate IsSolid(t: Text, lo: int, hi: int)
    requires 0 <= lo && hi <= |t|
  {
    lo < hi && !IsWhite(t[lo]) && !IsWhite(t[hi - 1])
  }

  predicate IsWhite(c: Ch) {
    c.Blank? || c == LineFeed || c == CarriageReturn || c.LineSeparator?
  }

  predicate TwoStars(t: Text, k: int) {
    0 <= k && k + 1 < |t| && t[k] == Star && t[k + 1] == Star
  }

  /** Two stars, something solid, and the next two stars. */
  predicate IsBold(t: Text, i: nat, close: nat) {
    && i + 2 <= close && TwoStars(t, i) && TwoStars(t, close) && IsSolid(t, i + 2, close)
    && forall k :: i + 2 <= k < close ==> !TwoStars(t, k)
  }

  /** An underscore that no word goes on behind. */
  predicate Closes(t: Text, k: int) {
    0 <= k < |t| && t[k] == Underscore && (k + 1 < |t| ==> !IsInWord(t[k + 1]))
  }

  /** An underscore that stands behind no word, something solid, and the next underscore that closes. */
  predicate IsItalic(t: Text, i: nat, close: nat) {
    && i < |t| && i + 1 <= close && t[i] == Underscore && (i > 0 ==> !IsInWord(t[i - 1]))
    && Closes(t, close) && IsSolid(t, i + 1, close)
    && forall k :: i + 1 <= k < close ==> !Closes(t, k)
  }

  /**
   An at-sign that stands behind no word, no at-sign and no dot, then a letter or digit and what belongs to a code
   up to `end`: the longest run without the dots, dashes and underscores at its end, which reaches to `run`.
   */
  predicate IsMention(t: Text, i: nat, end: nat, run: nat) {
    && i + 1 < end <= run <= |t| && t[i] == At
    && (i > 0 ==> !IsInWord(t[i - 1]) && t[i - 1] != At && t[i - 1] != Dot)
    && IsLetterOrDigit(t[i + 1]) && IsLetterOrDigit(t[end - 1])
    && (forall k :: i + 1 <= k < end ==> IsLetterOrDigit(t[k]) || IsDotDashOrUnderscore(t[k]))
    && (forall k :: end <= k < run ==> IsDotDashOrUnderscore(t[k]))
    && (run < |t| ==> !IsLetterOrDigit(t[run]) && !IsDotDashOrUnderscore(t[run]))
  }

  // ---- The closes ----

  lemma {:induction false} FirstStars(t: Text, from: nat)
    ensures BoldClose(t, from) != -1 ==> TwoStars(t, BoldClose(t, from))
    ensures forall k :: from <= k < (if BoldClose(t, from) == -1 then |t| else BoldClose(t, from)) ==> !TwoStars(t, k)
    decreases |t| - from
  {
    if from + 1 < |t| && !StarPairAt(t, from) {
      FirstStars(t, from + 1);
    }
  }

  lemma {:induction false} FirstUnderscore(t: Text, from: nat)
    ensures ItalicClose(t, from) != -1 ==> Closes(t, ItalicClose(t, from))
    ensures forall k :: from <= k < (if ItalicClose(t, from) == -1 then |t| else ItalicClose(t, from)) ==> !Closes(t, k)
    decreases |t| - from
  {
    if from < |t| && !ItalicCloseAt(t, from) {
      FirstUnderscore(t, from + 1);
    }
  }

  lemma SolidIs(t: Text, lo: nat, hi: nat)
    requires lo <= hi <= |t|
    ensures HasSolidEdges(t[lo..hi]) <==> IsSolid(t, lo, hi)
  {}

  lemma BoldIs(t: Text, i: nat, close: nat)
    requires i < |t|
    ensures PieceAt(t, i) == BoldSpan(close) <==> IsBold(t, i, close)
  {
    hide BoldClose, ItalicClose, HasSolidEdges, CodeEnd, MayMention, WordCharAt, IsSolid;
    FirstStars(t, i + 2);
    var bold := BoldClose(t, i + 2);
    if bold != -1 {
      SolidIs(t, i + 2, bold);
    }
    if IsBold(t, i, close) {
      assert !TwoStars(t, close) || bold == close;
    }
  }

  lemma ItalicIs(t: Text, i: nat, close: nat)
    requires i < |t|
    ensures PieceAt(t, i) == ItalicSpan(close) <==> IsItalic(t, i, close)
  {
    hide BoldClose, ItalicClose, HasSolidEdges, CodeEnd, MayMention, IsSolid;
    FirstUnderscore(t, i + 1);
    var italic := ItalicClose(t, i + 1);
    if italic != -1 {
      SolidIs(t, i + 1, italic);
    }
    if IsItalic(t, i, close) {
      assert !Closes(t, close) || italic == close;
    }
  }

  // ---- The mention ----

  lemma {:induction false} RunIs(t: Text, i: nat)
    requires i <= |t|
    ensures forall k :: i <= k < CodeRunEnd(t, i) ==> IsLetterOrDigit(t[k]) || IsDotDashOrUnderscore(t[k])
    ensures CodeRunEnd(t, i) < |t| ==>
              !IsLetterOrDigit(t[CodeRunEnd(t, i)]) && !IsDotDashOrUnderscore(t[CodeRunEnd(t, i)])
    decreases |t| - i
  {
    if i < |t| && IsCodeChar(t[i]) {
      RunIs(t, i + 1);
    }
  }

  lemma {:induction false} TrimmedIs(t: Text, i: nat, e: nat)
    requires i <= e <= |t|
    ensures forall k :: TrimmedEnd(t, i, e) <= k < e ==> IsDotDashOrUnderscore(t[k])
    ensures TrimmedEnd(t, i, e) > i ==> !IsDotDashOrUnderscore(t[TrimmedEnd(t, i, e) - 1])
    decreases e
  {
    if e > i && IsCodePunct(t[e - 1]) {
      TrimmedIs(t, i, e - 1);
    }
  }

  /** One run, and one end of it without the punctuation. */
  lemma MentionEndsOnce(t: Text, i: nat, end: nat, run: nat, end': nat, run': nat)
    requires IsMention(t, i, end, run) && IsMention(t, i, end', run')
    ensures end == end' && run == run'
  {}

  lemma CodeEndIsMention(t: Text, i: nat)
    requires i < |t| && t[i] == At && CodeEnd(t, i + 1) > i + 1
    requires i > 0 ==> !IsInWord(t[i - 1]) && t[i - 1] != At && t[i - 1] != Dot
    ensures IsMention(t, i, CodeEnd(t, i + 1), CodeRunEnd(t, i + 1))
  {
    hide CodeRunEnd, TrimmedEnd;
    RunIs(t, i + 1);
    TrimmedIs(t, i + 1, CodeRunEnd(t, i + 1));
  }

  lemma {:induction false} RunCovers(t: Text, i: nat, run: nat)
    requires i <= run <= |t| && forall k :: i <= k < run ==> IsCodeChar(t[k])
    ensures CodeRunEnd(t, i) >= run
    decreases run - i
  {
    if i < run {
      RunCovers(t, i + 1, run);
    }
  }

  lemma {:induction false} TrimmedCovers(t: Text, i: nat, e: nat, end: nat)
    requires i < end <= e <= |t| && !IsCodePunct(t[end - 1])
    ensures TrimmedEnd(t, i, e) >= end
    decreases e
  {
    if e > i && IsCodePunct(t[e - 1]) {
      TrimmedCovers(t, i, e - 1, end);
    }
  }

  lemma MentionHasCode(t: Text, i: nat, end: nat, run: nat)
    requires IsMention(t, i, end, run)
    ensures CodeEnd(t, i + 1) == end
  {
    RunCovers(t, i + 1, end);
    TrimmedCovers(t, i + 1, CodeRunEnd(t, i + 1), end);
    hide CodeRunEnd, TrimmedEnd;
    CodeEndIsMention(t, i);
    MentionEndsOnce(t, i, end, run, CodeEnd(t, i + 1), CodeRunEnd(t, i + 1));
  }

  lemma MentionIs(t: Text, i: nat, end: nat)
    requires i < |t|
    ensures PieceAt(t, i) == Mention(end) <==> exists run: nat :: IsMention(t, i, end, run)
  {
    hide BoldClose, ItalicClose, HasSolidEdges, CodeEnd, IsMention;
    if PieceAt(t, i) == Mention(end) {
      CodeEndIsMention(t, i);
    }
    if run: nat :| IsMention(t, i, end, run) {
      MentionHasCode(t, i, end, run);
      MentionBegins(t, i, end, run);
    }
  }

  lemma MentionBegins(t: Text, i: nat, end: nat, run: nat)
    requires IsMention(t, i, end, run)
    ensures i < |t| && t[i] == At && MayMention(t, i) && end > i + 1
  {}

  /**
   The rules of a line: two stars begin a bold span, an underscore an italic one and an at-sign a mention exactly as
   written above; anything else is itself.
   */
  lemma PieceIs(t: Text, i: nat, p: Piece)
    requires i < |t|
    ensures p.BoldSpan? ==> (PieceAt(t, i) == p <==> IsBold(t, i, p.close))
    ensures p.ItalicSpan? ==> (PieceAt(t, i) == p <==> IsItalic(t, i, p.close))
    ensures p.Mention? ==> (PieceAt(t, i) == p <==> exists run: nat :: IsMention(t, i, p.end, run))
  {
    hide PieceAt, IsBold, IsItalic, IsMention;
    match p
    case BoldSpan(close) => BoldIs(t, i, close);
    case ItalicSpan(close) => ItalicIs(t, i, close);
    case Mention(end) => MentionIs(t, i, end);
    case PlainChar =>
  }
}
