/**
 What can and cannot stand in a parsed line (packages/shared-types/src/discussion-format.ts:46-66, 85-137):
 bold inside bold, underscores inside words, and the shape of the codes that mentions carry.
 */
module InlineSpans {
  import opened MarkupText
  import opened InlineMarkup
  import opened InlineRendering

  // ---- Bold is never parsed inside bold ----

  function Max(a: nat, b: nat): nat {
    if a < b then b else a
  }

  /** How deeply bold spans are nested in the reading of the line from `i` on. */
  function BoldDepth(t: Text, i: nat): nat
    requires i <= |t|
    decreases |t|, |t| - i
  {
    if i == |t| then 0
    else
      var next := BoldDepth(t, PieceAt(t, i).Next(i));
      match PieceAt(t, i)
      case BoldSpan(close) => Max(1 + BoldDepth(t[i + 2..close], 0), next)
      case ItalicSpan(close) => Max(BoldDepth(t[i + 1..close], 0), next)
      case _ => next
  }

  ghost predicate HasNoStarPair(t: Text) {
    forall k :: 0 <= k < |t| ==> !StarPairAt(t, k)
  }

  lemma {:induction false} BoldClosesAtFirstPair(t: Text, from: nat, k: nat)
    requires from <= k && StarPairAt(t, k)
    ensures from <= BoldClose(t, from) <= k
    decreases k - from
  {
    if !StarPairAt(t, from) {
      BoldClosesAtFirstPair(t, from + 1, k);
    }
  }

  lemma BoldSpanHasNoStarPair(t: Text, i: nat)
    requires i < |t| && PieceAt(t, i).BoldSpan?
    ensures HasNoStarPair(t[i + 2..PieceAt(t, i).close])
  {
    var close := PieceAt(t, i).close;
    var inner := t[i + 2..close];
    forall k | 0 <= k < |inner|
      ensures !StarPairAt(inner, k)
    {
      if StarPairAt(inner, k) {
        BoldClosesAtFirstPair(t, i + 2, i + 2 + k);
        assert false;
      }
    }
  }

  lemma SliceHasNoStarPair(t: Text, lo: nat, hi: nat)
    requires lo <= hi <= |t| && HasNoStarPair(t)
    ensures HasNoStarPair(t[lo..hi])
  {
    forall k | 0 <= k < hi - lo
      ensures !StarPairAt(t[lo..hi], k)
    {
      assert !StarPairAt(t, lo + k);
    }
  }

  lemma {:induction false} NoBoldWithoutStarPair(t: Text, i: nat)
    requires i <= |t| && HasNoStarPair(t)
    ensures BoldDepth(t, i) == 0
    decreases |t|, |t| - i
  {
    if i < |t| {
      assert !StarPairAt(t, i);
      NoBoldWithoutStarPair(t, PieceAt(t, i).Next(i));
      if PieceAt(t, i).ItalicSpan? {
        SliceHasNoStarPair(t, i + 1, PieceAt(t, i).close);
        NoBoldWithoutStarPair(t[i + 1..PieceAt(t, i).close], 0);
      }
    }
  }

  lemma {:induction false} NoBoldInsideBold(t: Text, i: nat)
    requires i <= |t|
    ensures BoldDepth(t, i) <= 1
    decreases |t|, |t| - i
  {
    if i < |t| {
      NoBoldInsideBold(t, PieceAt(t, i).Next(i));
      match PieceAt(t, i)
      case BoldSpan(close) =>
        BoldSpanHasNoStarPair(t, i);
        NoBoldWithoutStarPair(t[i + 2..close], 0);
      case ItalicSpan(close) =>
        NoBoldInsideBold(t[i + 1..close], 0);
      case _ =>
    }
  }

  // ---- Underscores inside words stay ----

  predicate OpensItalicAt(t: Text, k: nat)
    requires k < |t|
  {
    t[k] == Underscore && !WordCharAt(t, k - 1)
  }

  predicate SafeAt(t: Text, k: nat)
    requires k < |t|
  {
    !StarPairAt(t, k) && !OpensItalicAt(t, k)
  }

  /** No star pair, and no underscore that could open a span: each has a word character before it. */
  ghost predicate OpensNoSpan(t: Text) {
    forall k :: 0 <= k < |t| ==> SafeAt(t, k)
  }

  lemma NoSpanAt(t: Text, i: nat)
    requires i < |t| && SafeAt(t, i)
    ensures PieceAt(t, i).Mention? || PieceAt(t, i).PlainChar?
  {}

  lemma {:induction false} WordsKeepTheirUnderscores(t: Text, i: nat, bold: bool, italic: bool)
    requires i <= |t| && OpensNoSpan(t)
    ensures Plain(Pieces(t, i, bold, italic)) == t[i..]
    decreases |t| - i
  {
    hide PieceAt, PieceTokens, Plain;
    if i == |t| {
      NothingShown();
    } else {
      assert SafeAt(t, i);
      NoSpanAt(t, i);
      var next := PieceAt(t, i).Next(i);
      WordsKeepTheirUnderscores(t, next, bold, italic);
      PlainConcat(PieceTokens(t, bold, italic, i), Pieces(t, next, bold, italic));
      PlainOfOne(t, i, bold, italic);
      assert t[i..next] + t[next..] == t[i..];
    }
  }

  lemma PlainOfOne(t: Text, i: nat, bold: bool, italic: bool)
    requires i < |t| && !PieceAt(t, i).BoldSpan? && !PieceAt(t, i).ItalicSpan?
    ensures Plain(PieceTokens(t, bold, italic, i)) == t[i..PieceAt(t, i).Next(i)]
  {
    hide Plain, PieceAt;
    match PieceAt(t, i)
    case Mention(end) => MentionShown(t, i, end, bold, italic);
    case PlainChar => CharShown(t, i, bold, italic);
  }

  // ---- Mention codes ----

  ghost predicate AreCodeChars(code: Text) {
    forall k :: 0 <= k < |code| ==> IsCodeChar(code[k])
  }

  /** A letter or digit, then letters, digits and inner punctuation: what a staff code looks like. */
  ghost predicate IsStaffCode(code: Text) {
    code != [] && IsCodeHead(code[0]) && AreCodeChars(code) && !IsCodePunct(code[|code| - 1])
  }

  lemma {:induction false} RunHoldsCodeChars(t: Text, i: nat)
    requires i <= |t|
    ensures AreCodeChars(t[i..CodeRunEnd(t, i)])
    ensures CodeRunEnd(t, i) < |t| ==> !IsCodeChar(t[CodeRunEnd(t, i)])
    decreases |t| - i
  {
    if i < |t| && IsCodeChar(t[i]) {
      RunHoldsCodeChars(t, i + 1);
      var run, rest := t[i..CodeRunEnd(t, i)], t[i + 1..CodeRunEnd(t, i + 1)];
      forall k | 0 <= k < |run|
        ensures IsCodeChar(run[k])
      {
        assert k > 0 ==> run[k] == rest[k - 1];
      }
    }
  }

  lemma CodeIsWellFormed(t: Text, i: nat)
    requires i < |t| && i < CodeEnd(t, i)
    ensures IsStaffCode(t[i..CodeEnd(t, i)])
  {
    RunHoldsCodeChars(t, i);
    var run, code := t[i..CodeRunEnd(t, i)], t[i..CodeEnd(t, i)];
    forall k | 0 <= k < |code|
      ensures IsCodeChar(code[k])
    {
      assert code[k] == run[k];
    }
  }

  ghost predicate MentionsAreCodes(tokens: seq<Token>) {
    forall k :: 0 <= k < |tokens| ==> tokens[k].MentionToken? ==> IsStaffCode(tokens[k].code)
  }

  lemma {:induction false} EveryMentionIsACode(t: Text, i: nat, bold: bool, italic: bool)
    requires i <= |t|
    ensures MentionsAreCodes(Pieces(t, i, bold, italic))
    decreases |t|, |t| - i
  {
    if i < |t| {
      EveryMentionIsACode(t, PieceAt(t, i).Next(i), bold, italic);
      match PieceAt(t, i)
      case BoldSpan(close) => EveryMentionIsACode(t[i + 2..close], 0, true, italic);
      case ItalicSpan(close) => EveryMentionIsACode(t[i + 1..close], 0, bold, true);
      case Mention(end) => CodeIsWellFormed(t, i + 1);
      case PlainChar =>
    }
  }

  /** Written code followed by something that is no code character is read back as that code. */
  lemma CodeIsReadBack(t: Text, i: nat, code: Text)
    requires IsStaffCode(code) && i + |code| <= |t| && t[i..i + |code|] == code
    requires i + |code| < |t| ==> !IsCodeChar(t[i + |code|])
    ensures CodeEnd(t, i) == i + |code|
  {
    assert t[i] == code[0];
    RunReaches(t, i, i + |code|, code);
    assert t[i + |code| - 1] == code[|code| - 1];
  }

  lemma {:induction false} RunReaches(t: Text, i: nat, end: nat, code: Text)
    requires i <= end <= |t| && t[i..end] == code && AreCodeChars(code)
    requires end < |t| ==> !IsCodeChar(t[end])
    ensures CodeRunEnd(t, i) == end
    decreases end - i
  {
    if i < end {
      assert t[i] == code[0];
      assert AreCodeChars(code[1..]) by {
        forall k | 0 <= k < |code[1..]|
          ensures IsCodeChar(code[1..][k])
        {
          assert code[1..][k] == code[k + 1];
        }
      }
      RunReaches(t, i + 1, end, code[1..]);
    }
  }
}
