/**
 No context hides a number: whatever stands before and after it, a number written in groups is found
 (apps/api/src/common/utils/pii-text.ts:46-53, 351-503, 597-648).
 */
module WrittenNumbers {
  import opened ScanText
  import opened DigitClusters
  import opened PhoneNumbers
  import opened PhoneScan

  /** Digit groups with a separator between each and the next. */
  datatype Writing = One(group: Digits) | More(front: Writing, separator: Text, group: Digits) {
    function AsText(): Text {
      match this
      case One(g) => Spell(g)
      case More(f, sep, g) => f.AsText() + (sep + Spell(g))
    }

    function Groups(): (groups: seq<Digits>)
      ensures |groups| > 0
    {
      match this
      case One(g) => [g]
      case More(f, _, g) => f.Groups() + [g]
    }

    predicate Valid() {
      && |group| > 0
      && (More? ==> front.Valid() && IsSeparator(separator))
    }
  }

  predicate IsSeparator(sep: Text) {
    1 <= |sep| <= MAX_SEPARATOR_LENGTH && forall i :: 0 <= i < |sep| ==> IsFiller(sep[i])
  }

  predicate Occurs(t: Text, at: nat, part: Text) {
    at + |part| <= |t| && t[at..at + |part|] == part
  }

  lemma OccurrenceSplits(t: Text, at: nat, a: Text, b: Text)
    requires Occurs(t, at, a + b)
    ensures Occurs(t, at, a) && Occurs(t, at + |a|, b)
  {
    var whole := t[at..at + |a + b|];
    assert whole[..|a|] == a && whole[|a|..] == b;
  }

  lemma SpelledGroupIsRun(t: Text, at: nat, g: Digits)
    requires Occurs(t, at, Spell(g)) && |g| > 0
    requires !IsDigitAt(t, at - 1) && !IsDigitAt(t, at + |g|)
    ensures IsMaximalRun(t, Span(at, at + |g|)) && SpanDigits(t, Span(at, at + |g|)) == g
  {
    assert forall i :: at <= i < at + |g| ==> t[i] == t[at..at + |g|][i - at];
  }

  lemma SeparatorFills(t: Text, hi: nat, sep: Text)
    requires Occurs(t, hi, sep) && IsSeparator(sep)
    ensures Fills(t, hi, hi + |sep|) && !IsDigitAt(t, hi) && !IsDigitAt(t, hi + |sep| - 1)
  {
    forall i | hi <= i < hi + |sep|
      ensures IsFiller(t[i])
    {
      assert t[i] == t[hi..hi + |sep|][i - hi];
    }
    assert IsFiller(t[hi]) && IsFiller(t[hi + |sep| - 1]);
  }

  lemma AppendWritten(t: Text, v: seq<Span>, hi: nat, sep: Text, g: Digits) returns (w: seq<Span>)
    requires IsChain(t, v) && v[|v| - 1].hi == hi
    requires IsSeparator(sep) && |g| > 0 && Occurs(t, hi, sep + Spell(g))
    requires !IsDigitAt(t, hi + |sep| + |g|)
    ensures IsChain(t, w) && ChainGroups(t, w) == ChainGroups(t, v) + [g]
    ensures w[0] == v[0] && w[|w| - 1].hi == hi + |sep| + |g|
  {
    hide ChainGroups;
    OccurrenceSplits(t, hi, sep, Spell(g));
    assert IsRunAt(t, v, |v| - 1);
    SeparatorFills(t, hi, sep);
    var s := Span(hi + |sep|, hi + |sep| + |g|);
    SpelledGroupIsRun(t, s.lo, g);
    AppendGroup(t, v, s);
    w := v + [s];
  }

  lemma GroupIsChain(t: Text, at: nat, g: Digits) returns (w: seq<Span>)
    requires |g| > 0 && Occurs(t, at, Spell(g))
    requires !IsDigitAt(t, at - 1) && !IsDigitAt(t, at + |g|)
    ensures IsChain(t, w) && ChainGroups(t, w) == [g]
    ensures w[0].lo == at && w[|w| - 1].hi == at + |g|
  {
    SpelledGroupIsRun(t, at, g);
    w := [Span(at, at + |g|)];
    assert IsRunAt(t, w, 0);
    assert ChainGroups(t, w) == [g];
  }

  /** What stands before the last group ends where its separator begins. */
  lemma FrontOccurs(t: Text, at: nat, front: Text, sep: Text, g: Digits)
    requires Occurs(t, at, front + (sep + Spell(g))) && IsSeparator(sep)
    ensures Occurs(t, at, front) && Occurs(t, at + |front|, sep + Spell(g))
    ensures !IsDigitAt(t, at + |front|)
  {
    hide Spell, IsSeparator;
    OccurrenceSplits(t, at, front, sep + Spell(g));
    OccurrenceSplits(t, at + |front|, sep, Spell(g));
    SeparatorFills(t, at + |front|, sep);
  }

  /** The groups as they stand in the text are a chain of it. */
  lemma {:induction false} WritingIsChain(t: Text, at: nat, x: Writing) returns (w: seq<Span>)
    requires x.Valid() && Occurs(t, at, x.AsText())
    requires !IsDigitAt(t, at - 1) && !IsDigitAt(t, at + |x.AsText()|)
    ensures IsChain(t, w) && ChainGroups(t, w) == x.Groups()
    ensures w[0].lo == at && w[|w| - 1].hi == at + |x.AsText()|
  {
    hide ChainGroups, IsChain, Occurs, IsDigitAt, IsSeparator;
    match x
    case One(g) =>
      w := GroupIsChain(t, at, g);
    case More(f, sep, g) =>
      FrontOccurs(t, at, f.AsText(), sep, g);
      var v := WritingIsChain(t, at, f);
      w := AppendWritten(t, v, at + |f.AsText()|, sep, g);
  }

  lemma WritingInContext(before: Text, x: Writing, after: Text) returns (w: seq<Span>)
    requires x.Valid()
    requires !IsDigitAt(before, |before| - 1) && !IsDigitAt(after, 0)
    ensures var t := before + x.AsText() + after; IsChain(t, w) && ChainGroups(t, w) == x.Groups()
    ensures w[0].lo == |before|
  {
    var t := before + x.AsText() + after;
    var end := |before| + |x.AsText()|;
    assert t[|before|..end] == x.AsText();
    assert |before| > 0 ==> t[|before| - 1] == before[|before| - 1];
    assert |after| > 0 ==> t[end] == after[0];
    w := WritingIsChain(t, |before|, x);
  }

  /**
   Whatever text surrounds it, a Vietnamese number of up to fifteen digits is found, however it is cut
   into groups (one of them may be a single digit) and whatever short separators stand between them.
   */
  lemma WrittenNumberIsFound(before: Text, x: Writing, after: Text)
    requires x.Valid() && IsAdmissible(x.Groups(), MAX_PHONE_DIGITS)
    requires IsVietnameseNumber(Concat(x.Groups()))
    requires !IsDigitAt(before, |before| - 1) && !IsDigitAt(after, 0)
    ensures HoldsPhone(before + x.AsText() + after)
  {
    var w := WritingInContext(before, x, after);
    assert IsPhoneChain(before + x.AsText() + after, w);
  }

  /** The spellings in daily use: 0N, 84N, 840N and 0084N. */
  const DAILY_PREFIXES := {
    Prefix(1, false, false), Prefix(0, true, false), Prefix(0, true, true), Prefix(2, true, false)
  }

  lemma DailySpellingIsFound(before: Text, p: Prefix, n: Digits, x: Writing, after: Text)
    requires p in DAILY_PREFIXES && IsNationalNumber(n)
    requires x.Valid() && Concat(x.Groups()) == p.Spell(n) && Singles(x.Groups()) <= MAX_SINGLE_DIGIT_GROUPS
    requires !IsDigitAt(before, |before| - 1) && !IsDigitAt(after, 0)
    ensures HoldsPhone(before + x.AsText() + after)
  {
    assert IsRecognised(p, n);
    WrittenNumberIsFound(before, x, after);
  }

  /** Nine to twelve digits written in groups are found as an identity number, given a keyword. */
  lemma WrittenIdIsFound(before: Text, x: Writing, after: Text)
    requires x.Valid() && IsIdWindow(x.Groups())
    requires !IsDigitAt(before, |before| - 1) && !IsDigitAt(after, 0)
    ensures HoldsIdWindow(before + x.AsText() + after)
  {
    var w := WritingInContext(before, x, after);
    assert IsIdChain(before + x.AsText() + after, w);
  }
}
