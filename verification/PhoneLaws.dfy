/**
 What is found, in plain digits and without the names of the rules
 (apps/api/src/common/utils/pii-text.ts:177-198, 232, 239-252, 330-503, 620-648): which numbers, which groupings,
 which separators and which plus signs.
 */
module PhoneLaws {
  import opened ScanText
  import opened DigitClusters
  import opened PhoneNumbers
  import opened PhoneScan
  import opened WrittenNumbers
  import opened PiiText

  // ---- The rules, in numbers ----

  /** Nine or ten digits that begin with one of six. */
  predicate IsPlainNumber(n: Digits) {
    9 <= |n| <= 10 && n[0] in {2, 3, 5, 7, 8, 9}
  }

  /** `z` zeros, the country code and its trunk zero or nothing, then the number. */
  predicate IsPlainSpelling(ds: Digits, z: nat, code: Digits, n: Digits) {
    && IsPlainNumber(n) && ds == Zeros(z) + code + n
    && (if code == [] then z >= 1 && !(z == 2 && n[0] == 8 && n[1] == 4)
        else code == [8, 4] || (code == [8, 4, 0] && z != 2))
  }

  ghost predicate SpellsNumber(ds: Digits) {
    exists z, code, n :: IsPlainSpelling(ds, z, code, n)
  }

  predicate IsPlainSeparator(sep: Text) {
    1 <= |sep| <= 3 && forall i :: 0 <= i < |sep| ==> !sep[i].Digit? && !sep[i].Letter? && !sep[i].Newline?
  }

  /** No group is empty, and separators are short. */
  predicate IsWritten(x: Writing) {
    |x.group| > 0 && (x.More? ==> IsWritten(x.front) && IsPlainSeparator(x.separator))
  }

  predicate HasOneSingleAtMost(groups: seq<Digits>) {
    forall j, k :: 0 <= j < k < |groups| ==> !(|groups[j]| == 1 && |groups[k]| == 1)
  }

  function Flat(groups: seq<Digits>): Digits {
    if groups == [] then [] else groups[0] + Flat(groups[1..])
  }

  predicate HasNoPlus(t: Text) {
    forall i :: 0 <= i < |t| ==> t[i] != Plus
  }

  // ---- They are the rules of the scan ----

  lemma WrittenIsValid(x: Writing)
    requires IsWritten(x)
    ensures x.Valid()
  {
    if x.More? {
      WrittenIsValid(x.front);
    }
  }

  lemma SpellsIffVietnamese(ds: Digits)
    ensures SpellsNumber(ds) <==> IsVietnameseNumber(ds)
  {
    if SpellsNumber(ds) {
      var z, code, n :| IsPlainSpelling(ds, z, code, n);
      PlainIsRecognised(ds, z, code, n);
    }
    if IsVietnameseNumber(ds) {
      var p, n :| IsRecognised(p, n) && ds == p.Spell(n);
      RecognisedIsPlain(ds, p, n);
    }
  }

  lemma PlainIsRecognised(ds: Digits, z: nat, code: Digits, n: Digits)
    requires IsPlainSpelling(ds, z, code, n)
    ensures IsVietnameseNumber(ds)
  {
    var p := Prefix(z, code != [], code == [8, 4, 0]);
    assert p.AfterZeros(n) == code + n;
    assert ds == Zeros(z) + (code + n);
    assert IsRecognised(p, n) && ds == p.Spell(n);
  }

  lemma RecognisedIsPlain(ds: Digits, p: Prefix, n: Digits)
    requires IsRecognised(p, n) && ds == p.Spell(n)
    ensures SpellsNumber(ds)
  {
    var code: Digits := if !p.countryCode then [] else if p.trunkZero then [8, 4, 0] else [8, 4];
    assert p.AfterZeros(n) == code + n;
    assert ds == Zeros(p.zeros) + code + n;
    assert IsPlainSpelling(ds, p.zeros, code, n);
  }

  lemma {:induction false} FlatIsConcat(groups: seq<Digits>)
    ensures Flat(groups) == Concat(groups)
    decreases |groups|
  {
    if groups != [] {
      ConcatFront(groups);
      FlatIsConcat(groups[1..]);
    }
  }

  lemma {:induction false} ConcatFront(groups: seq<Digits>)
    requires groups != []
    ensures Concat(groups) == groups[0] + Concat(groups[1..])
    decreases |groups|
  {
    if |groups| == 1 {
      assert groups[..0] == [] && groups[1..] == [];
      assert Concat(groups) == Concat([]) + groups[0];
    } else {
      var front, last := groups[..|groups| - 1], groups[|groups| - 1];
      ConcatFront(front);
      assert groups[1..][..|groups[1..]| - 1] == front[1..];
      assert groups[0] + (Concat(front[1..]) + last) == (groups[0] + Concat(front[1..])) + last;
    }
  }

  lemma {:induction false} SinglesAreCounted(groups: seq<Digits>)
    ensures Singles(groups) == 0 <==> forall k :: 0 <= k < |groups| ==> |groups[k]| != 1
    ensures Singles(groups) <= 1 <==> HasOneSingleAtMost(groups)
  {
    if groups != [] {
      var front, last := groups[..|groups| - 1], groups[|groups| - 1];
      SinglesAreCounted(front);
      if Singles(groups) > 1 {
        if Singles(front) > 1 {
          var j, k :| 0 <= j < k < |front| && |front[j]| == 1 && |front[k]| == 1;
          assert |groups[j]| == 1 && |groups[k]| == 1;
        } else {
          var j :| 0 <= j < |front| && |front[j]| == 1;
          assert |groups[j]| == 1 && |groups[|groups| - 1]| == 1;
        }
      } else {
        forall j, k | 0 <= j < k < |groups|
          ensures !(|groups[j]| == 1 && |groups[k]| == 1)
        {
          assert groups[j] == front[j] && (k < |front| ==> groups[k] == front[k]);
        }
      }
    }
  }

  /** A window in plain words: at most one single digit, at most 15 digits, and the spelling of a number. */
  ghost predicate IsPlainWindow(groups: seq<Digits>) {
    HasOneSingleAtMost(groups) && |Flat(groups)| <= 15 && SpellsNumber(Flat(groups))
  }

  predicate IsPlainIdWindow(groups: seq<Digits>) {
    HasOneSingleAtMost(groups) && 9 <= |Flat(groups)| <= 12
  }

  lemma WindowIsPlain(groups: seq<Digits>, plus: bool)
    ensures IsPhoneWindow(groups, plus)
       <==> IsPlainWindow(groups) || (plus && HasOneSingleAtMost(groups) && 9 <= |Flat(groups)| <= 15)
    ensures IsIdWindow(groups) <==> IsPlainIdWindow(groups)
  {
    hide HasOneSingleAtMost, SpellsNumber, IsVietnameseNumber, Flat, Concat, Singles;
    SinglesAreCounted(groups);
    FlatIsConcat(groups);
    SpellsIffVietnamese(Flat(groups));
  }

  // ---- A text that is one writing ----

  /** A chain from end to end holds every run of the text. */
  lemma {:induction false} RunIsInChain(t: Text, w: seq<Span>, s: Span, k: nat) returns (g: nat)
    requires IsChain(t, w) && IsMaximalRun(t, s) && k < |w| && w[0].lo <= s.lo < w[k].hi
    ensures g < |w| && w[g] == s
    decreases k
  {
    assert IsRunAt(t, w, k);
    if k > 0 && s.lo < w[k - 1].hi {
      g := RunIsInChain(t, w, s, k - 1);
    } else {
      if k > 0 {
        assert IsLinkAt(t, w, k) && t[s.lo].Digit?;
        assert s.lo < w[k].lo ==> IsFiller(t[s.lo]);
      }
      SameRun(t, w[k], s);
      g := k;
    }
  }

  lemma SameRun(t: Text, r: Span, s: Span)
    requires IsMaximalRun(t, r) && IsMaximalRun(t, s) && r.lo <= s.lo < r.hi
    ensures r == s
  {
    assert s.lo > r.lo ==> IsDigitAt(t, s.lo - 1);
    assert s.hi < r.hi ==> IsDigitAt(t, s.hi);
    assert r.hi < s.hi ==> IsDigitAt(t, r.hi);
  }

  /** Every chain of a text that one chain fills is a window of it. */
  lemma ChainIsWindow(t: Text, w: seq<Span>, v: seq<Span>) returns (start: nat)
    requires IsChain(t, w) && w[0].lo == 0 && w[|w| - 1].hi == |t| && IsChain(t, v)
    ensures start + |v| <= |w| && ChainGroups(t, v) == ChainGroups(t, w)[start..start + |v|]
  {
    assert IsRunAt(t, v, 0);
    start := RunIsInChain(t, w, v[0], |w| - 1);
    FillingIsLongest(t, w);
    ChainIsSlice(t, w, start, v);
    SliceGroups(t, w, start, start + |v|);
  }

  lemma FillingIsLongest(t: Text, w: seq<Span>)
    requires IsChain(t, w) && w[0].lo == 0 && w[|w| - 1].hi == |t|
    ensures IsLongestChain(t, w)
  {
    assert IsRunAt(t, w, 0) && IsRunAt(t, w, |w| - 1);
  }

  lemma WholeWriting(x: Writing) returns (w: seq<Span>)
    requires IsWritten(x)
    ensures var t := x.AsText();
            IsChain(t, w) && ChainGroups(t, w) == x.Groups() && w[0].lo == 0 && w[|w| - 1].hi == |t|
  {
    WrittenIsValid(x);
    var t := x.AsText();
    assert t[0..0 + |t|] == t;
    w := WritingIsChain(t, 0, x);
  }

  /**
   A text that is digit groups joined by short separators, without a plus, holds a telephone number exactly if
   some neighbouring groups of it, no two of them single digits, spell a number in at most 15 digits.
   */
  lemma WritingHoldsPhoneIff(x: Writing)
    requires IsWritten(x) && HasNoPlus(x.AsText())
    ensures HoldsPhone(x.AsText())
       <==> exists start, end :: 0 <= start < end <= |x.Groups()| && IsPlainWindow(x.Groups()[start..end])
  {
    hide IsPlainWindow, IsPhoneWindow, ChainGroups, IsChain;
    var t := x.AsText();
    var w := WholeWriting(x);
    if HoldsPhone(t) {
      var v :| IsPhoneChain(t, v);
      ChainIsNotEmpty(t, w);
      ChainIsNotEmpty(t, v);
      var start := ChainIsWindow(t, w, v);
      WindowIsPlain(ChainGroups(t, v), PlusVouches(t, v));
      assert IsPlainWindow(x.Groups()[start..start + |v|]);
    }
    if start, end :| 0 <= start < end <= |x.Groups()| && IsPlainWindow(x.Groups()[start..end]) {
      SliceOfWriting(t, w, start, end);
      WindowIsPlain(ChainGroups(t, w[start..end]), PlusVouches(t, w[start..end]));
      assert IsPhoneChain(t, w[start..end]);
    }
  }

  lemma ChainIsNotEmpty(t: Text, w: seq<Span>)
    requires IsChain(t, w)
    ensures |w| > 0 && AreRuns(t, w)
  {}

  lemma SliceOfWriting(t: Text, w: seq<Span>, start: nat, end: nat)
    requires IsChain(t, w) && start < end <= |w|
    ensures IsChain(t, w[start..end]) && ChainGroups(t, w[start..end]) == ChainGroups(t, w)[start..end]
  {
    SliceIsChain(t, w, start, end);
    SliceGroups(t, w, start, end);
  }

  /** The same for identity numbers: 9 to 12 digits. */
  lemma WritingHoldsIdIff(x: Writing)
    requires IsWritten(x)
    ensures HoldsIdWindow(x.AsText())
       <==> exists start, end :: 0 <= start < end <= |x.Groups()| && IsPlainIdWindow(x.Groups()[start..end])
  {
    hide IsPlainIdWindow, IsIdWindow, ChainGroups, IsChain;
    var t := x.AsText();
    var w := WholeWriting(x);
    if HoldsIdWindow(t) {
      var v :| IsIdChain(t, v);
      ChainIsNotEmpty(t, w);
      var start := ChainIsWindow(t, w, v);
      WindowIsPlain(ChainGroups(t, v), false);
      ChainIsNotEmpty(t, v);
      assert IsPlainIdWindow(x.Groups()[start..start + |v|]);
    }
    if start, end :| 0 <= start < end <= |x.Groups()| && IsPlainIdWindow(x.Groups()[start..end]) {
      SliceOfWriting(t, w, start, end);
      WindowIsPlain(ChainGroups(t, w[start..end]), false);
      assert IsIdChain(t, w[start..end]);
    }
  }

  // ---- In any context ----

  /** The spellings in daily use, in digits. */
  predicate IsDaily(ds: Digits, n: Digits) {
    ds == [0] + n || ds == [8, 4] + n || ds == [8, 4, 0] + n || ds == [0, 0, 8, 4] + n
  }

  /**
   Every number of nine or ten digits that begins with 2, 3, 5, 7, 8 or 9, spelled 0N, 84N, 840N or 0084N, cut
   with at most one single digit and joined by separators of one to three characters, is found in any context.
   */
  lemma PlainNumberIsFound(before: Text, n: Digits, x: Writing, after: Text)
    requires 9 <= |n| <= 10 && n[0] in {2, 3, 5, 7, 8, 9}
    requires IsWritten(x) && HasOneSingleAtMost(x.Groups()) && IsDaily(Flat(x.Groups()), n)
    requires before != [] ==> !before[|before| - 1].Digit?
    requires after != [] ==> !after[0].Digit?
    ensures HoldsPhone(before + x.AsText() + after)
  {
    hide HoldsPhone, HasOneSingleAtMost, IsVietnameseNumber;
    WrittenIsValid(x);
    FlatIsConcat(x.Groups());
    SinglesAreCounted(x.Groups());
    DailyIsSpelled(Flat(x.Groups()), n);
    SpellsIffVietnamese(Flat(x.Groups()));
    WrittenNumberIsFound(before, x, after);
  }

  lemma DailyIsSpelled(ds: Digits, n: Digits)
    requires IsPlainNumber(n) && IsDaily(ds, n)
    ensures SpellsNumber(ds) && |ds| <= 14
  {
    if ds == [0] + n {
      assert ds == Zeros(1) + [] + n;
      assert IsPlainSpelling(ds, 1, [], n);
    } else if ds == [8, 4] + n {
      assert ds == Zeros(0) + [8, 4] + n;
      assert IsPlainSpelling(ds, 0, [8, 4], n);
    } else if ds == [8, 4, 0] + n {
      assert ds == Zeros(0) + [8, 4, 0] + n;
      assert IsPlainSpelling(ds, 0, [8, 4, 0], n);
    } else {
      assert ds == Zeros(2) + [8, 4] + n;
      assert IsPlainSpelling(ds, 2, [8, 4], n);
    }
  }

  // ---- One run of digits ----

  /** A text that is one run of digits holds a number exactly if the run spells one in at most 15 digits. */
  lemma RunHoldsPhoneIff(ds: Digits)
    requires ds != []
    ensures HoldsPhone(Spell(ds)) <==> |ds| <= 15 && SpellsNumber(ds)
  {
    hide HoldsPhone, SpellsNumber, Flat;
    var x := One(ds);
    assert x.AsText() == Spell(ds) && x.Groups() == [ds];
    WritingHoldsPhoneIff(x);
    FlatOfOne(ds);
    if start, end :| 0 <= start < end <= |x.Groups()| && IsPlainWindow(x.Groups()[start..end]) {
      assert x.Groups()[start..end] == [ds];
    }
    assert [ds][0..1] == [ds];
    assert IsPlainWindow([ds]) ==> IsPlainWindow(x.Groups()[0..1]);
  }

  lemma FlatOfOne(ds: Digits)
    ensures Flat([ds]) == ds
  {
    assert [ds][1..] == [];
  }

  /** Behind one zero a run is a number exactly if it has nine or ten digits and begins with one of the six. */
  lemma ZeroRunHoldsPhoneIff(n: Digits)
    requires n != [] && n[0] != 0 && !(|n| >= 2 && n[0] == 8 && n[1] == 4)
    ensures HoldsPhone(Spell([0] + n)) <==> 9 <= |n| <= 10 && n[0] in {2, 3, 5, 7, 8, 9}
  {
    hide HoldsPhone;
    RunHoldsPhoneIff([0] + n);
    if IsPlainNumber(n) {
      DailyIsSpelled([0] + n, n);
    }
    if SpellsNumber([0] + n) {
      var z, code, m :| IsPlainSpelling([0] + n, z, code, m);
      OneZeroIsOne(n, z, code, m);
    }
  }

  lemma OneZeroIsOne(n: Digits, z: nat, code: Digits, m: Digits)
    requires n != [] && n[0] != 0 && !(|n| >= 2 && n[0] == 8 && n[1] == 4)
    requires IsPlainSpelling([0] + n, z, code, m)
    ensures n == m
  {
    SpellingBegins([0] + n, z, code, m);
    assert ([0] + n)[1..] == n;
  }

  lemma SpellingBegins(ds: Digits, z: nat, code: Digits, m: Digits)
    requires IsPlainSpelling(ds, z, code, m)
    ensures |ds| >= 2 && (z == 0 ==> ds[0] == 8) && (z > 1 ==> ds[1] == 0)
    ensures z == 1 ==> ds[1..] == if code == [] then m else code + m
    ensures code != [] && z == 1 ==> |ds| >= 3 && ds[1] == 8 && ds[2] == 4
  {
    assert ds == Zeros(z) + (code + m);
    assert [] + m == m;
  }

  // ---- Long separators ----

  predicate HasNoDigit(t: Text) {
    forall i :: 0 <= i < |t| ==> !t[i].Digit?
  }

  predicate HasLetterOrNewline(t: Text) {
    exists i :: 0 <= i < |t| && (t[i].Letter? || t[i].Newline?)
  }

  lemma TwoRuns(a: Digits, sep: Text, b: Digits, s: Span)
    requires a != [] && b != [] && sep != [] && HasNoDigit(sep)
    requires IsMaximalRun(Spell(a) + sep + Spell(b), s)
    ensures var t := Spell(a) + sep + Spell(b);
            || (s == Span(0, |a|) && SpanDigits(t, s) == a)
            || (s == Span(|a| + |sep|, |t|) && SpanDigits(t, s) == b)
  {
    var t := Spell(a) + sep + Spell(b);
    var lo := |a| + |sep|;
    assert forall i :: 0 <= i < |a| ==> t[i] == Digit(a[i]);
    assert forall i :: |a| <= i < lo ==> t[i] == sep[i - |a|];
    assert forall i :: lo <= i < |t| ==> t[i] == Digit(b[i - lo]);
    assert IsMaximalRun(t, Span(0, |a|)) && IsMaximalRun(t, Span(lo, |t|));
    if s.lo < |a| {
      SameRun(t, Span(0, |a|), s);
    } else {
      assert t[s.lo].Digit?;
      SameRun(t, Span(lo, |t|), s);
    }
  }

  /** Behind more than three characters, a letter or a line end, a new number begins. */
  lemma LongSeparatorCuts(a: Digits, sep: Text, b: Digits)
    requires a != [] && b != [] && sep != [] && HasNoDigit(sep) && HasNoPlus(sep)
    requires |sep| > 3 || HasLetterOrNewline(sep)
    ensures HoldsPhone(Spell(a) + sep + Spell(b)) <==>
            (|a| <= 15 && SpellsNumber(a)) || (|b| <= 15 && SpellsNumber(b))
  {
    hide SpellsNumber, IsPhoneWindow, ChainGroups;
    var t := Spell(a) + sep + Spell(b);
    if HoldsPhone(t) {
      var v :| IsPhoneChain(t, v);
      OneRunOnly(a, sep, b, v);
      assert IsRunAt(t, v, 0);
      TwoRuns(a, sep, b, v[0]);
      SingleIsPlain(t, v);
    }
    if |a| <= 15 && SpellsNumber(a) {
      FirstRunIs(a, sep, Spell(b));
      RunIsFound(t, a, Span(0, |a|));
    }
    if |b| <= 15 && SpellsNumber(b) {
      LastRunIs(Spell(a), sep, b);
      RunIsFound(t, b, Span(|a| + |sep|, |t|));
    }
  }

  lemma FirstRunIs(a: Digits, sep: Text, rest: Text)
    requires a != [] && sep != [] && HasNoDigit(sep)
    ensures var t := Spell(a) + sep + rest; t[0..|a|] == Spell(a) && !IsDigitAt(t, -1) && !IsDigitAt(t, |a|)
  {
    assert (Spell(a) + sep + rest)[|a|] == sep[0];
  }

  lemma LastRunIs(before: Text, sep: Text, b: Digits)
    requires b != [] && sep != [] && HasNoDigit(sep)
    ensures var t, lo := before + sep + Spell(b), |before| + |sep|;
            t[lo..|t|] == Spell(b) && !IsDigitAt(t, lo - 1) && !IsDigitAt(t, |t|)
  {
    assert (before + sep + Spell(b))[|before| + |sep| - 1] == sep[|sep| - 1];
  }

  lemma NotJoined(a: Digits, sep: Text, b: Digits)
    requires |sep| > 3 || HasLetterOrNewline(sep)
    ensures !Joins(Spell(a) + sep + Spell(b), |a|, |a| + |sep|)
  {
    var t := Spell(a) + sep + Spell(b);
    if |sep| <= 3 {
      var i :| 0 <= i < |sep| && (sep[i].Letter? || sep[i].Newline?);
      assert t[|a| + i] == sep[i];
    }
  }

  lemma OneRunOnly(a: Digits, sep: Text, b: Digits, v: seq<Span>)
    requires a != [] && b != [] && sep != [] && HasNoDigit(sep)
    requires |sep| > 3 || HasLetterOrNewline(sep)
    requires IsChain(Spell(a) + sep + Spell(b), v)
    ensures |v| == 1
  {
    hide HasLetterOrNewline;
    var t := Spell(a) + sep + Spell(b);
    NotJoined(a, sep, b);
    if |v| > 1 {
      assert IsRunAt(t, v, 0) && IsRunAt(t, v, 1) && IsLinkAt(t, v, 1);
      TwoRuns(a, sep, b, v[0]);
      TwoRuns(a, sep, b, v[1]);
    }
  }

  lemma SingleIsPlain(t: Text, v: seq<Span>)
    requires IsPhoneChain(t, v) && |v| == 1 && (forall i :: 0 <= i < |t| ==> t[i] != Plus)
    ensures IsRunAt(t, v, 0) && |SpanDigits(t, v[0])| <= 15 && SpellsNumber(SpanDigits(t, v[0]))
  {
    hide SpellsNumber, IsPhoneWindow, Flat;
    assert IsRunAt(t, v, 0);
    var ds := SpanDigits(t, v[0]);
    assert ChainGroups(t, v) == [ds];
    WindowIsPlain([ds], PlusVouches(t, v));
    FlatOfOne(ds);
  }

  lemma RunIsFound(t: Text, ds: Digits, s: Span)
    requires s.lo < s.hi <= |t| && t[s.lo..s.hi] == Spell(ds) && !IsDigitAt(t, s.lo - 1) && !IsDigitAt(t, s.hi)
    requires |ds| <= 15 && SpellsNumber(ds)
    ensures HoldsPhone(t)
  {
    hide SpellsNumber, IsPhoneWindow, Flat;
    assert forall i :: s.lo <= i < s.hi ==> t[i] == t[s.lo..s.hi][i - s.lo];
    var w := [s];
    assert IsRunAt(t, w, 0);
    assert SpanDigits(t, s) == ds;
    assert ChainGroups(t, w) == [ds];
    FlatOfOne(ds);
    WindowIsPlain([ds], PlusVouches(t, w));
    assert IsPhoneChain(t, w);
  }

  // ---- A plus sign ----

  /** A plus among the last three characters, and no letter or line end behind it. */
  predicate EndsWithPlus(before: Text) {
    exists p :: 0 <= p < |before| && p >= |before| - 3 && IsBareFrom(before, p)
  }

  predicate IsBareFrom(before: Text, p: nat)
    requires p < |before|
  {
    before[p] == Plus && forall i :: p < i < |before| ==> !before[i].Letter? && !before[i].Newline?
  }

  /** No digit among the last four characters but with a letter or a line end behind it. */
  predicate EndsClear(before: Text) {
    forall j :: 0 <= j < |before| && j >= |before| - 4 && before[j].Digit? ==> HasLetterOrNewline(before[j + 1..])
  }

  /** Behind a plus any 9 to 15 digits are found, cut with at most one single digit, whatever they spell. */
  lemma SignedNumberIsFound(before: Text, x: Writing, after: Text)
    requires IsWritten(x) && HasOneSingleAtMost(x.Groups()) && 9 <= |Flat(x.Groups())| <= 15
    requires EndsWithPlus(before) && EndsClear(before) && !before[|before| - 1].Digit?
    requires after != [] ==> !after[0].Digit?
    ensures HoldsPhone(before + x.AsText() + after)
  {
    hide HasOneSingleAtMost, IsVietnameseNumber, IsPhoneWindow, ChainGroups, IsChain;
    WrittenIsValid(x);
    var t := before + x.AsText() + after;
    var w := WritingInContext(before, x, after);
    ChainIsNotEmpty(t, w);
    PlusVouchesFor(before, x.AsText() + after);
    assert before + (x.AsText() + after) == t;
    FirstIsDigit(t, w);
    WindowIsPlain(x.Groups(), true);
    assert IsPhoneChain(t, w);
  }

  lemma FirstIsDigit(t: Text, w: seq<Span>)
    requires IsChain(t, w)
    ensures IsDigitAt(t, w[0].lo)
  {
    assert IsRunAt(t, w, 0);
  }

  lemma PlusVouchesFor(before: Text, rest: Text)
    requires EndsWithPlus(before) && EndsClear(before) && !before[|before| - 1].Digit?
    ensures PlusBefore(before + rest, |before|)
    ensures IsDigitAt(before + rest, |before|) ==> StartsCluster(before + rest, |before|)
  {
    var t, lo := before + rest, |before|;
    var p :| 0 <= p < |before| && p >= |before| - 3 && IsBareFrom(before, p);
    assert IsPlusBefore(t, p, lo);
    forall hi: nat
      ensures !Joins(t, hi, lo)
    {
      if Joins(t, hi, lo) {
        NoJoinInto(before, rest, hi);
      }
    }
  }

  lemma NoJoinInto(before: Text, rest: Text, hi: nat)
    requires EndsClear(before)
    ensures !Joins(before + rest, hi, |before|)
  {
    var t := before + rest;
    if 1 <= hi < |before| <= hi + 3 && before[hi - 1].Digit? {
      var i :| 0 <= i < |before[hi..]| && (before[hi..][i].Letter? || before[hi..][i].Newline?);
      assert t[hi + i] == before[hi..][i];
    }
  }

  /** A plus, what follows it and one run of digits: exactly what is found of such a text. */
  lemma SignedRunHoldsPhoneIff(sep: Text, ds: Digits)
    requires ds != [] && HasNoDigit(sep) && HasNoPlus(sep)
    ensures HoldsPhone([Plus] + sep + Spell(ds)) <==>
            (|ds| <= 15 && SpellsNumber(ds)) || (9 <= |ds| <= 15 && |sep| <= 2 && !HasLetterOrNewline(sep))
  {
    hide SpellsNumber, IsPhoneWindow, ChainGroups, HasLetterOrNewline, StartsCluster, PlusBefore;
    var t := [Plus] + sep + Spell(ds);
    var s := Span(1 + |sep|, |t|);
    OnlyRun(sep, ds);
    var w := [s];
    assert IsRunAt(t, w, 0);
    OneGroup(t, s, ds);
    FlatOfOne(ds);
    SinglesOfOne(ds);
    SignVouches(sep, ds);
    WindowIsPlain([ds], PlusVouches(t, w));
    if HoldsPhone(t) {
      var v :| IsPhoneChain(t, v);
      OnlyChain(t, s, v);
      assert v == w;
    }
    if IsPhoneWindow([ds], PlusVouches(t, w)) {
      assert IsPhoneChain(t, w);
    }
  }

  lemma SinglesOfOne(ds: Digits)
    ensures HasOneSingleAtMost([ds])
  {}

  lemma OneGroup(t: Text, s: Span, ds: Digits)
    requires IsMaximalRun(t, s) && SpanDigits(t, s) == ds
    ensures IsChain(t, [s]) && ChainGroups(t, [s]) == [ds]
  {
    assert IsRunAt(t, [s], 0);
  }

  lemma OnlyRun(sep: Text, ds: Digits)
    requires ds != [] && HasNoDigit(sep)
    ensures var t, s := [Plus] + sep + Spell(ds), Span(1 + |sep|, 1 + |sep| + |ds|);
            && IsMaximalRun(t, s) && SpanDigits(t, s) == ds && (forall r :: IsMaximalRun(t, r) ==> r == s)
  {
    var t, lo := [Plus] + sep + Spell(ds), 1 + |sep|;
    var s := Span(lo, |t|);
    assert forall i :: 1 <= i < lo ==> t[i] == sep[i - 1];
    assert forall i :: lo <= i < |t| ==> t[i] == Digit(ds[i - lo]);
    assert IsMaximalRun(t, s);
    forall r | IsMaximalRun(t, r)
      ensures r == s
    {
      assert t[r.lo].Digit?;
      SameRun(t, s, r);
    }
  }

  lemma OnlyChain(t: Text, s: Span, v: seq<Span>)
    requires IsChain(t, v) && (forall r :: IsMaximalRun(t, r) ==> r == s)
    ensures v == [s]
  {
    assert IsRunAt(t, v, 0);
    if |v| > 1 {
      NextInChain(t, v, 1);
      assert false;
    }
  }

  lemma SignVouches(sep: Text, ds: Digits)
    requires ds != [] && HasNoDigit(sep) && HasNoPlus(sep)
    ensures var t, w := [Plus] + sep + Spell(ds), [Span(1 + |sep|, 1 + |sep| + |ds|)];
            PlusVouches(t, w) <==> |sep| <= 2 && !HasLetterOrNewline(sep)
  {
    hide PlusBefore, HasLetterOrNewline;
    SignBefore(sep, Spell(ds));
    SignStartsCluster(sep, ds);
  }

  lemma SignStartsCluster(sep: Text, ds: Digits)
    requires ds != [] && HasNoDigit(sep)
    ensures StartsCluster([Plus] + sep + Spell(ds), 1 + |sep|)
  {
    var t, lo := [Plus] + sep + Spell(ds), 1 + |sep|;
    assert forall i :: 1 <= i < lo ==> t[i] == sep[i - 1];
    assert t[lo] == Digit(ds[0]);
  }

  lemma SignBefore(sep: Text, rest: Text)
    requires HasNoPlus(sep)
    ensures PlusBefore([Plus] + sep + rest, 1 + |sep|) <==> |sep| <= 2 && !HasLetterOrNewline(sep)
  {
    var t, lo := [Plus] + sep + rest, 1 + |sep|;
    assert forall i :: 1 <= i < lo ==> t[i] == sep[i - 1];
    if PlusBefore(t, lo) {
      var p :| IsPlusBefore(t, p, lo);
      assert p == 0;
      assert forall i :: 0 <= i < |sep| ==> sep[i] == t[i + 1];
    }
    if |sep| <= 2 && !HasLetterOrNewline(sep) {
      assert IsPlusBefore(t, 0, lo);
    }
  }

  // ---- Long runs ----

  /** Nine digits in a row anywhere are a long run. */
  lemma LongRunIsNineDigits(t: Text)
    ensures HoldsLongDigitRun(t) <==> exists lo :: 0 <= lo && lo + 9 <= |t| && IsNineDigitsAt(t, lo)
  {
    if lo :| 0 <= lo < |t| && IsLongRunAt(t, lo) {
      assert IsNineDigitsAt(t, lo);
    }
    if lo :| 0 <= lo && lo + 9 <= |t| && IsNineDigitsAt(t, lo) {
      assert IsLongRunAt(t, lo);
    }
  }

  predicate IsNineDigitsAt(t: Text, lo: nat) {
    lo + 9 <= |t| && forall i :: lo <= i < lo + 9 ==> t[i].Digit?
  }
}
