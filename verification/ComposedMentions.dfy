/**
 A mention that the editor inserts is one that the parser reads back
 (apps/web/src/lib/discussion-composer.ts:82-105, packages/shared-types/src/discussion-format.ts:121-195).
 Followed from the inserted text through line ends, list prefixes and the pieces of the line.
 */
module ComposedMentions {
  import opened Options
  import opened MarkupText
  import opened InlineMarkup
  import opened InlineRendering
  import opened InlineSpans
  import opened MentionSurvival
  import opened MarkupBlocks
  import opened Mentions
  import opened DiscussionComposer

  // ---- Through the normalisation of line ends ----

  predicate HasNoLineEnd(t: Text) {
    forall k :: 0 <= k < |t| ==> t[k] != LineFeed && t[k] != CarriageReturn
  }

  function NormalizedChar(c: Ch): Ch {
    if c == CarriageReturn then LineFeed else c
  }

  lemma NormalizedSnoc(x: Text, c: Ch)
    ensures Normalized(x + [c]) == Normalized(x) + [NormalizedChar(c)]
         || (c == LineFeed && x != [] && x[|x| - 1] == CarriageReturn && Normalized(x + [c]) == Normalized(x))
  {
    assert (x + [c])[..|x|] == x;
  }

  lemma {:induction false} NormalizedExtends(x: Text, y: Text)
    ensures Normalized(x) <= Normalized(x + y)
    decreases |y|
  {
    hide Normalized;
    if y == [] {
      assert x + y == x;
    } else {
      var front, last := y[..|y| - 1], y[|y| - 1];
      NormalizedExtends(x, front);
      NormalizedSnoc(x + front, last);
      assert x + y == (x + front) + [last];
    }
  }

  lemma {:induction false} NormalizedKeeps(x: Text, m: Text)
    requires HasNoLineEnd(m)
    ensures Normalized(x + m) == Normalized(x) + m
    decreases |m|
  {
    hide Normalized;
    if m == [] {
      assert x + m == x && Normalized(x) + m == Normalized(x);
    } else {
      var front, last := m[..|m| - 1], m[|m| - 1];
      NormalizedKeeps(x, front);
      NormalizedSnoc(x + front, last);
      assert x + m == (x + front) + [last];
      assert Normalized(x) + m == (Normalized(x) + front) + [last];
    }
  }

  /** The last character stands, or is the line feed of a line end. */
  lemma {:induction false} NormalizedLast(x: Text)
    requires x != []
    ensures Normalized(x) != []
    ensures Normalized(x)[|Normalized(x)| - 1] == NormalizedChar(x[|x| - 1])
  {
    var front := x[..|x| - 1];
    if front != [] {
      NormalizedLast(front);
    }
  }

  // ---- Through the split into lines ----

  function LastLine(t: Text): Text {
    SplitLines(t)[|SplitLines(t)| - 1]
  }

  lemma SplitSnoc(x: Text, c: Ch)
    ensures SplitLines(x + [c])
         == if c == LineFeed then SplitLines(x) + [[]]
            else SplitLines(x)[..|SplitLines(x)| - 1] + [LastLine(x) + [c]]
  {
    assert (x + [c])[..|x|] == x;
  }

  /** The lines go on where the shorter text's last line stopped. */
  ghost predicate Continues(longer: seq<Text>, lines: seq<Text>) {
    && 0 < |lines| <= |longer|
    && lines[|lines| - 1] <= longer[|lines| - 1]
  }

  lemma ContinuesItself(lines: seq<Text>)
    requires lines != []
    ensures Continues(lines, lines)
  {}

  lemma ContinuesSnoc(x: Text, lines: seq<Text>, c: Ch)
    requires Continues(SplitLines(x), lines)
    ensures Continues(SplitLines(x + [c]), lines)
  {
    hide SplitLines;
    SplitSnoc(x, c);
  }

  lemma {:induction false} SplitExtends(x: Text, y: Text)
    ensures Continues(SplitLines(x + y), SplitLines(x))
    decreases |y|
  {
    hide Continues, SplitLines;
    if y == [] {
      assert x + y == x;
      ContinuesItself(SplitLines(x));
    } else {
      SplitExtends(x, y[..|y| - 1]);
      ContinuesSnoc(x + y[..|y| - 1], SplitLines(x), y[|y| - 1]);
      assert x + y == (x + y[..|y| - 1]) + [y[|y| - 1]];
    }
  }

  lemma LastLineSnoc(x: Text, c: Ch)
    ensures LastLine(x + [c]) == if c == LineFeed then [] else LastLine(x) + [c]
  {
    hide SplitLines;
    SplitSnoc(x, c);
  }

  lemma {:induction false} SplitKeeps(x: Text, m: Text)
    requires HasNoLineEnd(m)
    ensures LastLine(x + m) == LastLine(x) + m && |SplitLines(x + m)| == |SplitLines(x)|
    decreases |m|
  {
    hide LastLine, SplitLines;
    if m == [] {
      assert x + m == x && LastLine(x) + m == LastLine(x);
    } else {
      var front, last := m[..|m| - 1], m[|m| - 1];
      SplitKeeps(x, front);
      LastLineSnoc(x + front, last);
      SplitSnoc(x + front, last);
      assert x + m == (x + front) + [last];
      assert LastLine(x) + m == (LastLine(x) + front) + [last];
    }
  }

  ghost predicate EndsWithLine(t: Text, line: Text) {
    && |line| <= |t| && t[|t| - |line|..] == line
    && (|line| < |t| ==> t[|t| - |line| - 1] == LineFeed)
  }

  lemma NoText()
    ensures LastLine([]) == []
  {}

  /** The last line is what stands after the last line feed. */
  lemma {:induction false} LastLineIsSuffix(t: Text)
    ensures EndsWithLine(t, LastLine(t))
  {
    hide LastLine;
    if t == [] {
      NoText();
    } else {
      var front, last := t[..|t| - 1], t[|t| - 1];
      LastLineIsSuffix(front);
      assert t == front + [last];
      LastLineSnoc(front, last);
    }
  }

  // ---- What cannot open a span stays so ----

  lemma SafePrefix(t: Text)
    requires t != [] && OpensNoSpan(t)
    ensures OpensNoSpan(t[..|t| - 1])
  {
    var front := t[..|t| - 1];
    forall k | 0 <= k < |front|
      ensures SafeAt(front, k)
    {
      assert SafeAt(t, k);
    }
  }

  /** Two neighbouring characters that do not open a span together. */
  predicate SafePair(a: Ch, b: Ch) {
    !(a == Star && b == Star) && (b == Underscore ==> IsWordChar(a))
  }

  lemma SafeSnoc(t: Text, c: Ch)
    requires OpensNoSpan(t) && (if t == [] then c != Underscore else SafePair(t[|t| - 1], c))
    ensures OpensNoSpan(t + [c])
  {
    forall k | 0 <= k < |t + [c]|
      ensures SafeAt(t + [c], k)
    {
      assert k < |t| ==> SafeAt(t, k);
    }
  }

  lemma SafeLast(t: Text)
    requires t != [] && OpensNoSpan(t)
    ensures if |t| == 1 then t[0] != Underscore else SafePair(t[|t| - 2], t[|t| - 1])
  {
    assert SafeAt(t, |t| - 1);
    assert |t| > 1 ==> SafeAt(t, |t| - 2);
  }

  lemma {:induction false} NormalizedIsSafe(t: Text)
    requires OpensNoSpan(t)
    ensures OpensNoSpan(Normalized(t))
  {
    if t != [] {
      var front, last := t[..|t| - 1], t[|t| - 1];
      SafePrefix(t);
      NormalizedIsSafe(front);
      SafeLast(t);
      if front != [] {
        NormalizedLast(front);
      }
      SafeSnoc(Normalized(front), NormalizedChar(last));
    }
  }

  // ---- Through the prefix of a list line ----

  /** The list prefix ends before any at-sign, and after a space. */
  lemma ContentBeginsBefore(line: Text, at: nat)
    requires at < |line| && line[at] == At
    ensures KindOf(line) != NoBlock
    ensures ContentStart(line) <= at && !WordCharAt(line, ContentStart(line) - 1)
  {
    ItemBeginsBefore(line, BulletMarkEnd(line), at);
    ItemBeginsBefore(line, NumberMarkEnd(line), at);
    assert SpaceEnd(line, 0) <= at;
  }

  lemma ItemBeginsBefore(line: Text, mark: Option<nat>, at: nat)
    requires at < |line| && line[at] == At
    requires mark == BulletMarkEnd(line) || mark == NumberMarkEnd(line)
    ensures ItemStart(line, mark).Some? ==>
              ItemStart(line, mark).value <= at && !WordCharAt(line, ItemStart(line, mark).value - 1)
  {
    assert SpaceEnd(line, 0) <= at;
    assert mark.Some? ==> mark.value <= at;
    if mark.Some? {
      var e := SpaceEnd(line, mark.value);
      assert e <= at;
      assert e > mark.value ==> IsSpace(line[e - 1]);
    }
  }

  // ---- Through the pieces of the line ----

  lemma {:induction false} RunStopsAt(t: Text, i: nat, at: nat)
    requires i <= at < |t| && !IsCodeChar(t[at])
    ensures CodeRunEnd(t, i) <= at
    decreases at - i
  {
    if i < at {
      RunStopsAt(t, i + 1, at);
    }
  }

  lemma PieceStopsAt(t: Text, i: nat, at: nat)
    requires i < at < |t| && t[at] == At && SafeAt(t, i)
    ensures i < PieceAt(t, i).Next(i) <= at
  {
    RunStopsAt(t, i + 1, at);
  }

  ghost predicate OpensNoSpanBefore(t: Text, at: nat) {
    forall k :: 0 <= k < |t| && k < at ==> SafeAt(t, k)
  }

  lemma {:induction false} MentionIsReached(t: Text, i: nat, at: nat, code: Text)
    requires i <= at < at + 1 + |code| < |t| && OpensNoSpanBefore(t, at)
    requires IsStaffCode(code) && t[at] == At && MayMention(t, at)
    requires t[at + 1..at + 1 + |code|] == code && !IsCodeChar(t[at + 1 + |code|])
    ensures MentionToken(code, false, false) in Pieces(t, i, false, false)
    decreases at - i
  {
    if i == at {
      CodeIsReadBack(t, at + 1, code);
      assert PieceTokens(t, false, false, at)[0] == MentionToken(code, false, false);
    } else {
      assert SafeAt(t, i);
      PieceStopsAt(t, i, at);
      MentionIsReached(t, PieceAt(t, i).Next(i), at, code);
    }
  }

  // ---- Together ----

  /** A line in which the code stands after an at-sign that may begin a mention, with a space behind it. */
  ghost predicate HoldsMention(line: Text, at: nat, code: Text) {
    && at + 1 + |code| < |line| && line[at] == At && MayMention(line, at)
    && line[at + 1..at + 1 + |code|] == code && line[at + 1 + |code|] == SPACE
  }

  lemma SafeBehind(line: Text, start: nat, at: nat)
    requires start <= at < |line| && !WordCharAt(line, start - 1) && OpensNoSpanBefore(line, at)
    ensures OpensNoSpanBefore(line[start..], at - start)
  {
    forall k | 0 <= k < |line[start..]| && k < at - start
      ensures SafeAt(line[start..], k)
    {
      assert SafeAt(line, start + k);
    }
  }

  lemma MentionBehind(line: Text, start: nat, at: nat, code: Text)
    requires HoldsMention(line, at, code) && start <= at
    ensures HoldsMention(line[start..], at - start, code)
  {
    SliceOfRest(line, start, at + 1, at + 1 + |code|);
  }

  lemma SliceOfRest(t: Text, start: nat, lo: nat, hi: nat)
    requires start <= lo <= hi <= |t|
    ensures t[start..][lo - start..hi - start] == t[lo..hi]
  {}

  lemma LineReadsMention(line: Text, at: nat, code: Text)
    requires IsStaffCode(code) && HoldsMention(line, at, code) && OpensNoSpanBefore(line, at)
    ensures MentionToken(code, false, false) in TokensOf(line)
  {
    hide ContentStart, KindOf, Pieces, Remerged, OpensNoSpanBefore;
    ContentBeginsBefore(line, at);
    var start := ContentStart(line);
    SafeBehind(line, start, at);
    MentionBehind(line, start, at, code);
    MentionIsReached(line[start..], 0, at - start, code);
    RemergedMentions(Pieces(line[start..], 0, false, false), MentionToken(code, false, false));
  }

  lemma LineMentions(line: Text, at: nat, code: Text)
    requires IsStaffCode(code) && HoldsMention(line, at, code) && LetsThrough(line, at, code)
    ensures KindOf(line) != NoBlock && MentionsCode(TokensOf(line), code)
  {
    hide ContentStart, KindOf, Pieces, Remerged, LetsThrough, IsStaffCode;
    ContentBeginsBefore(line, at);
    var start := ContentStart(line);
    var content := line[start..];
    MentionBehind(line, start, at, code);
    InnerLetsThrough(line, start, |line|, at, code);
    assert line[start..|line|] == content;
    CodeIsMentioned(content, 0, at - start, code, false, false);
    var tokens := Pieces(content, 0, false, false);
    var k :| 0 <= k < |tokens| && IsMentionOf(tokens[k], code);
    RemergedMentions(tokens, tokens[k]);
    var m :| 0 <= m < |TokensOf(line)| && TokensOf(line)[m] == tokens[k];
    assert IsMentionOf(TokensOf(line)[m], code);
  }

  // ---- From the inserted text to its line ----

  /** The text up to the inserted mention leaves a last line that may be followed by one. */
  lemma LastLineMayMention(x: Text)
    requires MayMention(x, |x|)
    ensures MayMention(LastLine(Normalized(x)), |LastLine(Normalized(x))|)
  {
    hide Normalized, LastLine;
    if x != [] {
      NormalizedLast(x);
    } else {
      NothingNormalized();
    }
    LastLineIsSuffix(Normalized(x));
  }

  lemma NothingNormalized()
    ensures Normalized([]) == []
  {}

  /** If no line opens a span, the last does not. */
  lemma LastLineOpensNoSpan(x: Text)
    requires OpensNoSpan(x)
    ensures OpensNoSpan(LastLine(Normalized(x)))
  {
    hide Normalized, LastLine, OpensNoSpan;
    NormalizedIsSafe(x);
    LastLineIsSuffix(Normalized(x));
    SuffixOpensNoSpan(Normalized(x), LastLine(Normalized(x)));
  }

  lemma SuffixOpensNoSpan(t: Text, line: Text)
    requires OpensNoSpan(t) && EndsWithLine(t, line)
    ensures OpensNoSpan(line)
  {
    var lo := |t| - |line|;
    forall k | 0 <= k < |line|
      ensures SafeAt(line, k)
    {
      assert SafeAt(t, lo + k);
    }
  }

  /** The line, counted from zero, on which the text ends. */
  function LineIndex(x: Text): nat {
    |SplitLines(Normalized(x))| - 1
  }

  /** The line of the inserted mention: the last line before it, the mention, and whatever follows. */
  lemma InsertedLine(x: Text, m: Text, z: Text)
    requires HasNoLineEnd(m)
    ensures LineIndex(x) < |SplitLines(Normalized(x + m + z))|
    ensures LastLine(Normalized(x)) + m <= SplitLines(Normalized(x + m + z))[LineIndex(x)]
  {
    hide Normalized, HasNoLineEnd, SplitLines;
    NormalizedKeeps(x, m);
    NormalizedExtends(x + m, z);
    SplitKeeps(Normalized(x), m);
    var shorter, whole := Normalized(x + m), Normalized(x + m + z);
    assert whole == shorter + whole[|shorter|..];
    SplitExtends(shorter, whole[|shorter|..]);
  }

  lemma LineWithMention(p: Text, code: Text, line: Text)
    requires MayMention(p, |p|) && p + ([At] + code + [SPACE]) <= line
    ensures HoldsMention(line, |p|, code)
    ensures OpensNoSpan(p) ==> OpensNoSpanBefore(line, |p|)
    ensures LetsThrough(p, |p|, code) ==> LetsThrough(line, |p|, code)
  {
    hide ClosesInside;
    var start := p + ([At] + code + [SPACE]);
    assert line[..|start|] == start;
    assert start[|p| + 1..|p| + 1 + |code|] == code && start[|p|] == At && start[|p| + 1 + |code|] == SPACE;
    assert line[|p| + 1..|p| + 1 + |code|] == code;
    assert line[..|p|] == p;
    forall k | 0 <= k < |line| && k < |p|
      ensures SafeAt(p, k) ==> SafeAt(line, k)
      ensures OpensItalicAt(line, k) ==> OpensItalicAt(p, k)
    {
      assert line[k] == line[..|p|][k];
    }
  }

  /** The last line before a mention lets its code through. */
  ghost predicate LineLetsThrough(before: Text, code: Text) {
    LetsThrough(LastLine(Normalized(before)), |LastLine(Normalized(before))|, code)
  }

  /**
   The line on which the mention is inserted begins as before and goes on with it, and the code is read there:
   for every code without an underscore before a dot or a dash, and for all if no italic span opens before it.
   If no span at all does, the mention is neither bold nor italic.
   */
  lemma InsertedMentionIsRead(value: Text, caret: nat, code: Text)
    requires caret <= |value| && ActiveMentionQuery(value, caret).Some? && IsStaffCode(code)
    requires LineLetsThrough(value[..ActiveMentionQuery(value, caret).value.start], code)
    ensures var start := ActiveMentionQuery(value, caret).value.start;
            var before, lines := value[..start], SplitLines(Normalized(InsertMention(value, start, caret, code).value));
            && LineIndex(before) < |lines|
            && var line := lines[LineIndex(before)];
               && LastLine(Normalized(before)) + ([At] + code + [SPACE]) <= line
               && KindOf(line) != NoBlock && MentionsCode(TokensOf(line), code)
               && (OpensNoSpan(LastLine(Normalized(before))) ==> MentionToken(code, false, false) in TokensOf(line))
  {
    hide ActiveMentionQuery, Normalized, SplitLines, KindOf, TokensOf, OpensNoSpan, IsStaffCode, LastLine;
    hide LetsThrough, MentionsCode;
    var start := ActiveMentionQuery(value, caret).value.start;
    QueryMayMention(value, caret);
    CodeHasNoLineEnd(code);
    var x, m, z := value[..start], [At] + code + [SPACE], value[caret..];
    LastLineMayMention(x);
    InsertedLine(x, m, z);
    var line := SplitLines(Normalized(x + m + z))[LineIndex(x)];
    LineWithMention(LastLine(Normalized(x)), code, line);
    LineMentions(line, |LastLine(Normalized(x))|, code);
    if OpensNoSpan(LastLine(Normalized(x))) {
      LineReadsMention(line, |LastLine(Normalized(x))|, code);
    }
  }

  lemma QueryMayMention(value: Text, caret: nat)
    requires caret <= |value| && ActiveMentionQuery(value, caret).Some?
    ensures var start := ActiveMentionQuery(value, caret).value.start;
            start < |value| && MayMention(value[..start], start)
  {}

  lemma CodeHasNoLineEnd(code: Text)
    requires IsStaffCode(code)
    ensures HasNoLineEnd([At] + code + [SPACE])
  {
    var m := [At] + code + [SPACE];
    forall k | 0 <= k < |m|
      ensures m[k] != LineFeed && m[k] != CarriageReturn
    {
      assert 0 < k <= |code| ==> m[k] == code[k - 1] && IsCodeChar(code[k - 1]);
    }
  }

  lemma {:induction false} LineIsAnEntry(lines: seq<Text>, line: Text)
    requires line in lines && KindOf(line) != NoBlock
    ensures Entry(KindOf(line), TokensOf(line)) in NonBlank(lines)
  {
    hide KindOf, TokensOf;
    var front, last := lines[..|lines| - 1], lines[|lines| - 1];
    if line != last {
      assert lines == front + [last];
      LineIsAnEntry(front, line);
    }
  }

  /**
   Where the editor offers a mention, the code it inserts is among those the message mentions, if the line lets
   it through.
   */
  lemma InsertedMentionIsSpoken(value: Text, caret: nat, code: Text, lower: Text -> Text)
    requires caret <= |value| && ActiveMentionQuery(value, caret).Some? && IsStaffCode(code)
    requires LineLetsThrough(value[..ActiveMentionQuery(value, caret).value.start], code)
    ensures var body := InsertMention(value, ActiveMentionQuery(value, caret).value.start, caret, code).value;
            lower(code) in BodyCodes(BlocksOf(SplitLines(Normalized(body))), lower)
  {
    hide ActiveMentionQuery, Normalized, SplitLines, KindOf, TokensOf, OpensNoSpan, IsStaffCode;
    hide InsertMention, LastLine, LineLetsThrough;
    InsertedMentionIsRead(value, caret, code);
    var start := ActiveMentionQuery(value, caret).value.start;
    var body := InsertMention(value, start, caret, code).value;
    var lines := SplitLines(Normalized(body));
    var line := lines[LineIndex(value[..start])];
    LineIsAnEntry(lines, line);
    BlocksHoldTheLines(lines);
    var k :| 0 <= k < |TokensOf(line)| && IsMentionOf(TokensOf(line)[k], code);
    LineMentionCounts(TokensOf(line), TokensOf(line)[k], lower);
    BodyMentionCounts(BlocksOf(lines), Entry(KindOf(line), TokensOf(line)), lower(code), lower);
  }

  /**
   So it is extracted: as the word for everybody if it is that, and otherwise among the codes, unless twenty
   others come before it.
   */
  lemma InsertedMentionIsHeard(
    value: Text, caret: nat, code: Text, lower: Text -> Text, all: bool, codes: seq<Text>)
    requires caret <= |value| && ActiveMentionQuery(value, caret).Some? && IsStaffCode(code)
    requires LineLetsThrough(value[..ActiveMentionQuery(value, caret).value.start], code)
    requires var body := InsertMention(value, ActiveMentionQuery(value, caret).value.start, caret, code).value;
             IsExtract(all, codes, BodyCodes(BlocksOf(SplitLines(Normalized(body))), lower))
    ensures if lower(code) == MENTION_ALL then all else lower(code) in codes || |codes| == MAX_MENTIONS
  {
    hide ActiveMentionQuery, Normalized, SplitLines, LineLetsThrough, IsStaffCode;
    hide InsertMention, BlocksOf, BodyCodes, StaffCodes;
    InsertedMentionIsSpoken(value, caret, code, lower);
    var body := InsertMention(value, ActiveMentionQuery(value, caret).value.start, caret, code).value;
    StaffCodesMeans(BodyCodes(BlocksOf(SplitLines(Normalized(body))), lower), lower(code));
  }

  /** Where no span opens before it, the line lets every code through. */
  lemma OpensNoSpanLetsThrough(before: Text, code: Text)
    requires OpensNoSpan(LastLine(Normalized(before)))
    ensures LineLetsThrough(before, code)
  {
    hide Normalized, LastLine, ClosesInside;
    var line := LastLine(Normalized(before));
    forall k | 0 <= k < |line|
      ensures !OpensItalicAt(line, k)
    {
      assert SafeAt(line, k);
    }
  }

  /** A text without stars and underscores opens no span, and so lets every code through. */
  lemma NoMarkersOpenNoSpan(t: Text, code: Text)
    requires NoMarkers(t)
    ensures OpensNoSpan(t) && OpensNoSpan(LastLine(Normalized(t))) && LineLetsThrough(t, code)
  {
    hide LastLine, Normalized, LetsThrough;
    forall k | 0 <= k < |t|
      ensures SafeAt(t, k)
    {
      assert !IsMarker(t[k]);
    }
    LastLineOpensNoSpan(t);
    OpensNoSpanLetsThrough(t, code);
  }
}
