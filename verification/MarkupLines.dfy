/**
 What a line is, and where lines end (packages/shared-types/src/discussion-format.ts:49-50, 143-168): list lines
 as their regular expressions have them, and the three ways to end a line.
 */
module MarkupLines {
  import opened Options
  import opened MarkupText
  import opened MarkupBlocks
  import opened ComposedMentions

  // ---- List lines ----

  /** Spaces up to `i`, and a gap of at least one space from `j` to `e`. */
  predicate IsSpaced(line: Text, i: nat, j: nat, e: nat) {
    && i <= j < e <= |line|
    && (forall k :: 0 <= k < i ==> IsSpace(line[k]))
    && (forall k :: j <= k < e ==> IsSpace(line[k]))
  }

  /** The rest of the line has no character that ends a line. */
  predicate IsRest(line: Text, e: nat) {
    forall k :: e <= k < |line| ==> line[k] != LineFeed && line[k] != CarriageReturn && !line[k].LineSeparator?
  }

  /** `^\s*[-*•]\s+(.*)$` with the item text from `e` on. */
  predicate MatchesBullet(line: Text, i: nat, e: nat) {
    && IsSpaced(line, i, i + 1, e) && IsRest(line, e)
    && (line[i] == Dash || line[i] == Star || line[i] == Bullet)
  }

  /** `^\s*\d{1,3}[.)]\s+(.*)$` with the digits from `i` to `j`. */
  predicate MatchesNumber(line: Text, i: nat, j: nat, e: nat) {
    && i < j <= i + 3 && IsSpaced(line, i, j + 1, e) && IsRest(line, e)
    && (forall k :: i <= k < j ==> line[k].AsciiDigit?) && (line[j] == Dot || line[j] == CloseParen)
  }

  ghost predicate IsBulletLine(line: Text) {
    exists i: nat, e: nat :: MatchesBullet(line, i, e)
  }

  ghost predicate IsNumberLine(line: Text) {
    exists i: nat, j: nat, e: nat :: MatchesNumber(line, i, j, e)
  }

  lemma {:induction false} SpacesEnd(line: Text, from: nat, i: nat)
    requires from <= i <= |line| && (forall k :: from <= k < i ==> IsSpace(line[k]))
    requires i < |line| ==> !IsSpace(line[i])
    ensures SpaceEnd(line, from) == i
    decreases i - from
  {
    if from < i {
      SpacesEnd(line, from + 1, i);
    }
  }

  lemma {:induction false} DigitsEnd(line: Text, from: nat, i: nat)
    requires from <= i <= |line| && (forall k :: from <= k < i ==> line[k].AsciiDigit?)
    requires i < |line| ==> !line[i].AsciiDigit?
    ensures DigitEnd(line, from) == i
    decreases i - from
  {
    if from < i {
      DigitsEnd(line, from + 1, i);
    }
  }

  lemma {:induction false} SpacesReach(line: Text, from: nat, e: nat)
    requires from <= e <= |line| && forall k :: from <= k < e ==> IsSpace(line[k])
    ensures SpaceEnd(line, from) >= e
    decreases e - from
  {
    if from < e {
      SpacesReach(line, from + 1, e);
    }
  }

  lemma RestIsOneLine(line: Text, e: nat)
    requires e <= |line|
    ensures IsOneLine(line[e..]) <==> IsRest(line, e)
  {
    if IsOneLine(line[e..]) {
      forall k | e <= k < |line|
        ensures line[k] != LineFeed && line[k] != CarriageReturn && !line[k].LineSeparator?
      {
        assert line[e..][k - e] == line[k];
      }
    }
  }

  /** After its mark a line is an item exactly when a gap and the rest of one line follow. */
  lemma ItemIs(line: Text, mark: nat)
    requires mark <= |line|
    ensures ItemStart(line, Some(mark)).Some? <==> exists e: nat :: IsSpaced(line, 0, mark, e) && IsRest(line, e)
    ensures ItemStart(line, Some(mark)).Some? ==>
              && IsSpaced(line, 0, mark, ItemStart(line, Some(mark)).value)
              && IsRest(line, ItemStart(line, Some(mark)).value)
              && (ItemStart(line, Some(mark)).value < |line| ==> !IsSpace(line[ItemStart(line, Some(mark)).value]))
  {
    hide IsOneLine, IsRest;
    var end := SpaceEnd(line, mark);
    RestIsOneLine(line, end);
    if e: nat :| IsSpaced(line, 0, mark, e) && IsRest(line, e) {
      SpacesReach(line, mark, e);
      RestShrinks(line, e, end);
    }
    assert end > mark ==> IsSpaced(line, 0, mark, end);
  }

  lemma RestShrinks(line: Text, e: nat, end: nat)
    requires IsRest(line, e) && e <= end
    ensures IsRest(line, end)
  {}

  lemma BulletMarkIs(line: Text, i: nat)
    requires i < |line| && (forall k :: 0 <= k < i ==> IsSpace(line[k]))
    requires line[i] == Dash || line[i] == Star || line[i] == Bullet
    ensures BulletMarkEnd(line) == Some(i + 1)
  {
    SpacesEnd(line, 0, i);
  }

  lemma NumberMarkIs(line: Text, i: nat, j: nat)
    requires i < j <= i + 3 && j < |line| && (forall k :: 0 <= k < i ==> IsSpace(line[k]))
    requires (forall k :: i <= k < j ==> line[k].AsciiDigit?) && (line[j] == Dot || line[j] == CloseParen)
    ensures NumberMarkEnd(line) == Some(j + 1)
  {
    SpacesEnd(line, 0, i);
    DigitsEnd(line, i, j);
  }

  lemma BulletItem(line: Text)
    ensures ItemStart(line, BulletMarkEnd(line)).Some? <==> IsBulletLine(line)
    ensures IsBulletLine(line) ==> exists i: nat :: MatchesBullet(line, i, ItemStart(line, BulletMarkEnd(line)).value)
  {
    hide IsRest, ItemStart;
    if i: nat, e: nat :| MatchesBullet(line, i, e) {
      BulletMarkIs(line, i);
      assert IsSpaced(line, 0, i + 1, e);
      ItemIs(line, i + 1);
      assert MatchesBullet(line, i, ItemStart(line, Some(i + 1)).value);
    }
    var mark := BulletMarkEnd(line);
    if mark.Some? {
      ItemIs(line, mark.value);
      if ItemStart(line, mark).Some? {
        assert MatchesBullet(line, mark.value - 1, ItemStart(line, mark).value);
      }
    } else {
      NoMarkNoItem(line);
    }
  }

  lemma NoMarkNoItem(line: Text)
    ensures ItemStart(line, None) == None
  {}

  lemma NumberItem(line: Text)
    ensures ItemStart(line, NumberMarkEnd(line)).Some? <==> IsNumberLine(line)
    ensures IsNumberLine(line) ==>
              exists i: nat, j: nat :: MatchesNumber(line, i, j, ItemStart(line, NumberMarkEnd(line)).value)
  {
    hide IsRest, ItemStart;
    if i: nat, j: nat, e: nat :| MatchesNumber(line, i, j, e) {
      NumberMarkIs(line, i, j);
      assert IsSpaced(line, 0, j + 1, e);
      ItemIs(line, j + 1);
      assert MatchesNumber(line, i, j, ItemStart(line, Some(j + 1)).value);
    }
    var mark := NumberMarkEnd(line);
    if mark.Some? {
      ItemIs(line, mark.value);
      if ItemStart(line, mark).Some? {
        assert MatchesNumber(line, SpaceEnd(line, 0), mark.value - 1, ItemStart(line, mark).value);
      }
    } else {
      NoMarkNoItem(line);
    }
  }

  ghost predicate IsBlank(line: Text) {
    forall k :: 0 <= k < |line| ==> IsSpace(line[k])
  }

  lemma BlankIs(line: Text)
    ensures IsBlankLine(line) <==> IsBlank(line)
  {
    if IsBlank(line) {
      SpacesEnd(line, 0, |line|);
    }
  }

  /** The kind of a line by its regular expressions: bullets come before numbers, and both before blank lines. */
  lemma KindOfLine(line: Text)
    ensures KindOf(line) == InList(false) <==> IsBulletLine(line)
    ensures KindOf(line) == InList(true) <==> !IsBulletLine(line) && IsNumberLine(line)
    ensures KindOf(line) == NoBlock <==> !IsBulletLine(line) && !IsNumberLine(line) && IsBlank(line)
    ensures KindOf(line) == InParagraph <==> !IsBulletLine(line) && !IsNumberLine(line) && !IsBlank(line)
  {
    hide ItemStart, IsBulletLine, IsNumberLine, IsBlank, IsBlankLine;
    BulletItem(line);
    NumberItem(line);
    BlankIs(line);
  }

  /** What is parsed of a line: the text of its item, which begins with no space, or else the whole line. */
  lemma ContentOfLine(line: Text)
    ensures IsBulletLine(line) ==> exists i: nat :: MatchesBullet(line, i, ContentStart(line))
    ensures !IsBulletLine(line) && IsNumberLine(line) ==>
              exists i: nat, j: nat :: MatchesNumber(line, i, j, ContentStart(line))
    ensures !IsBulletLine(line) && !IsNumberLine(line) ==> ContentStart(line) == 0
    ensures (IsBulletLine(line) || IsNumberLine(line)) && ContentStart(line) < |line| ==>
              !IsSpace(line[ContentStart(line)])
  {
    hide ItemStart, IsBulletLine, IsNumberLine, MatchesBullet, MatchesNumber;
    BulletItem(line);
    NumberItem(line);
    var bullet, number := ItemStart(line, BulletMarkEnd(line)), ItemStart(line, NumberMarkEnd(line));
    if bullet.Some? {
      assert ContentStart(line) == bullet.value;
      var i: nat :| MatchesBullet(line, i, bullet.value);
      ItemIs(line, BulletMarkEnd(line).value);
    } else if number.Some? {
      assert ContentStart(line) == number.value;
      var i: nat, j: nat :| MatchesNumber(line, i, j, number.value);
      ItemIs(line, NumberMarkEnd(line).value);
    }
  }

  // ---- Line ends ----

  /** The lines with the same end between any two of them. */
  function JoinedWith(lines: seq<Text>, end: Text): Text
    requires lines != []
  {
    if |lines| == 1 then lines[0] else JoinedWith(lines[..|lines| - 1], end) + end + lines[|lines| - 1]
  }

  lemma NormalizedEnd(x: Text, end: Text)
    requires end == [LineFeed] || end == [CarriageReturn] || end == [CarriageReturn, LineFeed]
    requires end[0] == LineFeed && x != [] ==> x[|x| - 1] != CarriageReturn
    ensures Normalized(x + end) == Normalized(x) + [LineFeed]
  {
    assert (x + [end[0]])[..|x|] == x;
    if |end| == 2 {
      assert (x + end)[..|x| + 1] == x + [CarriageReturn];
    }
  }

  lemma EndsAsLine(x: Text, end: Text, line: Text)
    requires HasNoLineEnd(line) && end != [] && end[|end| - 1] != CarriageReturn
    requires x != [] ==> x[|x| - 1] != CarriageReturn
    ensures |x + end + line| > 0 && (x + end + line)[|x + end + line| - 1] != CarriageReturn
  {
    var t := x + end + line;
    assert t[|t| - 1] == if line == [] then end[|end| - 1] else line[|line| - 1];
  }

  /** A line feed, a carriage return, or both: each is one line end. */
  lemma {:induction false} EndsNormalized(lines: seq<Text>, end: Text)
    requires lines != [] && forall k :: 0 <= k < |lines| ==> HasNoLineEnd(lines[k])
    requires end == [LineFeed] || end == [CarriageReturn] || end == [CarriageReturn, LineFeed]
    ensures Normalized(JoinedWith(lines, end)) == JoinedWith(lines, [LineFeed])
    ensures end[|end| - 1] == LineFeed && JoinedWith(lines, end) != [] ==>
              JoinedWith(lines, end)[|JoinedWith(lines, end)| - 1] != CarriageReturn
    decreases |lines|
  {
    hide Normalized;
    if |lines| == 1 {
      NormalizedKeeps([], lines[0]);
      NothingNormalized();
      assert [] + lines[0] == lines[0];
    } else {
      var front, last := lines[..|lines| - 1], lines[|lines| - 1];
      EndsNormalized(front, end);
      NormalizedEnd(JoinedWith(front, end), end);
      NormalizedKeeps(JoinedWith(front, end) + end, last);
      if end[|end| - 1] == LineFeed {
        EndsAsLine(JoinedWith(front, end), end, last);
      }
    }
  }

  lemma {:induction false} SplitBehind(x: Text, line: Text)
    requires LineFeed !in line
    ensures SplitLines(x + line)
         == SplitLines(x)[..|SplitLines(x)| - 1] + [SplitLines(x)[|SplitLines(x)| - 1] + line]
    decreases |line|
  {
    if line == [] {
      assert x + line == x && SplitLines(x)[|SplitLines(x)| - 1] + [] == SplitLines(x)[|SplitLines(x)| - 1];
    } else {
      var front, last := line[..|line| - 1], line[|line| - 1];
      assert line == front + [last];
      SplitBehind(x, front);
      assert (x + line)[..|x + line| - 1] == x + front;
      var before := SplitLines(x)[|SplitLines(x)| - 1];
      assert (before + front) + [last] == before + line;
    }
  }

  lemma {:induction false} SplitsAsJoined(lines: seq<Text>)
    requires lines != [] && forall k :: 0 <= k < |lines| ==> HasNoLineEnd(lines[k])
    ensures SplitLines(JoinedWith(lines, [LineFeed])) == lines
    decreases |lines|
  {
    hide SplitLines;
    if |lines| == 1 {
      SplitBehind([], lines[0]);
      NothingSplit();
      assert [] + lines[0] == lines[0];
    } else {
      var front, last := lines[..|lines| - 1], lines[|lines| - 1];
      var x := JoinedWith(front, [LineFeed]);
      SplitsAsJoined(front);
      SplitAtEnd(x);
      SplitBehind(x + [LineFeed], last);
      assert [] + last == last;
    }
  }

  lemma NothingSplit()
    ensures SplitLines([]) == [[]]
  {}

  lemma SplitAtEnd(x: Text)
    ensures SplitLines(x + [LineFeed]) == SplitLines(x) + [[]]
  {
    assert (x + [LineFeed])[..|x|] == x;
  }

  /** The lines of a message are the ones that were written, whichever way they end. */
  lemma LinesAreReadBack(lines: seq<Text>, end: Text)
    requires lines != [] && forall k :: 0 <= k < |lines| ==> HasNoLineEnd(lines[k])
    requires end == [LineFeed] || end == [CarriageReturn] || end == [CarriageReturn, LineFeed]
    ensures SplitLines(Normalized(JoinedWith(lines, end))) == lines
  {
    hide SplitLines, Normalized, JoinedWith;
    EndsNormalized(lines, end);
    SplitsAsJoined(lines);
  }
}
