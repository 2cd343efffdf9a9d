/**
 Splitting a message into lines and grouping the lines into paragraphs and lists
 (packages/shared-types/src/discussion-format.ts:36-38, 49-50, 139-178).
 The reference builds the blocks line by line from a rule about neighbouring lines; the parser carries
 the block it is filling.
 */
module MarkupBlocks {
  import opened Options
  import opened MarkupText
  import opened InlineMarkup
  import opened InlineRendering

  // ---- Lines ----

  /** `body.replace(/\r\n?/g, '\n')`: a carriage return becomes a line feed, and swallows one that follows it. */
  function Normalized(t: Text): Text {
    if t == [] then []
    else
      var front, last := t[..|t| - 1], t[|t| - 1];
      if last == LineFeed && front != [] && front[|front| - 1] == CarriageReturn then Normalized(front)
      else Normalized(front) + [if last == CarriageReturn then LineFeed else last]
  }

  /** `split('\n')`: always at least one line. */
  function SplitLines(t: Text): (lines: seq<Text>)
    ensures lines != []
  {
    if t == [] then [[]]
    else
      var front, last := SplitLines(t[..|t| - 1]), t[|t| - 1];
      if last == LineFeed then front + [[]]
      else front[..|front| - 1] + [front[|front| - 1] + [last]]
  }

  // ---- What a line is ----

  datatype Kind = NoBlock | InParagraph | InList(ordered: bool)

  function SpaceEnd(t: Text, i: nat): (e: nat)
    requires i <= |t|
    ensures i <= e <= |t| && (forall k :: i <= k < e ==> IsSpace(t[k]))
    ensures e < |t| ==> !IsSpace(t[e])
    decreases |t| - i
  {
    if i < |t| && IsSpace(t[i]) then SpaceEnd(t, i + 1) else i
  }

  function DigitEnd(t: Text, i: nat): (e: nat)
    requires i <= |t|
    ensures i <= e <= |t| && (forall k :: i <= k < e ==> t[k].AsciiDigit?)
    decreases |t| - i
  {
    if i < |t| && t[i].AsciiDigit? then DigitEnd(t, i + 1) else i
  }

  predicate IsBulletMark(c: Ch) {
    c.Dash? || c.Star? || c.Bullet?
  }

  /** No character that the dot of a regular expression refuses. */
  predicate IsOneLine(t: Text) {
    forall k :: 0 <= k < |t| ==> !t[k].LineFeed? && !t[k].CarriageReturn? && !t[k].LineSeparator?
  }

  /** Where the mark of a bullet line ends: `\s*[-*•]`. */
  function BulletMarkEnd(line: Text): (e: Option<nat>)
    ensures e.Some? ==> 0 < e.value <= |line|
  {
    var i := SpaceEnd(line, 0);
    if i < |line| && IsBulletMark(line[i]) then Some(i + 1) else None
  }

  /** Where the mark of a numbered line ends: `\s*\d{1,3}[.)]`. */
  function NumberMarkEnd(line: Text): (e: Option<nat>)
    ensures e.Some? ==> 0 < e.value <= |line|
  {
    var i := SpaceEnd(line, 0);
    var j := DigitEnd(line, i);
    if 1 <= j - i <= 3 && j < |line| && (line[j].Dot? || line[j].CloseParen?) then Some(j + 1) else None
  }

  /** The item text after a mark: at least one space, then the rest of one line. */
  function ItemStart(line: Text, mark: Option<nat>): (start: Option<nat>)
    requires mark.Some? ==> mark.value <= |line|
    ensures start.Some? ==> mark.Some? && mark.value < start.value <= |line|
  {
    if mark.Some? && SpaceEnd(line, mark.value) > mark.value && IsOneLine(line[SpaceEnd(line, mark.value)..]) then
      Some(SpaceEnd(line, mark.value))
    else None
  }

  predicate IsBlankLine(line: Text) {
    SpaceEnd(line, 0) == |line|
  }

  function KindOf(line: Text): Kind {
    if ItemStart(line, BulletMarkEnd(line)).Some? then InList(false)
    else if ItemStart(line, NumberMarkEnd(line)).Some? then InList(true)
    else if IsBlankLine(line) then NoBlock
    else InParagraph
  }

  /** What is parsed of a line: the item text of a list line, otherwise all of it. */
  function ContentStart(line: Text): (start: nat)
    ensures start <= |line|
  {
    var bullet := ItemStart(line, BulletMarkEnd(line));
    var number := ItemStart(line, NumberMarkEnd(line));
    if bullet.Some? then bullet.value else if number.Some? then number.value else 0
  }

  /** The one merged reading of the content of a line. */
  function TokensOf(line: Text): seq<Token> {
    Remerged(Pieces(line[ContentStart(line)..], 0, false, false))
  }

  method ParseLine(line: Text) returns (tokens: seq<Token>)
    ensures tokens == TokensOf(line)
  {
    tokens := ParseInline(line[ContentStart(line)..]);
    RemergedExpand(tokens);
  }

  /** What is shown of a line is its content with only markers left out. */
  lemma LineDropsOnlyMarkers(line: Text)
    ensures DropsOnlyMarkers(Plain(TokensOf(line)), line[ContentStart(line)..])
  {
    var content := line[ContentStart(line)..];
    RemergedPlain(Pieces(content, 0, false, false));
    PiecesDropOnlyMarkers(content, 0, false, false);
    assert content[0..] == content;
  }

  // ---- Blocks ----

  datatype Block =
    | Paragraph(lines: seq<seq<Token>>)
    | ListBlock(ordered: bool, items: seq<seq<Token>>)

  function BlockLines(block: Block): seq<seq<Token>> {
    if block.Paragraph? then block.lines else block.items
  }

  function BlockKind(block: Block): Kind {
    if block.Paragraph? then InParagraph else InList(block.ordered)
  }

  function NewBlock(kind: Kind, lines: seq<seq<Token>>): (block: Block)
    requires kind != NoBlock
    ensures BlockKind(block) == kind && BlockLines(block) == lines
  {
    if kind == InParagraph then Paragraph(lines) else ListBlock(kind.ordered, lines)
  }

  function Extended(block: Block, line: seq<Token>): (longer: Block)
    ensures BlockKind(longer) == BlockKind(block) && BlockLines(longer) == BlockLines(block) + [line]
  {
    NewBlock(BlockKind(block), BlockLines(block) + [line])
  }

  /** A line that is not blank begins a block unless the line above it is of the same kind. */
  predicate BeginsBlock(lines: seq<Text>, k: nat)
    requires k < |lines|
  {
    KindOf(lines[k]) != NoBlock && (k > 0 ==> KindOf(lines[k - 1]) != KindOf(lines[k]))
  }

  /** The blocks with a line added to the last one. */
  function Joined(blocks: seq<Block>, kind: Kind, line: seq<Token>): seq<Block>
    requires kind != NoBlock
  {
    if blocks == [] then [NewBlock(kind, [line])]
    else blocks[..|blocks| - 1] + [Extended(blocks[|blocks| - 1], line)]
  }

  function BlocksOf(lines: seq<Text>): seq<Block> {
    if lines == [] then []
    else
      var front, last := BlocksOf(lines[..|lines| - 1]), lines[|lines| - 1];
      if KindOf(last) == NoBlock then front
      else if BeginsBlock(lines, |lines| - 1) then front + [NewBlock(KindOf(last), [TokensOf(last)])]
      else Joined(front, KindOf(last), TokensOf(last))
  }

  ghost predicate EndsIn(blocks: seq<Block>, kind: Kind) {
    blocks != [] && BlockKind(blocks[|blocks| - 1]) == kind
  }

  /** A line that joins the block above it finds a block of its own kind there. */
  lemma {:induction false} LastBlockIsOfLastLine(lines: seq<Text>)
    requires lines != [] && KindOf(lines[|lines| - 1]) != NoBlock
    ensures EndsIn(BlocksOf(lines), KindOf(lines[|lines| - 1]))
  {
    hide KindOf, TokensOf, NewBlock, Extended, BlockKind;
    if !BeginsBlock(lines, |lines| - 1) {
      var front := lines[..|lines| - 1];
      assert front[|front| - 1] == lines[|lines| - 2];
      LastBlockIsOfLastLine(front);
    }
  }

  function Open(current: Option<Block>): seq<Block> {
    if current.Some? then [current.value] else []
  }

  /** The finished blocks and the open one are those of the lines so far. */
  ghost predicate IsGrouping(blocks: seq<Block>, current: Option<Block>, lines: seq<Text>) {
    && blocks + Open(current) == BlocksOf(lines)
    && (current.Some? <==> lines != [] && KindOf(lines[|lines| - 1]) != NoBlock)
    && (current.Some? ==> BlockKind(current.value) == KindOf(lines[|lines| - 1]))
  }

  method Close(blocks: seq<Block>, current: Option<Block>) returns (closed: seq<Block>)
    ensures closed == blocks + Open(current)
  {
    closed := blocks;
    if current.Some? {
      closed := closed + [current.value];
    }
  }

  method AddLine(blocks: seq<Block>, current: Option<Block>, line: Text, ghost before: seq<Text>)
    returns (blocks': seq<Block>, current': Option<Block>)
    requires IsGrouping(blocks, current, before)
    ensures IsGrouping(blocks', current', before + [line])
  {
    assert (before + [line])[..|before|] == before;
    blocks', current' := blocks, current;
    var kind := KindOf(line);
    if kind == NoBlock {
      blocks' := Close(blocks, current);
      current' := None;
      return;
    }
    var tokens := ParseLine(line);
    if current.None? || BlockKind(current.value) != kind {
      blocks' := Close(blocks, current);
      current' := Some(NewBlock(kind, [tokens]));
    } else {
      current' := Some(Extended(current.value, tokens));
      assert (blocks + [current.value])[..|blocks|] == blocks;
    }
  }

  method ParseDiscussionBody(body: Text) returns (blocks: seq<Block>)
    ensures blocks == BlocksOf(SplitLines(Normalized(body)))
  {
    blocks := [];
    var current: Option<Block> := None;
    var lines := SplitLines(Normalized(body));
    for k := 0 to |lines|
      invariant IsGrouping(blocks, current, lines[..k])
    {
      assert lines[..k + 1] == lines[..k] + [lines[k]];
      blocks, current := AddLine(blocks, current, lines[k], lines[..k]);
    }
    assert lines[..|lines|] == lines;
    blocks := Close(blocks, current);
  }

  // ---- The blocks hold exactly the lines that are not blank ----

  datatype Entry = Entry(kind: Kind, tokens: seq<Token>)

  function Entries(kind: Kind, lines: seq<seq<Token>>): seq<Entry> {
    if lines == [] then [] else Entries(kind, lines[..|lines| - 1]) + [Entry(kind, lines[|lines| - 1])]
  }

  /** The lines of all blocks in order, each with the kind of its block. */
  function Flattened(blocks: seq<Block>): seq<Entry> {
    if blocks == [] then []
    else
      var last := blocks[|blocks| - 1];
      Flattened(blocks[..|blocks| - 1]) + Entries(BlockKind(last), BlockLines(last))
  }

  function NonBlank(lines: seq<Text>): seq<Entry> {
    if lines == [] then []
    else
      var front, last := NonBlank(lines[..|lines| - 1]), lines[|lines| - 1];
      if KindOf(last) == NoBlock then front else front + [Entry(KindOf(last), TokensOf(last))]
  }

  ghost predicate NoneEmpty(blocks: seq<Block>) {
    forall k :: 0 <= k < |blocks| ==> BlockLines(blocks[k]) != []
  }

  function BlockStarts(lines: seq<Text>): nat {
    if lines == [] then 0
    else BlockStarts(lines[..|lines| - 1]) + if BeginsBlock(lines, |lines| - 1) then 1 else 0
  }

  lemma FlattenedSnoc(blocks: seq<Block>, block: Block)
    ensures Flattened(blocks + [block]) == Flattened(blocks) + Entries(BlockKind(block), BlockLines(block))
  {
    assert (blocks + [block])[..|blocks|] == blocks;
  }

  lemma EntriesSnoc(kind: Kind, lines: seq<seq<Token>>, line: seq<Token>)
    ensures Entries(kind, lines + [line]) == Entries(kind, lines) + [Entry(kind, line)]
  {
    assert (lines + [line])[..|lines|] == lines;
  }

  lemma NewBlockFlattened(blocks: seq<Block>, kind: Kind, line: seq<Token>)
    requires kind != NoBlock
    ensures Flattened(blocks + [NewBlock(kind, [line])]) == Flattened(blocks) + [Entry(kind, line)]
  {
    FlattenedSnoc(blocks, NewBlock(kind, [line]));
    EntriesSnoc(kind, [], line);
    assert [] + [line] == [line] && [] + [Entry(kind, line)] == [Entry(kind, line)];
  }

  lemma ExtendedFlattened(blocks: seq<Block>, line: seq<Token>)
    requires blocks != []
    ensures Flattened(blocks[..|blocks| - 1] + [Extended(blocks[|blocks| - 1], line)])
         == Flattened(blocks) + [Entry(BlockKind(blocks[|blocks| - 1]), line)]
  {
    var front, last := blocks[..|blocks| - 1], blocks[|blocks| - 1];
    FlattenedSnoc(front, Extended(last, line));
    EntriesSnoc(BlockKind(last), BlockLines(last), line);
  }

  lemma BlankLineHeld(blocks: seq<Block>, lines: seq<Text>)
    requires lines != [] && KindOf(lines[|lines| - 1]) == NoBlock
    requires HoldTheLines(blocks, lines[..|lines| - 1])
    ensures HoldTheLines(blocks, lines)
  {}

  lemma FirstLineHeld(blocks: seq<Block>, lines: seq<Text>)
    requires lines != [] && BeginsBlock(lines, |lines| - 1)
    requires HoldTheLines(blocks, lines[..|lines| - 1])
    ensures HoldTheLines(blocks + [NewBlock(KindOf(lines[|lines| - 1]), [TokensOf(lines[|lines| - 1])])], lines)
  {
    NewBlockFlattened(blocks, KindOf(lines[|lines| - 1]), TokensOf(lines[|lines| - 1]));
  }

  lemma NextLineHeld(blocks: seq<Block>, lines: seq<Text>)
    requires lines != [] && KindOf(lines[|lines| - 1]) != NoBlock && !BeginsBlock(lines, |lines| - 1)
    requires EndsIn(blocks, KindOf(lines[|lines| - 1]))
    requires HoldTheLines(blocks, lines[..|lines| - 1])
    ensures HoldTheLines(Joined(blocks, KindOf(lines[|lines| - 1]), TokensOf(lines[|lines| - 1])), lines)
  {
    hide KindOf, TokensOf, BlockKind, NewBlock, Extended, BlocksOf;
    ExtendedFlattened(blocks, TokensOf(lines[|lines| - 1]));
  }

  ghost predicate HoldTheLines(blocks: seq<Block>, lines: seq<Text>) {
    Flattened(blocks) == NonBlank(lines) && NoneEmpty(blocks) && |blocks| == BlockStarts(lines)
  }

  lemma NoLineHeld()
    ensures HoldTheLines([], [])
  {}

  lemma {:induction false} BlocksHold(lines: seq<Text>)
    ensures HoldTheLines(BlocksOf(lines), lines)
  {
    hide KindOf, TokensOf, HoldTheLines;
    if lines == [] {
      NoLineHeld();
    } else {
      var front, last := lines[..|lines| - 1], lines[|lines| - 1];
      BlocksHold(front);
      if KindOf(last) == NoBlock {
        BlankLineHeld(BlocksOf(front), lines);
      } else if BeginsBlock(lines, |lines| - 1) {
        FirstLineHeld(BlocksOf(front), lines);
      } else {
        LastBlockIsOfLastLine(front);
        NextLineHeld(BlocksOf(front), lines);
      }
    }
  }

  /** Nothing is lost, reordered or moved to a block of another kind, and no block is empty. */
  lemma BlocksHoldTheLines(lines: seq<Text>)
    ensures Flattened(BlocksOf(lines)) == NonBlank(lines)
    ensures NoneEmpty(BlocksOf(lines))
    ensures |BlocksOf(lines)| == BlockStarts(lines)
  {
    BlocksHold(lines);
  }

  /**
   What one more line does: a blank one nothing, one of the kind of the line above it goes to the last block, and any
   other begins a block of its own.
   */
  lemma LineJoinsOrBegins(lines: seq<Text>, line: Text)
    ensures var before, after := BlocksOf(lines), BlocksOf(lines + [line]);
            if KindOf(line) == NoBlock then after == before
            else if lines != [] && KindOf(lines[|lines| - 1]) == KindOf(line) then
              && |after| == |before| > 0 && after[..|after| - 1] == before[..|before| - 1]
              && BlockKind(after[|after| - 1]) == BlockKind(before[|before| - 1]) == KindOf(line)
              && BlockLines(after[|after| - 1]) == BlockLines(before[|before| - 1]) + [TokensOf(line)]
            else
              && |after| == |before| + 1 && after[..|before|] == before
              && BlockKind(after[|before|]) == KindOf(line) && BlockLines(after[|before|]) == [TokensOf(line)]
  {
    hide KindOf, TokensOf, NewBlock, Extended, BlockKind, BlockLines;
    var longer := lines + [line];
    assert longer[..|lines|] == lines && longer[|lines|] == line;
    assert lines != [] ==> longer[|lines| - 1] == lines[|lines| - 1];
    if lines != [] && KindOf(lines[|lines| - 1]) != NoBlock {
      LastBlockIsOfLastLine(lines);
    }
  }
}
