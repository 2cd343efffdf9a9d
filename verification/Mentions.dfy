/**
 Who is mentioned in a message (packages/shared-types/src/discussion-format.ts:13-17, 40-44, 180-195):
 the first twenty different staff codes, lower-cased, and whether everybody is.
 */
module Mentions {
  import opened MarkupText
  import opened InlineMarkup
  import opened MarkupBlocks

  /** "all". */
  const MENTION_ALL: Text := [Alnum(97), Alnum(108), Alnum(108)]

  const MAX_MENTIONS: nat := 20

  // ---- The codes in the order in which a message mentions them ----

  function LineCodes(tokens: seq<Token>, lower: Text -> Text): seq<Text> {
    if tokens == [] then []
    else
      var front, last := LineCodes(tokens[..|tokens| - 1], lower), tokens[|tokens| - 1];
      if last.MentionToken? then front + [lower(last.code)] else front
  }

  function LinesCodes(lines: seq<seq<Token>>, lower: Text -> Text): seq<Text> {
    if lines == [] then [] else LinesCodes(lines[..|lines| - 1], lower) + LineCodes(lines[|lines| - 1], lower)
  }

  function BodyCodes(blocks: seq<Block>, lower: Text -> Text): seq<Text> {
    if blocks == [] then []
    else BodyCodes(blocks[..|blocks| - 1], lower) + LinesCodes(BlockLines(blocks[|blocks| - 1]), lower)
  }

  /** The different codes of staff, in the order of their first mention. */
  function StaffCodes(spoken: seq<Text>): seq<Text> {
    if spoken == [] then []
    else
      var front, last := StaffCodes(spoken[..|spoken| - 1]), spoken[|spoken| - 1];
      if last == MENTION_ALL || last in front then front else front + [last]
  }

  function Capped(codes: seq<Text>): seq<Text> {
    if |codes| <= MAX_MENTIONS then codes else codes[..MAX_MENTIONS]
  }

  lemma StaffCodesSnoc(spoken: seq<Text>, code: Text)
    ensures StaffCodes(spoken + [code])
         == if code == MENTION_ALL || code in StaffCodes(spoken) then StaffCodes(spoken)
            else StaffCodes(spoken) + [code]
  {
    assert (spoken + [code])[..|spoken|] == spoken;
  }

  /** Exactly the codes mentioned, none of them twice and none of them the word for everybody. */
  lemma {:induction false} StaffCodesMeans(spoken: seq<Text>, code: Text)
    ensures code in StaffCodes(spoken) <==> code in spoken && code != MENTION_ALL
    ensures forall j, k :: 0 <= j < k < |StaffCodes(spoken)| ==> StaffCodes(spoken)[j] != StaffCodes(spoken)[k]
  {
    if spoken != [] {
      var front, last := spoken[..|spoken| - 1], spoken[|spoken| - 1];
      StaffCodesMeans(front, code);
      assert code in spoken <==> code in front || code == last by {
        assert spoken == front + [last];
      }
    }
  }

  /** Saying more never reorders or drops what was said before. */
  lemma {:induction false} EarlierCodesComeFirst(spoken: seq<Text>, more: seq<Text>)
    ensures StaffCodes(spoken) <= StaffCodes(spoken + more)
    decreases |more|
  {
    if more == [] {
      assert spoken + more == spoken;
    } else {
      EarlierCodesComeFirst(spoken, more[..|more| - 1]);
      StaffCodesSnoc(spoken + more[..|more| - 1], more[|more| - 1]);
      assert spoken + more == (spoken + more[..|more| - 1]) + [more[|more| - 1]];
    }
  }

  // ---- The extraction ----

  ghost predicate IsExtract(all: bool, codes: seq<Text>, spoken: seq<Text>) {
    (all <==> MENTION_ALL in spoken) && codes == Capped(StaffCodes(spoken))
  }

  lemma NothingHeard()
    ensures IsExtract(false, [], [])
  {}

  method Hear(all: bool, codes: seq<Text>, code: Text, ghost spoken: seq<Text>) returns (all': bool, codes': seq<Text>)
    requires IsExtract(all, codes, spoken)
    ensures IsExtract(all', codes', spoken + [code])
  {
    all', codes' := all, codes;
    StaffCodesSnoc(spoken, code);
    if code == MENTION_ALL {
      all' := true;
    } else if |codes| < MAX_MENTIONS {
      if code !in codes {
        codes' := codes + [code];
      }
    }
  }

  method HearLine(all: bool, codes: seq<Text>, tokens: seq<Token>, lower: Text -> Text, ghost spoken: seq<Text>)
    returns (all': bool, codes': seq<Text>)
    requires IsExtract(all, codes, spoken)
    ensures IsExtract(all', codes', spoken + LineCodes(tokens, lower))
  {
    all', codes' := all, codes;
    assert spoken + [] == spoken;
    for k := 0 to |tokens|
      invariant IsExtract(all', codes', spoken + LineCodes(tokens[..k], lower))
    {
      assert tokens[..k + 1][..k] == tokens[..k];
      if tokens[k].MentionToken? {
        JoinCodes(spoken, LineCodes(tokens[..k], lower), [lower(tokens[k].code)]);
        all', codes' := Hear(all', codes', lower(tokens[k].code), spoken + LineCodes(tokens[..k], lower));
      }
    }
    assert tokens[..|tokens|] == tokens;
  }

  lemma JoinCodes(a: seq<Text>, b: seq<Text>, c: seq<Text>)
    ensures (a + b) + c == a + (b + c)
  {}

  method HearLines(all: bool, codes: seq<Text>, lines: seq<seq<Token>>, lower: Text -> Text, ghost spoken: seq<Text>)
    returns (all': bool, codes': seq<Text>)
    requires IsExtract(all, codes, spoken)
    ensures IsExtract(all', codes', spoken + LinesCodes(lines, lower))
  {
    all', codes' := all, codes;
    assert spoken + [] == spoken;
    for k := 0 to |lines|
      invariant IsExtract(all', codes', spoken + LinesCodes(lines[..k], lower))
    {
      assert lines[..k + 1][..k] == lines[..k];
      JoinCodes(spoken, LinesCodes(lines[..k], lower), LineCodes(lines[k], lower));
      all', codes' := HearLine(all', codes', lines[k], lower, spoken + LinesCodes(lines[..k], lower));
    }
    assert lines[..|lines|] == lines;
  }

  /** The first twenty different codes of the message, and whether it mentions everybody. */
  method ExtractMentions(body: Text, lower: Text -> Text) returns (all: bool, codes: seq<Text>)
    ensures IsExtract(all, codes, BodyCodes(BlocksOf(SplitLines(Normalized(body))), lower))
    ensures var spoken := BodyCodes(BlocksOf(SplitLines(Normalized(body))), lower);
            && (all <==> [Alnum('a' as nat), Alnum('l' as nat), Alnum('l' as nat)] in spoken)
            && codes <= StaffCodes(spoken) && |codes| <= 20 && (|codes| < 20 ==> codes == StaffCodes(spoken))
  {
    hide IsExtract, LinesCodes, BlocksOf, SplitLines, Normalized;
    all, codes := false, [];
    NothingHeard();
    var blocks := ParseDiscussionBody(body);
    for k := 0 to |blocks|
      invariant IsExtract(all, codes, BodyCodes(blocks[..k], lower))
    {
      assert blocks[..k + 1][..k] == blocks[..k];
      all, codes := HearLines(all, codes, BlockLines(blocks[k]), lower, BodyCodes(blocks[..k], lower));
    }
    assert blocks[..|blocks|] == blocks;
    ExtractMeans(all, codes, BodyCodes(blocks, lower));
  }

  lemma ExtractMeans(all: bool, codes: seq<Text>, spoken: seq<Text>)
    requires IsExtract(all, codes, spoken)
    ensures all <==> [Alnum('a' as nat), Alnum('l' as nat), Alnum('l' as nat)] in spoken
    ensures codes <= StaffCodes(spoken) && |codes| <= 20 && (|codes| < 20 ==> codes == StaffCodes(spoken))
  {}

  // ---- Every mention of every line counts ----

  lemma {:induction false} LineMentionCounts(tokens: seq<Token>, mention: Token, lower: Text -> Text)
    requires mention.MentionToken? && mention in tokens
    ensures lower(mention.code) in LineCodes(tokens, lower)
  {
    var front, last := tokens[..|tokens| - 1], tokens[|tokens| - 1];
    if mention != last {
      assert tokens == front + [last];
      LineMentionCounts(front, mention, lower);
    }
  }

  lemma {:induction false} LinesMentionCounts(lines: seq<seq<Token>>, line: seq<Token>, code: Text, lower: Text -> Text)
    requires line in lines && code in LineCodes(line, lower)
    ensures code in LinesCodes(lines, lower)
  {
    var front, last := lines[..|lines| - 1], lines[|lines| - 1];
    if line != last {
      assert lines == front + [last];
      LinesMentionCounts(front, line, code, lower);
    }
  }

  lemma {:induction false} BodyMentionCounts(blocks: seq<Block>, entry: Entry, code: Text, lower: Text -> Text)
    requires entry in Flattened(blocks) && code in LineCodes(entry.tokens, lower)
    ensures code in BodyCodes(blocks, lower)
  {
    var front, last := blocks[..|blocks| - 1], blocks[|blocks| - 1];
    if entry in Flattened(front) {
      BodyMentionCounts(front, entry, code, lower);
    } else {
      EntryIsALine(BlockKind(last), BlockLines(last), entry);
      LinesMentionCounts(BlockLines(last), entry.tokens, code, lower);
    }
  }

  lemma {:induction false} EntryIsALine(kind: Kind, lines: seq<seq<Token>>, entry: Entry)
    requires entry in Entries(kind, lines)
    ensures entry.tokens in lines
  {
    if entry in Entries(kind, lines[..|lines| - 1]) {
      EntryIsALine(kind, lines[..|lines| - 1], entry);
    }
  }
}
