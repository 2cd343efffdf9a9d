/**
 What the parsed tokens of a line keep of it (packages/shared-types/src/discussion-format.ts:60-137, 197-199):
 the rendering drops nothing but markers, the merged tokens are unique, bold is never nested, and every
 mention carries a well-formed code.
 */
module InlineRendering {
  import opened MarkupText
  import opened InlineMarkup

  // ---- The plain rendering ----

  function Shown(token: Token): Text {
    match token
    case TextToken(text, _, _) => text
    case MentionToken(code, _, _) => [At] + code
  }

  function Plain(tokens: seq<Token>): Text {
    if tokens == [] then [] else Plain(tokens[..|tokens| - 1]) + Shown(tokens[|tokens| - 1])
  }

  method PlainLine(tokens: seq<Token>) returns (plain: Text)
    ensures plain == Plain(tokens)
  {
    plain := [];
    for k := 0 to |tokens|
      invariant plain == Plain(tokens[..k])
    {
      assert tokens[..k + 1][..k] == tokens[..k];
      plain := plain + Shown(tokens[k]);
    }
    assert tokens[..|tokens|] == tokens;
  }

  /** `shown` is `source` with some of its markers, and nothing else, left out. */
  ghost predicate DropsOnlyMarkers(shown: Text, source: Text)
    decreases |source|
  {
    if source == [] then shown == []
    else
      var front, last := source[..|source| - 1], source[|source| - 1];
      || (IsMarker(last) && DropsOnlyMarkers(shown, front))
      || (shown != [] && shown[|shown| - 1] == last && DropsOnlyMarkers(shown[..|shown| - 1], front))
  }

  lemma {:induction false} DropsConcat(a: Text, x: Text, b: Text, y: Text)
    requires DropsOnlyMarkers(a, x) && DropsOnlyMarkers(b, y)
    ensures DropsOnlyMarkers(a + b, x + y)
    decreases |y|
  {
    if y == [] {
      assert a + b == a && x + y == x;
    } else {
      var front, last := y[..|y| - 1], y[|y| - 1];
      assert (x + y)[..|x + y| - 1] == x + front;
      if IsMarker(last) && DropsOnlyMarkers(b, front) {
        DropsConcat(a, x, b, front);
      } else {
        DropsConcat(a, x, b[..|b| - 1], front);
        assert (a + b)[..|a + b| - 1] == a + b[..|b| - 1];
      }
    }
  }

  lemma {:induction false} DropsNothing(t: Text)
    ensures DropsOnlyMarkers(t, t)
    decreases |t|
  {
    if t != [] {
      DropsNothing(t[..|t| - 1]);
    }
  }

  lemma DropsMarker(c: Ch)
    requires IsMarker(c)
    ensures DropsOnlyMarkers([], [c])
  {
    assert [c][..0] == [];
  }

  lemma PlainSnoc(tokens: seq<Token>, token: Token)
    ensures Plain(tokens + [token]) == Plain(tokens) + Shown(token)
  {
    assert (tokens + [token])[..|tokens|] == tokens;
  }

  lemma JoinText(a: Text, b: Text, c: Text)
    ensures (a + b) + c == a + (b + c)
  {}

  lemma SplitLast(a: seq<Token>, b: seq<Token>)
    requires b != []
    ensures a + b == (a + b[..|b| - 1]) + [b[|b| - 1]]
    ensures b == b[..|b| - 1] + [b[|b| - 1]]
  {}

  lemma {:induction false} PlainConcat(a: seq<Token>, b: seq<Token>)
    ensures Plain(a + b) == Plain(a) + Plain(b)
    decreases |b|
  {
    if b == [] {
      assert a + b == a;
      assert Plain(a) + [] == Plain(a);
    } else {
      var front, last := b[..|b| - 1], b[|b| - 1];
      SplitLast(a, b);
      PlainSnoc(a + front, last);
      PlainConcat(a, front);
      JoinText(Plain(a), Plain(front), Shown(last));
    }
  }

  lemma PlainOne(token: Token)
    ensures Plain([token]) == Shown(token)
  {
    assert [token][..0] == [];
  }

  lemma CharShown(t: Text, i: nat, bold: bool, italic: bool)
    requires i < |t|
    ensures Plain([TextToken([t[i]], bold, italic)]) == t[i..i + 1]
  {
    PlainOne(TextToken([t[i]], bold, italic));
    assert t[i..i + 1] == [t[i]];
  }

  lemma MentionShown(t: Text, i: nat, end: nat, bold: bool, italic: bool)
    requires i < end <= |t| && t[i] == At
    ensures Plain([MentionToken(t[i + 1..end], bold, italic)]) == t[i..end]
  {
    PlainOne(MentionToken(t[i + 1..end], bold, italic));
    assert t[i..end] == [At] + t[i + 1..end];
  }

  lemma {:induction false} PlainCharacters(text: Text, bold: bool, italic: bool)
    ensures Plain(Characters(text, bold, italic)) == text
    decreases |text|
  {
    if text != [] {
      var front, last := text[..|text| - 1], [text[|text| - 1]];
      assert text == front + last;
      PlainCharacters(front, bold, italic);
      PlainSnoc(Characters(front, bold, italic), TextToken(last, bold, italic));
    }
  }

  lemma {:induction false} PlainExpand(tokens: seq<Token>)
    ensures Plain(Expand(tokens)) == Plain(tokens)
    decreases |tokens|
  {
    if tokens != [] {
      var front, last := tokens[..|tokens| - 1], tokens[|tokens| - 1];
      PlainExpand(front);
      PlainConcat(Expand(front), Loosened(last));
      if last.TextToken? {
        PlainCharacters(last.text, last.bold, last.italic);
      } else {
        PlainOne(last);
      }
    }
  }

  lemma NothingShown()
    ensures Plain([]) == [] && DropsOnlyMarkers([], [])
  {}

  lemma {:induction false} PiecesDropOnlyMarkers(t: Text, i: nat, bold: bool, italic: bool)
    requires i <= |t|
    ensures DropsOnlyMarkers(Plain(Pieces(t, i, bold, italic)), t[i..])
    decreases |t|, 1 + |t| - i
  {
    hide PieceAt, PieceTokens, Plain, DropsOnlyMarkers;
    if i == |t| {
      NothingShown();
    } else {
      var next := PieceAt(t, i).Next(i);
      PieceDropsOnlyMarkers(t, i, bold, italic);
      PiecesDropOnlyMarkers(t, next, bold, italic);
      PlainConcat(PieceTokens(t, bold, italic, i), Pieces(t, next, bold, italic));
      DropsConcat(Plain(PieceTokens(t, bold, italic, i)), t[i..next], Plain(Pieces(t, next, bold, italic)), t[next..]);
      assert t[i..next] + t[next..] == t[i..];
    }
  }

  lemma {:induction false} PieceDropsOnlyMarkers(t: Text, i: nat, bold: bool, italic: bool)
    requires i < |t|
    ensures DropsOnlyMarkers(Plain(PieceTokens(t, bold, italic, i)), t[i..PieceAt(t, i).Next(i)])
    decreases |t|, 0
  {
    hide DropsOnlyMarkers, Plain, Pieces, PieceAt;
    match PieceAt(t, i)
    case BoldSpan(close) =>
      PiecesDropOnlyMarkers(t[i + 2..close], 0, true, italic);
      BoldSpanDrops(t, i, close, Plain(Pieces(t[i + 2..close], 0, true, italic)));
    case ItalicSpan(close) =>
      PiecesDropOnlyMarkers(t[i + 1..close], 0, bold, true);
      ItalicSpanDrops(t, i, close, Plain(Pieces(t[i + 1..close], 0, bold, true)));
    case Mention(end) =>
      MentionShown(t, i, end, bold, italic);
      DropsNothing(t[i..end]);
    case PlainChar =>
      CharShown(t, i, bold, italic);
      DropsNothing(t[i..i + 1]);
  }

  lemma BoldSpanDrops(t: Text, i: nat, close: nat, shown: Text)
    requires i + 2 < close && close + 2 <= |t| && StarPairAt(t, i) && StarPairAt(t, close)
    requires DropsOnlyMarkers(shown, t[i + 2..close][0..])
    ensures DropsOnlyMarkers(shown, t[i..close + 2])
  {
    var inner := t[i + 2..close];
    assert inner[0..] == inner;
    DropsStarPairs(shown, inner);
    assert t[i..close + 2] == [Star, Star] + inner + [Star, Star];
  }

  lemma ItalicSpanDrops(t: Text, i: nat, close: nat, shown: Text)
    requires i + 1 < close < |t| && t[i] == Underscore && t[close] == Underscore
    requires DropsOnlyMarkers(shown, t[i + 1..close][0..])
    ensures DropsOnlyMarkers(shown, t[i..close + 1])
  {
    var inner := t[i + 1..close];
    assert inner[0..] == inner;
    DropsAround(shown, inner, Underscore);
    assert t[i..close + 1] == [Underscore] + inner + [Underscore];
  }

  lemma DropsAround(shown: Text, inner: Text, marker: Ch)
    requires DropsOnlyMarkers(shown, inner) && IsMarker(marker)
    ensures DropsOnlyMarkers(shown, [marker] + inner + [marker])
  {
    DropsMarker(marker);
    DropsConcat([], [marker], shown, inner);
    assert [] + shown == shown;
    DropsConcat(shown, [marker] + inner, [], [marker]);
    assert shown + [] == shown;
  }

  lemma DropsStarPairs(shown: Text, inner: Text)
    requires DropsOnlyMarkers(shown, inner)
    ensures DropsOnlyMarkers(shown, [Star, Star] + inner + [Star, Star])
  {
    DropsAround(shown, inner, Star);
    DropsAround(shown, [Star] + inner + [Star], Star);
    assert [Star] + ([Star] + inner + [Star]) + [Star] == [Star, Star] + inner + [Star, Star];
  }

  /**
   The rendering of any merged tokens that the pieces of a line make up is that line with only markers
   left out.
   */
  lemma RenderingDropsOnlyMarkers(t: Text, bold: bool, italic: bool, tokens: seq<Token>)
    requires Expand(tokens) == Pieces(t, 0, bold, italic)
    ensures DropsOnlyMarkers(Plain(tokens), t)
  {
    PlainExpand(tokens);
    PiecesDropOnlyMarkers(t, 0, bold, italic);
    assert t[0..] == t;
  }

  // ---- What dropping only markers means ----

  function Strip(t: Text): Text {
    if t == [] then []
    else if IsMarker(t[|t| - 1]) then Strip(t[..|t| - 1])
    else Strip(t[..|t| - 1]) + [t[|t| - 1]]
  }

  /** Strictly growing positions of `source` at which the characters of `shown` stand. */
  ghost predicate IsEmbedding(shown: Text, source: Text, at: seq<nat>) {
    && |at| == |shown|
    && (forall k :: 0 <= k < |at| ==> IsEmbeddedAt(shown, source, at, k))
  }

  ghost predicate IsEmbeddedAt(shown: Text, source: Text, at: seq<nat>, k: nat)
    requires |at| == |shown| && k < |at|
  {
    at[k] < |source| && source[at[k]] == shown[k] && (k > 0 ==> at[k - 1] < at[k])
  }

  lemma {:induction false} DroppingMarkersMeans(shown: Text, source: Text) returns (at: seq<nat>)
    requires DropsOnlyMarkers(shown, source)
    ensures Strip(shown) == Strip(source)
    ensures IsEmbedding(shown, source, at)
    ensures NoMarkers(source) ==> shown == source
    decreases |source|
  {
    if source == [] {
      at := [];
    } else {
      var front, last := source[..|source| - 1], source[|source| - 1];
      if IsMarker(last) && DropsOnlyMarkers(shown, front) {
        at := DroppingMarkersMeans(shown, front);
        EmbeddingWidens(shown, front, last, at);
        assert front + [last] == source;
      } else {
        var before := DroppingMarkersMeans(shown[..|shown| - 1], front);
        at := before + [|front|];
        EmbeddingExtends(shown, source, before);
      }
    }
  }

  lemma EmbeddingWidens(shown: Text, front: Text, last: Ch, at: seq<nat>)
    requires IsEmbedding(shown, front, at)
    ensures IsEmbedding(shown, front + [last], at)
  {
    forall k | 0 <= k < |at|
      ensures IsEmbeddedAt(shown, front + [last], at, k)
    {
      assert IsEmbeddedAt(shown, front, at, k);
    }
  }

  lemma EmbeddingExtends(shown: Text, source: Text, before: seq<nat>)
    requires shown != [] && source != [] && shown[|shown| - 1] == source[|source| - 1]
    requires IsEmbedding(shown[..|shown| - 1], source[..|source| - 1], before)
    ensures IsEmbedding(shown, source, before + [|source| - 1])
  {
    var at := before + [|source| - 1];
    forall k | 0 <= k < |at|
      ensures IsEmbeddedAt(shown, source, at, k)
    {
      if k < |before| {
        assert IsEmbeddedAt(shown[..|shown| - 1], source[..|source| - 1], before, k);
      } else if k > 0 {
        assert IsEmbeddedAt(shown[..|shown| - 1], source[..|source| - 1], before, k - 1);
      }
    }
  }

  // ---- The merged tokens are unique ----

  function Pushed(tokens: seq<Token>, token: Token): seq<Token> {
    if tokens != [] && SameRun(tokens[|tokens| - 1], token) then
      var last := tokens[|tokens| - 1];
      tokens[..|tokens| - 1] + [TextToken(last.text + token.text, last.bold, last.italic)]
    else tokens + [token]
  }

  function Remerged(loose: seq<Token>): seq<Token> {
    if loose == [] then [] else Pushed(Remerged(loose[..|loose| - 1]), loose[|loose| - 1])
  }

  lemma RemergedSnoc(loose: seq<Token>, token: Token)
    ensures Remerged(loose + [token]) == Pushed(Remerged(loose), token)
  {
    assert (loose + [token])[..|loose|] == loose;
  }

  lemma {:induction false} RemergedCharacters(loose: seq<Token>, text: Text, bold: bool, italic: bool)
    requires text != []
    ensures Remerged(loose + Characters(text, bold, italic)) == Pushed(Remerged(loose), TextToken(text, bold, italic))
    decreases |text|
  {
    var front, last := text[..|text| - 1], text[|text| - 1];
    var one := TextToken([last], bold, italic);
    Reassociate(loose, Characters(front, bold, italic), [one]);
    RemergedSnoc(loose + Characters(front, bold, italic), one);
    assert text == front + [last];
    if front == [] {
      assert loose + [] == loose;
    } else {
      RemergedCharacters(loose, front, bold, italic);
      PushedTwice(Remerged(loose), front, [last], bold, italic);
    }
  }

  lemma PushedTwice(tokens: seq<Token>, x: Text, y: Text, bold: bool, italic: bool)
    ensures Pushed(Pushed(tokens, TextToken(x, bold, italic)), TextToken(y, bold, italic))
         == Pushed(tokens, TextToken(x + y, bold, italic))
  {
    if tokens != [] && SameRun(tokens[|tokens| - 1], TextToken(x, bold, italic)) {
      assert (tokens[|tokens| - 1].text + x) + y == tokens[|tokens| - 1].text + (x + y);
    }
  }

  lemma PushedApart(tokens: seq<Token>)
    requires IsMerged(tokens) && tokens != []
    ensures Pushed(tokens[..|tokens| - 1], tokens[|tokens| - 1]) == tokens
  {
    MergedPrefix(tokens);
  }

  lemma {:induction false} RemergedExpand(tokens: seq<Token>)
    requires IsMerged(tokens)
    ensures Remerged(Expand(tokens)) == tokens
    decreases |tokens|
  {
    if tokens != [] {
      var front, last := tokens[..|tokens| - 1], tokens[|tokens| - 1];
      MergedPrefix(tokens);
      RemergedExpand(front);
      PushedApart(tokens);
      if last.TextToken? {
        RemergedCharacters(Expand(front), last.text, last.bold, last.italic);
      } else {
        RemergedSnoc(Expand(front), last);
      }
    }
  }

  /** What the parser returns for a line is the only merged reading of its pieces. */
  lemma MergedReadingIsUnique(a: seq<Token>, b: seq<Token>)
    requires IsMerged(a) && IsMerged(b) && Expand(a) == Expand(b)
    ensures a == b
  {
    RemergedExpand(a);
    RemergedExpand(b);
  }

  /** Merging loose tokens does not change the rendering. */
  lemma {:induction false} RemergedPlain(loose: seq<Token>)
    ensures Plain(Remerged(loose)) == Plain(loose)
  {
    if loose != [] {
      RemergedPlain(loose[..|loose| - 1]);
      PushedPlain(Remerged(loose[..|loose| - 1]), loose[|loose| - 1]);
    }
  }

  /** Merging loose tokens keeps every mention and makes up none. */
  lemma {:induction false} RemergedMentions(loose: seq<Token>, mention: Token)
    requires mention.MentionToken?
    ensures mention in Remerged(loose) <==> mention in loose
  {
    if loose != [] {
      var front, last := loose[..|loose| - 1], loose[|loose| - 1];
      RemergedMentions(front, mention);
      PushedMention(Remerged(front), last, mention);
      InSnoc(loose, mention);
    }
  }

  lemma InSnoc(tokens: seq<Token>, token: Token)
    requires tokens != []
    ensures token in tokens <==> token in tokens[..|tokens| - 1] || token == tokens[|tokens| - 1]
  {}

  lemma PushedPlain(tokens: seq<Token>, token: Token)
    ensures Plain(Pushed(tokens, token)) == Plain(tokens) + Shown(token)
  {
    if tokens != [] && SameRun(tokens[|tokens| - 1], token) {
      var front, last := tokens[..|tokens| - 1], tokens[|tokens| - 1];
      PlainSnoc(front, TextToken(last.text + token.text, last.bold, last.italic));
      JoinText(Plain(front), last.text, token.text);
    } else {
      PlainSnoc(tokens, token);
    }
  }

  lemma PushedMention(tokens: seq<Token>, token: Token, mention: Token)
    requires mention.MentionToken?
    ensures mention in Pushed(tokens, token) <==> mention in tokens || mention == token
  {
    if tokens != [] && SameRun(tokens[|tokens| - 1], token) {
      assert tokens == tokens[..|tokens| - 1] + [tokens[|tokens| - 1]];
    }
  }
}
