/**
 Parsing one line into text and mention tokens (packages/shared-types/src/discussion-format.ts:19-34, 60-137).
 The reference reads the line as pieces, one character, mention or span at a time; the parser gathers
 text in a buffer, merges neighbours and recurses into spans.
 */
module InlineMarkup {
  import opened MarkupText

  datatype Token =
    | TextToken(text: Text, bold: bool, italic: bool)
    | MentionToken(code: Text, bold: bool, italic: bool)

  // ---- What may start at a position ----

  predicate StarPairAt(t: Text, i: int) {
    0 <= i && i + 1 < |t| && t[i] == Star && t[i + 1] == Star
  }

  /** `text.indexOf('**', from)`. */
  function BoldClose(t: Text, from: nat): (c: int)
    ensures c == -1 || (from <= c && StarPairAt(t, c))
    decreases |t| - from
  {
    if from + 1 >= |t| then -1
    else if StarPairAt(t, from) then from
    else BoldClose(t, from + 1)
  }

  predicate ItalicCloseAt(t: Text, j: int) {
    0 <= j < |t| && t[j] == Underscore && !WordCharAt(t, j + 1)
  }

  function ItalicClose(t: Text, from: nat): (c: int)
    ensures c == -1 || (from <= c && ItalicCloseAt(t, c))
    decreases |t| - from
  {
    if from >= |t| then -1
    else if ItalicCloseAt(t, from) then from
    else ItalicClose(t, from + 1)
  }

  method FindItalicClose(text: Text, from: nat) returns (close: int)
    ensures close == ItalicClose(text, from)
  {
    var j: nat := from;
    while j < |text|
      invariant ItalicClose(text, j) == ItalicClose(text, from)
    {
      if text[j] == Underscore && !WordCharAt(text, j + 1) {
        return j;
      }
      j := j + 1;
    }
    return -1;
  }

  function CodeRunEnd(t: Text, i: nat): (e: nat)
    requires i <= |t|
    ensures i <= e <= |t|
    decreases |t| - i
  {
    if i < |t| && IsCodeChar(t[i]) then CodeRunEnd(t, i + 1) else i
  }

  /** The end without trailing punctuation. */
  function TrimmedEnd(t: Text, i: nat, e: nat): (e': nat)
    requires i <= e <= |t|
    ensures i <= e' <= e && (e' > i ==> !IsCodePunct(t[e' - 1]))
    decreases e
  {
    if e > i && IsCodePunct(t[e - 1]) then TrimmedEnd(t, i, e - 1) else e
  }

  /** Where the code that begins at `i` ends; `i` itself when there is none. */
  function CodeEnd(t: Text, i: nat): (e: nat)
    requires i <= |t|
    ensures i <= e <= |t|
  {
    if i < |t| && IsCodeHead(t[i]) then TrimmedEnd(t, i, CodeRunEnd(t, i)) else i
  }

  /** An at-sign here is not the inside of a word, of an address or of another at-sign. */
  predicate MayMention(t: Text, i: nat) {
    i > 0 && i <= |t| ==> !IsWordChar(t[i - 1]) && t[i - 1] != At && t[i - 1] != Dot
  }

  datatype Piece = BoldSpan(close: nat) | ItalicSpan(close: nat) | Mention(end: nat) | PlainChar {
    /** Where the reading of the line goes on after this piece at `i`. */
    function Next(i: nat): nat {
      match this
      case BoldSpan(close) => close + 2
      case ItalicSpan(close) => close + 1
      case Mention(end) => end
      case PlainChar => i + 1
    }
  }

  function PieceAt(t: Text, i: nat): (p: Piece)
    requires i < |t|
    ensures p.BoldSpan? ==> i + 2 < p.close && p.close + 2 <= |t| && StarPairAt(t, i) && StarPairAt(t, p.close)
    ensures p.ItalicSpan? ==> i + 1 < p.close < |t| && t[i] == Underscore && t[p.close] == Underscore
    ensures p.Mention? ==> i + 1 < p.end <= |t| && t[i] == At
  {
    var bold := if StarPairAt(t, i) then BoldClose(t, i + 2) else -1;
    var italic := if t[i] == Underscore && !WordCharAt(t, i - 1) then ItalicClose(t, i + 1) else -1;
    if bold != -1 && HasSolidEdges(t[i + 2..bold]) then BoldSpan(bold)
    else if italic != -1 && HasSolidEdges(t[i + 1..italic]) then ItalicSpan(italic)
    else if t[i] == At && MayMention(t, i) && CodeEnd(t, i + 1) > i + 1 then Mention(CodeEnd(t, i + 1))
    else PlainChar
  }

  /** The line from `i` on, as unmerged tokens. */
  function Pieces(t: Text, i: nat, bold: bool, italic: bool): (tokens: seq<Token>)
    requires i <= |t|
    decreases |t|, 1 + |t| - i
  {
    if i == |t| then []
    else PieceTokens(t, bold, italic, i) + Pieces(t, PieceAt(t, i).Next(i), bold, italic)
  }

  /** What one piece makes of itself. */
  function PieceTokens(t: Text, bold: bool, italic: bool, i: nat): seq<Token>
    requires i < |t|
    decreases |t|, 0
  {
    match PieceAt(t, i)
    case BoldSpan(close) => Pieces(t[i + 2..close], 0, true, italic)
    case ItalicSpan(close) => Pieces(t[i + 1..close], 0, bold, true)
    case Mention(end) => [MentionToken(t[i + 1..end], bold, italic)]
    case PlainChar => [TextToken([t[i]], bold, italic)]
  }

  // ---- Merging neighbouring text ----

  predicate SameRun(a: Token, b: Token) {
    a.TextToken? && b.TextToken? && a.bold == b.bold && a.italic == b.italic
  }

  /** No text is empty, and neighbouring texts differ in their flags. */
  ghost predicate IsMerged(tokens: seq<Token>) {
    forall k :: 0 <= k < |tokens| ==> IsMergedAt(tokens, k)
  }

  predicate IsMergedAt(tokens: seq<Token>, k: nat)
    requires k < |tokens|
  {
    && (tokens[k].TextToken? ==> tokens[k].text != [])
    && (k > 0 ==> !SameRun(tokens[k - 1], tokens[k]))
  }

  lemma MergedSnoc(tokens: seq<Token>, token: Token)
    requires IsMerged(tokens)
    requires token.TextToken? ==> token.text != []
    requires tokens != [] ==> !SameRun(tokens[|tokens| - 1], token)
    ensures IsMerged(tokens + [token])
  {
    var r := tokens + [token];
    forall k | 0 <= k < |r|
      ensures IsMergedAt(r, k)
    {
      assert k < |tokens| ==> IsMergedAt(tokens, k);
    }
  }

  lemma MergedPrefix(tokens: seq<Token>)
    requires IsMerged(tokens) && tokens != []
    ensures IsMerged(tokens[..|tokens| - 1]) && IsMergedAt(tokens, |tokens| - 1)
  {
    var r := tokens[..|tokens| - 1];
    forall k | 0 <= k < |r|
      ensures IsMergedAt(r, k)
    {
      assert IsMergedAt(tokens, k);
    }
  }

  /** A text token as one token for each of its characters. */
  function Characters(text: Text, bold: bool, italic: bool): seq<Token> {
    if text == [] then []
    else Characters(text[..|text| - 1], bold, italic) + [TextToken([text[|text| - 1]], bold, italic)]
  }

  function Loosened(token: Token): seq<Token> {
    if token.TextToken? then Characters(token.text, token.bold, token.italic) else [token]
  }

  /** The tokens with every merge undone. */
  function Expand(tokens: seq<Token>): seq<Token> {
    if tokens == [] then []
    else Expand(tokens[..|tokens| - 1]) + Loosened(tokens[|tokens| - 1])
  }

  lemma {:induction false} CharactersConcat(x: Text, y: Text, bold: bool, italic: bool)
    ensures Characters(x + y, bold, italic) == Characters(x, bold, italic) + Characters(y, bold, italic)
    decreases |y|
  {
    if y == [] {
      assert x + y == x;
    } else {
      assert (x + y)[..|x + y| - 1] == x + y[..|y| - 1];
      CharactersConcat(x, y[..|y| - 1], bold, italic);
    }
  }

  lemma ExpandSnoc(tokens: seq<Token>, token: Token)
    ensures Expand(tokens + [token]) == Expand(tokens) + Loosened(token)
  {
    assert (tokens + [token])[..|tokens|] == tokens;
  }

  lemma Reassociate(a: seq<Token>, b: seq<Token>, c: seq<Token>)
    ensures (a + b) + c == a + (b + c)
  {}

  method PushText(tokens: seq<Token>, text: Text, bold: bool, italic: bool) returns (r: seq<Token>)
    requires IsMerged(tokens)
    ensures IsMerged(r) && Expand(r) == Expand(tokens) + Characters(text, bold, italic)
  {
    if text == [] {
      return tokens;
    }
    var token := TextToken(text, bold, italic);
    if |tokens| > 0 && SameRun(tokens[|tokens| - 1], token) {
      var last := tokens[|tokens| - 1];
      var front := tokens[..|tokens| - 1];
      var merged := last.(text := last.text + text);
      MergedPrefix(tokens);
      MergedSnoc(front, merged);
      ExpandSnoc(front, merged);
      CharactersConcat(last.text, text, bold, italic);
      Reassociate(Expand(front), Loosened(last), Characters(text, bold, italic));
      return front + [merged];
    }
    MergedSnoc(tokens, token);
    ExpandSnoc(tokens, token);
    return tokens + [token];
  }

  method AppendAll(tokens: seq<Token>, more: seq<Token>) returns (r: seq<Token>)
    requires IsMerged(tokens)
    ensures IsMerged(r) && Expand(r) == Expand(tokens) + Expand(more)
  {
    r := tokens;
    for k := 0 to |more|
      invariant IsMerged(r) && Expand(r) == Expand(tokens) + Expand(more[..k])
    {
      assert more[..k + 1] == more[..k] + [more[k]];
      ExpandSnoc(more[..k], more[k]);
      Reassociate(Expand(tokens), Expand(more[..k]), Loosened(more[k]));
      if more[k].TextToken? {
        r := PushText(r, more[k].text, more[k].bold, more[k].italic);
      } else {
        MergedSnoc(r, more[k]);
        ExpandSnoc(r, more[k]);
        r := r + [more[k]];
      }
    }
    assert more[..|more|] == more;
  }

  // ---- What is shown, and how ----

  /** A character as it is shown. */
  datatype Styled = Styled(ch: Ch, bold: bool, italic: bool)

  function Dressed(text: Text, bold: bool, italic: bool): (shown: seq<Styled>)
    ensures |shown| == |text|
  {
    seq(|text|, k requires 0 <= k < |text| => Styled(text[k], bold, italic))
  }

  /** A mention is shown with its at-sign. */
  function TokenStyles(token: Token): seq<Styled> {
    match token
    case TextToken(text, bold, italic) => Dressed(text, bold, italic)
    case MentionToken(code, bold, italic) => Dressed([At] + code, bold, italic)
  }

  function Styles(tokens: seq<Token>): seq<Styled> {
    if tokens == [] then [] else Styles(tokens[..|tokens| - 1]) + TokenStyles(tokens[|tokens| - 1])
  }

  /** Position `k` of the line, read from `i` on, stands inside a bold span, at whatever depth. */
  predicate InBold(t: Text, i: nat, k: nat)
    requires i <= k < |t|
    decreases |t|, |t| - i
  {
    var p := PieceAt(t, i);
    if k >= p.Next(i) then InBold(t, p.Next(i), k)
    else
      match p
      case BoldSpan(close) => i + 2 <= k < close
      case ItalicSpan(close) => i + 1 <= k < close && InBold(t[i + 1..close], 0, k - (i + 1))
      case _ => false
  }

  /** The same for italic spans. */
  predicate InItalic(t: Text, i: nat, k: nat)
    requires i <= k < |t|
    decreases |t|, |t| - i
  {
    var p := PieceAt(t, i);
    if k >= p.Next(i) then InItalic(t, p.Next(i), k)
    else
      match p
      case ItalicSpan(close) => i + 1 <= k < close
      case BoldSpan(close) => i + 2 <= k < close && InItalic(t[i + 2..close], 0, k - (i + 2))
      case _ => false
  }

  /** Every position is shown but those of the markers that enclose a span. */
  predicate IsShown(t: Text, i: nat, k: nat)
    requires i <= k < |t|
    decreases |t|, |t| - i
  {
    var p := PieceAt(t, i);
    if k >= p.Next(i) then IsShown(t, p.Next(i), k)
    else
      match p
      case BoldSpan(close) => i + 2 <= k < close && IsShown(t[i + 2..close], 0, k - (i + 2))
      case ItalicSpan(close) => i + 1 <= k < close && IsShown(t[i + 1..close], 0, k - (i + 1))
      case _ => true
  }

  /** What position `k` of the line shows, when it is read from `from` on. */
  function PositionShows(t: Text, from: nat, k: nat, bold: bool, italic: bool): seq<Styled>
    requires from <= k < |t|
  {
    if IsShown(t, from, k) then [Styled(t[k], bold || InBold(t, from, k), italic || InItalic(t, from, k))] else []
  }

  /** What positions `i` to `hi` show. */
  function ShownFrom(t: Text, from: nat, i: nat, hi: nat, bold: bool, italic: bool): seq<Styled>
    requires from <= i <= hi <= |t|
    decreases hi - i
  {
    if i == hi then []
    else PositionShows(t, from, i, bold, italic) + ShownFrom(t, from, i + 1, hi, bold, italic)
  }

  /** The whole line as it is to be shown. */
  function ShownText(t: Text, bold: bool, italic: bool): seq<Styled> {
    ShownFrom(t, 0, 0, |t|, bold, italic)
  }

  lemma StylesSnoc(tokens: seq<Token>, token: Token)
    ensures Styles(tokens + [token]) == Styles(tokens) + TokenStyles(token)
  {
    assert (tokens + [token])[..|tokens|] == tokens;
  }

  lemma {:induction false} StylesConcat(a: seq<Token>, b: seq<Token>)
    ensures Styles(a + b) == Styles(a) + Styles(b)
    decreases |b|
  {
    hide TokenStyles;
    if b == [] {
      assert a + b == a && Styles(a) + [] == Styles(a);
    } else {
      var front, last := b[..|b| - 1], b[|b| - 1];
      assert a + b == (a + front) + [last];
      StylesSnoc(a + front, last);
      StylesConcat(a, front);
      StylesAssociate(Styles(a), Styles(front), TokenStyles(last));
    }
  }

  lemma StylesAssociate(a: seq<Styled>, b: seq<Styled>, c: seq<Styled>)
    ensures (a + b) + c == a + (b + c)
  {}

  lemma StylesOfOne(token: Token)
    ensures Styles([token]) == TokenStyles(token)
  {
    assert [token][..0] == [];
  }

  lemma DressedLast(t: Text, bold: bool, italic: bool)
    requires t != []
    ensures Dressed(t, bold, italic)
         == Dressed(t[..|t| - 1], bold, italic) + TokenStyles(TextToken([t[|t| - 1]], bold, italic))
  {}

  lemma {:induction false} StylesOfCharacters(text: Text, bold: bool, italic: bool)
    ensures Styles(Characters(text, bold, italic)) == Dressed(text, bold, italic)
  {
    hide Dressed;
    if text == [] {
      assert Dressed(text, bold, italic) == [];
    } else {
      var front, last := text[..|text| - 1], text[|text| - 1];
      StylesOfCharacters(front, bold, italic);
      StylesSnoc(Characters(front, bold, italic), TextToken([last], bold, italic));
      DressedLast(text, bold, italic);
    }
  }

  /** Merging changes nothing of what is shown. */
  lemma {:induction false} StylesOfExpand(tokens: seq<Token>)
    ensures Styles(Expand(tokens)) == Styles(tokens)
  {
    if tokens != [] {
      var front, last := tokens[..|tokens| - 1], tokens[|tokens| - 1];
      StylesOfExpand(front);
      StylesConcat(Expand(front), Loosened(last));
      if last.TextToken? {
        StylesOfCharacters(last.text, last.bold, last.italic);
      } else {
        StylesOfOne(last);
      }
    }
  }

  lemma {:induction false} ShownSplits(t: Text, from: nat, i: nat, mid: nat, hi: nat, bold: bool, italic: bool)
    requires from <= i <= mid <= hi <= |t|
    ensures ShownFrom(t, from, i, hi, bold, italic)
         == ShownFrom(t, from, i, mid, bold, italic) + ShownFrom(t, from, mid, hi, bold, italic)
    decreases mid - i
  {
    hide PositionShows;
    if i < mid {
      ShownSplits(t, from, i + 1, mid, hi, bold, italic);
      StylesAssociate(PositionShows(t, from, i, bold, italic),
        ShownFrom(t, from, i + 1, mid, bold, italic), ShownFrom(t, from, mid, hi, bold, italic));
    }
  }

  /** Behind a piece the line is read as from its end on. */
  lemma PositionBehind(t: Text, from: nat, k: nat, bold: bool, italic: bool)
    requires from < |t| && PieceAt(t, from).Next(from) <= k < |t|
    ensures PositionShows(t, from, k, bold, italic) == PositionShows(t, PieceAt(t, from).Next(from), k, bold, italic)
  {
    hide PieceAt;
  }

  lemma {:induction false} ShownBehind(t: Text, from: nat, i: nat, bold: bool, italic: bool)
    requires from < |t| && PieceAt(t, from).Next(from) <= i <= |t|
    ensures ShownFrom(t, from, i, |t|, bold, italic)
         == ShownFrom(t, PieceAt(t, from).Next(from), i, |t|, bold, italic)
    decreases |t| - i
  {
    hide PieceAt, PositionShows;
    if i < |t| {
      PositionBehind(t, from, i, bold, italic);
      ShownBehind(t, from, i + 1, bold, italic);
    }
  }

  /** The piece at `from` is a span whose inside is `lo` to `close`. */
  predicate IsSpan(t: Text, from: nat, lo: nat, close: nat, isBold: bool)
    requires from < |t|
  {
    if isBold then PieceAt(t, from) == BoldSpan(close) && lo == from + 2
    else PieceAt(t, from) == ItalicSpan(close) && lo == from + 1
  }

  /** Inside a span the line is read as the span is, with its flag. */
  lemma PositionInside(
      t: Text, from: nat, lo: nat, close: nat, isBold: bool, k: nat, bold: bool, italic: bool)
    requires from < |t| && IsSpan(t, from, lo, close, isBold) && k < close - lo
    ensures lo <= close <= |t|
    ensures PositionShows(t, from, lo + k, bold, italic)
         == PositionShows(t[lo..close], 0, k, bold || isBold, italic || !isBold)
  {
    hide PieceAt;
    assert t[lo..close][k] == t[lo + k];
    assert (lo + k) - lo == k;
  }

  lemma {:induction false} ShownInside(
      t: Text, from: nat, lo: nat, close: nat, isBold: bool, k: nat, bold: bool, italic: bool)
    requires from < |t| && IsSpan(t, from, lo, close, isBold) && k <= close - lo
    ensures lo <= close <= |t|
    ensures ShownFrom(t, from, lo + k, close, bold, italic)
         == ShownFrom(t[lo..close], 0, k, close - lo, bold || isBold, italic || !isBold)
    decreases close - lo - k
  {
    hide PositionShows, PieceAt;
    if k < close - lo {
      PositionInside(t, from, lo, close, isBold, k, bold, italic);
      ShownInside(t, from, lo, close, isBold, k + 1, bold, italic);
    }
  }

  /** The markers of a span show nothing. */
  lemma MarkerShowsNothing(
      t: Text, from: nat, lo: nat, close: nat, isBold: bool, k: nat, bold: bool, italic: bool)
    requires from < |t| && IsSpan(t, from, lo, close, isBold)
    requires from <= k < PieceAt(t, from).Next(from) && (k < lo || close <= k)
    ensures k < |t| && PositionShows(t, from, k, bold, italic) == []
  {
    hide PieceAt, InBold, InItalic;
  }

  lemma {:induction false} MarkersShowNothing(
      t: Text, from: nat, lo: nat, close: nat, isBold: bool, i: nat, hi: nat, bold: bool, italic: bool)
    requires from < |t| && IsSpan(t, from, lo, close, isBold)
    requires from <= i <= hi <= PieceAt(t, from).Next(from) && (hi <= lo || close <= i)
    ensures hi <= |t| && ShownFrom(t, from, i, hi, bold, italic) == []
    decreases hi - i
  {
    hide PieceAt, PositionShows;
    if i < hi {
      MarkerShowsNothing(t, from, lo, close, isBold, i, bold, italic);
      MarkersShowNothing(t, from, lo, close, isBold, i + 1, hi, bold, italic);
    }
  }

  lemma SpanShown(t: Text, from: nat, lo: nat, close: nat, isBold: bool, bold: bool, italic: bool)
    requires from < |t| && IsSpan(t, from, lo, close, isBold)
    ensures lo <= close <= |t|
    ensures ShownFrom(t, from, from, PieceAt(t, from).Next(from), bold, italic)
         == ShownText(t[lo..close], bold || isBold, italic || !isBold)
  {
    hide PieceAt, ShownFrom;
    var next := PieceAt(t, from).Next(from);
    ShownSplits(t, from, from, lo, next, bold, italic);
    ShownSplits(t, from, lo, close, next, bold, italic);
    MarkersShowNothing(t, from, lo, close, isBold, from, lo, bold, italic);
    MarkersShowNothing(t, from, lo, close, isBold, close, next, bold, italic);
    ShownInside(t, from, lo, close, isBold, 0, bold, italic);
  }

  lemma {:induction false} ShownPlainly(t: Text, from: nat, i: nat, hi: nat, bold: bool, italic: bool)
    requires from <= i <= hi <= |t| && from < |t| && hi == PieceAt(t, from).Next(from)
    requires PieceAt(t, from).Mention? || PieceAt(t, from).PlainChar?
    ensures ShownFrom(t, from, i, hi, bold, italic) == Dressed(t[i..hi], bold, italic)
    decreases hi - i
  {
    hide PieceAt;
    if i < hi {
      ShownPlainly(t, from, i + 1, hi, bold, italic);
      assert PositionShows(t, from, i, bold, italic) == [Styled(t[i], bold, italic)];
      DressedFirst(t[i..hi], bold, italic);
      assert t[i..hi][1..] == t[i + 1..hi];
    }
  }

  lemma DressedFirst(t: Text, bold: bool, italic: bool)
    requires t != []
    ensures Dressed(t, bold, italic) == [Styled(t[0], bold, italic)] + Dressed(t[1..], bold, italic)
  {}

  lemma WordShown(t: Text, i: nat, bold: bool, italic: bool)
    requires i < |t| && (PieceAt(t, i).Mention? || PieceAt(t, i).PlainChar?)
    ensures Styles(PieceTokens(t, bold, italic, i))
         == ShownFrom(t, i, i, PieceAt(t, i).Next(i), bold, italic)
  {
    hide PieceAt, ShownFrom, Dressed, Styles;
    match PieceAt(t, i)
    case Mention(end) =>
      ShownPlainly(t, i, i, end, bold, italic);
      StylesOfOne(MentionToken(t[i + 1..end], bold, italic));
      assert [At] + t[i + 1..end] == t[i..end];
    case PlainChar =>
      ShownPlainly(t, i, i, i + 1, bold, italic);
      StylesOfOne(TextToken([t[i]], bold, italic));
      assert [t[i]] == t[i..i + 1];
  }

  lemma {:induction false} PieceShown(t: Text, i: nat, bold: bool, italic: bool)
    requires i < |t|
    ensures Styles(PieceTokens(t, bold, italic, i))
         == ShownFrom(t, i, i, PieceAt(t, i).Next(i), bold, italic)
    decreases |t|, 0
  {
    hide PieceAt, Pieces, ShownFrom, Styles;
    match PieceAt(t, i)
    case BoldSpan(close) =>
      PiecesShow(t[i + 2..close], 0, true, italic);
      SpanShown(t, i, i + 2, close, true, bold, italic);
    case ItalicSpan(close) =>
      PiecesShow(t[i + 1..close], 0, bold, true);
      SpanShown(t, i, i + 1, close, false, bold, italic);
    case _ =>
      WordShown(t, i, bold, italic);
  }

  /** The pieces show each character as it stands: bold inside a bold span, italic inside an italic one. */
  lemma {:induction false} PiecesShow(t: Text, i: nat, bold: bool, italic: bool)
    requires i <= |t|
    ensures Styles(Pieces(t, i, bold, italic)) == ShownFrom(t, i, i, |t|, bold, italic)
    decreases |t|, 1 + |t| - i
  {
    hide PieceAt, PieceTokens, ShownFrom, Styles;
    if i == |t| {
      NothingShownAtEnd(t, bold, italic);
    } else {
      var next := PieceAt(t, i).Next(i);
      PieceShown(t, i, bold, italic);
      PiecesShow(t, next, bold, italic);
      StylesConcat(PieceTokens(t, bold, italic, i), Pieces(t, next, bold, italic));
      ShownSplits(t, i, i, next, |t|, bold, italic);
      ShownBehind(t, i, next, bold, italic);
    }
  }

  lemma NothingShownAtEnd(t: Text, bold: bool, italic: bool)
    ensures Styles(Pieces(t, |t|, bold, italic)) == ShownFrom(t, |t|, |t|, |t|, bold, italic)
  {}

  // ---- The parser ----

  /** What begins at `i`: a bold span is tried first, then an italic one, then a mention. */
  method NextPiece(text: Text, i: nat) returns (piece: Piece)
    requires i < |text|
    ensures piece == PieceAt(text, i)
  {
    if StarPairAt(text, i) {
      var close := BoldClose(text, i + 2);
      var inner := if close == -1 then [] else text[i + 2..close];
      if HasSolidEdges(inner) {
        return BoldSpan(close);
      }
    }
    if text[i] == Underscore && !WordCharAt(text, i - 1) {
      var close := FindItalicClose(text, i + 1);
      var inner := if close == -1 then [] else text[i + 1..close];
      if HasSolidEdges(inner) {
        return ItalicSpan(close);
      }
    }
    if text[i] == At && MayMention(text, i) {
      var end := CodeEnd(text, i + 1);
      if end > i + 1 {
        return Mention(end);
      }
    }
    return PlainChar;
  }

  /** `done` is what the line before `i` makes of itself. */
  ghost predicate IsDone(t: Text, bold: bool, italic: bool, done: seq<Token>, i: nat)
    requires i <= |t|
  {
    done + Pieces(t, i, bold, italic) == Pieces(t, 0, bold, italic)
  }

  lemma PieceDone(t: Text, bold: bool, italic: bool, done: seq<Token>, i: nat)
    requires i < |t| && IsDone(t, bold, italic, done, i)
    ensures IsDone(t, bold, italic, done + PieceTokens(t, bold, italic, i), PieceAt(t, i).Next(i))
  {
    Reassociate(done, PieceTokens(t, bold, italic, i), Pieces(t, PieceAt(t, i).Next(i), bold, italic));
  }

  lemma AllDone(t: Text, bold: bool, italic: bool, done: seq<Token>)
    requires IsDone(t, bold, italic, done, |t|)
    ensures done == Pieces(t, 0, bold, italic)
  {
    assert done + [] == done;
  }

  lemma NothingDone(t: Text, bold: bool, italic: bool)
    ensures IsDone(t, bold, italic, [], 0)
  {
    assert [] + Pieces(t, 0, bold, italic) == Pieces(t, 0, bold, italic);
  }

  /** The tokens and the buffered text together are `done`. */
  ghost predicate Holds(tokens: seq<Token>, buffer: Text, bold: bool, italic: bool, done: seq<Token>) {
    IsMerged(tokens) && Expand(tokens) + Characters(buffer, bold, italic) == done
  }

  lemma NothingBuffered(tokens: seq<Token>, bold: bool, italic: bool)
    requires IsMerged(tokens)
    ensures Holds(tokens, [], bold, italic, Expand(tokens))
  {
    assert Expand(tokens) + [] == Expand(tokens);
  }

  method PushChar(tokens: seq<Token>, buffer: Text, c: Ch, bold: bool, italic: bool, ghost done: seq<Token>)
    returns (r: Text)
    requires Holds(tokens, buffer, bold, italic, done)
    ensures Holds(tokens, r, bold, italic, done + [TextToken([c], bold, italic)])
  {
    r := buffer + [c];
    assert r[..|buffer|] == buffer;
    Reassociate(Expand(tokens), Characters(buffer, bold, italic), [TextToken([c], bold, italic)]);
  }

  method PushMention(tokens: seq<Token>, buffer: Text, code: Text, bold: bool, italic: bool, ghost done: seq<Token>)
    returns (r: seq<Token>)
    requires Holds(tokens, buffer, bold, italic, done)
    ensures Holds(r, [], bold, italic, done + [MentionToken(code, bold, italic)])
  {
    var flushed := PushText(tokens, buffer, bold, italic);
    var mention := MentionToken(code, bold, italic);
    MergedSnoc(flushed, mention);
    ExpandSnoc(flushed, mention);
    r := flushed + [mention];
    NothingBuffered(r, bold, italic);
  }

  method PushSpan(tokens: seq<Token>, buffer: Text, span: seq<Token>, bold: bool, italic: bool, ghost done: seq<Token>)
    returns (r: seq<Token>)
    requires Holds(tokens, buffer, bold, italic, done)
    ensures Holds(r, [], bold, italic, done + Expand(span))
  {
    var flushed := PushText(tokens, buffer, bold, italic);
    r := AppendAll(flushed, span);
    NothingBuffered(r, bold, italic);
  }

  /** The result is the one merged token list that the pieces of the line make up. */
  method ParseInline(text: Text, bold: bool := false, italic: bool := false) returns (tokens: seq<Token>)
    ensures IsMerged(tokens) && Expand(tokens) == Pieces(text, 0, bold, italic)
    ensures Styles(tokens) == ShownText(text, bold, italic)
    decreases |text|
  {
    hide Styles, ShownFrom;
    tokens := [];
    var buffer: Text := [];
    var i := 0;
    ghost var done: seq<Token> := [];
    NothingDone(text, bold, italic);
    NothingBuffered(tokens, bold, italic);
    while i < |text|
      invariant 0 <= i <= |text| && IsDone(text, bold, italic, done, i)
      invariant Holds(tokens, buffer, bold, italic, done)
    {
      PieceDone(text, bold, italic, done, i);
      var piece := NextPiece(text, i);
      match piece {
        case BoldSpan(close) =>
          var span := ParseInline(text[i + 2..close], true, italic);
          tokens := PushSpan(tokens, buffer, span, bold, italic, done);
          buffer := [];
        case ItalicSpan(close) =>
          var span := ParseInline(text[i + 1..close], bold, true);
          tokens := PushSpan(tokens, buffer, span, bold, italic, done);
          buffer := [];
        case Mention(end) =>
          tokens := PushMention(tokens, buffer, text[i + 1..end], bold, italic, done);
          buffer := [];
        case PlainChar =>
          buffer := PushChar(tokens, buffer, text[i], bold, italic, done);
      }
      done := done + PieceTokens(text, bold, italic, i);
      i := piece.Next(i);
    }
    AllDone(text, bold, italic, done);
    tokens := PushText(tokens, buffer, bold, italic);
    StylesOfExpand(tokens);
    PiecesShow(text, 0, bold, italic);
  }
}
