/**
 What two stars and an underscore mean (packages/shared-types/src/discussion-format.ts:60-66, 85-137): what
 stands between star pairs is shown bold, between underscores italic, and everything else as the call asks.
 */
module InlineFlags {
  import opened MarkupText
  import opened InlineMarkup
  import opened InlineRendering

  // ---- A line is read the same when the text before it is taken away ----

  /** The text before position `at` changes nothing of what may begin there. */
  predicate IsParted(t: Text, at: nat) {
    0 < at < |t| ==>
      && (t[at] == Underscore ==> !IsWordChar(t[at - 1]))
      && (t[at] == At ==> !IsWordChar(t[at - 1]) && t[at - 1] != At && t[at - 1] != Dot)
  }

  lemma {:induction false} BoldCloseBehind(t: Text, at: nat, from: nat)
    requires at <= from && at <= |t|
    ensures BoldClose(t, from) == -1 ==> BoldClose(t[at..], from - at) == -1
    ensures BoldClose(t, from) != -1 ==> BoldClose(t[at..], from - at) == BoldClose(t, from) - at
    decreases |t| - from
  {
    assert StarPairAt(t, from) <==> StarPairAt(t[at..], from - at);
    if from + 1 < |t| && !StarPairAt(t, from) {
      BoldCloseBehind(t, at, from + 1);
    }
  }

  lemma {:induction false} ItalicCloseBehind(t: Text, at: nat, from: nat)
    requires at <= from && at <= |t|
    ensures ItalicClose(t, from) == -1 ==> ItalicClose(t[at..], from - at) == -1
    ensures ItalicClose(t, from) != -1 ==> ItalicClose(t[at..], from - at) == ItalicClose(t, from) - at
    decreases |t| - from
  {
    assert WordCharAt(t, from + 1) <==> WordCharAt(t[at..], from - at + 1);
    assert ItalicCloseAt(t, from) <==> ItalicCloseAt(t[at..], from - at);
    if from < |t| && !ItalicCloseAt(t, from) {
      ItalicCloseBehind(t, at, from + 1);
    }
  }

  lemma {:induction false} CodeRunBehind(t: Text, at: nat, i: nat)
    requires at <= i <= |t|
    ensures CodeRunEnd(t[at..], i - at) == CodeRunEnd(t, i) - at
    decreases |t| - i
  {
    if i < |t| && IsCodeChar(t[i]) {
      CodeRunBehind(t, at, i + 1);
    }
  }

  lemma {:induction false} TrimmedBehind(t: Text, at: nat, i: nat, e: nat)
    requires at <= i <= e <= |t|
    ensures TrimmedEnd(t[at..], i - at, e - at) == TrimmedEnd(t, i, e) - at
    decreases e
  {
    if e > i && IsCodePunct(t[e - 1]) {
      TrimmedBehind(t, at, i, e - 1);
    }
  }

  lemma CodeEndBehind(t: Text, at: nat, i: nat)
    requires at <= i <= |t|
    ensures CodeEnd(t[at..], i - at) == CodeEnd(t, i) - at
  {
    if i < |t| && IsCodeHead(t[i]) {
      CodeRunBehind(t, at, i);
      TrimmedBehind(t, at, i, CodeRunEnd(t, i));
    }
  }

  function Moved(p: Piece, at: nat): Piece
    requires p.BoldSpan? ==> at <= p.close
    requires p.ItalicSpan? ==> at <= p.close
    requires p.Mention? ==> at <= p.end
  {
    match p
    case BoldSpan(close) => BoldSpan(close - at)
    case ItalicSpan(close) => ItalicSpan(close - at)
    case Mention(end) => Mention(end - at)
    case PlainChar => PlainChar
  }

  lemma SliceBehind(t: Text, at: nat, lo: nat, hi: nat)
    requires at <= lo <= hi <= |t|
    ensures t[at..][lo - at..hi - at] == t[lo..hi]
  {}

  /** Whether a bold span begins at `i`, and with what edges, is the same. */
  lemma BoldBehind(t: Text, at: nat, i: nat)
    requires at <= i < |t|
    ensures StarPairAt(t, i) <==> StarPairAt(t[at..], i - at)
    ensures BoldClose(t, i + 2) == -1 ==> BoldClose(t[at..], i - at + 2) == -1
    ensures BoldClose(t, i + 2) != -1 ==>
      BoldClose(t[at..], i - at + 2) == BoldClose(t, i + 2) - at && BoldClose(t, i + 2) <= |t|
      && t[at..][i - at + 2..BoldClose(t, i + 2) - at] == t[i + 2..BoldClose(t, i + 2)]
  {
    hide BoldClose;
    BoldCloseBehind(t, at, i + 2);
    assert (i + 2) - at == i - at + 2;
    if BoldClose(t, i + 2) != -1 {
      SliceBehind(t, at, i + 2, BoldClose(t, i + 2));
    }
  }

  lemma ItalicBehind(t: Text, at: nat, i: nat)
    requires at <= i < |t| && IsParted(t, at)
    ensures t[at..][i - at] == t[i]
    ensures t[i] == Underscore ==> (WordCharAt(t, i - 1) <==> WordCharAt(t[at..], i - at - 1))
    ensures ItalicClose(t, i + 1) == -1 ==> ItalicClose(t[at..], i - at + 1) == -1
    ensures ItalicClose(t, i + 1) != -1 ==>
      ItalicClose(t[at..], i - at + 1) == ItalicClose(t, i + 1) - at && ItalicClose(t, i + 1) <= |t|
      && t[at..][i - at + 1..ItalicClose(t, i + 1) - at] == t[i + 1..ItalicClose(t, i + 1)]
  {
    hide ItalicClose;
    ItalicCloseBehind(t, at, i + 1);
    assert (i + 1) - at == i - at + 1;
    if ItalicClose(t, i + 1) != -1 {
      SliceBehind(t, at, i + 1, ItalicClose(t, i + 1));
    }
    assert i > at ==> t[at..][i - at - 1] == t[i - 1];
  }

  lemma MentionBehind(t: Text, at: nat, i: nat)
    requires at <= i < |t| && IsParted(t, at)
    ensures t[i] == At ==> (MayMention(t, i) <==> MayMention(t[at..], i - at))
    ensures CodeEnd(t[at..], i - at + 1) == CodeEnd(t, i + 1) - at
  {
    hide CodeEnd;
    CodeEndBehind(t, at, i + 1);
    assert i > at ==> t[at..][i - at - 1] == t[i - 1];
  }

  lemma PieceBehind(t: Text, at: nat, i: nat)
    requires at <= i < |t| && IsParted(t, at)
    ensures PieceAt(t[at..], i - at) == Moved(PieceAt(t, i), at)
  {
    hide BoldClose, ItalicClose, CodeEnd, HasSolidEdges, MayMention, StarPairAt, WordCharAt, IsParted, IsWordChar;
    BoldBehind(t, at, i);
    ItalicBehind(t, at, i);
    MentionBehind(t, at, i);
  }

  lemma PieceReadAlone(t: Text, at: nat, i: nat, bold: bool, italic: bool)
    requires at <= i < |t| && IsParted(t, at)
    ensures PieceTokens(t, bold, italic, i) == PieceTokens(t[at..], bold, italic, i - at)
    ensures PieceAt(t[at..], i - at).Next(i - at) == PieceAt(t, i).Next(i) - at
  {
    hide PieceAt, IsParted, Pieces;
    PieceBehind(t, at, i);
    match PieceAt(t, i) {
      case BoldSpan(close) => SliceBehind(t, at, i + 2, close);
      case ItalicSpan(close) => SliceBehind(t, at, i + 1, close);
      case Mention(end) => SliceBehind(t, at, i + 1, end);
      case PlainChar =>
    }
  }

  lemma ReadFirst(t: Text, i: nat, bold: bool, italic: bool)
    requires i <= |t|
    ensures i == |t| ==> Pieces(t, i, bold, italic) == []
    ensures i < |t| ==>
      Pieces(t, i, bold, italic)
      == PieceTokens(t, bold, italic, i) + Pieces(t, PieceAt(t, i).Next(i), bold, italic)
  {}

  /** What stands behind a parted position is read as a line of its own. */
  lemma {:induction false} ReadAlone(t: Text, at: nat, i: nat, bold: bool, italic: bool)
    requires at <= i <= |t| && IsParted(t, at)
    ensures Pieces(t, i, bold, italic) == Pieces(t[at..], i - at, bold, italic)
    decreases |t| - i
  {
    hide PieceAt, IsParted, PieceTokens, Pieces;
    ReadFirst(t, i, bold, italic);
    ReadFirst(t[at..], i - at, bold, italic);
    if i < |t| {
      PieceReadAlone(t, at, i, bold, italic);
      ReadAlone(t, at, PieceAt(t, i).Next(i), bold, italic);
    }
  }

  // ---- Text without markers ----

  /** No mention that begins in `a` goes on behind it when a marker follows. */
  predicate EndsMentions(a: Text) {
    a == [] || !IsCodeChar(a[|a| - 1]) || At !in a
  }

  lemma {:induction false} RunStopsBefore(t: Text, i: nat, at: nat)
    requires i <= at < |t| && (!IsCodeChar(t[at]) || (i < at && !IsCodeChar(t[at - 1])))
    ensures CodeRunEnd(t, i) <= at
    decreases at - i
  {
    if i < at && IsCodeChar(t[i]) {
      if i + 1 < at || !IsCodeChar(t[at]) {
        RunStopsBefore(t, i + 1, at);
      }
    }
  }

  /** In front of a marker, text without markers is read one character or mention at a time. */
  lemma PlainPiece(t: Text, i: nat, at: nat)
    requires i < at <= |t| && NoMarkers(t[..at])
    requires at < |t| ==> t[at] == Star || (t[at] == Underscore && EndsMentions(t[..at]))
    ensures PieceAt(t, i).Mention? || PieceAt(t, i).PlainChar?
    ensures PieceAt(t, i).Next(i) <= at
  {
    hide HasSolidEdges, BoldClose, ItalicClose, CodeRunEnd, TrimmedEnd;
    assert t[..at][i] == t[i] && !IsMarker(t[i]);
    if PieceAt(t, i).Mention? && at < |t| {
      assert i + 1 < |t| && IsCodeHead(t[i + 1]) && i + 1 < at;
      assert t[..at][i] == At && t[..at][at - 1] == t[at - 1];
      RunStopsBefore(t, i + 1, at);
    }
  }

  lemma {:induction false} PlainBefore(t: Text, i: nat, at: nat, bold: bool, italic: bool)
    requires i <= at <= |t| && NoMarkers(t[..at])
    requires at < |t| ==> t[at] == Star || (t[at] == Underscore && EndsMentions(t[..at]))
    ensures Styles(Pieces(t, i, bold, italic)) == Dressed(t[i..at], bold, italic) + Styles(Pieces(t, at, bold, italic))
    decreases at - i
  {
    hide PieceAt, Styles, Dressed, EndsMentions, NoMarkers, PieceTokens;
    if i == at {
      NothingDressed(bold, italic);
      assert t[i..at] == [];
    } else {
      PlainPiece(t, i, at);
      var next := PieceAt(t, i).Next(i);
      PlainBefore(t, next, at, bold, italic);
      PlainToken(t, i, bold, italic);
      StylesConcat(PieceTokens(t, bold, italic, i), Pieces(t, next, bold, italic));
      assert t[i..next] + t[next..at] == t[i..at];
      DressedConcat(t[i..next], t[next..at], bold, italic);
      StylesAssociate(Dressed(t[i..next], bold, italic), Dressed(t[next..at], bold, italic),
        Styles(Pieces(t, at, bold, italic)));
    }
  }

  lemma NothingDressed(bold: bool, italic: bool)
    ensures Dressed([], bold, italic) == []
    ensures forall s: seq<Styled> :: Dressed([], bold, italic) + s == s
  {}

  lemma DressedConcat(x: Text, y: Text, bold: bool, italic: bool)
    ensures Dressed(x + y, bold, italic) == Dressed(x, bold, italic) + Dressed(y, bold, italic)
  {}

  lemma PlainToken(t: Text, i: nat, bold: bool, italic: bool)
    requires i < |t| && (PieceAt(t, i).Mention? || PieceAt(t, i).PlainChar?)
    ensures Styles(PieceTokens(t, bold, italic, i)) == Dressed(t[i..PieceAt(t, i).Next(i)], bold, italic)
  {
    hide PieceAt, Styles, Dressed;
    match PieceAt(t, i)
    case Mention(end) =>
      StylesOfOne(MentionToken(t[i + 1..end], bold, italic));
      assert [At] + t[i + 1..end] == t[i..end];
    case PlainChar =>
      StylesOfOne(TextToken([t[i]], bold, italic));
      assert [t[i]] == t[i..i + 1];
  }

  /** A line without markers is shown as it is, with the flags of the call. */
  lemma PlainTextShown(a: Text, bold: bool, italic: bool)
    requires NoMarkers(a)
    ensures ShownText(a, bold, italic) == Dressed(a, bold, italic)
  {
    hide Styles, Dressed, ShownFrom, PieceAt;
    assert a[..|a|] == a && a[0..|a|] == a;
    PlainBefore(a, 0, |a|, bold, italic);
    PiecesShow(a, 0, bold, italic);
    NothingRead(a, bold, italic);
    assert Dressed(a, bold, italic) + [] == Dressed(a, bold, italic);
  }

  lemma NothingRead(t: Text, bold: bool, italic: bool)
    ensures Styles(Pieces(t, |t|, bold, italic)) == []
  {}

  // ---- Two stars ----

  function Bolded(a: Text, x: Text, b: Text): Text {
    a + [Star, Star] + x + [Star, Star] + b
  }

  lemma BoldedAt(a: Text, x: Text, b: Text)
    ensures var t := Bolded(a, x, b);
            && |t| == |a| + |x| + |b| + 4
            && t[..|a|] == a && t[0..|a|] == a && t[|a| + 2..|a| + 2 + |x|] == x && t[|a| + |x| + 4..] == b
            && t[|a|] == t[|a| + 1] == t[|a| + 2 + |x|] == t[|a| + 3 + |x|] == Star
  {}

  lemma {:induction false} BoldCloses(t: Text, from: nat, close: nat)
    requires from <= close && StarPairAt(t, close)
    requires forall k :: from <= k < close ==> t[k] != Star
    ensures BoldClose(t, from) == close
    decreases close - from
  {
    if from < close {
      assert t[from] != Star;
      BoldCloses(t, from + 1, close);
    }
  }

  lemma BoldOpens(a: Text, x: Text, b: Text)
    requires Star !in x && HasSolidEdges(x)
    ensures |a| < |Bolded(a, x, b)| && PieceAt(Bolded(a, x, b), |a|) == BoldSpan(|a| + 2 + |x|)
  {
    hide Bolded, HasSolidEdges, BoldClose, ItalicClose, CodeEnd;
    var t := Bolded(a, x, b);
    var close := |a| + 2 + |x|;
    BoldedAt(a, x, b);
    forall k | |a| + 2 <= k < close
      ensures t[k] != Star
    {
      assert t[k] == t[|a| + 2..close][k - (|a| + 2)] && x[k - (|a| + 2)] in x;
    }
    BoldCloses(t, |a| + 2, close);
  }

  /** Text between two pairs of stars is shown bold, whatever it holds; the text around it as the call asks. */
  lemma BoldShown(a: Text, x: Text, b: Text, bold: bool, italic: bool)
    requires NoMarkers(a) && Star !in x && HasSolidEdges(x)
    ensures ShownText(Bolded(a, x, b), bold, italic)
         == Dressed(a, bold, italic) + (ShownText(x, true, italic) + ShownText(b, bold, italic))
  {
    hide Bolded, PieceAt, Styles, Dressed, ShownFrom, HasSolidEdges, NoMarkers;
    var t := Bolded(a, x, b);
    var close := |a| + 2 + |x|;
    BoldedAt(a, x, b);
    BoldOpens(a, x, b);
    PiecesShow(t, 0, bold, italic);
    PiecesShow(x, 0, true, italic);
    PiecesShow(b, 0, bold, italic);
    PlainBefore(t, 0, |a|, bold, italic);
    ReadAlone(t, close + 2, close + 2, bold, italic);
    StylesConcat(Pieces(x, 0, true, italic), Pieces(t, close + 2, bold, italic));
  }

  // ---- One underscore ----

  function Italicised(a: Text, x: Text, b: Text): Text {
    a + [Underscore] + x + [Underscore] + b
  }

  /** An underscore behind `a` may open a span. */
  predicate MayOpen(a: Text) {
    EndsMentions(a) && (a != [] ==> !IsWordChar(a[|a| - 1]))
  }

  /** An underscore in front of `b` may close a span, and the line goes on behind it as a line of its own. */
  predicate MayClose(b: Text) {
    b != [] ==> !IsWordChar(b[0]) && b[0] != At
  }

  lemma ItalicisedAt(a: Text, x: Text, b: Text)
    ensures var t := Italicised(a, x, b);
            && |t| == |a| + |x| + |b| + 2
            && t[..|a|] == a && t[0..|a|] == a && t[|a| + 1..|a| + 1 + |x|] == x && t[|a| + |x| + 2..] == b
            && t[|a|] == t[|a| + 1 + |x|] == Underscore
  {}

  lemma {:induction false} ItalicCloses(t: Text, from: nat, close: nat)
    requires from <= close && ItalicCloseAt(t, close)
    requires forall k :: from <= k < close ==> t[k] != Underscore
    ensures ItalicClose(t, from) == close
    decreases close - from
  {
    if from < close {
      assert t[from] != Underscore;
      ItalicCloses(t, from + 1, close);
    }
  }

  lemma ItalicOpens(a: Text, x: Text, b: Text)
    requires MayOpen(a) && Underscore !in x && HasSolidEdges(x) && MayClose(b)
    ensures |a| < |Italicised(a, x, b)| && PieceAt(Italicised(a, x, b), |a|) == ItalicSpan(|a| + 1 + |x|)
  {
    hide Italicised, HasSolidEdges, BoldClose, ItalicClose, CodeEnd;
    var t := Italicised(a, x, b);
    var close := |a| + 1 + |x|;
    ItalicisedAt(a, x, b);
    forall k | |a| + 1 <= k < close
      ensures t[k] != Underscore
    {
      assert t[k] == t[|a| + 1..close][k - (|a| + 1)] && x[k - (|a| + 1)] in x;
    }
    assert b != [] ==> t[close + 1] == t[|a| + |x| + 2..][0];
    assert a != [] ==> t[|a| - 1] == t[..|a|][|a| - 1];
    ItalicCloses(t, |a| + 1, close);
  }

  lemma PartedBehindItalic(a: Text, x: Text, b: Text)
    requires MayClose(b)
    ensures IsParted(Italicised(a, x, b), |a| + |x| + 2)
  {
    ItalicisedAt(a, x, b);
    assert b != [] ==> Italicised(a, x, b)[|a| + |x| + 2..][0] == b[0];
  }

  /** Text between two underscores that may open and close is shown italic, the text around it as the call asks. */
  lemma ItalicShown(a: Text, x: Text, b: Text, bold: bool, italic: bool)
    requires NoMarkers(a) && MayOpen(a) && Underscore !in x && HasSolidEdges(x) && MayClose(b)
    ensures ShownText(Italicised(a, x, b), bold, italic)
         == Dressed(a, bold, italic) + (ShownText(x, bold, true) + ShownText(b, bold, italic))
  {
    hide Italicised, PieceAt, Styles, Dressed, ShownFrom, HasSolidEdges, NoMarkers, EndsMentions, IsParted;
    var t := Italicised(a, x, b);
    var close := |a| + 1 + |x|;
    ItalicisedAt(a, x, b);
    ItalicOpens(a, x, b);
    PiecesShow(t, 0, bold, italic);
    PiecesShow(x, 0, bold, true);
    PiecesShow(b, 0, bold, italic);
    PlainBefore(t, 0, |a|, bold, italic);
    PartedBehindItalic(a, x, b);
    ReadAlone(t, close + 1, close + 1, bold, italic);
    StylesConcat(Pieces(x, 0, bold, true), Pieces(t, close + 1, bold, italic));
  }

  // ---- Both ----

  /** `**x**` is bold and `_x_` italic, and the text around them keeps the flags of the call. */
  lemma MarkersMean(a: Text, x: Text, b: Text, bold: bool, italic: bool)
    requires NoMarkers(a) && NoMarkers(x) && NoMarkers(b) && HasSolidEdges(x)
    ensures ShownText(a + [Star, Star] + x + [Star, Star] + b, bold, italic)
         == Dressed(a, bold, italic) + (Dressed(x, true, italic) + Dressed(b, bold, italic))
    ensures !MayOpen(a) || !MayClose(b)
         || ShownText(a + [Underscore] + x + [Underscore] + b, bold, italic)
         == Dressed(a, bold, italic) + (Dressed(x, bold, true) + Dressed(b, bold, italic))
  {
    hide ShownFrom, Dressed, HasSolidEdges, EndsMentions;
    PlainTextShown(b, bold, italic);
    PlainTextShown(x, true, italic);
    PlainTextShown(x, bold, true);
    BoldShown(a, x, b, bold, italic);
    if MayOpen(a) && MayClose(b) {
      ItalicShown(a, x, b, bold, italic);
    }
  }

  lemma Alone(x: Text)
    ensures Bolded([], x, []) == [Star, Star] + x + [Star, Star]
    ensures Italicised([], x, []) == [Underscore] + x + [Underscore]
  {}

  lemma Undressed(x: Text, bold: bool, italic: bool)
    requires NoMarkers(x)
    ensures Dressed([], bold, italic) + (Dressed(x, true, true) + ShownText([], bold, italic)) == Dressed(x, true, true)
  {
    PlainTextShown([], bold, italic);
  }

  /** `_x_` within stars and `**x**` within underscores are both, bold and italic. */
  lemma NestedMarkersMean(a: Text, x: Text, b: Text, bold: bool, italic: bool)
    requires NoMarkers(a) && NoMarkers(x) && NoMarkers(b) && HasSolidEdges(x)
    ensures ShownText(a + [Star, Star] + ([Underscore] + x + [Underscore]) + [Star, Star] + b, bold, italic)
         == Dressed(a, bold, italic) + (Dressed(x, true, true) + Dressed(b, bold, italic))
    ensures !MayOpen(a) || !MayClose(b)
         || ShownText(a + [Underscore] + ([Star, Star] + x + [Star, Star]) + [Underscore] + b, bold, italic)
         == Dressed(a, bold, italic) + (Dressed(x, true, true) + Dressed(b, bold, italic))
  {
    hide ShownFrom, Dressed;
    var leaning, strong := [Underscore] + x + [Underscore], [Star, Star] + x + [Star, Star];
    Alone(x);
    PlainTextShown(b, bold, italic);
    PlainTextShown(x, true, true);
    Undressed(x, true, italic);
    Undressed(x, bold, true);
    ItalicShown([], x, [], true, italic);
    BoldShown([], x, [], bold, true);
    BoldShown(a, leaning, b, bold, italic);
    if MayOpen(a) && MayClose(b) {
      ItalicShown(a, strong, b, bold, italic);
    }
  }
}
