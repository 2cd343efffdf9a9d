/**
 A discussion message as its parser sees it: each character through the classes its rules ask about
 (packages/shared-types/src/discussion-format.ts:46-58).
 */
module MarkupText {

  datatype Ch =
    | Alnum(code: nat)
    | AsciiDigit(digit: nat)
    | Underscore
    | Star
    | At
    | Dot
    | Dash
    | Bullet
    | CloseParen
    | Blank(code: nat)
    | LineFeed
    | CarriageReturn
    | LineSeparator(code: nat)
    | Other(code: nat)

  type Text = seq<Ch>

  predicate IsSpace(c: Ch) {
    c.Blank? || c.LineFeed? || c.CarriageReturn? || c.LineSeparator?
  }

  /** A letter or a digit of any script: what a staff code starts with. */
  predicate IsCodeHead(c: Ch) {
    c.Alnum? || c.AsciiDigit?
  }

  predicate IsWordChar(c: Ch) {
    IsCodeHead(c) || c.Underscore?
  }

  predicate IsCodePunct(c: Ch) {
    c.Dot? || c.Underscore? || c.Dash?
  }

  predicate IsCodeChar(c: Ch) {
    IsCodeHead(c) || IsCodePunct(c)
  }

  /** The characters that mark bold and italic, and that the rendering may drop. */
  predicate IsMarker(c: Ch) {
    c.Star? || c.Underscore?
  }

  predicate WordCharAt(t: Text, i: int) {
    0 <= i < |t| && IsWordChar(t[i])
  }

  predicate HasSolidEdges(inner: Text) {
    |inner| > 0 && !IsSpace(inner[0]) && !IsSpace(inner[|inner| - 1])
  }

  predicate NoMarkers(t: Text) {
    forall i :: 0 <= i < |t| ==> !IsMarker(t[i])
  }
}
