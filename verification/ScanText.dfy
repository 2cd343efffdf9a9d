/**
 Normalised text as the scanner sees it: each character through the classes the scanner asks about.
 Invisible characters are already gone and decimal digits are already ASCII
 (apps/api/src/common/utils/pii-text.ts:254-264, 311-316).
 */
module ScanText {

  type DigitValue = d: nat | d < 10

  datatype Ch =
    | Digit(value: DigitValue)
    | Letter(code: nat)
    | Newline(code: nat)
    | Space(code: nat)
    | Plus
    | At
    | Dot
    | Other(code: nat)

  type Text = seq<Ch>
  type Digits = seq<DigitValue>

  /** What the text holds between two neighbouring digit groups may join them: no letter, no newline. */
  predicate IsFiller(c: Ch) {
    !c.Digit? && !c.Letter? && !c.Newline?
  }

  /** White space in the sense of `\s`, which includes every newline. */
  predicate IsSpace(c: Ch) {
    c.Space? || c.Newline?
  }

  predicate AllDigits(t: Text) {
    forall i :: 0 <= i < |t| ==> t[i].Digit?
  }

  function Values(t: Text): (ds: Digits)
    requires AllDigits(t)
    ensures |ds| == |t| && forall i :: 0 <= i < |t| ==> ds[i] == t[i].value
  {
    seq(|t|, i requires 0 <= i < |t| => t[i].value)
  }

  function Spell(ds: Digits): (t: Text)
    ensures |t| == |ds| && AllDigits(t) && Values(t) == ds
  {
    seq(|ds|, i requires 0 <= i < |ds| => Digit(ds[i]))
  }
}
