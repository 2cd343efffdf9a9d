/**
 The shape of a Vietnamese telephone number (apps/api/src/common/utils/pii-text.ts:181-185, 404-454).
 A digit string is taken apart by stripping prefixes; here it is shown to be accepted exactly when it
 is a spelling of a national significant number.
 */
module PhoneNumbers {
  import opened Options
  import opened ScanText

  const NSN_MIN_DIGITS := 9
  const NSN_MAX_DIGITS := 10
  const VN_NSN_LEAD_DIGITS: set<DigitValue> := {2, 3, 5, 7, 8, 9}

  // ---- The reference: how numbers are spelled ----

  predicate IsNationalNumber(n: Digits) {
    NSN_MIN_DIGITS <= |n| <= NSN_MAX_DIGITS && n[0] in VN_NSN_LEAD_DIGITS
  }

  function Zeros(k: nat): (zs: Digits)
    ensures |zs| == k && forall i :: 0 <= i < k ==> zs[i] == 0
  {
    seq(k, _ => 0)
  }

  /** The prefixes in front of the national number: dialling zeros, country code 84, trunk zero. */
  datatype Prefix = Prefix(zeros: nat, countryCode: bool, trunkZero: bool) {
    function Spell(n: Digits): Digits {
      Zeros(zeros) + AfterZeros(n)
    }

    function AfterZeros(n: Digits): Digits {
      if !countryCode then n else if trunkZero then [8, 4, 0] + n else [8, 4] + n
    }
  }

  predicate StartsWith84(ds: Digits) {
    |ds| >= 2 && ds[0] == 8 && ds[1] == 4
  }

  predicate StartsWith0084(ds: Digits) {
    |ds| >= 4 && ds[0] == 0 && ds[1] == 0 && ds[2] == 8 && ds[3] == 4
  }

  predicate StartsWith0(ds: Digits) {
    |ds| >= 1 && ds[0] == 0
  }

  /**
   The spellings that are recognised.  The dialling prefix 0084 is the odd one: behind it a trunk zero
   is not dropped, and two zeros in front of a number that itself begins 84 are read as that prefix.
   */
  predicate IsRecognised(p: Prefix, n: Digits) {
    && IsNationalNumber(n)
    && (if p.countryCode then p.zeros == 2 ==> !p.trunkZero
        else p.zeros >= 1 && !p.trunkZero && (p.zeros == 2 ==> !StartsWith84(n)))
  }

  ghost predicate IsVietnameseNumber(ds: Digits) {
    exists p, n :: IsRecognised(p, n) && ds == p.Spell(n)
  }

  // ---- What the code does ----

  function WithoutVietnamCountryCode(ds: Digits): Digits
    requires |ds| >= 2
  {
    if |ds| > 2 && ds[2] == 0 then ds[3..] else ds[2..]
  }

  function LeadingZeros(ds: Digits): (k: nat)
    ensures k <= |ds| && ds[..k] == Zeros(k) && (k < |ds| ==> ds[k] != 0)
  {
    if |ds| > 0 && ds[0] == 0 then
      assert ds[..1 + LeadingZeros(ds[1..])] == [ds[0]] + ds[1..][..LeadingZeros(ds[1..])];
      1 + LeadingZeros(ds[1..])
    else 0
  }

  const COUNTRY_CODE_MIN_DIGITS := 11

  function NationalSignificantNumberOf(ds: Digits): Option<Digits> {
    if StartsWith0084(ds) then Some(ds[4..])
    else if StartsWith84(ds) then Some(WithoutVietnamCountryCode(ds))
    else if StartsWith0(ds) then
      var rest := ds[LeadingZeros(ds)..];
      Some(if StartsWith84(rest) && |rest| >= COUNTRY_CODE_MIN_DIGITS
           then WithoutVietnamCountryCode(rest) else rest)
    else None
  }

  method NationalSignificantNumber(digits: Digits) returns (nsn: Option<Digits>)
    ensures nsn == NationalSignificantNumberOf(digits)
  {
    if StartsWith0084(digits) {
      return Some(digits[4..]);
    }
    if StartsWith84(digits) {
      return Some(WithoutVietnamCountryCode(digits));
    }
    if StartsWith0(digits) {
      var start := 0;
      while start < |digits| && digits[start] == 0
        invariant 0 <= start <= |digits|
        invariant LeadingZeros(digits) == start + LeadingZeros(digits[start..])
      {
        assert digits[start..][1..] == digits[start + 1..];
        start := start + 1;
      }
      var withoutLeadingZeros := digits[start..];
      return Some(
        if StartsWith84(withoutLeadingZeros) && |withoutLeadingZeros| >= COUNTRY_CODE_MIN_DIGITS
        then WithoutVietnamCountryCode(withoutLeadingZeros) else withoutLeadingZeros);
    }
    return None;
  }

  method LooksLikeVietnamesePhone(digits: Digits) returns (looks: bool)
    ensures looks <==> IsVietnameseNumber(digits)
  {
    RecognisedIffSpelled(digits);
    var nsn := NationalSignificantNumber(digits);
    match nsn
    case None => return false;
    case Some(n) =>
      return NSN_MIN_DIGITS <= |n| && |n| <= NSN_MAX_DIGITS && n[0] in VN_NSN_LEAD_DIGITS;
  }

  predicate Recognises(ds: Digits) {
    var nsn := NationalSignificantNumberOf(ds);
    nsn.Some? && IsNationalNumber(nsn.value)
  }

  // ---- The two agree ----

  lemma {:induction false} LeadingZerosOfSpelling(k: nat, rest: Digits)
    requires rest != [] && rest[0] != 0
    ensures LeadingZeros(Zeros(k) + rest) == k
  {
    if k > 0 {
      assert (Zeros(k) + rest)[1..] == Zeros(k - 1) + rest;
      LeadingZerosOfSpelling(k - 1, rest);
    } else {
      assert Zeros(0) + rest == rest;
    }
  }

  /** Every recognised spelling is taken back to the national number it spells. */
  lemma SpellingIsUndone(p: Prefix, n: Digits)
    requires IsRecognised(p, n)
    ensures NationalSignificantNumberOf(p.Spell(n)) == Some(n)
  {
    var ds, tail := p.Spell(n), p.AfterZeros(n);
    LeadingZerosOfSpelling(p.zeros, tail);
    assert ds[p.zeros..] == tail;
    if p.countryCode {
      assert WithoutVietnamCountryCode(tail) == n;
    }
    if p.zeros == 0 {
      assert ds == tail;
    } else if p.zeros == 1 {
      assert ds[1] == tail[0];
    } else if p.zeros == 2 {
      assert ds[2] == tail[0] && ds[3] == tail[1] && ds[4..] == tail[2..];
    } else {
      assert ds[2] == 0;
    }
  }

  /** Conversely, whatever is recognised is such a spelling. */
  lemma RecognisedIsSpelled(ds: Digits) returns (p: Prefix, n: Digits)
    requires Recognises(ds)
    ensures IsRecognised(p, n) && ds == p.Spell(n)
  {
    n := NationalSignificantNumberOf(ds).value;
    if StartsWith0084(ds) {
      p := Prefix(2, true, false);
      assert ds == [0, 0, 8, 4] + n;
      return;
    }
    var k := LeadingZeros(ds);
    var rest := ds[k..];
    assert ds == Zeros(k) + rest;
    assert k == 2 && |rest| > 1 ==> ds[2] == rest[0] && ds[3] == rest[1];
    if StartsWith84(rest) && (k == 0 || |rest| >= COUNTRY_CODE_MIN_DIGITS) {
      p := Prefix(k, true, rest[2] == 0);
      assert rest == p.AfterZeros(n);
    } else {
      p := Prefix(k, false, false);
    }
  }

  /**
   No spelling is accepted by accident: behind any prefix a national number is recognised exactly if
   `IsRecognised` says so.  So 00840N is not, nor 00N for a number that itself begins 84.
   */
  lemma SpellingIsRecognisedIff(p: Prefix, n: Digits)
    requires IsNationalNumber(n) && (p.trunkZero ==> p.countryCode)
    ensures Recognises(p.Spell(n)) <==> IsRecognised(p, n)
  {
    var ds, tail := p.Spell(n), p.AfterZeros(n);
    if IsRecognised(p, n) {
      SpellingIsUndone(p, n);
    } else if p.zeros == 2 {
      assert ds[..2] == Zeros(2) && ds[2] == tail[0] && ds[3] == tail[1];
      assert ds[4..] == tail[2..];
    } else {
      assert p.zeros == 0 && ds == n;
    }
  }

  /** The two kinds of spelling that the prefix 0084 hides. */
  lemma NotRecognised(n: Digits)
    requires IsNationalNumber(n)
    ensures !Recognises([0, 0, 8, 4, 0] + n)
    ensures StartsWith84(n) ==> !Recognises([0, 0] + n)
  {
    assert Prefix(2, true, true).Spell(n) == [0, 0, 8, 4, 0] + n;
    SpellingIsRecognisedIff(Prefix(2, true, true), n);
    assert Prefix(2, false, false).Spell(n) == [0, 0] + n;
    SpellingIsRecognisedIff(Prefix(2, false, false), n);
  }

  lemma RecognisedIffSpelled(ds: Digits)
    ensures Recognises(ds) <==> IsVietnameseNumber(ds)
  {
    if Recognises(ds) {
      var p, n := RecognisedIsSpelled(ds);
    }
    if IsVietnameseNumber(ds) {
      var p, n :| IsRecognised(p, n) && ds == p.Spell(n);
      SpellingIsUndone(p, n);
    }
  }

  /** The country-code branch may drop its length test: shorter strings fail the digit count anyway. */
  lemma LengthTestRedundantAfterCountryCode(ds: Digits)
    requires StartsWith84(ds) && |ds| < COUNTRY_CODE_MIN_DIGITS
    ensures !Recognises(ds)
  {}

  /** After leading zeros the same test is needed: without it this accepted number would be lost. */
  lemma LengthTestNeededAfterZeros()
    ensures var ds: Digits := [0, 0, 0, 8, 4, 1, 2, 3, 4, 5, 6, 7];
            && Recognises(ds)
            && !IsNationalNumber(WithoutVietnamCountryCode(ds[LeadingZeros(ds)..]))
  {
    LeadingZerosOfSpelling(3, [8, 4, 1, 2, 3, 4, 5, 6, 7]);
    var ds: Digits := [0, 0, 0, 8, 4, 1, 2, 3, 4, 5, 6, 7];
    assert ds == Zeros(3) + [8, 4, 1, 2, 3, 4, 5, 6, 7];
  }
}
