/**
 The email scan and the verdict (apps/api/src/common/utils/pii-text.ts:200-201, 232, 505-541, 650-667).
 */
module PiiText {
  import opened Options
  import opened ScanText
  import opened DigitClusters
  import opened PhoneScan

  datatype PiiKind = PhoneNumber | EmailAddress | IdNumber

  const EMAIL_LOCAL_MIN_AT_INDEX := 1

  /** What the regular expression `\S+@\S+\.\S+` asks for, around an at-sign and a dot. */
  predicate IsEmailAround(t: Text, at: int, dot: int) {
    && 1 <= at && at + 2 <= dot && dot + 2 <= |t|
    && t[at] == At && t[dot] == Dot
    && forall i :: at - 1 <= i < dot + 2 ==> !t[i].Space? && !t[i].Newline?
  }

  ghost predicate HoldsEmail(t: Text) {
    exists at, dot :: IsEmailAround(t, at, dot)
  }

  method IndexOf(t: Text, ch: Ch, from: nat, end: nat) returns (index: int, ghost readCount: nat)
    requires end <= |t|
    ensures index == -1 || (from <= index < end && t[index] == ch)
    ensures forall i :: from <= i < (if index == -1 then end else index) ==> t[i] != ch
    ensures readCount == if end <= from then 0 else if index == -1 then end - from else index - from + 1
  {
    index, readCount := from, 0;
    while index < end
      invariant from <= index && (index <= end || index == from) && readCount == index - from
      invariant forall i :: from <= i < index && i < end ==> t[i] != ch
    {
      readCount := readCount + 1;
      if t[index] == ch {
        return;
      }
      index := index + 1;
    }
    index := -1;
  }

  /** One pass over the white-space separated tokens agrees with the regular expression, in linear time. */
  method HasEmail(text: Text) returns (found: bool, ghost readCount: nat)
    ensures found <==> HoldsEmail(text)
    ensures readCount <= 4 * |text|
  {
    var start := 0;
    readCount := 0;
    while start < |text|
      invariant 0 <= start <= |text| && readCount <= 4 * start
      invariant forall at, dot :: IsEmailAround(text, at, dot) ==> start <= at - 1
    {
      var end := start;
      while end < |text| && !IsSpace(text[end])
        invariant start <= end <= |text|
        invariant forall i :: start <= i < end ==> !IsSpace(text[i])
      {
        end := end + 1;
      }
      readCount := readCount + (end - start) + (if end < |text| then 1 else 0);
      var atIndex, atReads := IndexOf(text, At, start + EMAIL_LOCAL_MIN_AT_INDEX, end);
      readCount := readCount + atReads;
      if atIndex != -1 {
        var dotIndex, dotReads := IndexOf(text, Dot, atIndex + 2, end);
        readCount := readCount + dotReads;
        if dotIndex != -1 && dotIndex <= end - 2 {
          assert IsEmailAround(text, atIndex, dotIndex);
          return true, readCount;
        }
        assert forall at, dot :: IsEmailAround(text, at, dot) && dot <= end - 2 ==> dotIndex != -1 && dotIndex <= dot;
      }
      forall at, dot | IsEmailAround(text, at, dot)
        ensures end <= at - 1
      {
        assert at - 1 < end ==> dot + 2 <= end;
      }
      start := end;
      while start < |text| && IsSpace(text[start])
        invariant end <= start <= |text|
        invariant forall i :: end <= i < start ==> IsSpace(text[i])
      {
        start := start + 1;
      }
      readCount := readCount + (start - end) + (if start < |text| then 1 else 0);
      forall at, dot | IsEmailAround(text, at, dot)
        ensures start <= at - 1
      {
        assert !IsSpace(text[at - 1]);
      }
    }
    return false, readCount;
  }

  /** `\d{9,12}` somewhere in the text. */
  predicate HoldsLongDigitRun(t: Text) {
    exists lo :: 0 <= lo < |t| && IsLongRunAt(t, lo)
  }

  predicate IsLongRunAt(t: Text, lo: nat) {
    DigitsThroughout(t, lo, lo + ID_MIN_DIGITS)
  }

  method DetectPii(normalized: Text, hasIdKeyword: bool) returns (kind: Option<PiiKind>)
    ensures kind == Some(PhoneNumber) <==> HoldsPhone(normalized)
    ensures kind == Some(EmailAddress) <==> !HoldsPhone(normalized) && HoldsEmail(normalized)
    ensures kind == None <==>
      && !HoldsPhone(normalized)
      && !HoldsEmail(normalized)
      && !HoldsLongDigitRun(normalized)
      && !(hasIdKeyword && HoldsIdWindow(normalized))
  {
    var phone := HasPhone(normalized);
    if phone {
      return Some(PhoneNumber);
    }
    var email, _ := HasEmail(normalized);
    if email {
      return Some(EmailAddress);
    }
    var keyworded := HasKeywordedIdCluster(normalized, hasIdKeyword);
    if HoldsLongDigitRun(normalized) || keyworded {
      return Some(IdNumber);
    }
    return None;
  }
}
