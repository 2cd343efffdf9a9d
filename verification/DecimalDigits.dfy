/**
 The value of a Unicode decimal digit, read off the layout of the code chart rather than a table,
 with a memo of the values found so far (apps/api/src/common/utils/pii-text.ts:268-304).

 The chart is the set of code points of general category Nd.  Section 4.6 of the Unicode Standard
 puts those code points in contiguous blocks of ten, each starting at its digit zero.
 */
module DecimalDigits {

  /** `starts` are the digit zeros: Nd is exactly the union of the ten-long, disjoint blocks there. */
  ghost predicate IsBlockChart(nd: set<nat>, starts: set<nat>) {
    && (forall s, c :: s in starts && InBlock(s, c) ==> c in nd)
    && (forall c :: c in nd ==> exists s :: s in starts && InBlock(s, c))
    && (forall s, s' :: s in starts && s' in starts && s < s' ==> s + 10 <= s')
  }

  predicate InBlock(start: nat, code: nat) {
    start <= code < start + 10
  }

  /** The first code point of the unbroken run of decimal digits that reaches up to `code`. */
  function RunStart(nd: set<nat>, code: nat): (start: nat)
    ensures start <= code
    ensures forall c: nat :: start <= c < code ==> c in nd
    ensures start == 0 || start - 1 !in nd
  {
    if code > 0 && code - 1 in nd then RunStart(nd, code - 1) else code
  }

  /** The remainder that the scanner takes. */
  function ValueOf(nd: set<nat>, code: nat): nat {
    (code - RunStart(nd, code)) % 10
  }

  /** Runs have one start only, so any position inside a run leads back to it. */
  lemma {:induction false} RunStartThrough(nd: set<nat>, from: nat, code: nat)
    requires from <= code
    requires forall c: nat :: from <= c < code ==> c in nd
    ensures RunStart(nd, code) == RunStart(nd, from)
    decreases code
  {
    if from < code {
      assert code - 1 in nd;
      RunStartThrough(nd, from, code - 1);
    }
  }

  /** A block starts a whole number of blocks after its run does, even when blocks abut. */
  lemma {:induction false} BlocksAlign(nd: set<nat>, starts: set<nat>, s: nat)
    requires IsBlockChart(nd, starts) && s in starts
    ensures (s - RunStart(nd, s)) % 10 == 0
    decreases s
  {
    if s > 0 && s - 1 in nd {
      var s' :| s' in starts && InBlock(s', s - 1);
      assert s == s' + 10;
      forall c: nat | s' <= c < s
        ensures c in nd
      {
        assert InBlock(s', c);
      }
      RunStartThrough(nd, s', s);
      BlocksAlign(nd, starts, s');
      WholeBlocksAdd(s' - RunStart(nd, s'));
    }
  }

  /**
   The remainder is the digit's offset in its own block, which is its value:
   true on every chart made of blocks of ten, wherever the blocks are and however many abut.
   */
  lemma RemainderIsBlockOffset(nd: set<nat>, starts: set<nat>, s: nat, code: nat)
    requires IsBlockChart(nd, starts) && s in starts && InBlock(s, code)
    ensures ValueOf(nd, code) == code - s
  {
    forall c: nat | s <= c < code
      ensures c in nd
    {
      assert InBlock(s, c);
    }
    hide RunStart, IsBlockChart;
    var start := RunStart(nd, s);
    RunStartThrough(nd, s, code);
    BlocksAlign(nd, starts, s);
    RemainderOfSum(s - start, code - s);
    assert (s - start) + (code - s) == code - start;
  }

  lemma ValueIs(nd: set<nat>, code: nat)
    ensures ValueOf(nd, code) == (code - RunStart(nd, code)) % 10
  {}

  lemma WholeBlocksAdd(multiple: int)
    requires multiple % 10 == 0
    ensures (multiple + 10) % 10 == 0
  {}

  lemma RemainderOfSum(multiple: int, k: int)
    requires multiple % 10 == 0 && 0 <= k < 10
    ensures (multiple + k) % 10 == k
  {}

  /** The memo, and the chart it is computed from. */
  class DigitValues {
    const nd: set<nat>
    var cached: map<nat, nat>

    /** Every remembered value is the one a fresh computation would give. */
    ghost predicate Valid()
      reads this
    {
      forall code :: code in cached ==> cached[code] == ValueOf(nd, code)
    }

    constructor (nd: set<nat>)
      ensures Valid() && this.nd == nd && cached == map[]
    {
      this.nd := nd;
      cached := map[];
    }

    method DecimalDigitValue(code: nat) returns (value: nat)
      requires Valid()
      modifies this`cached
      ensures Valid()
      ensures value == ValueOf(nd, code)
      ensures cached == old(cached)[code := value]
    {
      hide ValueOf;
      if code in cached {
        value := cached[code];
        return;
      }
      var blockRunStart := code;
      while blockRunStart > 0 && blockRunStart - 1 in nd
        invariant 0 <= blockRunStart <= code
        invariant RunStart(nd, blockRunStart) == RunStart(nd, code)
      {
        blockRunStart := blockRunStart - 1;
      }
      assert blockRunStart == RunStart(nd, code);
      ValueIs(nd, code);
      value := (code - blockRunStart) % 10;
      cached := cached[code := value];
    }
  }
}
