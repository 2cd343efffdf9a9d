/**
 Cutting a text into clusters of digit groups (apps/api/src/common/utils/pii-text.ts:246-252, 330-402).
 Positions of the groups are kept as ghost spans, so that the result is stated about the text itself.
 */
module DigitClusters {
  import opened ScanText

  /** A gap between two digit groups of one cluster is at most this long. */
  const MAX_SEPARATOR_LENGTH := 3

  datatype DigitCluster = DigitCluster(groups: seq<Digits>, hasPlusPrefix: bool)

  /** The half-open range of positions of one digit group. */
  datatype Span = Span(lo: nat, hi: nat)

  // ---- What the scanner is to find, said of the text ----

  predicate IsDigitAt(t: Text, i: int) {
    0 <= i < |t| && t[i].Digit?
  }

  predicate DigitsThroughout(t: Text, lo: nat, hi: nat) {
    hi <= |t| && forall i :: lo <= i < hi ==> t[i].Digit?
  }

  predicate NoDigits(t: Text, lo: nat, hi: nat) {
    hi <= |t| && forall i :: lo <= i < hi ==> !t[i].Digit?
  }

  predicate Fills(t: Text, lo: nat, hi: nat) {
    hi <= |t| && forall i :: lo <= i < hi ==> IsFiller(t[i])
  }

  /** A digit run that no neighbouring digit extends. */
  predicate IsMaximalRun(t: Text, s: Span) {
    && s.lo < s.hi
    && DigitsThroughout(t, s.lo, s.hi)
    && !IsDigitAt(t, s.lo - 1)
    && !IsDigitAt(t, s.hi)
  }

  /** The gap from the end `hi` of one digit run to the start `lo` of the next keeps them together. */
  predicate Joins(t: Text, hi: nat, lo: nat) {
    && hi < lo <= hi + MAX_SEPARATOR_LENGTH
    && IsDigitAt(t, hi - 1)
    && IsDigitAt(t, lo)
    && Fills(t, hi, lo)
  }

  /** No earlier digit run is close enough to draw the run at `lo` into its cluster. */
  ghost predicate StartsCluster(t: Text, lo: nat) {
    IsDigitAt(t, lo) && !IsDigitAt(t, lo - 1) && forall hi :: !Joins(t, hi, lo)
  }

  ghost predicate EndsCluster(t: Text, hi: nat) {
    IsDigitAt(t, hi - 1) && !IsDigitAt(t, hi) && forall lo :: !Joins(t, hi, lo)
  }

  predicate AreRuns(t: Text, w: seq<Span>) {
    forall k :: 0 <= k < |w| ==> IsRunAt(t, w, k)
  }

  predicate IsRunAt(t: Text, w: seq<Span>, k: nat)
    requires k < |w|
  {
    IsMaximalRun(t, w[k])
  }

  /** Neighbouring maximal runs, each joined to the one before. */
  ghost predicate IsChain(t: Text, w: seq<Span>) {
    |w| > 0 && AreRuns(t, w) && forall k :: 0 < k < |w| ==> IsLinkAt(t, w, k)
  }

  predicate IsLinkAt(t: Text, w: seq<Span>, k: nat)
    requires 0 < k < |w|
  {
    Joins(t, w[k - 1].hi, w[k].lo)
  }

  function SpanDigits(t: Text, s: Span): (ds: Digits)
    requires DigitsThroughout(t, s.lo, s.hi) && s.lo <= s.hi
    ensures |ds| == s.hi - s.lo
  {
    Values(t[s.lo..s.hi])
  }

  function ChainGroups(t: Text, w: seq<Span>): (groups: seq<Digits>)
    requires AreRuns(t, w)
    ensures |groups| == |w|
    ensures forall k :: 0 <= k < |w| ==> IsRunAt(t, w, k) && groups[k] == SpanDigits(t, w[k])
  {
    seq(|w|, k requires 0 <= k < |w| => assert IsRunAt(t, w, k); SpanDigits(t, w[k]))
  }

  /** All maximal digit runs from position `i` on, in order; `i` must not split a run. */
  function Runs(t: Text, i: nat): (runs: seq<Span>)
    requires i <= |t|
    decreases |t| - i
  {
    if i == |t| then []
    else if !t[i].Digit? then Runs(t, i + 1)
    else [Span(i, RunEnd(t, i))] + Runs(t, RunEnd(t, i))
  }

  function RunEnd(t: Text, i: nat): (e: nat)
    requires i <= |t|
    ensures i <= e <= |t| && (IsDigitAt(t, i) ==> i < e)
    ensures DigitsThroughout(t, i, e) && !IsDigitAt(t, e)
    decreases |t| - i
  {
    if i < |t| && t[i].Digit? then RunEnd(t, i + 1) else i
  }

  /** The run list is the set of maximal runs: nothing missing, nothing split, in text order. */
  lemma {:induction false} RunsAreTheMaximalRuns(t: Text, i: nat)
    requires i <= |t| && !IsDigitAt(t, i - 1)
    ensures forall s :: s in Runs(t, i) <==> i <= s.lo && IsMaximalRun(t, s)
    ensures forall j, k :: 0 <= j < k < |Runs(t, i)| ==> Runs(t, i)[j].hi < Runs(t, i)[k].lo
    decreases |t| - i
  {
    if i < |t| {
      if !t[i].Digit? {
        RunsAreTheMaximalRuns(t, i + 1);
      } else {
        var e := RunEnd(t, i);
        RunsFromRunEnd(t, e);
        assert IsMaximalRun(t, Span(i, e));
        forall s | IsMaximalRun(t, s) && i <= s.lo <= e
          ensures s == Span(i, e)
        {
          assert s.lo == e || s.lo == i || IsDigitAt(t, s.lo - 1);
          assert s.hi < e ==> IsDigitAt(t, s.hi);
          assert e < s.hi ==> IsDigitAt(t, e);
        }
        if e < |t| {
          RunsAreTheMaximalRuns(t, e + 1);
        }
      }
    }
  }

  lemma RunsFromRunEnd(t: Text, e: nat)
    requires e <= |t| && !IsDigitAt(t, e)
    ensures Runs(t, e) == if e == |t| then [] else Runs(t, e + 1)
  {}

  lemma {:induction false} RunsSkipGap(t: Text, i: nat, j: nat)
    requires i <= j <= |t| && NoDigits(t, i, j)
    ensures Runs(t, i) == Runs(t, j)
    decreases j - i
  {
    if i < j {
      RunsSkipGap(t, i + 1, j);
    }
  }

  function Concat<T>(parts: seq<seq<T>>): (all: seq<T>) {
    if parts == [] then [] else Concat(parts[..|parts| - 1]) + parts[|parts| - 1]
  }

  lemma {:induction false} ConcatMember<T>(parts: seq<seq<T>>, x: T) returns (c: nat, g: nat)
    requires x in Concat(parts)
    ensures c < |parts| && g < |parts[c]| && parts[c][g] == x
  {
    var last := |parts| - 1;
    if x in parts[last] {
      c := last;
      g :| 0 <= g < |parts[last]| && parts[last][g] == x;
    } else {
      c, g := ConcatMember(parts[..last], x);
    }
  }

  // ---- The plus sign in front of a cluster ----

  /** Some character of the up to three before `lo` is a plus, with no letter or newline after it. */
  ghost predicate PlusBefore(t: Text, lo: nat) {
    exists p :: IsPlusBefore(t, p, lo)
  }

  predicate IsPlusBefore(t: Text, p: int, lo: nat) {
    && 0 <= p < lo <= |t|
    && lo - p <= MAX_SEPARATOR_LENGTH
    && t[p] == Plus
    && forall i :: p < i < lo ==> !t[i].Letter? && !t[i].Newline?
  }

  method SeparatorBeforeHasPlus(text: Text, digitStart: nat)
    returns (found: bool, ghost readCount: nat)
    requires digitStart <= |text|
    ensures found <==> PlusBefore(text, digitStart)
    ensures readCount <= MAX_SEPARATOR_LENGTH
  {
    readCount := 0;
    var offset := 1;
    while offset <= MAX_SEPARATOR_LENGTH
      invariant 1 <= offset <= MAX_SEPARATOR_LENGTH + 1
      invariant offset - 1 <= digitStart
      invariant readCount == offset - 1
      invariant forall i :: digitStart - offset < i < digitStart ==>
        text[i] != Plus && !text[i].Letter? && !text[i].Newline?
    {
      var position := digitStart - offset;
      if position < 0 {
        found := false;
        return;
      }
      var ch := text[position];
      readCount := readCount + 1;
      if ch.Letter? || ch.Newline? {
        found := false;
        return;
      }
      if ch == Plus {
        assert IsPlusBefore(text, position, digitStart);
        found := true;
        return;
      }
      offset := offset + 1;
    }
    found := false;
  }

  ghost predicate PlusBeforeWithDigitStop(t: Text, lo: nat) {
    exists p: nat :: IsPlusBefore(t, p, lo) && NoDigits(t, p, lo)
  }

  /**
   The scan back for a plus has no stop at digits, and needs none: at the start of a cluster the
   plus it finds is never on the far side of a digit.
   */
  lemma PlusScanNeedsNoDigitStop(t: Text, lo: nat)
    requires StartsCluster(t, lo)
    ensures PlusBefore(t, lo) <==> PlusBeforeWithDigitStop(t, lo)
  {
    if PlusBefore(t, lo) {
      var p: int :| IsPlusBefore(t, p, lo);
      NoDigitAfterPlus(t, p, lo);
    }
  }

  lemma NoDigitAfterPlus(t: Text, p: nat, lo: nat)
    requires StartsCluster(t, lo) && IsPlusBefore(t, p, lo)
    ensures NoDigits(t, p, lo)
  {
    if !NoDigits(t, p, lo) {
      var i := lo - 1;
      while !t[i].Digit?
        invariant p <= i < lo
        invariant NoDigits(t, i + 1, lo) && !Joins(t, i + 1, lo)
        decreases i
      {
        i := i - 1;
      }
      assert false;
    }
  }

  // ---- The cut itself ----

  ghost predicate IsCluster(t: Text, cluster: DigitCluster, w: seq<Span>) {
    && IsLongestChain(t, w)
    && cluster.groups == ChainGroups(t, w)
    && (cluster.hasPlusPrefix <==> PlusBefore(t, w[0].lo))
  }

  /** A chain that joins on to no run before it and none after it. */
  ghost predicate IsLongestChain(t: Text, w: seq<Span>) {
    IsChain(t, w) && StartsCluster(t, w[0].lo) && EndsCluster(t, w[|w| - 1].hi)
  }

  /** The clusters hold every maximal digit run once, in order, and are cut exactly where runs do not join. */
  ghost predicate IsClustering(t: Text, clusters: seq<DigitCluster>, spans: seq<seq<Span>>) {
    && Concat(spans) == Runs(t, 0)
    && AreClusters(t, clusters, spans)
  }

  /** The clusters of the text before `index`. */
  ghost predicate ClustersUpTo(t: Text, clusters: seq<DigitCluster>, spans: seq<seq<Span>>, index: nat) {
    && index <= |t|
    && Concat(spans) + Runs(t, index) == Runs(t, 0)
    && AreClusters(t, clusters, spans)
  }

  lemma NextCluster(t: Text, clusters: seq<DigitCluster>, spans: seq<seq<Span>>, index: nat,
                    cluster: DigitCluster, w: seq<Span>, end: nat)
    requires ClustersUpTo(t, clusters, spans, index)
    requires IsCluster(t, cluster, w) && end <= |t| && Runs(t, index) == w + Runs(t, end)
    ensures ClustersUpTo(t, clusters + [cluster], spans + [w], end)
  {
    var clusters', spans' := clusters + [cluster], spans + [w];
    assert spans'[..|spans'| - 1] == spans;
    forall c | 0 <= c < |spans'|
      ensures IsClusterAt(t, clusters', spans', c)
    {
      assert c < |spans| ==> IsClusterAt(t, clusters, spans, c);
    }
    assert Concat(spans) + (w + Runs(t, end)) == (Concat(spans) + w) + Runs(t, end);
  }

  ghost predicate AreClusters(t: Text, clusters: seq<DigitCluster>, spans: seq<seq<Span>>) {
    |clusters| == |spans| && forall c :: 0 <= c < |spans| ==> IsClusterAt(t, clusters, spans, c)
  }

  ghost predicate IsClusterAt(t: Text, clusters: seq<DigitCluster>, spans: seq<seq<Span>>, c: nat)
    requires c < |clusters| == |spans|
  {
    IsCluster(t, clusters[c], spans[c])
  }

  /** Where the scan stands between two clusters: `last` ends the last cluster, if there is one. */
  ghost predicate BetweenClusters(t: Text, last: nat, index: nat) {
    last <= index <= |t| && NoDigits(t, last, index) && (last == 0 || EndsCluster(t, last))
  }

  lemma NextClusterStarts(t: Text, last: nat, index: nat)
    requires BetweenClusters(t, last, index) && IsDigitAt(t, index)
    ensures StartsCluster(t, index)
  {
    assert last > 0 ==> !IsDigitAt(t, last);
    forall hi: nat
      ensures !Joins(t, hi, index)
    {
      assert Joins(t, hi, index) ==> hi <= last;
      assert hi < last && Fills(t, hi, index) ==> IsFiller(t[last - 1]);
    }
  }

  lemma AppendGroup(t: Text, w: seq<Span>, s: Span)
    requires w == [] || IsChain(t, w)
    requires IsMaximalRun(t, s) && (w != [] ==> Joins(t, w[|w| - 1].hi, s.lo))
    ensures IsChain(t, w + [s])
    ensures ChainGroups(t, w + [s]) == ChainGroups(t, w) + [SpanDigits(t, s)]
  {
    var w' := w + [s];
    forall k | 0 <= k < |w'|
      ensures IsRunAt(t, w', k) && (k > 0 ==> IsLinkAt(t, w', k))
    {
      if k < |w| {
        assert IsRunAt(t, w, k) && (k > 0 ==> IsLinkAt(t, w, k));
      }
    }
  }

  /** The groups read so far of the cluster that starts at `index`; the last of them ends at `end`. */
  ghost predicate GroupsUpTo(t: Text, index: nat, groups: seq<Digits>, w: seq<Span>, end: nat) {
    && end <= |t|
    && (if w == [] then end == index else IsChain(t, w) && w[0].lo == index && w[|w| - 1].hi == end)
    && AreRuns(t, w)
    && groups == ChainGroups(t, w)
    && Runs(t, index) == w + Runs(t, end)
  }

  lemma NoGroups(t: Text, index: nat)
    requires index <= |t|
    ensures GroupsUpTo(t, index, [], [], index)
  {
    assert [] + Runs(t, index) == Runs(t, index);
  }

  lemma NextGroup(t: Text, index: nat, groups: seq<Digits>, w: seq<Span>, end: nat, s: Span)
    requires GroupsUpTo(t, index, groups, w, end)
    requires IsMaximalRun(t, s) && s.hi == RunEnd(t, s.lo)
    requires IsDue(t, index, end, s.lo)
    ensures GroupsUpTo(t, index, groups + [Values(t[s.lo..s.hi])], w + [s], s.hi)
  {
    AppendGroup(t, w, s);
    RunsSkipGap(t, end, s.lo);
    assert Runs(t, s.lo) == [s] + Runs(t, s.hi);
    assert w + ([s] + Runs(t, s.hi)) == (w + [s]) + Runs(t, s.hi);
  }

  /** Where the next group of the cluster may start. */
  ghost predicate IsDue(t: Text, index: nat, end: nat, cursor: nat) {
    && IsDigitAt(t, cursor) && !IsDigitAt(t, cursor - 1)
    && (if end == index then cursor == end else Joins(t, end, cursor))
  }

  lemma ClusterComplete(t: Text, index: nat, groups: seq<Digits>, w: seq<Span>, end: nat, hasPlusPrefix: bool)
    requires GroupsUpTo(t, index, groups, w, end) && index < end
    requires StartsCluster(t, index) && EndsCluster(t, end)
    requires hasPlusPrefix <==> PlusBefore(t, index)
    ensures IsCluster(t, DigitCluster(groups, hasPlusPrefix), w)
    ensures w[0].lo == index && w[|w| - 1].hi == end
    ensures Runs(t, index) == w + Runs(t, end)
  {}

  method ReadGroup(text: Text, groupStart: nat) returns (cursor: nat, ghost readCount: nat)
    requires IsDigitAt(text, groupStart) && !IsDigitAt(text, groupStart - 1)
    ensures groupStart < cursor <= |text|
    ensures IsMaximalRun(text, Span(groupStart, cursor)) && cursor == RunEnd(text, groupStart)
    ensures readCount == (cursor - groupStart) + (if cursor < |text| then 1 else 0)
  {
    cursor, readCount := groupStart, 0;
    while cursor < |text| && text[cursor].Digit?
      invariant groupStart <= cursor <= |text|
      invariant DigitsThroughout(text, groupStart, cursor)
      invariant RunEnd(text, cursor) == RunEnd(text, groupStart)
      invariant readCount == cursor - groupStart
    {
      cursor := cursor + 1;
      readCount := readCount + 1;
    }
    if cursor < |text| {
      readCount := readCount + 1;  // the character at which the loop ends
    }
  }

  /** How far the search for a newline reads. */
  function NewlineSearch(separator: Text): (n: nat)
    ensures n <= |separator|
  {
    if separator == [] then 0 else if separator[0].Newline? then 1 else 1 + NewlineSearch(separator[1..])
  }

  /** Looks through the gap after a group: to the next digit, or to where no digit can join any more. */
  method ReadSeparator(text: Text, cursor: nat)
    returns (joins: bool, separatorEnd: nat, ghost readCount: nat)
    requires IsDigitAt(text, cursor - 1) && !IsDigitAt(text, cursor)
    ensures cursor <= separatorEnd <= |text| && NoDigits(text, cursor, separatorEnd)
    ensures if joins then Joins(text, cursor, separatorEnd) else EndsCluster(text, cursor)
    ensures 3 * (separatorEnd - cursor) <= readCount <= 4 * (separatorEnd - cursor) + 3
  {
    separatorEnd, readCount := cursor, 0;
    while separatorEnd < |text| && !text[separatorEnd].Digit? && !text[separatorEnd].Letter?
      invariant cursor <= separatorEnd <= |text|
      invariant forall i :: cursor <= i < separatorEnd ==> !text[i].Digit? && !text[i].Letter?
      invariant readCount == 2 * (separatorEnd - cursor)
    {
      separatorEnd := separatorEnd + 1;
      readCount := readCount + 2;  // asked for a digit and for a letter
    }
    if separatorEnd < |text| {
      readCount := readCount + if text[separatorEnd].Digit? then 1 else 2;  // where the loop ends
    }
    var separator := text[cursor..separatorEnd];
    readCount := readCount + |separator|;
    var continuesWithDigit := separatorEnd < |text| && text[separatorEnd].Digit?;
    readCount := readCount + if separatorEnd < |text| then 1 else 0;
    var hasNewline := exists i :: 0 <= i < |separator| && separator[i].Newline?;
    joins := !(!continuesWithDigit || |separator| > MAX_SEPARATOR_LENGTH || hasNewline);
    if continuesWithDigit && |separator| <= MAX_SEPARATOR_LENGTH {
      readCount := readCount + NewlineSearch(separator);  // otherwise the newline test is not made
    }
    if joins {
      assert forall i :: cursor <= i < separatorEnd ==> text[i] == separator[i - cursor];
    } else {
      GapCuts(text, cursor, separatorEnd);
    }
  }

  /**
   The body of the scan at the first digit of a cluster: reads groups and gaps until a gap cuts.  Reads are
   those of the conditions, of the slices and of the newline test.
   */
  method CollectCluster(text: Text, index: nat)
    returns (cluster: DigitCluster, cursor: nat, ghost w: seq<Span>, ghost seen: nat, ghost readCount: nat)
    requires StartsCluster(text, index)
    ensures IsCluster(text, cluster, w)
    ensures w[0].lo == index < cursor == w[|w| - 1].hi && EndsCluster(text, cursor)
    ensures Runs(text, index) == w + Runs(text, cursor)
    ensures cursor <= seen <= |text| && NoDigits(text, cursor, seen)
    ensures cursor - index <= readCount < 6 * (cursor - index) + 4 * (seen - index)
  {
    hide Runs, IsMaximalRun, EndsCluster, IsCluster, PlusBefore, NoDigits, GroupsUpTo;
    var groups: seq<Digits> := [];
    var hasPlusPrefix;
    hasPlusPrefix, readCount := SeparatorBeforeHasPlus(text, index);
    w, cursor := [], index;
    NoGroups(text, index);
    ghost var end: nat := index;
    while true
      invariant index <= end <= cursor < |text| && IsDue(text, index, end, cursor)
      invariant GroupsUpTo(text, index, groups, w, end)
      invariant cursor - index <= readCount <= 3 + 6 * (cursor - index)
      decreases |text| - cursor
    {
      var groupEnd, groupReads := ReadGroup(text, cursor);
      NextGroup(text, index, groups, w, end, Span(cursor, groupEnd));
      groups := groups + [Values(text[cursor..groupEnd])];
      readCount := readCount + groupReads + (groupEnd - cursor);
      w := w + [Span(cursor, groupEnd)];
      cursor, end := groupEnd, groupEnd;

      var joins, separatorEnd, gapReads := ReadSeparator(text, cursor);
      readCount := readCount + gapReads;
      seen := separatorEnd;
      if !joins {
        break;
      }
      cursor := separatorEnd;
    }
    ClusterComplete(text, index, groups, w, end, hasPlusPrefix);
    cluster := DigitCluster(groups, hasPlusPrefix);
  }

  /** When the gap after a run is too long, holds a newline or runs into no digit, no run joins across it. */
  lemma GapCuts(t: Text, hi: nat, gapEnd: nat)
    requires 0 < hi <= gapEnd <= |t| && IsDigitAt(t, hi - 1) && !IsDigitAt(t, hi)
    requires forall i :: hi <= i < gapEnd ==> !t[i].Digit? && !t[i].Letter?
    requires gapEnd == |t| || t[gapEnd].Digit? || t[gapEnd].Letter?
    requires !IsDigitAt(t, gapEnd) || gapEnd - hi > MAX_SEPARATOR_LENGTH ||
             exists i :: 0 <= i < gapEnd - hi && t[hi..gapEnd][i].Newline?
    ensures EndsCluster(t, hi)
  {
    forall lo: nat
      ensures !Joins(t, hi, lo)
    {
      assert Joins(t, hi, lo) ==> gapEnd <= lo;
      assert gapEnd < lo && Fills(t, hi, lo) ==> IsFiller(t[gapEnd]);
      assert Fills(t, hi, gapEnd) ==> forall i :: 0 <= i < gapEnd - hi ==> IsFiller(t[hi..gapEnd][i]);
    }
  }

  lemma {:induction false} NoRunsNoDigits(t: Text, i: nat)
    requires i <= |t| && Runs(t, i) == []
    ensures NoDigits(t, i, |t|)
    decreases |t| - i
  {
    if i < |t| {
      NoRunsNoDigits(t, i + 1);
    }
  }

  /** A text with a digit has a cluster, so the scan reads more characters than it has. */
  lemma DigitsMakeClusters(t: Text, clusters: seq<DigitCluster>, spans: seq<seq<Span>>, i: nat)
    requires IsClustering(t, clusters, spans) && IsDigitAt(t, i)
    ensures |clusters| > 0
  {
    if clusters == [] {
      NoRunsNoDigits(t, 0);
    }
  }

  lemma NothingCollected(t: Text)
    ensures ClustersUpTo(t, [], [], 0)
  {
    assert Concat<Span>([]) + Runs(t, 0) == Runs(t, 0);
  }

  lemma NothingToCollect(t: Text, clusters: seq<DigitCluster>, spans: seq<seq<Span>>, index: nat)
    requires ClustersUpTo(t, clusters, spans, index) && index < |t| && !t[index].Digit?
    ensures ClustersUpTo(t, clusters, spans, index + 1)
  {}

  lemma AllCollected(t: Text, clusters: seq<DigitCluster>, spans: seq<seq<Span>>)
    requires ClustersUpTo(t, clusters, spans, |t|)
    ensures IsClustering(t, clusters, spans)
  {
    assert Concat(spans) + [] == Concat(spans);
  }

  /**
   The scan is exact, and linear.  Characters are read again: the first digit of a cluster by both loops, a gap
   that ends a cluster ahead and by the outer loop.  There are at most ten reads for each character, and one for
   each exactly if there is no digit.
   */
  method CollectDigitClusters(text: Text)
    returns (clusters: seq<DigitCluster>, ghost spans: seq<seq<Span>>, ghost readCount: nat)
    ensures IsClustering(text, clusters, spans)
    ensures |text| + |clusters| <= readCount <= 10 * |text|
    ensures readCount == |text| <==> NoDigits(text, 0, |text|)
  {
    hide ClustersUpTo, IsClustering, IsCluster, Runs, StartsCluster, EndsCluster;
    clusters, spans, readCount := [], [], 0;
    NothingCollected(text);
    var index := 0;
    ghost var last := 0;
    ghost var seen := 0;
    while index < |text|
      invariant BetweenClusters(text, last, index)
      invariant ClustersUpTo(text, clusters, spans, index)
      invariant 0 <= seen <= |text| && NoDigits(text, index, seen)
      invariant index + |clusters| <= readCount <= 6 * index + 4 * seen
      invariant if clusters == [] then readCount == index && NoDigits(text, 0, index) else !NoDigits(text, 0, |text|)
    {
      readCount := readCount + 1;
      if !text[index].Digit? {
        NothingToCollect(text, clusters, spans, index);
        index := index + 1;
        continue;
      }
      NextClusterStarts(text, last, index);
      var cluster, cursor, w, ahead, clusterReads := CollectCluster(text, index);
      NextCluster(text, clusters, spans, index, cluster, w, cursor);
      clusters := clusters + [cluster];
      spans := spans + [w];
      readCount := readCount + clusterReads;
      index, last, seen := cursor, cursor, ahead;
    }
    AllCollected(text, clusters, spans);
  }
}
