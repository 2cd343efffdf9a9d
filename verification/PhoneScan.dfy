/**
 Trying every window of digit groups (apps/api/src/common/utils/pii-text.ts:177-198, 239-244, 461-503, 620-648).
 Both scans leave a starting group early; they are exact all the same, first about one cluster and
 then about the text.
 */
module PhoneScan {
  import opened ScanText
  import opened DigitClusters
  import opened PhoneNumbers

  const MAX_SINGLE_DIGIT_GROUPS := 1
  const MAX_PHONE_DIGITS := 15
  const INTERNATIONAL_MIN_DIGITS := 9
  const ID_MIN_DIGITS := 9
  const ID_MAX_DIGITS := 12

  // ---- Windows ----

  function Singles(window: seq<Digits>): (n: nat) {
    if window == [] then 0
    else Singles(window[..|window| - 1]) + (if |window[|window| - 1]| == 1 then 1 else 0)
  }

  /** What a window must satisfy whatever it is looked at for; no longer window recovers from a failure. */
  predicate IsAdmissible(window: seq<Digits>, maxDigits: nat) {
    Singles(window) <= MAX_SINGLE_DIGIT_GROUPS && |Concat(window)| <= maxDigits
  }

  ghost predicate IsPhoneWindow(window: seq<Digits>, plus: bool) {
    && IsAdmissible(window, MAX_PHONE_DIGITS)
    && (IsVietnameseNumber(Concat(window)) || (plus && |Concat(window)| >= INTERNATIONAL_MIN_DIGITS))
  }

  predicate IsIdWindow(window: seq<Digits>) {
    IsAdmissible(window, ID_MAX_DIGITS) && |Concat(window)| >= ID_MIN_DIGITS
  }

  ghost predicate ClusterHasPhone(cluster: DigitCluster) {
    exists start, end :: 0 <= start < end <= |cluster.groups| && PhoneAt(cluster, start, end)
  }

  /** The plus in front of a cluster vouches only for the windows that begin at its first group. */
  ghost predicate PhoneAt(cluster: DigitCluster, start: nat, end: nat)
    requires start <= end <= |cluster.groups|
  {
    IsPhoneWindow(cluster.groups[start..end], cluster.hasPlusPrefix && start == 0)
  }

  ghost predicate ClusterHasId(cluster: DigitCluster) {
    exists start, end :: 0 <= start < end <= |cluster.groups| && IdAt(cluster, start, end)
  }

  predicate IdAt(cluster: DigitCluster, start: nat, end: nat)
    requires start <= end <= |cluster.groups|
  {
    IsIdWindow(cluster.groups[start..end])
  }

  predicate NonemptyGroups(groups: seq<Digits>) {
    forall k :: 0 <= k < |groups| ==> |groups[k]| > 0
  }

  lemma WindowStep(groups: seq<Digits>, start: nat, end: nat)
    requires start <= end < |groups|
    ensures Concat(groups[start..end + 1]) == Concat(groups[start..end]) + groups[end]
    ensures Singles(groups[start..end + 1]) == Singles(groups[start..end]) + (if |groups[end]| == 1 then 1 else 0)
  {
    assert groups[start..end + 1][..end - start] == groups[start..end];
  }

  lemma {:induction false} WindowsOnlyGrow(groups: seq<Digits>, start: nat, end: nat, end': nat)
    requires start <= end <= end' <= |groups|
    ensures Singles(groups[start..end]) <= Singles(groups[start..end'])
    ensures |Concat(groups[start..end])| <= |Concat(groups[start..end'])|
    decreases end' - end
  {
    if end < end' {
      WindowStep(groups, start, end);
      WindowsOnlyGrow(groups, start, end + 1, end');
    }
  }

  lemma InadmissibleStays(groups: seq<Digits>, start: nat, end: nat, maxDigits: nat)
    requires start <= end <= |groups| && !IsAdmissible(groups[start..end], maxDigits)
    ensures forall e :: end <= e <= |groups| ==> !IsAdmissible(groups[start..e], maxDigits)
  {
    forall e | end <= e <= |groups|
      ensures !IsAdmissible(groups[start..e], maxDigits)
    {
      WindowsOnlyGrow(groups, start, end, e);
    }
  }

  ghost predicate NoPhoneAt(cluster: DigitCluster, start: nat, end: nat)
    requires end <= |cluster.groups|
  {
    forall e :: start < e <= end ==> !PhoneAt(cluster, start, e)
  }

  predicate NoIdAt(cluster: DigitCluster, start: nat, end: nat)
    requires end <= |cluster.groups|
  {
    forall e :: start < e <= end ==> !IdAt(cluster, start, e)
  }

  lemma PhoneBreakOff(cluster: DigitCluster, start: nat, end: nat)
    requires start <= end < |cluster.groups| && NoPhoneAt(cluster, start, end)
    requires !IsAdmissible(cluster.groups[start..end + 1], MAX_PHONE_DIGITS)
    ensures NoPhoneAt(cluster, start, |cluster.groups|)
  {
    InadmissibleStays(cluster.groups, start, end + 1, MAX_PHONE_DIGITS);
  }

  lemma PhoneJudged(cluster: DigitCluster, start: nat, end: nat, vietnamese: bool)
    requires start <= end < |cluster.groups| && NoPhoneAt(cluster, start, end)
    requires IsAdmissible(cluster.groups[start..end + 1], MAX_PHONE_DIGITS)
    requires vietnamese <==> IsVietnameseNumber(Concat(cluster.groups[start..end + 1]))
    ensures var international := cluster.hasPlusPrefix && start == 0 &&
                                 |Concat(cluster.groups[start..end + 1])| >= INTERNATIONAL_MIN_DIGITS;
            if vietnamese || international then ClusterHasPhone(cluster)
            else NoPhoneAt(cluster, start, end + 1)
  {
    hide IsVietnameseNumber, IsAdmissible, Concat;
    assert PhoneAt(cluster, start, end + 1) || NoPhoneAt(cluster, start, end + 1);
  }

  lemma IdBreakOff(cluster: DigitCluster, start: nat, end: nat)
    requires start <= end < |cluster.groups| && NoIdAt(cluster, start, end)
    requires !IsAdmissible(cluster.groups[start..end + 1], ID_MAX_DIGITS)
    ensures NoIdAt(cluster, start, |cluster.groups|)
  {
    InadmissibleStays(cluster.groups, start, end + 1, ID_MAX_DIGITS);
  }

  /** The rounds that were run for each starting group, in order. */
  predicate AreWithin(rounds: seq<nat>, bound: nat) {
    forall k :: 0 <= k < |rounds| ==> rounds[k] <= bound
  }

  /** Breaking off is no loss, and comes within sixteen groups of each start. */
  method ClusterLooksLikePhone(cluster: DigitCluster) returns (looks: bool, ghost rounds: seq<nat>)
    requires NonemptyGroups(cluster.groups)
    ensures looks <==> ClusterHasPhone(cluster)
    ensures |rounds| <= |cluster.groups| && AreWithin(rounds, 16)
  {
    hide IsVietnameseNumber, PhoneAt;
    var groups, hasPlusPrefix := cluster.groups, cluster.hasPlusPrefix;
    rounds := [];
    for start := 0 to |groups|
      invariant forall s :: 0 <= s < start ==> NoPhoneAt(cluster, s, |groups|)
      invariant |rounds| == start && AreWithin(rounds, 16)
    {
      rounds := rounds + [0];
      var windowHasPlus := hasPlusPrefix && start == 0;
      var digits: Digits := [];
      var singleDigitGroups := 0;
      var end := start;
      while end < |groups|
        invariant start <= end <= |groups|
        invariant digits == Concat(groups[start..end]) && singleDigitGroups == Singles(groups[start..end])
        invariant IsAdmissible(groups[start..end], MAX_PHONE_DIGITS) && end - start <= |digits|
        invariant NoPhoneAt(cluster, start, end)
        invariant |rounds| == start + 1 && AreWithin(rounds[..start], 16) && rounds[start] == end - start
      {
        rounds := rounds[start := rounds[start] + 1];
        WindowStep(groups, start, end);
        var group := groups[end];
        if |group| == 1 {
          singleDigitGroups := singleDigitGroups + 1;
          if singleDigitGroups > MAX_SINGLE_DIGIT_GROUPS {
            PhoneBreakOff(cluster, start, end);
            break;
          }
        }
        digits := digits + group;
        if |digits| > MAX_PHONE_DIGITS {
          PhoneBreakOff(cluster, start, end);
          break;
        }
        var vietnamese := LooksLikeVietnamesePhone(digits);
        PhoneJudged(cluster, start, end, vietnamese);
        if vietnamese {
          looks := true;
          return;
        }
        if windowHasPlus && |digits| >= INTERNATIONAL_MIN_DIGITS {
          looks := true;
          return;
        }
        end := end + 1;
      }
    }
    forall s, e | 0 <= s < e <= |groups|
      ensures !PhoneAt(cluster, s, e)
    {
      assert NoPhoneAt(cluster, s, |groups|);
    }
    looks := false;
  }

  method ClusterHoldsId(cluster: DigitCluster) returns (holds: bool, ghost rounds: seq<nat>)
    requires NonemptyGroups(cluster.groups)
    ensures holds <==> ClusterHasId(cluster)
    ensures |rounds| <= |cluster.groups| && AreWithin(rounds, 13)
  {
    var groups := cluster.groups;
    rounds := [];
    for start := 0 to |groups|
      invariant forall s :: 0 <= s < start ==> NoIdAt(cluster, s, |groups|)
      invariant |rounds| == start && AreWithin(rounds, 13)
    {
      rounds := rounds + [0];
      var digits := 0;
      var singleDigitGroups := 0;
      var end := start;
      while end < |groups|
        invariant start <= end <= |groups|
        invariant digits == |Concat(groups[start..end])| && singleDigitGroups == Singles(groups[start..end])
        invariant IsAdmissible(groups[start..end], ID_MAX_DIGITS) && end - start <= digits
        invariant NoIdAt(cluster, start, end)
        invariant |rounds| == start + 1 && AreWithin(rounds[..start], 13) && rounds[start] == end - start
      {
        rounds := rounds[start := rounds[start] + 1];
        WindowStep(groups, start, end);
        var group := groups[end];
        if |group| == 1 {
          singleDigitGroups := singleDigitGroups + 1;
          if singleDigitGroups > MAX_SINGLE_DIGIT_GROUPS {
            IdBreakOff(cluster, start, end);
            break;
          }
        }
        digits := digits + |group|;
        if digits > ID_MAX_DIGITS {
          IdBreakOff(cluster, start, end);
          break;
        }
        IdJudged(cluster, start, end);
        if digits >= ID_MIN_DIGITS {
          holds := true;
          return;
        }
        end := end + 1;
      }
    }
    forall s, e | 0 <= s < e <= |groups|
      ensures !IdAt(cluster, s, e)
    {
      assert NoIdAt(cluster, s, |groups|);
    }
    holds := false;
  }

  lemma IdJudged(cluster: DigitCluster, start: nat, end: nat)
    requires start <= end < |cluster.groups| && NoIdAt(cluster, start, end)
    requires IsAdmissible(cluster.groups[start..end + 1], ID_MAX_DIGITS)
    ensures if |Concat(cluster.groups[start..end + 1])| >= ID_MIN_DIGITS then ClusterHasId(cluster)
            else NoIdAt(cluster, start, end + 1)
  {
    assert IdAt(cluster, start, end + 1) || NoIdAt(cluster, start, end + 1);
  }

  // ---- The same, said of the text ----

  /** A chain of digit runs in the text that reads as a telephone number. */
  ghost predicate IsPhoneChain(t: Text, w: seq<Span>) {
    && IsChain(t, w)
    && IsPhoneWindow(ChainGroups(t, w), PlusVouches(t, w))
  }

  /** A plus stands in front of the chain, and the chain begins its cluster. */
  ghost predicate PlusVouches(t: Text, w: seq<Span>)
    requires w != []
  {
    StartsCluster(t, w[0].lo) && PlusBefore(t, w[0].lo)
  }

  ghost predicate IsIdChain(t: Text, w: seq<Span>) {
    IsChain(t, w) && IsIdWindow(ChainGroups(t, w))
  }

  ghost predicate HoldsPhone(t: Text) {
    exists w :: IsPhoneChain(t, w)
  }

  ghost predicate HoldsIdWindow(t: Text) {
    exists w :: IsIdChain(t, w)
  }

  lemma SliceIsChain(t: Text, w: seq<Span>, start: nat, end: nat)
    requires IsChain(t, w) && start < end <= |w|
    ensures IsChain(t, w[start..end])
  {
    var v := w[start..end];
    forall k | 0 <= k < |v|
      ensures IsRunAt(t, v, k) && (k > 0 ==> IsLinkAt(t, v, k))
    {
      assert IsRunAt(t, w, start + k) && (k > 0 ==> IsLinkAt(t, w, start + k));
    }
  }

  lemma SliceGroups(t: Text, w: seq<Span>, start: nat, end: nat)
    requires AreRuns(t, w) && start < end <= |w| && AreRuns(t, w[start..end])
    ensures ChainGroups(t, w[start..end]) == ChainGroups(t, w)[start..end]
  {
    var v := w[start..end];
    forall k | 0 <= k < |v|
      ensures ChainGroups(t, v)[k] == ChainGroups(t, w)[start..end][k]
    {
      assert v[k] == w[start + k];
    }
  }

  lemma PlusVouchesAtStart(t: Text, w: seq<Span>, start: nat, end: nat)
    requires IsLongestChain(t, w) && start < end <= |w|
    ensures PlusVouches(t, w[start..end]) <==> start == 0 && PlusBefore(t, w[0].lo)
  {
    assert w[start..end][0] == w[start];
    assert start > 0 ==> IsLinkAt(t, w, start);
  }

  lemma ClusterWindowIsChain(t: Text, cluster: DigitCluster, w: seq<Span>, start: nat, end: nat)
    requires IsCluster(t, cluster, w) && start < end <= |w|
    ensures IsChain(t, w[start..end])
    ensures ChainGroups(t, w[start..end]) == cluster.groups[start..end]
    ensures PlusVouches(t, w[start..end]) <==> cluster.hasPlusPrefix && start == 0
  {
    SliceIsChain(t, w, start, end);
    SliceGroups(t, w, start, end);
    PlusVouchesAtStart(t, w, start, end);
  }

  lemma JoinedRunIsNext(t: Text, hi: nat, s: Span, s': Span)
    requires IsMaximalRun(t, s) && IsMaximalRun(t, s')
    requires Joins(t, hi, s.lo) && Joins(t, hi, s'.lo)
    ensures s == s'
  {
    assert s.lo < s'.lo ==> !IsFiller(t[s.lo]);
    assert s'.lo < s.lo ==> !IsFiller(t[s'.lo]);
    assert s.hi < s'.hi ==> IsDigitAt(t, s.hi);
    assert s'.hi < s.hi ==> IsDigitAt(t, s'.hi);
  }

  /** The run that joins on to a run of a cluster is the next run of that cluster. */
  lemma JoinedRunIsInCluster(t: Text, spans: seq<Span>, g: nat, s: Span)
    requires IsLongestChain(t, spans) && g < |spans|
    requires IsMaximalRun(t, s) && Joins(t, spans[g].hi, s.lo)
    ensures g + 1 < |spans| && spans[g + 1] == s
  {
    if g + 1 < |spans| {
      assert IsRunAt(t, spans, g + 1) && IsLinkAt(t, spans, g + 1);
      JoinedRunIsNext(t, spans[g].hi, spans[g + 1], s);
    }
  }

  lemma RunLiesInCluster(t: Text, spans: seq<seq<Span>>, s: Span) returns (c: nat, g: nat)
    requires Concat(spans) == Runs(t, 0) && IsMaximalRun(t, s)
    ensures c < |spans| && g < |spans[c]| && spans[c][g] == s
  {
    RunsAreTheMaximalRuns(t, 0);
    c, g := ConcatMember(spans, s);
  }

  lemma NextInChain(t: Text, w: seq<Span>, k: nat)
    requires IsChain(t, w) && 0 < k < |w|
    ensures IsMaximalRun(t, w[k]) && Joins(t, w[k - 1].hi, w[k].lo)
  {
    assert IsRunAt(t, w, k) && IsLinkAt(t, w, k);
  }

  /** A chain that starts in a cluster stays in it. */
  lemma {:induction false} ChainStaysInCluster(t: Text, spans: seq<Span>, start: nat, w: seq<Span>, k: nat)
    requires IsLongestChain(t, spans) && IsChain(t, w) && k < |w|
    requires start < |spans| && spans[start] == w[0]
    ensures start + k < |spans| && spans[start + k] == w[k]
  {
    if k > 0 {
      var g := start + (k - 1);
      ChainStaysInCluster(t, spans, start, w, k - 1);
      assert spans[g] == w[k - 1];
      NextInChain(t, w, k);
      JoinedRunIsInCluster(t, spans, g, w[k]);
    }
  }

  lemma ChainIsSlice(t: Text, spans: seq<Span>, start: nat, w: seq<Span>)
    requires IsLongestChain(t, spans) && IsChain(t, w)
    requires start < |spans| && spans[start] == w[0]
    ensures start + |w| <= |spans| && w == spans[start..start + |w|]
  {
    ChainStaysInCluster(t, spans, start, w, |w| - 1);
    forall k | 0 <= k < |w|
      ensures w[k] == spans[start..start + |w|][k]
    {
      ChainStaysInCluster(t, spans, start, w, k);
    }
  }

  /** A chain lies within one cluster: the clusters are cut only where runs do not join. */
  lemma ChainIsClusterWindow(t: Text, clusters: seq<DigitCluster>, spans: seq<seq<Span>>, w: seq<Span>)
    returns (c: nat, start: nat)
    requires IsClustering(t, clusters, spans) && IsChain(t, w)
    ensures c < |clusters| && start + |w| <= |clusters[c].groups|
    ensures ChainGroups(t, w) == clusters[c].groups[start..start + |w|]
    ensures PlusVouches(t, w) <==> clusters[c].hasPlusPrefix && start == 0
  {
    assert IsRunAt(t, w, 0);
    c, start := RunLiesInCluster(t, spans, w[0]);
    assert IsClusterAt(t, clusters, spans, c);
    ChainIsSlice(t, spans[c], start, w);
    ClusterWindowIsChain(t, clusters[c], spans[c], start, start + |w|);
  }

  lemma PhoneInTextIsInCluster(t: Text, clusters: seq<DigitCluster>, spans: seq<seq<Span>>)
    requires IsClustering(t, clusters, spans) && HoldsPhone(t)
    ensures exists c :: 0 <= c < |clusters| && ClusterHasPhone(clusters[c])
  {
    var w :| IsPhoneChain(t, w);
    var c, start := ChainIsClusterWindow(t, clusters, spans, w);
    assert PhoneAt(clusters[c], start, start + |w|);
  }

  lemma PhoneInClusterIsInText(t: Text, cluster: DigitCluster, w: seq<Span>)
    requires IsCluster(t, cluster, w) && ClusterHasPhone(cluster)
    ensures HoldsPhone(t)
  {
    hide IsChain, IsLongestChain, IsPhoneWindow, PlusVouches, PlusBefore;
    var start, end :| 0 <= start < end <= |cluster.groups| && PhoneAt(cluster, start, end);
    ClusterWindowIsChain(t, cluster, w, start, end);
    assert IsPhoneChain(t, w[start..end]);
  }

  lemma IdInTextIsInCluster(t: Text, clusters: seq<DigitCluster>, spans: seq<seq<Span>>)
    requires IsClustering(t, clusters, spans) && HoldsIdWindow(t)
    ensures exists c :: 0 <= c < |clusters| && ClusterHasId(clusters[c])
  {
    var w :| IsIdChain(t, w);
    var c, start := ChainIsClusterWindow(t, clusters, spans, w);
    assert IdAt(clusters[c], start, start + |w|);
  }

  lemma IdInClusterIsInText(t: Text, cluster: DigitCluster, w: seq<Span>)
    requires IsCluster(t, cluster, w) && ClusterHasId(cluster)
    ensures HoldsIdWindow(t)
  {
    hide IsChain, IsLongestChain, IsIdWindow, PlusVouches, PlusBefore;
    var start, end :| 0 <= start < end <= |cluster.groups| && IdAt(cluster, start, end);
    ClusterWindowIsChain(t, cluster, w, start, end);
    assert IsIdChain(t, w[start..end]);
  }

  predicate AllNonempty(clusters: seq<DigitCluster>) {
    forall c :: 0 <= c < |clusters| ==> NonemptyGroups(clusters[c].groups)
  }

  lemma ClustersAreNonempty(t: Text, clusters: seq<DigitCluster>, spans: seq<seq<Span>>)
    requires IsClustering(t, clusters, spans)
    ensures AllNonempty(clusters)
  {
    forall c | 0 <= c < |clusters|
      ensures NonemptyGroups(clusters[c].groups)
    {
      assert IsClusterAt(t, clusters, spans, c);
      NonemptyCluster(t, clusters[c], spans[c]);
    }
  }

  lemma NonemptyCluster(t: Text, cluster: DigitCluster, w: seq<Span>)
    requires IsCluster(t, cluster, w)
    ensures NonemptyGroups(cluster.groups)
  {
    forall k | 0 <= k < |w|
      ensures |cluster.groups[k]| > 0
    {
      assert IsRunAt(t, w, k);
    }
  }

  method SomeLooksLikePhone(clusters: seq<DigitCluster>) returns (found: bool, ghost c: nat)
    requires AllNonempty(clusters)
    ensures found ==> c < |clusters| && ClusterHasPhone(clusters[c])
    ensures !found ==> forall i :: 0 <= i < |clusters| ==> !ClusterHasPhone(clusters[i])
  {
    for k := 0 to |clusters|
      invariant forall i :: 0 <= i < k ==> !ClusterHasPhone(clusters[i])
    {
      var looks, _ := ClusterLooksLikePhone(clusters[k]);
      if looks {
        found, c := true, k;
        return;
      }
    }
    found, c := false, 0;
  }

  method SomeHoldsId(clusters: seq<DigitCluster>) returns (found: bool, ghost c: nat)
    requires AllNonempty(clusters)
    ensures found ==> c < |clusters| && ClusterHasId(clusters[c])
    ensures !found ==> forall i :: 0 <= i < |clusters| ==> !ClusterHasId(clusters[i])
  {
    for k := 0 to |clusters|
      invariant forall i :: 0 <= i < k ==> !ClusterHasId(clusters[i])
    {
      var holds, _ := ClusterHoldsId(clusters[k]);
      if holds {
        found, c := true, k;
        return;
      }
    }
    found, c := false, 0;
  }

  method HasPhone(normalized: Text) returns (found: bool)
    ensures found <==> HoldsPhone(normalized)
  {
    var clusters, spans, _ := CollectDigitClusters(normalized);
    ClustersAreNonempty(normalized, clusters, spans);
    ghost var c;
    found, c := SomeLooksLikePhone(clusters);
    if found {
      assert IsClusterAt(normalized, clusters, spans, c);
      PhoneInClusterIsInText(normalized, clusters[c], spans[c]);
    } else if HoldsPhone(normalized) {
      PhoneInTextIsInCluster(normalized, clusters, spans);
    }
  }

  /** `hasIdKeyword` says whether the folded text holds one of the identity-card keywords. */
  method HasKeywordedIdCluster(normalized: Text, hasIdKeyword: bool) returns (found: bool)
    ensures found <==> hasIdKeyword && HoldsIdWindow(normalized)
  {
    if !hasIdKeyword {
      return false;
    }
    var clusters, spans, _ := CollectDigitClusters(normalized);
    ClustersAreNonempty(normalized, clusters, spans);
    ghost var c;
    found, c := SomeHoldsId(clusters);
    if found {
      assert IsClusterAt(normalized, clusters, spans, c);
      IdInClusterIsInText(normalized, clusters[c], spans[c]);
    } else if HoldsIdWindow(normalized) {
      IdInTextIsInCluster(normalized, clusters, spans);
    }
  }
}
