/**
 How long a session lasts (apps/api/src/modules/auth/auth.service.ts:22, 318-355, 418-434): a token is good for
 seven days from the request that issued it, and only a refresh within them goes on with the session.
 */
module SessionExpiry {
  import opened Options
  import opened Sessions
  import opened SessionRuns

  /** The request goes on with the session of the token that it presents: a live one that has not expired. */
  predicate GoesOn(s: Tables, step: Step, now: int, login: TokenId) {
    && step.Refresh? && step.token in s.tokens && s.tokens[step.token].login == login
    && s.tokens[step.token].revokedAt.None? && now <= s.tokens[step.token].expiresAt
  }

  /**
   No request changes when a token expires.  One that a request issues is good for seven days, and is of a new
   login or goes on with a session.
   */
  lemma TokensLastSevenDays(s: Tables, step: Step, now: int, i: TokenId)
    requires IsFresh(s, step)
    ensures i in s.tokens ==> i in After(s, step, now).tokens
                              && After(s, step, now).tokens[i].expiresAt == s.tokens[i].expiresAt
                              && After(s, step, now).tokens[i].login == s.tokens[i].login
    ensures i !in s.tokens && i in After(s, step, now).tokens ==>
              var t := After(s, step, now).tokens[i];
              && t.expiresAt == now + 7 * 24 * 60 * 60 * 1000 && t.revokedAt == None
              && (if step.Login? then t.login == i else GoesOn(s, step, now, t.login))
  {}

  // ---- Runs ----

  /** What is there stays there and expires when it did. */
  lemma {:induction false} ExpiryStays(
    states: seq<Tables>, steps: seq<Step>, times: seq<int>, first: nat, last: nat, i: TokenId)
    requires IsRun(states, steps, times) && first <= last < |states| && i in states[first].tokens
    ensures i in states[last].tokens
    ensures states[last].tokens[i].expiresAt == states[first].tokens[i].expiresAt
    ensures states[last].tokens[i].login == states[first].tokens[i].login
    decreases last
  {
    hide After, IsFresh;
    if first < last {
      ExpiryStays(states, steps, times, first, last - 1, i);
      assert IsStep(states, steps, times, last - 1);
      TokensLastSevenDays(states[last - 1], steps[last - 1], times[last - 1], i);
    }
  }

  /** Every token of a run is of the start, or was issued by one of its requests and expires seven days after it. */
  lemma {:induction false} TokensAreIssued(
    states: seq<Tables>, steps: seq<Step>, times: seq<int>, k: nat, i: TokenId) returns (at: nat)
    requires IsRun(states, steps, times) && k < |states| && i in states[k].tokens && i !in states[0].tokens
    ensures at < k && i !in states[at].tokens && i in states[at + 1].tokens
    ensures states[k].tokens[i].expiresAt == times[at] + 7 * 24 * 60 * 60 * 1000
    ensures steps[at].Login? || GoesOn(states[at], steps[at], times[at], states[k].tokens[i].login)
    decreases k
  {
    hide After, IsFresh, GoesOn;
    assert IsStep(states, steps, times, k - 1);
    TokensLastSevenDays(states[k - 1], steps[k - 1], times[k - 1], i);
    if i in states[k - 1].tokens {
      at := TokensAreIssued(states, steps, times, k - 1, i);
    } else {
      at := k - 1;
    }
  }

  /** No token is added to the session. */
  ghost predicate AddsNone(s: Tables, s': Tables, login: TokenId) {
    forall i :: i in s'.tokens && s'.tokens[i].login == login ==> i in s.tokens && s.tokens[i].login == login
                                                                  && s.tokens[i].expiresAt == s'.tokens[i].expiresAt
  }

  lemma AddsNoneThrough(a: Tables, b: Tables, c: Tables, login: TokenId)
    requires AddsNone(a, b, login) && AddsNone(b, c, login)
    ensures AddsNone(a, c, login)
  {}

  /** A request that does not go on with the session adds no token to it. */
  lemma OnlyRefreshAdds(s: Tables, step: Step, now: int, login: TokenId)
    requires IsFresh(s, step) && login in s.tokens && !GoesOn(s, step, now, login)
    ensures AddsNone(s, After(s, step, now), login)
  {
    hide After, IsFresh, GoesOn;
    forall i | i in After(s, step, now).tokens && After(s, step, now).tokens[i].login == login
      ensures i in s.tokens && s.tokens[i].login == login
              && s.tokens[i].expiresAt == After(s, step, now).tokens[i].expiresAt
    {
      TokensLastSevenDays(s, step, now, i);
    }
  }

  ghost predicate NoneGoesOn(
    states: seq<Tables>, steps: seq<Step>, times: seq<int>, first: nat, last: nat, login: TokenId)
    requires first <= last <= |steps| == |times| < |states|
  {
    forall k :: first <= k < last ==> !GoesOn(states[k], steps[k], times[k], login)
  }

  lemma {:induction false} IdleAddsNone(
    states: seq<Tables>, steps: seq<Step>, times: seq<int>, first: nat, last: nat, login: TokenId)
    requires IsRun(states, steps, times) && first <= last < |states| && login in states[first].tokens
    requires NoneGoesOn(states, steps, times, first, last, login)
    ensures login in states[last].tokens && AddsNone(states[first], states[last], login)
    decreases last
  {
    hide After, IsFresh, GoesOn, AddsNone;
    if first == last {
      AddsNothing(states[first], login);
    } else {
      IdleAddsNone(states, steps, times, first, last - 1, login);
      assert IsStep(states, steps, times, last - 1);
      assert !GoesOn(states[last - 1], steps[last - 1], times[last - 1], login);
      OnlyRefreshAdds(states[last - 1], steps[last - 1], times[last - 1], login);
      TokensLastSevenDays(states[last - 1], steps[last - 1], times[last - 1], login);
      AddsNoneThrough(states[first], states[last - 1], states[last], login);
    }
  }

  lemma AddsNothing(s: Tables, login: TokenId)
    ensures AddsNone(s, s, login)
  {}

  /** Every token of the session has expired. */
  ghost predicate IsExpired(s: Tables, login: TokenId, now: int) {
    forall i :: i in s.tokens && s.tokens[i].login == login ==> s.tokens[i].expiresAt < now
  }

  lemma ExpiredGoesOnNoMore(s: Tables, s': Tables, step: Step, now: int, login: TokenId, time: int)
    requires IsExpired(s, login, time) && AddsNone(s, s', login) && time <= now
    ensures !GoesOn(s', step, now, login)
  {}

  /** Once all its tokens have expired, no request at any later time goes on with a session. */
  lemma {:induction false} ExpiredIsOver(
    states: seq<Tables>, steps: seq<Step>, times: seq<int>, first: nat, last: nat, login: TokenId, time: int)
    requires IsRun(states, steps, times) && first <= last < |states| && login in states[first].tokens
    requires IsExpired(states[first], login, time) && forall k :: first <= k < last ==> time <= times[k]
    ensures NoneGoesOn(states, steps, times, first, last, login)
    ensures login in states[last].tokens && IsExpired(states[last], login, time)
    decreases last
  {
    hide GoesOn;
    if first < last {
      ExpiredIsOver(states, steps, times, first, last - 1, login, time);
      IdleAddsNone(states, steps, times, first, last - 1, login);
      ExpiredGoesOnNoMore(states[first], states[last - 1], steps[last - 1], times[last - 1], login, time);
    }
    IdleAddsNone(states, steps, times, first, last, login);
  }

  /**
   A session that no refresh went on with for more than seven days is over for good.  Nothing up to `first` was
   asked for after `time`; up to `idle` no request goes on with the session, whatever else is asked for; and from
   then on it is more than seven days later.
   */
  lemma IdleSessionIsOver(
    states: seq<Tables>, steps: seq<Step>, times: seq<int>, first: nat, idle: nat, last: nat, login: TokenId,
    time: int)
    requires IsRun(states, steps, times) && states[0].tokens == map[] && first <= idle <= last < |states|
    requires login in states[first].tokens && NoneGoesOn(states, steps, times, first, idle, login)
    requires forall k :: 0 <= k < first ==> times[k] <= time
    requires forall k :: idle <= k < last ==> times[k] > time + 7 * 24 * 60 * 60 * 1000
    ensures NoneGoesOn(states, steps, times, first, last, login)
    ensures AddsNone(states[first], states[last], login)
    ensures IsExpired(states[last], login, time + 7 * 24 * 60 * 60 * 1000 + 1)
  {
    hide GoesOn, AddsNone, IsRun, NoneGoesOn;
    RunShape(states, steps, times);
    var end := time + 7 * 24 * 60 * 60 * 1000 + 1;
    forall i | i in states[first].tokens && states[first].tokens[i].login == login
      ensures states[first].tokens[i].expiresAt < end
    {
      var at := TokensAreIssued(states, steps, times, first, i);
    }
    IdleAddsNone(states, steps, times, first, idle, login);
    ExpiredWithout(states[first], states[idle], login, end);
    ExpiredIsOver(states, steps, times, idle, last, login, end);
    NoneGoesOnThrough(states, steps, times, first, idle, last, login);
    IdleAddsNone(states, steps, times, first, last, login);
  }

  lemma RunShape(states: seq<Tables>, steps: seq<Step>, times: seq<int>)
    requires IsRun(states, steps, times)
    ensures |steps| == |times| && |states| == |steps| + 1
  {}

  lemma ExpiredWithout(s: Tables, s': Tables, login: TokenId, time: int)
    requires IsExpired(s, login, time) && AddsNone(s, s', login)
    ensures IsExpired(s', login, time)
  {}

  lemma NoneGoesOnThrough(
    states: seq<Tables>, steps: seq<Step>, times: seq<int>, first: nat, mid: nat, last: nat, login: TokenId)
    requires first <= mid <= last <= |steps| == |times| < |states|
    requires NoneGoesOn(states, steps, times, first, mid, login) && NoneGoesOn(states, steps, times, mid, last, login)
    ensures NoneGoesOn(states, steps, times, first, last, login)
  {}
}
