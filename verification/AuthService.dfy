/**
 The authentication and PIN services as they read and write the tables
 (apps/api/src/modules/auth/auth.service.ts:97-137, 281-434, apps/api/src/modules/auth/pin.service.ts:74-192,
 218-272).  Each request answers and leaves the tables as `Sessions` describes, and keeps the invariant.
 */
module AuthService {
  import opened Options
  import opened Sessions
  import opened SessionRuns

  // ---- What the requests do to the tables ----

  /** The person's live tokens are revoked at this time, and locked as well if asked for; no other token changes. */
  ghost predicate EndsAll(
    before: map<TokenId, Token>, after: map<TokenId, Token>, user: StaffId, lock: bool, now: int)
  {
    && after.Keys == before.Keys
    && (forall i :: i in before && before[i].staff == user && before[i].revokedAt.None? ==>
          after[i] == before[i].(revokedAt := Some(now), lockedAt := if lock then Some(now) else before[i].lockedAt))
    && (forall i :: i in before && (before[i].staff != user || before[i].revokedAt.Some?) ==> after[i] == before[i])
  }

  lemma RevokedAllEnds(tokens: map<TokenId, Token>, user: StaffId, lock: bool, now: int)
    ensures EndsAll(tokens, RevokedAll(tokens, user, lock, now), user, lock, now)
  {}

  predicate IsLiveTokenOf(tokens: map<TokenId, Token>, cookie: Option<TokenId>, user: StaffId) {
    cookie.Some? && cookie.value in tokens && tokens[cookie.value].staff == user && tokens[cookie.value].revokedAt.None?
  }

  /** The cookie's live token, if it is one of the person, is open afterwards; no other token changes. */
  predicate OpensSession(
    before: map<TokenId, Token>, after: map<TokenId, Token>, user: StaffId, cookie: Option<TokenId>)
  {
    after == if IsLiveTokenOf(before, cookie, user) then
               before[cookie.value := before[cookie.value].(lockedAt := None)]
             else before
  }

  /** A wrong PIN: one to four are counted, the fifth ends and locks every session and the count starts anew. */
  ghost predicate CountsWrongPin(before: Tables, after: Tables, reply: Reply, user: StaffId, now: int)
    requires user in before.staff
  {
    if before.staff[user].pinFailedCount + 1 < 5 then
      && reply == BadRequest && after.tokens == before.tokens
      && after.staff == before.staff[user :=
                          before.staff[user].(pinFailedCount := before.staff[user].pinFailedCount + 1)]
    else
      && reply == Forbidden && EndsAll(before.tokens, after.tokens, user, true, now)
      && after.staff == before.staff[user := before.staff[user].(pinFailedCount := 0)]
  }

  lemma FailedPinCounts(s: Tables, user: StaffId, now: int)
    requires user in s.staff
    ensures CountsWrongPin(s, FailedPin(s, user, now).0, FailedPin(s, user, now).1, user, now)
  {
    hide EndsAll, RevokedAll;
    RevokedAllEnds(s.tokens, user, true, now);
  }

  /** What an administrator does: a password reset and switching off end every session, a PIN is cleared alone. */
  lemma AdministratorsDo(s: Tables, user: StaffId, isActive: bool, now: int)
    requires user in s.staff
    ensures PasswordReset(s, user, now).0.staff == s.staff
    ensures EndsAll(s.tokens, PasswordReset(s, user, now).0.tokens, user, false, now)
    ensures Switched(s, user, isActive, now).0.staff == s.staff[user := s.staff[user].(isActive := isActive)]
    ensures if isActive then Switched(s, user, isActive, now).0.tokens == s.tokens
            else EndsAll(s.tokens, Switched(s, user, isActive, now).0.tokens, user, false, now)
    ensures PinCleared(s, user).0.tokens == s.tokens
    ensures PinCleared(s, user).0.staff == s.staff[user := Staff(s.staff[user].isActive, false, 0)]
  {
    hide EndsAll, RevokedAll;
    RevokedAllEnds(s.tokens, user, false, now);
  }

  class AuthDesk {
    var tokens: map<TokenId, Token>
    var staff: map<StaffId, Staff>

    function State(): Tables
      reads this
    {
      Tables(tokens, staff)
    }

    ghost predicate Valid()
      reads this
    {
      Invariant(State())
    }

    /** The session that the cookie names, if it is a live one of the user. */
    function SessionNamed(user: StaffId, cookie: Option<TokenId>): Option<TokenId>
      reads this`tokens
    {
      if IsSessionOf(tokens, cookie, user) then Some(tokens[cookie.value].login) else None
    }

    constructor (staff: map<StaffId, Staff>)
      requires HasFewFailures(staff)
      ensures Valid() && State() == Tables(map[], staff)
    {
      tokens := map[];
      this.staff := staff;
    }

    method IssueRefreshToken(
      user: StaffId, login: TokenId, consentLog: Option<nat>, authMethod: AuthMethod, lockedAt: Option<int>,
      newId: TokenId, now: int)
      modifies this`tokens
      ensures tokens == old(tokens)[newId := Token(user, login, consentLog, authMethod,
                                                   now + 7 * 24 * 60 * 60 * 1000, None, lockedAt)]
    {
      tokens := tokens[newId := Token(user, login, consentLog, authMethod, now + REFRESH_TOKEN_TTL_MS, None, lockedAt)];
    }

    method LogIn(user: StaffId, isProven: bool, newId: TokenId, now: int) returns (reply: Reply)
      requires Valid() && newId !in tokens
      modifies this
      ensures Valid() && KeepsRevoked(old(tokens), tokens)
      ensures KeepsSessions(old(tokens), tokens, None)
      ensures (State(), reply) == LoggedIn(old(State()), user, PASSWORD, isProven, newId, now)
      ensures reply == if user in old(staff) && old(staff)[user].isActive && isProven then Issued(newId)
                       else Unauthorized
      ensures reply == Unauthorized ==> State() == old(State())
      ensures reply == Issued(newId) ==>
                && staff == old(staff)[user := old(staff)[user].(pinFailedCount := 0)]
                && tokens == old(tokens)[newId := Token(user, newId, None, PASSWORD, now + 7 * 24 * 60 * 60 * 1000,
                                                        None, None)]
    {
      hide Invariant, KeepsRevoked, KeepsSessions;
      StepKeepsSessions(State(), Login(user, PASSWORD, isProven, newId), now);
      if user !in staff || !staff[user].isActive {
        return Unauthorized;
      }
      if !isProven {
        return Unauthorized;
      }
      staff := staff[user := staff[user].(pinFailedCount := 0)];
      IssueRefreshToken(user, newId, None, PASSWORD, None, newId, now);
      return Issued(newId);
    }

    method RefreshSession(cookie: TokenId, newId: TokenId, now: int) returns (reply: Reply)
      requires Valid() && newId !in tokens
      modifies this`tokens
      ensures Valid() && KeepsRevoked(old(tokens), tokens)
      ensures KeepsSessions(old(tokens), tokens, None)
      ensures (State(), reply) == Refreshed(old(State()), cookie, newId, now)
      ensures reply == if cookie in old(tokens) && old(tokens)[cookie].revokedAt.None?
                          && now <= old(tokens)[cookie].expiresAt && old(tokens)[cookie].staff in staff
                          && staff[old(tokens)[cookie].staff].isActive
                       then Issued(newId) else Unauthorized
      ensures reply == Unauthorized ==> tokens == old(tokens)
      ensures reply == Issued(newId) ==>
                var spent := old(tokens)[cookie];
                tokens == old(tokens)[cookie := spent.(revokedAt := Some(now))][newId :=
                  Token(spent.staff, spent.login, spent.consentLog, spent.authMethod, now + 7 * 24 * 60 * 60 * 1000,
                        None, spent.lockedAt)]
    {
      hide Invariant, KeepsRevoked, KeepsSessions;
      StepKeepsSessions(State(), Refresh(cookie, newId), now);
      if cookie !in tokens {
        return Unauthorized;
      }
      var record := tokens[cookie];
      if record.revokedAt.Some? || record.expiresAt < now || record.staff !in staff || !staff[record.staff].isActive {
        return Unauthorized;
      }
      tokens := tokens[cookie := record.(revokedAt := Some(now))];
      IssueRefreshToken(record.staff, record.login, record.consentLog, record.authMethod, record.lockedAt, newId, now);
      return Issued(newId);
    }

    method RecordConsent(user: StaffId, cookie: Option<TokenId>, consentLog: nat) returns (reply: Reply)
      requires Valid()
      modifies this`tokens
      ensures Valid() && KeepsRevoked(old(tokens), tokens)
      ensures KeepsSessions(old(tokens), tokens, None)
      ensures (State(), reply) == Consented(old(State()), user, cookie, consentLog)
      ensures reply == if user in staff && staff[user].isActive then Done else Unauthorized
      ensures tokens == if reply == Done && IsLiveTokenOf(old(tokens), cookie, user) then
                          old(tokens)[cookie.value := old(tokens)[cookie.value].(consentLog := Some(consentLog))]
                        else old(tokens)
    {
      hide Invariant, KeepsRevoked, KeepsSessions;
      StepKeepsSessions(State(), Consent(user, cookie, consentLog), 0);
      if user !in staff || !staff[user].isActive {
        return Unauthorized;
      }
      if IsSessionOf(tokens, cookie, user) {
        tokens := tokens[cookie.value := tokens[cookie.value].(consentLog := Some(consentLog))];
      }
      return Done;
    }

    method LogOut(cookie: Option<TokenId>, now: int)
      requires Valid()
      modifies this`tokens
      ensures Valid() && KeepsRevoked(old(tokens), tokens)
      ensures KeepsSessions(old(tokens), tokens, None)
      ensures State() == LoggedOut(old(State()), cookie, now).0
      ensures tokens == if cookie.Some? && cookie.value in old(tokens) && old(tokens)[cookie.value].revokedAt.None? then
                          old(tokens)[cookie.value := old(tokens)[cookie.value].(revokedAt := Some(now))]
                        else old(tokens)
    {
      hide Invariant, KeepsRevoked, KeepsSessions;
      StepKeepsSessions(State(), Logout(cookie), now);
      if cookie.None? {
        return;
      }
      if cookie.value in tokens && tokens[cookie.value].revokedAt.None? {
        tokens := tokens[cookie.value := tokens[cookie.value].(revokedAt := Some(now))];
      }
    }

    method RevokeAll(user: StaffId, lock: bool, now: int)
      modifies this`tokens
      ensures tokens == RevokedAll(old(tokens), user, lock, now) && EndsAll(old(tokens), tokens, user, lock, now)
    {
      RevokedAllEnds(tokens, user, lock, now);
      tokens := map i | i in tokens ::
        if tokens[i].staff == user && tokens[i].revokedAt.None? then
          tokens[i].(revokedAt := Some(now), lockedAt := if lock then Some(now) else tokens[i].lockedAt)
        else tokens[i];
    }

    method ChangePassword(user: StaffId, isProven: bool, now: int) returns (reply: Reply)
      requires Valid()
      modifies this`tokens
      ensures Valid() && KeepsRevoked(old(tokens), tokens)
      ensures KeepsSessions(old(tokens), tokens, None)
      ensures (State(), reply) == PasswordChanged(old(State()), user, isProven, now)
      ensures reply == if user in staff && staff[user].isActive && isProven then Done else Unauthorized
      ensures reply == Unauthorized ==> tokens == old(tokens)
      ensures reply == Done ==> EndsAll(old(tokens), tokens, user, false, now)
    {
      hide Invariant, KeepsRevoked, KeepsSessions, RevokedAll, EndsAll;
      StepKeepsSessions(State(), SessionRuns.ChangePassword(user, isProven), now);
      if user !in staff || !staff[user].isActive {
        return Unauthorized;
      }
      if !isProven {
        return Unauthorized;
      }
      RevokeAll(user, false, now);
      return Done;
    }

    /** A wrong PIN is counted; the fifth revokes and locks every session and starts the count anew. */
    method AssertPinMatches(user: StaffId, matches: bool, now: int) returns (failure: Option<Reply>)
      requires user in staff
      modifies this
      ensures failure.None? <==> matches
      ensures matches ==> State() == old(State())
      ensures !matches ==> (State(), failure.value) == FailedPin(old(State()), user, now)
      ensures !matches ==> CountsWrongPin(old(State()), State(), failure.value, user, now)
    {
      hide RevokedAll, EndsAll;
      if matches {
        return None;
      }
      var count := staff[user].pinFailedCount + 1;
      staff := staff[user := staff[user].(pinFailedCount := count)];
      if count >= MAX_PIN_ATTEMPTS {
        RevokeAll(user, true, now);
        staff := staff[user := staff[user].(pinFailedCount := 0)];
        assert staff == old(staff)[user := old(staff)[user].(pinFailedCount := 0)];
        return Some(Forbidden);
      }
      return Some(BadRequest);
    }

    method UnlockSession(user: StaffId, cookie: Option<TokenId>) returns (unlocked: bool)
      modifies this`tokens
      ensures tokens == Unlocked(old(tokens), user, cookie) && OpensSession(old(tokens), tokens, user, cookie)
      ensures unlocked <==> IsLiveTokenOf(old(tokens), cookie, user)
    {
      if cookie.None? {
        return false;
      }
      if cookie.value in tokens && tokens[cookie.value].staff == user && tokens[cookie.value].revokedAt.None? {
        tokens := tokens[cookie.value := tokens[cookie.value].(lockedAt := None)];
        return true;
      }
      return false;
    }

    method SetPin(user: StaffId, cookie: Option<TokenId>, isValidPin: bool, matches: bool, now: int)
      returns (reply: Reply)
      requires Valid()
      modifies this
      ensures Valid() && KeepsRevoked(old(tokens), tokens)
      ensures KeepsSessions(old(tokens), tokens, if reply == Done then old(SessionNamed(user, cookie)) else None)
      ensures (State(), reply) == PinSet(old(State()), user, cookie, isValidPin, matches, now)
      ensures !isValidPin || user !in old(staff) ==> reply == BadRequest && State() == old(State())
      ensures isValidPin && user in old(staff) ==>
                if old(staff)[user].hasPin && !matches then CountsWrongPin(old(State()), State(), reply, user, now)
                else
                  && reply == Done && OpensSession(old(tokens), tokens, user, cookie)
                  && staff == old(staff)[user := old(staff)[user].(hasPin := true, pinFailedCount := 0)]
    {
      hide Invariant, KeepsRevoked, KeepsSessions, FailedPin, Unlocked, IsSessionOf, CountsWrongPin, OpensSession;
      StepKeepsSessions(State(), SessionRuns.SetPin(user, cookie, isValidPin, matches), now);
      if !isValidPin || user !in staff {
        return BadRequest;
      }
      if staff[user].hasPin {
        var failure := AssertPinMatches(user, matches, now);
        if failure.Some? {
          return failure.value;
        }
      }
      staff := staff[user := staff[user].(hasPin := true, pinFailedCount := 0)];
      var _ := UnlockSession(user, cookie);
      return Done;
    }

    method Verify(user: StaffId, cookie: Option<TokenId>, matches: bool, now: int) returns (reply: Reply)
      requires Valid()
      modifies this
      ensures Valid() && KeepsRevoked(old(tokens), tokens)
      ensures KeepsSessions(old(tokens), tokens, if reply == Done then old(SessionNamed(user, cookie)) else None)
      ensures (State(), reply) == Verified(old(State()), user, cookie, matches, now)
      ensures user !in old(staff) || !old(staff)[user].hasPin ==> reply == Forbidden && State() == old(State())
      ensures user in old(staff) && old(staff)[user].hasPin ==>
                if !matches then CountsWrongPin(old(State()), State(), reply, user, now)
                else
                  && reply == (if cookie.None? || IsLiveTokenOf(old(tokens), cookie, user) then Done else Unauthorized)
                  && OpensSession(old(tokens), tokens, user, cookie)
                  && staff == old(staff)[user := old(staff)[user].(pinFailedCount := 0)]
    {
      hide Invariant, KeepsRevoked, KeepsSessions, FailedPin, Unlocked, CountsWrongPin, OpensSession;
      StepKeepsSessions(State(), SessionRuns.Verify(user, cookie, matches), now);
      if user !in staff || !staff[user].hasPin {
        return Forbidden;
      }
      var failedBefore := staff[user].pinFailedCount;
      var failure := AssertPinMatches(user, matches, now);
      if failure.Some? {
        return failure.value;
      }
      if failedBefore > 0 {
        staff := staff[user := staff[user].(pinFailedCount := 0)];
      }
      assert staff == old(staff)[user := old(staff)[user].(pinFailedCount := 0)];
      var unlocked := UnlockSession(user, cookie);
      return if cookie.Some? && !unlocked then Unauthorized else Done;
    }

    method Lock(user: StaffId, cookie: Option<TokenId>, now: int)
      requires Valid()
      modifies this`tokens
      ensures Valid() && KeepsRevoked(old(tokens), tokens)
      ensures KeepsSessions(old(tokens), tokens, None)
      ensures State() == LockedScreen(old(State()), user, cookie, now).0
      ensures tokens == if IsLiveTokenOf(old(tokens), cookie, user) && old(tokens)[cookie.value].lockedAt.None? then
                          old(tokens)[cookie.value := old(tokens)[cookie.value].(lockedAt := Some(now))]
                        else old(tokens)
    {
      hide Invariant, KeepsRevoked, KeepsSessions;
      StepKeepsSessions(State(), SessionRuns.Lock(user, cookie), now);
      if IsSessionOf(tokens, cookie, user) && tokens[cookie.value].lockedAt.None? {
        tokens := tokens[cookie.value := tokens[cookie.value].(lockedAt := Some(now))];
      }
    }

    /** Forgetting the PIN ends and locks every session before it clears the PIN. */
    method ForgetPin(user: StaffId, now: int)
      requires Valid()
      modifies this
      ensures Valid() && KeepsRevoked(old(tokens), tokens)
      ensures KeepsSessions(old(tokens), tokens, None)
      ensures State() == PinForgotten(old(State()), user, now).0
      ensures EndsAll(old(tokens), tokens, user, true, now)
      ensures staff == if user in old(staff) then
                         old(staff)[user := old(staff)[user].(hasPin := false, pinFailedCount := 0)]
                       else old(staff)
    {
      hide Invariant, KeepsRevoked, KeepsSessions, RevokedAll, EndsAll;
      StepKeepsSessions(State(), SessionRuns.ForgetPin(user), now);
      RevokeAll(user, true, now);
      if user in staff {
        staff := staff[user := staff[user].(hasPin := false, pinFailedCount := 0)];
      }
    }
  }
}
