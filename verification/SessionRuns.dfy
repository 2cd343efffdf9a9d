/**
 Runs of session and PIN requests (apps/api/src/modules/auth/auth.service.ts:318-355,
 apps/api/src/modules/auth/pin.service.ts:74-192, 218-272): what holds after any number of them, one after the
 other and in any order.
 */
module SessionRuns {
  import opened Options
  import opened Sessions

  datatype Step =
    | Login(user: StaffId, authMethod: AuthMethod, isProven: bool, newId: TokenId)
    | Consent(user: StaffId, cookie: Option<TokenId>, consentLog: nat)
    | Refresh(token: TokenId, newId: TokenId)
    | Logout(cookie: Option<TokenId>)
    | ChangePassword(user: StaffId, isProven: bool)
    | ResetPassword(user: StaffId)
    | Switch(user: StaffId, isActive: bool)
    | SetPin(user: StaffId, cookie: Option<TokenId>, isValidPin: bool, matches: bool)
    | Verify(user: StaffId, cookie: Option<TokenId>, matches: bool)
    | Lock(user: StaffId, cookie: Option<TokenId>)
    | ResetPin(user: StaffId)
    | ForgetPin(user: StaffId)
    | CreateStaff(user: StaffId)

  /** Random values and the ids of new accounts do not repeat. */
  predicate IsFresh(s: Tables, step: Step) {
    && ((step.Login? || step.Refresh?) ==> step.newId !in s.tokens)
    && (step.CreateStaff? ==> step.user !in s.staff)
  }

  function Answer(s: Tables, step: Step, now: int): (Tables, Reply) {
    match step
    case Login(user, authMethod, isProven, newId) => LoggedIn(s, user, authMethod, isProven, newId, now)
    case Consent(user, cookie, consentLog) => Consented(s, user, cookie, consentLog)
    case Refresh(token, newId) => Refreshed(s, token, newId, now)
    case Logout(cookie) => LoggedOut(s, cookie, now)
    case ChangePassword(user, isProven) => PasswordChanged(s, user, isProven, now)
    case ResetPassword(user) => PasswordReset(s, user, now)
    case Switch(user, isActive) => Switched(s, user, isActive, now)
    case SetPin(user, cookie, isValidPin, matches) => PinSet(s, user, cookie, isValidPin, matches, now)
    case Verify(user, cookie, matches) => Verified(s, user, cookie, matches, now)
    case Lock(user, cookie) => LockedScreen(s, user, cookie, now)
    case ResetPin(user) => PinCleared(s, user)
    case ForgetPin(user) => PinForgotten(s, user, now)
    case CreateStaff(user) => StaffCreated(s, user)
  }

  function After(s: Tables, step: Step, now: int): Tables {
    Answer(s, step, now).0
  }

  // ---- What every step keeps ----

  ghost predicate HasOneLivePerLogin(tokens: map<TokenId, Token>) {
    forall i, j :: i in tokens && j in tokens && i != j ==> AreOfOneSession(tokens[i], tokens[j])
  }

  /** Tokens of one login are of one person and one way of signing in, and only one of them is live. */
  predicate AreOfOneSession(a: Token, b: Token) {
    a.login == b.login ==> a.staff == b.staff && a.authMethod == b.authMethod && (IsLive(a) ==> !IsLive(b))
  }

  ghost predicate HasKnownLogins(tokens: map<TokenId, Token>) {
    forall i {:trigger HasKnownLogin(tokens, i)} :: i in tokens ==> HasKnownLogin(tokens, i)
  }

  /** Logins are named by tokens that were issued, so a new token begins a session of its own. */
  predicate HasKnownLogin(tokens: map<TokenId, Token>, i: TokenId)
    requires i in tokens
  {
    tokens[i].login in tokens
  }

  ghost predicate HasFewFailures(staff: map<StaffId, Staff>) {
    forall u :: u in staff ==> staff[u].pinFailedCount < MAX_PIN_ATTEMPTS
  }

  /** Accounts that are switched off have no live session. */
  ghost predicate HasActiveOwners(s: Tables) {
    forall i :: i in s.tokens && IsLive(s.tokens[i]) ==> IsActive(s.staff, s.tokens[i].staff)
  }

  predicate IsActive(staff: map<StaffId, Staff>, user: StaffId) {
    user in staff && staff[user].isActive
  }

  ghost predicate Invariant(s: Tables) {
    && HasOneLivePerLogin(s.tokens) && HasKnownLogins(s.tokens)
    && HasFewFailures(s.staff) && HasActiveOwners(s)
  }

  /** Tokens are never forgotten, and a revoked one never changes: revoked for good, and locked if it was. */
  ghost predicate KeepsRevoked(tokens: map<TokenId, Token>, tokens': map<TokenId, Token>) {
    forall i :: i in tokens ==> i in tokens' && KeepsToken(tokens[i], tokens'[i])
  }

  predicate KeepsToken(t: Token, t': Token) {
    && (!IsLive(t) ==> t' == t)
    && t'.login == t.login && t'.staff == t.staff && t'.authMethod == t.authMethod
    && (t.consentLog.Some? ==> t'.consentLog.Some?)
  }

  // ---- The ways in which steps change the token table ----

  lemma PairKept(a: Token, b: Token, a': Token, b': Token)
    requires AreOfOneSession(a, b) && KeepsToken(a, a') && KeepsToken(b, b')
    ensures AreOfOneSession(a', b')
  {}

  lemma OneLiveKept(tokens: map<TokenId, Token>, after: map<TokenId, Token>)
    requires HasOneLivePerLogin(tokens) && KeepsRevoked(tokens, after) && after.Keys == tokens.Keys
    ensures HasOneLivePerLogin(after)
  {
    hide AreOfOneSession, KeepsToken;
    forall j, k | j in after && k in after && j != k
      ensures AreOfOneSession(after[j], after[k])
    {
      assert AreOfOneSession(tokens[j], tokens[k]);
      PairKept(tokens[j], tokens[k], after[j], after[k]);
    }
  }

  lemma KnownLoginsKept(tokens: map<TokenId, Token>, after: map<TokenId, Token>)
    requires HasKnownLogins(tokens) && KeepsRevoked(tokens, after) && after.Keys == tokens.Keys
    ensures HasKnownLogins(after)
  {
    forall j | j in after
      ensures HasKnownLogin(after, j)
    {
      assert HasKnownLogin(tokens, j) && KeepsToken(tokens[j], after[j]);
    }
  }

  /** Tokens change, each within its session, and none is brought back to life. */
  lemma ChangesKeep(s: Tables, after: Tables)
    requires Invariant(s) && KeepsRevoked(s.tokens, after.tokens) && after.tokens.Keys == s.tokens.Keys
    requires HasFewFailures(after.staff) && HasActiveOwners(after)
    ensures Invariant(after)
  {
    hide KeepsRevoked, HasOneLivePerLogin, HasKnownLogins, HasFewFailures, HasActiveOwners;
    OneLiveKept(s.tokens, after.tokens);
    KnownLoginsKept(s.tokens, after.tokens);
  }

  lemma ChangeKeeps(s: Tables, i: TokenId, t: Token, staff: map<StaffId, Staff>)
    requires Invariant(s) && i in s.tokens && KeepsToken(s.tokens[i], t) && HasFewFailures(staff)
    requires forall u :: u in s.staff && s.staff[u].isActive ==> IsActive(staff, u)
    ensures Invariant(Tables(s.tokens[i := t], staff)) && KeepsRevoked(s.tokens, s.tokens[i := t])
  {
    var after := Tables(s.tokens[i := t], staff);
    OwnersStay(s, after.tokens, staff);
    hide HasOneLivePerLogin, HasKnownLogins, HasFewFailures, HasActiveOwners;
    ChangesKeep(s, after);
  }

  lemma OwnersStay(s: Tables, tokens: map<TokenId, Token>, staff: map<StaffId, Staff>)
    requires HasActiveOwners(s) && KeepsRevoked(s.tokens, tokens) && tokens.Keys == s.tokens.Keys
    requires forall u :: u in s.staff && s.staff[u].isActive ==> IsActive(staff, u)
    ensures HasActiveOwners(Tables(tokens, staff))
  {
    forall j | j in tokens && IsLive(tokens[j])
      ensures IsActive(staff, tokens[j].staff)
    {
      assert KeepsToken(s.tokens[j], tokens[j]);
      assert IsActive(s.staff, s.tokens[j].staff);
    }
  }

  /** The session's one live token, if any, is revoked before the next is issued. */
  lemma IssuedIsTheOne(tokens: map<TokenId, Token>, newId: TokenId, t: Token)
    requires HasOneLivePerLogin(tokens) && newId !in tokens && (forall i :: i in tokens ==> IsSpent(tokens[i], t))
    ensures HasOneLivePerLogin(tokens[newId := t])
  {
    var after := tokens[newId := t];
    forall j, k | j in after && k in after && j != k
      ensures AreOfOneSession(after[j], after[k])
    {
      if j == newId {
        assert IsSpent(tokens[k], t);
      } else if k == newId {
        assert IsSpent(tokens[j], t);
      } else {
        assert AreOfOneSession(tokens[j], tokens[k]);
      }
    }
  }

  lemma IssuedIsKnown(tokens: map<TokenId, Token>, newId: TokenId, t: Token)
    requires HasKnownLogins(tokens) && newId !in tokens && (t.login == newId || t.login in tokens)
    ensures HasKnownLogins(tokens[newId := t])
  {
    var after := tokens[newId := t];
    forall j | j in after
      ensures HasKnownLogin(after, j)
    {
      assert j != newId ==> HasKnownLogin(tokens, j);
    }
  }

  lemma IssueKeeps(s: Tables, newId: TokenId, t: Token)
    requires Invariant(s) && newId !in s.tokens && IsActive(s.staff, t.staff)
    requires t.login == newId || t.login in s.tokens
    requires forall i :: i in s.tokens ==> IsSpent(s.tokens[i], t)
    ensures Invariant(s.(tokens := s.tokens[newId := t])) && KeepsRevoked(s.tokens, s.tokens[newId := t])
  {
    var after := s.tokens[newId := t];
    IssuedIsTheOne(s.tokens, newId, t);
    IssuedIsKnown(s.tokens, newId, t);
    hide HasOneLivePerLogin, IsSpent, AreOfOneSession, HasKnownLogins;
    forall j | j in after && IsLive(after[j])
      ensures IsActive(s.staff, after[j].staff)
    {
      assert j != newId ==> IsActive(s.staff, s.tokens[j].staff);
    }
  }

  /** An earlier token of the session, no longer live. */
  predicate IsSpent(earlier: Token, t: Token) {
    earlier.login == t.login ==> earlier.staff == t.staff && earlier.authMethod == t.authMethod && !IsLive(earlier)
  }

  lemma RevokedTokenIs(t: Token, user: StaffId, lock: bool, now: int)
    ensures var t' := RevokedToken(t, user, lock, now);
            KeepsToken(t, t') && (IsLive(t') <==> IsLive(t) && t.staff != user)
  {}

  lemma RevocationKeeps(s: Tables, user: StaffId, lock: bool, now: int, staff: map<StaffId, Staff>)
    requires Invariant(s) && HasFewFailures(staff)
    requires forall u :: u in s.staff && s.staff[u].isActive && u != user ==> IsActive(staff, u)
    ensures Invariant(Tables(RevokedAll(s.tokens, user, lock, now), staff))
    ensures KeepsRevoked(s.tokens, RevokedAll(s.tokens, user, lock, now))
    ensures forall i :: i in s.tokens && s.tokens[i].staff == user ==> !IsLive(RevokedAll(s.tokens, user, lock, now)[i])
  {
    hide RevokedToken, HasOneLivePerLogin, HasKnownLogins, HasFewFailures;
    var after := Tables(RevokedAll(s.tokens, user, lock, now), staff);
    forall i | i in s.tokens
      ensures KeepsToken(s.tokens[i], after.tokens[i])
      ensures IsLive(after.tokens[i]) <==> IsLive(s.tokens[i]) && s.tokens[i].staff != user
    {
      RevokedTokenIs(s.tokens[i], user, lock, now);
    }
    forall j | j in after.tokens && IsLive(after.tokens[j])
      ensures IsActive(staff, after.tokens[j].staff)
    {
      assert IsActive(s.staff, s.tokens[j].staff);
    }
    ChangesKeep(s, after);
  }

  lemma StaffKeeps(s: Tables, staff: map<StaffId, Staff>)
    requires Invariant(s) && HasFewFailures(staff)
    requires forall u :: u in s.staff && s.staff[u].isActive ==> IsActive(staff, u)
    ensures Invariant(s.(staff := staff)) && KeepsRevoked(s.tokens, s.tokens)
  {
    forall j | j in s.tokens && IsLive(s.tokens[j])
      ensures IsActive(staff, s.tokens[j].staff)
    {
      assert IsActive(s.staff, s.tokens[j].staff);
    }
  }

  // ---- Each step ----

  lemma LoginKeeps(s: Tables, user: StaffId, authMethod: AuthMethod, isProven: bool, newId: TokenId, now: int)
    requires Invariant(s) && newId !in s.tokens
    ensures var s' := LoggedIn(s, user, authMethod, isProven, newId, now).0;
            Invariant(s') && KeepsRevoked(s.tokens, s'.tokens)
  {
    if user in s.staff && s.staff[user].isActive && isProven {
      var staff := LoggedIn(s, user, authMethod, isProven, newId, now).0.staff;
      StaffKeeps(s, staff);
      NoTokenOfLogin(s, newId);
      IssueKeeps(s.(staff := staff), newId, NewToken(user, newId, None, authMethod, None, now));
    }
  }

  lemma NoTokenOfLogin(s: Tables, newId: TokenId)
    requires Invariant(s) && newId !in s.tokens
    ensures forall i :: i in s.tokens ==> s.tokens[i].login != newId
  {
    forall i | i in s.tokens
      ensures s.tokens[i].login != newId
    {
      assert HasKnownLogin(s.tokens, i);
    }
  }

  lemma RefreshKeeps(s: Tables, cookie: TokenId, newId: TokenId, now: int)
    requires Invariant(s) && newId !in s.tokens
    ensures var s' := Refreshed(s, cookie, newId, now).0; Invariant(s') && KeepsRevoked(s.tokens, s'.tokens)
  {
    if MayRefresh(s, cookie, now) {
      var t := s.tokens[cookie];
      var revoked := t.(revokedAt := Some(now));
      var between := s.(tokens := s.tokens[cookie := revoked]);
      ChangeKeeps(s, cookie, revoked, s.staff);
      var next := NewToken(t.staff, t.login, t.consentLog, t.authMethod, t.lockedAt, now);
      forall i | i in between.tokens
        ensures IsSpent(between.tokens[i], next)
      {
        assert i != cookie ==> AreOfOneSession(s.tokens[cookie], s.tokens[i]);
      }
      assert HasKnownLogin(s.tokens, cookie);
      IssueKeeps(between, newId, next);
      KeepsThrough(s.tokens, between.tokens, Refreshed(s, cookie, newId, now).0.tokens);
    }
  }

  lemma KeepsThrough(a: map<TokenId, Token>, b: map<TokenId, Token>, c: map<TokenId, Token>)
    requires KeepsRevoked(a, b) && KeepsRevoked(b, c)
    ensures KeepsRevoked(a, c)
  {}

  lemma FailedPinKeeps(s: Tables, user: StaffId, now: int)
    requires Invariant(s) && user in s.staff
    ensures var s' := FailedPin(s, user, now).0; Invariant(s') && KeepsRevoked(s.tokens, s'.tokens)
  {
    var staff := FailedPin(s, user, now).0.staff;
    if s.staff[user].pinFailedCount + 1 >= MAX_PIN_ATTEMPTS {
      RevocationKeeps(s, user, true, now, staff);
    } else {
      StaffKeeps(s, staff);
    }
  }

  lemma UnlockKeeps(s: Tables, user: StaffId, cookie: Option<TokenId>, staff: map<StaffId, Staff>)
    requires Invariant(s) && HasFewFailures(staff)
    requires forall u :: u in s.staff && s.staff[u].isActive ==> IsActive(staff, u)
    ensures Invariant(Tables(Unlocked(s.tokens, user, cookie), staff))
    ensures KeepsRevoked(s.tokens, Unlocked(s.tokens, user, cookie))
  {
    if IsSessionOf(s.tokens, cookie, user) {
      ChangeKeeps(s, cookie.value, s.tokens[cookie.value].(lockedAt := None), staff);
    } else {
      StaffKeeps(s, staff);
    }
  }

  lemma OneTokenStepKeeps(s: Tables, step: Step, now: int)
    requires Invariant(s) && (step.Consent? || step.Logout? || step.Lock?)
    ensures Invariant(After(s, step, now)) && KeepsRevoked(s.tokens, After(s, step, now).tokens)
  {
    StaffKeeps(s, s.staff);
    var after := After(s, step, now);
    if step.cookie.Some? && step.cookie.value in s.tokens && IsLive(s.tokens[step.cookie.value]) {
      ChangeKeeps(s, step.cookie.value, after.tokens[step.cookie.value], s.staff);
      assert after == s || after == Tables(s.tokens[step.cookie.value := after.tokens[step.cookie.value]], s.staff);
    }
  }

  lemma RevokingStepKeeps(s: Tables, step: Step, now: int)
    requires Invariant(s) && (step.ChangePassword? || step.ResetPassword? || step.Switch? || step.ForgetPin?)
    ensures Invariant(After(s, step, now)) && KeepsRevoked(s.tokens, After(s, step, now).tokens)
  {
    StaffKeeps(s, s.staff);
    var after := After(s, step, now);
    RevocationKeeps(s, step.user, step.ForgetPin?, now, after.staff);
    if step.Switch? && step.isActive && step.user in s.staff {
      StaffKeeps(s, after.staff);
    }
  }

  lemma PinStepKeeps(s: Tables, step: Step, now: int)
    requires Invariant(s) && (step.SetPin? || step.Verify? || step.ResetPin?)
    ensures Invariant(After(s, step, now)) && KeepsRevoked(s.tokens, After(s, step, now).tokens)
  {
    StaffKeeps(s, s.staff);
    if step.user in s.staff {
      FailedPinKeeps(s, step.user, now);
      var staff := s.staff[step.user := s.staff[step.user].(hasPin := !step.ResetPin?, pinFailedCount := 0)];
      StaffKeeps(s, staff);
      UnlockKeeps(s, step.user, if step.ResetPin? then None else step.cookie, staff);
      hide Invariant, KeepsRevoked, FailedPin, Unlocked;
      assert step.Verify? && s.staff[step.user].hasPin ==>
               staff == s.staff[step.user := s.staff[step.user].(pinFailedCount := 0)];
    }
  }

  lemma CreationKeeps(s: Tables, user: StaffId)
    requires Invariant(s) && user !in s.staff
    ensures Invariant(StaffCreated(s, user).0) && KeepsRevoked(s.tokens, StaffCreated(s, user).0.tokens)
  {
    StaffKeeps(s, StaffCreated(s, user).0.staff);
  }

  lemma StepKeeps(s: Tables, step: Step, now: int)
    requires Invariant(s) && IsFresh(s, step)
    ensures Invariant(After(s, step, now)) && KeepsRevoked(s.tokens, After(s, step, now).tokens)
  {
    match step
    case Login(user, authMethod, isProven, newId) => LoginKeeps(s, user, authMethod, isProven, newId, now);
    case Refresh(token, newId) => RefreshKeeps(s, token, newId, now);
    case SetPin(_, _, _, _) => PinStepKeeps(s, step, now);
    case Verify(_, _, _) => PinStepKeeps(s, step, now);
    case ResetPin(_) => PinStepKeeps(s, step, now);
    case Consent(_, _, _) => OneTokenStepKeeps(s, step, now);
    case Logout(_) => OneTokenStepKeeps(s, step, now);
    case Lock(_, _) => OneTokenStepKeeps(s, step, now);
    case CreateStaff(user) => CreationKeeps(s, user);
    case _ => RevokingStepKeeps(s, step, now);
  }

  // ---- One session through a step ----

  /** A successful PIN entry on the session's live token: the one way to unlock it. */
  predicate Unlocks(s: Tables, step: Step, login: TokenId, now: int) {
    && (step.SetPin? || step.Verify?) && IsSessionOf(s.tokens, step.cookie, step.user)
    && s.tokens[step.cookie.value].login == login && Answer(s, step, now).1 == Done
  }

  /** The live token that a live token goes back to: itself, or the one it was rotated from. */
  function Predecessor(s: Tables, step: Step, i: TokenId): TokenId {
    if i in s.tokens || !step.Refresh? then i else step.token
  }

  /** What a live token takes over from before the step. */
  predicate Follows(t: Token, t': Token, unlocked: bool) {
    && IsLive(t) && t.login == t'.login && t.staff == t'.staff
    && (t.consentLog.Some? ==> t'.consentLog.Some?)
    && (t.lockedAt.Some? ==> t'.lockedAt.Some? || unlocked)
  }

  lemma LiveTokensFollow(s: Tables, step: Step, now: int, i: TokenId)
    requires Invariant(s) && IsFresh(s, step) && i in After(s, step, now).tokens
    requires IsLive(After(s, step, now).tokens[i]) && After(s, step, now).tokens[i].login in s.tokens
    ensures var t', p := After(s, step, now).tokens[i], Predecessor(s, step, i);
            p in s.tokens && Follows(s.tokens[p], t', Unlocks(s, step, t'.login, now))
  {
    hide Invariant;
    StepKeeps(s, step, now);
    if i in s.tokens {
      assert KeepsToken(s.tokens[i], After(s, step, now).tokens[i]);
      if s.tokens[i].lockedAt.Some? {
        LockFollows(s, step, now, i);
      }
    }
  }

  lemma LockFollows(s: Tables, step: Step, now: int, i: TokenId)
    requires IsFresh(s, step) && i in s.tokens && IsLive(s.tokens[i]) && s.tokens[i].lockedAt.Some?
    requires i in After(s, step, now).tokens
    ensures After(s, step, now).tokens[i].lockedAt.Some? || Unlocks(s, step, s.tokens[i].login, now)
  {}

  ghost predicate IsSessionLocked(tokens: map<TokenId, Token>, login: TokenId) {
    forall i :: i in tokens && IsLiveOf(tokens[i], login) ==> tokens[i].lockedAt.Some?
  }

  ghost predicate IsSessionConsented(tokens: map<TokenId, Token>, login: TokenId) {
    forall i :: i in tokens && IsLiveOf(tokens[i], login) ==> tokens[i].consentLog.Some?
  }

  ghost predicate IsSessionOver(tokens: map<TokenId, Token>, login: TokenId) {
    forall i :: i in tokens ==> !IsLiveOf(tokens[i], login)
  }

  predicate IsLiveOf(t: Token, login: TokenId) {
    IsLive(t) && t.login == login
  }

  /**
   A locked session stays locked through a step exactly unless that step enters the PIN on it; consent given
   is not asked for again; a session that is over stays over.
   */
  lemma SessionStays(s: Tables, step: Step, now: int, login: TokenId)
    requires Invariant(s) && IsFresh(s, step) && login in s.tokens
    ensures IsSessionLocked(s.tokens, login) ==>
              (IsSessionLocked(After(s, step, now).tokens, login) <==> !Unlocks(s, step, login, now))
    ensures IsSessionConsented(s.tokens, login) ==> IsSessionConsented(After(s, step, now).tokens, login)
    ensures IsSessionOver(s.tokens, login) ==> IsSessionOver(After(s, step, now).tokens, login)
  {
    var after := After(s, step, now).tokens;
    forall i | i in after && IsLiveOf(after[i], login)
      ensures var p := Predecessor(s, step, i);
              p in s.tokens && Follows(s.tokens[p], after[i], Unlocks(s, step, login, now))
    {
      LiveTokensFollow(s, step, now, i);
    }
    if Unlocks(s, step, login, now) {
      UnlockedIsOpen(s, step, now, login);
    }
  }

  lemma UnlockedIsOpen(s: Tables, step: Step, now: int, login: TokenId)
    requires Unlocks(s, step, login, now)
    ensures !IsSessionLocked(After(s, step, now).tokens, login)
  {
    var t := After(s, step, now).tokens[step.cookie.value];
    assert IsLiveOf(t, login) && t.lockedAt.None?;
  }

  /** The session that a step unlocks, if it does. */
  function UnlockedBy(s: Tables, step: Step, now: int): Option<TokenId> {
    if (step.SetPin? || step.Verify?) && IsSessionOf(s.tokens, step.cookie, step.user) && Answer(s, step, now).1 == Done
    then Some(s.tokens[step.cookie.value].login) else None
  }

  /** No session is unlocked but the one, none loses its consent, and none that is over comes back. */
  ghost predicate KeepsSessions(tokens: map<TokenId, Token>, tokens': map<TokenId, Token>, unlocked: Option<TokenId>) {
    forall login :: login in tokens ==> KeepsSession(tokens, tokens', login, unlocked)
  }

  ghost predicate KeepsSession(
    tokens: map<TokenId, Token>, tokens': map<TokenId, Token>, login: TokenId, unlocked: Option<TokenId>)
  {
    && (IsSessionLocked(tokens, login) && unlocked != Some(login) ==> IsSessionLocked(tokens', login))
    && (IsSessionConsented(tokens, login) ==> IsSessionConsented(tokens', login))
    && (IsSessionOver(tokens, login) ==> IsSessionOver(tokens', login))
  }

  lemma StepKeepsSessions(s: Tables, step: Step, now: int)
    requires Invariant(s) && IsFresh(s, step)
    ensures Invariant(After(s, step, now)) && KeepsRevoked(s.tokens, After(s, step, now).tokens)
    ensures KeepsSessions(s.tokens, After(s, step, now).tokens, UnlockedBy(s, step, now))
  {
    hide Invariant, After, Answer, KeepsRevoked, IsSessionLocked, IsSessionConsented, IsSessionOver;
    StepKeeps(s, step, now);
    forall login | login in s.tokens
      ensures KeepsSession(s.tokens, After(s, step, now).tokens, login, UnlockedBy(s, step, now))
    {
      SessionStays(s, step, now, login);
    }
  }

  // ---- Runs ----

  ghost predicate IsRun(states: seq<Tables>, steps: seq<Step>, times: seq<int>) {
    && |states| == |steps| + 1 == |times| + 1
    && (forall k :: 0 <= k < |steps| ==> IsStep(states, steps, times, k))
  }

  predicate IsStep(states: seq<Tables>, steps: seq<Step>, times: seq<int>, k: nat)
    requires k < |steps| && |states| == |steps| + 1 == |times| + 1
  {
    IsFresh(states[k], steps[k]) && states[k + 1] == After(states[k], steps[k], times[k])
  }

  lemma {:induction false} RunKeepsInvariant(states: seq<Tables>, steps: seq<Step>, times: seq<int>, k: nat)
    requires IsRun(states, steps, times) && Invariant(states[0]) && k < |states|
    ensures Invariant(states[k])
    decreases k
  {
    hide Invariant, After, KeepsRevoked;
    if k > 0 {
      RunKeepsInvariant(states, steps, times, k - 1);
      assert IsStep(states, steps, times, k - 1);
      StepKeeps(states[k - 1], steps[k - 1], times[k - 1]);
    }
  }

  /** Revocation is permanent, and a token that was locked when it was revoked stays locked. */
  lemma {:induction false} RevokedForGood(
    states: seq<Tables>, steps: seq<Step>, times: seq<int>, first: nat, last: nat, i: TokenId)
    requires IsRun(states, steps, times) && Invariant(states[0]) && first <= last < |states|
    requires i in states[first].tokens && !IsLive(states[first].tokens[i])
    ensures i in states[last].tokens && states[last].tokens[i] == states[first].tokens[i]
    decreases last
  {
    hide Invariant, After;
    if first < last {
      RevokedForGood(states, steps, times, first, last - 1, i);
      RunKeepsInvariant(states, steps, times, last - 1);
      assert IsStep(states, steps, times, last - 1);
      StepKeeps(states[last - 1], steps[last - 1], times[last - 1]);
      assert KeepsToken(states[last - 1].tokens[i], states[last].tokens[i]);
    }
  }

  /** A locked session is locked through any number of rotations until its PIN is entered. */
  lemma {:induction false} LockedUntilUnlocked(
    states: seq<Tables>, steps: seq<Step>, times: seq<int>, first: nat, last: nat, login: TokenId)
    requires IsRun(states, steps, times) && Invariant(states[0]) && first <= last < |states|
    requires login in states[first].tokens && IsSessionLocked(states[first].tokens, login)
    requires forall k :: first <= k < last ==> !Unlocks(states[k], steps[k], login, times[k])
    ensures login in states[last].tokens && IsSessionLocked(states[last].tokens, login)
    decreases last
  {
    hide Invariant, After, Unlocks, IsSessionLocked, KeepsToken, IsSessionConsented, IsSessionOver;
    if first < last {
      LockedUntilUnlocked(states, steps, times, first, last - 1, login);
      RunKeepsInvariant(states, steps, times, last - 1);
      assert IsStep(states, steps, times, last - 1);
      StepKeeps(states[last - 1], steps[last - 1], times[last - 1]);
      SessionStays(states[last - 1], steps[last - 1], times[last - 1], login);
    }
  }

  // ---- Wrong PINs ----

  /** The step compares the person's PIN, to verify it or to change it, and it does not match. */
  predicate IsWrongPin(s: Tables, step: Step, user: StaffId) {
    && user in s.staff && s.staff[user].hasPin
    && (match step
        case Verify(u, _, matches) => u == user && !matches
        case SetPin(u, _, isValidPin, matches) => u == user && isValidPin && !matches
        case _ => false)
  }

  /** The steps that forget the wrong PINs: a right one, a new one, a login by password, and clearing the PIN. */
  predicate ForgetsWrongPins(s: Tables, step: Step, user: StaffId) {
    && user in s.staff
    && (match step
        case Verify(u, _, matches) => u == user && s.staff[user].hasPin && matches
        case SetPin(u, _, isValidPin, matches) => u == user && isValidPin && (s.staff[user].hasPin ==> matches)
        case Login(u, authMethod, isProven, _) =>
          u == user && s.staff[user].isActive && isProven && authMethod == PASSWORD
        case ResetPin(u) => u == user
        case ForgetPin(u) => u == user
        case _ => false)
  }

  lemma StepCounts(s: Tables, step: Step, user: StaffId, now: int)
    requires user in s.staff && s.staff[user].pinFailedCount < MAX_PIN_ATTEMPTS && IsFresh(s, step)
    ensures var s', before := After(s, step, now), s.staff[user].pinFailedCount;
            && user in s'.staff
            && s'.staff[user].pinFailedCount == if IsWrongPin(s, step, user) then (before + 1) % MAX_PIN_ATTEMPTS
                                                else if ForgetsWrongPins(s, step, user) then 0 else before
  {
    hide RevokedAll, Unlocked, IsSessionOf, MayRefresh;
  }

  /** An account that a step makes has no failures counted. */
  lemma NewStaffHasNone(s: Tables, step: Step, user: StaffId, now: int)
    requires user !in s.staff && user in After(s, step, now).staff
    ensures After(s, step, now).staff[user].pinFailedCount == 0
  {
    hide RevokedAll, Unlocked, IsSessionOf, MayRefresh;
  }

  lemma WrongPinEnds(s: Tables, step: Step, user: StaffId, now: int)
    requires IsWrongPin(s, step, user) && s.staff[user].pinFailedCount < MAX_PIN_ATTEMPTS
    ensures After(s, step, now).tokens == if s.staff[user].pinFailedCount + 1 == MAX_PIN_ATTEMPTS
                                          then RevokedAll(s.tokens, user, true, now) else s.tokens
  {
    hide RevokedAll, Unlocked, IsSessionOf;
  }

  function FailuresAt(s: Tables, user: StaffId): nat {
    if user in s.staff then s.staff[user].pinFailedCount else 0
  }

  /**
   How many wrong PINs of the person there were in a row, with those counted at the start, whatever else was
   asked for between them.
   */
  function WrongInARow(states: seq<Tables>, steps: seq<Step>, user: StaffId, k: nat): nat
    requires k <= |steps| < |states|
  {
    if k == 0 then FailuresAt(states[0], user)
    else if IsWrongPin(states[k - 1], steps[k - 1], user) then WrongInARow(states, steps, user, k - 1) + 1
    else if ForgetsWrongPins(states[k - 1], steps[k - 1], user) then 0
    else WrongInARow(states, steps, user, k - 1)
  }

  /** In every run, also for accounts that are made in it. */
  lemma {:induction false} FailuresAreWrongPins(
    states: seq<Tables>, steps: seq<Step>, times: seq<int>, user: StaffId, k: nat)
    requires IsRun(states, steps, times) && k < |states| && HasFewFailures(states[0].staff)
    ensures FailuresAt(states[k], user) == WrongInARow(states, steps, user, k) % MAX_PIN_ATTEMPTS
    ensures user !in states[k].staff ==> WrongInARow(states, steps, user, k) == 0
    decreases k
  {
    hide After, IsFresh;
    if k > 0 {
      FailuresAreWrongPins(states, steps, times, user, k - 1);
      assert IsStep(states, steps, times, k - 1);
      if user in states[k - 1].staff {
        StepCounts(states[k - 1], steps[k - 1], user, times[k - 1]);
      } else if user in states[k].staff {
        NewStaffHasNone(states[k - 1], steps[k - 1], user, times[k - 1]);
      }
      OneMore(WrongInARow(states, steps, user, k - 1));
    }
  }

  lemma OneMore(n: nat)
    ensures (n % MAX_PIN_ATTEMPTS + 1) % MAX_PIN_ATTEMPTS == (n + 1) % MAX_PIN_ATTEMPTS
  {}

  /**
   In every run a wrong PIN, entered to verify or to change it, revokes and locks every session of the person
   if it is the fifth in a row, or the tenth, and so on; otherwise it touches no session.
   */
  lemma FifthWrongPinEndsAll(states: seq<Tables>, steps: seq<Step>, times: seq<int>, user: StaffId, k: nat)
    requires IsRun(states, steps, times) && k < |steps| && HasFewFailures(states[0].staff)
    requires IsWrongPin(states[k], steps[k], user)
    ensures states[k + 1].tokens == if (WrongInARow(states, steps, user, k) + 1) % MAX_PIN_ATTEMPTS == 0
                                    then RevokedAll(states[k].tokens, user, true, times[k]) else states[k].tokens
  {
    hide After, IsFresh, WrongInARow, RevokedAll;
    FailuresAreWrongPins(states, steps, times, user, k);
    assert IsStep(states, steps, times, k);
    WrongPinEnds(states[k], steps[k], user, times[k]);
    OneMore(WrongInARow(states, steps, user, k));
  }
}
