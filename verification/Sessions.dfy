/**
 Refresh tokens and PINs as tables, and what each request makes of them
 (apps/api/src/modules/auth/auth.service.ts:97-137, 263-434,
 apps/api/src/modules/auth/pin.service.ts:74-192, 218-272,
 apps/api/src/modules/admin/admin.service.ts:91-127, 186-281, apps/api/prisma/schema.prisma:294-316).
 Requests run one after the other.  A cookie stands for the token whose hash it has; comparing passwords and
 PINs, random values and times are parameters.
 */
module Sessions {
  import opened Options

  type StaffId = nat
  type TokenId = nat

  datatype AuthMethod = PASSWORD | GOOGLE

  /** `login` is the token that the login issued: rotation hands it on, so it names the session. */
  datatype Token = Token(
    staff: StaffId, login: TokenId, consentLog: Option<nat>, authMethod: AuthMethod,
    expiresAt: int, revokedAt: Option<int>, lockedAt: Option<int>)

  datatype Staff = Staff(isActive: bool, hasPin: bool, pinFailedCount: nat)

  datatype Tables = Tables(tokens: map<TokenId, Token>, staff: map<StaffId, Staff>)

  datatype Reply = Issued(token: TokenId) | Done | BadRequest | Unauthorized | Forbidden

  const MAX_PIN_ATTEMPTS: nat := 5
  const REFRESH_TOKEN_TTL_MS := 7 * 24 * 60 * 60 * 1000

  predicate IsLive(t: Token) {
    t.revokedAt.None?
  }

  // ---- Tokens ----

  function NewToken(staff: StaffId, login: TokenId, consentLog: Option<nat>, authMethod: AuthMethod,
                    lockedAt: Option<int>, now: int): Token
  {
    Token(staff, login, consentLog, authMethod, now + REFRESH_TOKEN_TTL_MS, None, lockedAt)
  }

  function RevokedToken(t: Token, staff: StaffId, lock: bool, now: int): Token {
    if t.staff == staff && IsLive(t) then t.(revokedAt := Some(now), lockedAt := if lock then Some(now) else t.lockedAt)
    else t
  }

  /** Every live token of the person is revoked, and locked as well where access tokens must stop too. */
  function RevokedAll(tokens: map<TokenId, Token>, staff: StaffId, lock: bool, now: int): map<TokenId, Token> {
    map i | i in tokens :: RevokedToken(tokens[i], staff, lock, now)
  }

  /** The cookie's live token of this person, if it is one. */
  predicate IsSessionOf(tokens: map<TokenId, Token>, cookie: Option<TokenId>, user: StaffId) {
    cookie.Some? && cookie.value in tokens && tokens[cookie.value].staff == user && IsLive(tokens[cookie.value])
  }

  // ---- Signing in and out ----

  function LoggedIn(
    s: Tables, user: StaffId, authMethod: AuthMethod, isProven: bool, newId: TokenId, now: int): (Tables, Reply)
  {
    if user !in s.staff || !s.staff[user].isActive || !isProven then (s, Unauthorized)
    else
      var staff := if authMethod == PASSWORD then s.staff[user := s.staff[user].(pinFailedCount := 0)] else s.staff;
      (Tables(s.tokens[newId := NewToken(user, newId, None, authMethod, None, now)], staff), Issued(newId))
  }

  function Consented(s: Tables, user: StaffId, cookie: Option<TokenId>, consentLog: nat): (Tables, Reply) {
    if user !in s.staff || !s.staff[user].isActive then (s, Unauthorized)
    else if !IsSessionOf(s.tokens, cookie, user) then (s, Done)
    else (s.(tokens := s.tokens[cookie.value := s.tokens[cookie.value].(consentLog := Some(consentLog))]), Done)
  }

  predicate MayRefresh(s: Tables, cookie: TokenId, now: int) {
    && cookie in s.tokens && IsLive(s.tokens[cookie]) && s.tokens[cookie].expiresAt >= now
    && s.tokens[cookie].staff in s.staff && s.staff[s.tokens[cookie].staff].isActive
  }

  /** Rotation: the old token is revoked, the new one keeps person, consent, way of signing in, and the lock. */
  function Refreshed(s: Tables, cookie: TokenId, newId: TokenId, now: int): (Tables, Reply) {
    if !MayRefresh(s, cookie, now) then (s, Unauthorized)
    else
      var t := s.tokens[cookie];
      var tokens := s.tokens[cookie := t.(revokedAt := Some(now))];
      var next := NewToken(t.staff, t.login, t.consentLog, t.authMethod, t.lockedAt, now);
      (s.(tokens := tokens[newId := next]), Issued(newId))
  }

  function LoggedOut(s: Tables, cookie: Option<TokenId>, now: int): (Tables, Reply) {
    if cookie.None? || cookie.value !in s.tokens || !IsLive(s.tokens[cookie.value]) then (s, Done)
    else (s.(tokens := s.tokens[cookie.value := s.tokens[cookie.value].(revokedAt := Some(now))]), Done)
  }

  function PasswordChanged(s: Tables, user: StaffId, isProven: bool, now: int): (Tables, Reply) {
    if user !in s.staff || !s.staff[user].isActive || !isProven then (s, Unauthorized)
    else (s.(tokens := RevokedAll(s.tokens, user, false, now)), Done)
  }

  /** A new account is switched on and has no PIN. */
  function StaffCreated(s: Tables, user: StaffId): (Tables, Reply) {
    (s.(staff := s.staff[user := Staff(true, false, 0)]), Done)
  }

  /** An administrator resets a password, or switches an account off or on. */
  function PasswordReset(s: Tables, staff: StaffId, now: int): (Tables, Reply) {
    if staff !in s.staff then (s, BadRequest) else (s.(tokens := RevokedAll(s.tokens, staff, false, now)), Done)
  }

  function Switched(s: Tables, staff: StaffId, isActive: bool, now: int): (Tables, Reply) {
    if staff !in s.staff then (s, BadRequest)
    else
      var tokens := if isActive then s.tokens else RevokedAll(s.tokens, staff, false, now);
      (Tables(tokens, s.staff[staff := s.staff[staff].(isActive := isActive)]), Done)
  }

  // ---- The PIN ----

  function FailedPin(s: Tables, user: StaffId, now: int): (Tables, Reply)
    requires user in s.staff
  {
    var count := s.staff[user].pinFailedCount + 1;
    if count >= MAX_PIN_ATTEMPTS then
      (Tables(RevokedAll(s.tokens, user, true, now), s.staff[user := s.staff[user].(pinFailedCount := 0)]), Forbidden)
    else (s.(staff := s.staff[user := s.staff[user].(pinFailedCount := count)]), BadRequest)
  }

  function Unlocked(tokens: map<TokenId, Token>, user: StaffId, cookie: Option<TokenId>): map<TokenId, Token> {
    if !IsSessionOf(tokens, cookie, user) then tokens
    else tokens[cookie.value := tokens[cookie.value].(lockedAt := None)]
  }

  function PinSet(
    s: Tables, user: StaffId, cookie: Option<TokenId>, isValidPin: bool, matches: bool, now: int): (Tables, Reply)
  {
    if !isValidPin || user !in s.staff then (s, BadRequest)
    else if s.staff[user].hasPin && !matches then FailedPin(s, user, now)
    else
      var staff := s.staff[user := s.staff[user].(hasPin := true, pinFailedCount := 0)];
      (Tables(Unlocked(s.tokens, user, cookie), staff), Done)
  }

  function Verified(s: Tables, user: StaffId, cookie: Option<TokenId>, matches: bool, now: int): (Tables, Reply) {
    if user !in s.staff || !s.staff[user].hasPin then (s, Forbidden)
    else if !matches then FailedPin(s, user, now)
    else
      (Tables(Unlocked(s.tokens, user, cookie), s.staff[user := s.staff[user].(pinFailedCount := 0)]),
       if cookie.Some? && !IsSessionOf(s.tokens, cookie, user) then Unauthorized else Done)
  }

  function LockedScreen(s: Tables, user: StaffId, cookie: Option<TokenId>, now: int): (Tables, Reply) {
    if IsSessionOf(s.tokens, cookie, user) && s.tokens[cookie.value].lockedAt.None? then
      (s.(tokens := s.tokens[cookie.value := s.tokens[cookie.value].(lockedAt := Some(now))]), Done)
    else (s, Done)
  }

  function PinCleared(s: Tables, staff: StaffId): (Tables, Reply) {
    if staff !in s.staff then (s, BadRequest)
    else (s.(staff := s.staff[staff := s.staff[staff].(hasPin := false, pinFailedCount := 0)]), Done)
  }

  function PinForgotten(s: Tables, user: StaffId, now: int): (Tables, Reply) {
    var (cleared, reply) := PinCleared(s, user);
    (cleared.(tokens := RevokedAll(s.tokens, user, true, now)), reply)
  }
}
