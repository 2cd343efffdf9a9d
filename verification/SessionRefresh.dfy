/**
 The client's refresh: one attempt per tab at a time, one post over all tabs
 (apps/web/src/lib/session-refresh.ts:1-53), against the server's rotation
 (apps/api/src/modules/auth/auth.service.ts:318-355).  Tabs share one cookie and one lock.
 */
module SessionRefresh {
  import opened Options
  import opened Sessions
  import opened SessionRuns

  type TabId = nat
  type CallerId = nat
  type AttemptId = nat

  datatype RefreshResult = Ok | NotAuthorized | Failed

  /** What a tab's attempt is doing: `Posted` waits for the server, `Answered` for the answer to arrive. */
  datatype Phase = Idle | Waiting | Posted(presented: TokenId) | Answered(reply: Reply) | Settling

  datatype Tab = Tab(phase: Phase, attempt: AttemptId)

  datatype Client = Client(
    hasLocks: bool,
    tabs: map<TabId, Tab>,
    lock: Option<TabId>,
    cookie: TokenId,
    joined: map<CallerId, AttemptId>,
    results: map<AttemptId, RefreshResult>,
    nextAttempt: AttemptId)

  datatype World = World(server: Tables, client: Client)

  datatype Event =
    | Call(tab: TabId, caller: CallerId)
    | Post(tab: TabId)
    | Serve(tab: TabId, newId: TokenId, now: int)
    | Receive(tab: TabId)
    | LoseRequest(tab: TabId)
    | LoseAnswer(tab: TabId)
    | Settle(tab: TabId)
    | Elsewhere(server: Tables)

  predicate InFlight(t: Tab) {
    t.phase != Idle
  }

  predicate HoldsPost(t: Tab) {
    t.phase.Posted? || t.phase.Answered?
  }

  function ResultOf(reply: Reply): RefreshResult {
    match reply
    case Issued(_) => Ok
    case Unauthorized => NotAuthorized
    case Forbidden => NotAuthorized
    case _ => Failed
  }

  /**
   Requests from elsewhere may do anything to the server's tables but bring a revoked token back; answers, and
   requests on their way, may be lost.
   */
  ghost predicate IsEnabled(w: World, e: Event) {
    if e.Elsewhere? then KeepsRevoked(w.server.tokens, e.server.tokens)
    else
      && e.tab in w.client.tabs
      && var t := w.client.tabs[e.tab];
         match e
         case Call(_, caller) => caller !in w.client.joined
         case Post(_) => t.phase.Waiting? && (w.client.hasLocks ==> w.client.lock.None?)
         case Serve(_, newId, _) => t.phase.Posted? && newId !in w.server.tokens
         case Receive(_) => t.phase.Answered?
         case LoseRequest(_) => t.phase.Posted?
         case LoseAnswer(_) => t.phase.Answered?
         case Settle(_) => t.phase.Settling?
  }

  function InPhase(c: Client, tab: TabId, phase: Phase): map<TabId, Tab>
    requires tab in c.tabs
  {
    c.tabs[tab := c.tabs[tab].(phase := phase)]
  }

  /** The attempt ends: its result is there for all who joined it, and the lock is free. */
  function Ended(c: Client, tab: TabId, result: RefreshResult): Client
    requires tab in c.tabs
  {
    c.(tabs := InPhase(c, tab, Settling), lock := if c.hasLocks then None else c.lock,
       results := c.results[c.tabs[tab].attempt := result])
  }

  function After(w: World, e: Event): World
    requires IsEnabled(w, e)
  {
    var c := w.client;
    match e
    case Call(tab, caller) =>
      if InFlight(c.tabs[tab]) then w.(client := c.(joined := c.joined[caller := c.tabs[tab].attempt]))
      else w.(client := c.(tabs := c.tabs[tab := Tab(Waiting, c.nextAttempt)],
                           joined := c.joined[caller := c.nextAttempt], nextAttempt := c.nextAttempt + 1))
    case Post(tab) =>
      w.(client := c.(tabs := InPhase(c, tab, Posted(c.cookie)), lock := if c.hasLocks then Some(tab) else c.lock))
    case Serve(tab, newId, now) =>
      var (server, reply) := Refreshed(w.server, c.tabs[tab].phase.presented, newId, now);
      World(server, c.(tabs := InPhase(c, tab, Answered(reply))))
    case Receive(tab) =>
      var reply := c.tabs[tab].phase.reply;
      var received := if reply.Issued? then c.(cookie := reply.token) else c;
      w.(client := Ended(received, tab, ResultOf(reply)))
    case LoseRequest(tab) => w.(client := Ended(c, tab, Failed))
    case LoseAnswer(tab) => w.(client := Ended(c, tab, Failed))
    case Settle(tab) => w.(client := c.(tabs := InPhase(c, tab, Idle)))
    case Elsewhere(server) => w.(server := server)
  }

  // ---- What holds of the tabs ----

  /** The lock serialises the tabs that post; without it there may be only one tab. */
  predicate IsSerialised(c: Client) {
    c.hasLocks || (forall a, b :: a in c.tabs && b in c.tabs ==> a == b)
  }

  ghost predicate HoldersHaveLock(c: Client) {
    c.hasLocks ==> forall a :: a in c.tabs ==> (HoldsPost(c.tabs[a]) <==> c.lock == Some(a))
  }

  /** At most one post is on its way to the server or back. */
  ghost predicate HasOnePost(c: Client) {
    forall a, b :: a in c.tabs && b in c.tabs && HoldsPost(c.tabs[a]) && HoldsPost(c.tabs[b]) ==> a == b
  }

  /** Attempts in flight are of one tab each, and whoever joined one has its result or will. */
  ghost predicate AttemptsAreKnown(c: Client) {
    && (forall a, b :: a in c.tabs && b in c.tabs && a != b && InFlight(c.tabs[a]) && InFlight(c.tabs[b]) ==>
          c.tabs[a].attempt != c.tabs[b].attempt)
    && (forall a :: a in c.tabs && InFlight(c.tabs[a]) ==> c.tabs[a].attempt < c.nextAttempt)
    && (forall a :: a in c.tabs && InFlight(c.tabs[a]) ==>
          (c.tabs[a].phase.Settling? <==> c.tabs[a].attempt in c.results))
    && (forall r :: r in c.results ==> r < c.nextAttempt)
  }

  ghost predicate CallersAreServed(c: Client) {
    forall k :: k in c.joined ==> IsServed(c, c.joined[k])
  }

  ghost predicate IsServed(c: Client, attempt: AttemptId) {
    attempt < c.nextAttempt &&
    (attempt in c.results || exists a :: a in c.tabs && InFlight(c.tabs[a]) && c.tabs[a].attempt == attempt)
  }

  ghost predicate PostsPresentCookie(c: Client) {
    forall a :: a in c.tabs && c.tabs[a].phase.Posted? ==> c.tabs[a].phase.presented == c.cookie
  }

  ghost predicate Invariant(w: World) {
    && IsSerialised(w.client) && HoldersHaveLock(w.client) && PostsPresentCookie(w.client)
    && AttemptsAreKnown(w.client) && CallersAreServed(w.client)
  }

  // ---- The cookie and the server's tokens ----

  predicate IsRotated(t: Tab) {
    t.phase.Answered? && t.phase.reply.Issued?
  }

  ghost predicate NoneRotated(c: Client) {
    forall a :: a in c.tabs ==> !IsRotated(c.tabs[a])
  }

  predicate IsLiveToken(s: Tables, token: TokenId) {
    token in s.tokens && IsLive(s.tokens[token])
  }

  predicate IsSpentToken(s: Tables, token: TokenId) {
    token in s.tokens && !IsLive(s.tokens[token])
  }

  /** The browser's token: the one in an answer on its way, or the cookie. */
  ghost predicate IsCurrent(c: Client, token: TokenId) {
    || (exists a :: a in c.tabs && IsRotated(c.tabs[a]) && c.tabs[a].phase.reply.token == token)
    || (NoneRotated(c) && token == c.cookie)
  }

  /** An answer with a new token is lost, or a request from elsewhere revokes the browser's token. */
  ghost predicate Spoils(w: World, e: Event) {
    || (e.LoseAnswer? && e.tab in w.client.tabs && IsRotated(w.client.tabs[e.tab]))
    || (e.Elsewhere? &&
        exists token :: IsCurrent(w.client, token) && IsLiveToken(w.server, token) && !IsLiveToken(e.server, token))
  }

  /** The cookie is live, or spent while the answer with its successor is on its way. */
  ghost predicate IsAlive(w: World) {
    && (forall a :: a in w.client.tabs && IsRotated(w.client.tabs[a]) ==>
          IsLiveToken(w.server, w.client.tabs[a].phase.reply.token) && IsSpentToken(w.server, w.client.cookie))
    && (NoneRotated(w.client) ==> IsLiveToken(w.server, w.client.cookie))
  }

  /** The cookie is spent, and so is whatever may replace it. */
  ghost predicate IsDead(w: World) {
    && IsSpentToken(w.server, w.client.cookie)
    && (forall a :: a in w.client.tabs && IsRotated(w.client.tabs[a]) ==>
          IsSpentToken(w.server, w.client.tabs[a].phase.reply.token))
  }

  // ---- What every event keeps ----

  lemma OneAtATime(c: Client)
    requires IsSerialised(c) && HoldersHaveLock(c)
    ensures HasOnePost(c)
  {}

  lemma LockKept(w: World, e: Event)
    requires IsSerialised(w.client) && HoldersHaveLock(w.client) && IsEnabled(w, e)
    ensures IsSerialised(After(w, e).client) && HoldersHaveLock(After(w, e).client)
  {
    assert After(w, e).client.tabs.Keys == w.client.tabs.Keys;
  }

  lemma AttemptsKept(w: World, e: Event)
    requires AttemptsAreKnown(w.client) && IsEnabled(w, e)
    ensures AttemptsAreKnown(After(w, e).client)
  {
    hide Refreshed, ResultOf, AttemptsAreKnown, After;
    match e
    case Call(_, _) => AttemptsThroughCall(w, e);
    case Receive(_) => AttemptsThroughEnd(w, e);
    case LoseRequest(_) => AttemptsThroughEnd(w, e);
    case LoseAnswer(_) => AttemptsThroughEnd(w, e);
    case _ => AttemptsThroughRest(w, e);
  }

  lemma AttemptsThroughCall(w: World, e: Event)
    requires AttemptsAreKnown(w.client) && IsEnabled(w, e) && e.Call?
    ensures AttemptsAreKnown(After(w, e).client)
  {}

  lemma AttemptsThroughEnd(w: World, e: Event)
    requires AttemptsAreKnown(w.client) && IsEnabled(w, e) && (e.Receive? || e.LoseRequest? || e.LoseAnswer?)
    ensures AttemptsAreKnown(After(w, e).client)
  {
    hide ResultOf;
  }

  lemma AttemptsThroughRest(w: World, e: Event)
    requires AttemptsAreKnown(w.client) && IsEnabled(w, e) && (e.Post? || e.Serve? || e.Settle? || e.Elsewhere?)
    ensures AttemptsAreKnown(After(w, e).client)
  {
    hide Refreshed;
  }

  lemma CallersKept(w: World, e: Event)
    requires CallersAreServed(w.client) && AttemptsAreKnown(w.client) && IsEnabled(w, e)
    ensures CallersAreServed(After(w, e).client)
  {
    var c, c' := w.client, After(w, e).client;
    forall k | k in c'.joined
      ensures IsServed(c', c'.joined[k])
    {
      if k in c.joined {
        ServedStays(w, e, c.joined[k]);
      } else {
        assert c'.tabs[e.tab].attempt == c'.joined[k] && InFlight(c'.tabs[e.tab]);
      }
    }
  }

  lemma ServedStays(w: World, e: Event, attempt: AttemptId)
    requires IsEnabled(w, e) && AttemptsAreKnown(w.client) && IsServed(w.client, attempt)
    ensures IsServed(After(w, e).client, attempt)
  {
    var c, c' := w.client, After(w, e).client;
    if attempt !in c.results {
      var a :| a in c.tabs && InFlight(c.tabs[a]) && c.tabs[a].attempt == attempt;
      assert a in c'.tabs && ((InFlight(c'.tabs[a]) && c'.tabs[a].attempt == attempt) || attempt in c'.results);
    }
  }

  /** A tab that holds a post is the only one. */
  lemma OthersHoldNone(c: Client, a: TabId)
    requires HasOnePost(c) && a in c.tabs && HoldsPost(c.tabs[a])
    ensures forall b :: b in c.tabs && b != a ==> !HoldsPost(c.tabs[b]) && !IsRotated(c.tabs[b])
    ensures !IsRotated(c.tabs[a]) ==> NoneRotated(c)
  {}

  lemma PresentedKept(w: World, e: Event)
    requires PostsPresentCookie(w.client) && HasOnePost(w.client) && IsEnabled(w, e)
    ensures PostsPresentCookie(After(w, e).client)
  {
    hide Refreshed, ResultOf, KeepsRevoked;
    var c, c' := w.client, After(w, e).client;
    if e.Receive? {
      OthersHoldNone(c, e.tab);
    }
    forall a | a in c'.tabs && c'.tabs[a].phase.Posted?
      ensures c'.tabs[a].phase.presented == c'.cookie
    {
      assert c'.tabs[a] == c.tabs[a] || (e.Post? && a == e.tab);
    }
  }

  /** Every event of any number of tabs, and whatever happens to answers and elsewhere. */
  lemma EventKeeps(w: World, e: Event)
    requires Invariant(w) && IsEnabled(w, e)
    ensures Invariant(After(w, e))
  {
    hide IsSerialised, HoldersHaveLock, AttemptsAreKnown, CallersAreServed, PostsPresentCookie, IsEnabled, After;
    OneAtATime(w.client);
    LockKept(w, e);
    AttemptsKept(w, e);
    CallersKept(w, e);
    PresentedKept(w, e);
  }

  // ---- The life of the cookie ----

  lemma RefreshedKeepsRevoked(s: Tables, cookie: TokenId, newId: TokenId, now: int)
    requires newId !in s.tokens
    ensures KeepsRevoked(s.tokens, Refreshed(s, cookie, newId, now).0.tokens)
  {}

  lemma AliveThroughServe(w: World, e: Event)
    requires PostsPresentCookie(w.client) && HasOnePost(w.client) && IsEnabled(w, e) && e.Serve? && IsAlive(w)
    ensures IsAlive(After(w, e))
  {
    hide KeepsRevoked;
    OthersHoldNone(w.client, e.tab);
    var c' := After(w, e).client;
    if MayRefresh(w.server, w.client.cookie, e.now) {
      assert IsRotated(c'.tabs[e.tab]);
    }
  }

  lemma AliveThroughEnd(w: World, e: Event)
    requires HasOnePost(w.client) && IsEnabled(w, e) && (e.Receive? || e.LoseAnswer?) && IsAlive(w)
    ensures if Spoils(w, e) then IsDead(After(w, e)) else IsAlive(After(w, e))
  {
    hide KeepsRevoked, ResultOf;
    OthersHoldNone(w.client, e.tab);
    var c' := After(w, e).client;
    assert NoneRotated(c') by {
      assert forall a :: a in c'.tabs && a != e.tab ==> c'.tabs[a] == w.client.tabs[a];
    }
  }

  lemma AliveThroughElsewhere(w: World, e: Event)
    requires HasOnePost(w.client) && IsEnabled(w, e) && e.Elsewhere? && IsAlive(w)
    ensures if Spoils(w, e) then IsDead(After(w, e)) else IsAlive(After(w, e))
  {
    var c := w.client;
    if NoneRotated(c) {
      assert IsCurrent(c, c.cookie);
      assert KeepsToken(w.server.tokens[c.cookie], e.server.tokens[c.cookie]);
    } else {
      var a :| a in c.tabs && IsRotated(c.tabs[a]);
      OthersHoldNone(c, a);
      assert IsCurrent(c, c.tabs[a].phase.reply.token);
    }
  }

  /** The other events leave the server, the cookie and the rotated answers alone. */
  lemma SameRotated(w: World, e: Event)
    requires IsEnabled(w, e) && (e.Call? || e.Post? || e.LoseRequest? || e.Settle?)
    ensures var w' := After(w, e);
            && w'.server == w.server && w'.client.cookie == w.client.cookie && w'.client.tabs.Keys == w.client.tabs.Keys
            && forall a :: a in w.client.tabs ==>
                 (IsRotated(w'.client.tabs[a]) <==> IsRotated(w.client.tabs[a]))
                 && (IsRotated(w.client.tabs[a]) ==> w'.client.tabs[a] == w.client.tabs[a])
  {
    hide KeepsRevoked;
  }

  lemma AliveThroughRest(w: World, e: Event)
    requires IsEnabled(w, e) && (e.Call? || e.Post? || e.LoseRequest? || e.Settle?) && IsAlive(w)
    ensures IsAlive(After(w, e)) && !Spoils(w, e)
  {
    hide After, IsEnabled;
    SameRotated(w, e);
  }

  /** The cookie stays alive exactly through the events that do not spoil it. */
  lemma AliveThrough(w: World, e: Event)
    requires Invariant(w) && IsEnabled(w, e) && IsAlive(w)
    ensures if Spoils(w, e) then IsDead(After(w, e)) else IsAlive(After(w, e))
  {
    hide IsAlive, IsDead, After, IsEnabled, AttemptsAreKnown, CallersAreServed;
    OneAtATime(w.client);
    match e
    case Serve(_, _, _) => AliveThroughServe(w, e);
    case Receive(_) => AliveThroughEnd(w, e);
    case LoseAnswer(_) => AliveThroughEnd(w, e);
    case Elsewhere(_) => AliveThroughElsewhere(w, e);
    case _ => AliveThroughRest(w, e);
  }

  /** Once spent, the cookie is never live again. */
  lemma DeadThrough(w: World, e: Event)
    requires Invariant(w) && IsEnabled(w, e) && IsDead(w)
    ensures IsDead(After(w, e))
  {
    hide AttemptsAreKnown, CallersAreServed, HoldersHaveLock, ResultOf;
    var c, c' := w.client, After(w, e).client;
    assert e.Serve? ==> !MayRefresh(w.server, c.cookie, e.now);
    forall a | a in c'.tabs && IsRotated(c'.tabs[a])
      ensures IsSpentToken(After(w, e).server, c'.tabs[a].phase.reply.token)
    {
      assert c'.tabs[a] == c.tabs[a];
    }
  }

  /** Why one post at a time: of two that present the same token, the server refuses the second. */
  lemma SecondPostIsRefused(s: Tables, token: TokenId, newId: TokenId, now: int, again: TokenId, later: int)
    requires newId !in s.tokens && Refreshed(s, token, newId, now).1 == Issued(newId)
    ensures Refreshed(Refreshed(s, token, newId, now).0, token, again, later).1 == Unauthorized
  {}

  // ---- Runs ----

  ghost predicate IsRun(worlds: seq<World>, events: seq<Event>) {
    && |worlds| == |events| + 1
    && (forall k :: 0 <= k < |events| ==> IsStep(worlds, events, k))
  }

  ghost predicate IsStep(worlds: seq<World>, events: seq<Event>, k: nat)
    requires k < |events| && |worlds| == |events| + 1
  {
    IsEnabled(worlds[k], events[k]) && worlds[k + 1] == After(worlds[k], events[k])
  }

  /** Before anyone calls: one cookie, live on the server. */
  ghost predicate IsStart(w: World) {
    && IsSerialised(w.client) && w.client.lock.None? && w.client.joined == map[] && w.client.results == map[]
    && (forall a :: a in w.client.tabs ==> w.client.tabs[a].phase.Idle?)
    && IsLiveToken(w.server, w.client.cookie)
  }

  lemma StartKeeps(w: World)
    requires IsStart(w)
    ensures Invariant(w)
  {}

  lemma {:induction false} RunKeepsInvariant(worlds: seq<World>, events: seq<Event>, k: nat)
    requires IsRun(worlds, events) && IsStart(worlds[0]) && k < |worlds|
    ensures Invariant(worlds[k])
    decreases k
  {
    hide Invariant, IsEnabled, After, IsStart;
    if k == 0 {
      StartKeeps(worlds[0]);
    } else {
      RunKeepsInvariant(worlds, events, k - 1);
      assert IsStep(worlds, events, k - 1);
      EventKeeps(worlds[k - 1], events[k - 1]);
    }
  }

  /** The first `k` events lose no answer with a new token, and revoke the browser's token from nowhere else. */
  ghost predicate NothingSpoilt(worlds: seq<World>, events: seq<Event>, k: nat)
    requires k <= |events| < |worlds|
  {
    forall j :: 0 <= j < k ==> !Spoils(worlds[j], events[j])
  }

  lemma {:induction false} AliveUntilSpoilt(worlds: seq<World>, events: seq<Event>, k: nat)
    requires IsRun(worlds, events) && IsStart(worlds[0]) && k < |worlds|
    ensures if NothingSpoilt(worlds, events, k) then IsAlive(worlds[k]) else IsDead(worlds[k])
    decreases k
  {
    hide Invariant, IsEnabled, After, IsAlive, IsDead, Spoils, IsStart;
    if k == 0 {
      StartIsAlive(worlds[0]);
    } else {
      AliveUntilSpoilt(worlds, events, k - 1);
      RunKeepsInvariant(worlds, events, k - 1);
      assert IsStep(worlds, events, k - 1);
      if NothingSpoilt(worlds, events, k - 1) {
        AliveThrough(worlds[k - 1], events[k - 1]);
      } else {
        DeadThrough(worlds[k - 1], events[k - 1]);
      }
    }
  }

  lemma StartIsAlive(w: World)
    requires IsStart(w)
    ensures IsAlive(w)
  {}

  /** In every run, whatever is lost and whatever happens elsewhere, at most one post is in flight. */
  lemma PostsOneAtATime(worlds: seq<World>, events: seq<Event>, k: nat)
    requires IsRun(worlds, events) && IsStart(worlds[0]) && k < |worlds|
    ensures HasOnePost(worlds[k].client)
  {
    RunKeepsInvariant(worlds, events, k);
    hide AttemptsAreKnown, CallersAreServed, IsRun, IsStart;
    OneAtATime(worlds[k].client);
  }

  lemma PostedIsAlive(w: World, a: TabId)
    requires Invariant(w) && a in w.client.tabs && w.client.tabs[a].phase.Posted?
    ensures IsAlive(w) ==> IsLiveToken(w.server, w.client.tabs[a].phase.presented)
    ensures IsDead(w) ==> !IsLiveToken(w.server, w.client.tabs[a].phase.presented)
  {
    hide AttemptsAreKnown, CallersAreServed;
    OneAtATime(w.client);
    OthersHoldNone(w.client, a);
  }

  /**
   A post presents a live token exactly if no answer with a new token was lost before it, and nothing else has
   revoked the browser's token: the tabs' own rotations never revoke what one of them presents.
   */
  lemma PostsPresentLiveTokens(worlds: seq<World>, events: seq<Event>, k: nat, a: TabId)
    requires IsRun(worlds, events) && IsStart(worlds[0]) && k < |worlds|
    requires a in worlds[k].client.tabs && worlds[k].client.tabs[a].phase.Posted?
    ensures IsLiveToken(worlds[k].server, worlds[k].client.tabs[a].phase.presented)
       <==> NothingSpoilt(worlds, events, k)
  {
    hide Invariant, IsAlive, IsDead, NothingSpoilt, IsRun, IsStart;
    AliveUntilSpoilt(worlds, events, k);
    RunKeepsInvariant(worlds, events, k);
    PostedIsAlive(worlds[k], a);
  }

  /** What `Elsewhere` stands for: every request of `SessionRuns` brings no revoked token back. */
  lemma RequestsAreElsewhere(w: World, step: Step, now: int)
    requires SessionRuns.Invariant(w.server) && IsFresh(w.server, step)
    ensures IsEnabled(w, Elsewhere(SessionRuns.After(w.server, step, now)))
  {
    StepKeeps(w.server, step, now);
  }

  /** The tab is still waiting, posting or being answered in this attempt. */
  predicate IsUnderWay(t: Tab, attempt: AttemptId) {
    InFlight(t) && !t.phase.Settling? && t.attempt == attempt
  }

  /**
   Whoever has joined an attempt has its one result exactly when no tab is under way in it, whatever the others
   do.
   */
  lemma CallersShareResults(worlds: seq<World>, events: seq<Event>, k: nat, x: CallerId)
    requires IsRun(worlds, events) && IsStart(worlds[0]) && k < |worlds|
    requires x in worlds[k].client.joined
    ensures var c := worlds[k].client;
            c.joined[x] in c.results <==> forall a :: a in c.tabs ==> !IsUnderWay(c.tabs[a], c.joined[x])
  {
    RunKeepsInvariant(worlds, events, k);
    assert IsServed(worlds[k].client, worlds[k].client.joined[x]);
  }

  /** A result, once there, is never replaced. */
  lemma {:induction false} ResultsStay(
    worlds: seq<World>, events: seq<Event>, first: nat, last: nat, attempt: AttemptId)
    requires IsRun(worlds, events) && IsStart(worlds[0]) && first <= last < |worlds|
    requires attempt in worlds[first].client.results
    ensures attempt in worlds[last].client.results
    ensures worlds[last].client.results[attempt] == worlds[first].client.results[attempt]
    decreases last
  {
    if first < last {
      hide Invariant, IsStart;
      ResultsStay(worlds, events, first, last - 1, attempt);
      RunKeepsInvariant(worlds, events, last - 1);
      assert IsStep(worlds, events, last - 1);
      ResultStays(worlds[last - 1], events[last - 1], attempt);
    }
  }

  lemma ResultStays(w: World, e: Event, attempt: AttemptId)
    requires Invariant(w) && IsEnabled(w, e) && attempt in w.client.results
    ensures attempt in After(w, e).client.results
    ensures After(w, e).client.results[attempt] == w.client.results[attempt]
  {}

  /**
   A result says what happened to its post: `Ok` that a new token arrived and is the cookie now, `NotAuthorized`
   that the server refused, `Failed` that the request, its answer, or the point of it was lost.  The cookie
   changes in no other way.
   */
  lemma ResultSaysWhatHappened(w: World, e: Event, attempt: AttemptId)
    requires Invariant(w) && IsEnabled(w, e)
    requires attempt !in w.client.results && attempt in After(w, e).client.results
    ensures !e.Elsewhere? && w.client.tabs[e.tab].attempt == attempt
    ensures After(w, e).client.results[attempt] == Ok <==>
              e.Receive? && w.client.tabs[e.tab].phase.reply == Issued(After(w, e).client.cookie)
    ensures After(w, e).client.results[attempt] == NotAuthorized <==>
              e.Receive? && (w.client.tabs[e.tab].phase.reply == Unauthorized ||
                             w.client.tabs[e.tab].phase.reply == Forbidden)
    ensures After(w, e).client.results[attempt] != Ok ==> After(w, e).client.cookie == w.client.cookie
  {
    hide Invariant;
  }

  lemma CookieChangesOnReceipt(w: World, e: Event)
    requires IsEnabled(w, e) && After(w, e).client.cookie != w.client.cookie
    ensures e.Receive? && w.client.tabs[e.tab].phase.reply == Issued(After(w, e).client.cookie)
  {}
}
