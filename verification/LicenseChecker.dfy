/**
  The client's licence check (internal/license/checker.go): ask the server, fall back to a
  signed cached answer within a grace period, otherwise drop to the free tier. The network and
  the local store may fail at any call. Tokens are ideal: only the server can sign.
 */
module LicenseChecker {
  import opened Options
  import opened Sums
  import opened LicenseServer

  const FREE := "free"

  /** The zero time of the client's clock, in nanoseconds of Unix time. */
  const ZERO_TIME: int := -62135596800 * SECOND

  predicate ValidTier(t: string) {
    t == "free" || t == "pro" || t == "power"
  }

  /** The single row of license_cache. */
  datatype Cached = Cached(licenseKey: string, tier: string, token: Option<Token>, lastVerified: int, expiresAt: int)

  const EMPTY_CACHE := Cached("", FREE, None, ZERO_TIME, ZERO_TIME)

  /**
    What happens around one Verify: the decoded answer if a usable one arrives and when the
    request was served, the clock at each place the code reads it, and which store calls fail.
   */
  datatype Env = Env(
    reply: Option<Response>, askedAt: int, replyCheckedAt: int, checkedAt: int, now: int,
    readFails: bool, writeFails: bool)

  datatype Client = Client(licenseKey: string, tier: string, cache: Cached)

  predicate TokenLive(p: TokenPayload, now: int) {
    !(p.expiresAt > 0 && p.expiresAt * SECOND < now)
  }

  function VerifyToken(t: Token, now: int): Option<TokenPayload> {
    if t.Signed? && TokenLive(t.payload, now) then Some(t.payload) else None
  }

  /** The tier and token of a successful call; None for every error. */
  function PhoneHome(key: string, env: Env): Option<(string, Option<Token>)> {
    if env.reply.None? then None
    else if !env.reply.value.valid then Some((FREE, None))
    else if env.reply.value.token.None? then None
    else
      var p := VerifyToken(env.reply.value.token.value, env.replyCheckedAt);
      if p.None? || p.value.key != key || !ValidTier(p.value.tier) then None
      else Some((p.value.tier, env.reply.value.token))
  }

  function Stored(cache: Cached, row: Cached, env: Env): Cached {
    if env.writeFails then cache else row
  }

  function Fallback(c: Client, env: Env): Client {
    var free := c.(tier := FREE);
    if env.readFails || c.cache.licenseKey != c.licenseKey || c.cache.token.None? then free
    else
      var p := VerifyToken(c.cache.token.value, env.checkedAt);
      if p.None? then free
      else if env.now < c.cache.expiresAt then c.(tier := p.value.tier)
      else free.(cache := Stored(c.cache, Cached(c.licenseKey, FREE, None, ZERO_TIME, ZERO_TIME), env))
  }

  function Verified(c: Client, grace: int, env: Env): Client {
    if c.licenseKey == "" then Client("", FREE, Stored(c.cache, EMPTY_CACHE, env))
    else
      var answer := PhoneHome(c.licenseKey, env);
      if answer.None? then Fallback(c, env)
      else
        var row := Cached(c.licenseKey, answer.value.0, answer.value.1, env.now, env.now + grace);
        Client(c.licenseKey, answer.value.0, Stored(c.cache, row, env))
  }

  // ----- the program -----

  class CacheStore {
    var row: Cached

    constructor ()
      ensures row == EMPTY_CACHE
    {
      row := EMPTY_CACHE;
    }

    method Get(env: Env) returns (r: Option<Cached>)
      ensures r == if env.readFails then None else Some(row)
    {
      r := if env.readFails then None else Some(row);
    }

    method Update(cl: Cached, env: Env) returns (ok: bool)
      modifies this
      ensures row == Stored(old(row), cl, env) && ok == !env.writeFails
    {
      ok := !env.writeFails;
      if ok {
        row := cl;
      }
    }
  }

  class DefaultChecker {
    const store: CacheStore
    const gracePeriod: int
    var licenseKey: string
    var currentTier: string

    constructor (store: CacheStore, key: string, grace: int)
      ensures this.store == store && gracePeriod == grace
      ensures State() == Client(key, FREE, store.row)
    {
      this.store := store;
      gracePeriod := grace;
      licenseKey := key;
      currentTier := FREE;
    }

    function State(): Client
      reads this, store
    {
      Client(licenseKey, currentTier, store.row)
    }

    method SetKeyAndVerify(key: string, env: Env) returns (ok: bool)
      requires this as object != store
      modifies this, store
      ensures State() == Verified(old(State()).(licenseKey := key), gracePeriod, env)
    {
      licenseKey := key;
      ok := Verify(env);
    }

    method Verify(env: Env) returns (ok: bool)
      requires this as object != store
      modifies this, store
      ensures State() == Verified(old(State()), gracePeriod, env)
      ensures ok == if licenseKey == "" then !env.writeFails else PhoneHome(licenseKey, env).Some? || !env.readFails
    {
      if licenseKey == "" {
        currentTier := FREE;
        ok := store.Update(EMPTY_CACHE, env);
        return;
      }
      var answer := PhoneHome(licenseKey, env);
      if answer.Some? {
        var cl := Cached(licenseKey, answer.value.0, answer.value.1, env.now, env.now + gracePeriod);
        currentTier := answer.value.0;
        var stored := store.Update(cl, env);
        return true;
      }
      ok := FallbackToCache(env);
    }

    method FallbackToCache(env: Env) returns (ok: bool)
      requires this as object != store
      modifies this, store
      ensures State() == Fallback(old(State()), env) && ok == !env.readFails
    {
      var cached := store.Get(env);
      currentTier := FREE;
      if cached.None? {
        return false;
      }
      ok := true;
      if cached.value.licenseKey != licenseKey || cached.value.token.None? {
        return;
      }
      var payload := VerifyToken(cached.value.token.value, env.checkedAt);
      if payload.None? {
        return;
      }
      if env.now < cached.value.expiresAt {
        currentTier := payload.value.tier;
        return;
      }
      var stored := store.Update(Cached(licenseKey, FREE, None, ZERO_TIME, ZERO_TIME), env);
    }
  }

  // ----- the server's past -----

  /** The licence table at each instant. */
  type History = int -> seq<License>

  /** At time s the server held the key valid, at that tier. */
  ghost predicate ServerHeld(hist: History, key: string, tier: string, s: int) {
    var l := Lookup(hist(s), key);
    key != "" && l.Some? && l.value.IsValid(s) && l.value.tier == tier
  }

  /**
    A signed token reaches the client only in the server's own answer, served between the
    request and the client's reading of the clock, at most `delay` apart. Answers without a
    signed token may be anything.
   */
  ghost predicate Authentic(hist: History, delay: int, key: string, env: Env) {
    env.reply.Some? && env.reply.value.token.Some? && env.reply.value.token.value.Signed? ==>
      && env.reply.value == Validate(hist(env.askedAt), key, env.askedAt)
      && env.askedAt <= env.now <= env.askedAt + delay
  }

  datatype Action = VerifyNow(env: Env) | SetKey(key: string, env: Env)

  function KeyOf(c: Client, a: Action): string {
    if a.SetKey? then a.key else c.licenseKey
  }

  function Act(c: Client, grace: int, a: Action): Client {
    Verified(c.(licenseKey := KeyOf(c, a)), grace, a.env)
  }

  ghost predicate IsRun(hist: History, grace: int, delay: int, states: seq<Client>, actions: seq<Action>) {
    && |states| == |actions| + 1 && states[0].tier == FREE && states[0].cache == EMPTY_CACHE
    && (forall n :: 0 <= n < |actions| ==>
          && Authentic(hist, delay, KeyOf(states[n], actions[n]), actions[n].env)
          && states[n + 1] == Act(states[n], grace, actions[n]))
    && (forall m, n :: 0 <= m < n < |actions| ==> actions[m].env.now <= actions[n].env.now)
  }

  /** A cached token was granted by the server at most `delay` before the row was written, and expires `grace` later. */
  ghost predicate Justified(hist: History, grace: int, delay: int, cache: Cached) {
    cache.token.Some? ==>
      && cache.token.value.Signed? && cache.expiresAt == cache.lastVerified + grace
      && exists s :: s <= cache.lastVerified <= s + delay
           && ServerHeld(hist, cache.licenseKey, cache.token.value.payload.tier, s)
  }

  lemma AnswerIsJustified(hist: History, grace: int, delay: int, key: string, env: Env)
    requires Authentic(hist, delay, key, env) && key != ""
    requires PhoneHome(key, env).Some?
    ensures var a := PhoneHome(key, env).value;
      && Justified(hist, grace, delay, Cached(key, a.0, a.1, env.now, env.now + grace))
      && (a.0 != FREE ==> env.askedAt <= env.now <= env.askedAt + delay && ServerHeld(hist, key, a.0, env.askedAt))
  {
    var a := PhoneHome(key, env).value;
    if a.1.Some? {
      assert ServerHeld(hist, key, a.0, env.askedAt);
    }
  }

  lemma StepKeepsJustified(hist: History, grace: int, delay: int, c: Client, env: Env)
    requires Justified(hist, grace, delay, c.cache) && Authentic(hist, delay, c.licenseKey, env)
    ensures var c' := Verified(c, grace, env);
      && Justified(hist, grace, delay, c'.cache)
      && (c'.cache.token.Some? ==> c'.cache.lastVerified == env.now || c'.cache == c.cache)
  {
    if c.licenseKey != "" && PhoneHome(c.licenseKey, env).Some? {
      AnswerIsJustified(hist, grace, delay, c.licenseKey, env);
    }
  }

  lemma {:induction false} CacheAlwaysJustified(hist: History, grace: int, delay: int, states: seq<Client>,
                                                actions: seq<Action>, n: nat)
    requires IsRun(hist, grace, delay, states, actions) && n < |states|
    ensures Justified(hist, grace, delay, states[n].cache)
    ensures states[n].cache.token.Some? ==> n > 0 && states[n].cache.lastVerified <= actions[n - 1].env.now
  {
    if n > 0 {
      CacheAlwaysJustified(hist, grace, delay, states, actions, n - 1);
      var c := states[n - 1].(licenseKey := KeyOf(states[n - 1], actions[n - 1]));
      StepKeepsJustified(hist, grace, delay, c, actions[n - 1].env);
    }
  }

  /** `s` lies within the grace period, plus the time a request may take, before `now`. */
  predicate Recent(s: int, now: int, grace: int, delay: int) {
    s <= now < s + delay + Max(grace, 1)
  }

  /**
    Staleness: after any verification in any run, a paid tier was granted for that key, at that
    tier, by the server within the grace period plus the time one request may take.
   */
  lemma PaidTierIsRecent(hist: History, grace: int, delay: int, states: seq<Client>, actions: seq<Action>, n: nat)
    requires IsRun(hist, grace, delay, states, actions) && n < |actions|
    requires states[n + 1].tier != FREE
    ensures exists s ::
      && Recent(s, actions[n].env.now, grace, delay)
      && ServerHeld(hist, states[n + 1].licenseKey, states[n + 1].tier, s)
  {
    var env := actions[n].env;
    var c := states[n].(licenseKey := KeyOf(states[n], actions[n]));
    CacheAlwaysJustified(hist, grace, delay, states, actions, n);
    if PhoneHome(c.licenseKey, env).Some? {
      AnswerIsJustified(hist, grace, delay, c.licenseKey, env);
      assert Recent(env.askedAt, env.now, grace, delay);
    } else {
      var s :| s <= c.cache.lastVerified <= s + delay
        && ServerHeld(hist, c.cache.licenseKey, c.cache.token.value.payload.tier, s);
      assert Recent(s, env.now, grace, delay);
    }
  }

  // ----- revocation -----

  /** The table evolves only by the server's own transitions. */
  ghost predicate Evolves(prices: Prices, hist: History) {
    && (forall t :: UniqueKeys(hist(t)) && OnePerSubscription(hist(t)))
    && (forall t, t' :: t <= t' ==> exists events :: hist(t') == HandleAll(prices, hist(t), events))
  }

  lemma NeverHeldAgain(prices: Prices, hist: History, key: string, tier: string, r: int, s: int)
    requires Evolves(prices, hist) && IsCancelled(hist(r), key) && s >= r
    ensures !ServerHeld(hist, key, tier, s)
  {
    var events :| hist(s) == HandleAll(prices, hist(r), events);
    CancelledForGood(prices, hist(r), events, key);
    var i :| 0 <= i < |hist(s)| && hist(s)[i].key == key && hist(s)[i].status == Cancelled;
    LookupUnique(hist(s), i);
  }

  /** Once a key is cancelled, every verification after the grace period and one delay gives the free tier. */
  lemma RevocationReaches(prices: Prices, hist: History, grace: int, delay: int, states: seq<Client>,
                          actions: seq<Action>,
                          n: nat, r: int)
    requires IsRun(hist, grace, delay, states, actions) && n < |actions| && Evolves(prices, hist)
    requires IsCancelled(hist(r), states[n + 1].licenseKey)
    requires actions[n].env.now >= r + delay + Max(grace, 1)
    ensures states[n + 1].tier == FREE
  {
    if states[n + 1].tier != FREE {
      PaidTierIsRecent(hist, grace, delay, states, actions, n);
      var s :| Recent(s, actions[n].env.now, grace, delay)
        && ServerHeld(hist, states[n + 1].licenseKey, states[n + 1].tier, s);
      NeverHeldAgain(prices, hist, states[n + 1].licenseKey, states[n + 1].tier, r, s);
    }
  }

  // ----- the offline client keeps its tier -----

  /** No usable answer comes: none at all, or one the client rejects. */
  predicate Offline(key: string, env: Env) {
    PhoneHome(key, env).None?
  }

  /** The cache row of a successful, stored check of `key` at time `at`. */
  predicate CheckedAt(c: Client, grace: int, p: TokenPayload, at: int) {
    && c.licenseKey != "" && p.key == c.licenseKey
    && c.cache == Cached(c.licenseKey, p.tier, Some(Signed(p)), at, at + grace)
  }

  /** A stored answer for a valid licence leaves such a row. */
  lemma SuccessIsCached(c: Client, grace: int, rows: seq<License>, env: Env)
    requires c.licenseKey != "" && !env.writeFails
    requires env.reply == Some(Validate(rows, c.licenseKey, env.askedAt)) && env.reply.value.valid
    requires ValidTier(env.reply.value.tier) && TokenLive(env.reply.value.token.value.payload, env.replyCheckedAt)
    ensures var c' := Verified(c, grace, env);
      && CheckedAt(c', grace, env.reply.value.token.value.payload, env.now)
      && c'.tier == env.reply.value.tier == Lookup(rows, c.licenseKey).value.tier
  {
    assert PhoneHome(c.licenseKey, env) == Some((env.reply.value.tier, env.reply.value.token));
  }

  function AllOffline(c: Client, grace: int, envs: seq<Env>): Client {
    if envs == [] then c else Verified(AllOffline(c, grace, envs[..|envs| - 1]), grace, envs[|envs| - 1])
  }

  /**
    However often it verifies without a usable answer, and whichever reads and writes of its store
    fail, a client has the tier of its last stored check exactly when it can read the store, the
    grace period lasts and the token has not expired.
   */
  lemma {:induction false} OfflineKeepsTier(c: Client, grace: int, p: TokenPayload, at: int, envs: seq<Env>)
    requires CheckedAt(c, grace, p, at) && envs != []
    requires forall k :: 0 <= k < |envs| ==> Offline(c.licenseKey, envs[k])
    requires forall j, k :: 0 <= j < k < |envs| ==> envs[j].now <= envs[k].now
    ensures var last := envs[|envs| - 1];
      var c' := AllOffline(c, grace, envs);
      && c'.licenseKey == c.licenseKey
      && c'.tier == (if !last.readFails && TokenLive(p, last.checkedAt) && last.now < at + grace then p.tier else FREE)
      && (last.now < at + grace ==> c'.cache == c.cache)
  {
    var n := |envs| - 1;
    var before := AllOffline(c, grace, envs[..n]);
    if n > 0 {
      OfflineKeepsTier(c, grace, p, at, envs[..n]);
      assert envs[..n][n - 1].now <= envs[n].now;
      if envs[n - 1].now >= at + grace {
        GraceOverForGood(c, grace, p, at, envs[..n]);
      }
    }
  }

  /** Once the grace period is over, the row either is unchanged, and over, or holds no token. */
  lemma {:induction false} GraceOverForGood(c: Client, grace: int, p: TokenPayload, at: int, envs: seq<Env>)
    requires CheckedAt(c, grace, p, at)
    requires forall k :: 0 <= k < |envs| ==> Offline(c.licenseKey, envs[k])
    ensures var c' := AllOffline(c, grace, envs);
      c'.licenseKey == c.licenseKey && (c'.cache == c.cache || c'.cache.token.None?)
  {
    if envs != [] {
      GraceOverForGood(c, grace, p, at, envs[..|envs| - 1]);
    }
  }

  /** The tier is kept to the very end of the grace period exactly when the token outlives it. */
  lemma KeptToTheEnd(p: TokenPayload, at: int, grace: int)
    requires grace > 0
    ensures (forall t :: at <= t < at + grace ==> TokenLive(p, t))
       <==> p.expiresAt <= 0 || p.expiresAt * SECOND >= at + grace - 1
  {
    if p.expiresAt > 0 && p.expiresAt * SECOND < at + grace - 1 {
      assert !TokenLive(p, at + grace - 1);
    }
  }

  /** The server's 30-day token outlives any grace period a second shorter, counted from the request. */
  lemma DefaultGraceIsKept(rows: seq<License>, key: string, asked: int, at: int, grace: int)
    requires 0 < grace && at + grace <= asked + TOKEN_LIFETIME - SECOND && asked >= 0
    requires Validate(rows, key, asked).valid
    ensures forall t :: at <= t < at + grace ==> TokenLive(Validate(rows, key, asked).token.value.payload, t)
  {
    KeptToTheEnd(Validate(rows, key, asked).token.value.payload, at, grace);
  }

  // ----- the three kinds of answer, in plain terms -----

  /** The server was reached and refused the key. */
  predicate Refuses(env: Env) {
    env.reply.Some? && !env.reply.value.valid
  }

  /** A token that still counts at `now`: signed, and without an expiry or not past it. */
  predicate Counts(token: Option<Token>, now: int) {
    && token.Some? && token.value.Signed?
    && (token.value.payload.expiresAt <= 0 || token.value.payload.expiresAt * 1_000_000_000 >= now)
  }

  /** The server was reached and granted the key a known tier, under its signature. */
  predicate Grants(key: string, env: Env) {
    && env.reply.Some? && env.reply.value.valid && Counts(env.reply.value.token, env.replyCheckedAt)
    && env.reply.value.token.value.payload.key == key
    && env.reply.value.token.value.payload.tier in ["free", "pro", "power"]
  }

  /** A refusal ends the paid tier at once, and empties the cache if it can be written. */
  lemma RefusalEndsTier(c: Client, grace: int, env: Env)
    requires c.licenseKey != "" && Refuses(env)
    ensures var c' := Verified(c, grace, env);
      && c'.licenseKey == c.licenseKey && c'.tier == "free"
      && c'.cache == if env.writeFails then c.cache
                     else Cached(c.licenseKey, "free", None, env.now, env.now + grace)
  {
  }

  /** A grant gives exactly its tier, cached with its token until the grace period ends. */
  lemma GrantGivesTier(c: Client, grace: int, env: Env)
    requires c.licenseKey != "" && Grants(c.licenseKey, env)
    ensures var c' := Verified(c, grace, env);
      var token := env.reply.value.token;
      && c'.licenseKey == c.licenseKey && c'.tier == token.value.payload.tier
      && c'.cache == if env.writeFails then c.cache
                     else Cached(c.licenseKey, token.value.payload.tier, token, env.now, env.now + grace)
  {
  }

  /** The cached row still carries the client. */
  predicate Carries(c: Client, env: Env) {
    && !env.readFails && c.cache.licenseKey == c.licenseKey && Counts(c.cache.token, env.checkedAt)
    && env.now < c.cache.expiresAt
  }

  /**
    Anything else is an outage: the tier is the cached token's exactly while the row carries it, and
    free otherwise.
   */
  lemma OutageFallsBack(c: Client, grace: int, env: Env)
    requires c.licenseKey != "" && !Refuses(env) && !Grants(c.licenseKey, env)
    ensures var c' := Verified(c, grace, env);
      && c'.licenseKey == c.licenseKey
      && c'.tier == (if Carries(c, env) then c.cache.token.value.payload.tier else "free")
      && (c'.cache == c.cache || (c'.cache.token.None? && !env.readFails && env.now >= c.cache.expiresAt))
  {
  }

  /** Without a key the tier is free, and nothing is left in the cache if it can be written. */
  lemma NoKeyIsFree(c: Client, grace: int, env: Env)
    requires c.licenseKey == ""
    ensures var c' := Verified(c, grace, env);
      && c'.licenseKey == "" && c'.tier == "free"
      && (if env.writeFails then c'.cache == c.cache else c'.cache.token.None? && c'.cache.licenseKey == "")
  {
  }

  lemma EmptyCacheStaysEmpty(c: Client, grace: int, env: Env)
    requires c.cache.token.None? && !Grants(c.licenseKey, env)
    ensures var c' := Verified(c, grace, env);
      c'.tier == "free" && c'.cache.token.None?
  {
    if c.licenseKey == "" {
      NoKeyIsFree(c, grace, env);
    } else if Refuses(env) {
      RefusalEndsTier(c, grace, env);
    } else {
      OutageFallsBack(c, grace, env);
    }
  }

  /**
    After a refusal that was written down, a client is on the free tier at every later verification,
    whatever fails and whichever key is set, until the server grants the key then set.
   */
  lemma {:induction false} RefusalLasts(hist: History, grace: int, delay: int, states: seq<Client>,
                                        actions: seq<Action>,
                                        m: nat, n: nat)
    requires IsRun(hist, grace, delay, states, actions) && m <= n < |actions|
    requires KeyOf(states[m], actions[m]) != "" && Refuses(actions[m].env) && !actions[m].env.writeFails
    requires forall j :: m < j <= n ==> !Grants(KeyOf(states[j], actions[j]), actions[j].env)
    ensures states[n + 1].tier == "free" && states[n + 1].cache.token.None?
    decreases n
  {
    var c := states[n].(licenseKey := KeyOf(states[n], actions[n]));
    if n == m {
      RefusalEndsTier(c, grace, actions[n].env);
    } else {
      RefusalLasts(hist, grace, delay, states, actions, m, n - 1);
      EmptyCacheStaysEmpty(c, grace, actions[n].env);
    }
  }

  /**
    Writing it down is needed: after a refusal and then an outage, the client is back on the cached
    tier exactly when the refusal could not be written and the old row still carries it.
   */
  lemma RefusalThenOutage(c: Client, grace: int, refusal: Env, outage: Env)
    requires c.licenseKey != "" && Refuses(refusal) && !Refuses(outage) && !Grants(c.licenseKey, outage)
    ensures var c' := Verified(Verified(c, grace, refusal), grace, outage);
      c'.tier == if refusal.writeFails && Carries(c, outage) then c.cache.token.value.payload.tier else "free"
  {
    RefusalEndsTier(c, grace, refusal);
    var refused := Verified(c, grace, refusal);
    OutageFallsBack(refused, grace, outage);
    assert refusal.writeFails ==> Carries(refused, outage) == Carries(c, outage);
  }

  // ----- the request's delay does widen the window -----

  /** A key valid up to time 0 and cancelled from then on. */
  function CancelledAtOne(): History {
    (t: int) => [License("k", "pro", if t <= 0 then Active else Cancelled, None, None)]
  }

  function LateAnswer(delay: nat): Env {
    Env(Some(Validate(CancelledAtOne()(0), "k", 0)), 0, delay, delay, delay, false, false)
  }

  function NoAnswer(at: int): Env {
    Env(None, at, at, at, at, false, false)
  }

  /**
    The window cannot be narrowed to the grace period alone: an answer served at time 0 and
    received `delay` later pays until `delay + grace`. Only a request that takes no time at all
    keeps within the grace period.
   */
  lemma DelayWidensWindow(grace: nat, delay: nat)
    requires 0 < grace && delay + grace <= TOKEN_LIFETIME
    ensures var hist := CancelledAtOne();
      var t := delay + grace - 1;
      var actions := [VerifyNow(LateAnswer(delay)), VerifyNow(NoAnswer(t))];
      exists states: seq<Client> ::
        && IsRun(hist, grace, delay, states, actions) && states[2].tier == "pro" && states[2].licenseKey == "k"
        && ((exists s :: t - grace < s <= t && ServerHeld(hist, "k", "pro", s)) <==> delay == 0)
  {
    var hist := CancelledAtOne();
    var t := delay + grace - 1;
    var rows := hist(0);
    var actions := [VerifyNow(LateAnswer(delay)), VerifyNow(NoAnswer(t))];
    var c0 := Client("k", FREE, EMPTY_CACHE);
    var c1 := Verified(c0, grace, LateAnswer(delay));
    var c2 := Verified(c1, grace, NoAnswer(t));
    var p := TokenPayload("k", "pro", TOKEN_LIFETIME / SECOND);
    assert Lookup(rows, "k") == Some(rows[0]);
    assert Validate(rows, "k", 0) == Response(true, "pro", Some(Signed(p)));
    assert PhoneHome("k", LateAnswer(delay)) == Some(("pro", Some(Signed(p))));
    assert c1 == Client("k", "pro", Cached("k", "pro", Some(Signed(p)), delay, delay + grace));
    assert c2.tier == "pro";
    var states := [c0, c1, c2];
    assert IsRun(hist, grace, delay, states, actions);
    assert ServerHeld(hist, "k", "pro", 0);
    forall s | ServerHeld(hist, "k", "pro", s)
      ensures s <= 0
    {
      assert Lookup(hist(s), "k") == Some(hist(s)[0]);
    }
  }

  /** In every run, a paid tier was held at the server within the grace period alone. */
  ghost predicate GraceAloneBounds(grace: int, delay: int) {
    forall hist: History, states: seq<Client>, actions: seq<Action>, n: nat ::
      IsRun(hist, grace, delay, states, actions) && n < |actions| && states[n + 1].tier != FREE ==>
        HeldWithin(hist, states[n + 1], actions[n].env.now, grace)
  }

  ghost predicate HeldWithin(hist: History, c: Client, now: int, grace: int) {
    exists s :: now - grace < s <= now && ServerHeld(hist, c.licenseKey, c.tier, s)
  }

  /** The grace period alone bounds staleness, over all runs, exactly when requests take no time. */
  lemma GraceAloneExactly(grace: nat, delay: nat)
    requires 0 < grace && delay + grace <= TOKEN_LIFETIME
    ensures GraceAloneBounds(grace, delay) <==> delay == 0
  {
    if delay == 0 {
      forall hist: History, states: seq<Client>, actions: seq<Action>, n: nat
        | IsRun(hist, grace, delay, states, actions) && n < |actions| && states[n + 1].tier != FREE
        ensures HeldWithin(hist, states[n + 1], actions[n].env.now, grace)
      {
        PaidTierIsRecent(hist, grace, delay, states, actions, n);
      }
    } else {
      DelayWidensWindow(grace, delay);
      var t := delay + grace - 1;
      var actions := [VerifyNow(LateAnswer(delay)), VerifyNow(NoAnswer(t))];
      var states: seq<Client> :| IsRun(CancelledAtOne(), grace, delay, states, actions)
        && states[2].tier == "pro" && states[2].licenseKey == "k"
        && ((exists s :: t - grace < s <= t && ServerHeld(CancelledAtOne(), "k", "pro", s)) <==> delay == 0);
      assert !HeldWithin(CancelledAtOne(), states[1 + 1], actions[1].env.now, grace);
    }
  }
}
