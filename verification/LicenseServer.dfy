/**
  The licence table and its transitions (internal/licensedb/store.go,
  cmd/licenseserver/main.go). Webhooks are delivered one at a time; times are nanoseconds.
 */
module LicenseServer {
  import opened Options

  const SECOND: int := 1_000_000_000
  const TOKEN_LIFETIME: int := 30 * 24 * 3600 * SECOND

  datatype Status = Active | Cancelled

  datatype License = License(key: string, tier: string, status: Status, expiresAt: Option<int>,
                             subscription: Option<string>)
  {
    predicate IsValid(now: int) {
      status == Active && (expiresAt.None? || expiresAt.value >= now)
    }
  }

  datatype TokenPayload = TokenPayload(key: string, tier: string, expiresAt: int)

  /** An ideal signature: only the server can make a Signed token. */
  datatype Token = Signed(payload: TokenPayload) | Forged

  datatype Response = Response(valid: bool, tier: string, token: Option<Token>)

  datatype Prices = Prices(pro: string, power: string)

  // ----- the table as a value -----

  function Lookup(rows: seq<License>, key: string): (r: Option<License>)
    ensures r.Some? ==> r.value in rows && r.value.key == key
    ensures r.None? <==> forall l :: l in rows ==> l.key != key
  {
    if rows == [] then None
    else if rows[0].key == key then Some(rows[0])
    else
      var r := Lookup(rows[1..], key);
      assert rows == [rows[0]] + rows[1..];
      r
  }

  function LookupBySubscription(rows: seq<License>, sub: string): (r: Option<License>)
    ensures r.Some? ==> r.value in rows && r.value.subscription == Some(sub)
    ensures r.None? <==> forall l :: l in rows ==> l.subscription != Some(sub)
  {
    if rows == [] then None
    else if rows[0].subscription == Some(sub) then Some(rows[0])
    else
      var r := LookupBySubscription(rows[1..], sub);
      assert rows == [rows[0]] + rows[1..];
      r
  }

  /** INSERT with a UNIQUE key: a clash changes nothing. */
  function Inserted(rows: seq<License>, l: License): seq<License> {
    if Lookup(rows, l.key).Some? then rows else rows + [l]
  }

  function Revoked(rows: seq<License>, key: string): (r: seq<License>)
    ensures |r| == |rows|
  {
    seq(|rows|, i requires 0 <= i < |rows| => if rows[i].key == key then rows[i].(status := Cancelled) else rows[i])
  }

  function Upgraded(rows: seq<License>, key: string, tier: string): (r: seq<License>)
    ensures |r| == |rows|
  {
    seq(|rows|, i requires 0 <= i < |rows| => if rows[i].key == key then rows[i].(tier := tier) else rows[i])
  }

  function TierForPrice(prices: Prices, price: Option<string>): string {
    if price.None? then ""
    else if price.value == prices.pro then "pro"
    else if price.value == prices.power then "power"
    else ""
  }

  /** A subscription as fetched from the payment provider. */
  datatype Subscription = Subscription(price: Option<string>, metaTier: string)

  /** Everything that changes the table. `fetched` is None when the provider could not be asked. */
  datatype Event =
    | CheckoutCompleted(sub: string, metaTier: string, fetched: Option<Subscription>, newKey: string)
    | SubscriptionDeleted(sub: string)
    | SubscriptionUpdated(sub: string, details: Subscription)
    | CreateCommand(newKey: string, tier: string, expiresAt: Option<int>)
    | RevokeCommand(key: string)
    | UpgradeCommand(key: string, tier: string)

  /** The tier of a completed checkout; None when the handler dies on a subscription it could not fetch. */
  function CheckoutTier(prices: Prices, sub: string, metaTier: string, fetched: Option<Subscription>): Option<string> {
    if metaTier != "" then Some(metaTier)
    else if sub == "" then Some("pro")
    else if fetched.None? then None
    else
      var byPrice := TierForPrice(prices, fetched.value.price);
      var tier := if byPrice != "" then byPrice else fetched.value.metaTier;
      Some(if tier != "" then tier else "pro")
  }

  function Handle(prices: Prices, rows: seq<License>, e: Event): seq<License> {
    match e
    case CheckoutCompleted(sub, metaTier, fetched, newKey) =>
      var tier := CheckoutTier(prices, sub, metaTier, fetched);
      if tier.None? || (sub != "" && LookupBySubscription(rows, sub).Some?) then rows
      else Inserted(rows, License(newKey, tier.value, Active, None, if sub != "" then Some(sub) else None))
    case SubscriptionDeleted(sub) =>
      var l := LookupBySubscription(rows, sub);
      if l.None? then rows else Revoked(rows, l.value.key)
    case SubscriptionUpdated(sub, details) =>
      var l := LookupBySubscription(rows, sub);
      var byPrice := TierForPrice(prices, details.price);
      var tier := if byPrice != "" then byPrice else details.metaTier;
      if l.None? || tier == "" || tier == l.value.tier then rows else Upgraded(rows, l.value.key, tier)
    case CreateCommand(newKey, tier, expiresAt) => Inserted(rows, License(newKey, tier, Active, expiresAt, None))
    case RevokeCommand(key) => Revoked(rows, key)
    case UpgradeCommand(key, tier) => Upgraded(rows, key, tier)
  }

  function HandleAll(prices: Prices, rows: seq<License>, events: seq<Event>): seq<License> {
    if events == [] then rows
    else Handle(prices, HandleAll(prices, rows, events[..|events| - 1]), events[|events| - 1])
  }

  /** What the validate endpoint answers. */
  function Validate(rows: seq<License>, key: string, now: int): Response {
    if key == "" then Response(false, "", None)
    else
      var l := Lookup(rows, key);
      if l.None? || !l.value.IsValid(now) then Response(false, "", None)
      else
        var exp := (now + TOKEN_LIFETIME) / SECOND;
        Response(true, l.value.tier, Some(Signed(TokenPayload(key, l.value.tier, exp))))
  }

  // ----- the program -----

  class Store {
    var rows: seq<License>

    constructor ()
      ensures rows == []
    {
      rows := [];
    }

    method Create(key: string, tier: string, expiresAt: Option<int>, sub: Option<string>) returns (ok: bool)
      modifies this
      ensures rows == Inserted(old(rows), License(key, tier, Active, expiresAt, sub))
      ensures ok <==> Lookup(old(rows), key).None?
    {
      ok := Lookup(rows, key).None?;
      if ok {
        rows := rows + [License(key, tier, Active, expiresAt, sub)];
      }
    }

    method Revoke(key: string) returns (ok: bool)
      modifies this
      ensures rows == Revoked(old(rows), key)
      ensures ok <==> Lookup(old(rows), key).Some?
    {
      ok := false;
      ghost var was := rows;
      for i := 0 to |rows|
        invariant |rows| == |was|
        invariant forall k :: 0 <= k < i ==> rows[k] == Revoked(was, key)[k]
        invariant forall k :: i <= k < |was| ==> rows[k] == was[k]
        invariant ok <==> exists k :: 0 <= k < i && was[k].key == key
      {
        if rows[i].key == key {
          rows := rows[i := rows[i].(status := Cancelled)];
          ok := true;
        }
      }
      assert rows == Revoked(was, key);
    }

    method Upgrade(key: string, tier: string) returns (ok: bool)
      modifies this
      ensures rows == Upgraded(old(rows), key, tier)
      ensures ok <==> Lookup(old(rows), key).Some?
    {
      ok := false;
      ghost var was := rows;
      for i := 0 to |rows|
        invariant |rows| == |was|
        invariant forall k :: 0 <= k < i ==> rows[k] == Upgraded(was, key, tier)[k]
        invariant forall k :: i <= k < |was| ==> rows[k] == was[k]
        invariant ok <==> exists k :: 0 <= k < i && was[k].key == key
      {
        if rows[i].key == key {
          rows := rows[i := rows[i].(tier := tier)];
          ok := true;
        }
      }
      assert rows == Upgraded(was, key, tier);
    }

    method HandleCheckoutCompleted(prices: Prices, sub: string, metaTier: string, fetched: Option<Subscription>,
                                   newKey: string)
      modifies this
      ensures rows == Handle(prices, old(rows), CheckoutCompleted(sub, metaTier, fetched, newKey))
    {
      var tier := metaTier;
      if tier == "" && sub != "" {
        if fetched.None? {
          return;
        }
        tier := TierForPrice(prices, fetched.value.price);
        if tier == "" {
          tier := fetched.value.metaTier;
        }
      }
      if tier == "" {
        tier := "pro";
      }
      if sub != "" && LookupBySubscription(rows, sub).Some? {
        return;
      }
      var ok := Create(newKey, tier, None, if sub != "" then Some(sub) else None);
    }

    method HandleSubscriptionDeleted(prices: Prices, sub: string)
      modifies this
      ensures rows == Handle(prices, old(rows), SubscriptionDeleted(sub))
    {
      var l := LookupBySubscription(rows, sub);
      if l.Some? {
        var ok := Revoke(l.value.key);
      }
    }

    method HandleSubscriptionUpdated(prices: Prices, sub: string, details: Subscription)
      modifies this
      ensures rows == Handle(prices, old(rows), SubscriptionUpdated(sub, details))
    {
      var l := LookupBySubscription(rows, sub);
      if l.None? {
        return;
      }
      var newTier := TierForPrice(prices, details.price);
      if newTier == "" {
        newTier := details.metaTier;
      }
      if newTier == "" || newTier == l.value.tier {
        return;
      }
      var ok := Upgrade(l.value.key, newTier);
    }
  }

  // ----- cancelled for good -----

  ghost predicate IsCancelled(rows: seq<License>, key: string) {
    exists i :: 0 <= i < |rows| && rows[i].key == key && rows[i].status == Cancelled
  }

  ghost predicate UniqueKeys(rows: seq<License>) {
    forall i, j :: 0 <= i < j < |rows| ==> rows[i].key != rows[j].key
  }

  ghost predicate OnePerSubscription(rows: seq<License>) {
    forall i, j :: 0 <= i < j < |rows| && rows[i].subscription.Some? ==> rows[i].subscription != rows[j].subscription
  }

  /** Rows keep their place, key and subscription, and a cancelled row stays cancelled. */
  ghost predicate Preserves(rows: seq<License>, rows': seq<License>) {
    && |rows| <= |rows'|
    && forall i :: 0 <= i < |rows| ==>
      && rows'[i].key == rows[i].key && rows'[i].subscription == rows[i].subscription
      && (rows[i].status == Cancelled ==> rows'[i].status == Cancelled)
  }

  lemma SameSizePreserves(rows: seq<License>, rows': seq<License>)
    requires UniqueKeys(rows) && OnePerSubscription(rows)
    requires Preserves(rows, rows') && |rows| == |rows'|
    ensures UniqueKeys(rows') && OnePerSubscription(rows')
  {
  }

  lemma InsertPreserves(rows: seq<License>, l: License)
    requires UniqueKeys(rows) && OnePerSubscription(rows)
    requires l.subscription.Some? ==> forall r :: r in rows ==> r.subscription != l.subscription
    ensures var rows' := Inserted(rows, l);
      UniqueKeys(rows') && OnePerSubscription(rows') && Preserves(rows, rows')
  {
  }

  lemma HandleKeeps(prices: Prices, rows: seq<License>, e: Event)
    requires UniqueKeys(rows) && OnePerSubscription(rows)
    ensures var rows' := Handle(prices, rows, e);
      UniqueKeys(rows') && OnePerSubscription(rows') && Preserves(rows, rows')
  {
    var rows' := Handle(prices, rows, e);
    match e {
      case CheckoutCompleted(sub, metaTier, fetched, newKey) =>
        var tier := CheckoutTier(prices, sub, metaTier, fetched);
        if tier.Some? && (sub == "" || LookupBySubscription(rows, sub).None?) {
          InsertPreserves(rows, License(newKey, tier.value, Active, None, if sub != "" then Some(sub) else None));
        }
      case CreateCommand(newKey, tier, expiresAt) =>
        InsertPreserves(rows, License(newKey, tier, Active, expiresAt, None));
      case SubscriptionDeleted(_) => SameSizePreserves(rows, rows');
      case SubscriptionUpdated(_, _) => SameSizePreserves(rows, rows');
      case RevokeCommand(_) => SameSizePreserves(rows, rows');
      case UpgradeCommand(_, _) => SameSizePreserves(rows, rows');
    }
  }

  /** No webhook, in any order or number, and no command makes a cancelled licence active again. */
  lemma {:induction false} CancelledForGood(prices: Prices, rows: seq<License>, events: seq<Event>, key: string)
    requires UniqueKeys(rows) && OnePerSubscription(rows) && IsCancelled(rows, key)
    ensures var rows' := HandleAll(prices, rows, events);
      UniqueKeys(rows') && OnePerSubscription(rows') && IsCancelled(rows', key)
  {
    if events != [] {
      var n := |events| - 1;
      CancelledForGood(prices, rows, events[..n], key);
      HandleKeeps(prices, HandleAll(prices, rows, events[..n]), events[n]);
    }
  }

  /** From an empty table, keys stay unique and each subscription has at most one licence, redeliveries included. */
  lemma {:induction false} OneLicensePerSubscription(prices: Prices, events: seq<Event>)
    ensures var rows := HandleAll(prices, [], events);
      UniqueKeys(rows) && OnePerSubscription(rows)
  {
    if events != [] {
      var n := |events| - 1;
      OneLicensePerSubscription(prices, events[..n]);
      HandleKeeps(prices, HandleAll(prices, [], events[..n]), events[n]);
    }
  }

  lemma LookupUnique(rows: seq<License>, i: nat)
    requires UniqueKeys(rows) && i < |rows|
    ensures Lookup(rows, rows[i].key) == Some(rows[i])
  {
    var l := Lookup(rows, rows[i].key).value;
    var j :| 0 <= j < |rows| && rows[j] == l;
  }

  /** A cancelled key is refused from then on. */
  lemma CancelledIsInvalid(rows: seq<License>, key: string, now: int)
    requires UniqueKeys(rows) && IsCancelled(rows, key)
    ensures !Validate(rows, key, now).valid
  {
    var i :| 0 <= i < |rows| && rows[i].key == key && rows[i].status == Cancelled;
    LookupUnique(rows, i);
  }

  // ----- exactly when a licence is cancelled -----

  /** The event, delivered to this table, cancels the key: a command for it, or its subscription's deletion. */
  predicate Cancels(rows: seq<License>, e: Event, key: string) {
    var l := Lookup(rows, key);
    l.Some? && (e == RevokeCommand(key) || (e.SubscriptionDeleted? && l.value.subscription == Some(e.sub)))
  }

  lemma LookupBySubscriptionUnique(rows: seq<License>, i: nat)
    requires OnePerSubscription(rows) && i < |rows| && rows[i].subscription.Some?
    ensures LookupBySubscription(rows, rows[i].subscription.value) == Some(rows[i])
  {
    var l := LookupBySubscription(rows, rows[i].subscription.value).value;
    var j :| 0 <= j < |rows| && rows[j] == l;
  }

  lemma LookupAt(rows: seq<License>, key: string) returns (i: nat)
    requires Lookup(rows, key).Some?
    ensures i < |rows| && rows[i] == Lookup(rows, key).value && rows[i].key == key
  {
    i :| 0 <= i < |rows| && rows[i] == Lookup(rows, key).value;
  }

  /** An event leaves a row as cancelled as it was, or cancels it. */
  lemma RowCancelled(prices: Prices, rows: seq<License>, e: Event, i: nat)
    requires UniqueKeys(rows) && OnePerSubscription(rows) && i < |rows|
    ensures i < |Handle(prices, rows, e)|
    ensures Handle(prices, rows, e)[i].status == Cancelled
       <==> rows[i].status == Cancelled || e == RevokeCommand(rows[i].key)
            || (e.SubscriptionDeleted? && rows[i].subscription == Some(e.sub))
  {
    if e.SubscriptionDeleted? {
      var l := LookupBySubscription(rows, e.sub);
      if rows[i].subscription == Some(e.sub) {
        LookupBySubscriptionUnique(rows, i);
      } else if l.Some? {
        var j :| 0 <= j < |rows| && rows[j] == l.value;
        assert i != j;
      }
    }
  }

  lemma KnownRowCancelled(prices: Prices, rows: seq<License>, e: Event, key: string)
    requires UniqueKeys(rows) && OnePerSubscription(rows) && Lookup(rows, key).Some?
    ensures var l := Lookup(Handle(prices, rows, e), key);
      && l.Some? && l.value.subscription == Lookup(rows, key).value.subscription
      && (l.value.status == Cancelled <==> Lookup(rows, key).value.status == Cancelled || Cancels(rows, e, key))
  {
    var i := LookupAt(rows, key);
    HandleKeeps(prices, rows, e);
    LookupUnique(Handle(prices, rows, e), i);
    RowCancelled(prices, rows, e, i);
  }

  /** A licence that appears is active. */
  lemma NewRowIsActive(prices: Prices, rows: seq<License>, e: Event, key: string)
    requires Lookup(rows, key).None? && Lookup(Handle(prices, rows, e), key).Some?
    ensures Lookup(Handle(prices, rows, e), key).value.status == Active
  {
    var rows' := Handle(prices, rows, e);
    var i := LookupAt(rows', key);
    assert forall l :: l in rows ==> l.key != key;
  }

  /** The j-th event, delivered when it was, cancels the key. */
  predicate CancelledAt(prices: Prices, events: seq<Event>, key: string, j: nat)
    requires j < |events|
  {
    Cancels(HandleAll(prices, [], events[..j]), events[j], key)
  }

  ghost predicate EverCancelled(prices: Prices, events: seq<Event>, key: string) {
    exists j :: 0 <= j < |events| && CancelledAt(prices, events, key, j)
  }

  lemma EverCancelledSnoc(prices: Prices, events: seq<Event>, key: string)
    requires events != []
    ensures var n := |events| - 1;
      EverCancelled(prices, events, key)
      <==> EverCancelled(prices, events[..n], key) || Cancels(HandleAll(prices, [], events[..n]), events[n], key)
  {
    var n := |events| - 1;
    forall j | 0 <= j < n
      ensures CancelledAt(prices, events, key, j) <==> CancelledAt(prices, events[..n], key, j)
    {
      assert events[..n][..j] == events[..j];
    }
    assert CancelledAt(prices, events, key, n) <==> Cancels(HandleAll(prices, [], events[..n]), events[n], key);
    if EverCancelled(prices, events[..n], key) {
      var j :| 0 <= j < n && CancelledAt(prices, events[..n], key, j);
      assert CancelledAt(prices, events, key, j);
    }
  }

  /** No event cancels a key before it is there. */
  lemma NeverCancelled(prices: Prices, events: seq<Event>, key: string)
    requires events != [] && Lookup(HandleAll(prices, [], events[..|events| - 1]), key).None?
    ensures !EverCancelled(prices, events, key)
  {
    forall j | 0 <= j < |events|
      ensures !CancelledAt(prices, events, key, j)
    {
      NotYetThere(prices, events, j, |events| - 1, key);
    }
  }

  /**
    After every sequence of webhooks and commands, a licence is cancelled exactly when, after it was
    created, its subscription's deletion or a revoke command for its key was delivered.
   */
  lemma {:induction false} CancelledExactly(prices: Prices, events: seq<Event>, key: string)
    requires Lookup(HandleAll(prices, [], events), key).Some?
    ensures Lookup(HandleAll(prices, [], events), key).value.status == Cancelled
       <==> EverCancelled(prices, events, key)
  {
    if events != [] {
      var n := |events| - 1;
      var rows := HandleAll(prices, [], events[..n]);
      if Lookup(rows, key).Some? {
        CancelledExactly(prices, events[..n], key);
        EverCancelledSnoc(prices, events, key);
        OneLicensePerSubscription(prices, events[..n]);
        KnownRowCancelled(prices, rows, events[n], key);
      } else {
        NewRowIsActive(prices, rows, events[n], key);
        NeverCancelled(prices, events, key);
      }
    }
  }

  /** A key that is not in the table was never in it. */
  lemma {:induction false} NotYetThere(prices: Prices, events: seq<Event>, j: nat, n: nat, key: string)
    requires j <= n <= |events| && Lookup(HandleAll(prices, [], events[..n]), key).None?
    ensures Lookup(HandleAll(prices, [], events[..j]), key).None?
    decreases n
  {
    if j < n {
      var rows := HandleAll(prices, [], events[..n - 1]);
      assert events[..n][..n - 1] == events[..n - 1];
      OneLicensePerSubscription(prices, events[..n - 1]);
      if Lookup(rows, key).Some? {
        KnownRowCancelled(prices, rows, events[n - 1], key);
      }
      NotYetThere(prices, events, j, n - 1, key);
    }
  }

  /** So a deletion delivered before the checkout is lost: the checkout then makes a licence that stays valid. */
  lemma DeletionBeforeCheckoutIsLost(prices: Prices, rows: seq<License>, sub: string, tier: string, key: string,
                                     now: int)
    requires sub != "" && tier != "" && key != ""
    requires LookupBySubscription(rows, sub).None? && Lookup(rows, key).None?
    ensures var after := Handle(prices, Handle(prices, rows, SubscriptionDeleted(sub)),
                                CheckoutCompleted(sub, tier, None, key));
      Validate(after, key, now).valid && Validate(after, key, now).tier == tier
  {
    var l := License(key, tier, Active, None, Some(sub));
    var after := rows + [l];
    assert after[|rows|] == l;
    var i := LookupAt(after, key);
  }

  // ----- answers and tiers, in plain terms -----

  /** Some row has the key, is active, and has no expiry or one not yet past. */
  ghost predicate Entitled(rows: seq<License>, l: License, key: string, now: int) {
    && l in rows && l.key == key && l.status == Active
    && match l.expiresAt { case None => true case Some(end) => now <= end }
  }

  /**
    The endpoint grants exactly the keys entitled now, at their tier, with a token for that key and
    tier that lasts thirty days from now, to the second.
   */
  lemma ValidateExactly(rows: seq<License>, key: string, now: int)
    requires UniqueKeys(rows)
    ensures var r := Validate(rows, key, now);
      && (r.valid <==> key != "" && exists l :: Entitled(rows, l, key, now))
      && (r.valid ==> exists l :: Entitled(rows, l, key, now) && r.tier == l.tier)
      && (if r.valid then
            r.token == Some(Signed(TokenPayload(key, r.tier, (now + 2_592_000_000_000_000) / 1_000_000_000)))
          else r.tier == "" && r.token == None)
  {
    var l := Lookup(rows, key);
    if l.Some? {
      assert l.value.IsValid(now) <==> Entitled(rows, l.value, key, now);
      forall x | Entitled(rows, x, key, now)
        ensures x == l.value
      {
        var i :| 0 <= i < |rows| && rows[i] == x;
        LookupUnique(rows, i);
      }
    }
  }

  /** The tier a price or else a subscription's metadata stands for, and what to do without either. */
  function TierOf(prices: Prices, s: Subscription, otherwise: string): string {
    if s.price == Some(prices.pro) then "pro"
    else if s.price == Some(prices.power) then "power"
    else if s.metaTier != "" then s.metaTier
    else otherwise
  }

  /**
    An update of a subscription gives its licence the tier of the new price, or of the metadata when
    the price is not known, and leaves it as it was when neither says; it touches nothing else.
   */
  lemma UpdateExactly(prices: Prices, rows: seq<License>, sub: string, details: Subscription, i: nat)
    requires UniqueKeys(rows) && OnePerSubscription(rows) && i < |rows|
    ensures var rows' := Handle(prices, rows, SubscriptionUpdated(sub, details));
      && |rows'| == |rows|
      && rows'[i] == if rows[i].subscription == Some(sub)
                     then rows[i].(tier := TierOf(prices, details, rows[i].tier)) else rows[i]
  {
    if rows[i].subscription == Some(sub) {
      LookupBySubscriptionUnique(rows, i);
    } else {
      var l := LookupBySubscription(rows, sub);
      if l.Some? {
        var j :| 0 <= j < |rows| && rows[j] == l.value;
        assert i != j;
      }
    }
  }

  /**
    A completed checkout for a new subscription and an unused key makes one active licence without
    expiry: of the tier named at checkout, else of the subscription's price or metadata, else "pro".
   */
  lemma CheckoutExactly(prices: Prices, rows: seq<License>, sub: string, metaTier: string,
                        fetched: Option<Subscription>, key: string)
    requires Lookup(rows, key).None? && LookupBySubscription(rows, sub).None?
    requires metaTier != "" || sub == "" || fetched.Some?
    ensures var tier := if metaTier != "" then metaTier
                        else if sub == "" then "pro"
                        else TierOf(prices, fetched.value, "pro");
      Handle(prices, rows, CheckoutCompleted(sub, metaTier, fetched, key))
      == rows + [License(key, tier, Active, None, if sub == "" then None else Some(sub))]
  {
  }

  /** A checkout delivered again makes no second licence. */
  lemma CheckoutRepeats(prices: Prices, rows: seq<License>, sub: string, metaTier: string,
                        fetched: Option<Subscription>, key: string)
    requires sub != "" && LookupBySubscription(rows, sub).Some?
    ensures Handle(prices, rows, CheckoutCompleted(sub, metaTier, fetched, key)) == rows
  {
  }

  /** A deletion cancels the subscription's licence and touches nothing else. */
  lemma DeletionExactly(prices: Prices, rows: seq<License>, sub: string, i: nat)
    requires UniqueKeys(rows) && OnePerSubscription(rows) && i < |rows|
    ensures var rows' := Handle(prices, rows, SubscriptionDeleted(sub));
      && |rows'| == |rows|
      && rows'[i] == if rows[i].subscription == Some(sub) then rows[i].(status := Cancelled) else rows[i]
  {
    if rows[i].subscription == Some(sub) {
      LookupBySubscriptionUnique(rows, i);
    } else {
      var l := LookupBySubscription(rows, sub);
      if l.Some? {
        var j :| 0 <= j < |rows| && rows[j] == l.value;
        assert i != j;
      }
    }
  }

  /** The commands touch the rows of their key alone; a create with an unused key adds one active licence. */
  lemma CommandsExactly(prices: Prices, rows: seq<License>, key: string, tier: string, expiresAt: Option<int>)
    ensures var revoked := Handle(prices, rows, RevokeCommand(key));
      var upgraded := Handle(prices, rows, UpgradeCommand(key, tier));
      && |revoked| == |rows| && |upgraded| == |rows|
      && (forall i :: 0 <= i < |rows| ==>
            && revoked[i] == (if rows[i].key == key then rows[i].(status := Cancelled) else rows[i])
            && upgraded[i] == (if rows[i].key == key then rows[i].(tier := tier) else rows[i]))
    ensures Handle(prices, rows, CreateCommand(key, tier, expiresAt))
         == if exists i :: 0 <= i < |rows| && rows[i].key == key then rows
            else rows + [License(key, tier, Active, expiresAt, None)]
  {
    if i :| 0 <= i < |rows| && rows[i].key == key {
      assert rows[i] in rows;
    }
  }
}
