/**
 The limiter over the in-memory store and the sign-in service it guards. Keys
 are byte strings; the clock and the outcome of authentication are parameters.
 */
module RateLimiting {
  import opened Wrappers
  import opened Sets
  import opened FixedWindow
  import opened MemoryRateLimit
  import opened MemoryRateLimitHistory

  const MAX_KEY_LENGTH := 255
  const SIGN_IN_IDENTIFIER := "signin.identifier"
  const SIGN_IN_ORIGIN := "signin.origin"

  datatype Config = Config(limit: int, window: int, maxKeys: int)
  {
    /** What a limiter over a shared store needs. */
    predicate Shareable() {
      limit > 0 && window > 0
    }

    /** What a limiter with a store of its own needs. */
    predicate Usable() {
      Shareable() && maxKeys > 0
    }
  }

  datatype Error = InvalidConfig | InvalidKey | Capacity | Unavailable

  datatype Decision = Decision(allowed: bool, remaining: int, retryAfter: int)

  datatype Snapshot = Snapshot(count: int, limit: int, retryAfter: int)

  /** The ASCII characters strings.TrimSpace removes. */
  predicate IsSpace(c: char) {
    c == ' ' || '\t' <= c <= '\r'
  }

  predicate ValidKey(value: string) {
    && (exists i :: 0 <= i < |value| && !IsSpace(value[i]))
    && |value| <= MAX_KEY_LENGTH
    && '\0' !in value && '\r' !in value && '\n' !in value
  }

  /** A hint that keeps the length and at most the two outer characters. */
  function Redact(key: string): (r: string) {
    if |key| <= 2 then seq(|key|, _ => '*')
    else [key[0]] + seq(|key| - 2, _ => '*') + [key[|key| - 1]]
  }

  function Min(a: int, b: int): (r: int) {
    if a < b then a else b
  }

  /** The first attempt of a window counts one. */
  lemma FreshAttempt(b: Bounds, before: Buckets, call: Call, after: Buckets)
    requires Effect(b, before, call, after) && call.op.Hit? && call.reply.Counted?
    ensures Live(Stored(before, call.op.action, call.op.key), call.now) == None ==> call.reply.hit.count == 1
  {
  }

  class RateLimiter {
    const config: Config
    const store: MemoryRateLimitStore

    ghost predicate Valid()
      reads this, store
    {
      && config.Usable() && store.bounds == Bounds(config.limit, config.maxKeys)
      && store.Valid() && Uniform(store.calls, config.window)
    }

    constructor (config: Config)
      requires config.Usable()
      ensures Valid() && this.config == config && fresh(store) && store.calls == []
    {
      this.config := config;
      store := new MemoryRateLimitStore(Bounds(config.limit, config.maxKeys));
    }

    /**
     Consumes one attempt. The answer depends on the store's count alone, and a
     denial always names a wait of more than nothing and at most one window.
     */
    method Allow(action: string, key: string, now: int) returns (r: Result<Decision, Error>)
      requires Valid() && store.InTime(now)
      modifies store
      ensures Valid() && store.InTime(now)
      ensures (r.Err? && r.error == InvalidKey) <==> !ValidKey(action) || !ValidKey(key)
      ensures r.Err? && r.error == InvalidKey ==> store.calls == old(store.calls) && store.buckets == old(store.buckets)
      ensures ValidKey(action) && ValidKey(key) ==>
                && |store.calls| == |old(store.calls)| + 1 && store.calls[..|old(store.calls)|] == old(store.calls)
                && store.states[..|old(store.states)|] == old(store.states)
                && var call := store.calls[|old(store.calls)|];
                && call.now == now && call.op == Operation.Hit(action, key, Redact(key), config.window)
                && (r == Err(Capacity) <==> call.reply == Full)
                && (r.Ok? && Live(Stored(old(store.buckets), action, key), now) == None ==>
                      r.value.allowed && r.value.remaining == config.limit - 1)
                && (r.Ok? ==> call.reply.Counted? && r.value.allowed == (call.reply.hit.count <= config.limit))
                && (r.Ok? && r.value.allowed ==> r.value.remaining == config.limit - call.reply.hit.count >= 0)
                && (r.Ok? && !r.value.allowed ==>
                      && r.value.retryAfter == RetryAfter(config.window, call.reply.hit.started, now)
                      && 0 < r.value.retryAfter <= config.window)
    {
      if !ValidKey(action) || !ValidKey(key) {
        return Err(InvalidKey);
      }
      ghost var n := |store.calls|;
      var hit := store.Hit(action, key, Redact(key), config.window, now);
      if hit.None? {
        return Err(Capacity);
      }
      DeniedWindow(store.bounds, store.states, store.calls, config.window, action, key, n);
      assert EffectAt(store.bounds, store.states, store.calls, n);
      FreshAttempt(store.bounds, store.states[n], store.calls[n], store.states[n + 1]);
      if hit.value.count > config.limit {
        return Ok(Decision(false, 0, RetryAfter(config.window, hit.value.started, now)));
      }
      return Ok(Decision(true, config.limit - hit.value.count, 0));
    }

    method Clear(action: string, key: string, ghost now: int) returns (ok: bool)
      requires Valid() && store.InTime(now)
      modifies store
      ensures Valid() && store.InTime(now)
      ensures ok == (ValidKey(action) && ValidKey(key))
      ensures ok ==> store.calls == old(store.calls) + [Call(now, Operation.Clear(action, key), Cleared)]
      ensures ok ==> store.states == old(store.states) + [store.buckets]
      ensures !ok ==> store.calls == old(store.calls) && store.states == old(store.states)
      ensures store.buckets == if ok then old(store.buckets) - {Composite(action, key)} else old(store.buckets)
    {
      if !ValidKey(action) || !ValidKey(key) {
        return false;
      }
      store.Clear(action, key, now);
      return true;
    }

    /** Clears a key that is known to be valid. */
    method Forget(action: string, key: string, ghost now: int)
      requires Valid() && store.InTime(now) && ValidKey(action) && ValidKey(key)
      modifies store
      ensures Valid() && store.InTime(now) && old(store.calls) <= store.calls
      ensures store.buckets == old(store.buckets) - {Composite(action, key)}
    {
      var cleared := Clear(action, key, now);
    }

    /** Two budgets at once, as a successful sign-in does. */
    method ClearBoth(action: string, key: string, other: string, otherKey: string, ghost now: int)
      requires Valid() && store.InTime(now)
      requires ValidKey(action) && ValidKey(key) && ValidKey(other) && ValidKey(otherKey)
      modifies store
      ensures Valid() && store.InTime(now)
      ensures old(store.calls) <= store.calls
      ensures store.buckets == old(store.buckets) - {Composite(action, key), Composite(other, otherKey)}
    {
      Forget(action, key, now);
      Forget(other, otherKey, now);
    }

    /** The budget of a key without consuming it: never more than the limit, and
        a wait only while attempts are being counted. */
    method Peek(action: string, key: string, now: int) returns (r: Result<Snapshot, Error>)
      requires Valid() && store.InTime(now)
      modifies store`states, store`calls
      ensures Valid() && store.buckets == old(store.buckets)
      ensures r.Err? <==> !ValidKey(action) || !ValidKey(key)
      ensures r.Ok? ==>
                var w := Live(Stored(store.buckets, action, key), now);
                && r.value.limit == config.limit
                && r.value.count == (if w.Some? then Min(w.value.count, config.limit) else 0)
                && (w.Some? ==> r.value.retryAfter == w.value.expires - now > 0)
                && (w.None? ==> r.value.retryAfter == 0)
    {
      if !ValidKey(action) || !ValidKey(key) {
        return Err(InvalidKey);
      }
      ghost var n := |store.calls|;
      var hit := store.Get(action, key, now);
      HistorySane(store.bounds, store.states, store.calls, config.window, n);
      assert EffectAt(store.bounds, store.states, store.calls, n);
      if hit.None? || hit.value.count == 0 {
        return Ok(Snapshot(0, config.limit, 0));
      }
      return Ok(Snapshot(Min(hit.value.count, config.limit), config.limit,
                         RetryAfter(config.window, hit.value.started, now)));
    }
  }

  /** A limiter needs a positive limit, window and capacity. */
  method NewRateLimiter(config: Config) returns (r: Result<RateLimiter, Error>)
    ensures r.Ok? <==> config.limit >= 1 && config.window >= 1 && config.maxKeys >= 1
    ensures r.Err? ==> r.error == InvalidConfig
    ensures r.Ok? ==> r.value.Valid() && r.value.config == config && r.value.store.calls == []
                      && fresh(r.value) && fresh(r.value.store)
  {
    if config.limit <= 0 || config.window <= 0 || config.maxKeys <= 0 {
      return Err(InvalidConfig);
    }
    var limiter := new RateLimiter(config);
    return Ok(limiter);
  }

  datatype Outcome = Failed(error: Error) | Limited(retryAfter: int) | Refused | SignedIn

  /** Sign-in behind an origin budget and an identifier budget. */
  class RateLimitedSignIn {
    const limiter: RateLimiter
    /** For each password check, the call that paid for it and the identifier checked. */
    ghost var checks: map<int, string>

    ghost predicate Valid()
      reads this, limiter, limiter.store
    {
      limiter.Valid() && ChecksPaid(limiter.store.calls, limiter.config.limit, checks)
    }

    constructor (limiter: RateLimiter)
      requires limiter.Valid()
      ensures Valid() && this.limiter == limiter && checks == map[]
    {
      this.limiter := limiter;
      checks := map[];
    }

    /** One budget; a refusal names the error or the wait. */
    method ChargeOne(action: string, key: string, now: int) returns (refusal: Option<Outcome>)
      requires Valid() && limiter.store.InTime(now)
      modifies limiter.store
      ensures Valid() && limiter.store.InTime(now)
      ensures old(limiter.store.calls) <= limiter.store.calls
      ensures refusal.Some? ==>
                || refusal.value.Failed?
                || (refusal.value.Limited? && 0 < refusal.value.retryAfter <= limiter.config.window)
      ensures refusal.None? ==>
                && ValidKey(action) && ValidKey(key)
                && PaidFor(limiter.store.calls, limiter.config.limit, |old(limiter.store.calls)|, action, key)
    {
      ghost var calls := limiter.store.calls;
      var decision := limiter.Allow(action, key, now);
      assert calls <= limiter.store.calls;
      ChecksStayPaid(calls, limiter.store.calls, limiter.config.limit, checks);
      if decision.Err? {
        return Some(Failed(decision.error));
      }
      if !decision.value.allowed {
        return Some(Limited(decision.value.retryAfter));
      }
      return None;
    }

    /** Both budgets, the origin's first; without a refusal each of them counted and allowed this attempt. */
    method Charge(origin: string, identifier: string, now: int, later: int)
      returns (refusal: Option<Outcome>, ghost paid: int)
      requires Valid() && limiter.store.InTime(now) && now <= later
      modifies limiter.store
      ensures Valid() && limiter.store.InTime(later)
      ensures old(limiter.store.calls) <= limiter.store.calls
      ensures refusal.Some? ==>
                || refusal.value.Failed?
                || (refusal.value.Limited? && 0 < refusal.value.retryAfter <= limiter.config.window)
      ensures refusal.None? ==>
                && ValidKey(SIGN_IN_ORIGIN) && ValidKey(origin) && ValidKey(SIGN_IN_IDENTIFIER) && ValidKey(identifier)
                && |old(limiter.store.calls)| < paid
                && PaidFor(limiter.store.calls, limiter.config.limit, |old(limiter.store.calls)|, SIGN_IN_ORIGIN,
                           origin)
                && PaidFor(limiter.store.calls, limiter.config.limit, paid, SIGN_IN_IDENTIFIER, identifier)
    {
      refusal := ChargeOne(SIGN_IN_ORIGIN, origin, now);
      LaterStillInTime(limiter.store, now, later);
      paid := |limiter.store.calls|;
      if refusal.Some? {
        return;
      }
      refusal := ChargeOne(SIGN_IN_IDENTIFIER, identifier, later);
    }

    /** A successful sign-in gives both budgets back. */
    method Settle(origin: string, identifier: string, ghost later: int)
      requires Valid() && limiter.store.InTime(later)
      requires ValidKey(SIGN_IN_ORIGIN) && ValidKey(origin) && ValidKey(SIGN_IN_IDENTIFIER) && ValidKey(identifier)
      modifies limiter.store
      ensures Valid() && limiter.store.InTime(later)
      ensures old(limiter.store.calls) <= limiter.store.calls
      ensures Composite(SIGN_IN_IDENTIFIER, identifier) !in limiter.store.buckets
      ensures Composite(SIGN_IN_ORIGIN, origin) !in limiter.store.buckets
    {
      ghost var calls := limiter.store.calls;
      limiter.ClearBoth(SIGN_IN_ORIGIN, origin, SIGN_IN_IDENTIFIER, identifier, later);
      ChecksStayPaid(calls, limiter.store.calls, limiter.config.limit, checks);
    }

    /**
     `identifier` is the normalized identifier when the input has one, `correct`
     what authentication answers; the two budgets are charged at `now` and `later`.
     A password is checked only when both budgets counted and allowed the attempt.
     Without an identifier the origin is charged and authentication refuses unchecked.
     */
    method SignIn(origin: string, identifier: Option<string>, correct: bool, now: int, later: int)
      returns (outcome: Outcome, ghost paid: Option<int>)
      requires Valid() && limiter.store.InTime(now) && now <= later
      modifies this, limiter.store
      ensures Valid() && limiter.store.InTime(later)
      ensures old(limiter.store.calls) <= limiter.store.calls
      ensures checks ==
                if paid.Some? && identifier.Some? then old(checks)[paid.value := identifier.value] else old(checks)
      ensures paid.Some? <==> identifier.Some? && (outcome == if correct then SignedIn else Refused)
      ensures paid.Some? ==>
                && paid.value > |old(limiter.store.calls)|
                && PaidFor(limiter.store.calls, limiter.config.limit, |old(limiter.store.calls)|, SIGN_IN_ORIGIN,
                           origin)
                && PaidFor(limiter.store.calls, limiter.config.limit, paid.value, SIGN_IN_IDENTIFIER, identifier.value)
      ensures outcome.Limited? ==> 0 < outcome.retryAfter <= limiter.config.window
      ensures outcome.SignedIn? ==>
                && identifier.Some?
                && Composite(SIGN_IN_IDENTIFIER, identifier.value) !in limiter.store.buckets
                && Composite(SIGN_IN_ORIGIN, origin) !in limiter.store.buckets
    {
      var refusal;
      if identifier.None? {
        refusal := ChargeOne(SIGN_IN_ORIGIN, origin, now);
        LaterStillInTime(limiter.store, now, later);
        return if refusal.Some? then refusal.value else Refused, None;
      }
      ghost var call;
      refusal, call := Charge(origin, identifier.value, now, later);
      if refusal.Some? {
        return refusal.value, None;
      }
      checks := checks[call := identifier.value];
      if correct {
        Settle(origin, identifier.value, later);
      }
      return if correct then SignedIn else Refused, Some(call);
    }
  }

  ghost predicate ChecksPaid(calls: seq<Call>, limit: int, checks: map<int, string>) {
    forall i :: i in checks ==> PaidFor(calls, limit, i, SIGN_IN_IDENTIFIER, checks[i])
  }

  lemma ChecksStayPaid(calls: seq<Call>, longer: seq<Call>, limit: int, checks: map<int, string>)
    requires ChecksPaid(calls, limit, checks) && calls <= longer
    ensures ChecksPaid(longer, limit, checks)
  {
  }

  /** The i-th call is an attempt that the budget of this key counted and allowed. */
  predicate PaidFor(calls: seq<Call>, limit: int, i: int, action: string, key: string) {
    && 0 <= i < |calls|
    && calls[i].op.Hit? && calls[i].op.action == action && calls[i].op.key == key
    && calls[i].reply.Counted? && calls[i].reply.hit.count <= limit
  }

  lemma LaterStillInTime(store: MemoryRateLimitStore, now: int, later: int)
    requires store.InTime(now) && now <= later
    ensures store.InTime(later)
  {
  }

  /**
   In any stretch of history no longer than a window in which the identifier is
   neither cleared (so no sign-in for it succeeded) nor evicted, its password is
   checked at most twice the limit.
   */
  lemma PasswordChecksAreBounded(s: RateLimitedSignIn, identifier: string, n: nat, m: nat, from: int)
    requires s.Valid() && n <= m <= |s.limiter.store.calls|
    requires Unevicted(s.limiter.store.states, s.limiter.store.calls, SIGN_IN_IDENTIFIER, identifier, n, m)
    requires UnclearedKey(s.limiter.store.calls, SIGN_IN_IDENTIFIER, identifier, n, m)
    requires forall i :: n <= i < m ==> from <= s.limiter.store.calls[i].now <= from + s.limiter.config.window
    ensures |set i | i in s.checks && n <= i < m && s.checks[i] == identifier| <= 2 * s.limiter.config.limit
  {
    var store := s.limiter.store;
    SlidingBound(store.bounds, store.states, store.calls, s.limiter.config.window, SIGN_IN_IDENTIFIER, identifier, n,
                 m, from);
    var checked := set i | i in s.checks && n <= i < m && s.checks[i] == identifier;
    var allowed := AllowedCalls(store.calls, SIGN_IN_IDENTIFIER, identifier, n, m, store.bounds.limit);
    forall i | i in checked
      ensures i in allowed
    {
      assert PaidFor(store.calls, s.limiter.config.limit, i, SIGN_IN_IDENTIFIER, identifier);
    }
    SubsetBound(checked, allowed);
  }

  /** The same by a guard on the calls: as long as every attempt fits, nothing is evicted. */
  lemma FittingPasswordChecksAreBounded(s: RateLimitedSignIn, identifier: string, n: nat, m: nat, from: int)
    requires s.Valid() && n <= m <= |s.limiter.store.calls|
    requires forall i :: n <= i < m ==>
             Fits(s.limiter.store.bounds, s.limiter.store.states[i], s.limiter.store.calls[i])
    requires UnclearedKey(s.limiter.store.calls, SIGN_IN_IDENTIFIER, identifier, n, m)
    requires forall i :: n <= i < m ==> from <= s.limiter.store.calls[i].now <= from + s.limiter.config.window
    ensures |set i | i in s.checks && n <= i < m && s.checks[i] == identifier| <= 2 * s.limiter.config.limit
  {
    var store := s.limiter.store;
    FittingIsUnevicted(store.bounds, store.states, store.calls, SIGN_IN_IDENTIFIER, identifier, n, m);
    PasswordChecksAreBounded(s, identifier, n, m, from);
  }
}
