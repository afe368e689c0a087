/**
 The limiter and the sign-in service over the shared table, as the application builds
 them. One object stands for all instances: each of their calls is a call of its methods,
 and `Elsewhere` is any other statement on the table.
 */
module SharedRateLimiting {
  import opened Wrappers
  import opened Sets
  import opened FixedWindow
  import opened PostgresRateLimit
  import opened PostgresSlidingBound
  import opened Limits = RateLimiting

  /** The i-th statement is an attempt that the budget of this key counted and allowed. */
  predicate PaidInTable(calls: seq<Call>, scope: string, limit: int, i: int, action: string, key: string) {
    && 0 <= i < |calls|
    && var e := EventOf(calls[i], scope, action, key);
       e.HitAt? && e.hit.count <= limit
  }

  lemma Extends(states: seq<Table>, calls: seq<Call>, after: Table, call: Call)
    requires History(states, calls) && PostgresRateLimit.Effect(states[|calls|], call, after)
    requires forall i :: 0 <= i < |calls| ==> calls[i].now <= call.now
    ensures History(states + [after], calls + [call])
  {
    forall i | 0 <= i < |calls| + 1
      ensures EffectAt(states + [after], calls + [call], i)
    {
      if i < |calls| {
        assert EffectAt(states, calls, i);
      }
    }
  }

  /** The wait a denial names, through the truncation to milliseconds. */
  lemma DeniedWait(
      states: seq<Table>, calls: seq<Call>, scope: string, window: int, action: string, key: string, n: nat)
    requires History(states, calls) && Uniform(calls, scope, window) && window >= MILLISECOND && n < |calls|
    requires EventOf(calls[n], scope, action, key).HitAt?
    ensures var started := EventOf(calls[n], scope, action, key).hit.started * MILLISECOND;
            0 < RetryAfter(window, started, calls[n].now) <= window
  {
    var ws, es := Windows(states, scope, action, key), Events(calls, scope, action, key);
    KeyRun(states, calls, scope, window, action, key);
    LiveHit(ws, es, Millis(window), n);
    TruncatedWait(calls[n].now, calls[n].now, es[n].hit.started, window);
  }

  /** A statement that may change the table; a limiter always passes its own window. */
  predicate Writes(op: Operation, scope: string, window: int) {
    !op.List? && !op.Get? && (op.Hit? && op.scope == scope ==> op.length == window)
  }

  class SharedLimiter {
    const config: Config
    const scope: string
    const table: RateLimitTable
    /** The history of the table. */
    ghost var states: seq<Table>
    ghost var calls: seq<Call>

    ghost predicate Valid()
      reads this, table
    {
      && config.Shareable()
      && History(states, calls) && states[|calls|] == table.rows && Uniform(calls, scope, config.window)
    }

    ghost predicate InTime(now: int)
      reads this
    {
      forall i :: 0 <= i < |calls| ==> calls[i].now <= now
    }

    constructor (config: Config, scope: string)
      requires config.Shareable()
      ensures Valid() && this.config == config && this.scope == scope && calls == [] && fresh(table)
    {
      this.config, this.scope := config, scope;
      table := new RateLimitTable();
      states, calls := [map[]], [];
    }

    ghost method Record(op: Operation, reply: Reply, now: int)
      requires config.Shareable() && History(states, calls) && Uniform(calls, scope, config.window) && InTime(now)
      requires op.Hit? && op.scope == scope ==> op.length == config.window
      requires PostgresRateLimit.Effect(states[|calls|], Call(now, op, reply), table.rows)
      modifies this`states, this`calls
      ensures Valid() && InTime(now)
      ensures calls == old(calls) + [Call(now, op, reply)] && states == old(states) + [table.rows]
    {
      Extends(states, calls, table.rows, Call(now, op, reply));
      states, calls := states + [table.rows], calls + [Call(now, op, reply)];
    }

    /** Consumes one attempt of the key's shared budget. */
    method Allow(action: string, key: string, now: int) returns (r: Result<Decision, Error>)
      requires Valid() && InTime(now)
      modifies this`states, this`calls, table
      ensures Valid() && InTime(now) && old(calls) <= calls && old(states) <= states
      ensures r == Err(InvalidKey) <==> !ValidKey(action) || !ValidKey(key)
      ensures r == Err(InvalidKey) ==> calls == old(calls) && table.rows == old(table.rows)
      ensures r == Err(Unavailable) <==> ValidKey(action) && ValidKey(key) && config.window < MILLISECOND
      ensures r.Ok? ==>
                && |calls| == |old(calls)| + 1
                && var e := EventOf(calls[|old(calls)|], scope, action, key);
                && e.HitAt? && e.now == Millis(now)
                && r.value.allowed == (e.hit.count <= config.limit)
                && (r.value.allowed ==> r.value.remaining == config.limit - e.hit.count >= 0)
                && (!r.value.allowed ==> 0 < r.value.retryAfter <= config.window)
    {
      if !ValidKey(action) || !ValidKey(key) {
        return Err(InvalidKey);
      }
      ghost var n := |calls|;
      var hit := table.Hit(scope, action, key, Redact(key), config.window, now);
      ghost var answer :=
        if hit.Err? then InvalidData else Counted(FixedWindow.Hit(hit.value.count, Millis(hit.value.started)));
      Record(Operation.Hit(scope, action, key, Redact(key), config.window), answer, now);
      if hit.Err? {
        return Err(Unavailable);
      }
      DeniedWait(states, calls, scope, config.window, action, key, n);
      if hit.value.count > config.limit {
        return Ok(Decision(false, 0, RetryAfter(config.window, hit.value.started, now)));
      }
      return Ok(Decision(true, config.limit - hit.value.count, 0));
    }

    method Clear(action: string, key: string, now: int) returns (ok: bool)
      requires Valid() && InTime(now)
      modifies this`states, this`calls, table
      ensures Valid() && InTime(now) && old(calls) <= calls && old(states) <= states
      ensures ok == (ValidKey(action) && ValidKey(key))
      ensures ok ==> Stored(table.rows, scope, action, key) == None
      ensures forall other, otherKey ::
                Stored(table.rows, scope, other, otherKey)
                == if ok && other == action && otherKey == key then None
                   else Stored(old(table.rows), scope, other, otherKey)
    {
      if !ValidKey(action) || !ValidKey(key) {
        return false;
      }
      var op := Operation.Clear(scope, action, key);
      var removed := table.Delete(op, now);
      Record(op, Done, now);
      return true;
    }

    /** Any other statement: of another limiter, of an administrator, of the clean-up. */
    method Elsewhere(op: Operation, now: int)
      requires Valid() && InTime(now) && Writes(op, scope, config.window)
      modifies this`states, this`calls, table
      ensures Valid() && InTime(now) && old(calls) <= calls && old(states) <= states
      ensures |calls| == |old(calls)| + 1 && calls[|old(calls)|].op == op
    {
      if op.Hit? {
        var hit := table.Hit(op.scope, op.action, op.key, op.hint, op.length, now);
        Record(op, if hit.Err? then InvalidData
                   else Counted(FixedWindow.Hit(hit.value.count, Millis(hit.value.started))), now);
      } else {
        var removed := table.Delete(op, now);
        Record(op, if op.Clear? then Done else Removed(removed), now);
      }
    }
  }

  /** A limiter over a shared store needs a positive limit and window; only its own store would need a capacity. */
  method NewSharedLimiter(config: Config, scope: string) returns (r: Result<SharedLimiter, Error>)
    ensures r.Ok? <==> config.limit >= 1 && config.window >= 1
    ensures r.Err? ==> r.error == InvalidConfig
    ensures r.Ok? ==> r.value.Valid() && r.value.config == config && r.value.scope == scope && r.value.calls == []
                      && fresh(r.value) && fresh(r.value.table)
  {
    if config.limit <= 0 || config.window <= 0 {
      return Err(InvalidConfig);
    }
    var limiter := new SharedLimiter(config, scope);
    return Ok(limiter);
  }

  class SharedSignIn {
    const limiter: SharedLimiter
    /** For each password check, the statement that paid for it and the identifier checked. */
    ghost var checks: map<int, string>

    ghost predicate Valid()
      reads this, limiter, limiter.table
    {
      && limiter.Valid()
      && AllPaid(limiter.calls, limiter.scope, limiter.config.limit, checks)
    }

    constructor (limiter: SharedLimiter)
      requires limiter.Valid()
      ensures Valid() && this.limiter == limiter && checks == map[]
    {
      this.limiter := limiter;
      checks := map[];
    }

    /** Other statements, at one time, keep every check paid. */
    method Others(ops: seq<Operation>, now: int)
      requires Valid() && limiter.InTime(now)
      requires forall i :: 0 <= i < |ops| ==> Writes(ops[i], limiter.scope, limiter.config.window)
      modifies limiter`states, limiter`calls, limiter.table
      ensures Valid() && limiter.InTime(now) && old(limiter.calls) <= limiter.calls
    {
      for i := 0 to |ops|
        invariant Valid() && limiter.InTime(now) && old(limiter.calls) <= limiter.calls
      {
        ghost var calls := limiter.calls;
        limiter.Elsewhere(ops[i], now);
        StayPaid(calls, limiter.calls, limiter.scope, limiter.config.limit, checks);
      }
    }

    method ChargeOne(action: string, key: string, now: int) returns (refusal: Option<Outcome>)
      requires Valid() && limiter.InTime(now)
      modifies limiter`states, limiter`calls, limiter.table
      ensures Valid() && limiter.InTime(now) && old(limiter.calls) <= limiter.calls
      ensures refusal.Some? ==>
                || refusal.value.Failed?
                || (refusal.value.Limited? && 0 < refusal.value.retryAfter <= limiter.config.window)
      ensures refusal.None? ==>
                && ValidKey(action) && ValidKey(key) && |limiter.calls| == |old(limiter.calls)| + 1
                && PaidInTable(limiter.calls, limiter.scope, limiter.config.limit, |old(limiter.calls)|, action, key)
    {
      ghost var calls := limiter.calls;
      var decision := limiter.Allow(action, key, now);
      StayPaid(calls, limiter.calls, limiter.scope, limiter.config.limit, checks);
      if decision.Err? {
        return Some(Failed(decision.error));
      }
      if !decision.value.allowed {
        return Some(Limited(decision.value.retryAfter));
      }
      return None;
    }

    /** A successful sign-in gives both budgets back. */
    method Settle(origin: string, identifier: string, now: int)
      requires Valid() && limiter.InTime(now)
      requires ValidKey(SIGN_IN_ORIGIN) && ValidKey(origin) && ValidKey(SIGN_IN_IDENTIFIER) && ValidKey(identifier)
      modifies limiter`states, limiter`calls, limiter.table
      ensures Valid() && limiter.InTime(now) && old(limiter.calls) <= limiter.calls
      ensures Stored(limiter.table.rows, limiter.scope, SIGN_IN_ORIGIN, origin) == None
      ensures Stored(limiter.table.rows, limiter.scope, SIGN_IN_IDENTIFIER, identifier) == None
    {
      ghost var calls := limiter.calls;
      var cleared := limiter.Clear(SIGN_IN_ORIGIN, origin, now);
      cleared := limiter.Clear(SIGN_IN_IDENTIFIER, identifier, now);
      assert calls <= limiter.calls;
      StayPaid(calls, limiter.calls, limiter.scope, limiter.config.limit, checks);
    }

    /**
     SignIn over the table: a password is checked only when the origin's budget and then
     the identifier's have counted and allowed this attempt; success gives both back.
     `between` are the other statements that come between the two charges.
     */
    method SignIn(
      origin: string, identifier: Option<string>, correct: bool, now: int, between: seq<Operation>, later: int)
      returns (outcome: Outcome, ghost paid: Option<int>)
      requires Valid() && limiter.InTime(now) && now <= later
      requires forall i :: 0 <= i < |between| ==> Writes(between[i], limiter.scope, limiter.config.window)
      modifies this, limiter`states, limiter`calls, limiter.table
      ensures Valid() && limiter.InTime(later) && old(limiter.calls) <= limiter.calls
      ensures checks ==
                if paid.Some? && identifier.Some? then old(checks)[paid.value := identifier.value] else old(checks)
      ensures paid.Some? <==> identifier.Some? && (outcome == if correct then SignedIn else Refused)
      ensures paid.Some? ==>
                && paid.value > |old(limiter.calls)|
                && PaidInTable(limiter.calls, limiter.scope, limiter.config.limit, |old(limiter.calls)|,
                               SIGN_IN_ORIGIN, origin)
                && PaidInTable(limiter.calls, limiter.scope, limiter.config.limit, paid.value,
                               SIGN_IN_IDENTIFIER, identifier.value)
      ensures outcome.Limited? ==> 0 < outcome.retryAfter <= limiter.config.window
      ensures outcome.SignedIn? ==>
                && identifier.Some?
                && Stored(limiter.table.rows, limiter.scope, SIGN_IN_ORIGIN, origin) == None
                && Stored(limiter.table.rows, limiter.scope, SIGN_IN_IDENTIFIER, identifier.value) == None
    {
      var refusal := ChargeOne(SIGN_IN_ORIGIN, origin, now);
      if refusal.Some? {
        return refusal.value, None;
      }
      if identifier.None? {
        return Refused, None;
      }
      Others(between, now);
      ghost var call := |limiter.calls|;
      refusal := ChargeOne(SIGN_IN_IDENTIFIER, identifier.value, later);
      if refusal.Some? {
        return refusal.value, None;
      }
      checks := checks[call := identifier.value];
      if correct {
        Settle(origin, identifier.value, later);
      }
      return if correct then SignedIn else Refused, Some(call);
    }
  }

  ghost predicate AllPaid(calls: seq<Call>, scope: string, limit: int, checks: map<int, string>) {
    forall i :: i in checks ==> PaidInTable(calls, scope, limit, i, SIGN_IN_IDENTIFIER, checks[i])
  }

  lemma StayPaid(calls: seq<Call>, longer: seq<Call>, scope: string, limit: int, checks: map<int, string>)
    requires AllPaid(calls, scope, limit, checks) && calls <= longer
    ensures AllPaid(longer, scope, limit, checks)
  {
  }

  /**
   On the shared table, which evicts nothing: in any stretch of the history of all
   instances no longer than a window in which the identifier is not cleared, its
   password is checked at most twice the limit, by any clock. `Bounding` is the exact
   condition on the configured window and limit; whole milliseconds meet it.
   */
  lemma PasswordChecksAreBounded(s: SharedSignIn, identifier: string, n: nat, m: nat, from: int)
    requires s.Valid() && n <= m <= |s.limiter.calls|
    requires s.limiter.config.window >= MILLISECOND && Bounding(s.limiter.config.window, s.limiter.config.limit)
    requires Stretch(s.limiter.states, s.limiter.calls, s.limiter.scope, s.limiter.config.window,
                     SIGN_IN_IDENTIFIER, identifier, n, m, from)
    ensures |set i | i in s.checks && n <= i < m && s.checks[i] == identifier| <= 2 * s.limiter.config.limit
  {
    var l := s.limiter;
    BoundHolds(l.states, l.calls, l.scope, l.config.window, SIGN_IN_IDENTIFIER, identifier, n, m, from, l.config.limit);
    var checked := set i | i in s.checks && n <= i < m && s.checks[i] == identifier;
    var allowed := Allowed(Events(l.calls, l.scope, SIGN_IN_IDENTIFIER, identifier), n, m, l.config.limit);
    forall i | i in checked
      ensures i in allowed
    {
      assert PaidInTable(l.calls, l.scope, l.config.limit, i, SIGN_IN_IDENTIFIER, identifier);
    }
    SubsetBound(checked, allowed);
  }
}
