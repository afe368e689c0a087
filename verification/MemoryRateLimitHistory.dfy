/** What every history of the in-memory store satisfies, key by key. */
module MemoryRateLimitHistory {
  import opened Wrappers
  import opened Sets
  import opened FixedWindow
  import opened MemoryRateLimit

  /** A call as one key sees it. A refused attempt counts nothing. */
  function EventOf(call: Call, action: string, key: string): (r: Event) {
    match call.op
    case Hit(a, k, _, _) =>
      if a == action && k == key && call.reply.Counted? then HitAt(call.now, call.reply.hit) else QuietAt(call.now)
    case Get(a, k) =>
      if a == action && k == key && call.reply.Seen? then GetAt(call.now, call.reply.seen) else QuietAt(call.now)
    case Clear(a, k) => if a == action && k == key then ClearedAt(call.now) else QuietAt(call.now)
    case ClearAction(a) => if a == action then ClearedAt(call.now) else QuietAt(call.now)
    case ClearAll => ClearedAt(call.now)
    case List => QuietAt(call.now)
  }

  /** The call drops a live window without being asked to clear it. */
  predicate Evicts(before: Buckets, call: Call, after: Buckets, action: string, key: string) {
    && Live(Stored(before, action, key), call.now).Some? && Stored(after, action, key) == None
    && !EventOf(call, action, key).ClearedAt?
  }

  ghost predicate Uniform(calls: seq<Call>, length: int) {
    forall i :: 0 <= i < |calls| && calls[i].op.Hit? ==> calls[i].op.length == length
  }

  lemma EffectKeepsKeys(b: Bounds, before: Buckets, call: Call, after: Buckets)
    requires Effect(b, before, call, after) && Validated(call.op) && WellKeyed(before) && |before| <= b.maxKeys
    ensures WellKeyed(after) && |after| <= b.maxKeys
  {
    SubsetBound(Pruned(before, call.now).Keys, before.Keys);
    if call.op.Hit? {
      HitKeepsKeys(b, before, call, after);
    } else {
      SubsetBound(after.Keys, before.Keys);
    }
  }

  lemma SubKeyed(m: Buckets, sub: Buckets)
    requires WellKeyed(m) && forall k :: k in sub ==> k in m && sub[k] == m[k]
    ensures WellKeyed(sub) && |sub| <= |m|
  {
    SubsetBound(sub.Keys, m.Keys);
  }

  lemma HitKeepsKeys(b: Bounds, before: Buckets, call: Call, after: Buckets)
    requires call.op.Hit? && HitEffect(b, before, call.op, call.now, call.reply, after) && Validated(call.op)
    requires WellKeyed(before) && |before| <= b.maxKeys
    ensures WellKeyed(after) && |after| <= b.maxKeys
  {
    var p := Pruned(before, call.now);
    var op := call.op;
    var k := Composite(op.action, op.key);
    var newBucket := Bucket(op.action, op.hint, call.now, call.now + op.length, 1);
    SubKeyed(before, p);
    if k in p {
      KeyedAction(p, op.action, op.key);
      Inserted(b, p, op.action, op.key, p[k].(count := p[k].count + 1));
    } else if |p| < b.maxKeys {
      Inserted(b, p, op.action, op.key, newBucket);
    } else if call.reply != Full {
      var v :| OldestUnblocked(p, b.limit, v) && after == (p - {v})[k := newBucket];
      SubKeyed(p, p - {v});
      assert |p - {v}| == |p| - 1;
      Inserted(b, p - {v}, op.action, op.key, newBucket);
    }
  }

  lemma {:induction false} HistoryKeyed(b: Bounds, states: seq<Buckets>, calls: seq<Call>, n: nat)
    requires History(b, states, calls) && n <= |calls|
    ensures WellKeyed(states[n]) && |states[n]| <= b.maxKeys
  {
    if n > 0 {
      HistoryKeyed(b, states, calls, n - 1);
      assert EffectAt(b, states, calls, n - 1);
      EffectKeepsKeys(b, states[n - 1], calls[n - 1], states[n]);
    }
  }

  ghost predicate SaneBuckets(m: Buckets, now: int, length: int) {
    forall k :: k in m ==> m[k].expires == m[k].started + length && m[k].started <= now && m[k].count >= 1
  }

  lemma EffectKeepsSane(b: Bounds, before: Buckets, call: Call, after: Buckets, length: int)
    requires Effect(b, before, call, after) && SaneBuckets(before, call.now, length)
    requires call.op.Hit? ==> call.op.length == length
    ensures SaneBuckets(after, call.now, length)
  {
    if call.op.Hit? {
      HitKeepsSane(b, before, call.op, call.now, call.reply, after);
    }
  }

  lemma HitKeepsSane(b: Bounds, before: Buckets, op: Operation, now: int, reply: Reply, after: Buckets)
    requires op.Hit? && HitEffect(b, before, op, now, reply, after) && SaneBuckets(before, now, op.length)
    ensures SaneBuckets(after, now, op.length)
  {
  }

  lemma {:induction false} HistorySane(b: Bounds, states: seq<Buckets>, calls: seq<Call>, length: int, n: nat)
    requires History(b, states, calls) && Uniform(calls, length) && n < |calls|
    ensures SaneBuckets(states[n], calls[n].now, length)
  {
    if n > 0 {
      HistorySane(b, states, calls, length, n - 1);
      assert EffectAt(b, states, calls, n - 1);
      EffectKeepsSane(b, states[n - 1], calls[n - 1], states[n], length);
      assert calls[n - 1].now <= calls[n].now;
    }
  }

  /** Seen from one key, a call that does not evict it is a step of its fixed window. */
  lemma Projection(b: Bounds, before: Buckets, call: Call, after: Buckets, action: string, key: string, length: int)
    requires Effect(b, before, call, after) && Validated(call.op) && WellKeyed(before) && '\0' !in action
    requires call.op.Hit? ==> call.op.length == length
    requires !Evicts(before, call, after, action, key)
    ensures Step(Stored(before, action, key), EventOf(call, action, key), Stored(after, action, key), length)
  {
    var k := Composite(action, key);
    if call.op.Hit? || call.op.Get? || call.op.Clear? {
      if Composite(call.op.action, call.op.key) == k {
        CompositeIsInjective(call.op.action, call.op.key, action, key);
      }
    }
    if k in before {
      KeyedAction(before, action, key);
    }
    if call.op.Hit? {
      HitProjection(b, before, call, after, action, key, length);
    }
  }

  lemma HitProjection(b: Bounds, before: Buckets, call: Call, after: Buckets, action: string, key: string, length: int)
    requires call.op.Hit? && call.op.length == length
    requires Effect(b, before, call, after)
    requires Composite(call.op.action, call.op.key) == Composite(action, key) ==>
             call.op.action == action && call.op.key == key
    requires !Evicts(before, call, after, action, key)
    ensures Step(Stored(before, action, key), EventOf(call, action, key), Stored(after, action, key), length)
  {
    var p := Pruned(before, call.now);
    var k := Composite(call.op.action, call.op.key);
    if k !in p && |p| >= b.maxKeys && call.reply != Full {
      var v :| OldestUnblocked(p, b.limit, v)
          && after == (p - {v})[k := Bucket(call.op.action, call.op.hint, call.now, call.now + call.op.length, 1)];
    }
  }

  function Windows(states: seq<Buckets>, action: string, key: string): (r: seq<Option<Window>>) {
    seq(|states|, i requires 0 <= i < |states| => Stored(states[i], action, key))
  }

  function Events(calls: seq<Call>, action: string, key: string): (r: seq<Event>) {
    seq(|calls|, i requires 0 <= i < |calls| => EventOf(calls[i], action, key))
  }

  ghost predicate Unevicted(states: seq<Buckets>, calls: seq<Call>, action: string, key: string, n: nat, m: nat)
    requires |states| == |calls| + 1 && m <= |calls|
  {
    forall i :: n <= i < m ==> !Evicts(states[i], calls[i], states[i + 1], action, key)
  }

  lemma KeyStep(b: Bounds, states: seq<Buckets>, calls: seq<Call>, length: int, action: string, key: string, i: nat)
    requires History(b, states, calls) && Uniform(calls, length) && length > 0 && '\0' !in action && i < |calls|
    requires !Evicts(states[i], calls[i], states[i + 1], action, key)
    ensures Step(Stored(states[i], action, key), EventOf(calls[i], action, key), Stored(states[i + 1], action, key),
                 length)
  {
    HistoryKeyed(b, states, calls, i);
    assert EffectAt(b, states, calls, i);
    Projection(b, states[i], calls[i], states[i + 1], action, key, length);
  }

  /** A stretch of history in which a key is not evicted is a run of its fixed window. */
  lemma KeyRun(b: Bounds, states: seq<Buckets>, calls: seq<Call>, length: int, action: string, key: string, n: nat,
      m: nat)
    requires History(b, states, calls) && Uniform(calls, length) && length > 0 && '\0' !in action
    requires n <= m <= |calls| && Unevicted(states, calls, action, key, n, m)
    ensures Run(Windows(states[n..m + 1], action, key), Events(calls[n..m], action, key), length)
  {
    var ws, es := Windows(states[n..m + 1], action, key), Events(calls[n..m], action, key);
    forall i | 0 <= i < |es| ensures StepAt(ws, es, length, i) {
      KeyStep(b, states, calls, length, action, key, n + i);
    }
    forall i, j | 0 <= i <= j < |es| ensures es[i].now <= es[j].now {
      assert calls[n + i].now <= calls[n + j].now;
    }
    if |es| > 0 {
      HistorySane(b, states, calls, length, n);
    }
  }

  /** The attempts on a key in calls[n..m] that the limiter allows. */
  ghost function AllowedCalls(calls: seq<Call>, action: string, key: string, n: nat, m: nat, limit: nat): (r: set<int>)
    requires n <= m <= |calls|
  {
    set i | n <= i < m && EventOf(calls[i], action, key).HitAt? && EventOf(calls[i], action, key).hit.count <= limit
  }

  ghost predicate UnclearedKey(calls: seq<Call>, action: string, key: string, n: nat, m: nat)
    requires m <= |calls|
  {
    forall i :: n <= i < m ==> !EventOf(calls[i], action, key).ClearedAt?
  }

  /** Between clears and evictions of a key, an interval as long as the window
      allows at most twice the limit. */
  lemma SlidingBound(b: Bounds, states: seq<Buckets>, calls: seq<Call>, length: int, action: string, key: string,
      n: nat, m: nat, from: int)
    requires History(b, states, calls) && Uniform(calls, length) && length > 0 && '\0' !in action
    requires n <= m <= |calls| && Unevicted(states, calls, action, key, n, m) && UnclearedKey(calls, action, key, n, m)
    requires forall i :: n <= i < m ==> from <= calls[i].now <= from + length
    ensures |AllowedCalls(calls, action, key, n, m, b.limit)| <= 2 * b.limit
  {
    var ws, es := Windows(states[n..m + 1], action, key), Events(calls[n..m], action, key);
    KeyRun(b, states, calls, length, action, key, n, m);
    forall i | 0 <= i < |es| ensures from <= es[i].now <= from + length && !es[i].ClearedAt? {
      assert es[i] == EventOf(calls[n + i], action, key);
    }
    AtMostTwiceTheLimit(ws, es, length, 0, |es|, from, b.limit);
    ShiftBound(AllowedCalls(calls, action, key, n, m, b.limit), Allowed(es, 0, |es|, b.limit), n);
  }

  /** A key at its limit is never the one evicted. */
  lemma BlockedIsKept(b: Bounds, before: Buckets, call: Call, after: Buckets, action: string, key: string)
    requires Effect(b, before, call, after) && Validated(call.op) && WellKeyed(before) && '\0' !in action
    requires Stored(before, action, key).Some? && Stored(before, action, key).value.count >= b.limit
    ensures !Evicts(before, call, after, action, key)
  {
    var k := Composite(action, key);
    KeyedAction(before, action, key);
    if call.op.Hit? {
      var p := Pruned(before, call.now);
      var j := Composite(call.op.action, call.op.key);
      if j !in p && |p| >= b.maxKeys && call.reply != Full {
        var v :| OldestUnblocked(p, b.limit, v)
            && after == (p - {v})[j := Bucket(call.op.action, call.op.hint, call.now, call.now + call.op.length, 1)];
      }
    } else if call.op.Clear? && Composite(call.op.action, call.op.key) == k {
      CompositeIsInjective(call.op.action, call.op.key, action, key);
    }
  }

  /** An active block outlives any flood of other keys: the window stays as it is, with its count. */
  lemma {:induction false} BlockPersists(b: Bounds, states: seq<Buckets>, calls: seq<Call>, length: int,
      action: string, key: string, n: nat, m: nat)
    requires History(b, states, calls) && Uniform(calls, length) && '\0' !in action
    requires n <= m < |calls| && UnclearedKey(calls, action, key, n, m)
    requires Stored(states[n], action, key).Some? && Stored(states[n], action, key).value.count >= b.limit
    requires calls[m].now < Stored(states[n], action, key).value.expires
    ensures var w, v := Stored(states[n], action, key), Stored(states[m], action, key);
            v.Some? && v.value.started == w.value.started && v.value.expires == w.value.expires
                && v.value.count >= w.value.count
    decreases m
  {
    if n < m {
      assert calls[m - 1].now <= calls[m].now;
      BlockPersists(b, states, calls, length, action, key, n, m - 1);
      HistoryKeyed(b, states, calls, m - 1);
      assert EffectAt(b, states, calls, m - 1);
      BlockedIsKept(b, states[m - 1], calls[m - 1], states[m], action, key);
      Projection(b, states[m - 1], calls[m - 1], states[m], action, key, length);
    }
  }

  /** Once a key has reached its limit, every attempt on it before its window
      expires is counted above the limit, whatever other keys do, absent clears. */
  lemma BlockedStaysBlocked(b: Bounds, states: seq<Buckets>, calls: seq<Call>, length: int, action: string,
      key: string, n: nat, m: nat)
    requires History(b, states, calls) && Uniform(calls, length) && '\0' !in action
    requires n <= m < |calls| && UnclearedKey(calls, action, key, n, m)
    requires Stored(states[n], action, key).Some? && Stored(states[n], action, key).value.count >= b.limit
    requires calls[m].now < Stored(states[n], action, key).value.expires
    requires calls[m].op.Hit? && calls[m].op.action == action && calls[m].op.key == key
    ensures calls[m].reply.Counted? && calls[m].reply.hit.count > b.limit
    ensures calls[m].reply.hit.started == Stored(states[n], action, key).value.started
  {
    BlockPersists(b, states, calls, length, action, key, n, m);
    assert EffectAt(b, states, calls, m);
    assert Composite(action, key) in Pruned(states[m], calls[m].now);
  }

  /** The live keys of the store. */
  function LiveKeys(m: Buckets, now: int): (r: set<string>) {
    set k | k in m && now < m[k].expires
  }

  /** Capacity is refused exactly when the key is not live and as many keys as
      allowed are live, all of them at their limit. */
  lemma FullIffAllBlocked(b: Bounds, states: seq<Buckets>, calls: seq<Call>, n: nat)
    requires History(b, states, calls) && n < |calls| && calls[n].op.Hit?
    ensures var now := calls[n].now;
            var live := LiveKeys(states[n], now);
            calls[n].reply == Full <==>
              && Composite(calls[n].op.action, calls[n].op.key) !in live
              && |live| == b.maxKeys
              && forall k :: k in live ==> states[n][k].count >= b.limit
  {
    HistoryKeyed(b, states, calls, n);
    assert EffectAt(b, states, calls, n);
    var p := Pruned(states[n], calls[n].now);
    assert p.Keys == LiveKeys(states[n], calls[n].now);
    SubsetBound(p.Keys, states[n].Keys);
    if exists v :: Unblocked(p, b.limit, v) {
      var v :| Unblocked(p, b.limit, v);
      assert v in LiveKeys(states[n], calls[n].now) && states[n][v].count < b.limit;
    } else {
      forall k | k in LiveKeys(states[n], calls[n].now) ensures states[n][k].count >= b.limit {
        assert !Unblocked(p, b.limit, k);
      }
    }
  }

  /** The store never holds more buckets than it may. */
  lemma NeverOverCapacity(b: Bounds, states: seq<Buckets>, calls: seq<Call>, n: nat)
    requires History(b, states, calls) && n <= |calls|
    ensures |states[n]| <= b.maxKeys
  {
    HistoryKeyed(b, states, calls, n);
  }

  /** A denied attempt names a wait of more than nothing and at most one window;
      left alone, the key's first attempt after that wait is allowed or refused
      for capacity, with any activity on other keys in between. */
  lemma WaitingHelpsInMemory(b: Bounds, states: seq<Buckets>, calls: seq<Call>, length: int, action: string,
      key: string, n: nat, m: nat)
    requires History(b, states, calls) && Uniform(calls, length) && length > 0 && '\0' !in action
    requires n < m < |calls| && b.limit >= 1
    requires EventOf(calls[n], action, key).HitAt? && EventOf(calls[n], action, key).hit.count > b.limit
    requires calls[m].op.Hit? && calls[m].op.action == action && calls[m].op.key == key
    requires forall i :: n < i < m ==> !(calls[i].op.Hit? && calls[i].op.action == action && calls[i].op.key == key)
    ensures var wait := RetryAfter(length, calls[n].reply.hit.started, calls[n].now);
            && 0 < wait <= length
            && (calls[m].now >= calls[n].now + wait ==>
                calls[m].reply == Full || calls[m].reply == Counted(FixedWindow.Hit(1, calls[m].now)))
  {
    DeniedWindow(b, states, calls, length, action, key, n);
    DeniedUntilGone(b, states, calls, length, action, key, n, m);
    assert EffectAt(b, states, calls, m);
    if calls[m].now >= calls[n].reply.hit.started + length {
      assert Composite(action, key) !in Pruned(states[m], calls[m].now);
    }
  }

  lemma DeniedWindow(b: Bounds, states: seq<Buckets>, calls: seq<Call>, length: int, action: string, key: string,
      n: nat)
    requires History(b, states, calls) && Uniform(calls, length) && length > 0 && '\0' !in action && n < |calls|
    requires EventOf(calls[n], action, key).HitAt?
    ensures var hit := calls[n].reply.hit;
            && Stored(states[n + 1], action, key) == Some(Window(hit.started, hit.started + length, hit.count))
            && hit.started <= calls[n].now < hit.started + length
  {
    HistorySane(b, states, calls, length, n);
    HistoryKeyed(b, states, calls, n);
    assert EffectAt(b, states, calls, n);
    assert !Evicts(states[n], calls[n], states[n + 1], action, key);
    Projection(b, states[n], calls[n], states[n + 1], action, key, length);
  }

  lemma {:induction false} DeniedUntilGone(b: Bounds, states: seq<Buckets>, calls: seq<Call>, length: int,
      action: string, key: string, n: nat, m: nat)
    requires History(b, states, calls) && Uniform(calls, length) && length > 0 && '\0' !in action
    requires n < m <= |calls|
    requires Stored(states[n + 1], action, key).Some? && Stored(states[n + 1], action, key).value.count >= b.limit
    requires forall i :: n < i < m ==> !(calls[i].op.Hit? && calls[i].op.action == action && calls[i].op.key == key)
    ensures Stored(states[m], action, key) == None
            || Stored(states[m], action, key) == Stored(states[n + 1], action, key)
    decreases m
  {
    if n + 1 < m {
      DeniedUntilGone(b, states, calls, length, action, key, n, m - 1);
      HistoryKeyed(b, states, calls, m - 1);
      assert EffectAt(b, states, calls, m - 1);
      if Stored(states[m - 1], action, key).Some? {
        BlockedIsKept(b, states[m - 1], calls[m - 1], states[m], action, key);
      }
      Projection(b, states[m - 1], calls[m - 1], states[m], action, key, length);
    }
  }

  /** The attempted key is live, or there is room for one more. */
  predicate Fits(b: Bounds, before: Buckets, call: Call) {
    call.op.Hit? ==>
      || Composite(call.op.action, call.op.key) in LiveKeys(before, call.now)
      || |LiveKeys(before, call.now)| < b.maxKeys
  }

  lemma FittingHitKeepsLive(b: Bounds, before: Buckets, op: Operation, now: int, reply: Reply, after: Buckets)
    requires op.Hit? && HitEffect(b, before, op, now, reply, after) && Fits(b, before, Call(now, op, reply))
    ensures reply != Full && forall k :: k in before && now < before[k].expires ==> k in after
  {
    assert Pruned(before, now).Keys == LiveKeys(before, now);
  }

  lemma FittingCallsEvictNothing(b: Bounds, before: Buckets, call: Call, after: Buckets, action: string, key: string)
    requires Effect(b, before, call, after) && Validated(call.op) && WellKeyed(before) && '\0' !in action
    requires Fits(b, before, call)
    ensures !Evicts(before, call, after, action, key) && (call.op.Hit? ==> call.reply != Full)
  {
    if call.op.Hit? {
      FittingHitKeepsLive(b, before, call.op, call.now, call.reply, after);
    } else if Composite(action, key) in before {
      KeyedAction(before, action, key);
      if call.op.Clear? && Composite(call.op.action, call.op.key) == Composite(action, key) {
        CompositeIsInjective(call.op.action, call.op.key, action, key);
      }
    }
  }

  /** The guard that keeps every window: each attempt of the stretch fits. */
  lemma FittingIsUnevicted(
    b: Bounds, states: seq<Buckets>, calls: seq<Call>, action: string, key: string, n: nat, m: nat)
    requires History(b, states, calls) && '\0' !in action && n <= m <= |calls|
    requires forall i :: n <= i < m ==> Fits(b, states[i], calls[i])
    ensures Unevicted(states, calls, action, key, n, m)
  {
    forall i | n <= i < m
      ensures !Evicts(states[i], calls[i], states[i + 1], action, key)
    {
      HistoryKeyed(b, states, calls, i);
      assert EffectAt(b, states, calls, i);
      FittingCallsEvictNothing(b, states[i], calls[i], states[i + 1], action, key);
    }
  }

  /** The sliding bound under that guard, whatever the other keys do besides. */
  lemma FittingSlidingBound(
    b: Bounds, states: seq<Buckets>, calls: seq<Call>, length: int, action: string, key: string,
    n: nat, m: nat, from: int)
    requires History(b, states, calls) && Uniform(calls, length) && length > 0 && '\0' !in action
    requires n <= m <= |calls| && UnclearedKey(calls, action, key, n, m)
    requires forall i :: n <= i < m ==> Fits(b, states[i], calls[i])
    requires forall i :: n <= i < m ==> from <= calls[i].now <= from + length
    ensures |AllowedCalls(calls, action, key, n, m, b.limit)| <= 2 * b.limit
  {
    FittingIsUnevicted(b, states, calls, action, key, n, m);
    SlidingBound(b, states, calls, length, action, key, n, m, from);
  }

  lemma FittingRun(b: Bounds, states: seq<Buckets>, calls: seq<Call>, length: int, action: string, key: string, n: nat)
    requires History(b, states, calls) && Uniform(calls, length) && length > 0 && '\0' !in action && n < |calls|
    requires forall i :: 0 <= i <= n ==> Fits(b, states[i], calls[i])
    ensures Run(Windows(states[0..n + 2], action, key), Events(calls[0..n + 1], action, key), length)
    ensures Events(calls[0..n + 1], action, key) == Events(calls, action, key)[..n + 1]
  {
    forall i | 0 <= i < n + 1 ensures !Evicts(states[i], calls[i], states[i + 1], action, key) {
      HistoryKeyed(b, states, calls, i);
      assert EffectAt(b, states, calls, i);
      FittingCallsEvictNothing(b, states[i], calls[i], states[i + 1], action, key);
    }
    KeyRun(b, states, calls, length, action, key, 0, n + 1);
  }

  /**
   As long as every attempt fits, the bounded, pruned store answers exactly like
   a counter per action and key that never drops anything.
   */
  lemma MatchesUnboundedCounter(b: Bounds, states: seq<Buckets>, calls: seq<Call>, length: int, action: string,
      key: string, n: nat)
    requires History(b, states, calls) && Uniform(calls, length) && length > 0 && '\0' !in action && n < |calls|
    requires forall i :: 0 <= i <= n ==> Fits(b, states[i], calls[i])
    ensures EventOf(calls[n], action, key) == Answered(Events(calls, action, key), length, n)
    ensures Live(Stored(states[n], action, key), calls[n].now)
            == Live(Reference(Events(calls, action, key), length, n), calls[n].now)
  {
    FittingRun(b, states, calls, length, action, key, n);
    var ws, es := Windows(states[0..n + 2], action, key), Events(calls[0..n + 1], action, key);
    ReferencePrefix(Events(calls, action, key), length, n + 1, n);
    RunMatchesReference(ws, es, length, n);
    LiveMatchesReference(ws, es, length, n);
    assert ws[n] == Stored(states[n], action, key);
  }

  /** In such a history every attempt is counted, so the answer above is an attempt's answer. */
  lemma FittingAttemptIsCounted(b: Bounds, states: seq<Buckets>, calls: seq<Call>, n: nat)
    requires History(b, states, calls) && n < |calls| && calls[n].op.Hit? && Fits(b, states[n], calls[n])
    ensures EventOf(calls[n], calls[n].op.action, calls[n].op.key).HitAt?
  {
    assert EffectAt(b, states, calls, n);
    FittingHitKeepsLive(b, states[n], calls[n].op, calls[n].now, calls[n].reply, states[n + 1]);
  }

  /** List leaves, and lists, exactly the windows live in the plain counter. */
  lemma ListShowsLiveWindows(b: Bounds, states: seq<Buckets>, calls: seq<Call>, length: int, action: string,
      key: string, n: nat)
    requires History(b, states, calls) && Uniform(calls, length) && length > 0 && '\0' !in action && n < |calls|
    requires (forall i :: 0 <= i <= n ==> Fits(b, states[i], calls[i])) && calls[n].op.List?
    ensures Stored(states[n + 1], action, key) == Live(Reference(Events(calls, action, key), length, n), calls[n].now)
    ensures calls[n].reply.Listed? && Lists(states[n + 1], calls[n].reply.entries)
  {
    MatchesUnboundedCounter(b, states, calls, length, action, key, n);
    assert EffectAt(b, states, calls, n);
  }

  /** The entry shows the bucket stored at k. */
  predicate Shows(e: Entry, m: Buckets, k: string) {
    && k in m && e.action == m[k].action && e.hint == m[k].hint && e.count == m[k].count
    && e.started == m[k].started
  }

  ghost predicate IsStored(e: Entry, m: Buckets) {
    exists k :: Shows(e, m, k)
  }

  /** What is listed is what is stored: one entry for each bucket, with its action, hint, count and start. */
  lemma ListedIff(b: Bounds, states: seq<Buckets>, calls: seq<Call>, n: nat, e: Entry)
    requires History(b, states, calls) && n < |calls| && calls[n].op.List?
    ensures calls[n].reply.Listed? && |calls[n].reply.entries| == |states[n + 1]|
    ensures e in calls[n].reply.entries <==> IsStored(e, states[n + 1])
  {
    assert EffectAt(b, states, calls, n);
    OrderShows(states[n + 1], calls[n].reply.entries, e);
  }

  lemma OrderShows(m: Buckets, entries: seq<Entry>, e: Entry)
    requires Lists(m, entries)
    ensures |entries| == |m| && (e in entries <==> IsStored(e, m))
  {
    var order :| InOrder(m, order, entries);
    if e in entries {
      var i :| 0 <= i < |entries| && entries[i] == e;
      assert Shows(e, m, order[i]);
    }
    forall k | Shows(e, m, k)
      ensures e in entries
    {
      var i :| 0 <= i < |order| && order[i] == k;
      assert entries[i] == e;
    }
  }

  lemma {:induction false} ReferencePrefix(es: seq<Event>, length: int, m: nat, n: nat)
    requires n <= m <= |es|
    ensures Reference(es[..m], length, n) == Reference(es, length, n)
  {
    if n > 0 {
      ReferencePrefix(es, length, m, n - 1);
    }
  }

  /** The condition cannot be dropped: an attempt that does not fit is refused or
      takes a live key's count away, which that key's next read shows. */
  lemma UnfittingCallShows(b: Bounds, before: Buckets, call: Call, after: Buckets)
    returns (action: string, key: string)
    requires Effect(b, before, call, after) && Validated(call.op) && WellKeyed(before) && !Fits(b, before, call)
    ensures call.reply == Full
            || (Live(Stored(before, action, key), call.now).Some? && Stored(after, action, key) == None)
  {
    var p := Pruned(before, call.now);
    var k := Composite(call.op.action, call.op.key);
    assert p.Keys == LiveKeys(before, call.now);
    action, key := "", "";
    if call.reply != Full {
      var v :| OldestUnblocked(p, b.limit, v)
          && after == (p - {v})[k := Bucket(call.op.action, call.op.hint, call.now, call.now + call.op.length, 1)];
      action := before[v].action;
      key :| v == Composite(action, key);
    }
  }

  /** ClearAction also counts expired buckets that nothing has pruned yet: its
      count is the number of live windows exactly when the action has none of those. */
  lemma RemovedCountsLiveIff(before: Buckets, now: int, action: string)
    ensures |OfAction(before, action)| == |OfAction(Pruned(before, now), action)| <==>
              forall k :: k in before && before[k].action == action ==> now < before[k].expires
  {
    var stored, live := OfAction(before, action), OfAction(Pruned(before, now), action);
    SubsetBound(live, stored);
    if stored == live {
      forall k | k in before && before[k].action == action ensures now < before[k].expires {
        assert k in stored;
      }
    } else {
      var k :| k in stored && k !in live;
    }
  }
}
