/**
 The in-memory rate-limit store: a bounded map of buckets that is pruned, evicted
 from and counted in place. Times are nanoseconds. The class keeps its own
 history in ghost fields, and the run properties are stated about such histories.
 */
module MemoryRateLimit {
  import opened Wrappers
  import opened Sets
  import opened FixedWindow

  datatype Bucket = Bucket(action: string, hint: string, started: int, expires: int, count: nat)

  type Buckets = map<string, Bucket>

  datatype Entry = Entry(action: string, hint: string, count: nat, started: int)

  datatype Operation =
    | Hit(action: string, key: string, hint: string, length: int)
    | Get(action: string, key: string)
    | Clear(action: string, key: string)
    | ClearAction(action: string)
    | ClearAll
    | List

  datatype Reply =
    | Counted(hit: FixedWindow.Hit)
    | Full
    | Seen(seen: Option<FixedWindow.Hit>)
    | Cleared
    | Removed(removed: nat)
    | Listed(entries: seq<Entry>)

  datatype Call = Call(now: int, op: Operation, reply: Reply)

  datatype Bounds = Bounds(limit: nat, maxKeys: nat)

  function Composite(action: string, key: string): (r: string) {
    action + "\0" + key
  }

  /** Actions and keys that passed validation contain no NUL, so the joined key names one pair. */
  lemma CompositeIsInjective(a: string, k: string, b: string, l: string)
    requires '\0' !in a && '\0' !in b && Composite(a, k) == Composite(b, l)
    ensures a == b && k == l
  {
    var joined := Composite(a, k);
    assert joined[|a|] == '\0' && joined[|b|] == '\0';
    assert forall i :: 0 <= i < |a| ==> joined[i] == a[i];
    assert forall i :: 0 <= i < |b| ==> joined[i] == b[i];
    assert |a| == |b|;
    assert a == joined[..|a|] == b;
    assert k == joined[|a| + 1..] == l;
  }

  function Pruned(m: Buckets, now: int): (r: Buckets) {
    map k | k in m && now < m[k].expires :: m[k]
  }

  /** Pruned except for the keys still to be looked at. */
  ghost function PrunedBut(m: Buckets, keys: set<string>, now: int): (r: Buckets) {
    map k | k in m && (k in keys || now < m[k].expires) :: m[k]
  }

  function OfAction(m: Buckets, action: string): (r: set<string>) {
    set k | k in m && m[k].action == action
  }

  /** Forgetting one by one forgets the whole action. */
  lemma Forgotten(before: Buckets, after: Buckets, action: string)
    requires after.Keys <= before.Keys
    requires forall k :: k in after ==> after[k] == before[k] && before[k].action != action
    requires forall k :: k in before && k !in after ==> before[k].action == action
    ensures after == before - OfAction(before, action) && |before| - |after| == |OfAction(before, action)|
  {
    assert before.Keys == after.Keys + OfAction(before, action);
  }

  predicate Unblocked(m: Buckets, limit: nat, k: string) {
    k in m && m[k].count < limit
  }

  ghost predicate OldestUnblocked(m: Buckets, limit: nat, k: string) {
    Unblocked(m, limit, k) && forall j :: Unblocked(m, limit, j) ==> m[k].started <= m[j].started
  }

  function ToEntry(b: Bucket): (r: Entry) {
    Entry(b.action, b.hint, b.count, b.started)
  }

  /** The entries of every bucket once, in some order. */
  ghost predicate Lists(m: Buckets, entries: seq<Entry>) {
    exists order: seq<string> :: InOrder(m, order, entries)
  }

  ghost predicate InOrder(m: Buckets, order: seq<string>, entries: seq<Entry>) {
    && |order| == |entries| == |m|
    && (forall k :: k in m ==> k in order)
    && (forall i :: 0 <= i < |order| ==> order[i] in m && entries[i] == ToEntry(m[order[i]]))
  }

  /** What a hit may do: count, open a window, replace the oldest unblocked bucket, or refuse. */
  ghost predicate HitEffect(b: Bounds, before: Buckets, op: Operation, now: int, reply: Reply, after: Buckets)
    requires op.Hit?
  {
    var p := Pruned(before, now);
    var k := Composite(op.action, op.key);
    var newBucket := Bucket(op.action, op.hint, now, now + op.length, 1);
    if k in p then
      reply == Counted(FixedWindow.Hit(p[k].count + 1, p[k].started)) && after == p[k := p[k].(count := p[k].count + 1)]
    else if |p| < b.maxKeys then
      reply == Counted(FixedWindow.Hit(1, now)) && after == p[k := newBucket]
    else if exists v :: Unblocked(p, b.limit, v) then
      && reply == Counted(FixedWindow.Hit(1, now))
      && exists v :: OldestUnblocked(p, b.limit, v) && after == (p - {v})[k := newBucket]
    else
      reply == Full && after == p
  }

  ghost predicate Effect(b: Bounds, before: Buckets, call: Call, after: Buckets) {
    match call.op
    case Hit(_, _, _, _) => HitEffect(b, before, call.op, call.now, call.reply, after)
    case Get(action, key) =>
      && after == before
      && call.reply == Seen(View(Live(Stored(before, action, key), call.now)))
    case Clear(action, key) => after == before - {Composite(action, key)} && call.reply == Cleared
    case ClearAction(action) =>
      after == before - OfAction(before, action) && call.reply == Removed(|OfAction(before, action)|)
    case ClearAll => after == map[] && call.reply == Removed(|before|)
    case List => after == Pruned(before, call.now) && call.reply.Listed? && Lists(after, call.reply.entries)
  }

  /** The window the store holds for a key, live or not. */
  function Stored(m: Buckets, action: string, key: string): (r: Option<Window>) {
    var k := Composite(action, key);
    if k in m then Some(Window(m[k].started, m[k].expires, m[k].count)) else None
  }

  /** Every bucket sits under the composite key of its own action. */
  ghost predicate WellKeyed(m: Buckets) {
    forall k :: k in m ==> '\0' !in m[k].action && exists key :: k == Composite(m[k].action, key)
  }

  predicate Validated(op: Operation) {
    (op.Hit? ==> '\0' !in op.action && op.length > 0)
        && (op.Get? || op.Clear? || op.ClearAction? ==> '\0' !in op.action)
  }

  lemma Inserted(b: Bounds, m: Buckets, action: string, key: string, bucket: Bucket)
    requires WellKeyed(m) && '\0' !in action && bucket.action == action
    requires Composite(action, key) in m || |m| < b.maxKeys
    requires |m| <= b.maxKeys
    ensures WellKeyed(m[Composite(action, key) := bucket]) && |m[Composite(action, key) := bucket]| <= b.maxKeys
  {
    var k := Composite(action, key);
    var t := m[k := bucket];
    forall j | j in t ensures '\0' !in t[j].action && exists l :: j == Composite(t[j].action, l) {
      if j == k { assert j == Composite(t[j].action, key); }
    }
    if k in m { assert t.Keys == m.Keys; } else { assert t.Keys == m.Keys + {k}; }
  }

  /** A composite key in a well-keyed store belongs to a bucket of that action. */
  lemma KeyedAction(m: Buckets, action: string, key: string)
    requires WellKeyed(m) && '\0' !in action && Composite(action, key) in m
    ensures m[Composite(action, key)].action == action
  {
    var k := Composite(action, key);
    var l :| k == Composite(m[k].action, l);
    CompositeIsInjective(action, key, m[k].action, l);
  }

  ghost predicate EffectAt(b: Bounds, states: seq<Buckets>, calls: seq<Call>, i: int)
    requires |states| == |calls| + 1 && 0 <= i < |calls|
  {
    Effect(b, states[i], calls[i], states[i + 1])
  }

  /** states[i] is the store before calls[i]; the clock never runs backwards. */
  ghost predicate History(b: Bounds, states: seq<Buckets>, calls: seq<Call>) {
    && |states| == |calls| + 1
    && states[0] == map[]
    && (forall i :: 0 <= i < |calls| ==> EffectAt(b, states, calls, i))
    && (forall i :: 0 <= i < |calls| ==> Validated(calls[i].op))
    && (forall i, j :: 0 <= i <= j < |calls| ==> calls[i].now <= calls[j].now)
  }

  /** Counting in a store that was pruned and, when full, gave up its oldest unblocked bucket. */
  lemma CountedEffect(b: Bounds, before: Buckets, op: Operation, now: int, room: Buckets, bucket: Bucket)
    requires op.Hit?
    requires var p := Pruned(before, now);
             var k := Composite(op.action, op.key);
             if k in p then room == p && bucket == p[k].(count := p[k].count + 1)
             else
               && bucket == Bucket(op.action, op.hint, now, now + op.length, 1)
               && if |p| < b.maxKeys then room == p else exists v :: OldestUnblocked(p, b.limit, v) && room == p - {v}
    ensures HitEffect(b, before, op, now, Counted(FixedWindow.Hit(bucket.count, bucket.started)),
                      room[Composite(op.action, op.key) := bucket])
  {
  }

  lemma Extends(b: Bounds, states: seq<Buckets>, calls: seq<Call>, after: Buckets, call: Call)
    requires History(b, states, calls) && Validated(call.op) && Effect(b, states[|calls|], call, after)
    requires forall i :: 0 <= i < |calls| ==> calls[i].now <= call.now
    ensures History(b, states + [after], calls + [call])
  {
    forall i | 0 <= i < |calls| + 1 ensures EffectAt(b, states + [after], calls + [call], i) {
      if i < |calls| {
        assert EffectAt(b, states, calls, i);
      }
    }
  }

  class MemoryRateLimitStore {
    const bounds: Bounds
    var buckets: Buckets
    ghost var states: seq<Buckets>
    ghost var calls: seq<Call>

    ghost predicate Valid()
      reads this
    {
      && History(bounds, states, calls)
      && buckets == states[|calls|]
      && WellKeyed(buckets)
      && |buckets| <= bounds.maxKeys
    }

    /** The clock has not run backwards. */
    ghost predicate InTime(now: int)
      reads this
    {
      forall i :: 0 <= i < |calls| ==> calls[i].now <= now
    }

    constructor (bounds: Bounds)
      ensures Valid() && this.bounds == bounds && buckets == map[] && calls == []
    {
      this.bounds := bounds;
      buckets := map[];
      states := [map[]];
      calls := [];
    }

    /** Counts one attempt, or reports that every one of the allowed keys is live and at its limit. */
    method Hit(action: string, key: string, hint: string, length: int, now: int) returns (r: Option<FixedWindow.Hit>)
      requires Valid() && InTime(now) && '\0' !in action && length > 0
      modifies this
      ensures Valid() && InTime(now)
      ensures calls == old(calls)
              + [Call(now, Operation.Hit(action, key, hint, length), if r.Some? then Counted(r.value) else Full)]
      ensures states == old(states) + [buckets]
    {
      ghost var before := buckets;
      r := CountAttempt(action, key, hint, length, now);
      Record(before, now, Operation.Hit(action, key, hint, length), if r.Some? then Counted(r.value) else Full);
    }

    method CountAttempt(action: string, key: string, hint: string, length: int, now: int)
      returns (r: Option<FixedWindow.Hit>)
      requires WellKeyed(buckets) && |buckets| <= bounds.maxKeys && '\0' !in action
      modifies this`buckets
      ensures WellKeyed(buckets) && |buckets| <= bounds.maxKeys
      ensures HitEffect(bounds, old(buckets), Operation.Hit(action, key, hint, length), now,
                        if r.Some? then Counted(r.value) else Full, buckets)
    {
      ghost var before := buckets;
      PruneExpired(now);
      var composite := Composite(action, key);
      var bucket;
      if composite in buckets {
        bucket := buckets[composite];
        KeyedAction(buckets, action, key);
      } else {
        var room := MakeRoom();
        if !room {
          return None;
        }
        bucket := Bucket(action, hint, now, now + length, 0);
      }
      bucket := bucket.(count := bucket.count + 1);
      Inserted(bounds, buckets, action, key, bucket);
      CountedEffect(bounds, before, Operation.Hit(action, key, hint, length), now, buckets, bucket);
      buckets := buckets[composite := bucket];
      r := Some(FixedWindow.Hit(bucket.count, bucket.started));
    }

    /** Reads the live window without counting. */
    method Get(action: string, key: string, now: int) returns (r: Option<FixedWindow.Hit>)
      requires Valid() && InTime(now) && '\0' !in action
      modifies this`states, this`calls
      ensures Valid() && InTime(now) && buckets == old(buckets)
      ensures calls == old(calls) + [Call(now, Operation.Get(action, key), Seen(r))]
      ensures states == old(states) + [buckets]
    {
      var composite := Composite(action, key);
      if composite !in buckets || now >= buckets[composite].expires {
        r := None;
      } else {
        r := Some(FixedWindow.Hit(buckets[composite].count, buckets[composite].started));
      }
      Record(buckets, now, Operation.Get(action, key), Seen(r));
    }

    method Clear(action: string, key: string, ghost now: int)
      requires Valid() && InTime(now) && '\0' !in action
      modifies this
      ensures Valid() && InTime(now)
      ensures buckets == old(buckets) - {Composite(action, key)}
      ensures calls == old(calls) + [Call(now, Operation.Clear(action, key), Cleared)]
      ensures states == old(states) + [buckets]
    {
      ghost var before := buckets;
      buckets := buckets - {Composite(action, key)};
      SubsetBound(buckets.Keys, before.Keys);
      Record(before, now, Operation.Clear(action, key), Cleared);
    }

    /** Every live bucket, in no particular order. */
    method List(now: int) returns (entries: seq<Entry>)
      requires Valid() && InTime(now)
      modifies this
      ensures Valid() && InTime(now)
      ensures calls == old(calls) + [Call(now, Operation.List, Listed(entries))]
      ensures states == old(states) + [buckets]
    {
      ghost var before := buckets;
      PruneExpired(now);
      entries := [];
      ghost var order: seq<string> := [];
      var keys := buckets.Keys;
      while keys != {}
        invariant keys <= buckets.Keys
        invariant |order| == |entries| == |buckets| - |keys|
        invariant forall k :: k in buckets ==> k in keys || k in order
        invariant forall i :: 0 <= i < |order| ==> order[i] in buckets && entries[i] == ToEntry(buckets[order[i]])
        decreases |keys|
      {
        var k :| k in keys;
        keys := keys - {k};
        entries := entries + [ToEntry(buckets[k])];
        order := order + [k];
      }
      assert InOrder(buckets, order, entries);
      Record(before, now, Operation.List, Listed(entries));
    }

    method ClearAction(action: string, ghost now: int) returns (removed: nat)
      requires Valid() && InTime(now) && '\0' !in action
      modifies this
      ensures Valid() && InTime(now)
      ensures calls == old(calls) + [Call(now, Operation.ClearAction(action), Removed(removed))]
      ensures states == old(states) + [buckets]
    {
      ghost var before := buckets;
      removed := ForgetAction(action);
      Record(before, now, Operation.ClearAction(action), Removed(removed));
    }

    method ForgetAction(action: string) returns (removed: nat)
      requires WellKeyed(buckets)
      modifies this`buckets
      ensures buckets == old(buckets) - OfAction(old(buckets), action) && removed == |OfAction(old(buckets), action)|
      ensures WellKeyed(buckets) && |buckets| <= |old(buckets)|
    {
      ghost var before := buckets;
      removed := 0;
      var keys := buckets.Keys;
      while keys != {}
        invariant keys <= buckets.Keys <= before.Keys
        invariant forall k :: k in buckets ==> buckets[k] == before[k] && (k in keys || before[k].action != action)
        invariant forall k :: k in before && k !in buckets ==> before[k].action == action
        invariant removed == |before| - |buckets|
        decreases |keys|
      {
        var k :| k in keys;
        keys := keys - {k};
        if buckets[k].action == action {
          buckets := buckets - {k};
          removed := removed + 1;
        }
      }
      Forgotten(before, buckets, action);
    }

    method ClearAll(ghost now: int) returns (removed: nat)
      requires Valid() && InTime(now)
      modifies this
      ensures Valid() && InTime(now)
      ensures removed == |old(buckets)| && buckets == map[]
      ensures calls == old(calls) + [Call(now, Operation.ClearAll, Removed(removed))]
      ensures states == old(states) + [buckets]
    {
      ghost var before := buckets;
      removed := |buckets|;
      buckets := map[];
      Record(before, now, Operation.ClearAll, Removed(removed));
    }

    /** The history so far, when the buckets have moved on from `before`. */
    ghost predicate Valid0(before: Buckets)
      reads this
    {
      History(bounds, states, calls) && before == states[|calls|] && WellKeyed(before) && |before| <= bounds.maxKeys
    }

    method PruneExpired(now: int)
      requires WellKeyed(buckets)
      modifies this`buckets
      ensures buckets == Pruned(old(buckets), now)
      ensures WellKeyed(buckets) && |buckets| <= |old(buckets)|
    {
      ghost var before := buckets;
      var keys := buckets.Keys;
      while keys != {}
        invariant keys <= before.Keys && buckets == PrunedBut(before, keys, now)
        decreases |keys|
      {
        var k :| k in keys;
        assert PrunedBut(before, keys - {k}, now)
            == if now >= before[k].expires then PrunedBut(before, keys, now) - {k} else PrunedBut(before, keys, now);
        keys := keys - {k};
        if now >= buckets[k].expires {
          buckets := buckets - {k};
        }
      }
      SubsetBound(buckets.Keys, before.Keys);
    }

    /** When full, evicts one bucket if it can. */
    method MakeRoom() returns (room: bool)
      requires WellKeyed(buckets) && |buckets| <= bounds.maxKeys
      modifies this`buckets
      ensures WellKeyed(buckets)
      ensures room <==> |old(buckets)| < bounds.maxKeys || exists v :: Unblocked(old(buckets), bounds.limit, v)
      ensures !room || |old(buckets)| < bounds.maxKeys ==> buckets == old(buckets)
      ensures room ==> |buckets| < bounds.maxKeys
      ensures room && |old(buckets)| >= bounds.maxKeys ==>
                exists v :: OldestUnblocked(old(buckets), bounds.limit, v) && buckets == old(buckets) - {v}
    {
      if |buckets| < bounds.maxKeys {
        return true;
      }
      room := EvictOldestUnblocked();
    }

    /** Drops the oldest bucket below its limit; the empty string marks "none yet". */
    method EvictOldestUnblocked() returns (evicted: bool)
      requires WellKeyed(buckets)
      modifies this`buckets
      ensures evicted <==> exists v :: Unblocked(old(buckets), bounds.limit, v)
      ensures evicted ==> exists v :: OldestUnblocked(old(buckets), bounds.limit, v) && buckets == old(buckets) - {v}
      ensures !evicted ==> buckets == old(buckets)
      ensures evicted ==> |buckets| == |old(buckets)| - 1
      ensures WellKeyed(buckets)
    {
      var oldestKey, oldest := "", 0;
      var keys := buckets.Keys;
      while keys != {}
        invariant keys <= buckets.Keys
        invariant oldestKey == "" ==> forall k :: Unblocked(buckets, bounds.limit, k) ==> k in keys
        invariant oldestKey != "" ==>
                    && Unblocked(buckets, bounds.limit, oldestKey) && oldest == buckets[oldestKey].started
                    && forall k :: Unblocked(buckets, bounds.limit, k) ==> k in keys || oldest <= buckets[k].started
        decreases |keys|
      {
        var k :| k in keys;
        keys := keys - {k};
        var bucket := buckets[k];
        if bucket.count < bounds.limit && (oldestKey == "" || bucket.started < oldest) {
          oldestKey, oldest := k, bucket.started;
        }
      }
      if oldestKey == "" {
        return false;
      }
      assert OldestUnblocked(buckets, bounds.limit, oldestKey);
      buckets := buckets - {oldestKey};
      return true;
    }

    ghost method Record(before: Buckets, now: int, op: Operation, reply: Reply)
      requires Valid0(before) && InTime(now) && Validated(op) && Effect(bounds, before, Call(now, op, reply), buckets)
      requires WellKeyed(buckets) && |buckets| <= bounds.maxKeys
      modifies this`states, this`calls
      ensures calls == old(calls) + [Call(now, op, reply)] && states == old(states) + [buckets]
      ensures Valid() && InTime(now)
    {
      Extends(bounds, states, calls, buckets, Call(now, op, reply));
      calls := calls + [Call(now, op, reply)];
      states := states + [buckets];
    }
  }
}
