/**
 Evictions and the sliding bound. A full store makes room by forgetting a key that is
 below its limit, and with it the attempts that key has made.
 */
module MemorySlidingBound {
  import opened Wrappers
  import opened Sets
  import opened FixedWindow
  import opened MemoryRateLimit
  import opened MemoryRateLimitHistory

  const ACTION := "a"

  /** Pairwise different keys. */
  function Key(i: nat): (key: string)
    ensures |key| == i
  {
    seq(i, _ => 'x')
  }

  function Opened(length: int): (r: Bucket) {
    Bucket(ACTION, "", 0, length, 1)
  }

  function Attempted(i: nat, length: int): (r: Call) {
    Call(0, Operation.Hit(ACTION, Key(i), "", length), Counted(FixedWindow.Hit(1, 0)))
  }

  /** Distinct keys, each attempted once at time zero. */
  ghost predicate Filled(m: Buckets, n: nat, length: int) {
    && |m| == n
    && (forall k :: k in m ==> m[k] == Opened(length) && exists i :: 0 <= i < n && k == Composite(ACTION, Key(i)))
  }

  lemma NotFilledYet(m: Buckets, n: nat, i: nat, length: int)
    requires Filled(m, n, length) && i >= n
    ensures Composite(ACTION, Key(i)) !in m
  {
    forall j | 0 <= j < n
      ensures Composite(ACTION, Key(i)) != Composite(ACTION, Key(j))
    {
      assert |Composite(ACTION, Key(i))| != |Composite(ACTION, Key(j))|;
    }
  }

  lemma NothingExpired(m: Buckets, length: int)
    requires length > 0 && forall k :: k in m ==> m[k] == Opened(length)
    ensures Pruned(m, 0) == m
  {
  }

  lemma FillStep(b: Bounds, m: Buckets, n: nat, length: int)
    requires n < b.maxKeys && length > 0 && Filled(m, n, length)
    ensures var after := m[Composite(ACTION, Key(n)) := Opened(length)];
            Effect(b, m, Attempted(n, length), after) && Filled(after, n + 1, length)
  {
    NotFilledYet(m, n, n, length);
    NothingExpired(m, length);
    OneMore(m, Composite(ACTION, Key(n)), length);
  }

  lemma {:induction false} FillRun(b: Bounds, length: int, n: nat) returns (states: seq<Buckets>, calls: seq<Call>)
    requires n <= b.maxKeys && length > 0
    ensures History(b, states, calls) && |calls| == n && Filled(states[n], n, length)
    ensures forall i :: 0 <= i < n ==> calls[i] == Attempted(i, length)
  {
    if n == 0 {
      states, calls := [map[]], [];
    } else {
      states, calls := FillRun(b, length, n - 1);
      var m, call := states[n - 1], Attempted(n - 1, length);
      var after := m[Composite(ACTION, Key(n - 1)) := Opened(length)];
      FillStep(b, m, n - 1, length);
      assert Validated(call.op);
      Extends(b, states, calls, after, call);
      states, calls := states + [after], calls + [call];
    }
  }

  /** Two more keys that take turns in the last place. */
  function Turn(b: Bounds, i: nat): (r: nat)
    requires b.maxKeys > 0
  {
    b.maxKeys - 1 + i % 2
  }

  function TurnKey(b: Bounds, i: nat): (r: string)
    requires b.maxKeys > 0
  {
    Composite(ACTION, Key(Turn(b, i)))
  }

  function LastPlace(b: Bounds, base: Buckets, n: nat, length: int): (r: Buckets)
    requires b.maxKeys > 0
  {
    if n == 0 then base else base[TurnKey(b, n - 1) := Opened(length)]
  }

  /** The first of the two takes the last free place. */
  lemma FirstTurn(b: Bounds, base: Buckets, length: int)
    requires b.limit >= 2 && b.maxKeys > 0 && length > 0 && Filled(base, b.maxKeys - 1, length)
    ensures Effect(b, base, Attempted(Turn(b, 0), length), LastPlace(b, base, 1, length))
  {
    NotFilledYet(base, b.maxKeys - 1, Turn(b, 0), length);
    NothingExpired(base, length);
  }

  lemma AllAreOldest(m: Buckets, limit: nat, v: string, length: int)
    requires limit >= 2 && v in m && forall k :: k in m ==> m[k] == Opened(length)
    ensures OldestUnblocked(m, limit, v)
  {
  }

  lemma OneMore(base: Buckets, v: string, length: int)
    requires v !in base && forall k :: k in base ==> base[k] == Opened(length)
    ensures var m := base[v := Opened(length)];
            |m| == |base| + 1 && m - {v} == base && forall k :: k in m ==> m[k] == Opened(length)
  {
    var m := base[v := Opened(length)];
    assert m.Keys == base.Keys + {v};
    assert |m.Keys| == |m| && |base.Keys| == |base|;
    assert m - {v} == base;
  }

  /** A full store gives up the key in the last place. */
  lemma GivesUpLast(b: Bounds, base: Buckets, v: string, length: int)
    requires b.limit >= 2 && b.maxKeys > 0 && length > 0 && Filled(base, b.maxKeys - 1, length) && v !in base
    ensures var m := base[v := Opened(length)];
            Pruned(m, 0) == m && |m| == b.maxKeys && OldestUnblocked(m, b.limit, v) && m - {v} == base
  {
    var m := base[v := Opened(length)];
    OneMore(base, v, length);
    NothingExpired(m, length);
    AllAreOldest(m, b.limit, v, length);
  }

  lemma NextTurn(b: Bounds, base: Buckets, n: nat, length: int)
    requires b.limit >= 2 && b.maxKeys > 0 && length > 0 && Filled(base, b.maxKeys - 1, length) && n > 0
    ensures Effect(b, LastPlace(b, base, n, length), Attempted(Turn(b, n), length), LastPlace(b, base, n + 1, length))
  {
    var v, k := TurnKey(b, n - 1), TurnKey(b, n);
    NotFilledYet(base, b.maxKeys - 1, Turn(b, n), length);
    NotFilledYet(base, b.maxKeys - 1, Turn(b, n - 1), length);
    assert |v| != |k|;
    GivesUpLast(b, base, v, length);
  }

  /** In a full store whose buckets are all below the limit, one key replaces the other. */
  lemma TurnHappens(b: Bounds, base: Buckets, n: nat, length: int)
    requires b.limit >= 2 && b.maxKeys > 0 && length > 0 && Filled(base, b.maxKeys - 1, length)
    ensures Effect(b, LastPlace(b, base, n, length), Attempted(Turn(b, n), length), LastPlace(b, base, n + 1, length))
  {
    if n == 0 {
      FirstTurn(b, base, length);
    } else {
      NextTurn(b, base, n, length);
    }
  }

  /** Which key the i-th attempt is on: the keys that fill the store, then the two in turn. */
  function Script(b: Bounds, i: nat): (r: nat)
    requires b.maxKeys > 0
  {
    if i < b.maxKeys - 1 then i else Turn(b, i - (b.maxKeys - 1))
  }

  ghost predicate Scripted(b: Bounds, calls: seq<Call>, length: int)
    requires b.maxKeys > 0
  {
    forall i :: 0 <= i < |calls| ==> calls[i] == Attempted(Script(b, i), length)
  }

  lemma NextScripted(b: Bounds, calls: seq<Call>, length: int, n: nat)
    requires b.maxKeys > 0 && Scripted(b, calls, length) && |calls| == b.maxKeys - 1 + n
    ensures Scripted(b, calls + [Attempted(Turn(b, n), length)], length)
  {
  }

  lemma ScriptTakesNoTime(b: Bounds, calls: seq<Call>, length: int)
    requires b.maxKeys > 0 && Scripted(b, calls, length)
    ensures forall i :: 0 <= i < |calls| ==> calls[i].now == 0
  {
  }

  lemma TurnStep(b: Bounds, length: int, n: nat, states: seq<Buckets>, calls: seq<Call>, base: Buckets)
    requires b.limit >= 2 && b.maxKeys > 0 && length > 0 && Filled(base, b.maxKeys - 1, length)
    requires History(b, states, calls) && |calls| == b.maxKeys - 1 + n && Scripted(b, calls, length)
    requires states[|calls|] == LastPlace(b, base, n, length)
    ensures var call, after := Attempted(Turn(b, n), length), LastPlace(b, base, n + 1, length);
            History(b, states + [after], calls + [call])
  {
    var call, after := Attempted(Turn(b, n), length), LastPlace(b, base, n + 1, length);
    TurnHappens(b, base, n, length);
    ScriptTakesNoTime(b, calls, length);
    assert Validated(call.op);
    Extends(b, states, calls, after, call);
  }

  lemma {:induction false} TurnRun(b: Bounds, length: int, n: nat)
    returns (states: seq<Buckets>, calls: seq<Call>, base: Buckets)
    requires b.limit >= 2 && b.maxKeys > 0 && length > 0
    ensures History(b, states, calls) && |calls| == b.maxKeys - 1 + n && Filled(base, b.maxKeys - 1, length)
    ensures states[|calls|] == LastPlace(b, base, n, length)
    ensures Scripted(b, calls, length)
  {
    if n == 0 {
      states, calls := FillRun(b, length, b.maxKeys - 1);
      base := states[|calls|];
    } else {
      states, calls, base := TurnRun(b, length, n - 1);
      TurnStep(b, length, n - 1, states, calls, base);
      NextScripted(b, calls, length, n - 1);
      states := states + [LastPlace(b, base, n, length)];
      calls := calls + [Attempted(Turn(b, n - 1), length)];
    }
  }

  /** Every second position from `base` on. */
  ghost function EverySecond(base: int, n: nat): (r: set<int>)
    ensures |r| == n && forall i :: i in r ==> base <= i < base + 2 * n && (i - base) % 2 == 0
  {
    if n == 0 then {} else EverySecond(base, n - 1) + {base + 2 * (n - 1)}
  }

  /** A stretch of any history without clears of the key, within one window length. */
  ghost predicate Stretch(
    b: Bounds, states: seq<Buckets>, calls: seq<Call>, length: int, action: string, key: string,
    n: nat, m: nat, from: int)
  {
    && History(b, states, calls) && Uniform(calls, length) && '\0' !in action
    && n <= m <= |calls| && UnclearedKey(calls, action, key, n, m)
    && (forall i :: n <= i < m ==> from <= calls[i].now <= from + length)
  }

  lemma SecondsAreAllowed(b: Bounds, calls: seq<Call>, length: int, i: int)
    requires b.limit >= 1 && b.maxKeys > 0
    requires b.maxKeys - 1 <= i < |calls| && (i - (b.maxKeys - 1)) % 2 == 0
    requires calls[i] == Attempted(Script(b, i), length)
    ensures i in AllowedCalls(calls, ACTION, Key(b.maxKeys - 1), 0, |calls|, b.limit)
  {
    assert Script(b, i) == b.maxKeys - 1;
  }

  lemma ScriptIsStretch(b: Bounds, states: seq<Buckets>, calls: seq<Call>, length: int, key: string)
    requires b.maxKeys > 0 && length > 0 && History(b, states, calls) && Scripted(b, calls, length)
    ensures Stretch(b, states, calls, length, ACTION, key, 0, |calls|, 0)
  {
    forall i | 0 <= i < |calls|
      ensures !EventOf(calls[i], ACTION, key).ClearedAt? && calls[i].now == 0
      ensures calls[i].op.Hit? && calls[i].op.length == length
    {
      assert calls[i] == Attempted(Script(b, i), length);
    }
  }

  /** So a script that is long enough holds n allowed attempts on its last key. */
  lemma ManyAllowed(b: Bounds, calls: seq<Call>, length: int, n: nat)
    requires b.limit >= 1 && b.maxKeys > 0 && |calls| == b.maxKeys - 1 + 2 * n && Scripted(b, calls, length)
    ensures |AllowedCalls(calls, ACTION, Key(b.maxKeys - 1), 0, |calls|, b.limit)| >= n
  {
    var seconds := EverySecond(b.maxKeys - 1, n);
    forall i | i in seconds
      ensures i in AllowedCalls(calls, ACTION, Key(b.maxKeys - 1), 0, |calls|, b.limit)
    {
      SecondsAreAllowed(b, calls, length, i);
    }
    SubsetBound(seconds, AllowedCalls(calls, ACTION, Key(b.maxKeys - 1), 0, |calls|, b.limit));
  }

  /**
   Two keys that take turns in a full store are allowed at every attempt: more than twice
   the limit of one of them, or any other number, at a single moment.
   */
  lemma EvictionsLiftTheBound(b: Bounds, length: int, n: nat)
    returns (states: seq<Buckets>, calls: seq<Call>, key: string)
    requires b.limit >= 2 && b.maxKeys > 0 && length > 0
    ensures Stretch(b, states, calls, length, ACTION, key, 0, |calls|, 0)
    ensures |AllowedCalls(calls, ACTION, key, 0, |calls|, b.limit)| >= n
  {
    var base;
    states, calls, base := TurnRun(b, length, 2 * n);
    key := Key(b.maxKeys - 1);
    ScriptIsStretch(b, states, calls, length, key);
    ManyAllowed(b, calls, length, n);
  }

  /** With a limit of one every stored key is at its limit; without room nothing is stored. */
  lemma NothingEvicted(
    b: Bounds, states: seq<Buckets>, calls: seq<Call>, length: int, action: string, key: string, i: nat)
    requires History(b, states, calls) && Uniform(calls, length) && '\0' !in action && i < |calls|
    requires b.limit <= 1 || b.maxKeys == 0
    ensures !Evicts(states[i], calls[i], states[i + 1], action, key)
  {
    HistoryKeyed(b, states, calls, i);
    HistorySane(b, states, calls, length, i);
    assert EffectAt(b, states, calls, i);
    if Stored(states[i], action, key).Some? {
      assert states[i] != map[];
      assert |states[i]| > 0;
      BlockedIsKept(b, states[i], calls[i], states[i + 1], action, key);
    }
  }

  /** The store keeps the sliding bound in all histories, whatever other keys do. */
  ghost predicate KeepsBound(b: Bounds, length: int) {
    forall states: seq<Buckets>, calls: seq<Call>, action: string, key: string, n: nat, m: nat, from: int ::
      Stretch(b, states, calls, length, action, key, n, m, from) ==>
        |AllowedCalls(calls, action, key, n, m, b.limit)| <= 2 * b.limit
  }

  /**
   The bound needs no assumption about evictions exactly when a limiter allows one attempt
   per window, or holds no keys at all. For other limits it needs that attempts fit.
   */
  lemma KeepsBoundIff(b: Bounds, length: int)
    requires length > 0
    ensures KeepsBound(b, length) <==> b.limit <= 1 || b.maxKeys == 0
  {
    if b.limit <= 1 || b.maxKeys == 0 {
      forall states: seq<Buckets>, calls: seq<Call>, action: string, key: string, n: nat, m: nat, from: int
        | Stretch(b, states, calls, length, action, key, n, m, from)
        ensures |AllowedCalls(calls, action, key, n, m, b.limit)| <= 2 * b.limit
      {
        forall i | n <= i < m
          ensures !Evicts(states[i], calls[i], states[i + 1], action, key)
        {
          NothingEvicted(b, states, calls, length, action, key, i);
        }
        SlidingBound(b, states, calls, length, action, key, n, m, from);
      }
    } else {
      var states, calls, key := EvictionsLiftTheBound(b, length, 2 * b.limit + 1);
      assert Stretch(b, states, calls, length, ACTION, key, 0, |calls|, 0);
    }
  }
}
