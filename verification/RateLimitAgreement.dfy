/** The two rate-limit stores are interchangeable on millisecond clocks. */
module RateLimitAgreement {
  import opened Wrappers
  import opened FixedWindow
  import Memory = MemoryRateLimit
  import MemoryHistory = MemoryRateLimitHistory
  import Postgres = PostgresRateLimit

  /** The same operation reaches the in-memory store and the scope's table at the same time. */
  predicate SameRequest(a: Memory.Call, b: Postgres.Call, scope: string) {
    && a.now == b.now
    && match a.op
       case Hit(action, key, hint, length) => b.op == Postgres.Hit(scope, action, key, hint, length)
       case Get(action, key) => b.op == Postgres.Get(scope, action, key)
       case Clear(action, key) => b.op == Postgres.Clear(scope, action, key)
       case ClearAction(action) => b.op == Postgres.ClearAction(scope, action)
       case ClearAll => b.op == Postgres.ClearAll(scope)
       case List => b.op == Postgres.List(scope)
  }

  /** A table column read back as a time. */
  function InNanos(hit: Hit): (r: Hit) {
    Hit(hit.count, Postgres.MILLISECOND * hit.started)
  }

  /**
   At whole milliseconds, with a window of whole milliseconds, both stores answer
   every attempt and every read alike for as long as every attempt fits into
   memory.
   */
  lemma StoresAgree(b: Memory.Bounds, states: seq<Memory.Buckets>, calls: seq<Memory.Call>,
                    tables: seq<Postgres.Table>, statements: seq<Postgres.Call>, scope: string, millis: int, n: nat)
    requires Memory.History(b, states, calls) && Postgres.History(tables, statements) && |calls| == |statements|
             && n < |calls|
    requires millis > 0 && MemoryHistory.Uniform(calls, millis * Postgres.MILLISECOND)
    requires forall i :: 0 <= i < |calls| ==>
             SameRequest(calls[i], statements[i], scope) && calls[i].now % Postgres.MILLISECOND == 0
    requires forall i :: 0 <= i < |calls| ==> MemoryHistory.Fits(b, states[i], calls[i])
    requires calls[n].op.Hit? || calls[n].op.Get?
    ensures calls[n].op.Hit? ==>
              calls[n].reply.Counted? && statements[n].reply.Counted?
                  && calls[n].reply.hit == InNanos(statements[n].reply.hit)
    ensures calls[n].op.Get? ==>
              && calls[n].reply.Seen? && statements[n].reply.Seen?
              && calls[n].reply.seen == (if statements[n].reply.seen.Some?
                                         then Some(InNanos(statements[n].reply.seen.value)) else None)
  {
    var action, key := calls[n].op.action, calls[n].op.key;
    var length := millis * Postgres.MILLISECOND;
    var fine, coarse := MemoryHistory.Events(calls, action, key), Postgres.Events(statements, scope, action, key);
    assert Memory.Validated(calls[n].op);
    MemoryHistory.MatchesUnboundedCounter(b, states, calls, length, action, key, n);
    assert Postgres.Millis(length) == millis;
    forall i | 0 <= i < |statements| && statements[i].op.Hit? && statements[i].op.scope == scope
      ensures statements[i].op.length == length
    {
      assert SameRequest(calls[i], statements[i], scope);
    }
    Postgres.MatchesUnboundedCounter(tables, statements, scope, length, action, key, n);
    forall i | 0 <= i < |fine| ensures Rescaled(fine[i], coarse[i], Postgres.MILLISECOND) {
      RequestsRescale(b, states, calls, tables, statements, scope, length, i, action, key);
    }
    AnswersScale(fine, coarse, millis, Postgres.MILLISECOND, n);
    RequestsRescale(b, states, calls, tables, statements, scope, length, n, action, key);
    assert SameRequest(calls[n], statements[n], scope);
    AttemptsAndReadsAnswer(b, states, calls, n);
  }

  lemma AttemptsAndReadsAnswer(b: Memory.Bounds, states: seq<Memory.Buckets>, calls: seq<Memory.Call>, n: nat)
    requires Memory.History(b, states, calls) && n < |calls| && MemoryHistory.Fits(b, states[n], calls[n])
    ensures calls[n].op.Hit? ==> calls[n].reply.Counted?
    ensures calls[n].op.Get? ==> calls[n].reply.Seen?
  {
    assert Memory.EffectAt(b, states, calls, n);
    if calls[n].op.Hit? {
      MemoryHistory.FittingAttemptIsCounted(b, states, calls, n);
    }
  }

  lemma RequestsRescale(b: Memory.Bounds, states: seq<Memory.Buckets>, calls: seq<Memory.Call>,
                        tables: seq<Postgres.Table>, statements: seq<Postgres.Call>, scope: string, length: int, i: nat,
                        action: string, key: string)
    requires Memory.History(b, states, calls) && Postgres.History(tables, statements) && |calls| == |statements|
             && i < |calls|
    requires MemoryHistory.Uniform(calls, length) && length >= Postgres.MILLISECOND
    requires SameRequest(calls[i], statements[i], scope) && calls[i].now % Postgres.MILLISECOND == 0
    requires MemoryHistory.Fits(b, states[i], calls[i])
    ensures Rescaled(MemoryHistory.EventOf(calls[i], action, key),
                     Postgres.EventOf(statements[i], scope, action, key), Postgres.MILLISECOND)
  {
    AttemptsAndReadsAnswer(b, states, calls, i);
    assert Postgres.EffectAt(tables, statements, i);
  }
}
