/**
 For which windows the table keeps the sliding bound by a clock with nanoseconds. The
 store cuts times to milliseconds, so a window with a fraction of a millisecond is
 shorter in the table than in the limiter's promise.
 */
module PostgresSlidingBound {
  import opened Wrappers
  import opened Sets
  import opened FixedWindow
  import opened PostgresRateLimit

  /** A stretch of any history without clears of the key, within one window length. */
  ghost predicate Stretch(
    states: seq<Table>, calls: seq<Call>, scope: string, length: int, action: string, key: string,
    n: nat, m: nat, from: int)
  {
    && History(states, calls) && Uniform(calls, scope, length) && n <= m <= |calls|
    && (forall i :: n <= i < m ==> !EventOf(calls[i], scope, action, key).ClearedAt?)
    && (forall i :: n <= i < m ==> from <= calls[i].now <= from + length)
  }

  /** The guard on a limiter's configuration. */
  predicate Bounding(length: int, limit: nat) {
    length % MILLISECOND == 0 || limit == 0 || (limit == 1 && length >= 2 * MILLISECOND)
  }

  /** The first attempt of a window opens it. */
  lemma FirstOpens(ws: seq<Option<Window>>, es: seq<Event>, length: int, i: nat)
    requires Run(ws, es, length) && i < |es| && es[i].HitAt?
    ensures es[i].hit.count >= 1 && (es[i].hit.count == 1 ==> es[i].hit.started == es[i].now)
  {
    SaneAt(ws, es, length, i);
    assert StepAt(ws, es, length, i);
  }

  lemma ThreeOf(a: set<int>) returns (x: int, y: int, z: int)
    requires |a| >= 3
    ensures x in a && y in a && z in a && x < y < z
  {
    x := Choose(a);
    y := Choose(a - {x});
    z := Choose(a - {x} - {y});
    if y < x {
      x, y := y, x;
    }
    if z < y {
      y, z := z, y;
    }
    if y < x {
      x, y := y, x;
    }
  }

  /** With one attempt per window, allowed attempts are a whole window apart. */
  lemma OpeningsAreApart(ws: seq<Option<Window>>, es: seq<Event>, length: int, n: nat, m: nat, j: int, k: int)
    requires Run(ws, es, length) && n <= m <= |es| && Uncleared(es, n, m)
    requires j in Allowed(es, n, m, 1) && k in Allowed(es, n, m, 1) && j < k
    ensures es[k].now >= es[j].now + length
  {
    FirstOpens(ws, es, length, j);
    FirstOpens(ws, es, length, k);
    AttemptsAreSpaced(ws, es, length, j, k);
  }

  lemma AtMostTwoOpenings(ws: seq<Option<Window>>, es: seq<Event>, length: int, n: nat, m: nat)
    requires Run(ws, es, length) && n <= m <= |es| && Uncleared(es, n, m) && length >= 2
    requires forall i, j :: n <= i < j < m ==> es[j].now <= es[i].now + length + 1
    ensures |Allowed(es, n, m, 1)| <= 2
  {
    if |Allowed(es, n, m, 1)| >= 3 {
      var j, k, l := ThreeOf(Allowed(es, n, m, 1));
      OpeningsAreApart(ws, es, length, n, m, j, k);
      OpeningsAreApart(ws, es, length, n, m, k, l);
      assert false;
    }
  }

  lemma MillisSpan(a: int, b: int, length: int)
    requires a <= b <= a + length
    ensures Millis(b) <= Millis(a) + Millis(length) + 1
  {
  }

  lemma BoundHolds(
    states: seq<Table>, calls: seq<Call>, scope: string, length: int, action: string, key: string,
    n: nat, m: nat, from: int, limit: nat)
    requires Stretch(states, calls, scope, length, action, key, n, m, from)
    requires length >= MILLISECOND && Bounding(length, limit)
    ensures |Allowed(Events(calls, scope, action, key), n, m, limit)| <= 2 * limit
  {
    var ws, es := Windows(states, scope, action, key), Events(calls, scope, action, key);
    KeyRun(states, calls, scope, length, action, key);
    if length % MILLISECOND == 0 {
      SlidingBound(states, calls, scope, length, action, key, n, m, from, limit);
    } else if limit == 0 {
      forall i | n <= i < m && es[i].HitAt?
        ensures es[i].hit.count >= 1
      {
        FirstOpens(ws, es, Millis(length), i);
      }
      assert Allowed(es, n, m, limit) == {};
    } else {
      forall i, j | n <= i < j < m
        ensures es[j].now <= es[i].now + Millis(length) + 1
      {
        assert calls[i].now <= calls[j].now;
        MillisSpan(calls[i].now, calls[j].now, length);
      }
      AtMostTwoOpenings(ws, es, Millis(length), n, m);
    }
  }

  // Otherwise: a window filled at its very end, the next one, and a third that the
  // missing fraction of a millisecond lets in.

  /** The last moment before the second window that has the third within one length. */
  function LastMoment(length: int): (r: int) {
    2 * Millis(length) * MILLISECOND - length
  }

  /** When the i-th attempt of the overrun is made: three windows of `limit` attempts. */
  function AttemptTime(length: int, limit: nat, i: nat): (r: int) {
    if i < limit then (if i == 0 && length >= 2 * MILLISECOND then 0 else LastMoment(length))
    else if i < 2 * limit then Millis(length) * MILLISECOND
    else 2 * Millis(length) * MILLISECOND
  }

  /** How many attempts the i-th one's window counts with it, and when that window started. */
  function CountOf(limit: nat, i: nat): (r: nat) {
    if i < limit then i + 1 else if i < 2 * limit then i - limit + 1 else i - 2 * limit + 1
  }

  function StartOf(length: int, limit: nat, i: nat): (r: int) {
    if i < limit then 0 else if i < 2 * limit then Millis(length) else 2 * Millis(length)
  }

  function Attempted(length: int, limit: nat, i: nat): (r: Call) {
    Call(AttemptTime(length, limit, i), Operation.Hit("", "", "", "", length),
         Counted(FixedWindow.Hit(CountOf(limit, i), StartOf(length, limit, i))))
  }

  /** The table after the i-th attempt. */
  function After(length: int, limit: nat, i: nat): (r: Table) {
    var start := StartOf(length, limit, i);
    map[("", "", "") := Row("", CountOf(limit, i), start, start + Millis(length))]
  }

  lemma TimesInMillis(length: int)
    requires length > MILLISECOND && length % MILLISECOND != 0
    ensures Millis(LastMoment(length)) == Millis(length) - 1 >= 0
    ensures Millis(Millis(length) * MILLISECOND) == Millis(length)
    ensures Millis(2 * Millis(length) * MILLISECOND) == 2 * Millis(length)
    ensures 0 <= LastMoment(length) <= Millis(length) * MILLISECOND < length
    ensures length < 2 * MILLISECOND ==> Millis(length) == 1
    ensures Millis(0) == 0
  {
  }

  /** Each attempt has the effect the store's upsert gives it. */
  lemma AttemptHappens(length: int, limit: nat, i: nat)
    requires length > MILLISECOND && length % MILLISECOND != 0 && limit > 0 && i < 3 * limit
    ensures Effect(if i == 0 then map[] else After(length, limit, i - 1), Attempted(length, limit, i),
                   After(length, limit, i))
    ensures i + 1 < 3 * limit ==> AttemptTime(length, limit, i) <= AttemptTime(length, limit, i + 1)
  {
    TimesInMillis(length);
  }

  lemma {:induction false} TimesAscend(length: int, limit: nat, i: nat, j: nat)
    requires length > MILLISECOND && length % MILLISECOND != 0 && limit > 0 && i <= j < 3 * limit
    ensures AttemptTime(length, limit, i) <= AttemptTime(length, limit, j)
    decreases j - i
  {
    if i < j {
      AttemptHappens(length, limit, i);
      TimesAscend(length, limit, i + 1, j);
    }
  }

  ghost function Range(a: int, b: int): (r: set<int>)
    ensures forall i :: i in r <==> a <= i < b
    ensures a <= b ==> |r| == b - a
    decreases b - a
  {
    if a >= b then {} else Range(a, b - 1) + {b - 1}
  }

  function Calls(length: int, limit: nat): (r: seq<Call>) {
    seq(3 * limit, i requires 0 <= i < 3 * limit => Attempted(length, limit, i))
  }

  function States(length: int, limit: nat): (r: seq<Table>) {
    seq(3 * limit + 1, i requires 0 <= i < 3 * limit + 1 => if i == 0 then map[] else After(length, limit, i - 1))
  }

  lemma OverrunIsHistory(length: int, limit: nat)
    requires length >= MILLISECOND && !Bounding(length, limit)
    ensures History(States(length, limit), Calls(length, limit)) && Uniform(Calls(length, limit), "", length)
  {
    var states, calls := States(length, limit), Calls(length, limit);
    forall i | 0 <= i < |calls|
      ensures EffectAt(states, calls, i)
    {
      AttemptHappens(length, limit, i);
    }
    forall i, j | 0 <= i <= j < |calls|
      ensures calls[i].now <= calls[j].now
    {
      TimesAscend(length, limit, i, j);
    }
  }

  /** One attempt is seen as allowed, not as a clear, and inside the interval. */
  lemma AttemptIsAllowed(length: int, limit: nat, i: nat)
    requires length >= MILLISECOND && !Bounding(length, limit) && i < 3 * limit
    requires length >= 2 * MILLISECOND ==> i > 0
    ensures EventOf(Attempted(length, limit, i), "", "", "").HitAt?
    ensures EventOf(Attempted(length, limit, i), "", "", "").hit.count <= limit
    ensures LastMoment(length) <= AttemptTime(length, limit, i) <= LastMoment(length) + length
  {
    TimesInMillis(length);
  }

  /** More than twice the limit are allowed within one window length. */
  lemma Overrun(length: int, limit: nat) returns (states: seq<Table>, calls: seq<Call>, n: nat, m: nat, from: int)
    requires length >= MILLISECOND && !Bounding(length, limit)
    ensures Stretch(states, calls, "", length, "", "", n, m, from)
    ensures |Allowed(Events(calls, "", "", ""), n, m, limit)| > 2 * limit
  {
    states, calls, m, from := States(length, limit), Calls(length, limit), 3 * limit, LastMoment(length);
    n := if length >= 2 * MILLISECOND then 1 else 0;
    OverrunIsHistory(length, limit);
    var es := Events(calls, "", "", "");
    forall i | n <= i < m
      ensures es[i].HitAt? && es[i].hit.count <= limit && from <= calls[i].now <= from + length
    {
      AttemptIsAllowed(length, limit, i);
    }
    assert Allowed(es, n, m, limit) == Range(n, m);
  }

  /** The table keeps the sliding bound of a limiter, in all histories. */
  ghost predicate KeepsBound(length: int, limit: nat) {
    forall states: seq<Table>, calls: seq<Call>, scope: string, action: string, key: string, n: nat, m: nat,
        from: int ::
      Stretch(states, calls, scope, length, action, key, n, m, from) ==>
        |Allowed(Events(calls, scope, action, key), n, m, limit)| <= 2 * limit
  }

  /**
   Exactly when the table keeps the bound whatever the clock: the window is whole
   milliseconds, or at most one attempt is allowed and the window is not the shortest.
   */
  lemma KeepsBoundIff(length: int, limit: nat)
    requires length >= MILLISECOND
    ensures KeepsBound(length, limit) <==> Bounding(length, limit)
  {
    if Bounding(length, limit) {
      forall states: seq<Table>, calls: seq<Call>, scope: string, action: string, key: string, n: nat, m: nat, from: int
        | Stretch(states, calls, scope, length, action, key, n, m, from)
        ensures |Allowed(Events(calls, scope, action, key), n, m, limit)| <= 2 * limit
      {
        BoundHolds(states, calls, scope, length, action, key, n, m, from, limit);
      }
    } else {
      var states, calls, n, m, from := Overrun(length, limit);
      assert Stretch(states, calls, "", length, "", "", n, m, from);
    }
  }
}
