/**
 The rate_limit_buckets table. Every statement is atomic, so any number of
 application instances produce one sequence of calls. Rows are keyed by scope,
 action and key, the key's SHA-256 digest being taken as injective. Columns hold
 milliseconds; callers pass nanoseconds.
 */
module PostgresRateLimit {
  import opened Wrappers
  import opened Sets
  import opened FixedWindow

  const MILLISECOND := 1_000_000

  datatype Row = Row(hint: string, count: nat, started: int, expires: int)

  type Table = map<(string, string, string), Row>

  datatype Entry = Entry(action: string, hint: string, count: nat, started: int)

  datatype Operation =
    | Hit(scope: string, action: string, key: string, hint: string, length: int)
    | Get(scope: string, action: string, key: string)
    | Clear(scope: string, action: string, key: string)
    | ClearAction(scope: string, action: string)
    | ClearAll(scope: string)
    | List(scope: string)
    | DeleteExpired

  /** Hits are recorded as the columns returned, in milliseconds. */
  datatype Reply =
    | Counted(hit: FixedWindow.Hit)
    | InvalidData
    | Seen(seen: Option<FixedWindow.Hit>)
    | Done
    | Removed(removed: nat)
    | Listed(entries: set<((string, string, string), Entry)>)

  /** A statement, with the clock it was given in nanoseconds. */
  datatype Call = Call(now: int, op: Operation, reply: Reply)

  /** time.Time.UnixMilli and, for the positive lengths in use, time.Duration.Milliseconds. */
  function Millis(nanos: int): (r: int) {
    nanos / MILLISECOND
  }

  function Stored(t: Table, scope: string, action: string, key: string): (r: Option<Window>) {
    var k := (scope, action, key);
    if k in t then Some(Window(t[k].started, t[k].expires, t[k].count)) else None
  }

  function WithPrefix(t: Table, scope: string, action: Option<string>): (r: set<(string, string, string)>) {
    set k | k in t && k.0 == scope && (action.Some? ==> k.1 == action.value)
  }

  function Expired(t: Table, now: int): (r: set<(string, string, string)>) {
    set k | k in t && t[k].expires <= Millis(now)
  }

  function LiveEntries(t: Table, scope: string, now: int): (r: set<((string, string, string), Entry)>) {
    set k | k in t && k.0 == scope && Millis(now) < t[k].expires :: (k, Entry(k.1, t[k].hint, t[k].count, t[k].started))
  }

  predicate Effect(t: Table, call: Call, after: Table) {
    match call.op
    case Hit(scope, action, key, hint, length) =>
      if length < MILLISECOND then after == t && call.reply == InvalidData
      else
        var k := (scope, action, key);
        var v := Attempt(Stored(t, scope, action, key), Millis(call.now), Millis(length));
        && after == t[k := Row(if k in t then t[k].hint else hint, v.count, v.started, v.expires)]
        && call.reply == Counted(FixedWindow.Hit(v.count, v.started))
    case Get(scope, action, key) =>
      after == t && call.reply == Seen(View(Live(Stored(t, scope, action, key), Millis(call.now))))
    case Clear(scope, action, key) => after == t - {(scope, action, key)} && call.reply == Done
    case ClearAction(scope, action) =>
      after == t - WithPrefix(t, scope, Some(action)) && call.reply == Removed(|WithPrefix(t, scope, Some(action))|)
    case ClearAll(scope) =>
      after == t - WithPrefix(t, scope, None) && call.reply == Removed(|WithPrefix(t, scope, None)|)
    case List(scope) => after == t && call.reply == Listed(LiveEntries(t, scope, call.now))
    case DeleteExpired => after == t - Expired(t, call.now) && call.reply == Removed(|Expired(t, call.now)|)
  }

  predicate EffectAt(states: seq<Table>, calls: seq<Call>, i: int)
    requires |states| == |calls| + 1 && 0 <= i < |calls|
  {
    Effect(states[i], calls[i], states[i + 1])
  }

  /** states[i] is the table before calls[i]; the clock never runs backwards. */
  ghost predicate History(states: seq<Table>, calls: seq<Call>) {
    && |states| == |calls| + 1
    && states[0] == map[]
    && (forall i :: 0 <= i < |calls| ==> EffectAt(states, calls, i))
    && (forall i, j :: 0 <= i <= j < |calls| ==> calls[i].now <= calls[j].now)
  }

  class RateLimitTable {
    var rows: Table

    constructor ()
      ensures rows == map[]
    {
      rows := map[];
    }

    /** The upsert: insert a first hit, or restart or bump the row that conflicts. */
    method Hit(scope: string, action: string, key: string, hint: string, length: int, now: int)
      returns (r: Result<FixedWindow.Hit, ()>)
      modifies this
      ensures Effect(old(rows), Call(now, Operation.Hit(scope, action, key, hint, length),
                                     if r.Err? then InvalidData
                                     else Counted(FixedWindow.Hit(r.value.count, Millis(r.value.started)))), rows)
      ensures r.Ok? ==> r.value.started % MILLISECOND == 0
    {
      if length < MILLISECOND {
        return Err(());
      }
      var nowMillis, windowMillis := Millis(now), Millis(length);
      var k := (scope, action, key);
      if k !in rows {
        rows := rows[k := Row(hint, 1, nowMillis, nowMillis + windowMillis)];
      } else {
        var row := rows[k];
        rows := rows[k := Row(row.hint,
                              if row.expires <= nowMillis then 1 else row.count + 1,
                              if row.expires <= nowMillis then nowMillis else row.started,
                              if row.expires <= nowMillis then nowMillis + windowMillis else row.expires)];
      }
      r := Ok(FixedWindow.Hit(rows[k].count, rows[k].started * MILLISECOND));
    }

    method Get(scope: string, action: string, key: string, now: int) returns (r: Option<FixedWindow.Hit>)
      ensures r == (match View(Live(Stored(rows, scope, action, key), Millis(now)))
                    case Some(hit) => Some(FixedWindow.Hit(hit.count, hit.started * MILLISECOND))
                    case None => None)
    {
      var k := (scope, action, key);
      if k in rows && rows[k].expires > Millis(now) {
        r := Some(FixedWindow.Hit(rows[k].count, rows[k].started * MILLISECOND));
      } else {
        r := None;
      }
    }

    /**
     The DELETE statements: one key, an action, a whole scope, or what has expired. A key
     that is meant is gone, another keeps its row; the clean-up keeps every live window
     and leaves no expired one. The number reported is that of the rows lost.
     */
    method Delete(op: Operation, now: int) returns (removed: nat)
      requires op.Clear? || op.ClearAction? || op.ClearAll? || op.DeleteExpired?
      modifies this
      ensures forall scope, action, key ::
                Stored(rows, scope, action, key)
                == Spared(op, now, scope, action, key, Stored(old(rows), scope, action, key))
      ensures removed == |old(rows)| - |rows|
      ensures Effect(old(rows), Call(now, op, if op.Clear? then Done else Removed(removed)), rows)
    {
      var doomed :=
        match op
        case Clear(scope, action, key) => {(scope, action, key)} * rows.Keys
        case ClearAction(scope, action) => WithPrefix(rows, scope, Some(action))
        case ClearAll(scope) => WithPrefix(rows, scope, None)
        case _ => Expired(rows, now);
      ghost var before := rows;
      rows := rows - doomed;
      removed := |doomed|;
      RowsLost(before, doomed);
      ghost var call := Call(now, op, if op.Clear? then Done else Removed(removed));
      assert Effect(before, call, rows);
      forall scope, action, key
        ensures Stored(rows, scope, action, key)
             == Spared(op, now, scope, action, key, Stored(before, scope, action, key))
      {
        DeletionSparesOthers(before, call, rows, scope, action, key);
      }
    }
  }

  lemma RowsLost(t: Table, doomed: set<(string, string, string)>)
    requires doomed <= t.Keys
    ensures |doomed| == |t| - |t - doomed|
  {
    assert (t - doomed).Keys == t.Keys - doomed;
    assert |t.Keys| == |t| && |(t - doomed).Keys| == |t - doomed|;
  }

  /** The keys a deletion is about; the clean-up is about none in particular. */
  predicate Means(op: Operation, scope: string, action: string, key: string) {
    match op
    case Clear(s, a, k) => s == scope && a == action && k == key
    case ClearAction(s, a) => s == scope && a == action
    case ClearAll(s) => s == scope
    case _ => false
  }

  /** What a deletion leaves of a key's window: nothing, the live part, or all of it. */
  function Spared(
    op: Operation, now: int, scope: string, action: string, key: string, w: Option<Window>): (left: Option<Window>)
  {
    if Means(op, scope, action, key) then None else if op.DeleteExpired? then Live(w, Millis(now)) else w
  }

  /** What each key sees of a deletion anywhere in the shared table. */
  lemma DeletionSparesOthers(t: Table, call: Call, after: Table, scope: string, action: string, key: string)
    requires Effect(t, call, after)
    requires call.op.Clear? || call.op.ClearAction? || call.op.ClearAll? || call.op.DeleteExpired?
    ensures Stored(after, scope, action, key)
         == Spared(call.op, call.now, scope, action, key, Stored(t, scope, action, key))
  {
    var k := (scope, action, key);
    assert k in WithPrefix(t, k.0, Some(k.1)) <==> k in t;
  }

  /** A call as one key of one scope sees it, in milliseconds. */
  function EventOf(call: Call, scope: string, action: string, key: string): (r: Event) {
    var now := Millis(call.now);
    match call.op
    case Hit(s, a, k, _, _) =>
      if s == scope && a == action && k == key && call.reply.Counted? then HitAt(now, call.reply.hit) else QuietAt(now)
    case Get(s, a, k) =>
      if s == scope && a == action && k == key && call.reply.Seen? then GetAt(now, call.reply.seen) else QuietAt(now)
    case Clear(s, a, k) => if s == scope && a == action && k == key then ClearedAt(now) else QuietAt(now)
    case ClearAction(s, a) => if s == scope && a == action then ClearedAt(now) else QuietAt(now)
    case ClearAll(s) => if s == scope then ClearedAt(now) else QuietAt(now)
    case List(_) => QuietAt(now)
    case DeleteExpired => QuietAt(now)
  }

  /** One limiter serves one scope and always passes its own window. */
  ghost predicate Uniform(calls: seq<Call>, scope: string, length: int) {
    forall i :: 0 <= i < |calls| && calls[i].op.Hit? && calls[i].op.scope == scope ==> calls[i].op.length == length
  }

  function Windows(states: seq<Table>, scope: string, action: string, key: string): (r: seq<Option<Window>>) {
    seq(|states|, i requires 0 <= i < |states| => Stored(states[i], scope, action, key))
  }

  function Events(calls: seq<Call>, scope: string, action: string, key: string): (r: seq<Event>) {
    seq(|calls|, i requires 0 <= i < |calls| => EventOf(calls[i], scope, action, key))
  }

  lemma Projection(t: Table, call: Call, after: Table, scope: string, action: string, key: string, length: int)
    requires Effect(t, call, after)
    requires call.op.Hit? && call.op.scope == scope ==> call.op.length == length
    ensures Step(Stored(t, scope, action, key), EventOf(call, scope, action, key), Stored(after, scope, action, key),
                 Millis(length))
  {
  }

  lemma MillisMonotone(a: int, b: int)
    requires a <= b
    ensures Millis(a) <= Millis(b)
  {
  }

  /** A key of the shared table always runs its fixed window: nothing is ever evicted. */
  lemma KeyRun(states: seq<Table>, calls: seq<Call>, scope: string, length: int, action: string, key: string)
    requires History(states, calls) && Uniform(calls, scope, length) && length >= MILLISECOND
    ensures Run(Windows(states, scope, action, key), Events(calls, scope, action, key), Millis(length))
  {
    var ws, es := Windows(states, scope, action, key), Events(calls, scope, action, key);
    forall i | 0 <= i < |es| ensures StepAt(ws, es, Millis(length), i) {
      assert EffectAt(states, calls, i);
      Projection(states[i], calls[i], states[i + 1], scope, action, key, length);
    }
    forall i, j | 0 <= i <= j < |es| ensures es[i].now <= es[j].now {
      MillisMonotone(calls[i].now, calls[j].now);
    }
    MillisMonotone(MILLISECOND, length);
  }

  /** The upsert answers exactly as the plain per-key counter in milliseconds. */
  lemma MatchesUnboundedCounter(states: seq<Table>, calls: seq<Call>, scope: string, length: int, action: string,
      key: string, n: nat)
    requires History(states, calls) && Uniform(calls, scope, length) && length >= MILLISECOND && n < |calls|
    ensures EventOf(calls[n], scope, action, key) == Answered(Events(calls, scope, action, key), Millis(length), n)
  {
    KeyRun(states, calls, scope, length, action, key);
    RunMatchesReference(Windows(states, scope, action, key), Events(calls, scope, action, key), Millis(length), n);
  }

  /**
   Between clears of a key, any closed interval as long as the window allows at most
   twice the limit, by any clock when the window is whole milliseconds, and otherwise
   by a clock in whole milliseconds.
   */
  lemma SlidingBound(states: seq<Table>, calls: seq<Call>, scope: string, length: int, action: string, key: string,
                     n: nat, m: nat, from: int, limit: nat)
    requires History(states, calls) && Uniform(calls, scope, length) && length >= MILLISECOND && n <= m <= |calls|
    requires forall i :: n <= i < m ==> !EventOf(calls[i], scope, action, key).ClearedAt?
    requires forall i :: n <= i < m ==> from <= calls[i].now <= from + length
    requires length % MILLISECOND == 0 || forall i :: n <= i < m ==> calls[i].now % MILLISECOND == 0
    ensures |Allowed(Events(calls, scope, action, key), n, m, limit)| <= 2 * limit
  {
    var es := Events(calls, scope, action, key);
    KeyRun(states, calls, scope, length, action, key);
    if n < m {
      var first := Millis(calls[n].now);
      forall i | n <= i < m
        ensures first <= es[i].now <= first + Millis(length)
      {
        assert calls[n].now <= calls[i].now;
        WholeMillis(calls[n].now, calls[i].now, length);
      }
      AtMostTwiceTheLimit(Windows(states, scope, action, key), es, Millis(length), n, m, first, limit);
    }
  }

  lemma WholeMillis(a: int, b: int, length: int)
    requires length % MILLISECOND == 0 || (a % MILLISECOND == 0 && b % MILLISECOND == 0)
    requires a <= b <= a + length
    ensures Millis(a) <= Millis(b) <= Millis(a) + Millis(length)
  {
  }

  /**
   A denied attempt names a wait of more than nothing and at most one window even
   though the store truncates to milliseconds, and the key's first attempt after
   that wait, if it was left alone, opens a new window.
   */
  lemma WaitingHelpsInPostgres(states: seq<Table>, calls: seq<Call>, scope: string, length: int, action: string,
                               key: string, n: nat, m: nat, limit: nat)
    requires History(states, calls) && Uniform(calls, scope, length) && length >= MILLISECOND && n < m < |calls|
             && limit >= 1
    requires EventOf(calls[n], scope, action, key).HitAt? && EventOf(calls[n], scope, action, key).hit.count > limit
    requires EventOf(calls[m], scope, action, key).HitAt?
    requires forall i :: n < i < m ==> !EventOf(calls[i], scope, action, key).HitAt?
    ensures var wait := RetryAfter(length, calls[n].reply.hit.started * MILLISECOND, calls[n].now);
            && 0 < wait <= length
            && (calls[m].now >= calls[n].now + wait ==> calls[m].reply.hit == FixedWindow.Hit(1, Millis(calls[m].now)))
  {
    KeyRun(states, calls, scope, length, action, key);
    var ws, es := Windows(states, scope, action, key), Events(calls, scope, action, key);
    WaitingHelps(ws, es, Millis(length), n, m, limit);
    LiveHit(ws, es, Millis(length), n);
    TruncatedWait(calls[n].now, calls[m].now, calls[n].reply.hit.started, length);
  }

  lemma TruncatedWait(now: int, later: int, started: int, length: int)
    requires started <= Millis(now) < started + Millis(length)
    ensures 0 < RetryAfter(length, started * MILLISECOND, now) <= length
    ensures later >= now + RetryAfter(length, started * MILLISECOND, now) ==>
              Millis(later) >= Millis(now) + RetryAfter(Millis(length), started, Millis(now))
  {
  }

  /** A list shows exactly the live windows of its scope, and changes nothing. */
  lemma ListShowsLive(states: seq<Table>, calls: seq<Call>, scope: string, action: string, key: string, n: nat,
      e: Entry)
    requires History(states, calls) && n < |calls| && calls[n].op == Operation.List(scope)
    ensures states[n + 1] == states[n] && calls[n].reply.Listed?
    ensures forall listed :: listed in calls[n].reply.entries ==> listed.0.0 == scope
    ensures ((scope, action, key), e) in calls[n].reply.entries <==>
              var w := Live(Stored(states[n], scope, action, key), Millis(calls[n].now));
              && w.Some? && e.count == w.value.count && e.started == w.value.started
              && e.action == action && e.hint == states[n][(scope, action, key)].hint
  {
    assert EffectAt(states, calls, n);
  }

  /** Times are kept in milliseconds: a million nanoseconds each, rounded down. */
  lemma MillisRoundDown(now: int)
    ensures 1_000_000 * Millis(now) <= now < 1_000_000 * Millis(now) + 1_000_000
  {
  }
}
