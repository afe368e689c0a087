/**
 The attempt counter of one action/key as any limiter store shows it: a window
 opens with the first attempt, counts every attempt while it is live, and the
 first attempt at or after its expiry opens the next one. Times are integers in
 the store's unit. The history properties of the limiter are proved here once,
 for every run; each store is shown to produce such runs.
 */
module FixedWindow {
  import opened Wrappers
  import opened Sets

  datatype Window = Window(started: int, expires: int, count: nat)

  /** RateLimitHit: the count including this attempt and the window's start. */
  datatype Hit = Hit(count: nat, started: int)

  /** What happens to a key: an attempt, a read, a clear, or an operation on something else. */
  datatype Event =
    | HitAt(now: int, hit: Hit)
    | GetAt(now: int, seen: Option<Hit>)
    | ClearedAt(now: int)
    | QuietAt(now: int)

  /** The live part of a stored window: an expired one reads as absent. */
  function Live(w: Option<Window>, now: int): (r: Option<Window>) {
    if w.Some? && now < w.value.expires then w else None
  }

  function View(w: Option<Window>): (r: Option<Hit>) {
    if w.Some? then Some(Hit(w.value.count, w.value.started)) else None
  }

  /** One more attempt. */
  function Attempt(w: Option<Window>, now: int, length: int): (r: Window) {
    match Live(w, now)
    case Some(v) => v.(count := v.count + 1)
    case None => Window(now, now + length, 1)
  }

  /** Forgetting an expired window is always allowed; nothing else is. */
  predicate Rests(w: Option<Window>, now: int, after: Option<Window>) {
    after == w || (after == None && Live(w, now) == None)
  }

  predicate Step(w: Option<Window>, e: Event, after: Option<Window>, length: int) {
    match e
    case HitAt(now, hit) => var v := Attempt(w, now, length); after == Some(v) && hit == Hit(v.count, v.started)
    case GetAt(now, seen) => Rests(w, now, after) && seen == View(Live(w, now))
    case ClearedAt(_) => after == None
    case QuietAt(now) => Rests(w, now, after)
  }

  /** A stored window opened in the past with this length. */
  predicate Sane(w: Option<Window>, now: int, length: int) {
    w.Some? ==> w.value.expires == w.value.started + length && w.value.started <= now && w.value.count >= 1
  }

  predicate StepAt(ws: seq<Option<Window>>, es: seq<Event>, length: int, i: int)
    requires |ws| == |es| + 1 && 0 <= i < |es|
  {
    Step(ws[i], es[i], ws[i + 1], length)
  }

  /** ws[i] is the stored window before es[i]; the clock never runs backwards. */
  ghost predicate Run(ws: seq<Option<Window>>, es: seq<Event>, length: int) {
    && length > 0 && |ws| == |es| + 1
    && (forall i :: 0 <= i < |es| ==> StepAt(ws, es, length, i))
    && (forall i, j :: 0 <= i <= j < |es| ==> es[i].now <= es[j].now)
    && (|es| > 0 ==> Sane(ws[0], es[0].now, length))
  }

  lemma {:induction false} SaneAt(ws: seq<Option<Window>>, es: seq<Event>, length: int, n: nat)
    requires Run(ws, es, length) && n < |es|
    ensures Sane(ws[n], es[n].now, length) && Sane(ws[n + 1], es[n].now, length)
  {
    if n > 0 {
      SaneAt(ws, es, length, n - 1);
    }
    assert StepAt(ws, es, length, n);
  }

  /** No clear of this key in es[n..m]. */
  ghost predicate Uncleared(es: seq<Event>, n: nat, m: nat)
    requires m <= |es|
  {
    forall k :: n <= k < m ==> !es[k].ClearedAt?
  }

  /** Where the key stands after an attempt that belonged to window `first`. */
  ghost predicate Since(w: Option<Window>, now: int, first: Window) {
    || (w.Some? && w.value.started == first.started && w.value.expires == first.expires && w.value.count >= first.count)
    || (now >= first.expires && (w.Some? ==> w.value.started >= first.expires))
  }

  lemma {:induction false} SinceHolds(ws: seq<Option<Window>>, es: seq<Event>, length: int, n: nat, m: nat)
    requires Run(ws, es, length) && n < m <= |es| && Uncleared(es, n + 1, m) && ws[n + 1].Some?
    ensures Since(ws[m], es[m - 1].now, ws[n + 1].value)
    decreases m
  {
    if n + 1 == m {
      assert es[n].now <= es[m - 1].now;
    } else {
      SinceHolds(ws, es, length, n, m - 1);
      assert StepAt(ws, es, length, m - 1);
      assert es[m - 2].now <= es[m - 1].now;
    }
  }

  /** Two attempts of one window have growing counts; two of different windows
      belong to windows that start at least a window length apart. */
  lemma AttemptsAreSpaced(ws: seq<Option<Window>>, es: seq<Event>, length: int, n: nat, m: nat)
    requires Run(ws, es, length) && n < m < |es| && Uncleared(es, n + 1, m)
    requires es[n].HitAt? && es[m].HitAt?
    ensures var a, b := es[n].hit, es[m].hit;
            (a.started == b.started && a.count < b.count) || b.started >= a.started + length
  {
    assert StepAt(ws, es, length, n);
    assert StepAt(ws, es, length, m);
    SinceHolds(ws, es, length, n, m);
    SaneAt(ws, es, length, n);
    assert es[m - 1].now <= es[m].now;
  }

  /** The attempts in es[n..m] that a limiter with this limit allows. */
  ghost function Allowed(es: seq<Event>, n: nat, m: nat, limit: nat): (r: set<int>)
    requires n <= m <= |es|
  {
    set k | n <= k < m && es[k].HitAt? && es[k].hit.count <= limit
  }

  /** Distinct counts between 1 and the limit. */
  lemma {:induction false} DistinctCounts(ks: set<int>, es: seq<Event>, limit: nat)
    requires forall k :: k in ks ==> 0 <= k < |es| && es[k].HitAt? && 1 <= es[k].hit.count <= limit
    requires forall j, k :: j in ks && k in ks && j != k ==> es[j].hit.count != es[k].hit.count
    ensures |ks| <= limit
  {
    if limit == 0 {
      if |ks| > 0 {
        var k := Choose(ks);
        assert false;
      }
    } else if e :| e in ks && es[e].hit.count == limit {
      DistinctCounts(ks - {e}, es, limit - 1);
    } else {
      DistinctCounts(ks, es, limit - 1);
    }
  }

  lemma OneWindowAllowsAtMostLimit(ws: seq<Option<Window>>, es: seq<Event>, length: int, n: nat, m: nat, limit: nat,
      start: int)
    requires Run(ws, es, length) && n <= m <= |es| && Uncleared(es, n, m)
    ensures |set k | k in Allowed(es, n, m, limit) && es[k].hit.started == start| <= limit
  {
    var ks := set k | k in Allowed(es, n, m, limit) && es[k].hit.started == start;
    forall k | k in ks ensures 1 <= es[k].hit.count {
      assert StepAt(ws, es, length, k);
    }
    forall j, k | j in ks && k in ks && j != k ensures es[j].hit.count != es[k].hit.count {
      if j < k { AttemptsAreSpaced(ws, es, length, j, k); } else { AttemptsAreSpaced(ws, es, length, k, j); }
    }
    DistinctCounts(ks, es, limit);
  }

  /** An interval no longer than a window meets at most two windows. */
  lemma AtMostTwoWindows(ws: seq<Option<Window>>, es: seq<Event>, length: int, n: nat, m: nat, from: int)
    returns (first: int, second: int)
    requires Run(ws, es, length) && n <= m <= |es| && Uncleared(es, n, m)
    requires forall k :: n <= k < m ==> from <= es[k].now <= from + length
    ensures forall k :: n <= k < m && es[k].HitAt? ==> es[k].hit.started == first || es[k].hit.started == second
  {
    first, second := 0, 0;
    if i :| n <= i < m && es[i].HitAt? && forall k :: n <= k < i ==> !es[k].HitAt? {
      first, second := es[i].hit.started, es[i].hit.started;
      if j :| FirstOfAnother(es, i, m, first, j) {
        second := es[j].hit.started;
        AttemptsAreSpaced(ws, es, length, i, j);
        LiveHit(ws, es, length, i);
        forall k | n <= k < m && es[k].HitAt? ensures es[k].hit.started == first || es[k].hit.started == second {
          if k > j {
            AttemptsAreSpaced(ws, es, length, j, k);
            LiveHit(ws, es, length, k);
          }
        }
      } else {
        NoOtherWindow(es, i, m, first);
      }
    } else {
      NoHit(es, n, m);
    }
  }

  /** An attempt falls inside the window that counts it. */
  lemma LiveHit(ws: seq<Option<Window>>, es: seq<Event>, length: int, n: nat)
    requires Run(ws, es, length) && n < |es| && es[n].HitAt?
    ensures es[n].hit.started <= es[n].now < es[n].hit.started + length && es[n].hit.count >= 1
  {
    SaneAt(ws, es, length, n);
    assert StepAt(ws, es, length, n);
  }

  lemma {:induction false} NoHit(es: seq<Event>, n: nat, m: nat)
    requires n <= m <= |es|
    requires !exists i :: n <= i < m && es[i].HitAt? && forall k :: n <= k < i ==> !es[k].HitAt?
    ensures forall k :: n <= k < m ==> !es[k].HitAt?
  {
    var i := n;
    while i < m
      invariant n <= i <= m
      invariant forall k :: n <= k < i ==> !es[k].HitAt?
    {
      i := i + 1;
    }
  }

  /** The first attempt after the i-th that belongs to another window. */
  ghost predicate FirstOfAnother(es: seq<Event>, i: nat, m: nat, first: int, j: int)
    requires m <= |es|
  {
    && i < j < m && es[j].HitAt? && es[j].hit.started != first
    && forall k :: i < k < j && es[k].HitAt? ==> es[k].hit.started == first
  }

  lemma {:induction false} NoOtherWindow(es: seq<Event>, i: nat, m: nat, first: int)
    requires i < m <= |es|
    requires !exists j :: FirstOfAnother(es, i, m, first, j)
    ensures forall k :: i < k < m && es[k].HitAt? ==> es[k].hit.started == first
  {
    var j := i + 1;
    while j < m
      invariant i < j <= m
      invariant forall k :: i < k < j && es[k].HitAt? ==> es[k].hit.started == first
    {
      assert !FirstOfAnother(es, i, m, first, j);
      j := j + 1;
    }
  }

  /**
   The sliding bound: between clears of the key, any closed interval of one
   window length contains at most twice the limit of allowed attempts.
   */
  lemma AtMostTwiceTheLimit(ws: seq<Option<Window>>, es: seq<Event>, length: int, n: nat, m: nat, from: int, limit: nat)
    requires Run(ws, es, length) && n <= m <= |es| && Uncleared(es, n, m)
    requires forall k :: n <= k < m ==> from <= es[k].now <= from + length
    ensures |Allowed(es, n, m, limit)| <= 2 * limit
  {
    var first, second := AtMostTwoWindows(ws, es, length, n, m, from);
    var all := Allowed(es, n, m, limit);
    var a := set k | k in all && es[k].hit.started == first;
    var b := set k | k in all && es[k].hit.started == second;
    OneWindowAllowsAtMostLimit(ws, es, length, n, m, limit, first);
    OneWindowAllowsAtMostLimit(ws, es, length, n, m, limit, second);
    UnionBound(all, a, b);
  }

  /** RateLimiter.retryAfter. */
  function RetryAfter(length: int, started: int, now: int): (r: int) {
    length - (now - started)
  }

  /**
   A denied attempt reports a wait of at most one window and more than nothing,
   and if the key is left alone meanwhile, the first attempt after that wait
   opens a new window and is allowed.
   */
  lemma WaitingHelps(ws: seq<Option<Window>>, es: seq<Event>, length: int, n: nat, m: nat, limit: nat)
    requires Run(ws, es, length) && n < m < |es| && limit >= 1
    requires es[n].HitAt? && es[n].hit.count > limit && es[m].HitAt?
    requires forall k :: n < k < m ==> !es[k].HitAt?
    ensures 0 < RetryAfter(length, es[n].hit.started, es[n].now) <= length
    ensures es[m].now >= es[n].now + RetryAfter(length, es[n].hit.started, es[n].now) ==> es[m].hit == Hit(1, es[m].now)
  {
    LiveHit(ws, es, length, n);
    assert StepAt(ws, es, length, n);
    SaneAt(ws, es, length, n);
    QuietBetween(ws, es, length, n + 1, m);
    assert StepAt(ws, es, length, m);
  }

  lemma {:induction false} QuietBetween(ws: seq<Option<Window>>, es: seq<Event>, length: int, n: nat, m: nat)
    requires Run(ws, es, length) && n <= m <= |es| && forall k :: n <= k < m ==> !es[k].HitAt?
    ensures ws[m] == ws[n] || ws[m] == None
    decreases m
  {
    if n < m {
      QuietBetween(ws, es, length, n, m - 1);
      assert StepAt(ws, es, length, m - 1);
    }
  }

  /** A key at its limit stays denied until its window expires. */
  lemma BlockedUntilExpiry(ws: seq<Option<Window>>, es: seq<Event>, length: int, n: nat, m: nat, limit: nat)
    requires Run(ws, es, length) && n < m < |es| && Uncleared(es, n, m)
    requires ws[n].Some? && ws[n].value.count >= limit && es[m].HitAt? && es[m].now < ws[n].value.expires
    ensures es[m].hit.count > limit && es[m].hit.started == ws[n].value.started
  {
    BlockedPersists(ws, es, length, n, m);
    assert StepAt(ws, es, length, m);
  }

  lemma {:induction false} BlockedPersists(ws: seq<Option<Window>>, es: seq<Event>, length: int, n: nat, m: nat)
    requires Run(ws, es, length) && n <= m < |es| && Uncleared(es, n, m)
    requires ws[n].Some? && es[m].now < ws[n].value.expires
    ensures ws[m].Some? && ws[m].value.(count := 0) == ws[n].value.(count := 0)
            && ws[m].value.count >= ws[n].value.count
    decreases m
  {
    if n < m {
      assert es[m - 1].now <= es[m].now;
      BlockedPersists(ws, es, length, n, m - 1);
      assert StepAt(ws, es, length, m - 1);
    }
  }

  /**
   The plain counter nothing is ever dropped from: the window of the key after
   the first n events, computed from the operations alone, not their answers.
   */
  function Reference(es: seq<Event>, length: int, n: nat): (r: Option<Window>)
    requires n <= |es|
  {
    if n == 0 then None
    else match es[n - 1]
      case HitAt(now, _) => Some(Attempt(Reference(es, length, n - 1), now, length))
      case ClearedAt(_) => None
      case _ => Reference(es, length, n - 1)
  }

  /** The event with the answer the plain counter gives. */
  function Answered(es: seq<Event>, length: int, n: nat): (r: Event)
    requires n < |es|
  {
    var w := Reference(es, length, n);
    match es[n]
    case HitAt(now, _) => var v := Attempt(w, now, length); HitAt(now, Hit(v.count, v.started))
    case GetAt(now, _) => GetAt(now, View(Live(w, now)))
    case e => e
  }

  lemma {:induction false} LiveMatchesReference(ws: seq<Option<Window>>, es: seq<Event>, length: int, n: nat)
    requires Run(ws, es, length) && ws[0] == None && n < |es|
    ensures Live(ws[n], es[n].now) == Live(Reference(es, length, n), es[n].now)
  {
    if n > 0 {
      LiveMatchesReference(ws, es, length, n - 1);
      assert StepAt(ws, es, length, n - 1);
      assert es[n - 1].now <= es[n].now;
    }
  }

  /** A store that may forget expired windows answers exactly as the plain counter does. */
  lemma RunMatchesReference(ws: seq<Option<Window>>, es: seq<Event>, length: int, n: nat)
    requires Run(ws, es, length) && ws[0] == None && n < |es|
    ensures es[n] == Answered(es, length, n)
  {
    LiveMatchesReference(ws, es, length, n);
    assert StepAt(ws, es, length, n);
  }

  /** The same operation with its time in another unit. */
  predicate Rescaled(fine: Event, coarse: Event, unit: int) {
    && fine.now == unit * coarse.now
    && (fine.HitAt? <==> coarse.HitAt?) && (fine.GetAt? <==> coarse.GetAt?) && (fine.ClearedAt? <==> coarse.ClearedAt?)
  }

  function Scale(w: Option<Window>, unit: int): (r: Option<Window>) {
    if w.Some? then Some(Window(unit * w.value.started, unit * w.value.expires, w.value.count)) else None
  }

  lemma AttemptScales(w: Option<Window>, now: int, length: int, unit: int)
    requires unit > 0
    ensures Scale(Some(Attempt(w, now, length)), unit) == Some(Attempt(Scale(w, unit), unit * now, unit * length))
    ensures Scale(Live(w, now), unit) == Live(Scale(w, unit), unit * now)
  {
    assert unit * (now + length) == unit * now + unit * length;
    if w.Some? {
      assert now < w.value.expires <==> unit * now < unit * w.value.expires;
    }
  }

  lemma {:induction false} ReferenceScales(fine: seq<Event>, coarse: seq<Event>, length: int, unit: int, n: nat)
    requires unit > 0 && n <= |fine| == |coarse|
    requires forall i :: 0 <= i < |fine| ==> Rescaled(fine[i], coarse[i], unit)
    ensures Reference(fine, unit * length, n) == Scale(Reference(coarse, length, n), unit)
  {
    if n > 0 {
      ReferenceScales(fine, coarse, length, unit, n - 1);
      assert Rescaled(fine[n - 1], coarse[n - 1], unit);
      AttemptScales(Reference(coarse, length, n - 1), coarse[n - 1].now, length, unit);
    }
  }

  /** A store that counts in coarser units gives the same answers to operations on whole units. */
  lemma AnswersScale(fine: seq<Event>, coarse: seq<Event>, length: int, unit: int, n: nat)
    requires unit > 0 && n < |fine| == |coarse|
    requires forall i :: 0 <= i < |fine| ==> Rescaled(fine[i], coarse[i], unit)
    ensures var f, c := Answered(fine, unit * length, n), Answered(coarse, length, n);
            && (c.HitAt? ==> f.HitAt? && f.hit == Hit(c.hit.count, unit * c.hit.started))
            && (c.GetAt? ==>
                  && f.GetAt?
                  && f.seen == (if c.seen.None? then None
                                else Some(Hit(c.seen.value.count, unit * c.seen.value.started))))
  {
    ReferenceScales(fine, coarse, length, unit, n);
    assert Rescaled(fine[n], coarse[n], unit);
    AttemptScales(Reference(coarse, length, n), coarse[n].now, length, unit);
  }
}
