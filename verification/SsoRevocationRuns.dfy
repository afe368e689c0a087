/**
 RevokeUser calls that overlap with each other, with sign-ins that record new sessions
 and with logouts, one action per request. Every request of a call or of a logout may
 fail, or take effect and lose its answer; a sign-in whose record fails is no action.
 */
module SsoRevocationRuns {
  import opened Wrappers
  import opened SsoRevocation

  /** `k` sessions are dealt with; `ended` says that the next one's revocation succeeded. */
  datatype Phase = Listing | Revoking(k: nat, ended: bool) | Consents | Returned

  datatype Call = Call(user: int, sids: seq<string>, phase: Phase, failed: bool)

  /** A logout between its two requests, or after the second. */
  datatype Logout = Logout(sid: string, answered: bool)

  /** Recorded sessions, sessions the issuer has ended, withdrawn consents, calls and logouts. */
  datatype State = State(
    records: map<string, int>, over: set<string>, withdrawn: set<int>, calls: map<int, Call>, logouts: map<int, Logout>)

  datatype Action =
    | SignIn(sid: string, user: int)
    | LogoutForget(logout: int, sid: string, outcome: Outcome)
    | LogoutAccept(logout: int, outcome: Outcome)
    | Start(call: int, user: int)
    | List(call: int, sids: seq<string>, outcome: Outcome)
    | Revoke(call: int, outcome: Outcome)
    | Forget(call: int, outcome: Outcome)
    | Withdraw(call: int, outcome: Outcome)

  predicate Recorded(s: State, sid: string, user: int) {
    sid in s.records && s.records[sid] == user
  }

  /** The listing of an account, in some order. */
  ghost predicate Lists(s: State, user: int, sids: seq<string>) {
    forall sid :: sid in sids <==> Recorded(s, sid, user)
  }

  ghost predicate Enabled(s: State, a: Action) {
    match a
    case SignIn(_, user) => user > 0
    case LogoutForget(l, _, _) => l !in s.logouts
    case LogoutAccept(l, _) => l in s.logouts && !s.logouts[l].answered
    case Start(c, user) => c !in s.calls && user > 0
    case List(c, sids, _) => c in s.calls && s.calls[c].phase.Listing? && Lists(s, s.calls[c].user, sids)
    case Revoke(c, _) =>
      c in s.calls && s.calls[c].phase.Revoking? && !s.calls[c].phase.ended && s.calls[c].phase.k < |s.calls[c].sids|
    case Forget(c, _) =>
      c in s.calls && s.calls[c].phase.Revoking? && s.calls[c].phase.ended && s.calls[c].phase.k < |s.calls[c].sids|
    case Withdraw(c, _) => c in s.calls && s.calls[c].phase.Consents?
  }

  /** The loop goes on to its k-th session, or is over. */
  function At(k: nat, sids: seq<string>): (r: Phase) {
    if k < |sids| then Revoking(k, false) else Consents
  }

  /** Logout deletes first, whatever comes of it, and then accepts. */
  ghost function Next(s: State, a: Action): (r: State)
    requires Enabled(s, a)
  {
    match a
    case SignIn(sid, user) => if sid in s.records then s else s.(records := s.records[sid := user])
    case LogoutForget(l, sid, outcome) =>
      var t := if outcome.Failed? then s else s.(records := s.records - {sid});
      t.(logouts := s.logouts[l := Logout(sid, false)])
    case LogoutAccept(l, outcome) =>
      var t := if outcome.Failed? then s else s.(over := s.over + {s.logouts[l].sid});
      t.(logouts := s.logouts[l := s.logouts[l].(answered := true)])
    case Start(c, user) => s.(calls := s.calls[c := Call(user, [], Listing, false)])
    case List(c, sids, outcome) =>
      var call := s.calls[c];
      if outcome.Done?
      then s.(calls := s.calls[c := call.(sids := sids, phase := At(0, sids))])
      else s.(calls := s.calls[c := call.(phase := Returned, failed := true)])
    case Revoke(c, outcome) =>
      var call := s.calls[c];
      var t := if outcome.Failed? then s else s.(over := s.over + {call.sids[call.phase.k]});
      if outcome.Done?
      then t.(calls := s.calls[c := call.(phase := Revoking(call.phase.k, true))])
      else t.(calls := s.calls[c := call.(phase := At(call.phase.k + 1, call.sids), failed := true)])
    case Forget(c, outcome) =>
      var call := s.calls[c];
      var t := if outcome.Failed? then s else s.(records := s.records - {call.sids[call.phase.k]});
      t.(calls := s.calls[c := call.(
           phase := At(call.phase.k + 1, call.sids), failed := call.failed || !outcome.Done?)])
    case Withdraw(c, outcome) =>
      var call := s.calls[c];
      var t := if outcome.Failed? then s else s.(withdrawn := s.withdrawn + {call.user});
      t.(calls := s.calls[c := call.(phase := Returned, failed := call.failed || !outcome.Done?)])
  }

  ghost predicate StepAt(states: seq<State>, acts: seq<Action>, i: nat)
    requires |states| == |acts| + 1 && i < |acts|
  {
    Enabled(states[i], acts[i]) && states[i + 1] == Next(states[i], acts[i])
  }

  ghost predicate Execution(states: seq<State>, acts: seq<Action>) {
    && |states| == |acts| + 1
    && states[0] == State(map[], {}, {}, map[], map[])
    && forall i :: 0 <= i < |acts| ==> StepAt(states, acts, i)
  }

  predicate ReturnedNil(s: State, c: int) {
    c in s.calls && s.calls[c].phase.Returned? && !s.calls[c].failed
  }

  /** How many listed sessions a call without failures has had revoked. */
  function Progress(call: Call): (r: nat) {
    match call.phase
    case Listing => 0
    case Revoking(k, ended) => if ended then k + 1 else k
    case Consents => |call.sids|
    case Returned => |call.sids|
  }

  ghost predicate CallOk(s: State, c: int)
    requires c in s.calls
  {
    var call := s.calls[c];
    && (call.phase.Revoking? ==> call.phase.k < |call.sids|)
    && (call.phase.Revoking? && call.phase.ended ==> call.sids[call.phase.k] in s.over)
    && (call.phase.Listing? ==> call.sids == [])
    && (!call.failed ==> forall k :: 0 <= k < |call.sids| && k < Progress(call) ==> call.sids[k] in s.over)
    && (!call.failed && call.phase.Returned? ==> call.user in s.withdrawn)
  }

  ghost predicate Inv(s: State) {
    forall c :: c in s.calls ==> CallOk(s, c)
  }

  /** The call whose request this is. */
  predicate ByCall(a: Action, c: int) {
    (a.List? || a.Revoke? || a.Forget? || a.Withdraw?) && a.call == c
  }

  lemma OthersKeep(s: State, a: Action, c: int)
    requires Inv(s) && Enabled(s, a) && c in s.calls && !ByCall(a, c) && a != Start(c, if a.Start? then a.user else 0)
    ensures c in Next(s, a).calls && CallOk(Next(s, a), c)
  {
    assert CallOk(s, c);
    assert s.over <= Next(s, a).over && s.withdrawn <= Next(s, a).withdrawn;
  }

  lemma RevokeKeeps(s: State, c: int, outcome: Outcome)
    requires Inv(s) && Enabled(s, Revoke(c, outcome))
    ensures CallOk(Next(s, Revoke(c, outcome)), c)
  {
    assert CallOk(s, c);
  }

  lemma OwnKeeps(s: State, a: Action, c: int)
    requires Inv(s) && Enabled(s, a) && (ByCall(a, c) || (a.Start? && a.call == c)) && !a.Revoke?
    ensures CallOk(Next(s, a), c)
  {
    if !a.Start? {
      assert CallOk(s, c);
    }
  }

  lemma StepKeeps(s: State, a: Action)
    requires Inv(s) && Enabled(s, a)
    ensures Inv(Next(s, a))
  {
    var t := Next(s, a);
    forall c | c in t.calls
      ensures CallOk(t, c)
    {
      if ByCall(a, c) && a.Revoke? {
        RevokeKeeps(s, c, a.outcome);
      } else if ByCall(a, c) || (a.Start? && a.call == c) {
        OwnKeeps(s, a, c);
      } else {
        OthersKeep(s, a, c);
      }
    }
  }

  lemma {:induction false} ReachableInv(states: seq<State>, acts: seq<Action>, n: nat)
    requires Execution(states, acts) && n < |states|
    ensures Inv(states[n])
  {
    if n > 0 {
      ReachableInv(states, acts, n - 1);
      assert StepAt(states, acts, n - 1);
      StepKeeps(states[n - 1], acts[n - 1]);
    }
  }

  lemma {:induction false} OverStaysOver(states: seq<State>, acts: seq<Action>, n: nat, m: nat, sid: string)
    requires Execution(states, acts) && n <= m < |states| && sid in states[n].over
    ensures sid in states[m].over
    decreases m - n
  {
    if n < m {
      OverStaysOver(states, acts, n, m - 1, sid);
      assert StepAt(states, acts, m - 1);
    }
  }

  /** A logout deleted the session's record between two moments. */
  predicate LogoutDeletes(a: Action, sid: string) {
    a.LogoutForget? && a.sid == sid && !a.outcome.Failed?
  }

  ghost predicate Dropped(acts: seq<Action>, n: nat, m: nat, sid: string)
    requires n <= m <= |acts|
  {
    exists i :: n <= i < m && LogoutDeletes(acts[i], sid)
  }

  /**
   What becomes of a recorded session: it is still recorded for its account, or the
   issuer has ended it, or a logout deleted its record. No RevokeUser forgets a session
   whose revocation it did not see succeed.
   */
  lemma {:induction false} RecordedEndedOrDropped(
    states: seq<State>, acts: seq<Action>, n: nat, m: nat, sid: string)
    requires Execution(states, acts) && n <= m < |states| && sid in states[n].records
    ensures sid in states[m].over || Recorded(states[m], sid, states[n].records[sid]) || Dropped(acts, n, m, sid)
    decreases m - n
  {
    if n < m {
      RecordedEndedOrDropped(states, acts, n, m - 1, sid);
      ReachableInv(states, acts, m - 1);
      assert StepAt(states, acts, m - 1);
      var a := acts[m - 1];
      if a.Forget? {
        assert CallOk(states[m - 1], a.call);
      }
      if Dropped(acts, n, m - 1, sid) {
        var i :| n <= i < m - 1 && LogoutDeletes(acts[i], sid);
      }
      if LogoutDeletes(a, sid) {
        assert Dropped(acts, n, m, sid);
      }
    }
  }

  ghost predicate NotRecordedAgain(acts: seq<Action>, n: nat, m: nat, sid: string)
    requires n <= m <= |acts|
  {
    forall i :: n <= i < m ==> !(acts[i].SignIn? && acts[i].sid == sid)
  }

  lemma {:induction false} AbsentUntilRecordedAgain(
    states: seq<State>, acts: seq<Action>, n: nat, m: nat, sid: string)
    requires Execution(states, acts) && n <= m < |states| && sid !in states[n].records
    requires NotRecordedAgain(acts, n, m, sid)
    ensures sid !in states[m].records
    decreases m - n
  {
    if n < m {
      AbsentUntilRecordedAgain(states, acts, n, m - 1, sid);
      assert StepAt(states, acts, m - 1);
    }
  }

  /**
   A session that the issuer has not ended loses its record exactly when a logout
   deletes it: then its acceptance has not taken effect, and nothing remembers it.
   */
  lemma ForgottenAliveIff(states: seq<State>, acts: seq<Action>, n: nat, m: nat, sid: string)
    requires Execution(states, acts) && n <= m < |states| && sid in states[n].records
    requires sid !in states[m].over && NotRecordedAgain(acts, n, m, sid)
    ensures sid !in states[m].records <==> Dropped(acts, n, m, sid)
  {
    RecordedEndedOrDropped(states, acts, n, m, sid);
    if Dropped(acts, n, m, sid) {
      var i :| n <= i < m && LogoutDeletes(acts[i], sid);
      assert StepAt(states, acts, i);
      AbsentUntilRecordedAgain(states, acts, i + 1, m, sid);
    }
  }

  /** A call has failed iff one of its own requests did not report success. */
  lemma {:induction false} FailedIff(states: seq<State>, acts: seq<Action>, n: nat, c: int)
    requires Execution(states, acts) && n < |states| && c in states[n].calls
    ensures states[n].calls[c].failed <==> exists i :: 0 <= i < n && ByCall(acts[i], c) && !acts[i].outcome.Done?
  {
    assert n > 0;
    assert StepAt(states, acts, n - 1);
    if c in states[n - 1].calls {
      FailedIff(states, acts, n - 1, c);
    } else {
      NoRequestsYet(states, acts, n - 1, c);
    }
  }

  lemma {:induction false} NoRequestsYet(states: seq<State>, acts: seq<Action>, n: nat, c: int)
    requires Execution(states, acts) && n < |states| && c !in states[n].calls
    ensures forall i :: 0 <= i < n ==> !ByCall(acts[i], c)
  {
    if n > 0 {
      assert StepAt(states, acts, n - 1);
      NoRequestsYet(states, acts, n - 1, c);
    }
  }

  /** RevokeUser returns nil iff its listing, every revocation, every deletion and the consents succeeded. */
  lemma NilIffEverySucceeded(states: seq<State>, acts: seq<Action>, n: nat, c: int)
    requires Execution(states, acts) && n < |states| && c in states[n].calls && states[n].calls[c].phase.Returned?
    ensures ReturnedNil(states[n], c) <==> forall i :: 0 <= i < n && ByCall(acts[i], c) ==> acts[i].outcome.Done?
  {
    FailedIff(states, acts, n, c);
  }

  /** Before the listing the session is over, recorded or dropped; after it, over, listed or dropped. */
  ghost predicate Covers(s: State, c: int, user: int, sid: string, dropped: bool) {
    && c in s.calls && s.calls[c].user == user
    && (s.calls[c].phase.Listing? ==> sid in s.over || Recorded(s, sid, user) || dropped)
    && (!s.calls[c].phase.Listing? && !s.calls[c].failed ==> sid in s.over || sid in s.calls[c].sids || dropped)
  }

  lemma {:induction false} CoverageKept(
    states: seq<State>, acts: seq<Action>, n: nat, m: nat, c: int, user: int, sid: string)
    requires Execution(states, acts) && n < m < |states| && acts[n] == Start(c, user) && Recorded(states[n], sid, user)
    ensures Covers(states[m], c, user, sid, Dropped(acts, n, m, sid))
    decreases m - n
  {
    assert StepAt(states, acts, n);
    assert StepAt(states, acts, m - 1);
    RecordedEndedOrDropped(states, acts, n, m, sid);
    if m > n + 1 {
      CoverageKept(states, acts, n, m - 1, c, user, sid);
      if Dropped(acts, n, m - 1, sid) {
        var i :| n <= i < m - 1 && LogoutDeletes(acts[i], sid);
        assert Dropped(acts, n, m, sid);
      }
    }
  }

  /**
   A call that returns nil has withdrawn the account's consents and ended every session
   recorded for the account when it started, except those whose record a logout deleted
   meanwhile.
   */
  lemma NilEndsEverySession(
    states: seq<State>, acts: seq<Action>, n: nat, m: nat, c: int, user: int, sid: string)
    requires Execution(states, acts) && n < m < |states| && acts[n] == Start(c, user) && ReturnedNil(states[m], c)
    requires Recorded(states[n], sid, user)
    ensures sid in states[m].over || Dropped(acts, n, m, sid)
    ensures user in states[m].withdrawn
  {
    CoverageKept(states, acts, n, m, c, user, sid);
    ReachableInv(states, acts, m);
    assert CallOk(states[m], c);
    var call := states[m].calls[c];
    if sid in call.sids {
      var k :| 0 <= k < |call.sids| && call.sids[k] == sid;
    }
  }

  /** So retrying until nil ends every session recorded at any earlier time whose record no
      logout deleted, whatever the earlier calls failed at. */
  lemma RetryUntilNilEndsEverySession(
    states: seq<State>, acts: seq<Action>, j: nat, n: nat, m: nat, c: int, user: int, sid: string)
    requires Execution(states, acts) && j <= n < m < |states|
    requires acts[n] == Start(c, user) && ReturnedNil(states[m], c)
    requires Recorded(states[j], sid, user)
    ensures sid in states[m].over || Dropped(acts, j, m, sid)
  {
    RecordedEndedOrDropped(states, acts, j, n, sid);
    if sid in states[n].over {
      OverStaysOver(states, acts, n, m, sid);
    } else if Dropped(acts, j, n, sid) {
      var i :| j <= i < n && LogoutDeletes(acts[i], sid);
      assert Dropped(acts, j, m, sid);
    } else {
      NilEndsEverySession(states, acts, n, m, c, user, sid);
      if Dropped(acts, n, m, sid) {
        var i :| n <= i < m && LogoutDeletes(acts[i], sid);
        assert Dropped(acts, j, m, sid);
      }
    }
  }

  /** The session a call's loop is at. */
  predicate IsAt(s: State, c: int, sid: string) {
    && c in s.calls && s.calls[c].phase.Revoking? && s.calls[c].phase.k < |s.calls[c].sids|
    && s.calls[c].sids[s.calls[c].phase.k] == sid
  }

  /** A request that ends a session: a revocation, or a logout's acceptance, that took effect. */
  predicate Ends(s: State, a: Action, sid: string) {
    || (a.LogoutAccept? && a.logout in s.logouts && !a.outcome.Failed? && s.logouts[a.logout].sid == sid)
    || (a.Revoke? && !a.outcome.Failed? && IsAt(s, a.call, sid))
  }

  /** A request that deletes a session's record. */
  predicate Deletes(s: State, a: Action, sid: string) {
    LogoutDeletes(a, sid) || (a.Forget? && !a.outcome.Failed? && IsAt(s, a.call, sid))
  }

  /** What a request does to a session: it ends, is recorded and is forgotten by nothing else. */
  lemma SessionAfter(states: seq<State>, acts: seq<Action>, n: nat, sid: string, user: int)
    requires Execution(states, acts) && n < |acts|
    ensures sid in states[n + 1].over <==> sid in states[n].over || Ends(states[n], acts[n], sid)
    ensures Recorded(states[n + 1], sid, user)
       <==> || (acts[n] == SignIn(sid, user) && sid !in states[n].records)
            || (Recorded(states[n], sid, user) && !Deletes(states[n], acts[n], sid))
  {
    assert StepAt(states, acts, n);
    ReachableInv(states, acts, n);
    if acts[n].Revoke? || acts[n].Forget? {
      assert CallOk(states[n], acts[n].call);
    }
  }

  /** An account's consents are withdrawn by a call for it that comes to them. */
  lemma WithdrawnAfter(states: seq<State>, acts: seq<Action>, n: nat, user: int)
    requires Execution(states, acts) && n < |acts|
    ensures user in states[n + 1].withdrawn <==>
              || user in states[n].withdrawn
              || (acts[n].Withdraw? && !acts[n].outcome.Failed? && acts[n].call in states[n].calls
                  && states[n].calls[acts[n].call].user == user)
  {
    assert StepAt(states, acts, n);
  }

  /** How far a call is, counting its listing, two requests for each session, and the consents. */
  function Place(call: Call): (r: nat) {
    match call.phase
    case Listing => 0
    case Revoking(k, ended) => if ended then 2 + 2 * k else 1 + 2 * k
    case Consents => 1 + 2 * |call.sids|
    case Returned => 2 + 2 * |call.sids|
  }

  /**
   The order of a call's requests: it lists the account's sessions or gives up; a session
   whose revocation reports no success is passed over with its record; nothing is asked
   twice; and a call that has listed goes on to the consents whatever fails.
   */
  lemma RequestsInOrder(states: seq<State>, acts: seq<Action>, n: nat, c: int)
    requires Execution(states, acts) && n < |acts| && ByCall(acts[n], c)
    ensures c in states[n].calls && c in states[n + 1].calls
    ensures var a, was, now := acts[n], states[n].calls[c], states[n + 1].calls[c];
            && now.user == was.user && now.failed == (was.failed || !a.outcome.Done?)
            && (a.List? ==> Place(was) == 0
                            && (if a.outcome.Done? then now.sids == a.sids && Place(now) == 1
                                else now.phase == Returned))
            && (!a.List? ==> now.sids == was.sids
                             && Place(now) == Place(was) + if a.Revoke? && !a.outcome.Done? then 2 else 1)
            && (a.Revoke? <==> Place(was) % 2 == 1 && Place(was) < 1 + 2 * |was.sids|)
            && (a.Forget? <==> Place(was) % 2 == 0 && 0 < Place(was) < 1 + 2 * |was.sids|)
            && (a.Withdraw? <==> Place(was) == 1 + 2 * |was.sids|)
  {
    assert StepAt(states, acts, n);
    ReachableInv(states, acts, n);
    assert CallOk(states[n], c);
  }
}
