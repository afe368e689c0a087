/**
 What a logout can cost a later revocation. Logout deletes the record before the issuer
 accepts the logout, so a session whose acceptance fails is alive and unrecorded.
 */
module SsoLogouts {
  import opened Wrappers
  import opened SsoRevocation
  import opened SsoRevocationRuns

  /**
   The run, for any session: it is recorded, a logout deletes its record, the issuer
   does not accept the logout, and RevokeUser finds nothing to revoke and returns nil.
   */
  lemma LogoutHidesASession(sid: string, user: int) returns (states: seq<State>, acts: seq<Action>)
    requires user > 0
    ensures Execution(states, acts) && |acts| == 6 && Recorded(states[1], sid, user)
    ensures ReturnedNil(states[6], 1) && (forall i :: 0 <= i < 6 ==> !acts[i].Revoke?)
    ensures sid !in states[6].over
  {
    acts := [SignIn(sid, user), LogoutForget(0, sid, Done), LogoutAccept(0, Failed),
             Start(1, user), List(1, [], Done), Withdraw(1, Done)];
    var s0 := State(map[], {}, {}, map[], map[]);
    var s1 := s0.(records := map[sid := user]);
    var s2 := s0.(logouts := map[0 := Logout(sid, false)]);
    var s3 := s0.(logouts := map[0 := Logout(sid, true)]);
    var s4 := s3.(calls := map[1 := Call(user, [], Listing, false)]);
    var s5 := s3.(calls := map[1 := Call(user, [], Consents, false)]);
    var s6 := s3.(calls := map[1 := Call(user, [], Returned, false)], withdrawn := {user});
    states := [s0, s1, s2, s3, s4, s5, s6];
    assert Next(s0, acts[0]) == s1 && Next(s1, acts[1]) == s2 && Next(s2, acts[2]) == s3;
    assert Next(s3, acts[3]) == s4 && Next(s4, acts[4]) == s5 && Next(s5, acts[5]) == s6;
    assert StepAt(states, acts, 0) && StepAt(states, acts, 1) && StepAt(states, acts, 2);
    assert StepAt(states, acts, 3) && StepAt(states, acts, 4) && StepAt(states, acts, 5);
  }

  /** A run continued by one new RevokeUser call that works alone and returns nil. */
  ghost predicate NilAlone(
    states: seq<State>, acts: seq<Action>, c: int, user: int, longer: seq<State>, more: seq<Action>)
  {
    && Execution(longer, more) && states <= longer && acts <= more && |acts| < |more|
    && more[|acts|] == Start(c, user)
    && (forall i :: |acts| < i < |more| ==> ByCall(more[i], c))
    && ReturnedNil(longer[|more|], c)
  }

  /** Such a call can return nil and leave the session alive. */
  ghost predicate CanBeLeftAlive(states: seq<State>, acts: seq<Action>, c: int, user: int, sid: string) {
    exists longer: seq<State>, more: seq<Action> ::
      NilAlone(states, acts, c, user, longer, more) && sid !in longer[|more|].over
  }

  lemma Append(states: seq<State>, acts: seq<Action>, a: Action)
    requires Execution(states, acts) && Enabled(states[|acts|], a)
    ensures Execution(states + [Next(states[|acts|], a)], acts + [a])
  {
    var longer, more := states + [Next(states[|acts|], a)], acts + [a];
    forall i | 0 <= i < |more|
      ensures StepAt(longer, more, i)
    {
      if i < |acts| {
        assert StepAt(states, acts, i);
      }
    }
  }

  lemma {:induction false} Ordered(sids: set<string>) returns (order: seq<string>)
    ensures forall sid :: sid in order <==> sid in sids
  {
    if sids == {} {
      order := [];
    } else {
      var sid :| sid in sids;
      order := Ordered(sids - {sid});
      order := order + [sid];
    }
  }

  /** The rest of a call whose requests all succeed: only listed sessions are ended. */
  lemma {:induction false} LoopRuns(states: seq<State>, acts: seq<Action>, c: int, k: nat)
    returns (longer: seq<State>, more: seq<Action>)
    requires Execution(states, acts) && c in states[|acts|].calls
    requires var call := states[|acts|].calls[c]; k <= |call.sids| && !call.failed && call.phase == At(k, call.sids)
    ensures Execution(longer, more) && states <= longer && acts <= more
    ensures forall i :: |acts| <= i < |more| ==> ByCall(more[i], c)
    ensures ReturnedNil(longer[|more|], c)
    ensures forall sid :: sid in longer[|more|].over ==>
            sid in states[|acts|].over || sid in states[|acts|].calls[c].sids
    decreases |states[|acts|].calls[c].sids| - k
  {
    var call := states[|acts|].calls[c];
    if k == |call.sids| {
      Append(states, acts, Withdraw(c, Done));
      longer, more := states + [Next(states[|acts|], Withdraw(c, Done))], acts + [Withdraw(c, Done)];
    } else {
      Append(states, acts, Revoke(c, Done));
      var s1, a1 := states + [Next(states[|acts|], Revoke(c, Done))], acts + [Revoke(c, Done)];
      Append(s1, a1, Forget(c, Done));
      var s2, a2 := s1 + [Next(s1[|a1|], Forget(c, Done))], a1 + [Forget(c, Done)];
      longer, more := LoopRuns(s2, a2, c, k + 1);
    }
  }

  /** A call can run alone and succeed; it ends nothing but the sessions recorded for the account. */
  lemma CallAlone(states: seq<State>, acts: seq<Action>, c: int, user: int)
    returns (longer: seq<State>, more: seq<Action>)
    requires Execution(states, acts) && c !in states[|acts|].calls && user > 0
    ensures NilAlone(states, acts, c, user, longer, more)
    ensures forall sid :: sid in longer[|more|].over ==>
            sid in states[|acts|].over || Recorded(states[|acts|], sid, user)
  {
    var s := states[|acts|];
    var sids := Ordered(set sid | sid in s.records && s.records[sid] == user);
    Append(states, acts, Start(c, user));
    var s1, a1 := states + [Next(s, Start(c, user))], acts + [Start(c, user)];
    assert Lists(s1[|a1|], user, sids);
    Append(s1, a1, List(c, sids, Done));
    var s2, a2 := s1 + [Next(s1[|a1|], List(c, sids, Done))], a1 + [List(c, sids, Done)];
    longer, more := LoopRuns(s2, a2, c, 0);
  }

  lemma NothingDropped(states: seq<State>, acts: seq<Action>, c: int, user: int, longer: seq<State>,
      more: seq<Action>, sid: string)
    requires NilAlone(states, acts, c, user, longer, more)
    ensures !Dropped(more, |acts|, |more|, sid)
  {
  }

  /**
   When a RevokeUser call that starts now and runs alone can return nil and leave a
   session alive: exactly when the session is alive and not recorded for the account.
   */
  lemma NilCanLeaveAliveIff(states: seq<State>, acts: seq<Action>, c: int, user: int, sid: string)
    requires Execution(states, acts) && c !in states[|acts|].calls && user > 0
    ensures CanBeLeftAlive(states, acts, c, user, sid) <==>
      sid !in states[|acts|].over && !Recorded(states[|acts|], sid, user)
  {
    if sid !in states[|acts|].over && !Recorded(states[|acts|], sid, user) {
      var longer, more := CallAlone(states, acts, c, user);
      assert NilAlone(states, acts, c, user, longer, more) && sid !in longer[|more|].over;
    }
    forall longer: seq<State>, more: seq<Action>
      | NilAlone(states, acts, c, user, longer, more) && sid !in longer[|more|].over
      ensures sid !in states[|acts|].over && !Recorded(states[|acts|], sid, user)
    {
      assert longer[|acts|] == states[|acts|];
      NothingDropped(states, acts, c, user, longer, more, sid);
      if sid in states[|acts|].over {
        OverStaysOver(longer, more, |acts|, |more|, sid);
      }
      if Recorded(states[|acts|], sid, user) {
        NilEndsEverySession(longer, more, |acts|, |more|, c, user, sid);
      }
    }
  }

  /**
   For a session that was recorded for the account and that no sign-in recorded again:
   exactly when it is alive and a logout deleted its record.
   */
  lemma HiddenIffLogoutDeletedIt(states: seq<State>, acts: seq<Action>, j: nat, c: int, user: int, sid: string)
    requires Execution(states, acts) && c !in states[|acts|].calls && user > 0
    requires j <= |acts| && Recorded(states[j], sid, user) && NotRecordedAgain(acts, j, |acts|, sid)
    ensures CanBeLeftAlive(states, acts, c, user, sid) <==>
      sid !in states[|acts|].over && Dropped(acts, j, |acts|, sid)
  {
    NilCanLeaveAliveIff(states, acts, c, user, sid);
    if sid !in states[|acts|].over {
      ForgottenAliveIff(states, acts, j, |acts|, sid);
      RecordedEndedOrDropped(states, acts, j, |acts|, sid);
    }
  }
}
