/**
 What a redemption and an upgrade answer, from the calls they made alone: each call is
 one action among those of everybody else, and any of them may fail.
 */
module GuestAnswers {
  import opened Wrappers
  import opened GuestTransfer
  import Sets

  predicate Unrevoked(s: State, code: string) {
    code in s.codes && !s.codes[code].revoked
  }

  predicate GuestAt(s: State, user: int) {
    user in s.accounts && s.accounts[user].isGuest
  }

  /** A call, and the state it was made in. */
  datatype Call = Call(before: State, action: Action)

  function Until(at: seq<nat>, m: nat, x: int): (r: nat) {
    if 0 <= x < |at| - 1 then at[x + 1] else m
  }

  ghost predicate InRange(acts: seq<Action>, at: seq<nat>) {
    forall x :: 0 <= x < |at| ==> at[x] < |acts|
  }

  /** The x-th action of redemption r is at its position, and none comes before the next position. */
  ghost predicate RedeemedAt(acts: seq<Action>, at: seq<nat>, m: nat, r: int, x: nat)
    requires x < |at|
  {
    && at[x] < Until(at, m, x) <= m && m <= |acts| && MovesRedeem(acts[at[x]], r)
    && forall k :: at[x] < k < Until(at, m, x) ==> !MovesRedeem(acts[k], r)
  }

  /** The actions of redemption r before the m-th are exactly those at these positions; the first begins it. */
  ghost predicate Redemption(acts: seq<Action>, at: seq<nat>, m: nat, r: int, code: string) {
    && at != [] && m <= |acts| && InRange(acts, at) && acts[at[0]] == BeginRedeem(r, code)
    && forall x :: 0 <= x < |at| ==> RedeemedAt(acts, at, m, r, x)
  }

  /** The same for upgrade u. */
  ghost predicate UpgradedAt(acts: seq<Action>, at: seq<nat>, m: nat, u: int, x: nat)
    requires x < |at|
  {
    && at[x] < Until(at, m, x) <= m && m <= |acts| && MovesUpgrade(acts[at[x]], u)
    && forall k :: at[x] < k < Until(at, m, x) ==> !MovesUpgrade(acts[k], u)
  }

  ghost predicate Upgrading(acts: seq<Action>, at: seq<nat>, m: nat, u: int, user: int) {
    && at != [] && m <= |acts| && InRange(acts, at) && acts[at[0]] == BeginUpgrade(u, user)
    && forall x :: 0 <= x < |at| ==> UpgradedAt(acts, at, m, u, x)
  }

  /** The calls after the beginning. */
  ghost function Calls(states: seq<State>, acts: seq<Action>, at: seq<nat>): (r: seq<Call>)
    requires |states| == |acts| + 1 && at != [] && InRange(acts, at)
  {
    seq(|at| - 1, x requires 0 <= x < |at| - 1 => CallAt(states, acts, at, x))
  }

  ghost function CallAt(states: seq<State>, acts: seq<Action>, at: seq<nat>, x: nat): (r: Call)
    requires |states| == |acts| + 1 && InRange(acts, at) && x < |at| - 1
  {
    Call(states[at[x + 1]], acts[at[x + 1]])
  }

  /** The first three calls succeed and find an unrevoked code and its owner a guest. */
  predicate OpensSession(calls: seq<Call>, code: string) {
    && |calls| > 2 && calls[0].action.RedeemStep? && calls[1].action.RedeemStep? && calls[2].action.RedeemStep?
    && Unrevoked(calls[0].before, code) && GuestAt(calls[1].before, calls[0].before.codes[code].owner)
  }

  /** The fourth call succeeds and finds the code still unrevoked. */
  predicate CodeStillGood(calls: seq<Call>, code: string) {
    |calls| > 3 && calls[3].action.RedeemStep? && Unrevoked(calls[3].before, code)
  }

  lemma {:induction false} RedeemStays(states: seq<State>, acts: seq<Action>, i: nat, j: nat, r: int)
    requires Execution(states, acts) && i <= j <= |acts| && r in states[i].redeems
    requires forall k :: i <= k < j ==> !MovesRedeem(acts[k], r)
    ensures r in states[j].redeems && states[j].redeems[r] == states[i].redeems[r]
    decreases j
  {
    if i < j {
      RedeemStays(states, acts, i, j - 1, r);
      assert Enabled(states[j - 1], acts[j - 1]);
      OneRedeemMoves(states[j - 1], acts[j - 1]);
    }
  }

  /** How one call moves a redemption from p to q. */
  predicate Moves(call: Call, p: Redeem, q: Redeem) {
    && (call.action.RedeemStep? || call.action.RedeemFails?)
    && var step, s := call.action.RedeemStep?, call.before;
       match p
       case FindCode(code) =>
         q == if step && Unrevoked(s, code) then FindGuest(code, s.codes[code].owner) else Done(code, None, Rejected)
       case FindGuest(code, owner) =>
         q == if step && GuestAt(s, owner) then OpenSession(code, owner) else Done(code, None, Rejected)
       case OpenSession(code, _) => q == if step then MarkUsed(code, call.action.newSid) else Done(code, None, Rejected)
       case MarkUsed(code, sid) =>
         q == if step && Unrevoked(s, code) then Done(code, Some(sid), Opened) else RevokeOpened(code, sid)
       case RevokeOpened(code, sid) => q == Done(code, Some(sid), if step then Compensated else CompensationFailed)
       case Done(_, _, _) => false
  }

  lemma CallMoves(s: State, a: Action, r: int)
    requires Enabled(s, a) && MovesRedeem(a, r) && r in s.redeems
    ensures r in Next(s, a).redeems && Moves(Call(s, a), s.redeems[r], Next(s, a).redeems[r])
  {
  }

  /** Each call takes up where the one before it stopped. */
  lemma NextCall(states: seq<State>, acts: seq<Action>, at: seq<nat>, m: nat, r: int, code: string, x: nat)
    requires Execution(states, acts) && Redemption(acts, at, m, r, code) && x < |at|
    requires x > 0 ==> r in states[at[x]].redeems
    ensures Until(at, m, x) < |states| && r in states[Until(at, m, x)].redeems
    ensures var q := states[Until(at, m, x)].redeems[r];
            if x == 0 then q == FindCode(code)
            else Moves(CallAt(states, acts, at, x - 1), states[at[x]].redeems[r], q)
  {
    assert RedeemedAt(acts, at, m, r, x);
    var s, a := states[at[x]], acts[at[x]];
    assert Enabled(s, a) && states[at[x] + 1] == Next(s, a);
    if x > 0 {
      CallMoves(s, a, r);
    }
    RedeemStays(states, acts, at[x] + 1, Until(at, m, x), r);
  }

  /** The phase a redemption is left in by its n-th action. */
  ghost function PhaseAt(states: seq<State>, at: seq<nat>, m: nat, r: int, n: nat): (q: Redeem)
    requires Until(at, m, n) < |states| && r in states[Until(at, m, n)].redeems
  {
    states[Until(at, m, n)].redeems[r]
  }

  lemma {:induction false} Begun(states: seq<State>, acts: seq<Action>, at: seq<nat>, m: nat, r: int, code: string,
      n: nat)
    requires Execution(states, acts) && Redemption(acts, at, m, r, code) && n < |at|
    ensures Until(at, m, n) < |states| && r in states[Until(at, m, n)].redeems
  {
    if n > 0 {
      Begun(states, acts, at, m, r, code, n - 1);
      assert Until(at, m, n - 1) == at[n];
    }
    NextCall(states, acts, at, m, r, code, n);
  }

  /** The redemption is at phase p when it makes its next call. */
  ghost predicate CalledAt(states: seq<State>, at: seq<nat>, r: int, x: nat, p: Redeem)
    requires x < |at| - 1
  {
    at[x + 1] < |states| && r in states[at[x + 1]].redeems && states[at[x + 1]].redeems[r] == p
  }

  /** The phases a redemption goes through. */
  lemma Phases(states: seq<State>, acts: seq<Action>, at: seq<nat>, m: nat, r: int, code: string)
    returns (phases: seq<Redeem>)
    requires Execution(states, acts) && Redemption(acts, at, m, r, code)
    ensures |phases| == |at| && phases[0] == FindCode(code)
    ensures r in states[m].redeems && phases[|at| - 1] == states[m].redeems[r]
    ensures forall x :: 0 <= x < |at| - 1 ==> CalledAt(states, at, r, x, phases[x])
    ensures forall x :: 0 <= x < |at| - 1 ==> Moves(CallAt(states, acts, at, x), phases[x], phases[x + 1])
  {
    forall n | 0 <= n < |at|
      ensures Until(at, m, n) < |states| && r in states[Until(at, m, n)].redeems
    {
      Begun(states, acts, at, m, r, code, n);
    }
    assert Until(at, m, |at| - 1) == m;
    phases := seq(|at|, n requires 0 <= n < |at| => PhaseAt(states, at, m, r, n));
    NextCall(states, acts, at, m, r, code, 0);
    forall x | 0 <= x < |at| - 1
      ensures CalledAt(states, at, r, x, phases[x])
      ensures Moves(CallAt(states, acts, at, x), phases[x], phases[x + 1])
    {
      assert Until(at, m, x) == at[x + 1];
      NextCall(states, acts, at, m, r, code, x + 1);
    }
  }

  /** The outcome of a redemption that made these calls. */
  ghost predicate AnsweredBy(calls: seq<Call>, code: string, end: Redeem) {
    var opens, good := OpensSession(calls, code), CodeStillGood(calls, code);
    && end.Done? && end.code == code
    && end.session == (if opens then Some(calls[2].action.newSid) else None)
    && (end.outcome == Rejected <==> !opens)
    && (end.outcome == Opened <==> opens && good)
    && (end.outcome == Compensated <==> opens && !good && |calls| > 4 && calls[4].action.RedeemStep?)
    && (end.outcome == CompensationFailed <==> opens && !good && |calls| > 4 && calls[4].action.RedeemFails?)
  }

  lemma PhasesAnswer(calls: seq<Call>, phases: seq<Redeem>, code: string)
    requires |phases| == |calls| + 1 && phases[0] == FindCode(code) && phases[|calls|].Done?
    requires forall x :: 0 <= x < |calls| ==> Moves(calls[x], phases[x], phases[x + 1])
    ensures AnsweredBy(calls, code, phases[|calls|])
  {
    assert Moves(calls[0], phases[0], phases[1]);
    if !phases[1].Done? {
      assert Moves(calls[1], phases[1], phases[2]);
      if !phases[2].Done? {
        LateAnswer(calls, phases, code);
      }
    }
    Unfinished(calls, phases);
  }

  /** A finished redemption makes no more calls. */
  lemma Unfinished(calls: seq<Call>, phases: seq<Redeem>)
    requires |phases| == |calls| + 1
    requires forall x :: 0 <= x < |calls| ==> Moves(calls[x], phases[x], phases[x + 1])
    ensures forall x :: 0 <= x < |calls| ==> !phases[x].Done?
  {
    forall x | 0 <= x < |calls|
      ensures !phases[x].Done?
    {
      assert Moves(calls[x], phases[x], phases[x + 1]);
    }
  }

  lemma LateAnswer(calls: seq<Call>, phases: seq<Redeem>, code: string)
    requires |phases| == |calls| + 1 > 3 && phases[|calls|].Done? && phases[2].OpenSession? && phases[2].code == code
    requires forall x :: 0 <= x < |calls| ==> Moves(calls[x], phases[x], phases[x + 1])
    requires calls[0].action.RedeemStep? && calls[1].action.RedeemStep? && Unrevoked(calls[0].before, code)
    requires GuestAt(calls[1].before, calls[0].before.codes[code].owner)
    ensures AnsweredBy(calls, code, phases[|calls|])
  {
    Unfinished(calls, phases);
    assert Moves(calls[2], phases[2], phases[3]);
    if |calls| > 3 {
      assert Moves(calls[3], phases[3], phases[4]);
      if |calls| > 4 {
        assert Moves(calls[4], phases[4], phases[5]);
      }
    }
  }

  /**
   What a finished redemption answered, exactly. It opened a session iff its first three
   calls succeeded and found an unrevoked code and its owner a guest; it answered with
   that session iff the code was still unrevoked at the fourth; otherwise it revoked the
   session iff the fifth call succeeded.
   */
  lemma RedemptionAnswers(states: seq<State>, acts: seq<Action>, at: seq<nat>, m: nat, r: int, code: string)
    requires Execution(states, acts) && Redemption(acts, at, m, r, code)
    requires r in states[m].redeems && states[m].redeems[r].Done?
    ensures AnsweredBy(Calls(states, acts, at), code, states[m].redeems[r])
  {
    var phases := Phases(states, acts, at, m, r, code);
    PhasesAnswer(Calls(states, acts, at), phases, code);
  }

  lemma {:induction false} UserKept(states: seq<State>, acts: seq<Action>, i: nat, j: nat, sid: int)
    requires Execution(states, acts) && i <= j <= |acts| && sid in states[i].sessions
    ensures sid in states[j].sessions && states[j].sessions[sid].user == states[i].sessions[sid].user
    decreases j
  {
    if i < j {
      UserKept(states, acts, i, j - 1, sid);
      assert Enabled(states[j - 1], acts[j - 1]);
      StepGrows(states[j - 1], acts[j - 1]);
    }
  }

  /** That session belongs to the code's owner, and is open for as long as nothing revokes it. */
  lemma OpenedSession(states: seq<State>, acts: seq<Action>, at: seq<nat>, m: nat, r: int, code: string)
    requires Execution(states, acts) && Redemption(acts, at, m, r, code)
    requires OpensSession(Calls(states, acts, at), code)
    ensures var sid := acts[at[3]].newSid;
            && at[3] < m && code in states[at[1]].codes
            && sid !in states[at[3]].sessions && sid in states[m].sessions
            && states[m].sessions[sid].user == states[at[1]].codes[code].owner
            && (RevokedIn(states[m], sid) <==> !NeverRevoked(states, acts, at[3] + 1, m, sid))
  {
    var calls, sid := Calls(states, acts, at), acts[at[3]].newSid;
    assert calls[0] == CallAt(states, acts, at, 0) && calls[1] == CallAt(states, acts, at, 1)
           && calls[2] == CallAt(states, acts, at, 2);
    var phases := Phases(states, acts, at, m, r, code);
    assert Moves(calls[0], phases[0], phases[1]) && Moves(calls[1], phases[1], phases[2]);
    assert RedeemedAt(acts, at, m, r, 3) && CalledAt(states, at, r, 2, phases[2]);
    assert Enabled(states[at[3]], acts[at[3]]) && states[at[3] + 1] == Next(states[at[3]], acts[at[3]]);
    OpenIffNeverRevoked(states, acts, at[3] + 1, m, sid);
    UserKept(states, acts, at[3] + 1, m, sid);
  }

  lemma {:induction false} UpgradeStays(states: seq<State>, acts: seq<Action>, i: nat, j: nat, u: int)
    requires Execution(states, acts) && i <= j <= |acts| && u in states[i].upgrades
    requires forall k :: i <= k < j ==> !MovesUpgrade(acts[k], u)
    ensures u in states[j].upgrades && states[j].upgrades[u] == states[i].upgrades[u]
    decreases j
  {
    if i < j {
      UpgradeStays(states, acts, i, j - 1, u);
      assert Enabled(states[j - 1], acts[j - 1]);
      OneUpgradeMoves(states[j - 1], acts[j - 1]);
    }
  }

  /** How one call moves an upgrade of an account from p to q. */
  predicate Upgrades(call: Call, user: int, p: Upgrade, q: Upgrade) {
    && (call.action.UpgradeStep? || call.action.UpgradeFails?)
    && var step, s := call.action.UpgradeStep?, call.before;
       match p
       case FindAccount => q == if step && GuestAt(s, user) then RevokeCodes(s.accounts[user].version) else Failed
       case RevokeCodes(v) => q == if step then UpdateAccount(v, CodesOf(s, user)) else Failed
       case UpdateAccount(v, known) =>
         q == if step && user in s.accounts && s.accounts[user].version == v then RevokeSessions(known) else Failed
       case RevokeSessions(known) => q == if step then NewSession(known) else Failed
       case NewSession(known) => q == if step then Finished(known) else Failed
       case _ => false
  }

  lemma CallUpgrades(s: State, a: Action, u: int)
    requires Enabled(s, a) && MovesUpgrade(a, u) && u in s.upgrades
    ensures var t, user := Next(s, a), s.upgrades[u].user;
            u in t.upgrades && t.upgrades[u].user == user
            && Upgrades(Call(s, a), user, s.upgrades[u].phase, t.upgrades[u].phase)
  {
  }

  lemma NextUpgradeCall(states: seq<State>, acts: seq<Action>, at: seq<nat>, m: nat, u: int, user: int, x: nat)
    requires Execution(states, acts) && Upgrading(acts, at, m, u, user) && x < |at|
    requires x > 0 ==> u in states[at[x]].upgrades && states[at[x]].upgrades[u].user == user
    ensures var end := Until(at, m, x);
            && end < |states| && u in states[end].upgrades && states[end].upgrades[u].user == user
            && if x == 0 then states[end].upgrades[u].phase == FindAccount
               else Upgrades(CallAt(states, acts, at, x - 1), user, states[at[x]].upgrades[u].phase,
                             states[end].upgrades[u].phase)
  {
    assert UpgradedAt(acts, at, m, u, x);
    var s, a := states[at[x]], acts[at[x]];
    assert Enabled(s, a) && states[at[x] + 1] == Next(s, a);
    if x > 0 {
      CallUpgrades(s, a, u);
    }
    UpgradeStays(states, acts, at[x] + 1, Until(at, m, x), u);
  }

  lemma {:induction false} UpgradeBegun(states: seq<State>, acts: seq<Action>, at: seq<nat>, m: nat, u: int, user: int,
      n: nat)
    requires Execution(states, acts) && Upgrading(acts, at, m, u, user) && n < |at|
    ensures var end := Until(at, m, n);
            end < |states| && u in states[end].upgrades && states[end].upgrades[u].user == user
  {
    if n > 0 {
      UpgradeBegun(states, acts, at, m, u, user, n - 1);
      assert Until(at, m, n - 1) == at[n];
    }
    NextUpgradeCall(states, acts, at, m, u, user, n);
  }

  ghost function UpgradeAt(states: seq<State>, at: seq<nat>, m: nat, u: int, n: nat): (q: Upgrade)
    requires Until(at, m, n) < |states| && u in states[Until(at, m, n)].upgrades
  {
    states[Until(at, m, n)].upgrades[u].phase
  }

  /** The phases an upgrade goes through. */
  lemma UpgradePhases(states: seq<State>, acts: seq<Action>, at: seq<nat>, m: nat, u: int, user: int)
    returns (phases: seq<Upgrade>)
    requires Execution(states, acts) && Upgrading(acts, at, m, u, user)
    ensures |phases| == |at| && phases[0] == FindAccount
    ensures u in states[m].upgrades && phases[|at| - 1] == states[m].upgrades[u].phase
    ensures forall x :: 0 <= x < |at| - 1 ==> Upgrades(CallAt(states, acts, at, x), user, phases[x], phases[x + 1])
  {
    forall n | 0 <= n < |at|
      ensures Until(at, m, n) < |states| && u in states[Until(at, m, n)].upgrades
    {
      UpgradeBegun(states, acts, at, m, u, user, n);
    }
    assert Until(at, m, |at| - 1) == m;
    phases := seq(|at|, n requires 0 <= n < |at| => UpgradeAt(states, at, m, u, n));
    NextUpgradeCall(states, acts, at, m, u, user, 0);
    forall x | 0 <= x < |at| - 1
      ensures Upgrades(CallAt(states, acts, at, x), user, phases[x], phases[x + 1])
    {
      assert Until(at, m, x) == at[x + 1];
      UpgradeBegun(states, acts, at, m, u, user, x);
      NextUpgradeCall(states, acts, at, m, u, user, x + 1);
    }
  }

  /** The first three calls succeed, find a guest, and find its account at the same version. */
  predicate ReplacesGuest(calls: seq<Call>, user: int) {
    && |calls| > 2 && calls[0].action.UpgradeStep? && calls[1].action.UpgradeStep? && calls[2].action.UpgradeStep?
    && GuestAt(calls[0].before, user) && user in calls[2].before.accounts
    && calls[2].before.accounts[user].version == calls[0].before.accounts[user].version
  }

  lemma PhasesUpgrade(calls: seq<Call>, phases: seq<Upgrade>, user: int)
    requires |phases| == |calls| + 1 && phases[0] == FindAccount
    requires phases[|calls|].Finished? || phases[|calls|].Failed?
    requires forall x :: 0 <= x < |calls| ==> Upgrades(calls[x], user, phases[x], phases[x + 1])
    ensures phases[|calls|].Finished? <==>
              && ReplacesGuest(calls, user) && |calls| > 4
              && calls[3].action.UpgradeStep? && calls[4].action.UpgradeStep?
    ensures phases[|calls|].Finished? ==> phases[|calls|].known == CodesOf(calls[1].before, user)
  {
    forall x | 0 <= x < |calls|
      ensures !phases[x].Finished? && !phases[x].Failed?
    {
      assert Upgrades(calls[x], user, phases[x], phases[x + 1]);
    }
    assert Upgrades(calls[0], user, phases[0], phases[1]);
    if |calls| > 1 {
      assert Upgrades(calls[1], user, phases[1], phases[2]);
      if |calls| > 2 {
        assert Upgrades(calls[2], user, phases[2], phases[3]);
        if |calls| > 3 {
          assert Upgrades(calls[3], user, phases[3], phases[4]);
          if |calls| > 4 {
            assert Upgrades(calls[4], user, phases[4], phases[5]);
          }
        }
      }
    }
  }

  /** An account at an unchanged version is unchanged. */
  lemma {:induction false} VersionsTell(states: seq<State>, acts: seq<Action>, i: nat, j: nat, user: int)
    requires Execution(states, acts) && i <= j <= |acts| && user in states[i].accounts
    ensures user in states[j].accounts
    ensures states[j].accounts[user] == states[i].accounts[user]
            || states[j].accounts[user].version > states[i].accounts[user].version
    decreases j
  {
    if i < j {
      VersionsTell(states, acts, i, j - 1, user);
      assert Enabled(states[j - 1], acts[j - 1]);
      AccountStep(states[j - 1], acts[j - 1], user);
    }
  }

  lemma AccountStep(s: State, a: Action, user: int)
    requires Enabled(s, a) && user in s.accounts
    ensures user in Next(s, a).accounts
    ensures Next(s, a).accounts[user] == s.accounts[user]
            || Next(s, a).accounts[user].version > s.accounts[user].version
  {
  }

  /**
   When an upgrade finishes, exactly: all five calls succeed, the first finds a guest, and
   its account is the same at the third. The codes it has revoked are those of the second.
   */
  lemma UpgradeFinishesIff(states: seq<State>, acts: seq<Action>, at: seq<nat>, m: nat, u: int, user: int)
    requires Execution(states, acts) && Upgrading(acts, at, m, u, user)
    requires u in states[m].upgrades && (states[m].upgrades[u].phase.Finished? || states[m].upgrades[u].phase.Failed?)
    ensures states[m].upgrades[u].phase.Finished? <==>
              && |at| > 5 && (forall x :: 0 < x <= 5 ==> acts[at[x]].UpgradeStep?) && GuestAt(states[at[1]], user)
              && user in states[at[3]].accounts && states[at[3]].accounts[user] == states[at[1]].accounts[user]
    ensures states[m].upgrades[u].phase.Finished? ==>
              states[m].upgrades[u].phase.known == CodesOf(states[at[2]], user)
  {
    var calls := Calls(states, acts, at);
    assert forall x :: 0 <= x < |calls| ==> calls[x] == CallAt(states, acts, at, x);
    var phases := UpgradePhases(states, acts, at, m, u, user);
    PhasesUpgrade(calls, phases, user);
    if |at| > 3 && GuestAt(states[at[1]], user) {
      assert UpgradedAt(acts, at, m, u, 1) && UpgradedAt(acts, at, m, u, 2);
      VersionsTell(states, acts, at[1], at[3], user);
    }
  }

  /** A call that revokes this code: its owner's upgrade. */
  predicate RevokesCode(s: State, a: Action, code: string) {
    && code in s.codes && a.UpgradeStep? && a.upgrade in s.upgrades
    && s.upgrades[a.upgrade].phase.RevokeCodes? && s.upgrades[a.upgrade].user == s.codes[code].owner
  }

  lemma StepRevokesCodeIff(s: State, a: Action, code: string)
    requires Enabled(s, a) && code in s.codes
    ensures code in Next(s, a).codes && Next(s, a).codes[code].owner == s.codes[code].owner
    ensures Next(s, a).codes[code].revoked <==> s.codes[code].revoked || RevokesCode(s, a, code)
  {
  }

  ghost predicate NeverRecalled(states: seq<State>, acts: seq<Action>, n: nat, m: nat, code: string)
    requires |states| == |acts| + 1 && m <= |acts|
  {
    forall k :: n <= k < m ==> !RecalledAt(states, acts, k, code)
  }

  predicate RecalledAt(states: seq<State>, acts: seq<Action>, k: nat, code: string)
    requires k < |states| && k < |acts|
  {
    RevokesCode(states[k], acts[k], code)
  }

  lemma RunStepRevokesCode(states: seq<State>, acts: seq<Action>, k: nat, code: string)
    requires Execution(states, acts) && k < |acts| && code in states[k].codes
    ensures code in states[k + 1].codes && states[k + 1].codes[code].owner == states[k].codes[code].owner
    ensures Unrevoked(states[k + 1], code)
       <==> Unrevoked(states[k], code) && !RecalledAt(states, acts, k, code)
  {
    assert Enabled(states[k], acts[k]);
    StepRevokesCodeIff(states[k], acts[k], code);
  }

  /** A code stays in the table and keeps its owner. */
  lemma {:induction false} CodeKept(states: seq<State>, acts: seq<Action>, n: nat, m: nat, code: string)
    requires Execution(states, acts) && n <= m <= |acts| && code in states[n].codes
    ensures code in states[m].codes && states[m].codes[code].owner == states[n].codes[code].owner
    decreases m
  {
    if n < m {
      CodeKept(states, acts, n, m - 1, code);
      RunStepRevokesCode(states, acts, m - 1, code);
    }
  }

  lemma NeverRecalledStep(states: seq<State>, acts: seq<Action>, n: nat, m: nat, code: string)
    requires |states| == |acts| + 1 && n < m <= |acts|
    ensures NeverRecalled(states, acts, n, m, code)
       <==> NeverRecalled(states, acts, n, m - 1, code) && !RecalledAt(states, acts, m - 1, code)
  {
  }

  /** A code stays good exactly until an upgrade of its owner revokes it. */
  lemma {:induction false} GoodIffNeverRecalled(states: seq<State>, acts: seq<Action>, n: nat, m: nat, code: string)
    requires Execution(states, acts) && n <= m <= |acts| && Unrevoked(states[n], code)
    ensures Unrevoked(states[m], code) <==> NeverRecalled(states, acts, n, m, code)
    decreases m
  {
    if n < m {
      GoodIffNeverRecalled(states, acts, n, m - 1, code);
      CodeKept(states, acts, n, m - 1, code);
      RunStepRevokesCode(states, acts, m - 1, code);
      NeverRecalledStep(states, acts, n, m, code);
    }
  }

  /** An issued code is new, its owner's, and good. */
  lemma IssuedIsGood(states: seq<State>, acts: seq<Action>, n: nat)
    requires Execution(states, acts) && n < |acts| && acts[n].Issue?
    ensures acts[n].code !in states[n].codes && Unrevoked(states[n + 1], acts[n].code)
    ensures states[n + 1].codes[acts[n].code].owner == acts[n].owner
  {
    assert Enabled(states[n], acts[n]);
  }

  /** The account an action changes, and to what: an edit, or the third call of an upgrade at that version. */
  lemma AccountsChange(s: State, a: Action, id: int)
    requires Enabled(s, a)
    ensures var t := Next(s, a);
            if a.EditAccount? && a.id == id then id in t.accounts && t.accounts[id] == a.account
            else if && a.UpgradeStep? && s.upgrades[a.upgrade].user == id && s.upgrades[a.upgrade].phase.UpdateAccount?
                    && id in s.accounts && s.accounts[id].version == s.upgrades[a.upgrade].phase.version
            then id in t.accounts && !t.accounts[id].isGuest && t.accounts[id].version == s.accounts[id].version + 1
            else (id in t.accounts <==> id in s.accounts) && (id in s.accounts ==> t.accounts[id] == s.accounts[id])
  {
  }

  /** The sessions an action opens: a sign-in, the third call of a redemption, the fifth of an upgrade. */
  lemma SessionsChange(s: State, a: Action, sid: int)
    requires Enabled(s, a) && sid !in s.sessions
    ensures sid in Next(s, a).sessions
       <==> || (a.SignIn? && a.sid == sid)
            || (a.RedeemStep? && a.newSid == sid && s.redeems[a.redeem].OpenSession?)
            || (a.UpgradeStep? && a.newSid == sid && s.upgrades[a.upgrade].phase.NewSession?)
    ensures sid in Next(s, a).sessions ==> !Next(s, a).sessions[sid].revoked
    ensures sid in Next(s, a).sessions ==>
              Next(s, a).sessions[sid].user == if a.SignIn? then a.user
                                               else if a.RedeemStep? then s.redeems[a.redeem].owner
                                               else s.upgrades[a.upgrade].user
  {
  }

  /** One redemption by itself: a good code of a guest gives a session of that guest. */
  lemma RedeemsAlone(s: State, r: int, code: string, sid: int, other: int)
    returns (states: seq<State>, acts: seq<Action>)
    requires r !in s.redeems && sid !in s.sessions && other !in s.sessions && sid != other
    requires Unrevoked(s, code) && GuestAt(s, s.codes[code].owner)
    ensures Path(states, acts) && states[0] == s
    ensures acts == [BeginRedeem(r, code), RedeemStep(r, sid)] + [RedeemStep(r, sid)] + [RedeemStep(r, sid)]
                    + [RedeemStep(r, other)]
    ensures states[5] == s.(sessions := s.sessions[sid := Session(s.codes[code].owner, false)],
                            redeems := s.redeems[r := Done(code, Some(sid), Opened)])
  {
    var owner := s.codes[code].owner;
    var s1 := s.(redeems := s.redeems[r := FindCode(code)]);
    var s2 := s.(redeems := s.redeems[r := FindGuest(code, owner)]);
    var s3 := s.(redeems := s.redeems[r := OpenSession(code, owner)]);
    var t := s.(sessions := s.sessions[sid := Session(owner, false)]);
    var s4 := t.(redeems := s.redeems[r := MarkUsed(code, sid)]);
    var s5 := t.(redeems := s.redeems[r := Done(code, Some(sid), Opened)]);
    FirstTwo(s, BeginRedeem(r, code), s1, RedeemStep(r, sid), s2);
    var begin := [BeginRedeem(r, code), RedeemStep(r, sid)];
    AddStep([s, s1, s2], begin, RedeemStep(r, sid), s3);
    AddStep([s, s1, s2] + [s3], begin + [RedeemStep(r, sid)], RedeemStep(r, sid), s4);
    AddStep([s, s1, s2] + [s3] + [s4], begin + [RedeemStep(r, sid)] + [RedeemStep(r, sid)], RedeemStep(r, other), s5);
    states := [s, s1, s2] + [s3] + [s4] + [s5];
    acts := begin + [RedeemStep(r, sid)] + [RedeemStep(r, sid)] + [RedeemStep(r, other)];
  }

  /** One upgrade by itself: a guest becomes an account with one open session, and none of its codes is good. */
  lemma UpgradesAlone(s: State, u: int, user: int, sid: int) returns (states: seq<State>, acts: seq<Action>)
    requires u !in s.upgrades && sid !in s.sessions && GuestAt(s, user)
    ensures Path(states, acts) && |acts| == 6 && states[0] == s
    ensures acts[0] == BeginUpgrade(u, user) && forall i :: 1 <= i < 6 ==> acts[i] == UpgradeStep(u, sid)
    ensures u in states[6].upgrades && states[6].upgrades[u] == Upgrader(user, Finished(CodesOf(s, user)))
    ensures states[6].accounts == s.accounts[user := Account(false, s.accounts[user].version + 1)]
    ensures forall code :: code in s.codes && s.codes[code].owner == user ==> !Unrevoked(states[6], code)
    ensures forall x :: x in states[6].sessions && states[6].sessions[x].user == user ==>
              (states[6].sessions[x].revoked <==> x != sid)
  {
    var v, step := s.accounts[user].version, UpgradeStep(u, sid);
    var s1 := s.(upgrades := s.upgrades[u := Upgrader(user, FindAccount)]);
    var s2 := s.(upgrades := s.upgrades[u := Upgrader(user, RevokeCodes(v))]);
    FirstTwo(s, BeginUpgrade(u, user), s1, step, s2);
    assert CodesOf(s2, user) == CodesOf(s, user);
    var s3 := s2.(codes := Next(s2, step).codes,
                  upgrades := s.upgrades[u := Upgrader(user, UpdateAccount(v, CodesOf(s, user)))]);
    AddStep([s, s1, s2], [BeginUpgrade(u, user), step], step, s3);
    var p, a := UpgradeEnds(s3, u, user, sid, v);
    JoinRuns([s, s1, s2] + [s3], [BeginUpgrade(u, user), step] + [step], p, a);
    states, acts := [s, s1, s2] + [s3] + p[1..], [BeginUpgrade(u, user), step] + [step] + a;
  }

  lemma UpgradeEnds(s: State, u: int, user: int, sid: int, v: nat) returns (states: seq<State>, acts: seq<Action>)
    requires u in s.upgrades && s.upgrades[u].user == user && s.upgrades[u].phase.UpdateAccount?
    requires sid !in s.sessions && user in s.accounts && s.accounts[user].version == v == s.upgrades[u].phase.version
    ensures Path(states, acts) && acts == [UpgradeStep(u, sid), UpgradeStep(u, sid)] + [UpgradeStep(u, sid)]
    ensures states[0] == s && states[3].codes == s.codes
    ensures u in states[3].upgrades
            && states[3].upgrades[u] == Upgrader(user, Finished(s.upgrades[u].phase.known))
    ensures states[3].accounts == s.accounts[user := Account(false, v + 1)]
    ensures forall x :: x in states[3].sessions && states[3].sessions[x].user == user ==>
              (states[3].sessions[x].revoked <==> x != sid)
  {
    var step := UpgradeStep(u, sid);
    var s1 := Next(s, step);
    var s2 := Next(s1, step);
    FirstTwo(s, step, s1, step, s2);
    AddStep([s, s1, s2], [step, step], step, Next(s2, step));
    states, acts := [s, s1, s2] + [Next(s2, step)], [step, step] + [step];
  }

  lemma FirstTwo(s: State, a: Action, t: State, b: Action, u: State)
    requires Enabled(s, a) && t == Next(s, a) && Enabled(t, b) && u == Next(t, b)
    ensures Path([s, t, u], [a, b])
  {
  }

  /** Nobody waits: an unfinished redemption or upgrade can make its next call, and everybody can begin. */
  lemma NobodyWaits(s: State, r: int, u: int, user: int, code: string, sid: int) returns (unused: int)
    ensures Enabled(s, SignIn(unused, user)) && (sid in s.sessions ==> Enabled(s, RevokeSession(sid)))
    ensures if r in s.redeems
            then s.redeems[r].Done? || (Enabled(s, RedeemStep(r, unused)) && Enabled(s, RedeemFails(r)))
            else Enabled(s, BeginRedeem(r, code))
    ensures if u in s.upgrades
            then s.upgrades[u].phase.Finished? || s.upgrades[u].phase.Failed?
                 || (Enabled(s, UpgradeStep(u, unused)) && Enabled(s, UpgradeFails(u)))
            else Enabled(s, BeginUpgrade(u, user))
    ensures code !in s.codes ==> Enabled(s, Issue(code, user))
  {
    unused := Sets.Unused(s.sessions.Keys);
  }
}
