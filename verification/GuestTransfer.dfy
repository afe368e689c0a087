/**
 Guest transfer codes: any number of redemptions racing any number of upgrades,
 one action per repository call. Creating a session and revoking an account's
 sessions are single actions here because each takes effect at its commit
 (Sessions.RevokeUserIsAtomic). Every call may also fail with a storage error.
 */
module GuestTransfer {
  import opened Wrappers

  datatype Code = Code(owner: int, revoked: bool)
  datatype Account = Account(isGuest: bool, version: nat)
  datatype Session = Session(user: int, revoked: bool)

  /** How a redemption ended. */
  datatype Outcome = Rejected | Opened | Compensated | CompensationFailed

  /** Redeem after each of its calls; `sid` is the session it opened. */
  datatype Redeem =
    | FindCode(code: string)
    | FindGuest(code: string, owner: int)
    | OpenSession(code: string, owner: int)
    | MarkUsed(code: string, sid: int)
    | RevokeOpened(code: string, sid: int)
    | Done(code: string, session: Option<int>, outcome: Outcome)

  /** Upgrade after each of its calls; `known` is the set of the account's codes
      that existed when it revoked them. */
  datatype Upgrade =
    | FindAccount
    | RevokeCodes(version: nat)
    | UpdateAccount(version: nat, known: set<string>)
    | RevokeSessions(known: set<string>)
    | NewSession(known: set<string>)
    | Finished(known: set<string>)
    | Failed

  datatype Upgrader = Upgrader(user: int, phase: Upgrade)

  datatype State = State(
    codes: map<string, Code>,
    accounts: map<int, Account>,
    sessions: map<int, Session>,
    redeems: map<int, Redeem>,
    upgrades: map<int, Upgrader>)

  datatype Action =
    | Issue(code: string, owner: int)
    | EditAccount(id: int, account: Account)
    | SignIn(sid: int, user: int)
    | RevokeSession(sid: int)
    | BeginRedeem(redeem: int, code: string)
    | RedeemStep(redeem: int, newSid: int)
    | RedeemFails(redeem: int)
    | BeginUpgrade(upgrade: int, user: int)
    | UpgradeStep(upgrade: int, newSid: int)
    | UpgradeFails(upgrade: int)

  function CodesOf(s: State, user: int): (r: set<string>) {
    set code | code in s.codes && s.codes[code].owner == user
  }

  predicate Enabled(s: State, a: Action) {
    match a
    case Issue(code, owner) => code !in s.codes
    case EditAccount(id, account) => id in s.accounts ==> account.version > s.accounts[id].version
    case SignIn(sid, _) => sid !in s.sessions
    case RevokeSession(sid) => sid in s.sessions
    case BeginRedeem(r, code) => r !in s.redeems
    case RedeemStep(r, sid) => r in s.redeems && !s.redeems[r].Done? && sid !in s.sessions
    case RedeemFails(r) => r in s.redeems && !s.redeems[r].Done?
    case BeginUpgrade(u, _) => u !in s.upgrades
    case UpgradeStep(u, sid) =>
      && u in s.upgrades && !s.upgrades[u].phase.Finished? && !s.upgrades[u].phase.Failed? && sid !in s.sessions
    case UpgradeFails(u) => u in s.upgrades && !s.upgrades[u].phase.Finished? && !s.upgrades[u].phase.Failed?
  }

  function WithRevoked(sessions: map<int, Session>, sid: int): (r: map<int, Session>) {
    if sid in sessions then sessions[sid := sessions[sid].(revoked := true)] else sessions
  }

  /** The next call of a redemption succeeds as a call; it may still find nothing. */
  function StepRedeem(s: State, r: int, newSid: int): (result: State)
    requires r in s.redeems
  {
    match s.redeems[r]
    case FindCode(code) =>
      if code in s.codes && !s.codes[code].revoked
      then s.(redeems := s.redeems[r := FindGuest(code, s.codes[code].owner)])
      else s.(redeems := s.redeems[r := Done(code, None, Rejected)])
    case FindGuest(code, owner) =>
      if owner in s.accounts && s.accounts[owner].isGuest
      then s.(redeems := s.redeems[r := OpenSession(code, owner)])
      else s.(redeems := s.redeems[r := Done(code, None, Rejected)])
    case OpenSession(code, owner) =>
      s.(sessions := s.sessions[newSid := Session(owner, false)], redeems := s.redeems[r := MarkUsed(code, newSid)])
    case MarkUsed(code, sid) =>
      if code in s.codes && !s.codes[code].revoked
      then s.(redeems := s.redeems[r := Done(code, Some(sid), Opened)])
      else s.(redeems := s.redeems[r := RevokeOpened(code, sid)])
    case RevokeOpened(code, sid) =>
      s.(sessions := WithRevoked(s.sessions, sid), redeems := s.redeems[r := Done(code, Some(sid), Compensated)])
    case Done(_, _, _) => s
  }

  /** A storage error: after MarkUsed the session is still revoked, and when that
      fails too the session stays behind. */
  function FailRedeem(p: Redeem): (r: Redeem) {
    match p
    case MarkUsed(code, sid) => RevokeOpened(code, sid)
    case RevokeOpened(code, sid) => Done(code, Some(sid), CompensationFailed)
    case Done(_, _, _) => p
    case _ => Done(p.code, None, Rejected)
  }

  function StepUpgrade(s: State, u: int, newSid: int): (r: State)
    requires u in s.upgrades
  {
    var user := s.upgrades[u].user;
    match s.upgrades[u].phase
    case FindAccount =>
      s.(upgrades := s.upgrades[u := Upgrader(user,
           if user in s.accounts && s.accounts[user].isGuest then RevokeCodes(s.accounts[user].version) else Failed)])
    case RevokeCodes(v) =>
      s.(codes := map code | code in s.codes ::
           if s.codes[code].owner == user then s.codes[code].(revoked := true) else s.codes[code],
         upgrades := s.upgrades[u := Upgrader(user, UpdateAccount(v, CodesOf(s, user)))])
    case UpdateAccount(v, known) =>
      if user in s.accounts && s.accounts[user].version == v
      then s.(accounts := s.accounts[user := Account(false, v + 1)],
              upgrades := s.upgrades[u := Upgrader(user, RevokeSessions(known))])
      else s.(upgrades := s.upgrades[u := Upgrader(user, Failed)])
    case RevokeSessions(known) =>
      s.(sessions := map sid | sid in s.sessions ::
           if s.sessions[sid].user == user then s.sessions[sid].(revoked := true) else s.sessions[sid],
         upgrades := s.upgrades[u := Upgrader(user, NewSession(known))])
    case NewSession(known) =>
      s.(sessions := s.sessions[newSid := Session(user, false)],
         upgrades := s.upgrades[u := Upgrader(user, Finished(known))])
    case Finished(_) => s
    case Failed => s
  }

  function Next(s: State, a: Action): (r: State)
    requires Enabled(s, a)
  {
    match a
    case Issue(code, owner) => s.(codes := s.codes[code := Code(owner, false)])
    case EditAccount(id, account) => s.(accounts := s.accounts[id := account])
    case SignIn(sid, user) => s.(sessions := s.sessions[sid := Session(user, false)])
    case RevokeSession(sid) => s.(sessions := WithRevoked(s.sessions, sid))
    case BeginRedeem(r, code) => s.(redeems := s.redeems[r := FindCode(code)])
    case RedeemStep(r, sid) => StepRedeem(s, r, sid)
    case RedeemFails(r) => s.(redeems := s.redeems[r := FailRedeem(s.redeems[r])])
    case BeginUpgrade(u, user) => s.(upgrades := s.upgrades[u := Upgrader(user, FindAccount)])
    case UpgradeStep(u, sid) => StepUpgrade(s, u, sid)
    case UpgradeFails(u) => s.(upgrades := s.upgrades[u := Upgrader(s.upgrades[u].user, Failed)])
  }

  ghost predicate Execution(states: seq<State>, acts: seq<Action>) {
    && |states| == |acts| + 1
    && states[0].redeems == map[] && states[0].upgrades == map[]
    && (forall i {:trigger acts[i]} :: 0 <= i < |acts| ==>
        Enabled(states[i], acts[i]) && states[i + 1] == Next(states[i], acts[i]))
  }

  /** The codes an upgrade found when it revoked them. */
  function Known(p: Upgrade): (r: set<string>) {
    match p
    case UpdateAccount(_, known) => known
    case RevokeSessions(known) => known
    case NewSession(known) => known
    case Finished(known) => known
    case _ => {}
  }

  predicate SessionsRevoked(p: Upgrade) {
    p.NewSession? || p.Finished?
  }

  ghost predicate RevokedIn(s: State, sid: int) {
    sid in s.sessions && s.sessions[sid].revoked
  }

  /** What a redemption's session belongs to while the redemption is under way. */
  ghost predicate RedeemOk(s: State, r: int)
    requires r in s.redeems
  {
    var p := s.redeems[r];
    match p
    case FindGuest(code, owner) => code in s.codes && s.codes[code].owner == owner
    case OpenSession(code, owner) => code in s.codes && s.codes[code].owner == owner
    case MarkUsed(code, sid) => code in s.codes && sid in s.sessions && s.sessions[sid].user == s.codes[code].owner
    case RevokeOpened(code, sid) => code in s.codes && sid in s.sessions && s.sessions[sid].user == s.codes[code].owner
    case Done(code, Some(sid), o) =>
      && code in s.codes && sid in s.sessions && s.sessions[sid].user == s.codes[code].owner
      && o != Rejected && (o == Compensated ==> RevokedIn(s, sid))
    case _ => true
  }

  /** An upgrade's known codes are revoked, and once it has revoked the sessions
      no redemption of such a code has an open one. */
  ghost predicate UpgradeOk(s: State, u: int)
    requires u in s.upgrades
  {
    var p := s.upgrades[u].phase;
    && (forall code :: code in Known(p) ==>
        code in s.codes && s.codes[code].revoked && s.codes[code].owner == s.upgrades[u].user)
    && (SessionsRevoked(p) ==> forall r :: r in s.redeems && OpenedWith(s.redeems[r], Known(p)) ==>
        RevokedIn(s, s.redeems[r].session.value))
  }

  predicate OpenedWith(p: Redeem, codes: set<string>) {
    p.Done? && p.outcome == Opened && p.code in codes && p.session.Some?
  }

  ghost predicate Inv(s: State) {
    && (forall r :: r in s.redeems ==> RedeemOk(s, r))
    && (forall u :: u in s.upgrades ==> UpgradeOk(s, u))
  }

  /** Codes keep their owner and stay revoked; sessions keep their user and stay revoked. */
  ghost predicate Grows(s: State, t: State) {
    && (forall code :: code in s.codes ==>
        code in t.codes && t.codes[code].owner == s.codes[code].owner
            && (s.codes[code].revoked ==> t.codes[code].revoked))
    && (forall sid :: sid in s.sessions ==>
        sid in t.sessions && t.sessions[sid].user == s.sessions[sid].user
            && (s.sessions[sid].revoked ==> t.sessions[sid].revoked))
  }

  lemma StepGrows(s: State, a: Action)
    requires Enabled(s, a)
    ensures Grows(s, Next(s, a))
  {
  }

  lemma RedeemPersists(s: State, t: State, r: int)
    requires Grows(s, t) && r in s.redeems && r in t.redeems && t.redeems[r] == s.redeems[r] && RedeemOk(s, r)
    ensures RedeemOk(t, r)
  {
  }

  lemma MovedRedeemOk(s: State, r: int, newSid: int)
    requires Enabled(s, RedeemStep(r, newSid)) && RedeemOk(s, r)
    ensures RedeemOk(StepRedeem(s, r, newSid), r)
  {
  }

  lemma FailedRedeemOk(s: State, r: int)
    requires Enabled(s, RedeemFails(r)) && RedeemOk(s, r)
    ensures RedeemOk(Next(s, RedeemFails(r)), r)
  {
  }

  predicate MovesRedeem(a: Action, r: int) {
    (a.BeginRedeem? || a.RedeemStep? || a.RedeemFails?) && a.redeem == r
  }

  predicate MovesUpgrade(a: Action, u: int) {
    (a.BeginUpgrade? || a.UpgradeStep? || a.UpgradeFails?) && a.upgrade == u
  }

  lemma StepRedeemMovesOne(s: State, r: int, newSid: int)
    requires r in s.redeems
    ensures var t := StepRedeem(s, r, newSid);
            t.upgrades == s.upgrades && t.redeems.Keys == s.redeems.Keys && t.redeems == s.redeems[r := t.redeems[r]]
  {
  }

  lemma StepUpgradeMovesOne(s: State, u: int, newSid: int)
    requires u in s.upgrades
    ensures var t := StepUpgrade(s, u, newSid);
            t.redeems == s.redeems && t.upgrades.Keys == s.upgrades.Keys && t.upgrades == s.upgrades[u := t.upgrades[u]]
  {
  }

  /** A step moves one client; the others keep their phase. */
  lemma OneRedeemMoves(s: State, a: Action)
    requires Enabled(s, a)
    ensures forall r :: r in Next(s, a).redeems && !MovesRedeem(a, r) ==>
              r in s.redeems && Next(s, a).redeems[r] == s.redeems[r]
    ensures s.redeems.Keys <= Next(s, a).redeems.Keys
  {
    if a.RedeemStep? {
      StepRedeemMovesOne(s, a.redeem, a.newSid);
    } else if a.UpgradeStep? {
      StepUpgradeMovesOne(s, a.upgrade, a.newSid);
    }
  }

  lemma OneUpgradeMoves(s: State, a: Action)
    requires Enabled(s, a)
    ensures forall u :: u in Next(s, a).upgrades && !MovesUpgrade(a, u) ==>
              u in s.upgrades && Next(s, a).upgrades[u] == s.upgrades[u]
    ensures s.upgrades.Keys <= Next(s, a).upgrades.Keys
  {
    if a.RedeemStep? {
      StepRedeemMovesOne(s, a.redeem, a.newSid);
    } else if a.UpgradeStep? {
      StepUpgradeMovesOne(s, a.upgrade, a.newSid);
    }
  }

  lemma StepKeepsRedeem(s: State, a: Action, r: int)
    requires Inv(s) && Enabled(s, a) && r in Next(s, a).redeems
    ensures RedeemOk(Next(s, a), r)
  {
    StepGrows(s, a);
    OneRedeemMoves(s, a);
    if !MovesRedeem(a, r) {
      RedeemPersists(s, Next(s, a), r);
    } else if a.RedeemStep? {
      MovedRedeemOk(s, r, a.newSid);
    } else if a.RedeemFails? {
      FailedRedeemOk(s, r);
    }
  }

  /** A code that is revoked opens no session any more. */
  lemma NoNewOpening(s: State, a: Action, r: int, known: set<string>)
    requires Enabled(s, a) && r in Next(s, a).redeems && OpenedWith(Next(s, a).redeems[r], known)
    requires forall code :: code in known ==> code in s.codes && s.codes[code].revoked
    ensures r in s.redeems && s.redeems[r] == Next(s, a).redeems[r]
  {
    OneRedeemMoves(s, a);
  }

  lemma UpgradePersists(s: State, a: Action, u: int)
    requires Inv(s) && Enabled(s, a) && u in s.upgrades && u in Next(s, a).upgrades
             && Next(s, a).upgrades[u] == s.upgrades[u]
    ensures UpgradeOk(Next(s, a), u)
  {
    var t := Next(s, a);
    var known := Known(s.upgrades[u].phase);
    StepGrows(s, a);
    assert UpgradeOk(s, u);
    forall r | r in t.redeems && OpenedWith(t.redeems[r], known) && SessionsRevoked(s.upgrades[u].phase)
      ensures RevokedIn(t, t.redeems[r].session.value)
    {
      NoNewOpening(s, a, r, known);
      assert RevokedIn(s, s.redeems[r].session.value);
    }
  }

  lemma MovedUpgradeOk(s: State, u: int, newSid: int)
    requires Inv(s) && Enabled(s, UpgradeStep(u, newSid))
    ensures UpgradeOk(Next(s, UpgradeStep(u, newSid)), u)
  {
    var t := StepUpgrade(s, u, newSid);
    var known := Known(t.upgrades[u].phase);
    assert UpgradeOk(s, u);
    forall r | r in t.redeems && OpenedWith(t.redeems[r], known) && SessionsRevoked(t.upgrades[u].phase)
      ensures RevokedIn(t, t.redeems[r].session.value)
    {
      assert RedeemOk(s, r);
      assert SessionsRevoked(s.upgrades[u].phase) ==> RevokedIn(s, s.redeems[r].session.value);
    }
  }

  lemma StepKeepsUpgrade(s: State, a: Action, u: int)
    requires Inv(s) && Enabled(s, a) && u in Next(s, a).upgrades
    ensures UpgradeOk(Next(s, a), u)
  {
    OneUpgradeMoves(s, a);
    if !MovesUpgrade(a, u) {
      UpgradePersists(s, a, u);
    } else if a.UpgradeStep? {
      MovedUpgradeOk(s, u, a.newSid);
    }
  }

  lemma StepKeeps(s: State, a: Action)
    requires Inv(s) && Enabled(s, a)
    ensures Inv(Next(s, a))
  {
    forall r | r in Next(s, a).redeems ensures RedeemOk(Next(s, a), r) {
      StepKeepsRedeem(s, a, r);
    }
    forall u | u in Next(s, a).upgrades ensures UpgradeOk(Next(s, a), u) {
      StepKeepsUpgrade(s, a, u);
    }
  }

  lemma {:induction false} ReachableInv(states: seq<State>, acts: seq<Action>, n: nat)
    requires Execution(states, acts) && n <= |acts|
    ensures Inv(states[n])
  {
    if n > 0 {
      ReachableInv(states, acts, n - 1);
      StepKeeps(states[n - 1], acts[n - 1]);
    }
  }

  /**
   However redemptions and upgrades interleave and whatever calls fail: once an
   upgrade has finished, a session that a finished redemption opened with a code
   the upgrade revoked is itself revoked, unless that redemption was told that
   the code no longer works and then failed to revoke its session.
   */
  lemma NoSessionOutlivesItsCode(states: seq<State>, acts: seq<Action>, n: nat, u: int, r: int)
    requires Execution(states, acts) && n <= |acts|
    requires u in states[n].upgrades && states[n].upgrades[u].phase.Finished?
    requires r in states[n].redeems && states[n].redeems[r].Done? && states[n].redeems[r].session.Some?
    requires states[n].redeems[r].code in states[n].upgrades[u].phase.known
    requires states[n].redeems[r].outcome != CompensationFailed
    ensures RevokedIn(states[n], states[n].redeems[r].session.value)
  {
    ReachableInv(states, acts, n);
    assert UpgradeOk(states[n], u) && RedeemOk(states[n], r);
  }

  /** A call that revokes this session: its own revocation, a compensation, or its account's upgrade. */
  predicate Revokes(s: State, a: Action, sid: int) {
    && sid in s.sessions
    && match a
       case RevokeSession(x) => x == sid
       case RedeemStep(r, _) => r in s.redeems && s.redeems[r].RevokeOpened? && s.redeems[r].sid == sid
       case UpgradeStep(u, _) =>
         && u in s.upgrades && s.upgrades[u].phase.RevokeSessions? && s.upgrades[u].user == s.sessions[sid].user
       case _ => false
  }

  lemma RedeemRevokesIff(s: State, r: int, newSid: int, sid: int)
    requires Enabled(s, RedeemStep(r, newSid)) && sid in s.sessions
    ensures var t := StepRedeem(s, r, newSid);
            && sid in t.sessions
            && (RevokedIn(t, sid) <==> RevokedIn(s, sid) || Revokes(s, RedeemStep(r, newSid), sid))
  {
  }

  lemma UpgradeRevokesIff(s: State, u: int, newSid: int, sid: int)
    requires Enabled(s, UpgradeStep(u, newSid)) && sid in s.sessions
    ensures var t := StepUpgrade(s, u, newSid);
            && sid in t.sessions
            && (RevokedIn(t, sid) <==> RevokedIn(s, sid) || Revokes(s, UpgradeStep(u, newSid), sid))
  {
  }

  lemma StepRevokesIff(s: State, a: Action, sid: int)
    requires Enabled(s, a) && sid in s.sessions
    ensures sid in Next(s, a).sessions
    ensures RevokedIn(Next(s, a), sid) <==> RevokedIn(s, sid) || Revokes(s, a, sid)
  {
    if a.RedeemStep? {
      RedeemRevokesIff(s, a.redeem, a.newSid, sid);
    } else if a.UpgradeStep? {
      UpgradeRevokesIff(s, a.upgrade, a.newSid, sid);
    }
  }

  predicate RevokedAt(states: seq<State>, acts: seq<Action>, i: nat, sid: int)
    requires i < |states| && i < |acts|
  {
    Revokes(states[i], acts[i], sid)
  }

  ghost predicate NeverRevoked(states: seq<State>, acts: seq<Action>, n: nat, m: nat, sid: int)
    requires |states| == |acts| + 1 && m <= |acts|
  {
    forall i :: n <= i < m ==> !RevokedAt(states, acts, i, sid)
  }

  lemma NeverRevokedStep(states: seq<State>, acts: seq<Action>, n: nat, m: nat, sid: int)
    requires |states| == |acts| + 1 && n < m <= |acts|
    ensures NeverRevoked(states, acts, n, m, sid)
       <==> NeverRevoked(states, acts, n, m - 1, sid) && !RevokedAt(states, acts, m - 1, sid)
  {
  }

  lemma RunStepRevokesIff(states: seq<State>, acts: seq<Action>, i: nat, sid: int)
    requires Execution(states, acts) && i < |acts| && sid in states[i].sessions
    ensures sid in states[i + 1].sessions
    ensures RevokedIn(states[i + 1], sid) <==> RevokedIn(states[i], sid) || RevokedAt(states, acts, i, sid)
  {
    assert Enabled(states[i], acts[i]);
    StepRevokesIff(states[i], acts[i], sid);
  }

  lemma {:induction false} OpenIffNeverRevoked(states: seq<State>, acts: seq<Action>, n: nat, m: nat, sid: int)
    requires Execution(states, acts) && n <= m <= |acts| && sid in states[n].sessions && !RevokedIn(states[n], sid)
    ensures sid in states[m].sessions
    ensures RevokedIn(states[m], sid) <==> !NeverRevoked(states, acts, n, m, sid)
    decreases m - n
  {
    if n < m {
      OpenIffNeverRevoked(states, acts, n, m - 1, sid);
      RunStepRevokesIff(states, acts, m - 1, sid);
      NeverRevokedStep(states, acts, n, m, sid);
    }
  }

  /**
   The exact condition: once the upgrade has finished, a session that a finished
   redemption opened with a code the upgrade revoked is still open iff the redemption
   failed to revoke it and nothing else has revoked it or its account's sessions since.
   */
  lemma LeftOpenIff(states: seq<State>, acts: seq<Action>, k: nat, n: nat, u: int, r: int, sid: int)
    requires Execution(states, acts) && k < n <= |acts|
    requires acts[k] == RedeemStep(r, sid) && states[k].redeems[r].OpenSession?
    requires u in states[n].upgrades && states[n].upgrades[u].phase.Finished?
    requires r in states[n].redeems && states[n].redeems[r].Done? && states[n].redeems[r].session == Some(sid)
    requires states[n].redeems[r].code in states[n].upgrades[u].phase.known
    ensures !RevokedIn(states[n], sid)
       <==> states[n].redeems[r].outcome == CompensationFailed && NeverRevoked(states, acts, k + 1, n, sid)
  {
    assert Enabled(states[k], acts[k]) && states[k + 1] == Next(states[k], acts[k]);
    OpenIffNeverRevoked(states, acts, k + 1, n, sid);
    if states[n].redeems[r].outcome != CompensationFailed {
      NoSessionOutlivesItsCode(states, acts, n, u, r);
    }
  }

  lemma {:induction false} KnownPersists(states: seq<State>, acts: seq<Action>, n: nat, m: nat, u: int,
      known: set<string>)
    requires Execution(states, acts) && n <= m <= |acts|
    requires u in states[n].upgrades && HasKnown(states[n].upgrades[u].phase, known)
    ensures u in states[m].upgrades && HasKnown(states[m].upgrades[u].phase, known)
    decreases m
  {
    if n < m {
      KnownPersists(states, acts, n, m - 1, u, known);
      StepKeepsKnown(states[m - 1], acts[m - 1], u, known);
    }
  }

  lemma StepKeepsKnown(s: State, a: Action, u: int, known: set<string>)
    requires Enabled(s, a) && u in s.upgrades && HasKnown(s.upgrades[u].phase, known)
    ensures u in Next(s, a).upgrades && HasKnown(Next(s, a).upgrades[u].phase, known)
  {
    OneUpgradeMoves(s, a);
  }

  predicate HasKnown(p: Upgrade, known: set<string>) {
    match p
    case FindAccount => false
    case RevokeCodes(_) => false
    case Failed => true
    case _ => Known(p) == known
  }

  /** `known` is what it says: every code of the account issued before the revocation. */
  lemma RevocationKnowsEveryCode(states: seq<State>, acts: seq<Action>, n: nat, m: nat, u: int)
    requires Execution(states, acts) && n < m <= |acts|
    requires acts[n].UpgradeStep? && acts[n].upgrade == u && states[n].upgrades[u].phase.RevokeCodes?
    requires u in states[m].upgrades && states[m].upgrades[u].phase.Finished?
    ensures states[m].upgrades[u].phase.known == CodesOf(states[n], states[n].upgrades[u].user)
  {
    KnownPersists(states, acts, n + 1, m, u, CodesOf(states[n], states[n].upgrades[u].user));
  }

  /**
   The exception is real, for every code and account: a redemption that found its guest
   before the upgrade opens its session after it, is told that the code no longer works,
   and fails to revoke the session, which stays open.
   */
  lemma FailedCompensationLeavesASession(code: string, user: int) returns (states: seq<State>, acts: seq<Action>)
    ensures Execution(states, acts) && |acts| == 12
    ensures 0 in states[12].upgrades && states[12].upgrades[0].phase.Finished?
    ensures code in states[12].upgrades[0].phase.known
    ensures 0 in states[12].redeems && states[12].redeems[0] == Done(code, Some(2), CompensationFailed)
    ensures 2 in states[12].sessions && states[12].sessions[2] == Session(user, false)
  {
    var known := {code};
    var before := State(map[code := Code(user, false)], map[user := Account(true, 0)], map[], map[], map[]);
    var after := State(map[code := Code(user, true)], map[user := Account(false, 1)],
                       map[1 := Session(user, false)], map[], map[0 := Upgrader(user, Finished(known))]);
    var waiting := map[0 := OpenSession(code, user)];
    var p0, q0 := FoundBefore(code, user, before);
    var p1, q1 := UpgradedMeanwhile(code, user, before.(redeems := waiting));
    var p2, q2 := FailedAfter(code, user, after.(redeems := waiting));
    JoinRuns(p1, q1, p2, q2);
    JoinRuns(p0, q0, p1 + p2[1..], q1 + q2);
    states := p0 + (p1 + p2[1..])[1..];
    acts := q0 + (q1 + q2);
  }

  ghost predicate Path(states: seq<State>, acts: seq<Action>) {
    && |states| == |acts| + 1
    && (forall i {:trigger acts[i]} :: 0 <= i < |acts| ==>
        Enabled(states[i], acts[i]) && states[i + 1] == Next(states[i], acts[i]))
  }

  lemma JoinRuns(p: seq<State>, a: seq<Action>, q: seq<State>, b: seq<Action>)
    requires Path(p, a) && Path(q, b) && p[|a|] == q[0]
    ensures Path(p + q[1..], a + b) && (p + q[1..])[|a| + |b|] == q[|b|] && (p + q[1..])[0] == p[0]
  {
    var r, c := p + q[1..], a + b;
    forall i {:trigger c[i]} | 0 <= i < |c|
      ensures Enabled(r[i], c[i]) && r[i + 1] == Next(r[i], c[i])
    {
      if i < |a| {
        assert Enabled(p[i], a[i]);
      } else {
        assert Enabled(q[i - |a|], b[i - |a|]);
        assert r[i] == q[i - |a|] && r[i + 1] == q[i - |a| + 1];
      }
    }
  }

  /** One step as a path. */
  lemma OneStep(s: State, a: Action, t: State)
    requires Enabled(s, a) && t == Next(s, a)
    ensures Path([s, t], [a])
  {
  }

  lemma AddStep(states: seq<State>, acts: seq<Action>, a: Action, t: State)
    requires Path(states, acts) && Enabled(states[|acts|], a) && t == Next(states[|acts|], a)
    ensures Path(states + [t], acts + [a])
  {
    OneStep(states[|acts|], a, t);
    JoinRuns(states, acts, [states[|acts|], t], [a]);
    assert states + [states[|acts|], t][1..] == states + [t];
  }

  lemma FoundBefore(code: string, user: int, s: State) returns (states: seq<State>, acts: seq<Action>)
    requires s == State(map[code := Code(user, false)], map[user := Account(true, 0)], map[], map[], map[])
    ensures Path(states, acts) && states[0] == s
    ensures acts == [BeginRedeem(0, code), RedeemStep(0, 1), RedeemStep(0, 1)]
    ensures states[3] == s.(redeems := map[0 := OpenSession(code, user)])
  {
    var s1 := s.(redeems := map[0 := FindCode(code)]);
    var s2 := s.(redeems := map[0 := FindGuest(code, user)]);
    var s3 := s.(redeems := map[0 := OpenSession(code, user)]);
    OneStep(s, BeginRedeem(0, code), s1);
    AddStep([s, s1], [BeginRedeem(0, code)], RedeemStep(0, 1), s2);
    AddStep([s, s1] + [s2], [BeginRedeem(0, code)] + [RedeemStep(0, 1)], RedeemStep(0, 1), s3);
    states, acts := [s, s1] + [s2] + [s3], [BeginRedeem(0, code)] + [RedeemStep(0, 1)] + [RedeemStep(0, 1)];
  }

  lemma UpgradedMeanwhile(code: string, user: int, s: State) returns (states: seq<State>, acts: seq<Action>)
    requires s.codes == map[code := Code(user, false)] && s.accounts == map[user := Account(true, 0)]
    requires s.sessions == map[] && s.upgrades == map[]
    ensures Path(states, acts) && states[0] == s
    ensures acts == [BeginUpgrade(0, user), UpgradeStep(0, 1), UpgradeStep(0, 1)]
                    + [UpgradeStep(0, 1), UpgradeStep(0, 1), UpgradeStep(0, 1)]
    ensures states[6] == State(map[code := Code(user, true)], map[user := Account(false, 1)],
                               map[1 := Session(user, false)], s.redeems, map[0 := Upgrader(user, Finished({code}))])
  {
    var p, a := CodesRevoked(code, user, s);
    var q, b := AccountUpgraded(code, user, p[3]);
    JoinRuns(p, a, q, b);
    states, acts := p + q[1..], a + b;
  }

  lemma CodesRevoked(code: string, user: int, s: State) returns (states: seq<State>, acts: seq<Action>)
    requires s.codes == map[code := Code(user, false)] && s.accounts == map[user := Account(true, 0)]
    requires s.sessions == map[] && s.upgrades == map[]
    ensures Path(states, acts) && states[0] == s
    ensures acts == [BeginUpgrade(0, user), UpgradeStep(0, 1), UpgradeStep(0, 1)]
    ensures states[3] == s.(codes := map[code := Code(user, true)],
                            upgrades := map[0 := Upgrader(user, UpdateAccount(0, {code}))])
  {
    assert CodesOf(s, user) == {code};
    var s1 := s.(upgrades := map[0 := Upgrader(user, FindAccount)]);
    var s2 := s.(upgrades := map[0 := Upgrader(user, RevokeCodes(0))]);
    var s3 := s.(codes := map[code := Code(user, true)],
                 upgrades := map[0 := Upgrader(user, UpdateAccount(0, {code}))]);
    assert CodesOf(s2, user) == {code};
    OneStep(s, BeginUpgrade(0, user), s1);
    AddStep([s, s1], [BeginUpgrade(0, user)], UpgradeStep(0, 1), s2);
    AddStep([s, s1] + [s2], [BeginUpgrade(0, user)] + [UpgradeStep(0, 1)], UpgradeStep(0, 1), s3);
    states, acts := [s, s1] + [s2] + [s3], [BeginUpgrade(0, user)] + [UpgradeStep(0, 1)] + [UpgradeStep(0, 1)];
  }

  lemma AccountUpgraded(code: string, user: int, s: State) returns (states: seq<State>, acts: seq<Action>)
    requires s.accounts == map[user := Account(true, 0)] && s.sessions == map[]
    requires s.upgrades == map[0 := Upgrader(user, UpdateAccount(0, {code}))]
    ensures Path(states, acts) && states[0] == s
    ensures acts == [UpgradeStep(0, 1), UpgradeStep(0, 1), UpgradeStep(0, 1)]
    ensures states[3] == s.(accounts := map[user := Account(false, 1)], sessions := map[1 := Session(user, false)],
                            upgrades := map[0 := Upgrader(user, Finished({code}))])
  {
    var t := s.(accounts := map[user := Account(false, 1)]);
    var s1 := t.(upgrades := map[0 := Upgrader(user, RevokeSessions({code}))]);
    var s2 := t.(upgrades := map[0 := Upgrader(user, NewSession({code}))]);
    var s3 := t.(sessions := map[1 := Session(user, false)], upgrades := map[0 := Upgrader(user, Finished({code}))]);
    OneStep(s, UpgradeStep(0, 1), s1);
    AddStep([s, s1], [UpgradeStep(0, 1)], UpgradeStep(0, 1), s2);
    AddStep([s, s1] + [s2], [UpgradeStep(0, 1)] + [UpgradeStep(0, 1)], UpgradeStep(0, 1), s3);
    states, acts := [s, s1] + [s2] + [s3], [UpgradeStep(0, 1)] + [UpgradeStep(0, 1)] + [UpgradeStep(0, 1)];
  }

  lemma OpensLate(code: string, user: int, s: State)
    requires s.sessions == map[1 := Session(user, false)] && s.redeems == map[0 := OpenSession(code, user)]
    ensures Enabled(s, RedeemStep(0, 2))
    ensures Next(s, RedeemStep(0, 2))
         == s.(sessions := map[1 := Session(user, false), 2 := Session(user, false)],
               redeems := map[0 := MarkUsed(code, 2)])
  {
    var t := Next(s, RedeemStep(0, 2));
    assert t.sessions == s.sessions[2 := Session(user, false)];
    assert t.redeems == s.redeems[0 := MarkUsed(code, 2)];
  }

  lemma RefusedLate(code: string, user: int, s: State)
    requires s.codes == map[code := Code(user, true)] && s.redeems == map[0 := MarkUsed(code, 2)]
    requires s.sessions == map[1 := Session(user, false), 2 := Session(user, false)]
    ensures Enabled(s, RedeemStep(0, 3))
    ensures Next(s, RedeemStep(0, 3)) == s.(redeems := map[0 := RevokeOpened(code, 2)])
  {
    assert Next(s, RedeemStep(0, 3)).redeems == s.redeems[0 := RevokeOpened(code, 2)];
  }

  lemma FailedAfter(code: string, user: int, s: State) returns (states: seq<State>, acts: seq<Action>)
    requires s.codes == map[code := Code(user, true)] && s.sessions == map[1 := Session(user, false)]
    requires s.redeems == map[0 := OpenSession(code, user)]
    ensures Path(states, acts) && states[0] == s && acts == [RedeemStep(0, 2), RedeemStep(0, 3), RedeemFails(0)]
    ensures states[3] == s.(sessions := map[1 := Session(user, false), 2 := Session(user, false)],
                            redeems := map[0 := Done(code, Some(2), CompensationFailed)])
  {
    var t := s.(sessions := map[1 := Session(user, false), 2 := Session(user, false)]);
    var s1 := t.(redeems := map[0 := MarkUsed(code, 2)]);
    var s2 := t.(redeems := map[0 := RevokeOpened(code, 2)]);
    var s3 := t.(redeems := map[0 := Done(code, Some(2), CompensationFailed)]);
    OpensLate(code, user, s);
    OneStep(s, RedeemStep(0, 2), s1);
    RefusedLate(code, user, s1);
    AddStep([s, s1], [RedeemStep(0, 2)], RedeemStep(0, 3), s2);
    AddStep([s, s1] + [s2], [RedeemStep(0, 2)] + [RedeemStep(0, 3)], RedeemFails(0), s3);
    states, acts := [s, s1] + [s2] + [s3], [RedeemStep(0, 2)] + [RedeemStep(0, 3)] + [RedeemFails(0)];
  }
}
