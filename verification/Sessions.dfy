/**
 The sessions table under concurrent sign-ins and revocations, one action per
 SQL statement. CreateSession and RevokeUserSessions run in a transaction that
 takes the account's advisory lock first; RevokeSession and RevokeSSOSessions
 are single statements that wait for the row locks of a revocation in progress.
 Rows are keyed by the digest of the session credential, taken as injective.
 */
module Sessions {
  import opened Wrappers

  datatype Session = Session(user: int, createdAt: int, expiresAt: int, revokedAt: Option<int>, ssoSid: Option<string>)

  datatype Phase =
    | CreateWaiting(sid: string, session: Session)
    | CreateLocked(sid: string, session: Session)
    | Inserted(sid: string, session: Session)
    | RevokeWaiting(user: int)
    | RevokeLocked(user: int)
    | Revoking(user: int, rows: set<string>, at: int)

  /** Committed rows, the advisory lock of each account, and the transactions in progress. */
  datatype State = State(rows: map<string, Session>, locks: map<int, int>, clients: map<int, Phase>)

  datatype Action =
    | BeginCreate(client: int, sid: string, user: int, createdAt: int, lifetime: int, binding: Option<string>)
    | LockForCreate(client: int)
    | Insert(client: int)
    | BeginRevokeUser(client: int, user: int)
    | LockForRevoke(client: int)
    | UpdateAll(client: int, at: int)
    | Commit(client: int)
    | Abort(client: int)
    | RevokeOne(sid: string, at: int)
    | RevokeSso(ssoSid: string, at: int)

  function Coalesce(r: Option<int>, at: int): (result: Option<int>) {
    if r.Some? then r else Some(at)
  }

  function RowsOf(s: State, user: int): (r: set<string>) {
    set sid | sid in s.rows && s.rows[sid].user == user
  }

  /** Whether an uncommitted revocation holds the row lock of a session. */
  ghost predicate RowLocked(s: State, sid: string) {
    exists c :: c in s.clients && s.clients[c].Revoking? && sid in s.clients[c].rows
  }

  ghost predicate Enabled(s: State, a: Action) {
    match a
    case BeginCreate(c, sid, user, at, lifetime, _) =>
      c !in s.clients && sid !in s.rows && user > 0 && lifetime >= 1
    case LockForCreate(c) => c in s.clients && s.clients[c].CreateWaiting? && s.clients[c].session.user !in s.locks
    case Insert(c) => c in s.clients && s.clients[c].CreateLocked?
    case BeginRevokeUser(c, user) => c !in s.clients
    case LockForRevoke(c) => c in s.clients && s.clients[c].RevokeWaiting? && s.clients[c].user !in s.locks
    case UpdateAll(c, at) => c in s.clients && s.clients[c].RevokeLocked?
    case Commit(c) =>
      && c in s.clients
      && ((s.clients[c].Inserted? && s.clients[c].sid !in s.rows) || s.clients[c].Revoking?)
    case Abort(c) => c in s.clients
    case RevokeOne(sid, at) => sid in s.rows && !RowLocked(s, sid)
    case RevokeSso(ssoSid, at) =>
      forall sid :: sid in s.rows && s.rows[sid].ssoSid == Some(ssoSid) && s.rows[sid].revokedAt.None? ==>
          !RowLocked(s, sid)
  }

  function End(s: State, c: int): (r: State) {
    s.(clients := s.clients - {c}, locks := map u | u in s.locks && s.locks[u] != c :: s.locks[u])
  }

  /** COALESCE(revoked_at, at) on a set of rows. */
  function Revoked(rows: map<string, Session>, sids: set<string>, at: int): (r: map<string, Session>) {
    map sid | sid in rows ::
      if sid in sids then rows[sid].(revokedAt := Coalesce(rows[sid].revokedAt, at)) else rows[sid]
  }

  ghost function Next(s: State, a: Action): (r: State)
    requires Enabled(s, a)
  {
    match a
    case BeginCreate(c, sid, user, at, lifetime, sso) =>
      s.(clients := s.clients[c := CreateWaiting(sid, Session(user, at, at + lifetime, None, sso))])
    case LockForCreate(c) =>
      var p := s.clients[c];
      s.(clients := s.clients[c := CreateLocked(p.sid, p.session)], locks := s.locks[p.session.user := c])
    case Insert(c) => s.(clients := s.clients[c := Inserted(s.clients[c].sid, s.clients[c].session)])
    case BeginRevokeUser(c, user) => s.(clients := s.clients[c := RevokeWaiting(user)])
    case LockForRevoke(c) =>
      var u := s.clients[c].user;
      s.(clients := s.clients[c := RevokeLocked(u)], locks := s.locks[u := c])
    case UpdateAll(c, at) =>
      var u := s.clients[c].user;
      s.(clients := s.clients[c := Revoking(u, RowsOf(s, u), at)])
    case Commit(c) =>
      var p := s.clients[c];
      var rows := if p.Inserted? then s.rows[p.sid := p.session] else Revoked(s.rows, p.rows, p.at);
      End(s.(rows := rows), c)
    case Abort(c) => End(s, c)
    case RevokeOne(sid, at) => s.(rows := Revoked(s.rows, {sid}, at))
    case RevokeSso(ssoSid, at) =>
      var bound := set sid | sid in s.rows && s.rows[sid].ssoSid == Some(ssoSid) && s.rows[sid].revokedAt.None?;
      s.(rows := Revoked(s.rows, bound, at))
  }

  /** What SessionService.Lookup answers for a credential at a time. */
  datatype Outcome = Accepted(session: Session) | NotFound | Invalid | RevokedSession | Expired

  function Lookup(rows: map<string, Session>, sid: string, now: int): (r: Outcome) {
    if sid !in rows then NotFound
    else
      var r := rows[sid];
      if r.user <= 0 || r.expiresAt <= r.createdAt then Invalid
      else if r.revokedAt.Some? then RevokedSession
      else if now >= r.expiresAt then Expired
      else Accepted(r)
  }

  /** What the table's CHECK constraint and CreateSession require of a row. */
  predicate WellFormed(r: Session) {
    r.user > 0 && r.expiresAt > r.createdAt
  }

  /** states[i] is the database before acts[i]; nobody is connected at the start. */
  ghost predicate Execution(states: seq<State>, acts: seq<Action>) {
    && |states| == |acts| + 1
    && states[0].clients == map[] && states[0].locks == map[]
    && (forall sid :: sid in states[0].rows ==> WellFormed(states[0].rows[sid]))
    && (forall i {:trigger acts[i]} :: 0 <= i < |acts| ==>
        Enabled(states[i], acts[i]) && states[i + 1] == Next(states[i], acts[i]))
  }

  /** The advisory locks are held by the transactions that took them, and a
      revocation that has run its UPDATE covers every committed session of its account. */
  ghost predicate Inv(s: State) {
    && (forall sid :: sid in s.rows ==> WellFormed(s.rows[sid]))
    && (forall c :: c in s.clients ==>
          match s.clients[c]
          case CreateWaiting(_, session) => WellFormed(session)
          case CreateLocked(_, session) => WellFormed(session) && session.user in s.locks && s.locks[session.user] == c
          case Inserted(_, session) => WellFormed(session) && session.user in s.locks && s.locks[session.user] == c
          case RevokeLocked(u) => u in s.locks && s.locks[u] == c
          case Revoking(u, rows, _) => u in s.locks && s.locks[u] == c && rows == RowsOf(s, u)
          case _ => true)
  }

  lemma StepKeeps(s: State, a: Action)
    requires Inv(s) && Enabled(s, a)
    ensures Inv(Next(s, a))
  {
    var t := Next(s, a);
    forall c | c in t.clients && t.clients[c].Revoking? ensures t.clients[c].rows == RowsOf(t, t.clients[c].user) {
      if c in s.clients && s.clients[c] == t.clients[c] {
        assert RowsOf(s, t.clients[c].user) == RowsOf(t, t.clients[c].user);
      }
    }
  }

  lemma {:induction false} ReachableInv(states: seq<State>, acts: seq<Action>, n: nat)
    requires Execution(states, acts) && n <= |acts|
    ensures Inv(states[n])
  {
    if n > 0 {
      ReachableInv(states, acts, n - 1);
      StepKeeps(states[n - 1], acts[n - 1]);
    }
  }

  /** A row keeps its account and times, and a revocation time is final. */
  ghost predicate RowKept(before: Session, after: Session) {
    after == before || (before.revokedAt.None? && after == before.(revokedAt := after.revokedAt))
  }

  lemma StepKeepsRow(s: State, a: Action, sid: string)
    requires Enabled(s, a) && sid in s.rows
    ensures sid in Next(s, a).rows && RowKept(s.rows[sid], Next(s, a).rows[sid])
  {
  }

  /** A set revoked_at never changes, and neither does anything else in the row. */
  lemma {:induction false} RevocationIsFinal(states: seq<State>, acts: seq<Action>, n: nat, m: nat, sid: string)
    requires Execution(states, acts) && n <= m <= |acts| && sid in states[n].rows
    ensures sid in states[m].rows && RowKept(states[n].rows[sid], states[m].rows[sid])
    decreases m
  {
    if n < m {
      RevocationIsFinal(states, acts, n, m - 1, sid);
      StepKeepsRow(states[m - 1], acts[m - 1], sid);
    }
  }

  /** In every reachable database a stored session is accepted until it is revoked or expires. */
  lemma AcceptedUntilRevokedOrExpired(states: seq<State>, acts: seq<Action>, n: nat, sid: string, now: int)
    requires Execution(states, acts) && n <= |acts|
    ensures Lookup(states[n].rows, sid, now).Accepted? <==>
              sid in states[n].rows && states[n].rows[sid].revokedAt.None? && now < states[n].rows[sid].expiresAt
    ensures Lookup(states[n].rows, sid, now).NotFound? <==> sid !in states[n].rows
    ensures Lookup(states[n].rows, sid, now).RevokedSession? <==>
              sid in states[n].rows && states[n].rows[sid].revokedAt.Some?
    ensures Lookup(states[n].rows, sid, now).Accepted? ==>
              Lookup(states[n].rows, sid, now).session == states[n].rows[sid]
    ensures !Lookup(states[n].rows, sid, now).Invalid?
  {
    ReachableInv(states, acts, n);
  }

  /** A session once rejected as revoked or expired is rejected for good. */
  lemma RejectedStaysRejected(states: seq<State>, acts: seq<Action>, n: nat, m: nat, sid: string, now: int, later: int)
    requires Execution(states, acts) && n <= m <= |acts| && now <= later
    requires Lookup(states[n].rows, sid, now).RevokedSession? || Lookup(states[n].rows, sid, now).Expired?
    ensures Lookup(states[m].rows, sid, later).RevokedSession? || Lookup(states[m].rows, sid, later).Expired?
  {
    RevocationIsFinal(states, acts, n, m, sid);
  }

  /**
   The commit of RevokeUserSessions is the atomic revocation of everything the
   account has at that moment, although its UPDATE ran earlier.
   */
  lemma RevokeUserIsAtomic(states: seq<State>, acts: seq<Action>, n: nat)
    requires Execution(states, acts) && n < |acts| && acts[n].Commit? && states[n].clients[acts[n].client].Revoking?
    ensures var p := states[n].clients[acts[n].client];
            states[n + 1].rows == Revoked(states[n].rows, RowsOf(states[n], p.user), p.at)
  {
    ReachableInv(states, acts, n);
  }

  /** No session committed before a RevokeUser commit is accepted at any time after it. */
  lemma NothingSurvivesRevokeUser(states: seq<State>, acts: seq<Action>, n: nat, m: nat, sid: string, now: int)
    requires Execution(states, acts) && n < m <= |acts| && acts[n].Commit?
             && states[n].clients[acts[n].client].Revoking?
    requires sid in states[n].rows && states[n].rows[sid].user == states[n].clients[acts[n].client].user
    ensures !Lookup(states[m].rows, sid, now).Accepted?
    ensures sid in states[m].rows && states[m].rows[sid].revokedAt.Some?
  {
    RevokeUserIsAtomic(states, acts, n);
    RevocationIsFinal(states, acts, n + 1, m, sid);
  }

  /** One statement may have revoked these rows, at this time, if nothing had before; it changed nothing else. */
  ghost predicate RevokedJust(s: State, t: State, at: int, covered: set<string>) {
    && (forall sid :: sid in t.rows <==> sid in s.rows)
    && forall sid :: sid in s.rows ==>
         && t.rows[sid].user == s.rows[sid].user && t.rows[sid].ssoSid == s.rows[sid].ssoSid
         && t.rows[sid].createdAt == s.rows[sid].createdAt && t.rows[sid].expiresAt == s.rows[sid].expiresAt
         && t.rows[sid].revokedAt
            == if sid in covered && s.rows[sid].revokedAt == None then Some(at) else s.rows[sid].revokedAt
  }

  /** A sign-out revokes its session and no other, and the session is never accepted again. */
  lemma RevokeOneLeaves(states: seq<State>, acts: seq<Action>, n: nat, m: nat, sid: string, at: int, now: int)
    requires Execution(states, acts) && n < m <= |acts| && acts[n] == RevokeOne(sid, at)
    ensures RevokedJust(states[n], states[n + 1], at, {sid})
    ensures sid in states[m].rows && states[m].rows[sid].revokedAt.Some? && !Lookup(states[m].rows, sid, now).Accepted?
  {
    assert Enabled(states[n], acts[n]) && states[n + 1] == Next(states[n], acts[n]);
    RevocationIsFinal(states, acts, n + 1, m, sid);
  }

  /** The issuer's logout revokes exactly the sessions bound to it that nothing had revoked. */
  lemma RevokeSsoLeaves(states: seq<State>, acts: seq<Action>, n: nat, m: nat, x: string, at: int, sid: string,
      now: int)
    requires Execution(states, acts) && n < m <= |acts| && acts[n] == RevokeSso(x, at)
    ensures RevokedJust(states[n], states[n + 1], at,
                        set row | row in states[n].rows && states[n].rows[row].ssoSid == Some(x))
    ensures sid in states[n].rows && states[n].rows[sid].ssoSid == Some(x) ==>
              && sid in states[m].rows && states[m].rows[sid].revokedAt.Some?
              && !Lookup(states[m].rows, sid, now).Accepted?
  {
    assert Enabled(states[n], acts[n]) && states[n + 1] == Next(states[n], acts[n]);
    if sid in states[n].rows && states[n].rows[sid].ssoSid == Some(x) {
      RevocationIsFinal(states, acts, n + 1, m, sid);
    }
  }

  /** No statement of client c in between. */
  ghost predicate Rests(acts: seq<Action>, j: nat, n: nat, c: int)
    requires n <= |acts|
  {
    forall k :: j <= k < n ==> Mover(acts[k]) != Some(c)
  }

  /** The transaction a statement belongs to; the single statements are their own. */
  function Mover(a: Action): (r: Option<int>) {
    match a
    case RevokeOne(_, _) => None
    case RevokeSso(_, _) => None
    case _ => Some(a.client)
  }

  lemma {:induction false} ClientStays(states: seq<State>, acts: seq<Action>, j: nat, n: nat, c: int)
    requires Execution(states, acts) && j <= n <= |acts| && c in states[j].clients && Rests(acts, j, n, c)
    ensures c in states[n].clients && states[n].clients[c] == states[j].clients[c]
    decreases n
  {
    if j < n {
      ClientStays(states, acts, j, n - 1, c);
      assert Enabled(states[n - 1], acts[n - 1]);
      OthersStay(states[n - 1], acts[n - 1], c);
    }
  }

  lemma OthersStay(s: State, a: Action, c: int)
    requires Enabled(s, a) && c in s.clients && Mover(a) != Some(c)
    ensures c in Next(s, a).clients && Next(s, a).clients[c] == s.clients[c]
  {
  }

  /**
   RevokeUserSessions, row by row: its commit revokes every session the account has by
   then, at the time its UPDATE was given, and changes nothing else.
   */
  lemma RevokeUserLeaves(states: seq<State>, acts: seq<Action>, j: nat, n: nat, c: int, at: int)
    requires Execution(states, acts) && j < n < |acts| && acts[j] == UpdateAll(c, at) && acts[n] == Commit(c)
    requires Rests(acts, j + 1, n, c)
    ensures RevokedJust(states[n], states[n + 1], at,
                        set sid | sid in states[n].rows && states[n].rows[sid].user == states[j].clients[c].user)
  {
    assert Enabled(states[j], acts[j]) && states[j + 1] == Next(states[j], acts[j]);
    ClientStays(states, acts, j + 1, n, c);
    RevokeUserIsAtomic(states, acts, n);
  }

  /**
   A sign-in: its commit adds the one row it was asked for, bound and dated as asked, which
   is accepted at every time before its lifetime has passed until something revokes it.
   */
  lemma CreateLeaves(states: seq<State>, acts: seq<Action>, h: nat, i: nat, j: nat, n: nat, m: nat, now: int)
    requires Execution(states, acts) && h < i < j < n < m <= |acts| && acts[h].BeginCreate?
    requires acts[i] == LockForCreate(acts[h].client) && acts[j] == Insert(acts[h].client)
    requires acts[n] == Commit(acts[h].client)
    requires Rests(acts, h + 1, i, acts[h].client) && Rests(acts, i + 1, j, acts[h].client)
    requires Rests(acts, j + 1, n, acts[h].client)
    ensures var create := acts[h];
            && create.sid !in states[n].rows
            && states[n + 1].rows == states[n].rows[create.sid :=
                 Session(create.user, create.createdAt, create.createdAt + create.lifetime, None, create.binding)]
            && create.sid in states[m].rows
            && (Lookup(states[m].rows, create.sid, now).Accepted? <==>
                  states[m].rows[create.sid].revokedAt.None? && now < create.createdAt + create.lifetime)
  {
    var c := acts[h].client;
    assert Enabled(states[h], acts[h]) && states[h + 1] == Next(states[h], acts[h]);
    ClientStays(states, acts, h + 1, i, c);
    assert Enabled(states[i], acts[i]) && states[i + 1] == Next(states[i], acts[i]);
    ClientStays(states, acts, i + 1, j, c);
    assert Enabled(states[j], acts[j]) && states[j + 1] == Next(states[j], acts[j]);
    ClientStays(states, acts, j + 1, n, c);
    assert Enabled(states[n], acts[n]) && states[n + 1] == Next(states[n], acts[n]);
    RevocationIsFinal(states, acts, n + 1, m, acts[h].sid);
    AcceptedUntilRevokedOrExpired(states, acts, m, acts[h].sid, now);
  }

  /** The client can go on; a sign-in whose identifier is taken meanwhile can only give up. */
  ghost predicate CanGoOn(s: State, c: int) {
    exists a :: Mover(a) == Some(c) && Enabled(s, a)
                && (a.Abort? ==> s.clients[c].Inserted? && s.clients[c].sid in s.rows)
  }

  lemma HolderGoesOn(s: State, c: int)
    requires c in s.clients && !s.clients[c].CreateWaiting? && !s.clients[c].RevokeWaiting?
    ensures CanGoOn(s, c)
  {
    var a := match s.clients[c]
      case CreateLocked(_, _) => Insert(c)
      case RevokeLocked(_) => UpdateAll(c, 0)
      case Inserted(sid, _) => if sid in s.rows then Abort(c) else Commit(c)
      case _ => Commit(c);
    assert Mover(a) == Some(c) && Enabled(s, a);
  }

  /** The lock of an account is held by a transaction that has it and is past waiting. */
  ghost predicate LocksOk(s: State) {
    forall u :: u in s.locks ==>
      && s.locks[u] in s.clients && !s.clients[s.locks[u]].CreateWaiting? && !s.clients[s.locks[u]].RevokeWaiting?
  }

  lemma {:induction false} ReachableLocks(states: seq<State>, acts: seq<Action>, n: nat)
    requires Execution(states, acts) && n <= |acts|
    ensures LocksOk(states[n])
  {
    if n > 0 {
      ReachableLocks(states, acts, n - 1);
      assert Enabled(states[n - 1], acts[n - 1]) && states[n] == Next(states[n - 1], acts[n - 1]);
    }
  }

  /** A transaction that gives up leaves nothing behind: no change, and no lock. */
  lemma GivesUp(s: State, c: int)
    requires c in s.clients
    ensures Enabled(s, Abort(c))
    ensures var t := Next(s, Abort(c));
            && c !in t.clients && t.rows == s.rows
            && forall user :: user in t.locks <==> user in s.locks && s.locks[user] != c
  {
  }

  /**
   No deadlock: an open transaction can go on, or waits for its account's lock, whose
   holder can; a sign-out or an issuer's logout can run, or waits for a revocation that can commit.
   */
  lemma NoDeadlock(states: seq<State>, acts: seq<Action>, n: nat, c: int, sid: string, x: string, at: int)
    requires Execution(states, acts) && n <= |acts|
    ensures var s := states[n];
            && (c in s.clients && !CanGoOn(s, c) ==>
                 && (s.clients[c].CreateWaiting? || s.clients[c].RevokeWaiting?)
                 && var user := if s.clients[c].CreateWaiting? then s.clients[c].session.user else s.clients[c].user;
                    user in s.locks && CanGoOn(s, s.locks[user]))
            && (sid in s.rows ==> Enabled(s, RevokeOne(sid, at)) || exists d :: Enabled(s, Commit(d)))
            && (Enabled(s, RevokeSso(x, at)) || exists d :: Enabled(s, Commit(d)))
  {
    var s := states[n];
    ReachableLocks(states, acts, n);
    if c in s.clients {
      if s.clients[c].CreateWaiting? {
        var user := s.clients[c].session.user;
        if user in s.locks {
          HolderGoesOn(s, s.locks[user]);
        } else {
          assert Mover(LockForCreate(c)) == Some(c) && Enabled(s, LockForCreate(c));
        }
      } else if s.clients[c].RevokeWaiting? {
        var user := s.clients[c].user;
        if user in s.locks {
          HolderGoesOn(s, s.locks[user]);
        } else {
          assert Mover(LockForRevoke(c)) == Some(c) && Enabled(s, LockForRevoke(c));
        }
      } else {
        HolderGoesOn(s, c);
      }
    }
    if exists row :: RowLocked(s, row) {
      var row :| RowLocked(s, row);
      var d :| d in s.clients && s.clients[d].Revoking? && row in s.clients[d].rows;
      assert Enabled(s, Commit(d));
    }
  }

  /** A session's life without contention, for any account and times: created, then ended with all of its account's. */
  lemma SignInThenRevoke(sid: string, user: int, createdAt: int, lifetime: int, binding: Option<string>, at: int)
    returns (states: seq<State>, acts: seq<Action>)
    requires user > 0 && lifetime >= 1
    ensures Execution(states, acts)
    ensures acts == [BeginCreate(0, sid, user, createdAt, lifetime, binding), LockForCreate(0), Insert(0), Commit(0),
                     BeginRevokeUser(0, user), LockForRevoke(0), UpdateAll(0, at), Commit(0)]
    ensures states[8]
         == State(map[sid := Session(user, createdAt, createdAt + lifetime, Some(at), binding)], map[], map[])
  {
    var session := Session(user, createdAt, createdAt + lifetime, None, binding);
    var s0 := State(map[], map[], map[]);
    var s1 := s0.(clients := map[0 := CreateWaiting(sid, session)]);
    var s2 := s0.(clients := map[0 := CreateLocked(sid, session)], locks := map[user := 0]);
    var s3 := s2.(clients := map[0 := Inserted(sid, session)]);
    var s4 := s0.(rows := map[sid := session]);
    var s5 := s4.(clients := map[0 := RevokeWaiting(user)]);
    var s6 := s4.(clients := map[0 := RevokeLocked(user)], locks := map[user := 0]);
    var s7 := s6.(clients := map[0 := Revoking(user, {sid}, at)]);
    var s8 := s4.(rows := map[sid := session.(revokedAt := Some(at))]);
    acts := [BeginCreate(0, sid, user, createdAt, lifetime, binding), LockForCreate(0), Insert(0), Commit(0),
             BeginRevokeUser(0, user), LockForRevoke(0), UpdateAll(0, at), Commit(0)];
    states := [s0, s1, s2, s3, s4, s5, s6, s7, s8];
    CreatesAlone(s0, s1, s2, s3, s4, acts[0]);
    RevokesAlone(s4, s5, s6, s7, s8, sid, user, at);
  }

  lemma CreatesAlone(s0: State, s1: State, s2: State, s3: State, s4: State, begin: Action)
    requires s0.clients == map[] && s0.locks == map[] && begin.BeginCreate? && begin.client == 0
    requires begin.sid !in s0.rows
    requires begin.user > 0 && begin.lifetime >= 1 && s1.clients.Keys == {0} && s1.clients[0].CreateWaiting?
    requires s1.clients[0] == CreateWaiting(begin.sid, Session(begin.user, begin.createdAt,
                                                               begin.createdAt + begin.lifetime, None, begin.binding))
    requires s1 == s0.(clients := s1.clients)
    requires s2 == s0.(clients := map[0 := CreateLocked(begin.sid, s1.clients[0].session)],
                       locks := map[begin.user := 0])
    requires s3 == s2.(clients := map[0 := Inserted(begin.sid, s1.clients[0].session)])
    requires s4 == s0.(rows := s0.rows[begin.sid := s1.clients[0].session])
    ensures Enabled(s0, begin) && Next(s0, begin) == s1
    ensures Enabled(s1, LockForCreate(0)) && Next(s1, LockForCreate(0)) == s2
    ensures Enabled(s2, Insert(0)) && Next(s2, Insert(0)) == s3
    ensures Enabled(s3, Commit(0)) && Next(s3, Commit(0)) == s4
  {
  }

  lemma RevokesAlone(s4: State, s5: State, s6: State, s7: State, s8: State, sid: string, user: int, at: int)
    requires s4.rows.Keys == {sid} && s4.rows[sid].user == user && s4.rows[sid].revokedAt.None?
    requires s4.clients == map[] && s4.locks == map[] && s5 == s4.(clients := map[0 := RevokeWaiting(user)])
    requires s6 == s4.(clients := map[0 := RevokeLocked(user)], locks := map[user := 0])
    requires s7 == s6.(clients := map[0 := Revoking(user, {sid}, at)])
    requires s8 == s4.(rows := map[sid := s4.rows[sid].(revokedAt := Some(at))])
    ensures Enabled(s4, BeginRevokeUser(0, user)) && Next(s4, BeginRevokeUser(0, user)) == s5
    ensures Enabled(s5, LockForRevoke(0)) && Next(s5, LockForRevoke(0)) == s6
    ensures Enabled(s6, UpdateAll(0, at)) && Next(s6, UpdateAll(0, at)) == s7
    ensures Enabled(s7, Commit(0)) && Next(s7, Commit(0)) == s8
  {
    assert RowsOf(s6, user) == {sid};
  }
}
