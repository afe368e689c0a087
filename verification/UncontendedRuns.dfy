/**
 Runs in which transactions meet no contention: building blocks for showing what a
 version ahead of its row can lead to.
 */
module UncontendedRuns {
  import opened Wrappers
  import opened Sets
  import opened Accounts

  /** s with client c at phase p of a transaction on account id. */
  function With(s: State, c: int, id: int, p: Phase): (r: State) {
    s.(clients := s.clients[c := Client(id, p)])
  }

  ghost predicate Idle(s: State, c: int, id: int) {
    && c !in s.clients && id in s.rows && id !in s.rowLocks && s.adminLock != Some(c)
    && (forall k :: k in s.rowLocks ==> s.rowLocks[k] != c)
  }

  /** The committed effect of an update or a deletion. */
  function Applied(s: State, id: int, w: Write): (r: State)
    requires id in s.rows
  {
    match w
    case Replace(edit, copy) => Put(s, id, Overwrite(s.rows[id], edit.Apply(copy)))
    case _ => Drop(s, id)
  }

  lemma Unlocked(s: State, c: int, id: int, w: Write)
    requires !(w.Guarded() && AdminAt(s, id))
    ensures Transition(With(s, c, id, Start(w)), Guard(c), With(s, c, id, Writing(w)))
  {
  }

  lemma Guarding(s: State, c: int, id: int, w: Write)
    requires w.Guarded() && AdminAt(s, id) && s.adminLock == None
    ensures Transition(With(s, c, id, Start(w)), Guard(c), With(s, c, id, Waiting(w)))
    ensures Transition(With(s, c, id, Waiting(w)), Lock(c), With(s, c, id, Locked(w)).(adminLock := Some(c)))
  {
  }

  lemma Counting(s: State, c: int, id: int, w: Write)
    ensures var n := |OtherAdmins(s, id)|;
            && Transition(With(s, c, id, Locked(w)), Count(c), With(s, c, id, Counted(w, n)))
            && (n > 0 ==> Transition(With(s, c, id, Counted(w, n)), Recheck(c), With(s, c, id, Writing(w))))
  {
    assert OtherAdmins(With(s, c, id, Locked(w)), id) == OtherAdmins(s, id);
  }

  lemma Releasing(s: State, c: int, id: int, held: State)
    requires Idle(s, c, id) && c in held.clients && held.clients == s.clients[c := held.clients[c]]
    requires held.rowLocks == s.rowLocks[id := c]
    requires held.adminLock == s.adminLock || (held.adminLock == Some(c) && s.adminLock == None)
    ensures End(held, c) == held.(clients := s.clients, rowLocks := s.rowLocks, adminLock := s.adminLock)
  {
    assert End(held, c).clients == s.clients;
    forall k
      ensures k in End(held, c).rowLocks <==> k in s.rowLocks
    {
      assert k in held.rowLocks <==> k in s.rowLocks || k == id;
    }
    assert End(held, c).rowLocks == s.rowLocks;
  }

  lemma Finishing(s: State, c: int, id: int, w: Write, locked: bool)
    requires Idle(s, c, id) && (w.Replace? || w.Remove?) && Matches(s, id, w)
    requires locked ==> s.adminLock == None
    ensures var t := if locked then s.(adminLock := Some(c)) else s;
            var held := With(t, c, id, Written(w)).(rowLocks := s.rowLocks[id := c]);
            && Transition(With(t, c, id, Writing(w)), WriteRow(c), held)
            && Transition(held, Commit(c, 0), Applied(s, id, w))
  {
    var t := if locked then s.(adminLock := Some(c)) else s;
    var held := With(t, c, id, Written(w)).(rowLocks := s.rowLocks[id := c]);
    Releasing(s, c, id, Effect(held, c, 0));
  }

  /** The unique constraint on the email column. */
  ghost predicate UniqueEmails(rows: map<int, User>) {
    forall a, b :: a in rows && b in rows && a != b && rows[a].email.Some? ==> rows[a].email != rows[b].email
  }

  ghost predicate AllUnique(states: seq<State>) {
    forall i :: 0 <= i < |states| ==> UniqueEmails(states[i].rows)
  }

  predicate EmailFree(rows: map<int, User>, id: int, email: Option<string>) {
    email.None? || forall other :: other in rows && other != id ==> rows[other].email != email
  }

  /** A new email for one account that no other account has keeps the column unique. */
  lemma NewEmailUnique(rows: map<int, User>, id: int, u: User)
    requires UniqueEmails(rows) && EmailFree(rows, id, u.email)
    ensures UniqueEmails(rows[id := u])
  {
  }

  ghost predicate Path(states: seq<State>, acts: seq<Action>) {
    |states| == |acts| + 1 && forall i :: 0 <= i < |acts| ==> Transition(states[i], acts[i], states[i + 1])
  }

  /** A path whose form versions are never ahead. */
  ghost predicate GoodPath(states: seq<State>, acts: seq<Action>) {
    Path(states, acts) && forall i :: 0 <= i < |acts| ==> Disciplined(states[i], acts[i])
  }

  lemma Join(p: seq<State>, a: seq<Action>, q: seq<State>, b: seq<Action>)
    requires Path(p, a) && Path(q, b) && p[|a|] == q[0]
    ensures Path(p + q[1..], a + b)
    ensures (p + q[1..])[0] == p[0] && (p + q[1..])[|a| + |b|] == q[|b|]
    ensures GoodPath(p, a) && GoodPath(q, b) ==> GoodPath(p + q[1..], a + b)
    ensures AllUnique(p) && AllUnique(q) ==> AllUnique(p + q[1..])
  {
    var r, c := p + q[1..], a + b;
    forall i | 0 <= i < |c|
      ensures Transition(r[i], c[i], r[i + 1])
      ensures GoodPath(p, a) && GoodPath(q, b) ==> Disciplined(r[i], c[i])
    {
      if i < |a| {
        assert Transition(p[i], a[i], p[i + 1]);
      } else {
        assert Transition(q[i - |a|], b[i - |a|], q[i - |a| + 1]);
        assert r[i] == q[i - |a|] && r[i + 1] == q[i - |a| + 1];
      }
    }
  }

  /** An update of an idle account whose guard needs no lock. */
  lemma UnlockedRun(s: State, c: int, id: int, edit: Edit) returns (states: seq<State>, acts: seq<Action>)
    requires Idle(s, c, id) && s.rows[id].version == edit.ExpectedVersion(s.rows[id])
    requires !(Replace(edit, s.rows[id]).Guarded() && AdminAt(s, id))
    ensures GoodPath(states, acts) && states[0] == s
    ensures UniqueEmails(s.rows) && UniqueEmails(states[|acts|].rows) ==> AllUnique(states)
    ensures states[|acts|] == Applied(s, id, Replace(edit, s.rows[id]))
  {
    var w := Replace(edit, s.rows[id]);
    Unlocked(s, c, id, w);
    Finishing(s, c, id, w, false);
    acts := [Load(c, id, edit), Guard(c), WriteRow(c), Commit(c, 0)];
    states := [s, With(s, c, id, Start(w)), With(s, c, id, Writing(w)),
               With(s, c, id, Written(w)).(rowLocks := s.rowLocks[id := c]), Applied(s, id, w)];
    assert Transition(states[0], acts[0], states[1]);
  }

  /** From its start, a guarded write of an administrator passes while another one exists. */
  lemma GuardRun(s: State, c: int, id: int, w: Write, other: int) returns (states: seq<State>, acts: seq<Action>)
    requires c !in s.clients && s.adminLock == None && w.Guarded() && AdminAt(s, id)
    requires other != id && AdminAt(s, other)
    ensures GoodPath(states, acts) && (UniqueEmails(s.rows) ==> AllUnique(states))
    ensures states[0] == With(s, c, id, Start(w))
    ensures states[|acts|] == With(s.(adminLock := Some(c)), c, id, Writing(w))
  {
    var t := s.(adminLock := Some(c));
    var n := |OtherAdmins(t, id)|;
    assert other in OtherAdmins(t, id);
    Guarding(s, c, id, w);
    Counting(t, c, id, w);
    acts := [Guard(c), Lock(c), Count(c), Recheck(c)];
    states := [With(s, c, id, Start(w)), With(s, c, id, Waiting(w)), With(t, c, id, Locked(w)),
               With(t, c, id, Counted(w, n)), With(t, c, id, Writing(w))];
  }

  /** The demotion of an idle administrator while another one exists. */
  lemma LockedRun(s: State, c: int, id: int, edit: Edit, other: int) returns (states: seq<State>, acts: seq<Action>)
    requires Idle(s, c, id) && s.rows[id].version == edit.ExpectedVersion(s.rows[id]) && s.adminLock == None
    requires Replace(edit, s.rows[id]).Guarded() && AdminAt(s, id) && other != id && AdminAt(s, other)
    ensures GoodPath(states, acts) && states[0] == s
    ensures UniqueEmails(s.rows) && UniqueEmails(states[|acts|].rows) ==> AllUnique(states)
    ensures states[|acts|] == Applied(s, id, Replace(edit, s.rows[id]))
  {
    var w := Replace(edit, s.rows[id]);
    var p, a := GuardRun(s, c, id, w, other);
    OneStep(s, Load(c, id, edit), p[0]);
    Join([s, p[0]], [Load(c, id, edit)], p, a);
    var q, b := WriteRun(s, c, id, w, true);
    Join([s, p[0]] + p[1..], [Load(c, id, edit)] + a, q, b);
    states, acts := [s, p[0]] + p[1..] + q[1..], [Load(c, id, edit)] + a + b;
  }

  lemma OneStep(s: State, a: Action, t: State)
    requires Transition(s, a, t)
    ensures Path([s, t], [a]) && (Disciplined(s, a) ==> GoodPath([s, t], [a]))
    ensures UniqueEmails(s.rows) && UniqueEmails(t.rows) ==> AllUnique([s, t])
  {
  }

  /** The write and the commit of a client that has passed its guard. */
  lemma WriteRun(s: State, c: int, id: int, w: Write, locked: bool) returns (states: seq<State>, acts: seq<Action>)
    requires Idle(s, c, id) && (w.Replace? || w.Remove?) && Matches(s, id, w) && (locked ==> s.adminLock == None)
    ensures GoodPath(states, acts) && acts == [WriteRow(c), Commit(c, 0)]
    ensures states[0] == With(if locked then s.(adminLock := Some(c)) else s, c, id, Writing(w))
    ensures states[1].rows == s.rows && c in states[1].clients && states[1].clients[c] == Client(id, Written(w))
    ensures states[2] == Applied(s, id, w)
    ensures UniqueEmails(s.rows) && UniqueEmails(states[2].rows) ==> AllUnique(states)
  {
    var t := if locked then s.(adminLock := Some(c)) else s;
    Finishing(s, c, id, w, locked);
    acts := [WriteRow(c), Commit(c, 0)];
    states := [With(t, c, id, Writing(w)), With(t, c, id, Written(w)).(rowLocks := s.rowLocks[id := c]),
               Applied(s, id, w)];
  }

  /** Updates that raise a row's version by one each time they are repeated. */
  datatype Bump = Promote(email: string) | Rename(name: string) | SetHash(hash: string)
  {
    function EditOf(u: User): (edit: Edit) {
      match this
      case Promote(email) => AdminEdit(email, true, None, u.version)
      case Rename(name) => SetProfile(u.username, Some(name))
      case SetHash(hash) => SetPassword(hash)
    }

    /** The row after k of them. */
    function Times(u: User, k: nat): (r: User) {
      match this
      case Promote(email) => u.(email := Some(email), isAdmin := true, version := u.version + k)
      case Rename(name) => u.(displayName := Some(name), version := u.version + k)
      case SetHash(hash) => u.(passwordHash := Some(hash), version := u.version + k)
    }
  }

  /** k updates of one account in a row; each is allowed and each raises the version. */
  lemma {:induction false} BumpRun(s: State, c: int, id: int, bump: Bump, k: nat)
    returns (states: seq<State>, acts: seq<Action>)
    requires k >= 1 && Idle(s, c, id) && id in s.usedUsers && !s.rows[id].isGuest
    ensures GoodPath(states, acts) && states[0] == s
    ensures states[|acts|] == s.(rows := s.rows[id := bump.Times(s.rows[id], k)])
    ensures UniqueEmails(s.rows) && EmailFree(s.rows, id, bump.Times(s.rows[id], k).email) ==> AllUnique(states)
  {
    var last := s;
    states, acts := [s], [];
    if k > 1 {
      states, acts := BumpRun(s, c, id, bump, k - 1);
      last := states[|acts|];
    }
    var edit := bump.EditOf(last.rows[id]);
    var p, a := UnlockedRun(last, c, id, edit);
    assert last.usedUsers + {id} == last.usedUsers;
    assert p[|a|] == s.(rows := s.rows[id := bump.Times(s.rows[id], k)]);
    if UniqueEmails(s.rows) && EmailFree(s.rows, id, bump.Times(s.rows[id], k).email) {
      NewEmailUnique(s.rows, id, p[|a|].rows[id]);
    }
    Join(states, acts, p, a);
    states, acts := states + p[1..], acts + a;
  }

  const NEW_ADMINISTRATOR := User(None, None, None, None, false, true, "light", "en", 0, None, 0)

  /** A database in which nothing is in progress. */
  ghost predicate Quiet(s: State) {
    s.clients == map[] && s.rowLocks == map[] && s.adminLock == None && s.rows.Keys <= s.usedUsers
  }

  /** The same database for one account, but perhaps with one more account without an email. */
  ghost predicate Similar(s: State, base: State, id: int) {
    && Quiet(base) && base.identities == s.identities && s.rows.Keys <= base.rows.Keys
    && id in s.rows && base.rows[id] == s.rows[id]
    && (UniqueEmails(s.rows) ==> UniqueEmails(base.rows))
    && (forall email :: EmailFree(s.rows, id, email) ==> EmailFree(base.rows, id, email))
  }

  /**
   From its start, an update or a deletion can pass its guard, whichever branch that
   takes: for the last administrator another one is created first.
   */
  lemma ReachesWrite(s: State, c: int, id: int, w: Write)
    returns (states: seq<State>, acts: seq<Action>, base: State, locked: bool)
    requires Quiet(s) && id in s.rows
    ensures GoodPath(states, acts) && (UniqueEmails(s.rows) ==> AllUnique(states))
    ensures states[0] == With(s, c, id, Start(w)) && Similar(s, base, id)
    ensures states[|acts|] == With(if locked then base.(adminLock := Some(c)) else base, c, id, Writing(w))
    ensures !AdminAt(s, id) ==> base == s && !locked
  {
    if !(w.Guarded() && AdminAt(s, id)) {
      base, locked := s, false;
      Unlocked(s, c, id, w);
      OneStep(With(s, c, id, Start(w)), Guard(c), With(s, c, id, Writing(w)));
      states, acts := [With(s, c, id, Start(w)), With(s, c, id, Writing(w))], [Guard(c)];
    } else {
      var other := Unused(s.usedUsers);
      base, locked := Put(s, other, NEW_ADMINISTRATOR), true;
      assert other !in s.rows;
      assert AdminAt(base, other);
      assert base.rows.Keys == s.rows.Keys + {other};
      var create := Create(other, NEW_ADMINISTRATOR);
      OneStep(With(s, c, id, Start(w)), create, With(base, c, id, Start(w)));
      var p, a := GuardRun(base, c, id, w, other);
      Join([With(s, c, id, Start(w)), p[0]], [create], p, a);
      states, acts := [With(s, c, id, Start(w)), p[0]] + p[1..], [create] + a;
    }
  }

  /** A run that begins with a given action, and whose form versions are never ahead from then on. */
  ghost predicate RunFrom(s: State, first: Action, states: seq<State>, acts: seq<Action>) {
    && Execution(states, acts) && states[0] == s && |acts| > 0 && acts[0] == first
    && (forall i {:trigger acts[i]} :: 0 < i < |acts| ==> Disciplined(states[i], acts[i]))
  }

  /** An early step followed by a good path is such a run. */
  lemma RunAfter(s: State, first: Action, p: seq<State>, a: seq<Action>)
    requires Initial(s) && GoodPath(p, a) && Transition(s, first, p[0])
    ensures RunFrom(s, first, [s] + p, [first] + a)
  {
    var states, acts := [s] + p, [first] + a;
    forall i {:trigger acts[i]} | 0 <= i < |acts|
      ensures Transition(states[i], acts[i], states[i + 1])
      ensures i > 0 ==> Disciplined(states[i], acts[i])
    {
      if i > 0 {
        assert Transition(p[i - 1], a[i - 1], p[i]);
        assert acts[i] == a[i - 1] && states[i] == p[i - 1];
      }
    }
  }

  /** If the first action is not ahead either, the whole run is disciplined. */
  lemma DisciplinedFrom(s: State, first: Action, states: seq<State>, acts: seq<Action>)
    requires RunFrom(s, first, states, acts) && Disciplined(s, first)
    ensures DisciplinedExecution(states, acts)
  {
  }
}
