/** What every interleaving of account transactions keeps. */
module AccountsTheorems {
  import opened Wrappers
  import opened Accounts
  import opened AccountsInvariant

  /** At its commit a write meets the row it was prepared for, and a removal of
      an administrator happens under the lock with another one present. */
  lemma RemovalNeedsLock(s: State, c: int, i: int)
    requires Inv(s) && Enabled(s, Commit(c, i))
    ensures var t := Effect(s, c, i);
            forall id :: AdminAt(s, id) && !AdminAt(t, id) ==>
              id == s.clients[c].target && s.adminLock == Some(c) && OtherAdmin(s, id)
  {
    assert ClientOk(s, c);
  }

  lemma CommitRows(s: State, c: int, i: int)
    requires Inv(s) && Enabled(s, Commit(c, i))
    ensures RowsFrame(s, Effect(s, c, i), c)
  {
    assert ClientOk(s, c);
    assert OwnsRow(s, c, s.clients[c].target);
  }

  lemma CommitUsed(s: State, c: int, i: int)
    requires Inv(s) && Enabled(s, Commit(c, i))
    ensures UsedOk(Effect(s, c, i))
  {
    assert ClientOk(s, c);
    assert OwnsRow(s, c, s.clients[c].target);
  }

  lemma CommitLocks(s: State, c: int, i: int)
    requires Inv(s) && Enabled(s, Commit(c, i))
    ensures LocksFrame(s, Effect(s, c, i), c)
  {
    var t := Effect(s, c, i);
    assert ClientOk(s, c);
    assert OwnsRow(s, c, s.clients[c].target);
    forall o | o in s.rowLocks && s.rowLocks[o] != c
      ensures o in t.rowLocks && t.rowLocks[o] == s.rowLocks[o] && Owned(s, o) <= Owned(t, o)
              && (o in s.rows ==> o in t.rows)
    {
      assert o != s.clients[c].target;
    }
  }

  lemma CommitAdmins(s: State, c: int, i: int)
    requires Inv(s) && Enabled(s, Commit(c, i))
    ensures AdminsFrame(s, Effect(s, c, i), c)
  {
    var t := Effect(s, c, i);
    RemovalNeedsLock(s, c, i);
    forall id | AdminAt(s, id) && !AdminAt(t, id) ensures s.adminLock == Some(c) && OtherAdmin(t, id) {
      var a :| a != id && AdminAt(s, a);
      assert AdminAt(t, a);
    }
  }

  /** Ending a transaction after its effect changes nothing for the others. */
  lemma EndFrame(s: State, u: State, c: int)
    requires Frame(s, u, c) && u.rowLocks == s.rowLocks && u.adminLock == s.adminLock
    ensures Frame(s, End(u, c), c)
  {
    var t := End(u, c);
    assert forall o :: Owned(u, o) == Owned(t, o);
    assert forall id :: AdminAt(u, id) ==> AdminAt(t, id);
    forall id | AdminAt(s, id) && !AdminAt(t, id) ensures s.adminLock == Some(c) && OtherAdmin(t, id) {
      var a :| a != id && AdminAt(u, a);
      assert AdminAt(t, a);
    }
  }

  lemma CommitKeeps(s: State, c: int, i: int)
    requires Inv(s) && Enabled(s, Commit(c, i))
    ensures Inv(Next(s, Commit(c, i))) && Frame(s, Next(s, Commit(c, i)), c)
  {
    var u := Effect(s, c, i);
    var t := End(u, c);
    EffectKeepsClients(s, c, i);
    assert LocksOk(t);
    CommitFrame(s, c, i);
    CommitUsed(s, c, i);
    forall d | d in t.clients ensures ClientOk(t, d) {
      BystanderOk(s, t, c, d);
    }
  }

  lemma CommitFrame(s: State, c: int, i: int)
    requires Inv(s) && Enabled(s, Commit(c, i))
    ensures Frame(s, Next(s, Commit(c, i)), c)
  {
    CommitRows(s, c, i);
    CommitLocks(s, c, i);
    CommitAdmins(s, c, i);
    EffectKeepsClients(s, c, i);
    EndFrame(s, Effect(s, c, i), c);
  }

  lemma EffectKeepsClients(s: State, c: int, i: int)
    requires Enabled(s, Commit(c, i))
    ensures var u := Effect(s, c, i);
            u.clients == s.clients && u.rowLocks == s.rowLocks && u.adminLock == s.adminLock
  {
  }

  /** Every statement keeps the invariant and, once there is one, an administrator. */
  lemma StepKeeps(s: State, a: Action)
    requires Inv(s) && Enabled(s, a) && Disciplined(s, a)
    ensures Inv(Next(s, a))
    ensures HasAdmin(s) ==> HasAdmin(Next(s, a))
  {
    match a {
      case Create(_, _) => InsertKeeps(s, a);
      case Link(_, _) => InsertKeeps(s, a);
      case Load(_, _, _) => OpenKeeps(s, a);
      case LoadRemove(_, _, _) => OpenKeeps(s, a);
      case LoadConvert(_, _, _, _, _) => OpenKeeps(s, a);
      case LockSweep(_, _) => OpenKeeps(s, a);
      case Unlink(_, _, _) => OpenKeeps(s, a);
      case Guard(c) => GuardKeeps(s, c);
      case Lock(c) => LockKeeps(s, c);
      case Count(c) => CountKeeps(s, c);
      case Recheck(c) => RecheckKeeps(s, c);
      case WriteRow(c) => WriteRowKeeps(s, c);
      case Commit(c, i) => CommitKeeps(s, c, i);
      case Abort(c) => EndKeeps(s, c);
      case UnlinkLock(_) => UnlinkKeeps(s, a);
      case UnlinkCount(_) => UnlinkKeeps(s, a);
      case UnlinkDelete(_) => UnlinkKeeps(s, a);
    }
    if HasAdmin(s) {
      StepKeepsAdmin(s, a);
    }
  }

  lemma StepKeepsAdmin(s: State, a: Action)
    requires Inv(s) && Enabled(s, a) && HasAdmin(s)
    ensures HasAdmin(Next(s, a))
  {
    var t := Next(s, a);
    if a.Commit? {
      CommitKeeps(s, a.client, a.newIdentity);
      HasAdminPersists(s, t, a.client);
    } else {
      OnlyCommitsChangeRows(s, a);
      var x :| AdminAt(s, x);
      assert AdminAt(t, x);
    }
  }

  /** Besides commits, only an insert touches the users table, and it adds a new row. */
  lemma OnlyCommitsChangeRows(s: State, a: Action)
    requires Inv(s) && Enabled(s, a) && !a.Commit?
    ensures forall id :: id in s.rows ==> id in Next(s, a).rows && Next(s, a).rows[id] == s.rows[id]
  {
  }

  lemma InitialInv(s: State)
    requires Initial(s)
    ensures Inv(s)
  {
  }

  /** One step of a run. */
  lemma RunStep(states: seq<State>, acts: seq<Action>, n: nat)
    requires DisciplinedExecution(states, acts) && n < |acts| && Inv(states[n])
    ensures Inv(states[n + 1]) && (HasAdmin(states[n]) ==> HasAdmin(states[n + 1]))
  {
    assert Transition(states[n], acts[n], states[n + 1]);
    StepKeeps(states[n], acts[n]);
  }

  lemma {:induction false} ReachableInv(states: seq<State>, acts: seq<Action>, n: nat)
    requires DisciplinedExecution(states, acts) && n <= |acts|
    ensures Inv(states[n])
  {
    if n == 0 {
      InitialInv(states[0]);
    } else {
      ReachableInv(states, acts, n - 1);
      RunStep(states, acts, n - 1);
    }
  }

  /**
   In every interleaving of account transactions whose form versions are not ahead
   of the rows they are about, a database that has a non-guest administrator has
   one in every later committed state.
   */
  lemma {:induction false} AdministratorSurvives(states: seq<State>, acts: seq<Action>, n: nat, m: nat)
    requires DisciplinedExecution(states, acts) && n <= m <= |acts|
    requires HasAdmin(states[n])
    ensures HasAdmin(states[m])
    decreases m
  {
    if n < m {
      AdministratorSurvives(states, acts, n, m - 1);
      ReachableInv(states, acts, m - 1);
      RunStep(states, acts, m - 1);
    }
  }
}
