/** When an account transaction goes through: each refusal has its exact reason, and nobody waits for ever. */
module AccountProgress {
  import opened Wrappers
  import opened Sets
  import opened Accounts
  import opened AccountsInvariant
  import opened AccountsTheorems
  import opened AccountsLostUpdates
  import opened UncontendedRuns

  /** The transaction a statement belongs to; the two inserts are transactions of their own. */
  function Mover(a: Action): (r: Option<int>) {
    match a
    case Create(_, _) => None
    case Link(_, _) => None
    case _ => Some(a.client)
  }

  lemma OthersStay(s: State, a: Action, c: int)
    requires Enabled(s, a) && c in s.clients && Mover(a) != Some(c)
    ensures c in Next(s, a).clients && Next(s, a).clients[c] == s.clients[c]
  {
  }

  /** The transaction of client c is open from state j to state n. */
  ghost predicate Open(states: seq<State>, j: nat, n: nat, c: int)
    requires n < |states|
  {
    forall k :: j <= k <= n ==> c in states[k].clients
  }

  /** No statement of client c in between. */
  ghost predicate Rests(acts: seq<Action>, j: nat, n: nat, c: int)
    requires n <= |acts|
  {
    forall k :: j <= k < n ==> Mover(acts[k]) != Some(c)
  }

  lemma {:induction false} ClientStays(states: seq<State>, acts: seq<Action>, j: nat, n: nat, c: int)
    requires Execution(states, acts) && j <= n <= |acts| && c in states[j].clients && Rests(acts, j, n, c)
    ensures c in states[n].clients && states[n].clients[c] == states[j].clients[c]
    decreases n
  {
    if j < n {
      ClientStays(states, acts, j, n - 1, c);
      assert Transition(states[n - 1], acts[n - 1], states[n]);
      OthersStay(states[n - 1], acts[n - 1], c);
    }
  }

  predicate IsWrite(p: Phase) {
    !p.UnlinkStart? && !p.UnlinkHeld? && !p.UnlinkCounted? && !p.UnlinkDeleted?
  }

  lemma WriteStaysOnce(s: State, a: Action, c: int)
    requires Enabled(s, a) && c in s.clients && c in Next(s, a).clients && IsWrite(s.clients[c].phase)
    ensures IsWrite(Next(s, a).clients[c].phase)
    ensures Next(s, a).clients[c].phase.w == s.clients[c].phase.w
    ensures Next(s, a).clients[c].target == s.clients[c].target
  {
  }

  /** A transaction carries the write it began with to its end. */
  lemma {:induction false} WriteStays(states: seq<State>, acts: seq<Action>, j: nat, n: nat, c: int)
    requires Execution(states, acts) && j <= n <= |acts| && Open(states, j, n, c) && IsWrite(states[j].clients[c].phase)
    ensures IsWrite(states[n].clients[c].phase) && states[n].clients[c].phase.w == states[j].clients[c].phase.w
    ensures states[n].clients[c].target == states[j].clients[c].target
    decreases n
  {
    if j < n {
      WriteStays(states, acts, j, n - 1, c);
      assert Transition(states[n - 1], acts[n - 1], states[n]);
      WriteStaysOnce(states[n - 1], acts[n - 1], c);
    }
  }

  /**
   Optimistic locking, exactly: an update that passes the version it has read is written
   iff the account is still there and nobody has committed a change of it since.
   */
  lemma WrittenIffUnchanged(states: seq<State>, acts: seq<Action>, j: nat, n: nat, c: int, id: int, edit: Edit)
    requires Execution(states, acts) && j < n < |acts| && acts[j] == Load(c, id, edit) && !edit.AdminEdit?
    requires Open(states, j + 1, n, c) && acts[n] == WriteRow(c)
    ensures c in states[n + 1].clients <==> id in states[n].rows && states[n].rows[id] == states[j].rows[id]
  {
    assert Transition(states[j], acts[j], states[j + 1]) && Transition(states[n], acts[n], states[n + 1]);
    WriteStays(states, acts, j + 1, n, c);
    if id in states[n].rows {
      RowVersionsGrow(states, acts, j, n, id);
    }
  }

  /** A form's write goes through iff the account is at the version the form names. */
  lemma FormWrittenIff(states: seq<State>, acts: seq<Action>, j: nat, n: nat, c: int, id: int, version: nat)
    requires Execution(states, acts) && j < n < |acts|
    requires || (acts[j].Load? && acts[j].edit.AdminEdit? && acts[j].client == c && acts[j].id == id
                 && acts[j].edit.formVersion == version)
             || acts[j] == LoadRemove(c, id, version)
    requires Open(states, j + 1, n, c) && acts[n] == WriteRow(c)
    ensures c in states[n + 1].clients <==> id in states[n].rows && states[n].rows[id].version == version
  {
    assert Transition(states[j], acts[j], states[j + 1]) && Transition(states[n], acts[n], states[n + 1]);
    WriteStays(states, acts, j + 1, n, c);
  }

  /** A guest is converted iff its account is unchanged since it was read. */
  lemma ConvertedIffUnchanged(states: seq<State>, acts: seq<Action>, j: nat, n: nat, c: int, id: int)
    requires Execution(states, acts) && j < n < |acts|
    requires acts[j].LoadConvert? && acts[j].client == c && acts[j].id == id
    requires Open(states, j + 1, n, c) && acts[n] == WriteRow(c)
    ensures c in states[n + 1].clients
       <==> id in states[n].rows && states[n].rows[id] == states[j].rows[id] && states[j].rows[id].isGuest
  {
    assert Transition(states[j], acts[j], states[j + 1]) && Transition(states[n], acts[n], states[n + 1]);
    WriteStays(states, acts, j + 1, n, c);
    if id in states[n].rows {
      RowVersionsGrow(states, acts, j, n, id);
    }
  }

  /**
   The administrator guard, exactly: the re-check refuses iff no other administrator was
   there when they were counted and the account is an administrator now, or gone.
   */
  lemma GuardRefusesIff(states: seq<State>, acts: seq<Action>, j: nat, n: nat, c: int)
    requires Execution(states, acts) && j < n < |acts| && acts[j] == Count(c) && acts[n] == Recheck(c)
    requires Rests(acts, j + 1, n, c)
    ensures var id := states[j].clients[c].target;
            c !in states[n + 1].clients <==>
              && (forall other :: other != id ==> !AdminAt(states[j], other))
              && (id in states[n].rows ==> AdminAt(states[n], id))
  {
    assert Transition(states[j], acts[j], states[j + 1]) && Transition(states[n], acts[n], states[n + 1]);
    ClientStays(states, acts, j + 1, n, c);
    var id := states[j].clients[c].target;
    var others := OtherAdmins(states[j], id);
    if |others| == 0 {
      forall other | other != id
        ensures !AdminAt(states[j], other)
      {
        assert other !in others;
      }
    } else {
      var other := Choose(others);
      assert AdminAt(states[j], other);
    }
  }

  /** At least two identities of one account. */
  ghost predicate HasTwo(s: State, id: int) {
    exists x, y :: x in Owned(s, id) && y in Owned(s, id) && x != y
  }

  /**
   Unlinking, exactly: the commit removes the identity iff the account has a password, or
   had two identities when they were counted; and it changes nothing else.
   */
  lemma UnlinkedIff(states: seq<State>, acts: seq<Action>, i: nat, j: nat, n: nat, c: int, newIdentity: int)
    requires DisciplinedExecution(states, acts) && i < j < n < |acts|
    requires acts[i] == UnlinkCount(c) && acts[j] == UnlinkDelete(c) && acts[n] == Commit(c, newIdentity)
    requires Rests(acts, i + 1, j, c) && Rests(acts, j + 1, n, c) && c in states[j + 1].clients
    ensures var s, t := states[n], states[n + 1];
            var id, x := states[i].clients[c].target, states[i].clients[c].phase.identity;
            && x in Owned(s, id) && id in s.rows && t.rows == s.rows
            && (x !in t.identities <==> s.rows[id].passwordHash.Some? || HasTwo(states[i], id))
            && (forall y :: y != x ==> (y in t.identities <==> y in s.identities))
            && (forall y :: y in t.identities ==> t.identities[y] == s.identities[y])
  {
    assert Transition(states[i], acts[i], states[i + 1]) && Transition(states[j], acts[j], states[j + 1]);
    assert Transition(states[n], acts[n], states[n + 1]);
    ClientStays(states, acts, i + 1, j, c);
    ClientStays(states, acts, j + 1, n, c);
    ReachableInv(states, acts, n);
    assert ClientOk(states[n], c);
    TwoIff(states[i], states[i].clients[c].target);
  }

  lemma TwoIff(s: State, id: int)
    ensures |Owned(s, id)| > 1 <==> HasTwo(s, id)
  {
    var all := Owned(s, id);
    if |all| > 1 {
      var x := Choose(all);
      var y := Choose(all - {x});
      assert x in all && y in all && x != y;
    }
    if HasTwo(s, id) {
      var x, y :| x in all && y in all && x != y;
      SubsetBound({x, y}, all);
    }
  }

  /** Some statement of the client, other than giving up, can run. */
  ghost predicate CanGoOn(s: State, c: int) {
    exists a :: Mover(a) == Some(c) && !a.Abort? && Enabled(s, a)
  }

  /** The client's next statement needs a lock that another one holds. */
  predicate WaitsFor(s: State, c: int, d: int) {
    && c in s.clients && c != d
    && (|| (s.clients[c].phase.Waiting? && s.adminLock == Some(d))
        || ((s.clients[c].phase.Writing? || s.clients[c].phase.UnlinkStart?)
            && s.clients[c].target in s.rowLocks && s.rowLocks[s.clients[c].target] == d))
  }

  lemma RowHolderGoesOn(s: State, c: int)
    requires c in s.clients && HoldsRow(s.clients[c].phase)
    ensures CanGoOn(s, c)
  {
    match s.clients[c].phase
    case Written(_) =>
      var i := Unused(s.usedIdentities);
      assert Enabled(s, Commit(c, i)) && Mover(Commit(c, i)) == Some(c);
    case UnlinkHeld(_, _) => assert Enabled(s, UnlinkCount(c)) && Mover(UnlinkCount(c)) == Some(c);
    case UnlinkCounted(_, _, _) => assert Enabled(s, UnlinkDelete(c)) && Mover(UnlinkDelete(c)) == Some(c);
    case UnlinkDeleted(_, _, _) => assert Enabled(s, Commit(c, 0)) && Mover(Commit(c, 0)) == Some(c);
  }

  lemma GoesOnOrWaits(s: State, c: int)
    requires Inv(s) && c in s.clients
    ensures CanGoOn(s, c) || exists d :: WaitsFor(s, c, d)
    ensures !s.clients[c].phase.Waiting? ==> CanGoOn(s, c) || exists d :: WaitsFor(s, c, d) && CanGoOn(s, d)
  {
    var t := s.clients[c].target;
    match s.clients[c].phase
    case Start(_) => assert Enabled(s, Guard(c)) && Mover(Guard(c)) == Some(c);
    case Waiting(_) =>
      if s.adminLock.None? {
        assert Enabled(s, Lock(c)) && Mover(Lock(c)) == Some(c);
      } else {
        assert WaitsFor(s, c, s.adminLock.value);
      }
    case Locked(_) => assert Enabled(s, Count(c)) && Mover(Count(c)) == Some(c);
    case Counted(_, _) => assert Enabled(s, Recheck(c)) && Mover(Recheck(c)) == Some(c);
    case Writing(_) =>
      if t in s.rowLocks {
        RowHolderGoesOn(s, s.rowLocks[t]);
        assert WaitsFor(s, c, s.rowLocks[t]);
      } else {
        assert Enabled(s, WriteRow(c)) && Mover(WriteRow(c)) == Some(c);
      }
    case UnlinkStart(_) =>
      if t in s.rowLocks {
        RowHolderGoesOn(s, s.rowLocks[t]);
        assert WaitsFor(s, c, s.rowLocks[t]);
      } else {
        assert Enabled(s, UnlinkLock(c)) && Mover(UnlinkLock(c)) == Some(c);
      }
    case _ => RowHolderGoesOn(s, c);
  }

  /**
   No deadlock: every open transaction can go on, or waits for one that can, or, when it
   waits for the administrator lock, for one that waits for a row whose holder can.
   */
  lemma NoDeadlock(states: seq<State>, acts: seq<Action>, n: nat, c: int)
    requires DisciplinedExecution(states, acts) && n <= |acts| && c in states[n].clients
    ensures var s := states[n];
            || CanGoOn(s, c)
            || exists d :: WaitsFor(s, c, d) && (CanGoOn(s, d) || exists e :: WaitsFor(s, d, e) && CanGoOn(s, e))
  {
    ReachableInv(states, acts, n);
    var s := states[n];
    GoesOnOrWaits(s, c);
    if !CanGoOn(s, c) {
      var d :| WaitsFor(s, c, d);
      if s.clients[c].phase.Waiting? {
        GoesOnOrWaits(s, d);
      }
    }
  }

  /** Nobody is kept out: a transaction on a present account can begin at any time, and end without effect. */
  lemma AnyoneCanBegin(s: State, c: int, id: int, edit: Edit, version: nat, email: Option<string>,
      name: Option<string>, at: Option<int>) returns (unused: int)
    requires id in s.rows
    ensures c in s.clients ==>
              && Enabled(s, Abort(c)) && c !in Next(s, Abort(c)).clients
              && Next(s, Abort(c)).rows == s.rows && Next(s, Abort(c)).identities == s.identities
    ensures c !in s.clients ==>
              && Enabled(s, Load(c, id, edit)) && Enabled(s, LoadRemove(c, id, version))
              && Enabled(s, LoadConvert(c, id, email, name, at)) && Enabled(s, Unlink(c, id, version))
              && (s.rows[id].isGuest && id !in s.rowLocks ==> Enabled(s, LockSweep(c, id)))
    ensures unused !in s.usedIdentities && Enabled(s, Link(unused, id))
  {
    unused := Unused(s.usedIdentities);
  }

  /** A new account is stored as given under a new number, and a new identity for its owner; nothing else changes. */
  lemma InsertLeaves(states: seq<State>, acts: seq<Action>, n: nat)
    requires Execution(states, acts) && n < |acts| && (acts[n].Create? || acts[n].Link?)
    ensures var s, t := states[n], states[n + 1];
            match acts[n]
            case Create(id, user) =>
              id !in s.rows && t.rows == s.rows[id := user] && t.identities == s.identities
            case Link(i, owner) =>
              i !in s.usedIdentities && owner in s.rows && t.identities == s.identities[i := owner] && t.rows == s.rows
            case _ => true
  {
    assert Transition(states[n], acts[n], states[n + 1]);
    RowsAreUsed(states, acts, n);
  }

  /** A guest's conversion by itself: it loses nothing but its being a guest and gets the identity. */
  lemma ConvertsAlone(s: State, c: int, id: int, email: Option<string>, name: Option<string>, at: Option<int>,
      identity: int)
    returns (states: seq<State>, acts: seq<Action>)
    requires Idle(s, c, id) && s.rows[id].isGuest && identity !in s.usedIdentities
    ensures GoodPath(states, acts) && states[0] == s
    ensures acts == [LoadConvert(c, id, email, name, at), Guard(c), WriteRow(c), Commit(c, identity)]
    ensures states[4].clients == s.clients && states[4].rowLocks == s.rowLocks
    ensures states[4].identities == s.identities[identity := id] && id in states[4].rows && !states[4].rows[id].isGuest
  {
    var w := Convert(email, name, at, s.rows[id].version);
    var held := With(s, c, id, Written(w)).(rowLocks := s.rowLocks[id := c]);
    Unlocked(s, c, id, w);
    Releasing(s, c, id, Effect(held, c, identity));
    acts := [LoadConvert(c, id, email, name, at), Guard(c), WriteRow(c), Commit(c, identity)];
    states := [s, With(s, c, id, Start(w)), With(s, c, id, Writing(w)), held, Next(held, Commit(c, identity))];
    assert Transition(states[0], acts[0], states[1]) && Transition(states[2], acts[2], states[3]);
  }

  /** The clean-up of an abandoned guest by itself. */
  lemma SweepsAlone(s: State, c: int, id: int) returns (states: seq<State>, acts: seq<Action>)
    requires Idle(s, c, id) && s.rows[id].isGuest
    ensures GoodPath(states, acts) && states[0] == s && acts == [LockSweep(c, id), Commit(c, 0)]
    ensures states[2].clients == s.clients && states[2].rowLocks == s.rowLocks && states[2].rows == s.rows - {id}
  {
    var held := With(s, c, id, Written(Sweep(s.rows[id].version))).(rowLocks := s.rowLocks[id := c]);
    Releasing(s, c, id, Effect(held, c, 0));
    acts := [LockSweep(c, id), Commit(c, 0)];
    states := [s, held, Next(held, Commit(c, 0))];
    assert Transition(states[0], acts[0], states[1]);
  }
}
