/** The inductive invariant of the accounts protocol and its preservation by every statement. */
module AccountsInvariant {
  import opened Wrappers
  import opened Sets
  import opened Accounts

  ghost predicate UsedOk(s: State) {
    && s.rows.Keys <= s.usedUsers
    && (forall i :: i in s.identities ==> i in s.usedIdentities && s.identities[i] in s.rows)
  }

  predicate HoldsRow(p: Phase) {
    p.Written? || p.UnlinkHeld? || p.UnlinkCounted? || p.UnlinkDeleted?
  }

  predicate HoldsLock(p: Phase) {
    p.Locked? || p.Counted? || p.Writing? || p.Written?
  }

  ghost predicate LocksOk(s: State) {
    && (forall id :: id in s.rowLocks ==>
          s.rowLocks[id] in s.clients && s.clients[s.rowLocks[id]].target == id
              && HoldsRow(s.clients[s.rowLocks[id]].phase))
    && (s.adminLock.Some? ==> s.adminLock.value in s.clients && HoldsLock(s.clients[s.adminLock.value].phase))
  }

  /** The write is not ahead of the row it is about, and a copy is the current
      row for as long as its version is. */
  ghost predicate WriteOk(s: State, t: int, w: Write) {
    && t in s.usedUsers
    && (t in s.rows ==> w.Expected() <= s.rows[t].version)
    && (w.Replace? ==>
          && w.Expected() <= w.copy.version
          && (t in s.rows ==> w.copy.version <= s.rows[t].version)
          && (t in s.rows && s.rows[t].version == w.copy.version ==> s.rows[t] == w.copy))
  }

  /** Why a guarded write may go ahead: the writer holds the lock and another
      administrator exists, or the write can only match a non-administrator. */
  ghost predicate Safe(s: State, c: int, t: int, w: Write) {
    || (s.adminLock == Some(c) && OtherAdmin(s, t))
    || (t in s.rows && s.rows[t].version == w.Expected() ==> !AdminAt(s, t))
  }

  ghost predicate OwnsRow(s: State, c: int, t: int) {
    t in s.rows && t in s.rowLocks && s.rowLocks[t] == c
  }

  ghost predicate ClientOk(s: State, c: int)
    requires c in s.clients
  {
    var t := s.clients[c].target;
    match s.clients[c].phase
    case Start(w) => WriteOk(s, t, w) && !w.Sweep?
    case Waiting(w) => WriteOk(s, t, w) && w.Guarded() && HasAdmin(s)
    case Locked(w) => WriteOk(s, t, w) && w.Guarded() && HasAdmin(s) && s.adminLock == Some(c)
    case Counted(w, n) =>
      WriteOk(s, t, w) && w.Guarded() && s.adminLock == Some(c) && (if n > 0 then OtherAdmin(s, t) else AdminAt(s, t))
    case Writing(w) => WriteOk(s, t, w) && !w.Sweep? && (w.Guarded() ==> Safe(s, c, t, w))
    case Written(w) =>
      && WriteOk(s, t, w) && (w.Guarded() ==> Safe(s, c, t, w))
      && OwnsRow(s, c, t) && s.rows[t].version == w.Expected() && (w.Convert? || w.Sweep? ==> s.rows[t].isGuest)
    case UnlinkStart(_) => true
    case UnlinkHeld(_, p) => OwnsRow(s, c, t) && p == s.rows[t].passwordHash.Some?
    case UnlinkCounted(_, p, n) => OwnsRow(s, c, t) && p == s.rows[t].passwordHash.Some? && n <= |Owned(s, t)|
    case UnlinkDeleted(i, p, n) =>
      OwnsRow(s, c, t) && p == s.rows[t].passwordHash.Some? && n <= |Owned(s, t)| && i in Owned(s, t)
  }

  ghost predicate Inv(s: State) {
    UsedOk(s) && LocksOk(s) && (forall c :: c in s.clients ==> ClientOk(s, c))
  }

  /** A row another client knows only changes together with its version, and not under that client's lock. */
  ghost predicate RowsFrame(s: State, t: State, mover: int) {
    && s.usedUsers <= t.usedUsers
    && (forall id :: id in t.rows && id in s.usedUsers ==> id in s.rows)
    && (forall id :: id in t.rows && id in s.rows && t.rows[id] != s.rows[id] ==>
          t.rows[id].version == s.rows[id].version + 1 && (id in s.rowLocks ==> s.rowLocks[id] == mover))
  }

  ghost predicate LocksFrame(s: State, t: State, mover: int) {
    && (forall id :: id in s.rowLocks && s.rowLocks[id] != mover ==>
          id in t.rowLocks && t.rowLocks[id] == s.rowLocks[id] && Owned(s, id) <= Owned(t, id)
              && (id in s.rows ==> id in t.rows))
    && (s.adminLock.Some? && s.adminLock != Some(mover) ==> t.adminLock == s.adminLock)
  }

  /** Only the holder of the lock takes an administrator away, and it leaves another one. */
  ghost predicate AdminsFrame(s: State, t: State, mover: int) {
    forall id :: AdminAt(s, id) ==> AdminAt(t, id) || (s.adminLock == Some(mover) && OtherAdmin(t, id))
  }

  /** How the tables may change as far as the clients other than the mover can tell. */
  ghost predicate Frame(s: State, t: State, mover: int) {
    RowsFrame(s, t, mover) && LocksFrame(s, t, mover) && AdminsFrame(s, t, mover)
  }

  lemma HasAdminPersists(s: State, t: State, mover: int)
    requires Frame(s, t, mover) && HasAdmin(s)
    ensures HasAdmin(t)
  {
    var a :| AdminAt(s, a);
    if !AdminAt(t, a) {
      var o :| o != a && AdminAt(t, o);
    }
  }

  /** While d holds the lock nobody else can remove an administrator. */
  lemma OtherAdminPersists(s: State, t: State, mover: int, d: int, id: int)
    requires Frame(s, t, mover) && s.adminLock == Some(d) && d != mover
    ensures OtherAdmin(s, id) ==> OtherAdmin(t, id)
    ensures AdminAt(s, id) ==> AdminAt(t, id)
  {
    if OtherAdmin(s, id) {
      var a :| a != id && AdminAt(s, a);
      assert AdminAt(t, a);
    }
  }

  lemma WritePersists(s: State, t: State, mover: int, id: int, w: Write)
    requires UsedOk(s) && Frame(s, t, mover) && WriteOk(s, id, w)
    ensures WriteOk(t, id, w)
    ensures id in t.rows && t.rows[id].version == w.Expected() ==> id in s.rows && t.rows[id] == s.rows[id]
  {
    if id in t.rows && t.rows[id] != s.rows[id] {
      assert s.rows[id].version < t.rows[id].version;
    }
  }

  lemma SafePersists(s: State, t: State, mover: int, d: int, id: int, w: Write)
    requires UsedOk(s) && Frame(s, t, mover) && WriteOk(s, id, w) && d != mover
    requires Safe(s, d, id, w)
    ensures Safe(t, d, id, w)
  {
    WritePersists(s, t, mover, id, w);
    if s.adminLock == Some(d) {
      OtherAdminPersists(s, t, mover, d, id);
    }
  }

  lemma RowPersists(s: State, t: State, mover: int, d: int, id: int)
    requires UsedOk(s) && Frame(s, t, mover) && d != mover && OwnsRow(s, d, id)
    ensures OwnsRow(t, d, id) && t.rows[id] == s.rows[id] && Owned(s, id) <= Owned(t, id)
            && |Owned(s, id)| <= |Owned(t, id)|
  {
    SubsetBound(Owned(s, id), Owned(t, id));
  }

  /** A client that does not move keeps its part of the invariant. */
  lemma BystanderOk(s: State, t: State, mover: int, d: int)
    requires UsedOk(s) && Frame(s, t, mover)
    requires d != mover && d in s.clients && d in t.clients && t.clients[d] == s.clients[d]
    requires ClientOk(s, d)
    ensures ClientOk(t, d)
  {
    var id := s.clients[d].target;
    match s.clients[d].phase
    case Start(w) =>
      WritePersists(s, t, mover, id, w);
    case Waiting(w) =>
      WritePersists(s, t, mover, id, w);
      HasAdminPersists(s, t, mover);
    case Locked(w) =>
      WritePersists(s, t, mover, id, w);
      HasAdminPersists(s, t, mover);
    case Counted(w, n) =>
      WritePersists(s, t, mover, id, w);
      OtherAdminPersists(s, t, mover, d, id);
    case Writing(w) =>
      WritePersists(s, t, mover, id, w);
      if w.Guarded() { SafePersists(s, t, mover, d, id, w); }
    case Written(w) =>
      WritePersists(s, t, mover, id, w);
      if w.Guarded() { SafePersists(s, t, mover, d, id, w); }
      RowPersists(s, t, mover, d, id);
    case UnlinkStart(_) =>
    case UnlinkHeld(_, _) =>
      RowPersists(s, t, mover, d, id);
    case UnlinkCounted(_, _, _) =>
      RowPersists(s, t, mover, d, id);
    case UnlinkDeleted(_, _, _) =>
      RowPersists(s, t, mover, d, id);
  }

  /** Statements that leave the tables alone: only the mover's phase and locks change. */
  ghost predicate TablesKept(s: State, t: State, c: int) {
    && t.rows == s.rows && t.identities == s.identities
    && t.usedUsers == s.usedUsers && t.usedIdentities == s.usedIdentities
    && (forall id :: id in s.rowLocks && s.rowLocks[id] != c ==> id in t.rowLocks && t.rowLocks[id] == s.rowLocks[id])
    && (s.adminLock.Some? && s.adminLock != Some(c) ==> t.adminLock == s.adminLock)
    && (forall d :: d in s.clients && d != c ==> d in t.clients && t.clients[d] == s.clients[d])
    && (forall d :: d in t.clients && d != c ==> d in s.clients)
  }

  lemma KeptInv(s: State, t: State, c: int)
    requires Inv(s) && TablesKept(s, t, c) && LocksOk(t)
    requires c in t.clients ==> ClientOk(t, c)
    ensures Inv(t)
  {
    assert forall id :: AdminAt(s, id) ==> AdminAt(t, id);
    assert forall o :: Owned(s, o) == Owned(t, o);
    forall d | d in t.clients ensures ClientOk(t, d) {
      if d != c { BystanderOk(s, t, c, d); }
    }
  }

  lemma EndKeeps(s: State, c: int)
    requires Inv(s) && c in s.clients
    ensures Inv(End(s, c))
  {
    KeptInv(s, End(s, c), c);
  }

  lemma OpenKeeps(s: State, a: Action)
    requires Inv(s) && Enabled(s, a) && Disciplined(s, a)
    requires a.Load? || a.LoadRemove? || a.LoadConvert? || a.LockSweep? || a.Unlink?
    ensures Inv(Next(s, a))
  {
    var t := Next(s, a);
    assert LocksOk(t);
    assert ClientOk(t, a.client);
    KeptInv(s, t, a.client);
  }

  lemma GuardKeeps(s: State, c: int)
    requires Inv(s) && Enabled(s, Guard(c))
    ensures Inv(Next(s, Guard(c)))
  {
    var t := Next(s, Guard(c));
    assert ClientOk(s, c);
    assert AdminAt(s, s.clients[c].target) ==> AdminAt(t, s.clients[c].target);
    KeptInv(s, t, c);
  }

  lemma LockKeeps(s: State, c: int)
    requires Inv(s) && Enabled(s, Lock(c))
    ensures Inv(Next(s, Lock(c)))
  {
    var t := Next(s, Lock(c));
    assert ClientOk(s, c);
    var a :| AdminAt(s, a);
    assert AdminAt(t, a);
    KeptInv(s, t, c);
  }

  /** A positive count is another administrator, and a zero count leaves the target as the only one. */
  lemma CountKeeps(s: State, c: int)
    requires Inv(s) && Enabled(s, Count(c))
    ensures Inv(Next(s, Count(c)))
  {
    var t := Next(s, Count(c));
    var id := s.clients[c].target;
    var others := OtherAdmins(s, id);
    assert ClientOk(s, c);
    if |others| > 0 {
      var x :| x in others;
      assert AdminAt(t, x);
    } else {
      var a :| AdminAt(s, a);
      assert a !in others;
      assert AdminAt(t, id);
    }
    KeptInv(s, t, c);
  }

  lemma RecheckKeeps(s: State, c: int)
    requires Inv(s) && Enabled(s, Recheck(c))
    ensures Inv(Next(s, Recheck(c)))
  {
    var t := Next(s, Recheck(c));
    var id := s.clients[c].target;
    assert ClientOk(s, c);
    if s.clients[c].phase.others == 0 {
      EndKeeps(s, c);
    } else if c in t.clients {
      var a :| a != id && AdminAt(s, a);
      assert AdminAt(t, a);
      KeptInv(s, t, c);
    } else {
      EndKeeps(s, c);
    }
  }

  lemma WriteRowKeeps(s: State, c: int)
    requires Inv(s) && Enabled(s, WriteRow(c))
    ensures Inv(Next(s, WriteRow(c)))
  {
    var t := Next(s, WriteRow(c));
    var id := s.clients[c].target;
    var w := s.clients[c].phase.w;
    assert ClientOk(s, c);
    if Matches(s, id, w) {
      if w.Guarded() && OtherAdmin(s, id) {
        var a :| a != id && AdminAt(s, a);
        assert AdminAt(t, a);
      }
      KeptInv(s, t, c);
    } else {
      EndKeeps(s, c);
    }
  }

  lemma UnlinkKeeps(s: State, a: Action)
    requires Inv(s) && Enabled(s, a)
    requires a.UnlinkLock? || a.UnlinkCount? || a.UnlinkDelete?
    ensures Inv(Next(s, a))
  {
    var t := Next(s, a);
    var c := a.client;
    assert ClientOk(s, c);
    if c in t.clients {
      assert Owned(t, s.clients[c].target) == Owned(s, s.clients[c].target);
      KeptInv(s, t, c);
    } else {
      EndKeeps(s, c);
    }
  }

  lemma InsertKeeps(s: State, a: Action)
    requires Inv(s) && Enabled(s, a)
    requires a.Create? || a.Link?
    ensures Inv(Next(s, a))
  {
    var t := Next(s, a);
    forall d | d in t.clients ensures ClientOk(t, d) {
      assert ClientOk(s, d);
      assert forall id :: AdminAt(s, id) ==> AdminAt(t, id);
      assert forall o :: Owned(s, o) <= Owned(t, o);
      BystanderOk(s, t, d + 1, d);
    }
  }
}
