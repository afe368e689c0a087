/**
 What else an administrator's form with a version ahead of the row can cost: a change of
 a column the edit does not set, and an account's only way to sign in. Both are kept
 exactly when the version is not ahead. A guest's row is left out: its constraint refuses
 the email that every such edit sets.
 */
module EarlyEdits {
  import opened Wrappers
  import opened Accounts
  import opened AccountsTheorems
  import opened AccountsLostUpdates
  import opened SignInMethods
  import opened UncontendedRuns

  /** The n-th action, if it commits an update, keeps every column the edit does not set. */
  ghost predicate KeepsUnset(states: seq<State>, acts: seq<Action>, n: nat)
    requires |states| == |acts| + 1 && n < |acts|
  {
    CommitsUpdate(states[n], acts[n]) ==>
      var client := states[n].clients[acts[n].client];
      && client.target in states[n].rows && client.target in states[n + 1].rows
      && forall column :: column !in Columns(client.phase.w.edit) ==>
           Read(states[n + 1].rows[client.target], column) == Read(states[n].rows[client.target], column)
  }

  predicate CommitsUpdate(s: State, a: Action) {
    a.Commit? && a.client in s.clients && s.clients[a.client].phase.Written? && s.clients[a.client].phase.w.Replace?
  }

  /** The n-th action, if it commits an update, is its edit applied to the row of that moment. */
  ghost predicate IsAtomic(states: seq<State>, acts: seq<Action>, n: nat)
    requires |states| == |acts| + 1 && n < |acts|
  {
    CommitsUpdate(states[n], acts[n]) ==>
      var client := states[n].clients[acts[n].client];
      && client.target in states[n].rows
      && var row := states[n].rows[client.target];
         var edited := client.phase.w.edit.Apply(row).(version := row.version + 1);
         states[n + 1].rows == states[n].rows[client.target := edited]
  }

  ghost predicate NoLostUpdate(s: State, first: Action) {
    forall states: seq<State>, acts: seq<Action>, n: nat ::
      RunFrom(s, first, states, acts) && n < |acts| ==> KeepsUnset(states, acts, n)
  }

  ghost predicate AtomicUpdates(s: State, first: Action) {
    forall states: seq<State>, acts: seq<Action>, n: nat ::
      RunFrom(s, first, states, acts) && n < |acts| ==> IsAtomic(states, acts, n)
  }

  ghost predicate MethodKept(s: State, first: Action, id: int) {
    forall states: seq<State>, acts: seq<Action>, n: nat ::
      RunFrom(s, first, states, acts) && n <= |acts| && id in states[n].rows ==> HasMethod(states[n], id)
  }

  lemma NotAheadIsAtomic(s: State, first: Action, states: seq<State>, acts: seq<Action>, n: nat)
    requires Disciplined(s, first) && RunFrom(s, first, states, acts) && n < |acts|
    ensures IsAtomic(states, acts, n) && KeepsUnset(states, acts, n)
  {
    DisciplinedFrom(s, first, states, acts);
    if CommitsUpdate(states[n], acts[n]) {
      CommitIsAtomicEdit(states, acts, n);
      forall column | column !in Columns(states[n].clients[acts[n].client].phase.w.edit)
        ensures var id := states[n].clients[acts[n].client].target;
                Read(states[n + 1].rows[id], column) == Read(states[n].rows[id], column)
      {
        UntouchedColumnsSurvive(states, acts, n, column);
      }
    }
  }

  /**
   The early edit passes its guard, the account is updated until its version is reached,
   something happens in between, and the early edit goes through with its old copy.
   */
  lemma EarlyEditRun(s: State, c: int, y: int, edit: Edit, bump: Bump)
    returns (states: seq<State>, acts: seq<Action>, base: State, locked: bool)
    requires Initial(s) && y in s.rows && !s.rows[y].isGuest
    requires edit.AdminEdit? && edit.formVersion > s.rows[y].version && !bump.Promote?
    ensures GoodPath(states, acts) && (UniqueEmails(s.rows) ==> AllUnique(states))
    ensures states[0] == With(s, c, y, Start(Replace(edit, s.rows[y])))
    ensures Quiet(base) && y in base.rows && base.identities == s.identities
    ensures base.rows[y] == bump.Times(s.rows[y], edit.formVersion - s.rows[y].version)
    ensures UniqueEmails(s.rows) ==> UniqueEmails(base.rows)
    ensures forall email :: EmailFree(s.rows, y, email) ==> EmailFree(base.rows, y, email)
    ensures states[|acts|]
         == With(if locked then base.(adminLock := Some(c)) else base, c, y, Writing(Replace(edit, s.rows[y])))
  {
    var w, k := Replace(edit, s.rows[y]), edit.formVersion - s.rows[y].version;
    var p, a, before;
    p, a, before, locked := ReachesWrite(s, c, y, w);
    var q, b := BumpRun(p[|a|], c + 1, y, bump, k);
    base := before.(rows := before.rows[y := bump.Times(s.rows[y], k)]);
    if UniqueEmails(s.rows) {
      EmailStays(before.rows, y, bump.Times(s.rows[y], k));
    }
    Join(p, a, q, b);
    states, acts := p + q[1..], a + b;
  }

  lemma EmailStays(rows: map<int, User>, id: int, u: User)
    requires UniqueEmails(rows) && id in rows && u.email == rows[id].email
    ensures EmailFree(rows, id, u.email) && UniqueEmails(rows[id := u])
  {
  }

  /** Another display name than the present one. */
  function OtherName(u: User): (name: string) {
    if u.displayName == Some("a") then "b" else "a"
  }

  /** The write of an old copy, after its account's row has moved on. */
  lemma OldCopyRun(s: State, base: State, c: int, y: int, edit: Edit, locked: bool)
    returns (states: seq<State>, acts: seq<Action>)
    requires y in s.rows && Quiet(base) && y in base.rows
    requires edit.AdminEdit? && base.rows[y].version == edit.formVersion
    ensures GoodPath(states, acts) && acts == [WriteRow(c), Commit(c, 0)]
    ensures states[0]
         == With(if locked then base.(adminLock := Some(c)) else base, c, y, Writing(Replace(edit, s.rows[y])))
    ensures states[1].rows == base.rows && c in states[1].clients
    ensures states[1].clients[c] == Client(y, Written(Replace(edit, s.rows[y])))
    ensures states[2] == Applied(base, y, Replace(edit, s.rows[y]))
    ensures UniqueEmails(base.rows) && EmailFree(base.rows, y, Some(edit.email)) ==> AllUnique(states)
  {
    states, acts := WriteRun(base, c, y, Replace(edit, s.rows[y]), locked);
    if UniqueEmails(base.rows) && EmailFree(base.rows, y, Some(edit.email)) {
      NewEmailUnique(base.rows, y, states[2].rows[y]);
    }
  }

  /** A commit that takes a name back loses an update. */
  lemma TakesNameBack(states: seq<State>, acts: seq<Action>, n: nat, c: int, y: int, edit: Edit, copy: User)
    requires |states| == |acts| + 1 && n < |acts| && acts[n] == Commit(c, 0)
    requires c in states[n].clients && states[n].clients[c] == Client(y, Written(Replace(edit, copy)))
    requires edit.AdminEdit? && y in states[n].rows && states[n].rows[y].displayName == Some(OtherName(copy))
    requires y in states[n + 1].rows && states[n + 1].rows[y] == Overwrite(states[n].rows[y], edit.Apply(copy))
    ensures !KeepsUnset(states, acts, n) && !IsAtomic(states, acts, n)
  {
    assert CommitsUpdate(states[n], acts[n]) && DisplayName !in Columns(edit);
    assert Read(states[n].rows[y], DisplayName) != Read(states[n + 1].rows[y], DisplayName);
  }

  /** The name set meanwhile is taken back by an edit that does not set names. */
  lemma NameTakenBack(s: State, c: int, y: int, edit: Edit) returns (states: seq<State>, acts: seq<Action>)
    requires Initial(s) && y in s.rows && !s.rows[y].isGuest
    requires edit.AdminEdit? && edit.formVersion > s.rows[y].version
    ensures RunFrom(s, Load(c, y, edit), states, acts)
    ensures !KeepsUnset(states, acts, |acts| - 1) && !IsAtomic(states, acts, |acts| - 1)
    ensures UniqueEmails(s.rows) && EmailFree(s.rows, y, Some(edit.email)) ==> AllUnique(states)
  {
    var p, a, base, locked := EarlyEditRun(s, c, y, edit, Rename(OtherName(s.rows[y])));
    var q, b := OldCopyRun(s, base, c, y, edit, locked);
    states, acts := WholeRun(s, Load(c, y, edit), p, a, q, b);
    TakesNameBack(states, acts, |acts| - 1, c, y, edit, s.rows[y]);
  }

  /** The first action, a path and a last path of two actions as one run. */
  lemma WholeRun(s: State, first: Action, p: seq<State>, a: seq<Action>, q: seq<State>, b: seq<Action>)
    returns (states: seq<State>, acts: seq<Action>)
    requires Initial(s) && GoodPath(p, a) && GoodPath(q, b) && p[|a|] == q[0] && Transition(s, first, p[0]) && |b| == 2
    ensures RunFrom(s, first, states, acts)
    ensures states[|acts|] == q[2] && states[|acts| - 1] == q[1] && acts[|acts| - 1] == b[1]
    ensures UniqueEmails(s.rows) && AllUnique(p) && AllUnique(q) ==> AllUnique(states)
  {
    Join(p, a, q, b);
    RunAfter(s, first, p + q[1..], a + b);
    states, acts := [s] + (p + q[1..]), [first] + (a + b);
  }

  /**
   No lost updates, exactly: in all runs that begin with an administrator's edit and are
   within the rules afterwards, every committed update keeps the columns it does not set,
   and is atomic, iff the version in that edit's form is not ahead of the account's row.
   */
  lemma NoLostUpdateIff(s: State, c: int, y: int, edit: Edit)
    requires Initial(s) && y in s.rows && !s.rows[y].isGuest && edit.AdminEdit?
    ensures NoLostUpdate(s, Load(c, y, edit)) <==> edit.formVersion <= s.rows[y].version
    ensures AtomicUpdates(s, Load(c, y, edit)) <==> edit.formVersion <= s.rows[y].version
  {
    var first := Load(c, y, edit);
    if edit.formVersion <= s.rows[y].version {
      forall states: seq<State>, acts: seq<Action>, n: nat | RunFrom(s, first, states, acts) && n < |acts|
        ensures IsAtomic(states, acts, n) && KeepsUnset(states, acts, n)
      {
        NotAheadIsAtomic(s, first, states, acts, n);
      }
    } else {
      var states, acts := NameTakenBack(s, c, y, edit);
      var n: nat := |acts| - 1;
      assert RunFrom(s, first, states, acts) && !KeepsUnset(states, acts, n) && !IsAtomic(states, acts, n);
    }
  }

  lemma UnlinkCounts(s: State, c: int, y: int, identity: int)
    requires Idle(s, c, y) && s.rows[y].passwordHash.Some?
    ensures var n, locks := |Owned(s, y)|, s.rowLocks[y := c];
            var held := With(s, c, y, UnlinkHeld(identity, true)).(rowLocks := locks);
            var counted := With(s, c, y, UnlinkCounted(identity, true, n)).(rowLocks := locks);
            && Transition(With(s, c, y, UnlinkStart(identity)), UnlinkLock(c), held)
            && Transition(held, UnlinkCount(c), counted)
  {
    var held := With(s, c, y, UnlinkHeld(identity, true)).(rowLocks := s.rowLocks[y := c]);
    assert Owned(held, y) == Owned(s, y);
  }

  lemma UnlinkEnds(s: State, c: int, y: int, identity: int, n: nat)
    requires Idle(s, c, y) && identity in Owned(s, y)
    ensures var locks := s.rowLocks[y := c];
            var counted := With(s, c, y, UnlinkCounted(identity, true, n)).(rowLocks := locks);
            var deleted := With(s, c, y, UnlinkDeleted(identity, true, n)).(rowLocks := locks);
            && Transition(counted, UnlinkDelete(c), deleted)
            && Transition(deleted, Commit(c, 0), s.(identities := s.identities - {identity}))
  {
    var after := s.(identities := s.identities - {identity});
    var deleted := With(s, c, y, UnlinkDeleted(identity, true, n)).(rowLocks := s.rowLocks[y := c]);
    Releasing(after, c, y, deleted.(identities := after.identities));
  }

  /** An unlink of one identity of an account that has a password at that time. */
  lemma UnlinkRun(s: State, c: int, y: int, identity: int) returns (states: seq<State>, acts: seq<Action>)
    requires Idle(s, c, y) && s.rows[y].passwordHash.Some? && identity in Owned(s, y)
    ensures GoodPath(states, acts) && states[0] == s && (UniqueEmails(s.rows) ==> AllUnique(states))
    ensures states[|acts|] == s.(identities := s.identities - {identity})
  {
    var n, locks := |Owned(s, y)|, s.rowLocks[y := c];
    UnlinkCounts(s, c, y, identity);
    UnlinkEnds(s, c, y, identity, n);
    acts := [Unlink(c, y, identity), UnlinkLock(c), UnlinkCount(c), UnlinkDelete(c), Commit(c, 0)];
    states := [s, With(s, c, y, UnlinkStart(identity)),
               With(s, c, y, UnlinkHeld(identity, true)).(rowLocks := locks),
               With(s, c, y, UnlinkCounted(identity, true, n)).(rowLocks := locks),
               With(s, c, y, UnlinkDeleted(identity, true, n)).(rowLocks := locks),
               s.(identities := s.identities - {identity})];
    assert Transition(states[0], acts[0], states[1]);
  }

  lemma NoMethodLeft(s: State, bare: State, after: State, y: int, identity: int, edit: Edit)
    requires y in s.rows && s.rows[y].passwordHash.None? && Owned(s, y) == {identity}
    requires bare.identities == s.identities - {identity} && y in bare.rows
    requires edit.AdminEdit? && edit.newHash.None? && after == Applied(bare, y, Replace(edit, s.rows[y]))
    ensures y in after.rows && !HasMethod(after, y)
  {
    assert Owned(after, y) == Owned(s, y) - {identity};
  }

  /** The password set meanwhile allowed the unlink, and the old copy takes it back. */
  lemma PasswordTakenBack(s: State, c: int, y: int, identity: int, edit: Edit)
    returns (states: seq<State>, acts: seq<Action>)
    requires Initial(s) && y in s.rows && !s.rows[y].isGuest
    requires s.rows[y].passwordHash.None? && Owned(s, y) == {identity}
    requires edit.AdminEdit? && edit.newHash.None? && edit.formVersion > s.rows[y].version
    ensures RunFrom(s, Load(c, y, edit), states, acts)
    ensures y in states[|acts|].rows && !HasMethod(states[|acts|], y)
    ensures UniqueEmails(s.rows) && EmailFree(s.rows, y, Some(edit.email)) ==> AllUnique(states)
  {
    var p, a, base, locked := EarlyEditRun(s, c, y, edit, SetHash("hash"));
    assert Owned(p[|a|], y) == Owned(s, y);
    assert identity in Owned(s, y);
    var u, d := UnlinkRun(p[|a|], c + 1, y, identity);
    var bare := base.(identities := base.identities - {identity});
    var q, b := OldCopyRun(s, bare, c, y, edit, locked);
    Join(p, a, u, d);
    states, acts := WholeRun(s, Load(c, y, edit), p + u[1..], a + d, q, b);
    NoMethodLeft(s, bare, q[2], y, identity, edit);
  }

  /**
   A way to sign in, exactly: for an account with one identity and no password, all runs
   that begin with an administrator's edit of it without a new password, and are within
   the rules afterwards, keep a way to sign in iff the version in that edit's form is not
   ahead of the account's row.
   */
  lemma MethodKeptIff(s: State, c: int, y: int, identity: int, edit: Edit)
    requires Initial(s) && y in s.rows && !s.rows[y].isGuest
    requires s.rows[y].passwordHash.None? && Owned(s, y) == {identity}
    requires edit.AdminEdit? && edit.newHash.None?
    ensures MethodKept(s, Load(c, y, edit), y) <==> edit.formVersion <= s.rows[y].version
  {
    var first := Load(c, y, edit);
    assert identity in Owned(s, y);
    if edit.formVersion <= s.rows[y].version {
      forall states: seq<State>, acts: seq<Action>, n: nat
        | RunFrom(s, first, states, acts) && n <= |acts| && y in states[n].rows
        ensures HasMethod(states[n], y)
      {
        DisciplinedFrom(s, first, states, acts);
        AccountKeepsSignInMethod(states, acts, 0, n, y);
      }
    } else {
      var states, acts := PasswordTakenBack(s, c, y, identity, edit);
      var n: nat := |acts|;
      assert RunFrom(s, first, states, acts) && y in states[n].rows && !HasMethod(states[n], y);
    }
  }
}
