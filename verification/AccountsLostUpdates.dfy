/** UpdateUser writes a whole row from a copy, yet loses no concurrent change. */
module AccountsLostUpdates {
  import opened Wrappers
  import opened Accounts
  import opened AccountsInvariant
  import opened AccountsTheorems

  /** The columns of the users table an update can write. */
  datatype Column = Email | PasswordHash | Username | DisplayName | IsGuest | IsAdmin | Theme | Locale | EmailVerifiedAt

  datatype Cell = Text(text: Option<string>) | Flag(flag: bool) | Stamp(at: Option<int>)

  function Read(u: User, column: Column): (r: Cell) {
    match column
    case Email => Text(u.email)
    case PasswordHash => Text(u.passwordHash)
    case Username => Text(u.username)
    case DisplayName => Text(u.displayName)
    case IsGuest => Flag(u.isGuest)
    case IsAdmin => Flag(u.isAdmin)
    case Theme => Text(Some(u.theme))
    case Locale => Text(Some(u.locale))
    case EmailVerifiedAt => Stamp(u.emailVerifiedAt)
  }

  /** The columns each use case is there to change. */
  function Columns(edit: Edit): (r: set<Column>) {
    match edit
    case AdminEdit(_, _, newHash, _) => if newHash.Some? then {Email, IsAdmin, PasswordHash} else {Email, IsAdmin}
    case SetPassword(_) => {PasswordHash}
    case SetProfile(_, _) => {Username, DisplayName}
    case SetLocale(_) => {Locale}
    case SetTheme(_) => {Theme}
    case ConfirmEmail(_) => {EmailVerifiedAt}
    case UpgradeGuest(_, _) => {Email, PasswordHash, IsGuest, EmailVerifiedAt}
    case RefreshSso(email, _, name, _) =>
      (if email != "" then {Email, EmailVerifiedAt} else {}) + (if name != "" then {DisplayName} else {})
  }

  /**
   A committed UpdateUser has the effect of its edit applied at that instant to
   the row's current value: its copy was never stale. This covers administrator
   edits, whose copy is re-read later than the version they check.
   */
  lemma CommitIsAtomicEdit(states: seq<State>, acts: seq<Action>, n: nat)
    requires DisciplinedExecution(states, acts) && n < |acts|
    requires acts[n].Commit?
    requires var c := acts[n].client;
             c in states[n].clients && states[n].clients[c].phase.Written? && states[n].clients[c].phase.w.Replace?
    ensures var c := acts[n].client;
            var id := states[n].clients[c].target;
            var edit := states[n].clients[c].phase.w.edit;
            && id in states[n].rows
            && states[n + 1].rows ==
                 states[n].rows[id := edit.Apply(states[n].rows[id]).(version := states[n].rows[id].version + 1)]
  {
    ReachableInv(states, acts, n);
    assert Transition(states[n], acts[n], states[n + 1]);
    assert ClientOk(states[n], acts[n].client);
  }

  lemma EditTouchesOnlyItsColumns(edit: Edit, u: User, column: Column)
    requires column !in Columns(edit)
    ensures Read(edit.Apply(u), column) == Read(u, column) && edit.Apply(u).createdAt == u.createdAt
  {
  }

  /** Hence every column the use case does not set keeps the value it had just before the write. */
  lemma UntouchedColumnsSurvive(states: seq<State>, acts: seq<Action>, n: nat, column: Column)
    requires DisciplinedExecution(states, acts) && n < |acts|
    requires acts[n].Commit?
    requires var c := acts[n].client;
             c in states[n].clients && states[n].clients[c].phase.Written? && states[n].clients[c].phase.w.Replace?
    requires column !in Columns(states[n].clients[acts[n].client].phase.w.edit)
    ensures var id := states[n].clients[acts[n].client].target;
            && id in states[n].rows && id in states[n + 1].rows
            && Read(states[n + 1].rows[id], column) == Read(states[n].rows[id], column)
            && states[n + 1].rows[id].createdAt == states[n].rows[id].createdAt
  {
    CommitIsAtomicEdit(states, acts, n);
    var c := acts[n].client;
    EditTouchesOnlyItsColumns(states[n].clients[c].phase.w.edit, states[n].rows[states[n].clients[c].target], column);
  }

  lemma StepVersions(s: State, a: Action, id: int)
    requires s.rows.Keys <= s.usedUsers && Enabled(s, a) && id in s.rows && id in Next(s, a).rows
    ensures Next(s, a).rows[id] == s.rows[id] || Next(s, a).rows[id].version == s.rows[id].version + 1
  {
  }

  /** An account that was deleted never comes back under its identifier. */
  lemma StepKeepsUsed(s: State, a: Action)
    requires s.rows.Keys <= s.usedUsers && Enabled(s, a)
    ensures var t := Next(s, a);
            t.rows.Keys <= t.usedUsers && s.usedUsers <= t.usedUsers && t.rows.Keys * s.usedUsers <= s.rows.Keys
  {
  }

  lemma {:induction false} RowsAreUsed(states: seq<State>, acts: seq<Action>, n: nat)
    requires Execution(states, acts) && n <= |acts|
    ensures states[n].rows.Keys <= states[n].usedUsers
  {
    if n > 0 {
      RowsAreUsed(states, acts, n - 1);
      assert Transition(states[n - 1], acts[n - 1], states[n]);
      StepKeepsUsed(states[n - 1], acts[n - 1]);
    }
  }

  lemma RunStepVersions(states: seq<State>, acts: seq<Action>, n: nat, id: int)
    requires Execution(states, acts) && n < |acts| && id in states[n].usedUsers
    ensures id in states[n + 1].usedUsers
    ensures id in states[n + 1].rows ==>
              && id in states[n].rows
              && (states[n + 1].rows[id] == states[n].rows[id]
                  || states[n].rows[id].version < states[n + 1].rows[id].version)
  {
    assert Transition(states[n], acts[n], states[n + 1]);
    RowsAreUsed(states, acts, n);
    StepKeepsUsed(states[n], acts[n]);
    if id in states[n + 1].rows {
      assert id in states[n + 1].rows.Keys * states[n].usedUsers;
      StepVersions(states[n], acts[n], id);
    }
  }

  /** Identifiers are not reused, whatever versions the forms name. */
  lemma {:induction false} PresentBetween(states: seq<State>, acts: seq<Action>, n: nat, k: nat, m: nat, id: int)
    requires Execution(states, acts) && n <= k <= m <= |acts|
    requires id in states[n].rows && id in states[m].rows
    ensures id in states[k].rows
    decreases m - k
  {
    if k < m {
      PresentBetween(states, acts, n, k + 1, m, id);
      UsedStays(states, acts, n, k, id);
      RunStepVersions(states, acts, k, id);
    }
  }

  lemma {:induction false} UsedStays(states: seq<State>, acts: seq<Action>, n: nat, k: nat, id: int)
    requires Execution(states, acts) && n <= k <= |acts| && id in states[n].rows
    ensures id in states[k].usedUsers
    decreases k
  {
    if n < k {
      UsedStays(states, acts, n, k - 1, id);
      RunStepVersions(states, acts, k - 1, id);
    } else {
      RowsAreUsed(states, acts, n);
    }
  }

  /** The version tells every change of a row: equal versions at two moments mean equal rows. */
  lemma {:induction false} RowVersionsGrow(states: seq<State>, acts: seq<Action>, n: nat, m: nat, id: int)
    requires Execution(states, acts) && n <= m <= |acts|
    requires id in states[n].rows && id in states[m].rows
    ensures states[n].rows[id] == states[m].rows[id] || states[n].rows[id].version < states[m].rows[id].version
    decreases m
  {
    if n < m {
      PresentBetween(states, acts, n, m - 1, m, id);
      RowVersionsGrow(states, acts, n, m - 1, id);
      UsedStays(states, acts, n, m - 1, id);
      RunStepVersions(states, acts, m - 1, id);
    }
  }
}
