/** What a committed transaction leaves in the tables, use case by use case and column by column. */
module AccountWrites {
  import opened Wrappers
  import opened Accounts
  import opened AccountsInvariant
  import opened AccountsTheorems
  import opened AccountsLostUpdates

  /** The n-th action commits this write of account `id`. */
  ghost predicate Commits(states: seq<State>, acts: seq<Action>, n: nat, id: int, w: Write) {
    && |states| == |acts| + 1 && n < |acts| && acts[n].Commit? && acts[n].client in states[n].clients
    && states[n].clients[acts[n].client] == Client(id, Written(w))
  }

  /** The row got these values in these columns and a new version; no other column changed. */
  ghost predicate Leaves(was: User, now: User, values: map<Column, Cell>) {
    && now.version == was.version + 1 && now.createdAt == was.createdAt
    && forall column :: Read(now, column) == if column in values then values[column] else Read(was, column)
  }

  /** No other row changed. */
  ghost predicate OneRow(s: State, t: State, id: int) {
    id in s.rows && id in t.rows && t.rows == s.rows[id := t.rows[id]]
  }

  lemma Committing(states: seq<State>, acts: seq<Action>, n: nat, id: int, w: Write)
    requires DisciplinedExecution(states, acts) && Commits(states, acts, n, id, w)
    ensures id in states[n].rows && (w.Replace? ==> states[n].rows[id] == w.copy)
    ensures w.Convert? || w.Sweep? ==> states[n].rows[id].isGuest
    ensures states[n].rows[id].version == w.Expected()
    ensures Enabled(states[n], acts[n])
    ensures states[n + 1] == End(Effect(states[n], acts[n].client, acts[n].newIdentity), acts[n].client)
  {
    ReachableInv(states, acts, n);
    assert Transition(states[n], acts[n], states[n + 1]);
    assert ClientOk(states[n], acts[n].client);
  }

  /** The columns each use case sets, and to what. */
  ghost predicate EditMeans(edit: Edit, was: User, now: User) {
    match edit
    case AdminEdit(email, isAdmin, None, _) =>
      Leaves(was, now, map[Email := Text(Some(email)), IsAdmin := Flag(isAdmin)])
    case AdminEdit(email, isAdmin, Some(hash), _) =>
      Leaves(was, now, map[Email := Text(Some(email)), IsAdmin := Flag(isAdmin), PasswordHash := Text(Some(hash))])
    case SetPassword(hash) => Leaves(was, now, map[PasswordHash := Text(Some(hash))])
    case SetProfile(username, name) => Leaves(was, now, map[Username := Text(username), DisplayName := Text(name)])
    case SetLocale(locale) => Leaves(was, now, map[Locale := Text(Some(locale))])
    case SetTheme(theme) => Leaves(was, now, map[Theme := Text(Some(theme))])
    case ConfirmEmail(at) => Leaves(was, now, map[EmailVerifiedAt := Stamp(Some(at))])
    case UpgradeGuest(email, hash) =>
      Leaves(was, now, map[Email := Text(Some(email)), PasswordHash := Text(Some(hash)), IsGuest := Flag(false),
                         EmailVerifiedAt := Stamp(None)])
    case RefreshSso(email, verified, name, at) =>
      Leaves(was, now, map[Email := Text(if email == "" then was.email else Some(email)),
                         DisplayName := Text(if name == "" then was.displayName else Some(name)),
                         EmailVerifiedAt := Stamp(ConfirmedAfter(was, email, verified, at))])
  }

  /** What each use case leaves behind, whatever was committed since it read the account. */
  lemma EditLeaves(states: seq<State>, acts: seq<Action>, n: nat, id: int, edit: Edit, copy: User)
    requires DisciplinedExecution(states, acts) && Commits(states, acts, n, id, Replace(edit, copy))
    ensures OneRow(states[n], states[n + 1], id) && states[n + 1].identities == states[n].identities
    ensures EditMeans(edit, states[n].rows[id], states[n + 1].rows[id])
  {
    Committing(states, acts, n, id, Replace(edit, copy));
    Overwritten(edit, copy);
  }

  lemma Overwritten(edit: Edit, u: User)
    ensures EditMeans(edit, u, Overwrite(u, edit.Apply(u)))
  {
  }

  /** A refresh keeps a confirmation of the same address, and otherwise follows the issuer. */
  function ConfirmedAfter(u: User, email: string, verified: bool, at: int): (r: Option<int>) {
    if email == "" then u.emailVerifiedAt
    else if u.email == Some(email) && u.emailVerifiedAt.Some? then u.emailVerifiedAt
    else if verified then Some(at) else None
  }

  /** A guest upgraded through the issuer: three columns, the guest flag, and the new identity. */
  lemma ConversionLeaves(states: seq<State>, acts: seq<Action>, n: nat, id: int, email: Option<string>,
      name: Option<string>, at: Option<int>, version: nat)
    requires DisciplinedExecution(states, acts) && Commits(states, acts, n, id, Convert(email, name, at, version))
    ensures var s, t := states[n], states[n + 1];
            && OneRow(s, t, id)
            && Leaves(s.rows[id], t.rows[id], map[Email := Text(email), DisplayName := Text(name),
                                                IsGuest := Flag(false), EmailVerifiedAt := Stamp(at)])
            && s.rows[id].isGuest && s.rows[id].version == version
            && acts[n].newIdentity !in s.identities && t.identities == s.identities[acts[n].newIdentity := id]
  {
    Committing(states, acts, n, id, Convert(email, name, at, version));
    ReachableInv(states, acts, n);
  }

  /** A deletion takes the account of the named version with its identities, and nothing else. */
  lemma DeletionLeaves(states: seq<State>, acts: seq<Action>, n: nat, id: int, w: Write)
    requires DisciplinedExecution(states, acts) && Commits(states, acts, n, id, w) && (w.Remove? || w.Sweep?)
    ensures var s, t := states[n], states[n + 1];
            && id in s.rows && id !in t.rows && (w.Remove? ==> s.rows[id].version == w.formVersion)
            && (w.Sweep? ==> s.rows[id].isGuest && s.rows[id].version == w.lockedVersion)
            && (forall other :: other in t.rows <==> other in s.rows && other != id)
            && (forall other :: other in t.rows ==> t.rows[other] == s.rows[other])
            && (forall i :: i in t.identities <==> i in s.identities && s.identities[i] != id)
            && (forall i :: i in t.identities ==> t.identities[i] == s.identities[i])
  {
    Committing(states, acts, n, id, w);
  }

  lemma CreationTimeStays(s: State, a: Action, id: int)
    requires s.rows.Keys <= s.usedUsers && Enabled(s, a) && id in s.rows && id in Next(s, a).rows
    ensures Next(s, a).rows[id].createdAt == s.rows[id].createdAt
  {
  }

  /** In every run, whatever versions forms name, nothing rewrites the time an account was created. */
  lemma {:induction false} CreationTimeKept(states: seq<State>, acts: seq<Action>, n: nat, m: nat, id: int)
    requires Execution(states, acts) && n <= m <= |acts| && id in states[n].rows && id in states[m].rows
    ensures states[m].rows[id].createdAt == states[n].rows[id].createdAt
    decreases m
  {
    if n < m {
      PresentBetween(states, acts, n, m - 1, m, id);
      CreationTimeKept(states, acts, n, m - 1, id);
      RowsAreUsed(states, acts, m - 1);
      assert Transition(states[m - 1], acts[m - 1], states[m]);
      CreationTimeStays(states[m - 1], acts[m - 1], id);
    }
  }
}
