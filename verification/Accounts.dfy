/**
 The users and oauth_identities tables as PostgreSQL clients see them: one
 action per SQL statement, any number of clients in any order.

 Rules taken from PostgreSQL (READ COMMITTED): a statement reads the rows
 committed when it starts; an UPDATE, DELETE or SELECT FOR UPDATE waits for the
 row lock and then re-checks its WHERE clause; row locks and the advisory lock
 last until commit or rollback; a transaction's own changes become visible to
 others at its commit; identifiers are never reused. A client may roll back at
 any point, which covers every error return, including unique violations.
 */
module Accounts {
  import opened Wrappers

  datatype User = User(
    email: Option<string>,
    passwordHash: Option<string>,
    username: Option<string>,
    displayName: Option<string>,
    isGuest: bool,
    isAdmin: bool,
    theme: string,
    locale: string,
    createdAt: int,
    emailVerifiedAt: Option<int>,
    version: nat)
  {
    /** The SQL expression `is_admin AND NOT is_guest`. */
    predicate Administrator() {
      isAdmin && !isGuest
    }
  }

  /** What each use case does to the account it has read before UpdateUser. */
  datatype Edit =
    | AdminEdit(email: string, isAdmin: bool, newHash: Option<string>, formVersion: nat)
    | SetPassword(hash: string)
    | SetProfile(username: Option<string>, displayName: Option<string>)
    | SetLocale(locale: string)
    | SetTheme(theme: string)
    | ConfirmEmail(at: int)
    | UpgradeGuest(email: string, hash: string)
    | RefreshSso(email: string, emailVerified: bool, name: string, at: int)
  {
    function Apply(u: User): (r: User) {
      match this
      case AdminEdit(email, isAdmin, newHash, _) =>
        var v := u.(email := Some(email), isAdmin := isAdmin);
        if newHash.Some? then v.(passwordHash := newHash) else v
      case SetPassword(hash) => u.(passwordHash := Some(hash))
      case SetProfile(username, displayName) => u.(username := username, displayName := displayName)
      case SetLocale(locale) => u.(locale := locale)
      case SetTheme(theme) => u.(theme := theme)
      case ConfirmEmail(at) => u.(emailVerifiedAt := Some(at))
      case UpgradeGuest(email, hash) =>
        u.(email := Some(email), passwordHash := Some(hash), isGuest := false, emailVerifiedAt := None)
      case RefreshSso(email, emailVerified, name, at) =>
        var v := if email != "" && u.email != Some(email) then u.(email := Some(email), emailVerifiedAt := None) else u;
        var w := if email != "" && emailVerified && v.emailVerifiedAt.None? then v.(emailVerifiedAt := Some(at)) else v;
        if name != "" then w.(displayName := Some(name)) else w
    }

    /** The expectedVersion passed to UpdateUser: the form's version for an
        administrator edit, the version of the row just read otherwise. */
    function ExpectedVersion(copy: User): (r: nat) {
      if AdminEdit? then formVersion else copy.version
    }
  }

  /** The write a transaction intends. Sweep is the abandoned-guest cleanup. */
  datatype Write =
    | Replace(edit: Edit, copy: User)
    | Remove(formVersion: nat)
    | Convert(email: Option<string>, displayName: Option<string>, verifiedAt: Option<int>, guestVersion: nat)
    | Sweep(lockedVersion: nat)
  {
    function Expected(): (r: nat) {
      match this
      case Replace(edit, copy) => edit.ExpectedVersion(copy)
      case Remove(v) => v
      case Convert(_, _, _, v) => v
      case Sweep(v) => v
    }

    /** Whether the transaction runs keepAnotherAdministrator first. */
    predicate Guarded() {
      match this
      case Replace(edit, copy) => var u := edit.Apply(copy); !u.isAdmin || u.isGuest
      case Remove(_) => true
      case Convert(_, _, _, _) => false
      case Sweep(_) => false
    }
  }

  /** The next statement of a client and the locals it carries. */
  datatype Phase =
    | Start(w: Write)
    | Waiting(w: Write)
    | Locked(w: Write)
    | Counted(w: Write, others: nat)
    | Writing(w: Write)
    | Written(w: Write)
    | UnlinkStart(identity: int)
    | UnlinkHeld(identity: int, hasPassword: bool)
    | UnlinkCounted(identity: int, hasPassword: bool, identities: nat)
    | UnlinkDeleted(identity: int, hasPassword: bool, identities: nat)

  datatype Client = Client(target: int, phase: Phase)

  /**
   The committed tables, the locks and the running clients. `identities` maps an
   identity to its owner, and the two `used` sets hold every identifier ever handed out.
   */
  datatype State = State(
    rows: map<int, User>,
    identities: map<int, int>,
    usedUsers: set<int>,
    usedIdentities: set<int>,
    adminLock: Option<int>,
    rowLocks: map<int, int>,
    clients: map<int, Client>)

  datatype Action =
    | Create(id: int, user: User)
    | Load(client: int, id: int, edit: Edit)
    | LoadRemove(client: int, id: int, formVersion: nat)
    | LoadConvert(client: int, id: int, email: Option<string>, displayName: Option<string>, verifiedAt: Option<int>)
    | LockSweep(client: int, id: int)
    | Guard(client: int)
    | Lock(client: int)
    | Count(client: int)
    | Recheck(client: int)
    | WriteRow(client: int)
    | Commit(client: int, newIdentity: int)
    | Abort(client: int)
    | Link(identity: int, owner: int)
    | Unlink(client: int, owner: int, identity: int)
    | UnlinkLock(client: int)
    | UnlinkCount(client: int)
    | UnlinkDelete(client: int)

  predicate AdminAt(s: State, id: int) {
    id in s.rows && s.rows[id].Administrator()
  }

  function OtherAdmins(s: State, id: int): (r: set<int>) {
    set x | x in s.rows && x != id && s.rows[x].Administrator()
  }

  function Owned(s: State, owner: int): (r: set<int>) {
    set i | i in s.identities && s.identities[i] == owner
  }

  /** Whether the statement can run now; a lock that is taken makes it wait. */
  predicate Enabled(s: State, a: Action) {
    match a
    case Create(id, user) => id !in s.usedUsers
    case Load(c, id, edit) => c !in s.clients && id in s.rows
    case LoadRemove(c, id, v) => c !in s.clients && id in s.rows
    case LoadConvert(c, id, _, _, _) => c !in s.clients && id in s.rows
    case LockSweep(c, id) => c !in s.clients && id in s.rows && s.rows[id].isGuest && id !in s.rowLocks
    case Guard(c) => c in s.clients && s.clients[c].phase.Start?
    case Lock(c) => c in s.clients && s.clients[c].phase.Waiting? && s.adminLock.None?
    case Count(c) => c in s.clients && s.clients[c].phase.Locked?
    case Recheck(c) => c in s.clients && s.clients[c].phase.Counted?
    case WriteRow(c) => c in s.clients && s.clients[c].phase.Writing? && s.clients[c].target !in s.rowLocks
    case Commit(c, i) =>
      && c in s.clients
      && (s.clients[c].phase.Written? || s.clients[c].phase.UnlinkDeleted?)
      && (s.clients[c].phase.Written? && s.clients[c].phase.w.Convert? ==> i !in s.usedIdentities)
    case Abort(c) => c in s.clients
    case Link(i, owner) => i !in s.usedIdentities && owner in s.rows
    case Unlink(c, _, _) => c !in s.clients
    case UnlinkLock(c) => c in s.clients && s.clients[c].phase.UnlinkStart? && s.clients[c].target !in s.rowLocks
    case UnlinkCount(c) => c in s.clients && s.clients[c].phase.UnlinkHeld?
    case UnlinkDelete(c) => c in s.clients && s.clients[c].phase.UnlinkCounted?
  }

  /** Commit or rollback: the client is gone and so are its locks. */
  function End(s: State, c: int): (r: State) {
    s.(clients := s.clients - {c},
       adminLock := if s.adminLock == Some(c) then None else s.adminLock,
       rowLocks := map id | id in s.rowLocks && s.rowLocks[id] != c :: s.rowLocks[id])
  }

  function Go(s: State, c: int, p: Phase): (r: State)
    requires c in s.clients
  {
    s.(clients := s.clients[c := s.clients[c].(phase := p)])
  }

  function Put(s: State, id: int, u: User): (r: State) {
    s.(rows := s.rows[id := u], usedUsers := s.usedUsers + {id})
  }

  /** Deleting an account cascades to its identities. */
  function Drop(s: State, id: int): (r: State) {
    s.(rows := s.rows - {id}, identities := map i | i in s.identities && s.identities[i] != id :: s.identities[i])
  }

  /** The UPDATE statement: every editable column from the caller's copy,
      created_at left alone, version incremented. */
  function Overwrite(row: User, desired: User): (r: User) {
    desired.(createdAt := row.createdAt, version := row.version + 1)
  }

  function Converted(row: User, w: Write): (r: User)
    requires w.Convert?
  {
    row.(email := w.email, displayName := w.displayName, isGuest := false,
         emailVerifiedAt := w.verifiedAt, version := row.version + 1)
  }

  /** What becomes visible when client c commits. */
  function Effect(s: State, c: int, newIdentity: int): (r: State)
    requires c in s.clients && (s.clients[c].phase.Written? || s.clients[c].phase.UnlinkDeleted?)
  {
    var t := s.clients[c].target;
    match s.clients[c].phase
    case Written(Replace(edit, copy)) =>
      if t in s.rows then Put(s, t, Overwrite(s.rows[t], edit.Apply(copy))) else s
    case Written(Remove(_)) => Drop(s, t)
    case Written(Sweep(_)) => Drop(s, t)
    case Written(w) =>
      if t in s.rows
      then Put(s, t, Converted(s.rows[t], w)).(identities := s.identities[newIdentity := t],
                                              usedIdentities := s.usedIdentities + {newIdentity})
      else s
    case UnlinkDeleted(i, hasPassword, n) =>
      if !hasPassword && n <= 1 then s else s.(identities := s.identities - {i})
  }

  /** The WHERE clause of the write, checked on the latest committed row. */
  predicate Matches(s: State, t: int, w: Write) {
    t in s.rows && s.rows[t].version == w.Expected() && (w.Convert? ==> s.rows[t].isGuest)
  }

  function Next(s: State, a: Action): (r: State)
    requires Enabled(s, a)
  {
    match a
    case Create(id, user) => Put(s, id, user)
    case Load(c, id, edit) => s.(clients := s.clients[c := Client(id, Start(Replace(edit, s.rows[id])))])
    case LoadRemove(c, id, v) => s.(clients := s.clients[c := Client(id, Start(Remove(v)))])
    case LoadConvert(c, id, email, name, at) =>
      s.(clients := s.clients[c := Client(id, Start(Convert(email, name, at, s.rows[id].version)))])
    case LockSweep(c, id) =>
      s.(clients := s.clients[c := Client(id, Written(Sweep(s.rows[id].version)))], rowLocks := s.rowLocks[id := c])
    case Guard(c) =>
      var w := s.clients[c].phase.w;
      Go(s, c, if w.Guarded() && AdminAt(s, s.clients[c].target) then Waiting(w) else Writing(w))
    case Lock(c) => Go(s, c, Locked(s.clients[c].phase.w)).(adminLock := Some(c))
    case Count(c) => Go(s, c, Counted(s.clients[c].phase.w, |OtherAdmins(s, s.clients[c].target)|))
    case Recheck(c) =>
      var t := s.clients[c].target;
      var isAdmin := if t in s.rows then s.rows[t].Administrator() else true;
      if isAdmin && s.clients[c].phase.others == 0 then End(s, c) else Go(s, c, Writing(s.clients[c].phase.w))
    case WriteRow(c) =>
      var t := s.clients[c].target;
      var w := s.clients[c].phase.w;
      if Matches(s, t, w) then Go(s, c, Written(w)).(rowLocks := s.rowLocks[t := c]) else End(s, c)
    case Commit(c, i) => End(Effect(s, c, i), c)
    case Abort(c) => End(s, c)
    case Link(i, owner) => s.(identities := s.identities[i := owner], usedIdentities := s.usedIdentities + {i})
    case Unlink(c, owner, i) => s.(clients := s.clients[c := Client(owner, UnlinkStart(i))])
    case UnlinkLock(c) =>
      var t := s.clients[c].target;
      if t in s.rows
      then Go(s, c, UnlinkHeld(s.clients[c].phase.identity,
                               s.rows[t].passwordHash.Some?)).(rowLocks := s.rowLocks[t := c])
      else End(s, c)
    case UnlinkCount(c) =>
      var p := s.clients[c].phase;
      Go(s, c, UnlinkCounted(p.identity, p.hasPassword, |Owned(s, s.clients[c].target)|))
    case UnlinkDelete(c) =>
      var p := s.clients[c].phase;
      if p.identity in s.identities && s.identities[p.identity] == s.clients[c].target
      then Go(s, c, UnlinkDeleted(p.identity, p.hasPassword, p.identities))
      else End(s, c)
  }

  /** A version that arrives in a form is not ahead of the row read with it. */
  predicate Disciplined(s: State, a: Action) {
    match a
    case Load(_, id, AdminEdit(_, _, _, v)) => id in s.rows && v <= s.rows[id].version
    case LoadRemove(_, id, v) => id in s.rows && v <= s.rows[id].version
    case _ => true
  }

  /** A database with no transaction in progress. */
  ghost predicate Initial(s: State) {
    && s.clients == map[] && s.rowLocks == map[] && s.adminLock == None
    && s.rows.Keys <= s.usedUsers
    && s.identities.Keys <= s.usedIdentities
    && (forall i :: i in s.identities ==> s.identities[i] in s.rows)
  }

  ghost predicate Transition(s: State, a: Action, t: State) {
    Enabled(s, a) && t == Next(s, a)
  }

  /** states[i] is the database before acts[i]. */
  ghost predicate Execution(states: seq<State>, acts: seq<Action>) {
    && |states| == |acts| + 1
    && Initial(states[0])
    && (forall i {:trigger acts[i]} :: 0 <= i < |acts| ==> Transition(states[i], acts[i], states[i + 1]))
  }

  ghost predicate DisciplinedExecution(states: seq<State>, acts: seq<Action>) {
    && Execution(states, acts)
    && (forall i {:trigger acts[i]} :: 0 <= i < |acts| ==> Disciplined(states[i], acts[i]))
  }

  ghost predicate HasAdmin(s: State) {
    exists id :: AdminAt(s, id)
  }

  ghost predicate OtherAdmin(s: State, t: int) {
    exists id :: id != t && AdminAt(s, id)
  }
}
