/**
 Group memberships under concurrent joins, role changes, removals and leaves,
 one action per SQL statement. A write first takes the group's advisory lock,
 then reads the role FOR UPDATE, counts the other administrators when the write
 takes the role away, writes, and commits.
 */
module Groups {
  import opened Wrappers
  import opened Sets

  datatype Role = Admin | Member

  datatype Row = Row(role: Role, version: nat)

  /** UpdateMembershipRole with the new role, or DeleteMembership. */
  datatype Change = SetRole(role: Role) | Delete

  datatype Write = Write(group: int, user: int, change: Change, expected: nat)

  datatype Phase =
    | Waiting(w: Write)
    | Locked(w: Write)
    | Read(w: Write, current: Role)
    | Checked(w: Write)
    | Written(w: Write)

  /** Memberships by (group, user), the groups ever created, the advisory lock of each group. */
  datatype State = State(
    members: map<(int, int), Row>, groups: set<int>, locks: map<int, int>, clients: map<int, Phase>)

  datatype Action =
    | CreateGroup(group: int, creator: int)
    | Join(group: int, user: int, row: Row)
    | Begin(client: int, w: Write)
    | Lock(client: int)
    | ReadRole(client: int)
    | Check(client: int)
    | Apply(client: int)
    | Commit(client: int)
    | Abort(client: int)

  function OtherAdmins(s: State, group: int, user: int): (r: set<(int, int)>) {
    set k | k in s.members && k.0 == group && k.1 != user && s.members[k].role == Admin
  }

  /** Whether the write takes the administrator role from a row that has it. */
  predicate Removes(current: Role, change: Change) {
    current == Admin && change != SetRole(Admin)
  }

  predicate Enabled(s: State, a: Action) {
    match a
    case CreateGroup(g, _) => g !in s.groups
    case Join(g, u, _) => g in s.groups && (g, u) !in s.members
    case Begin(c, _) => c !in s.clients
    case Lock(c) => c in s.clients && s.clients[c].Waiting? && s.clients[c].w.group !in s.locks
    case ReadRole(c) => c in s.clients && s.clients[c].Locked?
    case Check(c) => c in s.clients && s.clients[c].Read?
    case Apply(c) => c in s.clients && s.clients[c].Checked?
    case Commit(c) => c in s.clients && s.clients[c].Written?
    case Abort(c) => c in s.clients
  }

  function End(s: State, c: int): (r: State) {
    s.(clients := s.clients - {c}, locks := map g | g in s.locks && s.locks[g] != c :: s.locks[g])
  }

  function Next(s: State, a: Action): (r: State)
    requires Enabled(s, a)
  {
    match a
    case CreateGroup(g, u) => s.(members := s.members[(g, u) := Row(Admin, 0)], groups := s.groups + {g})
    case Join(g, u, row) => s.(members := s.members[(g, u) := row])
    case Begin(c, w) => s.(clients := s.clients[c := Waiting(w)])
    case Lock(c) =>
      s.(clients := s.clients[c := Locked(s.clients[c].w)], locks := s.locks[s.clients[c].w.group := c])
    case ReadRole(c) =>
      var w := s.clients[c].w;
      if (w.group, w.user) in s.members
      then s.(clients := s.clients[c := Read(w, s.members[(w.group, w.user)].role)])
      else End(s, c)
    case Check(c) =>
      var w := s.clients[c].w;
      if Removes(s.clients[c].current, w.change) && |OtherAdmins(s, w.group, w.user)| == 0
      then End(s, c)
      else s.(clients := s.clients[c := Checked(w)])
    case Apply(c) =>
      var w := s.clients[c].w;
      if (w.group, w.user) in s.members && s.members[(w.group, w.user)].version == w.expected
      then s.(clients := s.clients[c := Written(w)])
      else End(s, c)
    case Commit(c) => End(s.(members := Committed(s.members, s.clients[c].w)), c)
    case Abort(c) => End(s, c)
  }

  function Committed(members: map<(int, int), Row>, w: Write): (r: map<(int, int), Row>) {
    var k := (w.group, w.user);
    match w.change
    case Delete => members - {k}
    case SetRole(role) => if k in members then members[k := Row(role, members[k].version + 1)] else members
  }

  ghost predicate Execution(states: seq<State>, acts: seq<Action>) {
    && |states| == |acts| + 1
    && states[0] == State(map[], {}, map[], map[])
    && (forall i {:trigger acts[i]} :: 0 <= i < |acts| ==>
        Enabled(states[i], acts[i]) && states[i + 1] == Next(states[i], acts[i]))
  }

  ghost predicate AdminIn(s: State, group: int, user: int) {
    (group, user) in s.members && s.members[(group, user)].role == Admin
  }

  ghost predicate OtherAdmin(s: State, group: int, user: int) {
    exists u :: u != user && AdminIn(s, group, u)
  }

  /** A writer past its check: it keeps an administrator at its row, or another one exists. */
  ghost predicate Safe(s: State, w: Write) {
    || w.change == SetRole(Admin)
    || !AdminIn(s, w.group, w.user)
    || OtherAdmin(s, w.group, w.user)
  }

  ghost predicate ClientOk(s: State, c: int)
    requires c in s.clients
  {
    var w := s.clients[c].w;
    && (!s.clients[c].Waiting? ==> w.group in s.locks && s.locks[w.group] == c)
    && (s.clients[c].Read? ==>
        (w.group, w.user) in s.members && s.members[(w.group, w.user)].role == s.clients[c].current)
    && (s.clients[c].Checked? || s.clients[c].Written? ==> (w.group, w.user) in s.members && Safe(s, w))
    && (s.clients[c].Written? ==> s.members[(w.group, w.user)].version == w.expected)
  }

  ghost predicate Inv(s: State) {
    && (forall k :: k in s.members ==> k.0 in s.groups)
    && (forall c :: c in s.clients ==> ClientOk(s, c))
    && (forall g :: g in s.groups ==> exists u :: AdminIn(s, g, u))
  }

  /** Rows of a group change only under its lock; joins and new groups only add rows. */
  lemma RowsUnderLock(s: State, a: Action, g: int, u: int)
    requires Inv(s) && Enabled(s, a) && (g, u) in s.members
    ensures var t := Next(s, a);
            || ((g, u) in t.members && t.members[(g, u)] == s.members[(g, u)])
            || (a.Commit? && s.clients[a.client].w.group == g && s.clients[a.client].w.user == u
                && g in s.locks && s.locks[g] == a.client)
  {
    if a.Commit? { assert ClientOk(s, a.client); }
  }

  lemma OtherAdminPersists(s: State, a: Action, g: int, u: int)
    requires Inv(s) && Enabled(s, a) && OtherAdmin(s, g, u)
    requires a.Commit? ==> s.clients[a.client].w.group != g || s.clients[a.client].w.user == u
    ensures OtherAdmin(Next(s, a), g, u)
  {
    var x :| x != u && AdminIn(s, g, x);
    RowsUnderLock(s, a, g, x);
    assert AdminIn(Next(s, a), g, x);
  }

  lemma BystanderOk(s: State, a: Action, d: int)
    requires Inv(s) && Enabled(s, a)
    requires d in s.clients && d in Next(s, a).clients && Next(s, a).clients[d] == s.clients[d]
    requires a.Commit? ==> a.client != d
    ensures ClientOk(Next(s, a), d)
  {
    var t := Next(s, a);
    var w := s.clients[d].w;
    assert ClientOk(s, d);
    if a.Commit? { assert ClientOk(s, a.client); }
    if (w.group, w.user) in s.members && !s.clients[d].Waiting? {
      RowsUnderLock(s, a, w.group, w.user);
      if OtherAdmin(s, w.group, w.user) {
        OtherAdminPersists(s, a, w.group, w.user);
      }
    }
  }

  lemma CheckedIsSafe(s: State, c: int)
    requires Inv(s) && Enabled(s, Check(c)) && c in Next(s, Check(c)).clients
    ensures ClientOk(Next(s, Check(c)), c)
  {
    var t := Next(s, Check(c));
    var w := s.clients[c].w;
    assert ClientOk(s, c);
    if Removes(s.clients[c].current, w.change) {
      var others := OtherAdmins(s, w.group, w.user);
      var k := Choose(others);
      assert k == (w.group, k.1);
      assert AdminIn(t, w.group, k.1);
    }
  }

  lemma MoverOk(s: State, a: Action)
    requires Inv(s) && Enabled(s, a) && !a.CreateGroup? && !a.Join?
    requires a.client in Next(s, a).clients
    ensures ClientOk(Next(s, a), a.client)
  {
    var t := Next(s, a);
    var c := a.client;
    if c in s.clients {
      assert ClientOk(s, c);
      var w := s.clients[c].w;
      if a.Check? {
        CheckedIsSafe(s, c);
      } else if a.Apply? && OtherAdmin(s, w.group, w.user) {
        OtherAdminPersists(s, a, w.group, w.user);
      }
    }
  }

  /** The check of the committing writer still holds at its commit. */
  lemma GroupKeepsAdmin(s: State, a: Action, g: int)
    requires Inv(s) && Enabled(s, a) && g in s.groups
    ensures exists u :: AdminIn(Next(s, a), g, u)
  {
    var t := Next(s, a);
    var u :| AdminIn(s, g, u);
    RowsUnderLock(s, a, g, u);
    if !AdminIn(t, g, u) {
      assert ClientOk(s, a.client);
      OtherAdminPersists(s, a, g, u);
    }
  }

  lemma StepKeeps(s: State, a: Action)
    requires Inv(s) && Enabled(s, a)
    ensures Inv(Next(s, a))
  {
    var t := Next(s, a);
    forall d | d in t.clients ensures ClientOk(t, d) {
      if d in s.clients && t.clients[d] == s.clients[d] && !(a.Commit? && a.client == d) {
        BystanderOk(s, a, d);
      } else {
        MoverOk(s, a);
      }
    }
    forall g | g in t.groups ensures exists u :: AdminIn(t, g, u) {
      if g in s.groups {
        GroupKeepsAdmin(s, a, g);
      } else {
        assert AdminIn(t, g, a.creator);
      }
    }
  }

  lemma {:induction false} ReachableInv(states: seq<State>, acts: seq<Action>, n: nat)
    requires Execution(states, acts) && n <= |acts|
    ensures Inv(states[n])
  {
    if n > 0 {
      ReachableInv(states, acts, n - 1);
      StepKeeps(states[n - 1], acts[n - 1]);
    }
  }

  /** Every group ever created has an administrator in every reachable database. */
  lemma EveryGroupHasAnAdmin(states: seq<State>, acts: seq<Action>, n: nat, g: int)
    requires Execution(states, acts) && n <= |acts| && g in states[n].groups
    ensures exists u :: (g, u) in states[n].members && states[n].members[(g, u)].role == Admin
  {
    ReachableInv(states, acts, n);
    var u :| AdminIn(states[n], g, u);
  }

  /** The check refuses exactly the removal of the only administrator. */
  lemma RefusedIffLastAdmin(states: seq<State>, acts: seq<Action>, n: nat)
    requires Execution(states, acts) && n < |acts| && acts[n].Check?
    ensures var s := states[n];
            var w := s.clients[acts[n].client].w;
            acts[n].client !in states[n + 1].clients <==>
              w.change != SetRole(Admin) && forall u :: AdminIn(s, w.group, u) <==> u == w.user
  {
    ReachableInv(states, acts, n);
    var s := states[n];
    var c := acts[n].client;
    var w := s.clients[c].w;
    var others := OtherAdmins(s, w.group, w.user);
    assert ClientOk(s, c);
    if |others| == 0 {
      forall u | u != w.user ensures !AdminIn(s, w.group, u) {
        assert (w.group, u) !in others;
      }
    } else {
      var k := Choose(others);
      assert k == (w.group, k.1);
      assert AdminIn(s, w.group, k.1);
    }
  }

  /** The committed rows other than one are as they were. */
  ghost predicate OneRow(s: State, t: State, g: int, u: int) {
    && (forall k :: k != (g, u) ==> (k in t.members <==> k in s.members))
    && (forall k :: k != (g, u) && k in t.members ==> t.members[k] == s.members[k])
  }

  /** A committed write meets the version it was given, leaves the role it was given, and nothing else. */
  lemma CommitLeaves(states: seq<State>, acts: seq<Action>, n: nat, c: int, g: int, u: int, change: Change,
      version: nat)
    requires Execution(states, acts) && n < |acts| && acts[n] == Commit(c)
    requires c in states[n].clients && states[n].clients[c].w == Write(g, u, change, version)
    ensures var s, t := states[n], states[n + 1];
            && OneRow(s, t, g, u) && t.groups == s.groups
            && (g, u) in s.members && s.members[(g, u)].version == version
            && (change == Delete ==> (g, u) !in t.members)
            && (change.SetRole? ==> (g, u) in t.members && t.members[(g, u)].role == change.role
                                    && t.members[(g, u)].version == version + 1)
  {
    ReachableInv(states, acts, n);
    assert Enabled(states[n], acts[n]) && states[n + 1] == Next(states[n], acts[n]);
    assert ClientOk(states[n], c);
  }

  /** A new group has its creator as its only member; joining adds one row; nothing but commits does more. */
  lemma MembersChange(states: seq<State>, acts: seq<Action>, n: nat)
    requires Execution(states, acts) && n < |acts| && !acts[n].Commit?
    ensures var s, t := states[n], states[n + 1];
            match acts[n]
            case CreateGroup(g, u) =>
              && g !in s.groups && t.groups == s.groups + {g} && OneRow(s, t, g, u)
              && (forall k :: k in t.members && k.0 == g <==> k == (g, u))
              && (g, u) in t.members && t.members[(g, u)] == Row(Admin, 0)
            case Join(g, u, row) =>
              && (g, u) !in s.members && t.groups == s.groups && OneRow(s, t, g, u)
              && (g, u) in t.members && t.members[(g, u)] == row
            case _ => t.members == s.members && t.groups == s.groups
  {
    ReachableInv(states, acts, n);
    assert Enabled(states[n], acts[n]) && states[n + 1] == Next(states[n], acts[n]);
  }

  /** The transaction a statement belongs to; creating a group and joining are their own. */
  function Mover(a: Action): (r: Option<int>) {
    match a
    case CreateGroup(_, _) => None
    case Join(_, _, _) => None
    case _ => Some(a.client)
  }

  lemma OthersStay(s: State, a: Action, c: int)
    requires Enabled(s, a) && c in s.clients && Mover(a) != Some(c)
    ensures c in Next(s, a).clients && Next(s, a).clients[c] == s.clients[c]
  {
  }

  /** No statement of client c in between. */
  ghost predicate Rests(acts: seq<Action>, j: nat, n: nat, c: int)
    requires n <= |acts|
  {
    forall k :: j <= k < n ==> Mover(acts[k]) != Some(c)
  }

  lemma {:induction false} ClientStays(states: seq<State>, acts: seq<Action>, j: nat, n: nat, c: int)
    requires Execution(states, acts) && j <= n <= |acts| && c in states[j].clients && Rests(acts, j, n, c)
    ensures c in states[n].clients && states[n].clients[c] == states[j].clients[c]
    decreases n
  {
    if j < n {
      ClientStays(states, acts, j, n - 1, c);
      assert Enabled(states[n - 1], acts[n - 1]) && states[n] == Next(states[n - 1], acts[n - 1]);
      OthersStay(states[n - 1], acts[n - 1], c);
    }
  }

  /**
   A whole write, exactly: it comes to its commit iff the membership is there when its role
   is read, its last-administrator check passes, and it is at the expected version when it
   is written; and then it is the write that was asked for.
   */
  lemma WrittenIff(states: seq<State>, acts: seq<Action>, h: nat, i: nat, j: nat, k: nat, n: nat, c: int, w: Write)
    requires Execution(states, acts) && h < i < j < k < n < |acts| && acts[h] == Begin(c, w) && acts[i] == Lock(c)
    requires acts[j] == ReadRole(c) && Rests(acts, h + 1, i, c) && Rests(acts, i + 1, j, c)
    ensures c in states[j + 1].clients <==> (w.group, w.user) in states[j].members
    ensures c in states[j + 1].clients && acts[k] == Check(c) && Rests(acts, j + 1, k, c) ==>
              (c !in states[k + 1].clients <==>
                 w.change != SetRole(Admin) && forall u :: AdminIn(states[k], w.group, u) <==> u == w.user)
    ensures c in states[j + 1].clients && acts[k] == Check(c) && Rests(acts, j + 1, k, c) && c in states[k + 1].clients
            && acts[n] == Apply(c) && Rests(acts, k + 1, n, c) ==>
              && (w.group, w.user) in states[n].members
              && (c in states[n + 1].clients <==> states[n].members[(w.group, w.user)].version == w.expected)
              && (c in states[n + 1].clients ==> states[n + 1].clients[c] == Written(w))
  {
    assert Enabled(states[h], acts[h]) && states[h + 1] == Next(states[h], acts[h]);
    ClientStays(states, acts, h + 1, i, c);
    assert Enabled(states[i], acts[i]) && states[i + 1] == Next(states[i], acts[i]);
    ClientStays(states, acts, i + 1, j, c);
    assert Enabled(states[j], acts[j]) && states[j + 1] == Next(states[j], acts[j]);
    if c in states[j + 1].clients && acts[k] == Check(c) && Rests(acts, j + 1, k, c) {
      ClientStays(states, acts, j + 1, k, c);
      RefusedIffLastAdmin(states, acts, k);
      assert Enabled(states[k], acts[k]) && states[k + 1] == Next(states[k], acts[k]);
      if c in states[k + 1].clients && acts[n] == Apply(c) && Rests(acts, k + 1, n, c) {
        ClientStays(states, acts, k + 1, n, c);
        ReachableInv(states, acts, n);
        assert ClientOk(states[n], c);
        assert Enabled(states[n], acts[n]) && states[n + 1] == Next(states[n], acts[n]);
      }
    }
  }

  ghost predicate CanGoOn(s: State, c: int) {
    exists a :: Mover(a) == Some(c) && !a.Abort? && Enabled(s, a)
  }

  lemma PastWaiting(s: State, c: int)
    requires c in s.clients && !s.clients[c].Waiting?
    ensures CanGoOn(s, c)
  {
    var a := match s.clients[c]
      case Locked(_) => ReadRole(c)
      case Read(_, _) => Check(c)
      case Checked(_) => Apply(c)
      case _ => Commit(c);
    assert Mover(a) == Some(c) && Enabled(s, a);
  }

  /** The lock of a group is held by a write of that group that is past waiting. */
  ghost predicate LocksOk(s: State) {
    forall g :: g in s.locks ==> s.locks[g] in s.clients && !s.clients[s.locks[g]].Waiting?
  }

  lemma {:induction false} ReachableLocks(states: seq<State>, acts: seq<Action>, n: nat)
    requires Execution(states, acts) && n <= |acts|
    ensures LocksOk(states[n])
  {
    if n > 0 {
      ReachableLocks(states, acts, n - 1);
      assert Enabled(states[n - 1], acts[n - 1]) && states[n] == Next(states[n - 1], acts[n - 1]);
    }
  }

  /** A write that gives up leaves nothing behind: no change, and no lock. */
  lemma GivesUp(s: State, c: int)
    requires c in s.clients
    ensures Enabled(s, Abort(c))
    ensures var t := Next(s, Abort(c));
            && c !in t.clients && t.members == s.members && t.groups == s.groups
            && forall g :: g in t.locks <==> g in s.locks && s.locks[g] != c
  {
  }

  /** No deadlock: an open write can go on, or waits for its group's lock, whose holder can. */
  lemma NoDeadlock(states: seq<State>, acts: seq<Action>, n: nat, c: int)
    requires Execution(states, acts) && n <= |acts| && c in states[n].clients
    ensures var s := states[n];
            CanGoOn(s, c) || (s.clients[c].w.group in s.locks && CanGoOn(s, s.locks[s.clients[c].w.group]))
  {
    var s := states[n];
    var g := s.clients[c].w.group;
    ReachableLocks(states, acts, n);
    if !s.clients[c].Waiting? {
      PastWaiting(s, c);
    } else if g in s.locks {
      PastWaiting(s, s.locks[g]);
    } else {
      assert Mover(Lock(c)) == Some(c) && Enabled(s, Lock(c));
    }
  }

  /** The statements of one write. */
  function Whole(w: Write): (r: seq<Action>) {
    [Begin(0, w), Lock(0)] + [ReadRole(0), Check(0)] + [Apply(0), Commit(0)]
  }

  /** A group's administrator can leave once another member has been made one: the run, for any group and users. */
  lemma HandOver(g: int, creator: int, other: int) returns (states: seq<State>, acts: seq<Action>)
    requires creator != other
    ensures Execution(states, acts)
    ensures acts == [CreateGroup(g, creator), Join(g, other, Row(Member, 0))]
                    + Whole(Write(g, other, SetRole(Admin), 0)) + Whole(Write(g, creator, Delete, 0))
    ensures states[|acts|] == State(map[(g, other) := Row(Admin, 1)], {g}, map[], map[])
  {
    var empty := State(map[], {}, map[], map[]);
    var s1 := State(map[(g, creator) := Row(Admin, 0)], {g}, map[], map[]);
    var s2 := State(map[(g, creator) := Row(Admin, 0), (g, other) := Row(Member, 0)], {g}, map[], map[]);
    var s3 := State(map[(g, creator) := Row(Admin, 0), (g, other) := Row(Admin, 1)], {g}, map[], map[]);
    var s4 := State(map[(g, other) := Row(Admin, 1)], {g}, map[], map[]);
    assert (g, other) in OtherAdmins(s3, g, creator);
    var p, a := WriteAlone(s2, Write(g, other, SetRole(Admin), 0), s3);
    var q, b := WriteAlone(s3, Write(g, creator, Delete, 0), s4);
    states := [empty, s1] + p + q[1..];
    acts := [CreateGroup(g, creator), Join(g, other, Row(Member, 0))] + a + b;
    assert Next(empty, acts[0]) == s1 && Next(s1, acts[1]) == s2;
    forall i {:trigger acts[i]} | 0 <= i < |acts|
      ensures Enabled(states[i], acts[i]) && states[i + 1] == Next(states[i], acts[i])
    {
      if i == 1 {
        assert states[2] == p[0];
      } else if 2 <= i < 8 {
        assert acts[i] == a[i - 2] && states[i] == p[i - 2] && states[i + 1] == p[i - 1];
      } else if i >= 8 {
        assert acts[i] == b[i - 8] && states[i] == q[i - 8] && states[i + 1] == q[i - 7];
      }
    }
  }

  ghost predicate Path(states: seq<State>, acts: seq<Action>) {
    && |states| == |acts| + 1
    && (forall i {:trigger acts[i]} :: 0 <= i < |acts| ==>
          Enabled(states[i], acts[i]) && states[i + 1] == Next(states[i], acts[i]))
  }

  /** s with client 0 at a phase of its write, holding the lock of its group. */
  function Holding(s: State, p: Phase): (r: State) {
    s.(clients := map[0 := p], locks := map[p.w.group := 0])
  }

  lemma Reaches(s: State, a: Action, t: State, b: Action, u: State)
    requires Enabled(s, a) && t == Next(s, a) && Enabled(t, b) && u == Next(t, b)
    ensures Path([s, t, u], [a, b])
  {
  }

  lemma Joined(p: seq<State>, a: seq<Action>, q: seq<State>, b: seq<Action>)
    requires Path(p, a) && Path(q, b) && p[|a|] == q[0]
    ensures Path(p + q[1..], a + b) && (p + q[1..])[0] == p[0] && (p + q[1..])[|a| + |b|] == q[|b|]
  {
    var r, c := p + q[1..], a + b;
    forall i {:trigger c[i]} | 0 <= i < |c|
      ensures Enabled(r[i], c[i]) && r[i + 1] == Next(r[i], c[i])
    {
      if i < |a| {
        assert Enabled(p[i], a[i]);
      } else {
        assert Enabled(q[i - |a|], b[i - |a|]);
        assert r[i] == q[i - |a|] && r[i + 1] == q[i - |a| + 1];
      }
    }
  }

  lemma ReadsAndChecks(s: State, w: Write)
    requires (w.group, w.user) in s.members
    requires Removes(s.members[(w.group, w.user)].role, w.change) ==> OtherAdmins(s, w.group, w.user) != {}
    ensures Path([Holding(s, Locked(w)), Holding(s, Read(w, s.members[(w.group, w.user)].role)),
                  Holding(s, Checked(w))],
                 [ReadRole(0), Check(0)])
  {
    var s2, s3 := Holding(s, Locked(w)), Holding(s, Read(w, s.members[(w.group, w.user)].role));
    assert OtherAdmins(s3, w.group, w.user) == OtherAdmins(s, w.group, w.user);
    Reaches(s2, ReadRole(0), s3, Check(0), Holding(s, Checked(w)));
  }

  lemma BeginsAndLocks(s: State, w: Write)
    requires s.clients == map[] && s.locks == map[]
    ensures Path([s, s.(clients := map[0 := Waiting(w)]), Holding(s, Locked(w))], [Begin(0, w), Lock(0)])
  {
    Reaches(s, Begin(0, w), s.(clients := map[0 := Waiting(w)]), Lock(0), Holding(s, Locked(w)));
  }

  lemma AppliesAndCommits(s: State, w: Write, t: State)
    requires s.clients == map[] && s.locks == map[] && t == s.(members := Committed(s.members, w))
    requires (w.group, w.user) in s.members && s.members[(w.group, w.user)].version == w.expected
    ensures Path([Holding(s, Checked(w)), Holding(s, Written(w)), t], [Apply(0), Commit(0)])
  {
    assert Next(Holding(s, Written(w)), Commit(0)) == t;
    Reaches(Holding(s, Checked(w)), Apply(0), Holding(s, Written(w)), Commit(0), t);
  }

  /** A write by itself whose check passes. */
  lemma WriteAlone(s: State, w: Write, t: State) returns (states: seq<State>, acts: seq<Action>)
    requires s.clients == map[] && s.locks == map[] && t == s.(members := Committed(s.members, w))
    requires (w.group, w.user) in s.members && s.members[(w.group, w.user)].version == w.expected
    requires Removes(s.members[(w.group, w.user)].role, w.change) ==> OtherAdmins(s, w.group, w.user) != {}
    ensures acts == Whole(w)
    ensures Path(states, acts) && states[0] == s && states[6] == t
  {
    BeginsAndLocks(s, w);
    ReadsAndChecks(s, w);
    AppliesAndCommits(s, w, t);
    var p := [s, s.(clients := map[0 := Waiting(w)]), Holding(s, Locked(w))];
    var q := [Holding(s, Locked(w)), Holding(s, Read(w, s.members[(w.group, w.user)].role)), Holding(s, Checked(w))];
    var r := [Holding(s, Checked(w)), Holding(s, Written(w)), t];
    Joined(p, [Begin(0, w), Lock(0)], q, [ReadRole(0), Check(0)]);
    Joined(p + q[1..], [Begin(0, w), Lock(0)] + [ReadRole(0), Check(0)], r, [Apply(0), Commit(0)]);
    states := p + q[1..] + r[1..];
    acts := Whole(w);
  }
}
