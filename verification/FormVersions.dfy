/**
 Which versions an administrator's form may name without endangering the last
 administrator: exactly those that are not ahead of the account's row.
 */
module FormVersions {
  import opened Wrappers
  import opened Accounts
  import opened AccountsTheorems
  import opened UncontendedRuns

  /** One administrator x and another account y, nobody connected. */
  ghost predicate OneAdministrator(s: State, x: int, y: int) {
    && Initial(s) && x != y && AdminAt(s, x) && y in s.rows && !s.rows[y].isAdmin && !s.rows[y].isGuest
    && (forall id :: AdminAt(s, id) ==> id == x)
  }

  function Demotion(email: string, v: nat): (edit: Edit) {
    AdminEdit(email, false, None, v)
  }

  /** The two actions of an administrator that may take the role away, with the version of a form. */
  predicate TakesRole(a: Action, y: int, email: string, v: nat) {
    || (a.Load? && a.id == y && a.edit == Demotion(email, v))
    || (a.LoadRemove? && a.id == y && a.formVersion == v)
  }

  function WriteOf(s: State, a: Action): (w: Write)
    requires (a.Load? && a.id in s.rows) || a.LoadRemove?
  {
    if a.Load? then Replace(a.edit, s.rows[a.id]) else Remove(a.formVersion)
  }

  lemma NobodyLeft(s: State, rows: map<int, User>, x: int, y: int)
    requires OneAdministrator(s, x, y) && x in rows && !rows[x].isAdmin && (y in rows ==> !rows[y].isAdmin)
    requires forall id :: id in rows && id != x && id != y ==> id in s.rows && rows[id] == s.rows[id]
    ensures forall id :: id in rows ==> !rows[id].Administrator()
  {
    forall id | id in rows
      ensures !rows[id].Administrator()
    {
      if id != x && id != y {
        assert AdminAt(s, id) ==> id == x;
      }
    }
  }

  /** The end of the run: the early write of y matches once y's row has reached its version. */
  lemma LateWrite(s: State, c: int, x: int, y: int, first: Action, email: string, v: nat, t: State)
    returns (states: seq<State>, acts: seq<Action>)
    requires OneAdministrator(s, x, y) && TakesRole(first, y, email, v)
    requires Quiet(t) && y in t.rows && t.rows[y].version == v && UniqueEmails(t.rows)
    requires x in t.rows && !t.rows[x].isAdmin && EmailFree(t.rows, y, Some(email))
    requires forall id :: id in t.rows && id != x && id != y ==> id in s.rows && t.rows[id] == s.rows[id]
    ensures GoodPath(states, acts) && AllUnique(states) && states[0] == With(t, c, y, Writing(WriteOf(s, first)))
    ensures !HasAdmin(states[|acts|])
  {
    var w := WriteOf(s, first);
    states, acts := WriteRun(t, c, y, w, false);
    var rows := states[2].rows;
    if first.Load? {
      NewEmailUnique(t.rows, y, rows[y]);
    }
    NobodyLeft(s, rows, x, y);
  }

  /** What follows the early action: y is promoted up to its version, x is demoted, and it goes through. */
  lemma TailRun(s: State, c: int, x: int, y: int, emailX: string, emailY: string, v: nat, first: Action)
    returns (states: seq<State>, acts: seq<Action>)
    requires OneAdministrator(s, x, y) && UniqueEmails(s.rows) && v > s.rows[y].version
    requires emailX != emailY && EmailFree(s.rows, x, Some(emailX)) && EmailFree(s.rows, y, Some(emailY))
    requires TakesRole(first, y, emailY, v)
    ensures GoodPath(states, acts) && AllUnique(states)
    ensures states[0] == With(s, c, y, Writing(WriteOf(s, first)))
    ensures !HasAdmin(states[|acts|])
  {
    var w := WriteOf(s, first);
    var p, a := BumpRun(With(s, c, y, Writing(w)), c + 1, y, Promote(emailY), v - s.rows[y].version);
    var s2 := p[|a|];
    var q, b := LockedRun(s2, c + 2, x, Demotion(emailX, s.rows[x].version), y);
    var s3 := q[|b|];
    NewEmailUnique(s.rows, y, s2.rows[y]);
    NewEmailUnique(s2.rows, x, s3.rows[x]);
    var t := s3.(clients := map[]);
    assert With(t, c, y, Writing(w)) == s3;
    var r, d := LateWrite(s, c, x, y, first, emailY, v, t);
    Join(p, a, q, b);
    Join(p + q[1..], a + b, r, d);
    states, acts := p + q[1..] + r[1..], a + b + d;
  }

  /** A version ahead of the row loses every administrator; no edit meets a taken email. */
  lemma EarlyVersionLosesEveryAdministrator(
    s: State, c: int, x: int, y: int, emailX: string, emailY: string, v: nat, first: Action)
    returns (states: seq<State>, acts: seq<Action>)
    requires OneAdministrator(s, x, y) && UniqueEmails(s.rows) && v > s.rows[y].version
    requires emailX != emailY && EmailFree(s.rows, x, Some(emailX)) && EmailFree(s.rows, y, Some(emailY))
    requires TakesRole(first, y, emailY, v) && first.client == c
    ensures RunFrom(s, first, states, acts) && AllUnique(states)
    ensures !HasAdmin(states[|acts|])
  {
    var w := WriteOf(s, first);
    var p, a, base, locked := ReachesWrite(s, c, y, w);
    var q, b := TailRun(s, c, x, y, emailX, emailY, v, first);
    Join(p, a, q, b);
    RunAfter(s, first, p + q[1..], a + b);
    states, acts := [s] + (p + q[1..]), [first] + (a + b);
    assert states[|acts|] == q[|b|];
  }

  lemma NotAheadKeepsAnAdministrator(s: State, first: Action, states: seq<State>, acts: seq<Action>)
    requires HasAdmin(s) && Disciplined(s, first) && RunFrom(s, first, states, acts)
    ensures HasAdmin(states[|acts|])
  {
    DisciplinedFrom(s, first, states, acts);
    AdministratorSurvives(states, acts, 0, |acts|);
  }

  ghost predicate KeepsAnAdministrator(s: State, first: Action) {
    forall states, acts :: RunFrom(s, first, states, acts) ==> HasAdmin(states[|acts|])
  }

  /**
   In a database with one administrator x and another account y, an edit that takes the
   role from y, or a deletion of y, can be the beginning of a run without administrators
   exactly when the version in its form is ahead of y's row. The guard is one the use
   case could check: it has just read that row.
   */
  lemma AdministratorKeptIff(
    s: State, c: int, x: int, y: int, emailX: string, emailY: string, v: nat, first: Action)
    requires OneAdministrator(s, x, y) && UniqueEmails(s.rows)
    requires emailX != emailY && EmailFree(s.rows, x, Some(emailX)) && EmailFree(s.rows, y, Some(emailY))
    requires TakesRole(first, y, emailY, v) && first.client == c
    ensures KeepsAnAdministrator(s, first) <==> v <= s.rows[y].version
  {
    if v <= s.rows[y].version {
      forall states, acts | RunFrom(s, first, states, acts)
        ensures HasAdmin(states[|acts|])
      {
        NotAheadKeepsAnAdministrator(s, first, states, acts);
      }
    } else {
      var states, acts := EarlyVersionLosesEveryAdministrator(s, c, x, y, emailX, emailY, v, first);
      assert RunFrom(s, first, states, acts);
    }
  }
}
