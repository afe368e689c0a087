/** Unlinking identities never strands an account. */
module SignInMethods {
  import opened Wrappers
  import opened Sets
  import opened Accounts
  import opened AccountsInvariant
  import opened AccountsTheorems
  import opened AccountsLostUpdates

  /** The account has a password or a linked identity. */
  ghost predicate HasMethod(s: State, id: int) {
    id in s.rows && (s.rows[id].passwordHash.Some? || exists i :: i in Owned(s, id))
  }

  /** Only unlinking takes identities from an account that stays, and only under
      that account's row lock, so a count of two or more leaves one behind. */
  lemma UnlinkCommitKeepsMethod(s: State, c: int, i: int)
    requires Inv(s) && Enabled(s, Commit(c, i)) && s.clients[c].phase.UnlinkDeleted?
    requires HasMethod(s, s.clients[c].target)
    ensures HasMethod(Next(s, Commit(c, i)), s.clients[c].target)
  {
    var id := s.clients[c].target;
    var t := Next(s, Commit(c, i));
    var p := s.clients[c].phase;
    assert ClientOk(s, c);
    if !p.hasPassword {
      if p.identities <= 1 {
        assert Owned(t, id) == Owned(s, id);
      } else {
        var rest := Owned(s, id) - {p.identity};
        assert |rest| == |Owned(s, id)| - 1;
        var x := Choose(rest);
        assert x in Owned(t, id);
      }
    }
  }

  lemma StepKeepsMethod(s: State, a: Action, id: int)
    requires Inv(s) && Enabled(s, a)
    requires HasMethod(s, id) && id in Next(s, a).rows
    ensures HasMethod(Next(s, a), id)
  {
    var t := Next(s, a);
    if a.Commit? && s.clients[a.client].phase.UnlinkDeleted? && s.clients[a.client].target == id {
      UnlinkCommitKeepsMethod(s, a.client, a.newIdentity);
    } else {
      PasswordKept(s, a, id);
      OwnedKept(s, a, id);
      if exists i :: i in Owned(s, id) {
        var x :| x in Owned(s, id);
        assert x in Owned(t, id);
      }
    }
  }

  /** No use case clears a password: a copy without one is current only if the row has none. */
  lemma PasswordKept(s: State, a: Action, id: int)
    requires Inv(s) && Enabled(s, a) && id in s.rows && id in Next(s, a).rows
    ensures s.rows[id].passwordHash.Some? ==> Next(s, a).rows[id].passwordHash.Some?
  {
    if a.Commit? {
      assert ClientOk(s, a.client);
    } else {
      OnlyCommitsChangeRows(s, a);
    }
  }

  lemma OwnedKept(s: State, a: Action, id: int)
    requires Inv(s) && Enabled(s, a) && id in s.rows && id in Next(s, a).rows
    requires !(a.Commit? && s.clients[a.client].phase.UnlinkDeleted? && s.clients[a.client].target == id)
    ensures Owned(s, id) <= Owned(Next(s, a), id)
  {
    var t := Next(s, a);
    if a.Commit? {
      assert ClientOk(s, a.client);
    }
  }

  lemma RunStepKeepsMethod(states: seq<State>, acts: seq<Action>, n: nat, id: int)
    requires DisciplinedExecution(states, acts) && n < |acts| && Inv(states[n])
    requires HasMethod(states[n], id) && id in states[n + 1].rows
    ensures HasMethod(states[n + 1], id)
  {
    assert Transition(states[n], acts[n], states[n + 1]);
    StepKeepsMethod(states[n], acts[n], id);
  }

  /**
   In every interleaving of unlinks, links, password writes and other account
   updates, an account that can sign in can sign in for as long as it exists.
   */
  lemma {:induction false} AccountKeepsSignInMethod(states: seq<State>, acts: seq<Action>, n: nat, m: nat, id: int)
    requires DisciplinedExecution(states, acts) && n <= m <= |acts|
    requires HasMethod(states[n], id) && id in states[m].rows
    ensures HasMethod(states[m], id)
    decreases m
  {
    if n < m {
      PresentBetween(states, acts, n, m - 1, m, id);
      AccountKeepsSignInMethod(states, acts, n, m - 1, id);
      ReachableInv(states, acts, m - 1);
      RunStepKeepsMethod(states, acts, m - 1, id);
    }
  }
}
