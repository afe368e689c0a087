/**
 Any number of concurrent Apply calls, one action per SQL statement. Each call has its
 own source, as when two releases start at once; a statement may fail at any time, and
 a commit may succeed without the caller hearing of it. The advisory lock is held until
 the transaction ends.
 */
module MigrationRuns {
  import opened Wrappers
  import opened Migrations

  /** `i` migrations were looked at; `ran` says that the script of the next one has run. */
  datatype Phase = Began | Locked | Running(i: nat, ran: bool) | Finished(ok: bool)

  /** What a transaction has read, run and recorded so far. */
  datatype Call = Call(
    source: seq<Migration>, phase: Phase, installed: Ledger, scripts: seq<Migration>, recorded: Ledger)

  /** The committed ledger, the committed scripts in order, the lock and the calls. */
  datatype State = State(ledger: Ledger, log: seq<Migration>, lock: Option<int>, calls: map<int, Call>)

  datatype Action =
    | Begin(call: int, source: seq<Migration>)
    | Lock(call: int)
    | ReadLedger(call: int)
    | Skip(call: int)
    | RunScript(call: int)
    | Record(call: int)
    | Commit(call: int, heard: bool)
    | Fail(call: int)

  /** The loop is at a migration it has not looked at yet. */
  predicate LooksAtOne(c: Call) {
    c.phase.Running? && !c.phase.ran && c.phase.i < |c.source|
  }

  predicate Enabled(s: State, a: Action) {
    if a.Begin? then a.call !in s.calls && Ascending(a.source)
    else
      && a.call in s.calls
      && var c := s.calls[a.call];
         match a
         case Begin(_, _) => false
         case Lock(_) => c.phase.Began? && s.lock.None?
         case ReadLedger(_) => c.phase.Locked?
         case Skip(_) => LooksAtOne(c) && c.source[c.phase.i].version in c.installed
         case RunScript(_) => LooksAtOne(c) && c.source[c.phase.i].version !in c.installed
         case Record(_) => c.phase.Running? && c.phase.ran && c.phase.i < |c.source|
         case Commit(_, _) => c.phase.Running? && !c.phase.ran && c.phase.i == |c.source|
         case Fail(_) => !c.phase.Finished?
  }

  function End(s: State, id: int, ok: bool): (r: State)
    requires id in s.calls
  {
    State(s.ledger, s.log, if s.lock == Some(id) then None else s.lock,
          s.calls[id := s.calls[id].(phase := Finished(ok))])
  }

  function Next(s: State, a: Action): (r: State)
    requires Enabled(s, a)
  {
    if a.Begin? then s.(calls := s.calls[a.call := Call(a.source, Began, map[], [], map[])])
    else
      var c := s.calls[a.call];
      match a
      case Begin(_, _) => s
      case Lock(_) => s.(lock := Some(a.call), calls := s.calls[a.call := c.(phase := Locked)])
      case ReadLedger(_) =>
        if NoDrift(c.source, s.ledger)
        then s.(calls := s.calls[a.call := c.(phase := Running(0, false), installed := s.ledger)])
        else End(s, a.call, false)
      case Skip(_) => s.(calls := s.calls[a.call := c.(phase := Running(c.phase.i + 1, false))])
      case RunScript(_) =>
        s.(calls := s.calls[a.call := c.(phase := Running(c.phase.i, true),
                                         scripts := c.scripts + [c.source[c.phase.i]])])
      case Record(_) =>
        var m := c.source[c.phase.i];
        s.(calls := s.calls[a.call := c.(phase := Running(c.phase.i + 1, false),
                                         recorded := c.recorded[m.version := m.description])])
      case Commit(_, heard) => End(s.(ledger := s.ledger + c.recorded, log := s.log + c.scripts), a.call, heard)
      case Fail(_) => End(s, a.call, false)
  }

  predicate Distinct(log: seq<Migration>) {
    forall i, j :: 0 <= i < j < |log| ==> log[i].version != log[j].version
  }

  /** The ledger lists exactly the scripts that ran. */
  ghost predicate Consistent(ledger: Ledger, log: seq<Migration>) {
    && Distinct(log)
    && (forall i :: 0 <= i < |log| ==> log[i].version in ledger && ledger[log[i].version] == log[i].description)
    && (forall v :: v in ledger ==> exists i :: 0 <= i < |log| && log[i].version == v)
  }

  predicate StepAt(states: seq<State>, acts: seq<Action>, i: nat)
    requires |states| == |acts| + 1 && i < |acts|
  {
    Enabled(states[i], acts[i]) && states[i + 1] == Next(states[i], acts[i])
  }

  /** From any database whose ledger is right, before any call. */
  ghost predicate Execution(states: seq<State>, acts: seq<Action>) {
    && |states| == |acts| + 1
    && Consistent(states[0].ledger, states[0].log) && states[0].lock == None && states[0].calls == map[]
    && forall i :: 0 <= i < |acts| ==> StepAt(states, acts, i)
  }

  predicate HasLock(phase: Phase) {
    phase.Locked? || phase.Running?
  }

  /** A running call has the lock, the committed ledger, and has done its first i migrations. */
  ghost predicate CallOk(s: State, id: int)
    requires id in s.calls
  {
    var c := s.calls[id];
    && Ascending(c.source)
    && (HasLock(c.phase) ==> s.lock == Some(id))
    && (!c.phase.Running? && !c.phase.Finished? ==> c.recorded == map[] && c.scripts == [])
    && (c.phase.Running? ==>
          var i := c.phase.i;
          && i <= |c.source| && c.installed == s.ledger && NoDrift(c.source, s.ledger)
          && s.ledger + c.recorded == RecordedOf(c.source, i, s.ledger)
          && (if c.phase.ran
              then i < |c.source| && c.source[i].version !in s.ledger
                  && c.scripts == MissingOf(c.source, i, s.ledger) + [c.source[i]]
              else c.scripts == MissingOf(c.source, i, s.ledger)))
  }

  ghost predicate Inv(s: State) {
    && Consistent(s.ledger, s.log)
    && (s.lock.Some? ==> s.lock.value in s.calls && HasLock(s.calls[s.lock.value].phase))
    && forall id :: id in s.calls ==> CallOk(s, id)
  }

  /** What a commit leaves behind: the whole source, from the missing scripts alone. */
  lemma CommitInstallsTheSource(s: State, id: int, heard: bool)
    requires Inv(s) && Enabled(s, Commit(id, heard))
    ensures var source, t := s.calls[id].source, Next(s, Commit(id, heard));
            && NoDrift(source, s.ledger)
            && t.ledger == SourceLedger(source)
            && t.log == s.log + Missing(source, s.ledger) && Ascending(Missing(source, s.ledger))
            && (forall m :: m in Missing(source, s.ledger) <==> m in source && m.version !in s.ledger)
  {
    var source := s.calls[id].source;
    assert CallOk(s, id);
    RecordingCompletes(source, s.ledger);
    MissingIsAscending(source, |source|, s.ledger);
    forall m
      ensures m in Missing(source, s.ledger) <==> m in source && m.version !in s.ledger
    {
      MissingIsExact(source, |source|, s.ledger, m);
      assert source[..|source|] == source;
    }
  }

  lemma AppendingKeepsConsistency(ledger: Ledger, log: seq<Migration>, source: seq<Migration>)
    requires Consistent(ledger, log) && Ascending(source) && NoDrift(source, ledger)
    ensures Consistent(SourceLedger(source), log + Missing(source, ledger))
  {
    var missing := Missing(source, ledger);
    var longer := log + missing;
    MissingIsAscending(source, |source|, ledger);
    forall i | 0 <= i < |missing|
      ensures missing[i].version !in ledger
      ensures missing[i].version in SourceLedger(source)
              && SourceLedger(source)[missing[i].version] == missing[i].description
    {
      MissingIsExact(source, |source|, ledger, missing[i]);
      assert missing[i] in missing && source[..|source|] == source;
      LedgerHasSource(source, |source|, missing[i]);
    }
    forall v | v in SourceLedger(source)
      ensures exists i :: 0 <= i < |longer| && longer[i].version == v
    {
      if v in ledger {
        var i :| 0 <= i < |log| && log[i].version == v;
        assert longer[i].version == v;
      } else {
        var m := LedgerFromSource(source, |source|, v);
        MissingIsExact(source, |source|, ledger, m);
        assert source[..|source|] == source;
        var i :| 0 <= i < |missing| && missing[i] == m;
        assert longer[|log| + i].version == v;
      }
    }
  }

  lemma {:induction false} LedgerHasSource(source: seq<Migration>, n: nat, m: Migration)
    requires Ascending(source) && n <= |source| && m in source[..n]
    ensures m.version in LedgerOf(source, n) && LedgerOf(source, n)[m.version] == m.description
  {
    assert source[..n] == source[..n - 1] + [source[n - 1]];
    if m in source[..n - 1] {
      LedgerHasSource(source, n - 1, m);
      var j :| 0 <= j < n - 1 && source[j] == m;
      assert source[j].version < source[n - 1].version;
    }
  }

  lemma {:induction false} LedgerFromSource(source: seq<Migration>, n: nat, v: int) returns (m: Migration)
    requires n <= |source| && v in LedgerOf(source, n)
    ensures m in source && m.version == v
  {
    if source[n - 1].version == v {
      m := source[n - 1];
    } else {
      m := LedgerFromSource(source, n - 1, v);
    }
  }

  lemma CallKeeps(s: State, a: Action)
    requires Inv(s) && Enabled(s, a) && !a.Commit?
    ensures CallOk(Next(s, a), a.call)
  {
    if !a.Begin? {
      assert CallOk(s, a.call);
      var c := s.calls[a.call];
      if a.ReadLedger? && NoDrift(c.source, s.ledger) {
        assert s.ledger + c.recorded == s.ledger;
      }
      if a.Record? {
        var m := c.source[c.phase.i];
        assert s.ledger + c.recorded[m.version := m.description] == (s.ledger + c.recorded)[m.version := m.description];
      }
    }
  }

  /** Only the lock's owner commits, so nobody else's reading goes stale. */
  lemma OthersKeep(s: State, a: Action, id: int)
    requires Inv(s) && Enabled(s, a) && id in s.calls && id != a.call
    ensures CallOk(Next(s, a), id)
  {
    assert CallOk(s, id);
    if !a.Begin? {
      assert CallOk(s, a.call);
    }
  }

  lemma CommitKeeps(s: State, id: int, heard: bool)
    requires Inv(s) && Enabled(s, Commit(id, heard))
    ensures Consistent(Next(s, Commit(id, heard)).ledger, Next(s, Commit(id, heard)).log)
    ensures CallOk(Next(s, Commit(id, heard)), id)
  {
    assert CallOk(s, id);
    CommitInstallsTheSource(s, id, heard);
    AppendingKeepsConsistency(s.ledger, s.log, s.calls[id].source);
  }

  lemma LockKept(s: State, a: Action)
    requires Inv(s) && Enabled(s, a)
    ensures var t := Next(s, a); t.lock.Some? ==> t.lock.value in t.calls && HasLock(t.calls[t.lock.value].phase)
  {
    if !a.Begin? {
      assert CallOk(s, a.call);
    }
  }

  lemma StepKeeps(s: State, a: Action)
    requires Inv(s) && Enabled(s, a)
    ensures Inv(Next(s, a))
  {
    var t := Next(s, a);
    LockKept(s, a);
    assert Consistent(t.ledger, t.log) && CallOk(t, a.call) by {
      if a.Commit? {
        CommitKeeps(s, a.call, a.heard);
      } else {
        CallKeeps(s, a);
      }
    }
    forall id | id in t.calls
      ensures CallOk(t, id)
    {
      if id != a.call {
        OthersKeep(s, a, id);
      }
    }
  }

  lemma {:induction false} ReachableInv(states: seq<State>, acts: seq<Action>, n: nat)
    requires Execution(states, acts) && n < |states|
    ensures Inv(states[n])
  {
    if n > 0 {
      ReachableInv(states, acts, n - 1);
      assert StepAt(states, acts, n - 1);
      StepKeeps(states[n - 1], acts[n - 1]);
    }
  }

  /** However calls overlap and fail, no migration is ever committed twice. */
  lemma EachMigrationCommittedOnce(states: seq<State>, acts: seq<Action>, n: nat)
    requires Execution(states, acts) && n < |states|
    ensures Distinct(states[n].log) && Consistent(states[n].ledger, states[n].log)
  {
    ReachableInv(states, acts, n);
  }

  /** A statement that is not a commit changes neither the ledger nor the schema. */
  lemma OnlyCommitsChange(states: seq<State>, acts: seq<Action>, n: nat)
    requires Execution(states, acts) && n < |acts| && !acts[n].Commit?
    ensures states[n + 1].ledger == states[n].ledger && states[n + 1].log == states[n].log
  {
    assert StepAt(states, acts, n);
  }

  ghost predicate Within(small: Ledger, large: Ledger) {
    forall v :: v in small ==> v in large && large[v] == small[v]
  }

  /** Nothing that was committed is ever undone, renamed or reordered. */
  lemma {:induction false} HistoryGrows(states: seq<State>, acts: seq<Action>, n: nat, m: nat)
    requires Execution(states, acts) && n <= m < |states|
    ensures Within(states[n].ledger, states[m].ledger) && states[n].log <= states[m].log
    decreases m - n
  {
    if n < m {
      HistoryGrows(states, acts, n, m - 1);
      assert StepAt(states, acts, m - 1);
      ReachableInv(states, acts, m - 1);
      var s, a := states[m - 1], acts[m - 1];
      if a.Commit? {
        CommitInstallsTheSource(s, a.call, a.heard);
      } else {
        OnlyCommitsChange(states, acts, m - 1);
      }
    }
  }

  /** A call that was told of success: its whole source was committed by itself, and stays. */
  lemma {:induction false} SuccessMeansInstalled(states: seq<State>, acts: seq<Action>, n: nat, id: int)
    returns (k: nat)
    requires Execution(states, acts) && n < |states|
    requires id in states[n].calls && states[n].calls[id].phase == Finished(true)
    ensures k < n && acts[k] == Commit(id, true)
    ensures states[k + 1].ledger == SourceLedger(states[n].calls[id].source)
    ensures Within(SourceLedger(states[n].calls[id].source), states[n].ledger)
  {
    assert n > 0;
    assert StepAt(states, acts, n - 1);
    var s, a := states[n - 1], acts[n - 1];
    if a.call == id {
      assert a == Commit(id, true);
      k := n - 1;
      ReachableInv(states, acts, k);
      CommitInstallsTheSource(s, id, true);
    } else {
      k := SuccessMeansInstalled(states, acts, n - 1, id);
    }
    HistoryGrows(states, acts, k + 1, n);
  }

  /**
   A ledger entry that a source lacks or names differently stops every call with that
   source from then on, including one already under way: none commits.
   */
  lemma DriftStopsTheCall(states: seq<State>, acts: seq<Action>, n: nat, m: nat, id: int, heard: bool)
    requires Execution(states, acts) && n <= m < |acts| && id in states[m].calls
    requires !NoDrift(states[m].calls[id].source, states[n].ledger)
    ensures acts[m] != Commit(id, heard)
  {
    HistoryGrows(states, acts, n, m);
    ReachableInv(states, acts, m);
    assert StepAt(states, acts, m);
    if acts[m] == Commit(id, heard) {
      CommitInstallsTheSource(states[m], id, heard);
      var source := states[m].calls[id].source;
      assert NoDrift(source, states[m].ledger);
      forall v | v in states[n].ledger
        ensures v in SourceLedger(source) && SourceLedger(source)[v] == states[n].ledger[v]
      {
        assert v in states[m].ledger;
      }
      assert false;
    }
  }

  lemma LedgerIsSource(source: seq<Migration>, ledger: Ledger)
    requires NoDrift(source, ledger) && Within(SourceLedger(source), ledger)
    ensures ledger == SourceLedger(source) && Missing(source, ledger) == []
  {
    assert forall v :: v in SourceLedger(source).Keys ==> v in ledger.Keys;
    assert forall v :: v in ledger.Keys ==> v in SourceLedger(source).Keys;
    assert SourceLedger(source).Keys == ledger.Keys;
    forall v | v in ledger
      ensures SourceLedger(source)[v] == ledger[v]
    {
    }
    InstalledIsNotMissing(source, |source|, ledger);
  }

  /** Once a source is installed, a commit of the same source runs no script. */
  lemma RepeatRunsNothing(states: seq<State>, acts: seq<Action>, n: nat, m: nat, id: int, heard: bool)
    requires Execution(states, acts) && n <= m < |acts| && acts[m] == Commit(id, heard) && id in states[m].calls
    requires Within(SourceLedger(states[m].calls[id].source), states[n].ledger)
    ensures states[m + 1].log == states[m].log && states[m + 1].ledger == states[m].ledger
  {
    HistoryGrows(states, acts, n, m);
    ReachableInv(states, acts, m);
    assert StepAt(states, acts, m);
    CommitInstallsTheSource(states[m], id, heard);
    LedgerIsSource(states[m].calls[id].source, states[m].ledger);
  }

  /** What a call does next when nothing fails. */
  function Proceed(s: State, id: int): (r: Action)
    requires id in s.calls
  {
    var c := s.calls[id];
    match c.phase
    case Began => Lock(id)
    case Locked => ReadLedger(id)
    case Running(i, ran) =>
      if ran then Record(id)
      else if i >= |c.source| then Commit(id, true)
      else if c.source[i].version in c.installed then Skip(id)
      else RunScript(id)
    case Finished(_) => Fail(id)
  }

  /** The calls never block each other for good: an unfinished call can go on, or the lock's owner can. */
  lemma NoDeadlock(states: seq<State>, acts: seq<Action>, n: nat, id: int) returns (mover: int)
    requires Execution(states, acts) && n < |states|
    requires id in states[n].calls && !states[n].calls[id].phase.Finished?
    ensures mover in states[n].calls && !states[n].calls[mover].phase.Finished?
    ensures Enabled(states[n], Proceed(states[n], mover))
    ensures mover == id || (states[n].calls[id].phase.Began? && states[n].lock == Some(mover))
  {
    ReachableInv(states, acts, n);
    var s := states[n];
    mover := if s.calls[id].phase.Began? && s.lock.Some? then s.lock.value else id;
    assert CallOk(s, mover);
  }

  lemma Append(states: seq<State>, acts: seq<Action>, a: Action)
    requires Execution(states, acts) && Enabled(states[|acts|], a)
    ensures Execution(states + [Next(states[|acts|], a)], acts + [a])
  {
    var longer, more := states + [Next(states[|acts|], a)], acts + [a];
    forall i | 0 <= i < |more|
      ensures StepAt(longer, more, i)
    {
      if i < |acts| {
        assert StepAt(states, acts, i);
      }
    }
  }

  /** The rest of a call without failures, from any point of its loop. */
  lemma {:induction false} LoopRuns(states: seq<State>, acts: seq<Action>, id: int)
    returns (longer: seq<State>, more: seq<Action>)
    requires Execution(states, acts) && id in states[|acts|].calls
    requires var c := states[|acts|].calls[id]; c.phase.Running? && !c.phase.ran && c.phase.i <= |c.source|
    ensures Execution(longer, more) && acts < more && states < longer
    ensures longer[|more|].calls.Keys == states[|acts|].calls.Keys
    ensures forall i :: |acts| <= i < |more| ==> more[i].call == id && !more[i].Fail?
    ensures more[|more| - 1] == Commit(id, true)
    ensures longer[|more|].calls[id].phase == Finished(true)
    ensures longer[|more|].calls[id].source == states[|acts|].calls[id].source
    decreases |states[|acts|].calls[id].source| - states[|acts|].calls[id].phase.i
  {
    var c := states[|acts|].calls[id];
    var a := Proceed(states[|acts|], id);
    Append(states, acts, a);
    longer, more := states + [Next(states[|acts|], a)], acts + [a];
    if a.RunScript? {
      var b := Record(id);
      Append(longer, more, b);
      longer, more := longer + [Next(longer[|more|], b)], more + [b];
    }
    if !a.Commit? {
      longer, more := LoopRuns(longer, more, id);
    }
  }

  lemma Starts(states: seq<State>, acts: seq<Action>, id: int, source: seq<Migration>)
    returns (longer: seq<State>, more: seq<Action>)
    requires Execution(states, acts) && id !in states[|acts|].calls && Ascending(source)
    requires states[|acts|].lock == None
    ensures Execution(longer, more) && states < longer && more == acts + [Begin(id, source)] + [Lock(id)]
    ensures longer[|more|].ledger == states[|acts|].ledger && id in longer[|more|].calls
    ensures longer[|more|].calls[id] == Call(source, Locked, map[], [], map[])
  {
    Append(states, acts, Begin(id, source));
    var s1, a1 := states + [Next(states[|acts|], Begin(id, source))], acts + [Begin(id, source)];
    Append(s1, a1, Lock(id));
    longer, more := s1 + [Next(s1[|a1|], Lock(id))], a1 + [Lock(id)];
  }

  /**
   A call on its own: while the lock is free and no statement fails, it reports success
   and the source is installed, exactly when the ledger has not drifted from its source.
   */
  lemma CallAlone(states: seq<State>, acts: seq<Action>, id: int, source: seq<Migration>)
    returns (longer: seq<State>, more: seq<Action>)
    requires Execution(states, acts) && id !in states[|acts|].calls && Ascending(source)
    requires states[|acts|].lock == None
    ensures Execution(longer, more) && acts < more && states < longer && id in longer[|more|].calls
    ensures forall i :: |acts| <= i < |more| ==> more[i].call == id && !more[i].Fail?
    ensures longer[|more|].calls[id].phase == Finished(NoDrift(source, states[|acts|].ledger))
    ensures NoDrift(source, states[|acts|].ledger) ==> longer[|more|].ledger == SourceLedger(source)
    ensures !NoDrift(source, states[|acts|].ledger) ==> longer[|more|].ledger == states[|acts|].ledger
  {
    var begun, first := Starts(states, acts, id, source);
    Append(begun, first, ReadLedger(id));
    longer, more := begun + [Next(begun[|first|], ReadLedger(id))], first + [ReadLedger(id)];
    if NoDrift(source, states[|acts|].ledger) {
      longer, more := LoopRuns(longer, more, id);
      var n: nat := |more| - 1;
      assert StepAt(longer, more, n);
      ReachableInv(longer, more, n);
      CommitInstallsTheSource(longer[n], id, true);
    }
  }

  /** An unfinished call may fail at any time; it changes nothing and gives the lock back. */
  lemma GivesUp(s: State, id: int)
    requires id in s.calls && !s.calls[id].phase.Finished?
    ensures Enabled(s, Fail(id))
    ensures var t := Next(s, Fail(id));
            && t.ledger == s.ledger && t.log == s.log && t.lock != Some(id)
            && t.calls.Keys == s.calls.Keys && t.calls[id].phase == Finished(false)
            && forall other :: other in s.calls && other != id ==> t.calls[other] == s.calls[other]
  {
  }

  /** On an empty database one call installs its whole source. */
  lemma FromNothing(id: int, source: seq<Migration>) returns (states: seq<State>, acts: seq<Action>)
    requires Ascending(source)
    ensures Execution(states, acts) && states[0] == State(map[], [], None, map[])
    ensures states[|acts|].ledger == SourceLedger(source)
    ensures id in states[|acts|].calls && states[|acts|].calls[id].phase == Finished(true)
  {
    var empty := State(map[], [], None, map[]);
    assert Execution([empty], []);
    states, acts := CallAlone([empty], [], id, source);
  }
}
