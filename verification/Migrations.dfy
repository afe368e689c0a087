/**
 The migration runner: reading the source directory, reading and checking the ledger,
 and one call of Apply inside its transaction.
 */
module Migrations {
  import opened Wrappers
  import opened Text
  import Sets

  datatype Migration = Migration(version: int, description: string, sql: string)

  datatype Entry = Entry(name: string, isDirectory: bool, content: string)

  datatype Error = InvalidName | DuplicateVersion | Drift

  /** schema_migrations: the description of every installed version. */
  type Ledger = map<int, string>

  const SUFFIX := ".up.sql"

  predicate HasSuffix(name: string) {
    |name| >= |SUFFIX| && name[|name| - |SUFFIX|..] == SUFFIX
  }

  predicate FirstCharacter(c: char) {
    'a' <= c <= 'z' || '0' <= c <= '9'
  }

  /** The file name pattern: six digits, an underscore, a description, the suffix. */
  predicate Named(name: string) {
    && |name| >= 7 + 1 + |SUFFIX| && AllDigits(name[..6]) && name[6] == '_' && HasSuffix(name)
    && FirstCharacter(name[7])
    && forall i :: 7 < i < |name| - |SUFFIX| ==> FirstCharacter(name[i]) || name[i] == '_' || name[i] == '-'
  }

  /** Unicode white space, as trimmed by strings.TrimSpace. */
  predicate IsSpace(c: char) {
    || '\t' <= c <= '\r' || c == ' ' || c == '\U{85}' || c == '\U{A0}' || c == '\U{1680}'
        || '\U{2000}' <= c <= '\U{200A}'
    || c == '\U{2028}' || c == '\U{2029}' || c == '\U{202F}' || c == '\U{205F}' || c == '\U{3000}'
  }

  predicate Blank(text: string) {
    forall c :: c in text ==> IsSpace(c)
  }

  predicate Relevant(e: Entry) {
    !e.isDirectory && HasSuffix(e.name)
  }

  predicate Acceptable(e: Entry) {
    Named(e.name) && Value(e.name[..6]) >= 1 && !Blank(e.content)
  }

  function Parsed(e: Entry): (r: Migration)
    requires Named(e.name)
  {
    Migration(Value(e.name[..6]), e.name[7..|e.name| - |SUFFIX|], e.content)
  }

  predicate Ascending(ms: seq<Migration>) {
    forall i, j :: 0 <= i < j < |ms| ==> ms[i].version < ms[j].version
  }

  /** What becomes of a directory entry. */
  datatype Outcome = Skipped | Refused | Accepted(migration: Migration)

  function OutcomeOf(e: Entry): (r: Outcome) {
    if !Relevant(e) then Skipped else if !Acceptable(e) then Refused else Accepted(Parsed(e))
  }

  function Outcomes(entries: seq<Entry>): (r: seq<Outcome>) {
    seq(|entries|, i requires 0 <= i < |entries| => OutcomeOf(entries[i]))
  }

  /** No migration file is refused and no two share a version. */
  ghost predicate Loadable(outcomes: seq<Outcome>) {
    && (forall i :: 0 <= i < |outcomes| ==> !outcomes[i].Refused?)
    && (forall i, j :: 0 <= i < j < |outcomes| && outcomes[i].Accepted? && outcomes[j].Accepted? ==>
          outcomes[i].migration.version != outcomes[j].migration.version)
  }

  /** A sorted list of exactly the accepted migrations. */
  ghost predicate Holds(migrations: seq<Migration>, outcomes: seq<Outcome>) {
    Ascending(migrations) && forall m :: m in migrations <==> Accepted(m) in outcomes
  }

  function Insert(m: Migration, ms: seq<Migration>): (r: seq<Migration>) {
    if ms == [] || m.version < ms[0].version then [m] + ms else [ms[0]] + Insert(m, ms[1..])
  }

  lemma {:induction false} InsertKeepsOrder(m: Migration, ms: seq<Migration>)
    requires Ascending(ms) && forall i :: 0 <= i < |ms| ==> ms[i].version != m.version
    ensures Ascending(Insert(m, ms))
    ensures forall x :: x in Insert(m, ms) <==> x == m || x in ms
  {
    if ms != [] && ms[0].version < m.version {
      InsertKeepsOrder(m, ms[1..]);
      var rest := Insert(m, ms[1..]);
      assert ms == [ms[0]] + ms[1..];
      forall i | 0 <= i < |rest|
        ensures ms[0].version < rest[i].version
      {
        assert rest[i] in rest;
        if rest[i] != m {
          var j :| 0 <= j < |ms[1..]| && ms[1..][j] == rest[i];
        }
      }
    }
  }

  ghost function Versions(ms: seq<Migration>): (r: set<int>) {
    set m | m in ms :: m.version
  }

  lemma Extend(migrations: seq<Migration>, outcomes: seq<Outcome>, added: Migration)
    requires Loadable(outcomes) && Holds(migrations, outcomes) && added.version !in Versions(migrations)
    ensures Loadable(outcomes + [Accepted(added)])
    ensures Holds(Insert(added, migrations), outcomes + [Accepted(added)])
    ensures Versions(Insert(added, migrations)) == Versions(migrations) + {added.version}
  {
    assert forall i :: 0 <= i < |migrations| ==> migrations[i] in migrations;
    InsertKeepsOrder(added, migrations);
    assert forall i :: 0 <= i < |outcomes| && outcomes[i].Accepted? ==> outcomes[i].migration in migrations;
    assert added in Insert(added, migrations);
    var longer := outcomes + [Accepted(added)];
    assert forall m :: Accepted(m) in longer <==> Accepted(m) in outcomes || m == added;
  }

  lemma SeenTwice(migrations: seq<Migration>, outcomes: seq<Outcome>, n: nat)
    requires n < |outcomes| && Holds(migrations, outcomes[..n])
    requires outcomes[n].Accepted? ==> outcomes[n].migration.version in Versions(migrations)
    requires !outcomes[n].Skipped?
    ensures !Loadable(outcomes)
  {
    if outcomes[n].Accepted? {
      var m :| m in migrations && m.version == outcomes[n].migration.version;
      assert Accepted(m) in outcomes[..n];
      var i :| 0 <= i < n && outcomes[..n][i] == Accepted(m);
      assert outcomes[i] == Accepted(m);
    }
  }

  /** Reads the directory: a sorted list of exactly the migration files, or an error. */
  method LoadMigrations(entries: seq<Entry>) returns (r: Result<seq<Migration>, Error>)
    ensures r.Ok? <==> Loadable(Outcomes(entries))
    ensures r.Ok? ==> Holds(r.value, Outcomes(entries))
    ensures r == Err(InvalidName) ==> Refused in Outcomes(entries)
    ensures r == Err(DuplicateVersion) ==> exists i, j :: 0 <= i < j < |entries| && SameVersion(entries[i], entries[j])
    ensures r != Err(Drift)
  {
    ghost var outcomes := Outcomes(entries);
    var migrations: seq<Migration>, seen: set<int> := [], {};
    for n := 0 to |entries|
      invariant Loadable(outcomes[..n]) && Holds(migrations, outcomes[..n])
      invariant seen == Versions(migrations)
    {
      var e := entries[n];
      assert outcomes[n] == OutcomeOf(e);
      assert outcomes[..n + 1] == outcomes[..n] + [outcomes[n]];
      if e.isDirectory || !HasSuffix(e.name) {
        SkipOne(migrations, outcomes[..n]);
        continue;
      }
      if !Named(e.name) || Value(e.name[..6]) < 1 {
        return Err(InvalidName);
      }
      if Value(e.name[..6]) in seen {
        SeenTwice(migrations, outcomes, n);
        SeenBefore(entries, migrations, n);
        return Err(DuplicateVersion);
      }
      seen := seen + {Value(e.name[..6])};
      if Blank(e.content) {
        return Err(InvalidName);
      }
      Extend(migrations, outcomes[..n], Parsed(e));
      migrations := Insert(Parsed(e), migrations);
    }
    assert outcomes[..|entries|] == outcomes;
    return Ok(migrations);
  }

  /** Two migration files of one version. */
  predicate SameVersion(a: Entry, b: Entry) {
    && Relevant(a) && Relevant(b) && Named(a.name) && Named(b.name)
    && Value(a.name[..6]) == Value(b.name[..6])
  }

  lemma SeenBefore(entries: seq<Entry>, migrations: seq<Migration>, n: nat)
    requires n < |entries| && Holds(migrations, Outcomes(entries)[..n])
    requires Relevant(entries[n]) && Named(entries[n].name)
    requires Value(entries[n].name[..6]) in Versions(migrations)
    ensures exists i :: 0 <= i < n && SameVersion(entries[i], entries[n])
  {
    var m :| m in migrations && m.version == Value(entries[n].name[..6]);
    assert Accepted(m) in Outcomes(entries)[..n];
    var i :| 0 <= i < n && Outcomes(entries)[..n][i] == Accepted(m);
    assert OutcomeOf(entries[i]) == Accepted(m);
    assert SameVersion(entries[i], entries[n]);
  }

  lemma SkipOne(migrations: seq<Migration>, outcomes: seq<Outcome>)
    requires Loadable(outcomes) && Holds(migrations, outcomes)
    ensures Loadable(outcomes + [Skipped]) && Holds(migrations, outcomes + [Skipped])
  {
    var longer := outcomes + [Skipped];
    assert forall m :: Accepted(m) in longer <==> Accepted(m) in outcomes;
  }

  datatype LedgerRow = LedgerRow(version: int, description: string)

  /** scanInstalled: a version listed twice is drift. */
  method ScanInstalled(rows: seq<LedgerRow>) returns (r: Result<Ledger, Error>)
    ensures r.Ok? <==> forall i, j :: 0 <= i < j < |rows| ==> rows[i].version != rows[j].version
    ensures r.Err? ==> r.error == Drift
    ensures r.Ok? ==> (forall i :: 0 <= i < |rows| ==>
                       rows[i].version in r.value && r.value[rows[i].version] == rows[i].description)
    ensures r.Ok? ==> forall v :: v in r.value ==> exists i :: 0 <= i < |rows| && rows[i].version == v
  {
    var installed: Ledger := map[];
    for n := 0 to |rows|
      invariant forall i, j :: 0 <= i < j < n ==> rows[i].version != rows[j].version
      invariant forall i :: 0 <= i < n ==>
                rows[i].version in installed && installed[rows[i].version] == rows[i].description
      invariant forall v :: v in installed ==> exists i :: 0 <= i < n && rows[i].version == v
    {
      if rows[n].version in installed {
        return Err(Drift);
      }
      installed := installed[rows[n].version := rows[n].description];
    }
    return Ok(installed);
  }

  /** The ledger of a database on which the first n migrations are installed. */
  function LedgerOf(source: seq<Migration>, n: nat): (r: Ledger)
    requires n <= |source|
  {
    if n == 0 then map[] else LedgerOf(source, n - 1)[source[n - 1].version := source[n - 1].description]
  }

  function SourceLedger(source: seq<Migration>): (r: Ledger) {
    LedgerOf(source, |source|)
  }

  /** Everything installed is in the source under the same name. */
  predicate NoDrift(source: seq<Migration>, installed: Ledger) {
    forall v :: v in installed ==> v in SourceLedger(source) && SourceLedger(source)[v] == installed[v]
  }

  method ValidateInstalled(migrations: seq<Migration>, installed: Ledger) returns (ok: bool)
    ensures ok == NoDrift(migrations, installed)
  {
    var source: Ledger := map[];
    for n := 0 to |migrations|
      invariant source == LedgerOf(migrations, n)
    {
      source := source[migrations[n].version := migrations[n].description];
    }
    var rest := installed.Keys;
    while rest != {}
      invariant rest <= installed.Keys
      invariant forall v :: v in installed.Keys - rest ==> v in source && source[v] == installed[v]
    {
      ghost var some := Sets.Choose(rest);
      var v :| v in rest;
      if v !in source || source[v] != installed[v] {
        return false;
      }
      rest := rest - {v};
    }
    return true;
  }

  /** Those of the first n migrations that a ledger does not have yet, in order. */
  function MissingOf(source: seq<Migration>, n: nat, installed: Ledger): (r: seq<Migration>)
    requires n <= |source|
  {
    if n == 0 then []
    else MissingOf(source, n - 1, installed) + if source[n - 1].version in installed then [] else [source[n - 1]]
  }

  function Missing(source: seq<Migration>, installed: Ledger): (r: seq<Migration>) {
    MissingOf(source, |source|, installed)
  }

  /** A ledger after the first n migrations were looked at. */
  function RecordedOf(source: seq<Migration>, n: nat, installed: Ledger): (r: Ledger)
    requires n <= |source|
  {
    if n == 0 then installed
    else if source[n - 1].version in installed then RecordedOf(source, n - 1, installed)
    else RecordedOf(source, n - 1, installed)[source[n - 1].version := source[n - 1].description]
  }

  lemma {:induction false} MissingIsAscending(source: seq<Migration>, n: nat, installed: Ledger)
    requires Ascending(source) && n <= |source|
    ensures Ascending(MissingOf(source, n, installed))
    ensures forall i :: 0 <= i < |MissingOf(source, n, installed)| ==>
      n > 0 && MissingOf(source, n, installed)[i].version <= source[n - 1].version
  {
    if n > 0 {
      MissingIsAscending(source, n - 1, installed);
      if n > 1 {
        assert source[n - 2].version < source[n - 1].version;
      }
    }
  }

  /** Nothing installed runs again, and nothing else is left out. */
  lemma {:induction false} MissingIsExact(source: seq<Migration>, n: nat, installed: Ledger, m: Migration)
    requires n <= |source|
    ensures m in MissingOf(source, n, installed) <==> m in source[..n] && m.version !in installed
  {
    if n > 0 {
      MissingIsExact(source, n - 1, installed, m);
      assert source[..n] == source[..n - 1] + [source[n - 1]];
    }
  }

  lemma {:induction false} RecordedAdds(source: seq<Migration>, n: nat, installed: Ledger)
    requires n <= |source|
    ensures RecordedOf(source, n, installed).Keys == installed.Keys + LedgerOf(source, n).Keys
    ensures forall v :: v in RecordedOf(source, n, installed) ==>
      RecordedOf(source, n, installed)[v] == if v in installed then installed[v] else LedgerOf(source, n)[v]
  {
    if n > 0 {
      RecordedAdds(source, n - 1, installed);
    }
  }

  /** Recording the missing migrations turns a ledger without drift into the source's. */
  lemma RecordingCompletes(source: seq<Migration>, installed: Ledger)
    requires NoDrift(source, installed)
    ensures RecordedOf(source, |source|, installed) == SourceLedger(source)
  {
    RecordedAdds(source, |source|, installed);
    assert forall v :: v in installed.Keys ==> v in SourceLedger(source).Keys;
    var result := RecordedOf(source, |source|, installed);
    assert result.Keys == SourceLedger(source).Keys;
    forall v | v in result
      ensures result[v] == SourceLedger(source)[v]
    {
      assert v in installed ==> SourceLedger(source)[v] == installed[v];
    }
  }

  lemma {:induction false} InstalledIsNotMissing(source: seq<Migration>, n: nat, installed: Ledger)
    requires n <= |source|
    requires forall v :: v in LedgerOf(source, n) ==> v in installed
    ensures MissingOf(source, n, installed) == []
  {
    if n > 0 {
      assert forall v :: v in LedgerOf(source, n - 1) ==> v in LedgerOf(source, n);
      InstalledIsNotMissing(source, n - 1, installed);
      assert source[n - 1].version in LedgerOf(source, n);
    }
  }

  /** A repeated call finds nothing to do. */
  lemma NothingMissing(source: seq<Migration>)
    ensures NoDrift(source, SourceLedger(source)) && Missing(source, SourceLedger(source)) == []
  {
    InstalledIsNotMissing(source, |source|, SourceLedger(source));
  }

  /** One database as Apply sees it: the ledger and the migration scripts that ran. */
  class Database {
    var ledger: Ledger
    var log: seq<Migration>

    constructor ()
      ensures ledger == map[] && log == []
    {
      ledger, log := map[], [];
    }

    /**
     One call of Apply; `fails` says which of its statements fail. It installs exactly
     what is missing, or changes nothing: on drift, or when a statement fails.
     */
    method Apply(source: seq<Migration>, fails: nat -> bool) returns (ok: bool)
      modifies this
      ensures ok ==> ledger == SourceLedger(source) && log == old(log) + Missing(source, old(ledger))
      ensures !ok ==> ledger == old(ledger) && log == old(log)
      ensures ok ==> NoDrift(source, old(ledger))
      ensures NoDrift(source, old(ledger)) && (forall n :: !fails(n)) ==> ok
    {
      var statement := 3;
      if fails(0) || fails(1) || fails(2) {
        return false;
      }
      var installed := ledger;
      var valid := ValidateInstalled(source, installed);
      if !valid {
        return false;
      }
      var recorded, ran := ledger, log;
      for n := 0 to |source|
        invariant ran == log + MissingOf(source, n, installed)
        invariant recorded == RecordedOf(source, n, installed)
      {
        var m := source[n];
        if m.version in installed {
          continue;
        }
        if fails(statement) {
          return false;
        }
        ran := ran + [m];
        if fails(statement + 1) {
          return false;
        }
        recorded := recorded[m.version := m.description];
        statement := statement + 2;
      }
      if fails(statement) {
        return false;
      }
      RecordingCompletes(source, installed);
      ledger, log := recorded, ran;
      return true;
    }
  }
}
