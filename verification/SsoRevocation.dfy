/**
 Ending an account's single sign-on sessions: the subject an account is known by at the
 issuer, and one RevokeUser call against an issuer and a table whose calls may fail, or
 take effect and lose their answer.
 */
module SsoRevocation {
  import opened Wrappers
  import opened Text

  const MAX_INT64 := 0x7FFF_FFFF_FFFF_FFFF

  /** strconv.FormatInt in base 10. */
  function FormatInt(n: int): (r: string) {
    if n < 0 then "-" + Decimal(-n) else Decimal(n)
  }

  /** strconv.ParseInt in base 10 with 64 bits: an optional sign and digits. */
  function ParseInt(text: string): (r: Option<int>) {
    var digits := if text != "" && (text[0] == '+' || text[0] == '-') then text[1..] else text;
    if digits == "" || !AllDigits(digits) then None
    else
      var size: int := Value(digits);
      if text[0] == '-' then (if size <= MAX_INT64 + 1 then Some(-size) else None)
      else if size <= MAX_INT64 then Some(size) else None
  }

  /** parseSSOSubject. */
  function ParseSubject(subject: string): (r: Option<int>) {
    match ParseInt(subject)
    case Some(user) => if user <= 0 || FormatInt(user) != subject then None else Some(user)
    case None => None
  }

  /** A subject names an account iff it is the decimal form of a positive 64-bit number. */
  lemma SubjectIff(subject: string, user: int)
    ensures ParseSubject(subject) == Some(user) <==> 0 < user <= MAX_INT64 && subject == FormatInt(user)
  {
    if 0 < user <= MAX_INT64 && subject == FormatInt(user) {
      DecimalReadsBack(user);
      assert IsDigit(subject[0]) by {
        assert subject[0] in subject;
      }
    }
  }

  /** strconv reads back what it printed, for the numbers of 64 bits. */
  lemma ParseIntReadsBack(n: int)
    ensures ParseInt(FormatInt(n))
         == if -9_223_372_036_854_775_808 <= n <= 9_223_372_036_854_775_807 then Some(n) else None
  {
    var size: nat := if n < 0 then -n else n;
    DecimalReadsBack(size);
    assert IsDigit(Decimal(size)[0]) by {
      assert Decimal(size)[0] in Decimal(size);
    }
    assert n < 0 ==> ("-" + Decimal(size))[1..] == Decimal(size);
  }

  /** What became of a call: Lost took effect but reported an error. */
  datatype Outcome = Done | Lost | Failed

  datatype Record = Record(sid: string, user: int)

  function SidsOf(records: seq<Record>, user: int): (r: seq<string>) {
    if records == [] then []
    else (if records[0].user == user then [records[0].sid] else []) + SidsOf(records[1..], user)
  }

  function Without(records: seq<Record>, sid: string): (r: seq<Record>) {
    if records == [] then []
    else (if records[0].sid == sid then [] else [records[0]]) + Without(records[1..], sid)
  }

  ghost predicate UniqueSids(records: seq<Record>) {
    forall i, j :: 0 <= i < j < |records| ==> records[i].sid != records[j].sid
  }

  lemma {:induction false} SidsOfAreRecorded(records: seq<Record>, user: int, sid: string)
    ensures sid in SidsOf(records, user) <==> Record(sid, user) in records
  {
    if records != [] {
      SidsOfAreRecorded(records[1..], user, sid);
      assert records == [records[0]] + records[1..];
    }
  }

  lemma {:induction false} SidsOfAreUnique(records: seq<Record>, user: int)
    requires UniqueSids(records)
    ensures forall i, j :: 0 <= i < j < |SidsOf(records, user)| ==> SidsOf(records, user)[i] != SidsOf(records, user)[j]
  {
    if records != [] {
      SidsOfAreUnique(records[1..], user);
      if records[0].user == user {
        forall i | 0 <= i < |SidsOf(records[1..], user)|
          ensures SidsOf(records[1..], user)[i] != records[0].sid
        {
          SidsOfAreRecorded(records[1..], user, SidsOf(records[1..], user)[i]);
        }
      }
    }
  }

  lemma {:induction false} WithoutRemoves(records: seq<Record>, sid: string)
    requires UniqueSids(records)
    ensures UniqueSids(Without(records, sid))
    ensures forall r :: r in Without(records, sid) <==> r in records && r.sid != sid
  {
    if records != [] {
      WithoutRemoves(records[1..], sid);
      assert records == [records[0]] + records[1..];
      var rest := Without(records[1..], sid);
      forall i | 0 <= i < |rest|
        ensures rest[i].sid != records[0].sid
      {
        assert rest[i] in rest;
      }
    }
  }

  /** Call numbers: 0 lists, then a revocation and a deletion per session, then the consents. */
  function RevokeCall(k: nat): (r: nat) { 1 + 2 * k }

  function DeleteCall(k: nat): (r: nat) { 2 + 2 * k }

  function ConsentCall(n: nat): (r: nat) { 1 + 2 * n }

  /** Every request of a call on n sessions has a number of its own. */
  lemma NumbersAreDistinct(n: nat, j: nat, k: nat)
    requires j < n && k < n
    ensures 0 < RevokeCall(j) < ConsentCall(n) && 0 < DeleteCall(j) < ConsentCall(n) && RevokeCall(j) != DeleteCall(k)
    ensures j < k ==> RevokeCall(j) < DeleteCall(j) < RevokeCall(k)
  {
  }

  /** The k-th listed session is forgotten: its revocation reported success and its record was deleted. */
  predicate Forgets(outcomes: nat -> Outcome, k: nat) {
    outcomes(RevokeCall(k)).Done? && !outcomes(DeleteCall(k)).Failed?
  }

  predicate Succeeds(outcomes: nat -> Outcome, k: nat) {
    outcomes(RevokeCall(k)).Done? && outcomes(DeleteCall(k)).Done?
  }

  /** Among the first n listed sessions this one is forgotten, or its revocation took effect. */
  ghost predicate Forgotten(outcomes: nat -> Outcome, sids: seq<string>, n: nat, sid: string)
    requires n <= |sids|
  {
    exists k :: 0 <= k < n && sids[k] == sid && Forgets(outcomes, k)
  }

  ghost predicate Ended(outcomes: nat -> Outcome, sids: seq<string>, n: nat, sid: string)
    requires n <= |sids|
  {
    exists k :: 0 <= k < n && sids[k] == sid && !outcomes(RevokeCall(k)).Failed?
  }

  lemma OneMoreForgotten(outcomes: nat -> Outcome, sids: seq<string>, n: nat, sid: string)
    requires n < |sids|
    ensures Forgotten(outcomes, sids, n + 1, sid) <==>
      Forgotten(outcomes, sids, n, sid) || (sids[n] == sid && Forgets(outcomes, n))
  {
    if Forgotten(outcomes, sids, n, sid) {
      var k :| 0 <= k < n && sids[k] == sid && Forgets(outcomes, k);
      assert k < n + 1;
    }
    if sids[n] == sid && Forgets(outcomes, n) {
      assert n < n + 1;
    }
  }

  lemma OneMoreEnded(outcomes: nat -> Outcome, sids: seq<string>, n: nat, sid: string)
    requires n < |sids|
    ensures Ended(outcomes, sids, n + 1, sid) <==>
      Ended(outcomes, sids, n, sid) || (sids[n] == sid && !outcomes(RevokeCall(n)).Failed?)
  {
    if Ended(outcomes, sids, n, sid) {
      var k :| 0 <= k < n && sids[k] == sid && !outcomes(RevokeCall(k)).Failed?;
      assert k < n + 1;
    }
    if sids[n] == sid && !outcomes(RevokeCall(n)).Failed? {
      assert n < n + 1;
    }
  }

  lemma OneMoreSession(outcomes: nat -> Outcome, sids: seq<string>, n: nat)
    requires n < |sids|
    ensures forall sid :: Forgotten(outcomes, sids, n + 1, sid) <==>
      Forgotten(outcomes, sids, n, sid) || (sids[n] == sid && Forgets(outcomes, n))
    ensures forall sid :: Ended(outcomes, sids, n + 1, sid) <==>
      Ended(outcomes, sids, n, sid) || (sids[n] == sid && !outcomes(RevokeCall(n)).Failed?)
  {
    forall sid
      ensures Forgotten(outcomes, sids, n + 1, sid) <==>
        Forgotten(outcomes, sids, n, sid) || (sids[n] == sid && Forgets(outcomes, n))
    {
      OneMoreForgotten(outcomes, sids, n, sid);
    }
    forall sid
      ensures Ended(outcomes, sids, n + 1, sid) <==>
        Ended(outcomes, sids, n, sid) || (sids[n] == sid && !outcomes(RevokeCall(n)).Failed?)
    {
      OneMoreEnded(outcomes, sids, n, sid);
    }
  }

  class SsoProvider {
    /** The recorded sessions, and what the issuer has ended. */
    var records: seq<Record>
    var revoked: set<string>
    var withdrawn: set<string>

    constructor ()
      ensures records == [] && revoked == {} && withdrawn == {}
    {
      records, revoked, withdrawn := [], {}, {};
    }

    /**
     RevokeUser. It returns nil iff every call reported success; it forgets exactly the
     listed sessions whose revocation reported success and whose deletion took effect.
     */
    method RevokeUser(user: int, outcomes: nat -> Outcome) returns (ok: bool)
      requires UniqueSids(records)
      modifies this
      ensures UniqueSids(records)
      ensures var sids := SidsOf(old(records), user);
              ok <==> user > 0 && outcomes(0).Done? && (forall k :: 0 <= k < |sids| ==> Succeeds(outcomes, k))
                      && outcomes(ConsentCall(|sids|)).Done?
      ensures var sids := SidsOf(old(records), user);
              var listed := user > 0 && outcomes(0).Done?;
              && (forall r :: r in records <==>
                  r in old(records) && !(listed && Forgotten(outcomes, sids, |sids|, r.sid)))
              && (forall sid :: sid in revoked <==>
                  sid in old(revoked) || (listed && Ended(outcomes, sids, |sids|, sid)))
              && withdrawn == old(withdrawn)
                              + if listed && !outcomes(ConsentCall(|sids|)).Failed? then {FormatInt(user)} else {}
    {
      if user <= 0 || !outcomes(0).Done? {
        return false;
      }
      var sids, failures := SidsOf(records, user), 0;
      SidsOfAreUnique(records, user);
      for n := 0 to |sids|
        invariant withdrawn == old(withdrawn)
        invariant UniqueSids(records)
        invariant failures >= 0 && (failures == 0 <==> forall k :: 0 <= k < n ==> Succeeds(outcomes, k))
        invariant forall r :: r in records <==> r in old(records) && !Forgotten(outcomes, sids, n, r.sid)
        invariant forall sid :: sid in revoked <==> sid in old(revoked) || Ended(outcomes, sids, n, sid)
      {
        var sid := sids[n];
        OneMoreSession(outcomes, sids, n);
        if !outcomes(RevokeCall(n)).Failed? {
          revoked := revoked + {sid};
        }
        assert Succeeds(outcomes, n) <==> outcomes(RevokeCall(n)).Done? && outcomes(DeleteCall(n)).Done?;
        if !outcomes(RevokeCall(n)).Done? {
          failures := failures + 1;
          continue;
        }
        WithoutRemoves(records, sid);
        if !outcomes(DeleteCall(n)).Failed? {
          records := Without(records, sid);
        }
        if !outcomes(DeleteCall(n)).Done? {
          failures := failures + 1;
        }
      }
      if !outcomes(ConsentCall(|sids|)).Failed? {
        withdrawn := withdrawn + {FormatInt(user)};
      }
      if !outcomes(ConsentCall(|sids|)).Done? {
        failures := failures + 1;
      }
      return failures == 0;
    }
  }
}
