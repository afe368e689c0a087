/**
 The relying party's cache of the issuer's signing keys. A miss downloads the key set,
 at most once per pause; the mutex makes the calls one after another. Times are in
 nanoseconds; the response of a download and the reading of an RSA key are parameters.
 */
module OidcKeys {
  import opened Wrappers

  const PAUSE := 30_000_000_000

  datatype Jwk = Jwk(keyType: string, keyId: string, use: string, algorithm: string, modulus: string, exponent: string)

  /** A public key, as far as its identity matters. */
  datatype PublicKey = PublicKey(modulus: nat, exponent: nat)

  datatype Error = UnknownKey | Unavailable

  /** rsaKey: None when the modulus or the exponent cannot be used. */
  type RsaReader = (string, string) -> Option<PublicKey>

  predicate ForSigning(jwk: Jwk) {
    && jwk.keyType == "RSA" && (jwk.use == "" || jwk.use == "sig") && (jwk.algorithm == "" || jwk.algorithm == "RS256")
  }

  function KeyOf(read: RsaReader, jwk: Jwk): (r: Option<PublicKey>) {
    if ForSigning(jwk) then read(jwk.modulus, jwk.exponent) else None
  }

  /** Position i holds the last usable key with this kid among the first n. */
  ghost predicate IsLast(read: RsaReader, jwks: seq<Jwk>, n: nat, keyId: string, i: int)
    requires n <= |jwks|
  {
    && 0 <= i < n && KeyOf(read, jwks[i]).Some? && jwks[i].keyId == keyId
    && forall j :: i < j < n && KeyOf(read, jwks[j]).Some? ==> jwks[j].keyId != keyId
  }

  /** Position i holds the only usable key among the first n. */
  ghost predicate IsOnly(read: RsaReader, jwks: seq<Jwk>, n: nat, i: int)
    requires n <= |jwks|
  {
    && 0 <= i < n && KeyOf(read, jwks[i]).Some?
    && forall j :: 0 <= j < n && KeyOf(read, jwks[j]).Some? ==> j == i
  }

  /** The key a token's kid names: the last one with that kid, or without a kid the only one. */
  ghost predicate Names(read: RsaReader, jwks: seq<Jwk>, n: nat, keyId: string, key: PublicKey)
    requires n <= |jwks|
  {
    exists i ::
      && (if keyId == "" then IsOnly(read, jwks, n, i) else IsLast(read, jwks, n, keyId, i))
      && KeyOf(read, jwks[i]) == Some(key)
  }

  lemma NamesAtMostOne(read: RsaReader, jwks: seq<Jwk>, keyId: string, a: PublicKey, b: PublicKey)
    requires Names(read, jwks, |jwks|, keyId, a) && Names(read, jwks, |jwks|, keyId, b)
    ensures a == b
  {
  }

  /** A key of a set that signs tokens: RSA, meant for signatures if it says, for RS256 if it says, and readable. */
  ghost predicate Signs(read: RsaReader, jwk: Jwk, key: PublicKey) {
    && jwk.keyType == "RSA" && jwk.use in {"", "sig"} && jwk.algorithm in {"", "RS256"}
    && read(jwk.modulus, jwk.exponent) == Some(key)
  }

  /** Which key a token's kid names, from the entries alone. */
  lemma NamesIff(read: RsaReader, jwks: seq<Jwk>, keyId: string, key: PublicKey)
    ensures Names(read, jwks, |jwks|, keyId, key) <==>
              exists i :: 0 <= i < |jwks| && Signs(read, jwks[i], key) && (keyId != "" ==> jwks[i].keyId == keyId)
                && forall j, other :: 0 <= j < |jwks| && Signs(read, jwks[j], other) ==>
                     if keyId == "" then j == i else jwks[j].keyId == keyId ==> j <= i
  {
    forall i, k | 0 <= i < |jwks|
      ensures Signs(read, jwks[i], k) <==> KeyOf(read, jwks[i]) == Some(k)
    {
    }
    if Names(read, jwks, |jwks|, keyId, key) {
      var i :| && (if keyId == "" then IsOnly(read, jwks, |jwks|, i) else IsLast(read, jwks, |jwks|, keyId, i))
               && KeyOf(read, jwks[i]) == Some(key);
      assert Signs(read, jwks[i], key);
    }
    forall i | 0 <= i < |jwks| && Signs(read, jwks[i], key) && (keyId != "" ==> jwks[i].keyId == keyId)
               && forall j, other :: 0 <= j < |jwks| && Signs(read, jwks[j], other) ==>
                    if keyId == "" then j == i else jwks[j].keyId == keyId ==> j <= i
      ensures Names(read, jwks, |jwks|, keyId, key)
    {
      forall j | 0 <= j < |jwks| && KeyOf(read, jwks[j]).Some?
        ensures if keyId == "" then j == i else jwks[j].keyId == keyId ==> j <= i
      {
        assert Signs(read, jwks[j], KeyOf(read, jwks[j]).value);
      }
      assert if keyId == "" then IsOnly(read, jwks, |jwks|, i) else IsLast(read, jwks, |jwks|, keyId, i);
    }
  }

  /** Requests for key sets, in order, are at least a pause apart. */
  ghost predicate Spaced(times: seq<int>) {
    forall i, j :: 0 <= i < j < |times| ==> times[j] - times[i] >= (j - i) * PAUSE
  }

  lemma SpacedStep(times: seq<int>, now: int)
    requires Spaced(times) && (times != [] ==> now - times[|times| - 1] >= PAUSE)
    ensures Spaced(times + [now])
  {
    var longer := times + [now];
    forall i, j | 0 <= i < j < |longer|
      ensures longer[j] - longer[i] >= (j - i) * PAUSE
    {
      if j == |times| && i < j - 1 {
        assert times[j - 1] - times[i] >= (j - 1 - i) * PAUSE;
      }
    }
  }

  /** How many of the times lie in an interval. */
  function CountIn(times: seq<int>, from: int, to: int): (r: nat) {
    if times == [] then 0
    else CountIn(times[..|times| - 1], from, to) + if from <= times[|times| - 1] <= to then 1 else 0
  }

  lemma {:induction false} NoneIn(times: seq<int>, from: int, to: int)
    requires forall i :: 0 <= i < |times| ==> !(from <= times[i] <= to)
    ensures CountIn(times, from, to) == 0
  {
    if times != [] {
      NoneIn(times[..|times| - 1], from, to);
    }
  }

  lemma {:induction false} CountBounded(times: seq<int>, from: int, to: int)
    requires Spaced(times) && times != [] && from <= times[|times| - 1] <= to
    ensures times[|times| - 1] - from >= (CountIn(times, from, to) - 1) * PAUSE
  {
    var front := times[..|times| - 1];
    if front == [] || front[|front| - 1] < from {
      forall i | 0 <= i < |front|
        ensures front[i] < from
      {
        if i < |front| - 1 {
          assert times[|front| - 1] - times[i] >= (|front| - 1 - i) * PAUSE;
        }
      }
      NoneIn(front, from, to);
    } else {
      assert times[|times| - 1] - times[|times| - 2] >= PAUSE;
      CountBounded(front, from, to);
    }
  }

  /** Any interval holds at most one request per started pause, and one more. */
  lemma {:induction false} RequestsAreFew(times: seq<int>, from: int, to: int)
    requires Spaced(times) && from <= to
    ensures (CountIn(times, from, to) - 1) * PAUSE <= to - from
    ensures CountIn(times, from, to) <= (to - from) / PAUSE + 1
  {
    if times != [] {
      if from <= times[|times| - 1] <= to {
        CountBounded(times, from, to);
      } else {
        RequestsAreFew(times[..|times| - 1], from, to);
      }
    }
  }

  class KeyCache {
    const read: RsaReader
    var keys: map<string, PublicKey>
    var onlyKey: Option<PublicKey>
    var keysRefreshedAt: Option<int>

    /** When key sets were asked for, and the last one that could be decoded. */
    ghost var requests: seq<int>
    ghost var recent: Option<seq<Jwk>>

    ghost predicate Valid()
      reads this
    {
      && Spaced(requests)
      && keysRefreshedAt == (if requests == [] then None else Some(requests[|requests| - 1]))
      && (recent.None? ==> keys == map[] && onlyKey == None)
      && (recent.Some? ==>
            Reflects(read, recent.value, |recent.value|, keys) && ReflectsOnly(read, recent.value, onlyKey))
    }

    constructor (read: RsaReader)
      ensures Valid() && requests == [] && recent == None && this.read == read
    {
      this.read := read;
      keys, onlyKey, keysRefreshedAt := map[], None, None;
      requests, recent := [], None;
    }

    function Lookup(keyId: string): (r: Option<PublicKey>)
      reads this
    {
      if keyId == "" then onlyKey else if keyId in keys then Some(keys[keyId]) else None
    }

    /** The cache answers what the last decoded set says: a key iff the set names one. */
    lemma LookupIsExact(keyId: string)
      requires Valid()
      ensures Lookup(keyId).Some? ==> recent.Some? && forall key ::
                Names(read, recent.value, |recent.value|, keyId, key) <==> key == Lookup(keyId).value
      ensures Lookup(keyId).None? && recent.Some? ==> forall key ::
              !Names(read, recent.value, |recent.value|, keyId, key)
    {
      if Lookup(keyId).Some? {
        var jwks, found := recent.value, Lookup(keyId).value;
        forall key | Names(read, jwks, |jwks|, keyId, key)
          ensures key == found
        {
          NamesAtMostOne(read, jwks, keyId, key, found);
        }
      }
    }

    /**
     key: answers from the cache, or asks for the key set when the pause is over.
     `before` and `now` are the two clock readings, `response` the decoded key set.
     */
    method Key(keyId: string, before: int, now: int, response: Option<seq<Jwk>>) returns (r: Result<PublicKey, Error>)
      requires Valid() && before <= now
      modifies this
      ensures Valid()
      ensures r.Ok? ==> recent.Some? && forall key ::
                Names(read, recent.value, |recent.value|, keyId, key) <==> key == r.value
      ensures r == Err(UnknownKey) && recent.Some? ==> forall key ::
              !Names(read, recent.value, |recent.value|, keyId, key)
      ensures old(Lookup(keyId)).Some? ==> r == Ok(old(Lookup(keyId)).value)
      ensures var paused := old(requests) != [] && before - old(requests)[|old(requests)| - 1] < PAUSE;
              var asked := old(Lookup(keyId)).None? && !paused;
              && requests == old(requests) + (if asked then [now] else [])
              && recent == (if asked && response.Some? then response else old(recent))
              && (r == Err(Unavailable) <==> asked && response.None?)
    {
      LookupIsExact(keyId);
      var cached := Lookup(keyId);
      if cached.Some? {
        return Ok(cached.value);
      }
      if keysRefreshedAt.Some? && before - keysRefreshedAt.value < PAUSE {
        return Err(UnknownKey);
      }
      SpacedStep(requests, now);
      keysRefreshedAt, requests := Some(now), requests + [now];
      if response.None? {
        return Err(Unavailable);
      }
      var decoded, only := ReadKeys(read, response.value);
      keys, onlyKey := decoded, only;
      recent := response;
      LookupIsExact(keyId);
      var found := Lookup(keyId);
      r := if found.Some? then Ok(found.value) else Err(UnknownKey);
    }
  }

  /** The map holds, for every kid, the last usable key among the first n. */
  ghost predicate Reflects(read: RsaReader, jwks: seq<Jwk>, n: nat, keys: map<string, PublicKey>)
    requires n <= |jwks|
  {
    && (forall id :: id in keys ==> id != "" && Names(read, jwks, n, id, keys[id]))
    && (forall i :: 0 <= i < n && KeyOf(read, jwks[i]).Some? && jwks[i].keyId != "" ==> jwks[i].keyId in keys)
  }

  ghost predicate ReflectsOnly(read: RsaReader, jwks: seq<Jwk>, only: Option<PublicKey>) {
    && (only.Some? ==> Names(read, jwks, |jwks|, "", only.value))
    && (only.None? ==> forall i :: !IsOnly(read, jwks, |jwks|, i))
  }

  lemma OneMore(read: RsaReader, jwks: seq<Jwk>, n: nat, keys: map<string, PublicKey>, longer: map<string, PublicKey>)
    requires n < |jwks| && Reflects(read, jwks, n, keys)
    requires var key := KeyOf(read, jwks[n]);
             longer == if key.Some? && jwks[n].keyId != "" then keys[jwks[n].keyId := key.value] else keys
    ensures Reflects(read, jwks, n + 1, longer)
  {
    forall id | id in longer
      ensures id != "" && Names(read, jwks, n + 1, id, longer[id])
    {
      if KeyOf(read, jwks[n]).Some? && jwks[n].keyId == id {
        assert IsLast(read, jwks, n + 1, id, n);
      } else {
        assert Names(read, jwks, n, id, keys[id]);
        var i :| IsLast(read, jwks, n, id, i) && KeyOf(read, jwks[i]) == Some(keys[id]);
        assert IsLast(read, jwks, n + 1, id, i);
      }
    }
  }

  /** The loop over a key set: the keys by kid, and the single usable one. */
  method ReadKeys(read: RsaReader, jwks: seq<Jwk>) returns (keys: map<string, PublicKey>, only: Option<PublicKey>)
    ensures Reflects(read, jwks, |jwks|, keys) && ReflectsOnly(read, jwks, only)
  {
    keys, only := map[], None;
    var usable, last := 0, None;
    ghost var first := -1;
    for n := 0 to |jwks|
      invariant Reflects(read, jwks, n, keys)
      invariant usable == 0 ==> forall j :: 0 <= j < n ==> KeyOf(read, jwks[j]).None?
      invariant usable >= 0 && (usable > 0 ==> 0 <= first < n && KeyOf(read, jwks[first]).Some?)
      invariant usable == 1 ==> IsOnly(read, jwks, n, first) && last == KeyOf(read, jwks[first])
      invariant usable > 1 ==> exists j :: first < j < n && KeyOf(read, jwks[j]).Some?
    {
      var jwk := jwks[n];
      ghost var before := keys;
      if ForSigning(jwk) {
        var key := read(jwk.modulus, jwk.exponent);
        if key.Some? {
          if usable == 0 {
            first := n;
          }
          usable, last := usable + 1, key;
          if jwk.keyId != "" {
            keys := keys[jwk.keyId := key.value];
          }
        }
      }
      OneMore(read, jwks, n, before, keys);
    }
    if usable == 1 {
      only := last;
    }
  }
}
