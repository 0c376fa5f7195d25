/** The attack-detection endpoints over the shared cache. */
module AttackDetection {
  import opened BruteForce
  import opened Counters
  import opened Glob
  import opened Prelude
  import opened Sorting

  function Min(a: nat, b: nat): (r: nat) {
    if a < b then a else b
  }

  /** The cache without a user's counters and markers. */
  function Cleared(store: Cache, realm: string, user: string): (r: Cache) {
    map k | k in store && !(UserPrefix(FAILURE, realm, user) <= k) && !(UserPrefix(LOCKOUT, realm, user) <= k) :: store[k]
  }

  class Detector {
    var store: Cache

    constructor (store: Cache)
      ensures this.store == store
    {
      this.store := store;
    }

    /** Keys come back in no particular order. */
    method ScanKeys(pattern: string) returns (keys: seq<string>)
      ensures Distinct(keys) && forall k :: k in keys <==> k in store && Matches(pattern, k)
    {
      keys := [];
      var rest := store.Keys;
      while rest != {}
        invariant rest <= store.Keys && Distinct(keys)
        invariant forall k :: k in keys <==> k in store && k !in rest && Matches(pattern, k)
        decreases rest
      {
        var k :| k in rest;
        var matched := GlobMatch(pattern, k);
        if matched {
          assert k !in keys;
          keys := keys + [k];
        }
        rest := rest - {k};
      }
    }

    method UserKeys(family: string, realm: string, user: string) returns (keys: seq<string>)
      ensures Lists(store, UserPrefix(family, realm, user), keys)
    {
      var prefix := UserPrefix(family, realm, user);
      var scanned := ScanKeys(EscapePattern(prefix) + "*");
      keys := [];
      for i := 0 to |scanned|
        invariant Distinct(keys) && forall k :: k in keys <==> k in scanned[..i] && prefix <= k
      {
        if prefix <= scanned[i] {
          assert scanned[i] !in scanned[..i];
          keys := keys + [scanned[i]];
        }
      }
      forall k ensures k in keys <==> k in store && prefix <= k {
        PrefixScan(prefix, k);
      }
    }

    /** Failures over all addresses, saturating at the largest 32-bit number; locked when any marker is left. */
    method UserStatus(realm: string, user: string) returns (failures: nat, locked: bool)
      ensures forall keys :: Lists(store, "login-failure:" + realm + ":" + user + ":", keys) ==>
                               failures == if Sum(store, keys) <= 4294967295 then Sum(store, keys) else 4294967295
      ensures locked <==> exists k :: k in store && "login-lockout:" + realm + ":" + user + ":" <= k
    {
      assert UserPrefix(FAILURE, realm, user) == "login-failure:" + realm + ":" + user + ":";
      assert UserPrefix(LOCKOUT, realm, user) == "login-lockout:" + realm + ":" + user + ":";
      var counters := UserKeys(FAILURE, realm, user);
      failures := 0;
      for i := 0 to |counters|
        invariant failures == Min(Sum(store, counters[..i]), MAX)
      {
        assert counters[..i + 1][..i] == counters[..i];
        if counters[i] in store {
          failures := Min(failures + Count(store[counters[i]]), MAX);
        }
      }
      assert counters[..|counters|] == counters;
      forall keys | Lists(store, UserPrefix(FAILURE, realm, user), keys) ensures failures == Min(Sum(store, keys), MAX) {
        ListsArePermutations(store, UserPrefix(FAILURE, realm, user), counters, keys);
        SumIgnoresOrder(store, counters, keys);
      }
      var markers := UserKeys(LOCKOUT, realm, user);
      locked := markers != [];
      if locked {
        assert markers[0] in markers;
      }
    }

    method ClearUser(realm: string, user: string)
      modifies this
      ensures store == Cleared(old(store), realm, user)
    {
      DeleteUserKeys(FAILURE, realm, user);
      DeleteUserKeys(LOCKOUT, realm, user);
    }

    method DeleteUserKeys(family: string, realm: string, user: string)
      modifies this
      ensures store == map k | k in old(store) && !(UserPrefix(family, realm, user) <= k) :: old(store)[k]
    {
      var keys := UserKeys(family, realm, user);
      for i := 0 to |keys|
        invariant store == map k | k in old(store) && k !in keys[..i] :: old(store)[k]
      {
        store := store - {keys[i]};
      }
      assert keys[..|keys|] == keys;
    }

    /** Every locked (user, address) pair, ordered by user and address. */
    method ListLocked(realm: string, users: map<string, string>) returns (locked: seq<Lockout>)
      ensures forall keys :: Lists(store, "login-lockout:" + realm + ":", keys) ==>
                               locked == Sort(LockoutLeq, Entries(store, users, realm, keys))
      ensures forall e :: e in locked <==> Reports(store, users, realm, e)
      ensures forall i, j :: 0 <= i < j < |locked| ==> InOrder(locked[i], locked[j])
    {
      assert RealmPrefix(LOCKOUT, realm) == "login-lockout:" + realm + ":";
      var prefix := RealmPrefix(LOCKOUT, realm);
      var scanned := ScanKeys(EscapePattern(prefix) + "*");
      var entries: seq<Lockout> := [];
      for i := 0 to |scanned|
        invariant entries == Entries(store, users, realm, scanned[..i])
      {
        assert scanned[..i + 1][..i] == scanned[..i];
        var parsed := ParseKey(LOCKOUT, realm, scanned[i]);
        if parsed.Some? {
          var (user, ip) := parsed.value;
          var failures := CountAt(store, Key(FAILURE, realm, user, ip));
          entries := entries + [Lockout(user, ip, failures, if user in users then Some(users[user]) else None)];
        }
      }
      assert scanned[..|scanned|] == scanned;
      forall k ensures k in scanned <==> k in store && prefix <= k {
        PrefixScan(prefix, k);
      }
      locked := Sort(LockoutLeq, entries);
      ListedForScan(store, users, realm, scanned);
    }
  }

  /** Whatever order the scan gave, the list is the one of the stored markers. */
  lemma ListedForScan(store: Cache, users: map<string, string>, realm: string, scanned: seq<string>)
    requires Lists(store, "login-lockout:" + realm + ":", scanned)
    ensures var locked := Sort(LockoutLeq, Entries(store, users, realm, scanned));
            && (forall keys :: Lists(store, "login-lockout:" + realm + ":", keys) ==>
                                 locked == Sort(LockoutLeq, Entries(store, users, realm, keys)))
            && (forall e :: e in locked <==> Reports(store, users, realm, e))
            && (forall i, j :: 0 <= i < j < |locked| ==> InOrder(locked[i], locked[j]))
  {
    var prefix := "login-lockout:" + realm + ":";
    var locked := Sort(LockoutLeq, Entries(store, users, realm, scanned));
    LockedListMeans(store, users, realm, scanned);
    forall keys | Lists(store, prefix, keys) ensures locked == Sort(LockoutLeq, Entries(store, users, realm, keys)) {
      ListsArePermutations(store, prefix, scanned, keys);
      LockedListIgnoresOrder(store, users, realm, scanned, keys);
    }
  }

  /** After clearing a user nothing is counted or locked for that user, whatever the name. */
  lemma ClearedIsClean(store: Cache, realm: string, user: string, keys: seq<string>)
    requires Lists(Cleared(store, realm, user), UserPrefix(FAILURE, realm, user), keys)
    ensures Sum(Cleared(store, realm, user), keys) == 0
    ensures !exists k :: k in Cleared(store, realm, user) && UserPrefix(LOCKOUT, realm, user) <= k
  {
    EmptyOrMember(keys);
  }

  /**
    Clearing a user drops a stored counter or marker exactly when the user's prefix covers its key, and
    changes nothing else. Realm and user count as one field there, so colons in either can carry over.
   */
  lemma ClearTouchesIff(store: Cache, realm: string, user: string, family: string, realm': string, user': string, ip: string)
    requires family in {FAILURE, LOCKOUT} && Key(family, realm', user', ip) in store
    ensures Key(family, realm', user', ip) !in Cleared(store, realm, user) <==>
            Covers(realm + ":" + user, realm' + ":" + user', ip)
    ensures Key(family, realm', user', ip) in Cleared(store, realm, user) ==>
              Cleared(store, realm, user)[Key(family, realm', user', ip)] == store[Key(family, realm', user', ip)]
  {
    UserPrefixCovers(FAILURE, realm, user, family, realm', user', ip);
    UserPrefixCovers(LOCKOUT, realm, user, family, realm', user', ip);
  }

  /** A counter of `a:b` is lost when `a` is cleared. */
  lemma ClearingReachesNestedNames(realm: string, a: string, b: string, ip: string, value: string)
    ensures Key(FAILURE, realm, a + ":" + b, ip) !in Cleared(map[Key(FAILURE, realm, a + ":" + b, ip) := value], realm, a)
  {
    assert realm + ":" + a + ":" <= realm + ":" + (a + ":" + b);
    ClearTouchesIff(map[Key(FAILURE, realm, a + ":" + b, ip) := value], realm, a, FAILURE, realm, a + ":" + b, ip);
  }
}
