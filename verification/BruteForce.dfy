/** Brute-force counters and lockout markers: flat colon-separated cache keys read as a per-user view. */
module BruteForce {
  import opened CacheKeys
  import opened Counters
  import opened Prelude
  import opened Sorting

  const FAILURE := "login-failure"
  const LOCKOUT := "login-lockout"

  // --- Keys ----------------------------------------------------------------

  function RealmPrefix(family: string, realm: string): (r: string) {
    family + ":" + realm + ":"
  }

  function UserPrefix(family: string, realm: string, user: string): (r: string) {
    RealmPrefix(family, realm) + user + ":"
  }

  function Key(family: string, realm: string, user: string, ip: string): (r: string) {
    UserPrefix(family, realm, user) + ip
  }

  /** Split at the last colon. */
  function SplitLast(s: string): (r: Option<(string, string)>) {
    if s == "" then None
    else
      var n := |s| - 1;
      if s[n] == ':' then Some((s[..n], ""))
      else
        var r := SplitLast(s[..n]);
        if r.Some? then Some((r.value.0, r.value.1 + [s[n]])) else None
  }

  /** A key of the realm's family as (user, ip). */
  function ParseKey(family: string, realm: string, key: string): (r: Option<(string, string)>) {
    var prefix := RealmPrefix(family, realm);
    if prefix <= key then SplitLast(key[|prefix|..]) else None
  }

  lemma {:induction false} SplitLastInverts(user: string, ip: string)
    requires ':' !in ip
    ensures SplitLast(user + ":" + ip) == Some((user, ip))
  {
    var s := user + ":" + ip;
    if ip == "" {
      assert s[..|s| - 1] == user;
    } else {
      var n := |ip| - 1;
      assert s[..|s| - 1] == user + ":" + ip[..n] && s[|s| - 1] == ip[n] && ip[n] in ip;
      SplitLastInverts(user, ip[..n]);
      assert ip[..n] + [ip[n]] == ip;
    }
  }

  lemma {:induction false} SplitLastShape(s: string)
    ensures SplitLast(s).Some? ==> ':' !in SplitLast(s).value.1
  {
    if s != "" && s[|s| - 1] != ':' {
      SplitLastShape(s[..|s| - 1]);
    }
  }

  lemma {:induction false} SplitLastJoins(s: string)
    ensures SplitLast(s).Some? ==> s == SplitLast(s).value.0 + ":" + SplitLast(s).value.1
  {
    if s != "" {
      var n := |s| - 1;
      assert s == s[..n] + [s[n]];
      if s[n] != ':' {
        SplitLastJoins(s[..n]);
      } else {
        assert s == s[..n] + ":" + "";
      }
    }
  }

  /** A key is read as a user and an address exactly when it is the two after family and realm, the address without colons. */
  lemma ParseKeyIff(family: string, realm: string, key: string, user: string, ip: string)
    ensures ParseKey(family, realm, key) == Some((user, ip)) <==>
            key == family + ":" + realm + ":" + user + ":" + ip && ':' !in ip
  {
    var prefix := family + ":" + realm + ":";
    var full := family + ":" + realm + ":" + user + ":" + ip;
    assert full == prefix + (user + ":" + ip) && full[|prefix|..] == user + ":" + ip;
    if prefix <= key {
      var rest := key[|prefix|..];
      assert key == prefix + rest;
      SplitLastJoins(rest);
      SplitLastShape(rest);
    }
    if ':' !in ip {
      SplitLastInverts(user, ip);
    }
  }

  /** Printing a key and reading it back recovers any user name, colons included, exactly when the address has no colon. */
  lemma KeyRoundTripIff(family: string, realm: string, user: string, ip: string)
    ensures ParseKey(family, realm, Key(family, realm, user, ip)) == Some((user, ip)) <==> ':' !in ip
  {
    var prefix := RealmPrefix(family, realm);
    assert Key(family, realm, user, ip) == prefix + (user + ":" + ip);
    if ':' !in ip {
      SplitLastInverts(user, ip);
    }
    SplitLastShape(user + ":" + ip);
  }

  lemma FamiliesAgree(family: string, family': string, rest: string)
    requires family in {FAILURE, LOCKOUT} && family' in {FAILURE, LOCKOUT}
    ensures family + ":" <= family' + ":" + rest <==> family == family'
    ensures FAILURE != LOCKOUT
  {
    assert FAILURE[6] == 'f' && LOCKOUT[6] == 'l';
    assert |family| == |family'| == 13;
    LeadingFieldAgrees(family, family', rest);
  }

  /**
    The prefix of one field list takes in a key of another: the lists are the same, the other one goes
    on after a colon, or this one is the other one with a colon and the start of the address.
   */
  predicate Covers(user: string, other: string, ip: string) {
    user == other || Nested(user, other) || (Nested(other, user) && user[|other| + 1..] + ":" <= ip)
  }

  /** Which keys a user's prefix covers, colons anywhere included: realm and user count as one field. */
  lemma UserPrefixCovers(family: string, realm: string, user: string, family': string, realm': string, user': string, ip: string)
    requires family in {FAILURE, LOCKOUT} && family' in {FAILURE, LOCKOUT}
    ensures UserPrefix(family, realm, user) <= Key(family', realm', user', ip) <==>
            family == family' && Covers(realm + ":" + user, realm' + ":" + user', ip)
  {
    var p, s := UserPrefix(family, realm, user), Key(family', realm', user', ip);
    var field, field' := realm + ":" + user, realm' + ":" + user';
    assert p == family + ":" + (field + ":");
    assert s == family' + ":" + (field' + ":" + ip);
    FamiliesAgree(family, family', field' + ":" + ip);
    if family == family' {
      PrefixStrips(family + ":", field + ":", field' + ":" + ip);
      FieldCovers(field, field', ip);
    } else if p <= s {
      assert (family + ":") <= p;
    }
  }

  // --- Counters ------------------------------------------------------------

  type Cache = map<string, string>

  function CountAt(store: Cache, key: string): (n: nat) {
    if key in store then Count(store[key]) else 0
  }

  function Sum(store: Cache, keys: seq<string>): (n: nat) {
    if keys == [] then 0 else Sum(store, keys[..|keys| - 1]) + CountAt(store, keys[|keys| - 1])
  }

  function Total(counts: map<string, nat>, keys: seq<string>): (n: nat)
    requires forall k :: k in keys ==> k in counts
  {
    if keys == [] then 0 else counts[keys[0]] + Total(counts, keys[1..])
  }

  /** Over counters that are stored as decimals, the sum is the sum of the numbers. */
  lemma {:induction false} SumIsTotal(store: Cache, counts: map<string, nat>, keys: seq<string>)
    requires forall k :: k in keys ==> k in counts && counts[k] <= 4294967295 && k in store && store[k] == Decimal(counts[k])
    ensures Sum(store, keys) == Total(counts, keys)
  {
    if keys != [] {
      var k := keys[0];
      assert keys == [k] + keys[1..] && k in keys;
      SumSplits(store, [k], keys[1..]);
      assert [k][..0] == [] && Sum(store, [k]) == CountAt(store, k);
      DecimalCounts(counts[k]);
      SumIsTotal(store, counts, keys[1..]);
    }
  }

  lemma {:induction false} SumSplits(store: Cache, a: seq<string>, b: seq<string>)
    ensures Sum(store, a + b) == Sum(store, a) + Sum(store, b)
  {
    if b == [] {
      assert a + b == a;
    } else {
      assert (a + b)[..|a + b| - 1] == a + b[..|b| - 1];
      SumSplits(store, a, b[..|b| - 1]);
    }
  }

  lemma RemoveFromBoth(a: seq<string>, b: seq<string>, n: nat, i: nat)
    requires n == |a| - 1 && i < |b| && a[n] == b[i] && multiset(a) == multiset(b)
    ensures multiset(a[..n]) == multiset(b[..i] + b[i + 1..])
  {
    assert a == a[..n] + [a[n]];
    assert b == b[..i] + [b[i]] + b[i + 1..];
    assert multiset(a) == multiset(a[..n]) + multiset{a[n]};
    assert multiset(b) == multiset(b[..i] + b[i + 1..]) + multiset{b[i]};
    assert multiset(a[..n]) == multiset(a) - multiset{a[n]};
    assert multiset(b[..i] + b[i + 1..]) == multiset(b) - multiset{b[i]};
  }

  /** The total does not depend on the order in which keys are visited. */
  lemma {:induction false} SumIgnoresOrder(store: Cache, a: seq<string>, b: seq<string>)
    requires multiset(a) == multiset(b)
    ensures Sum(store, a) == Sum(store, b)
    decreases |a|
  {
    if a == [] {
      assert |multiset(b)| == 0;
    } else {
      var n := |a| - 1;
      assert a[n] in multiset(b);
      var i :| 0 <= i < |b| && b[i] == a[n];
      var front, rest := a[..n], b[..i] + b[i + 1..];
      RemoveFromBoth(a, b, n, i);
      SumIgnoresOrder(store, front, rest);
      SumTakeOne(store, b, i);
    }
  }

  lemma SumTakeOne(store: Cache, b: seq<string>, i: nat)
    requires i < |b|
    ensures Sum(store, b) == Sum(store, b[..i] + b[i + 1..]) + CountAt(store, b[i])
  {
    assert b == b[..i + 1] + b[i + 1..] && b[..i + 1][..i] == b[..i];
    SumSplits(store, b[..i + 1], b[i + 1..]);
    SumSplits(store, b[..i], b[i + 1..]);
  }

  /** `keys` lists exactly the store's keys that start with `prefix`. */
  ghost predicate Lists(store: Cache, prefix: string, keys: seq<string>) {
    Distinct(keys) && forall k :: k in keys <==> k in store && prefix <= k
  }

  lemma ListsArePermutations(store: Cache, prefix: string, a: seq<string>, b: seq<string>)
    requires Lists(store, prefix, a) && Lists(store, prefix, b)
    ensures multiset(a) == multiset(b)
  {
    DistinctMultiset(a);
    DistinctMultiset(b);
    forall x ensures multiset(a)[x] == multiset(b)[x] {}
  }

  // --- The lockout list ----------------------------------------------------

  datatype Lockout = Lockout(username: string, ip: string, failures: nat, userId: Option<string>)

  predicate LockoutLeq(a: Lockout, b: Lockout) {
    LexLeq(a.username, b.username) && (a.username == b.username ==> LexLeq(a.ip, b.ip))
  }

  lemma LockoutOrder()
    ensures TotalPreorder(LockoutLeq)
  {
    forall x, y ensures LockoutLeq(x, y) || LockoutLeq(y, x) {
      LexTotal(x.username, y.username);
      LexTotal(x.ip, y.ip);
    }
    forall x, y, z | LockoutLeq(x, y) && LockoutLeq(y, z) ensures LockoutLeq(x, z) {
      LexTrans(x.username, y.username, z.username);
      LexTotal(x.username, y.username);
      LexTotal(y.username, z.username);
      if x.username == z.username {
        LexTrans(x.ip, y.ip, z.ip);
      }
    }
  }

  function EntryOf(store: Cache, users: map<string, string>, realm: string, key: string): (r: seq<Lockout>) {
    match ParseKey(LOCKOUT, realm, key)
    case None => []
    case Some((user, ip)) =>
      [Lockout(user, ip, CountAt(store, Key(FAILURE, realm, user, ip)), if user in users then Some(users[user]) else None)]
  }

  function Entries(store: Cache, users: map<string, string>, realm: string, keys: seq<string>): (r: seq<Lockout>) {
    if keys == [] then []
    else Entries(store, users, realm, keys[..|keys| - 1]) + EntryOf(store, users, realm, keys[|keys| - 1])
  }

  lemma {:induction false} EntriesSplit(store: Cache, users: map<string, string>, realm: string, a: seq<string>, b: seq<string>)
    ensures Entries(store, users, realm, a + b) == Entries(store, users, realm, a) + Entries(store, users, realm, b)
  {
    if b == [] {
      assert a + b == a;
    } else {
      assert (a + b)[..|a + b| - 1] == a + b[..|b| - 1];
      EntriesSplit(store, users, realm, a, b[..|b| - 1]);
    }
  }

  lemma {:induction false} EntriesPermute(store: Cache, users: map<string, string>, realm: string, a: seq<string>, b: seq<string>)
    requires multiset(a) == multiset(b)
    ensures multiset(Entries(store, users, realm, a)) == multiset(Entries(store, users, realm, b))
    decreases |a|
  {
    if a == [] {
      assert |multiset(b)| == 0;
    } else {
      var n := |a| - 1;
      var x := a[n];
      assert x in multiset(b);
      var i :| 0 <= i < |b| && b[i] == x;
      assert a == a[..n] + [x] && b == b[..i] + [x] + b[i + 1..];
      var rest := b[..i] + b[i + 1..];
      RemoveFromBoth(a, b, n, i);
      EntriesPermute(store, users, realm, a[..n], rest);
      EntriesTakeOne(store, users, realm, b, i);
    }
  }

  lemma EntriesTakeOne(store: Cache, users: map<string, string>, realm: string, b: seq<string>, i: nat)
    requires i < |b|
    ensures multiset(Entries(store, users, realm, b)) ==
            multiset(Entries(store, users, realm, b[..i] + b[i + 1..])) + multiset(EntryOf(store, users, realm, b[i]))
  {
    assert b == b[..i + 1] + b[i + 1..] && b[..i + 1][..i] == b[..i];
    EntriesSplit(store, users, realm, b[..i + 1], b[i + 1..]);
    EntriesSplit(store, users, realm, b[..i], b[i + 1..]);
  }

  /** An entry is determined by its user name and address. */
  ghost predicate EntryFor(store: Cache, users: map<string, string>, realm: string, e: Lockout) {
    && e.failures == CountAt(store, Key(FAILURE, realm, e.username, e.ip))
    && e.userId == if e.username in users then Some(users[e.username]) else None
  }

  lemma {:induction false} EntriesAreDetermined(store: Cache, users: map<string, string>, realm: string, keys: seq<string>)
    ensures forall e :: e in Entries(store, users, realm, keys) ==> EntryFor(store, users, realm, e)
  {
    if keys != [] {
      EntriesAreDetermined(store, users, realm, keys[..|keys| - 1]);
    }
  }

  /** The sorted list is the same for every order of the scan. */
  lemma LockedListIgnoresOrder(store: Cache, users: map<string, string>, realm: string, a: seq<string>, b: seq<string>)
    requires multiset(a) == multiset(b)
    ensures Sort(LockoutLeq, Entries(store, users, realm, a)) == Sort(LockoutLeq, Entries(store, users, realm, b))
  {
    var ea, eb := Entries(store, users, realm, a), Entries(store, users, realm, b);
    EntriesPermute(store, users, realm, a, b);
    EntriesAreDetermined(store, users, realm, a);
    LockoutOrder();
    forall x, y | x in ea && y in ea && LockoutLeq(x, y) && LockoutLeq(y, x) ensures x == y {
      LexTotal(x.username, y.username);
      LexTotal(x.ip, y.ip);
    }
    SortIgnoresInputOrder(LockoutLeq, ea, eb);
  }

  // --- What the list says --------------------------------------------------

  /** The marker that the entry reports is stored, and its fields are read from where they belong. */
  ghost predicate Reports(store: Cache, users: map<string, string>, realm: string, e: Lockout) {
    && ':' !in e.ip && "login-lockout:" + realm + ":" + e.username + ":" + e.ip in store
    && (var counter := "login-failure:" + realm + ":" + e.username + ":" + e.ip;
        if counter in store then e.failures == Count(store[counter]) else e.failures == 0)
    && (if e.username in users then e.userId == Some(users[e.username]) else e.userId == None)
  }

  lemma EntryReports(store: Cache, users: map<string, string>, realm: string, key: string, e: Lockout)
    requires key in store
    ensures e in EntryOf(store, users, realm, key) <==>
            Reports(store, users, realm, e) && key == "login-lockout:" + realm + ":" + e.username + ":" + e.ip
  {
    ParseKeyIff(LOCKOUT, realm, key, e.username, e.ip);
    assert LOCKOUT + ":" == "login-lockout:" && FAILURE + ":" == "login-failure:";
    assert Key(FAILURE, realm, e.username, e.ip) == "login-failure:" + realm + ":" + e.username + ":" + e.ip;
  }

  lemma {:induction false} EntriesReport(store: Cache, users: map<string, string>, realm: string, keys: seq<string>, e: Lockout)
    requires forall k :: k in keys ==> k in store
    ensures e in Entries(store, users, realm, keys) <==>
            Reports(store, users, realm, e) && "login-lockout:" + realm + ":" + e.username + ":" + e.ip in keys
  {
    if keys != [] {
      var n := |keys| - 1;
      assert keys == keys[..n] + [keys[n]];
      EntriesReport(store, users, realm, keys[..n], e);
      EntryReports(store, users, realm, keys[n], e);
    }
  }

  /** In order of user names, and of addresses for one user. */
  ghost predicate InOrder(a: Lockout, b: Lockout) {
    Precedes(a.username, b.username) || (a.username == b.username && (a.ip == b.ip || Precedes(a.ip, b.ip)))
  }

  /** The list holds exactly the stored markers, each with its counter and its user, in that order. */
  lemma LockedListMeans(store: Cache, users: map<string, string>, realm: string, keys: seq<string>)
    requires Lists(store, "login-lockout:" + realm + ":", keys)
    ensures var list := Sort(LockoutLeq, Entries(store, users, realm, keys));
            && (forall e :: e in list <==> Reports(store, users, realm, e))
            && (forall i, j :: 0 <= i < j < |list| ==> InOrder(list[i], list[j]))
  {
    var entries := Entries(store, users, realm, keys);
    var list := Sort(LockoutLeq, entries);
    SortPermutes(LockoutLeq, entries);
    forall e ensures e in list <==> Reports(store, users, realm, e) {
      assert e in list <==> e in multiset(list);
      assert e in entries <==> e in multiset(entries);
      EntriesReport(store, users, realm, keys, e);
      MarkerHasPrefix(realm, e.username, e.ip);
    }
    LockoutOrder();
    SortSorts(LockoutLeq, entries);
    forall i, j | 0 <= i < j < |list| ensures InOrder(list[i], list[j]) {
      LexLeqIff(list[i].username, list[j].username);
      LexLeqIff(list[i].ip, list[j].ip);
    }
  }

  lemma MarkerHasPrefix(realm: string, user: string, ip: string)
    ensures "login-lockout:" + realm + ":" <= "login-lockout:" + realm + ":" + user + ":" + ip
  {
    assert "login-lockout:" + realm + ":" + user + ":" + ip == "login-lockout:" + realm + ":" + (user + ":" + ip);
  }
}
