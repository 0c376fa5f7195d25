/**
  Client rows and scope assignments in storage, and the claims cache derived from them: every write
  invalidates what it must, so that reading through the cache is the same as reading storage.
 */
module ClientCache {
  import opened CacheKeys
  import opened Prelude

  /** A client row: `access` is the admin-API access attribute, `settings` the other configurable fields. */
  datatype Client = Client(id: string, realm: string, identifier: string, enabled: bool, secret: Option<string>,
                           access: Option<string>, mappings: string, settings: string)

  datatype Entry =
    | ClientEntry(client: Client, epoch: nat)
    | UuidEntry(identifier: string, epoch: nat)
    | ScopesEntry(ids: seq<string>, epoch: nat)

  type Key = (string, string)

  type Rows = map<Key, Client>

  /** Rows and default scope ids by realm and uuid, the cache, and the counters beside it. */
  datatype State = State(rows: Rows, scopes: map<Key, seq<string>>, cache: map<string, Entry>, epochs: map<string, nat>,
                         generations: map<string, nat>)

  // --- Keys ----------------------------------------------------------------

  function ClientKey(realm: string, identifier: string): (k: string) {
    "client:" + realm + ":" + identifier
  }

  function UuidKey(realm: string, uuid: string): (k: string) {
    "client-uuid:" + realm + ":" + uuid
  }

  function ScopesKey(realm: string, uuid: string): (k: string) {
    "client-scopes:" + realm + ":" + uuid
  }

  function GenerationKey(realm: string, identifier: string): (k: string) {
    "clientgen:" + realm + ":" + identifier
  }

  /** No realm id is nested in another. */
  ghost predicate Separated(realms: set<string>) {
    forall a, b :: a in realms && b in realms ==> !Nested(a, b)
  }

  /** Two realms can meet on one key exactly when one id is nested in the other. */
  lemma KeysCollideIff(a: string, b: string)
    requires a != b
    ensures (exists x, y :: ClientKey(a, x) == ClientKey(b, y)) <==> Nested(a, b) || Nested(b, a)
  {
    if Nested(a, b) {
      NestedCollides(a, b, "");
    }
    if Nested(b, a) {
      NestedCollides(b, a, "");
    }
    forall x, y | ClientKey(a, x) == ClientKey(b, y) ensures Nested(a, b) || Nested(b, a) {
      SameFields("client:", a, x, b, y);
    }
  }

  lemma NestedCollides(a: string, b: string, y: string)
    requires Nested(a, b)
    ensures ClientKey(a, b[|a| + 1..] + ":" + y) == ClientKey(b, y)
  {
    assert b == a + ":" + b[|a| + 1..];
  }

  lemma KindsAreDistinct(a: string, x: string, b: string, y: string)
    ensures ClientKey(a, x) != UuidKey(b, y) && ClientKey(a, x) != ScopesKey(b, y) && UuidKey(a, x) != ScopesKey(b, y)
  {
    assert ClientKey(a, x)[6] == ':' && UuidKey(b, y)[6] == '-' && ScopesKey(b, y)[6] == '-';
    assert UuidKey(a, x)[7] == 'u' && ScopesKey(b, y)[7] == 's';
  }

  lemma KeysAreInjective(realms: set<string>, a: string, x: string, b: string, y: string)
    requires Separated(realms) && a in realms && b in realms
    ensures ClientKey(a, x) == ClientKey(b, y) <==> a == b && x == y
    ensures UuidKey(a, x) == UuidKey(b, y) <==> a == b && x == y
    ensures ScopesKey(a, x) == ScopesKey(b, y) <==> a == b && x == y
  {
    if ClientKey(a, x) == ClientKey(b, y) {
      SameFields("client:", a, x, b, y);
    }
    if UuidKey(a, x) == UuidKey(b, y) {
      SameFields("client-uuid:", a, x, b, y);
    }
    if ScopesKey(a, x) == ScopesKey(b, y) {
      SameFields("client-scopes:", a, x, b, y);
    }
  }

  // --- Storage and cache views ---------------------------------------------

  ghost predicate Keyed(rows: Rows) {
    forall k :: k in rows ==> rows[k].realm == k.0 && rows[k].id == k.1
  }

  /** Public identifiers are unique per realm. */
  ghost predicate UniqueIdentifiers(rows: Rows) {
    forall k, l :: k in rows && l in rows && k.0 == l.0 && rows[k].identifier == rows[l].identifier ==> k == l
  }

  predicate Owns(rows: Rows, k: Key, realm: string, identifier: string) {
    k in rows && k.0 == realm && rows[k].identifier == identifier
  }

  ghost function Stored(rows: Rows, realm: string, identifier: string): (r: Option<Client>)
    ensures r.Some? ==> exists k :: Owns(rows, k, realm, identifier) && rows[k] == r.value
    ensures r.None? ==> forall k :: !Owns(rows, k, realm, identifier)
  {
    if k :| Owns(rows, k, realm, identifier) then Some(rows[k]) else None
  }

  function ScopesOf(s: State, k: Key): (ids: seq<string>) {
    if k in s.scopes then s.scopes[k] else []
  }

  function Identifier(s: State, k: Key): (r: Option<string>) {
    if k in s.rows then Some(s.rows[k].identifier) else None
  }

  function Epoch(s: State, realm: string): (n: nat) {
    if realm in s.epochs then s.epochs[realm] else 0
  }

  predicate IsCurrent(s: State, realm: string, key: string) {
    key in s.cache && s.cache[key].epoch == Epoch(s, realm)
  }

  /** No entry is from the future, and every entry of the current epoch tells what storage holds. */
  ghost predicate ClientEntryFits(s: State, realm: string, identifier: string) {
    var key := ClientKey(realm, identifier);
    key in s.cache ==>
      && s.cache[key].ClientEntry? && s.cache[key].epoch <= Epoch(s, realm)
      && (IsCurrent(s, realm, key) ==> exists k :: Owns(s.rows, k, realm, identifier) && s.rows[k] == s.cache[key].client)
  }

  ghost predicate UuidEntryFits(s: State, realm: string, uuid: string) {
    var key, k := UuidKey(realm, uuid), (realm, uuid);
    key in s.cache ==>
      && s.cache[key].UuidEntry? && s.cache[key].epoch <= Epoch(s, realm)
      && (IsCurrent(s, realm, key) ==> k in s.rows && s.rows[k].identifier == s.cache[key].identifier)
  }

  ghost predicate ScopesEntryFits(s: State, realm: string, uuid: string) {
    var key := ScopesKey(realm, uuid);
    key in s.cache ==>
      && s.cache[key].ScopesEntry? && s.cache[key].epoch <= Epoch(s, realm)
      && (IsCurrent(s, realm, key) ==> s.cache[key].ids == ScopesOf(s, (realm, uuid)))
  }

  ghost predicate Fits(s: State, realm: string, x: string) {
    ClientEntryFits(s, realm, x) && UuidEntryFits(s, realm, x) && ScopesEntryFits(s, realm, x)
  }

  ghost predicate Coherent(realms: set<string>, s: State) {
    forall realm, x :: realm in realms ==> Fits(s, realm, x)
  }

  /** Rows sit under their own keys, identifiers are unique, and only stored clients have assignments. */
  ghost predicate WellStored(s: State) {
    Keyed(s.rows) && UniqueIdentifiers(s.rows) && s.scopes.Keys <= s.rows.Keys
  }

  ghost predicate Valid(realms: set<string>, s: State) {
    WellStored(s) && Coherent(realms, s)
  }

  // --- Reading -------------------------------------------------------------

  function Fill(s: State, key: string, e: Entry): (r: State) {
    s.(cache := s.cache[key := e])
  }

  /** The client behind a public identifier: a current cache entry, else storage, which is then cached. */
  ghost function ReadClient(s: State, realm: string, identifier: string): (r: (Option<Client>, State)) {
    var key := ClientKey(realm, identifier);
    if IsCurrent(s, realm, key) && s.cache[key].ClientEntry? then (Some(s.cache[key].client), s)
    else
      match Stored(s.rows, realm, identifier)
      case None => (None, s)
      case Some(client) => (Some(client), Fill(s, key, ClientEntry(client, Epoch(s, realm))))
  }

  /** The public identifier of a client; only found ones are cached. */
  function ReadIdentifier(s: State, realm: string, uuid: string): (r: (Option<string>, State)) {
    var key := UuidKey(realm, uuid);
    if IsCurrent(s, realm, key) && s.cache[key].UuidEntry? then (Some(s.cache[key].identifier), s)
    else if (realm, uuid) !in s.rows then (None, s)
    else
      var identifier := s.rows[(realm, uuid)].identifier;
      (Some(identifier), Fill(s, key, UuidEntry(identifier, Epoch(s, realm))))
  }

  /** The default scope ids of a client; an empty list is cached too. */
  function ReadScopes(s: State, realm: string, uuid: string): (r: (seq<string>, State)) {
    var key := ScopesKey(realm, uuid);
    if IsCurrent(s, realm, key) && s.cache[key].ScopesEntry? then (s.cache[key].ids, s)
    else (ScopesOf(s, (realm, uuid)), Fill(s, key, ScopesEntry(ScopesOf(s, (realm, uuid)), Epoch(s, realm))))
  }

  lemma FillElsewhere(s: State, key: string, e: Entry, r: string, x: string)
    requires Fits(s, r, x) && key !in {ClientKey(r, x), UuidKey(r, x), ScopesKey(r, x)}
    ensures Fits(Fill(s, key, e), r, x)
  {
  }

  /** Within one realm keys are distinct, and keys of different kinds are everywhere. */
  lemma KeysApart(a: string, x: string, b: string, y: string)
    ensures a == b ==> (ClientKey(a, x) == ClientKey(b, y) <==> x == y) && (UuidKey(a, x) == UuidKey(b, y) <==> x == y)
    ensures a == b ==> (ScopesKey(a, x) == ScopesKey(b, y) <==> x == y)
    ensures ClientKey(a, x) !in {UuidKey(b, y), ScopesKey(b, y)}
    ensures UuidKey(a, x) !in {ClientKey(b, y), ScopesKey(b, y)}
    ensures ScopesKey(a, x) !in {ClientKey(b, y), UuidKey(b, y)}
  {
    KindsAreDistinct(a, x, b, y);
    KindsAreDistinct(b, y, a, x);
    if a == b {
      SameRest("client:" + a + ":", x, y);
      SameRest("client-uuid:" + a + ":", x, y);
      SameRest("client-scopes:" + a + ":", x, y);
    }
  }

  lemma SameRest(front: string, x: string, y: string)
    ensures front + x == front + y <==> x == y
  {
    assert (front + x)[|front|..] == x && (front + y)[|front|..] == y;
  }

  // Another realm shares the key of a read, and the entry that the read fills in is not older than that
  // realm's epoch and does not say what that realm stores.

  ghost predicate MisleadsClient(realms: set<string>, s: State, realm: string, identifier: string) {
    && !IsCurrent(s, realm, ClientKey(realm, identifier)) && Stored(s.rows, realm, identifier).Some?
    && exists r, y :: && r in realms && r != realm && ClientKey(r, y) == ClientKey(realm, identifier)
                      && Epoch(s, r) <= Epoch(s, realm)
  }

  ghost predicate MisleadsIdentifier(realms: set<string>, s: State, realm: string, uuid: string) {
    && !IsCurrent(s, realm, UuidKey(realm, uuid)) && (realm, uuid) in s.rows
    && exists r, y :: && r in realms && r != realm && UuidKey(r, y) == UuidKey(realm, uuid)
                      && (|| Epoch(s, r) < Epoch(s, realm)
                          || (Epoch(s, r) == Epoch(s, realm) && Identifier(s, (r, y)) != Identifier(s, (realm, uuid))))
  }

  ghost predicate MisleadsScopes(realms: set<string>, s: State, realm: string, uuid: string) {
    && !IsCurrent(s, realm, ScopesKey(realm, uuid))
    && exists r, y :: && r in realms && r != realm && ScopesKey(r, y) == ScopesKey(realm, uuid)
                      && (|| Epoch(s, r) < Epoch(s, realm)
                          || (Epoch(s, r) == Epoch(s, realm) && ScopesOf(s, (r, y)) != ScopesOf(s, (realm, uuid))))
  }

  /** Realms none of which is nested in another share no keys, so there none of this happens. */
  lemma SeparatedNeverMisleads(realms: set<string>, s: State, realm: string, x: string)
    requires Separated(realms) && realm in realms
    ensures !MisleadsClient(realms, s, realm, x) && !MisleadsIdentifier(realms, s, realm, x) && !MisleadsScopes(realms, s, realm, x)
  {
    forall r, y | r in realms ensures r == realm || (ClientKey(r, y) != ClientKey(realm, x) && UuidKey(r, y) != UuidKey(realm, x)
                                                     && ScopesKey(r, y) != ScopesKey(realm, x)) {
      KeysAreInjective(realms, r, y, realm, x);
    }
  }

  /** A filled-in entry keeps the state valid exactly when it fits whatever shares its key. */
  lemma FillValidIff(realms: set<string>, s: State, realm: string, x: string, key: string, e: Entry)
    requires Valid(realms, s) && realm in realms && key in {ClientKey(realm, x), UuidKey(realm, x), ScopesKey(realm, x)}
    requires Fits(Fill(s, key, e), realm, x)
    ensures Valid(realms, Fill(s, key, e)) <==>
            forall r, y :: r in realms && r != realm && key in {ClientKey(r, y), UuidKey(r, y), ScopesKey(r, y)} ==>
                             Fits(Fill(s, key, e), r, y)
  {
    var s' := Fill(s, key, e);
    if forall r, y :: r in realms && r != realm && key in {ClientKey(r, y), UuidKey(r, y), ScopesKey(r, y)} ==> Fits(s', r, y) {
      forall r, y | r in realms ensures Fits(s', r, y) {
        assert Fits(s, r, y);
        if key !in {ClientKey(r, y), UuidKey(r, y), ScopesKey(r, y)} {
          FillElsewhere(s, key, e, r, y);
        } else if r == realm {
          KeysApart(r, y, realm, x);
        }
      }
    }
  }

  /** A read through the cache returns what storage holds, and leaves a coherent cache unless it misleads another realm. */
  lemma ReadClientIsTransparent(realms: set<string>, s: State, realm: string, identifier: string)
    requires Valid(realms, s) && realm in realms
    ensures ReadClient(s, realm, identifier).0 == Stored(s.rows, realm, identifier)
    ensures Valid(realms, ReadClient(s, realm, identifier).1) <==> !MisleadsClient(realms, s, realm, identifier)
  {
    assert Fits(s, realm, identifier);
    var stored, key := Stored(s.rows, realm, identifier), ClientKey(realm, identifier);
    if stored.Some? && !IsCurrent(s, realm, key) {
      var e := ClientEntry(stored.value, Epoch(s, realm));
      KindsAreDistinct(realm, identifier, realm, identifier);
      FillValidIff(realms, s, realm, identifier, key, e);
      forall r, y | r in realms && r != realm ensures key in {ClientKey(r, y), UuidKey(r, y), ScopesKey(r, y)} ==>
          (Fits(Fill(s, key, e), r, y) <==> Epoch(s, realm) < Epoch(s, r)) && key == ClientKey(r, y)
      {
        assert Fits(s, r, y);
        KeysApart(realm, identifier, r, y);
        ClientEntryElsewhere(s, realm, stored.value, r, y);
      }
    }
  }

  /** A row of one realm is never a row of another. */
  lemma ClientEntryElsewhere(s: State, realm: string, client: Client, r: string, y: string)
    requires WellStored(s) && r != realm && Fits(s, r, y) && exists k :: k in s.rows && k.0 == realm && s.rows[k] == client
    ensures Fits(Fill(s, ClientKey(r, y), ClientEntry(client, Epoch(s, realm))), r, y) <==> Epoch(s, realm) < Epoch(s, r)
  {
    KindsAreDistinct(r, y, r, y);
    assert forall k :: Owns(s.rows, k, r, y) ==> s.rows[k].realm == r;
  }

  lemma ReadIdentifierIsTransparent(realms: set<string>, s: State, realm: string, uuid: string)
    requires Valid(realms, s) && realm in realms
    ensures ReadIdentifier(s, realm, uuid).0 == Identifier(s, (realm, uuid))
    ensures Valid(realms, ReadIdentifier(s, realm, uuid).1) <==> !MisleadsIdentifier(realms, s, realm, uuid)
  {
    assert Fits(s, realm, uuid);
    var key := UuidKey(realm, uuid);
    if (realm, uuid) in s.rows && !IsCurrent(s, realm, key) {
      var e := UuidEntry(s.rows[(realm, uuid)].identifier, Epoch(s, realm));
      KindsAreDistinct(realm, uuid, realm, uuid);
      FillValidIff(realms, s, realm, uuid, key, e);
      forall r, y | r in realms && r != realm ensures key in {ClientKey(r, y), UuidKey(r, y), ScopesKey(r, y)} ==>
          && key == UuidKey(r, y)
          && (Fits(Fill(s, key, e), r, y) <==>
              Epoch(s, realm) < Epoch(s, r) || (Epoch(s, realm) == Epoch(s, r) && Identifier(s, (r, y)) == Some(e.identifier)))
      {
        assert Fits(s, r, y);
        KeysApart(realm, uuid, r, y);
        UuidEntryElsewhere(s, e, r, y);
      }
    }
  }

  lemma UuidEntryElsewhere(s: State, e: Entry, r: string, y: string)
    requires e.UuidEntry? && Fits(s, r, y)
    ensures Fits(Fill(s, UuidKey(r, y), e), r, y) <==>
            e.epoch < Epoch(s, r) || (e.epoch == Epoch(s, r) && Identifier(s, (r, y)) == Some(e.identifier))
  {
    KindsAreDistinct(r, y, r, y);
  }

  lemma ReadScopesIsTransparent(realms: set<string>, s: State, realm: string, uuid: string)
    requires Valid(realms, s) && realm in realms
    ensures ReadScopes(s, realm, uuid).0 == ScopesOf(s, (realm, uuid))
    ensures Valid(realms, ReadScopes(s, realm, uuid).1) <==> !MisleadsScopes(realms, s, realm, uuid)
  {
    assert Fits(s, realm, uuid);
    var key := ScopesKey(realm, uuid);
    if !IsCurrent(s, realm, key) {
      var e := ScopesEntry(ScopesOf(s, (realm, uuid)), Epoch(s, realm));
      KindsAreDistinct(realm, uuid, realm, uuid);
      FillValidIff(realms, s, realm, uuid, key, e);
      forall r, y | r in realms && r != realm ensures key in {ClientKey(r, y), UuidKey(r, y), ScopesKey(r, y)} ==>
          && key == ScopesKey(r, y)
          && (Fits(Fill(s, key, e), r, y) <==>
              Epoch(s, realm) < Epoch(s, r) || (Epoch(s, realm) == Epoch(s, r) && ScopesOf(s, (r, y)) == e.ids))
      {
        assert Fits(s, r, y);
        KeysApart(realm, uuid, r, y);
        ScopesEntryElsewhere(s, e, r, y);
      }
    }
  }

  lemma ScopesEntryElsewhere(s: State, e: Entry, r: string, y: string)
    requires e.ScopesEntry? && Fits(s, r, y)
    ensures Fits(Fill(s, ScopesKey(r, y), e), r, y) <==>
            e.epoch < Epoch(s, r) || (e.epoch == Epoch(s, r) && ScopesOf(s, (r, y)) == e.ids)
  {
    KindsAreDistinct(r, y, r, y);
  }

  // --- Writing -------------------------------------------------------------

  /** Another client than `own` has the identifier. */
  ghost predicate Taken(rows: Rows, realm: string, identifier: string, own: Option<string>) {
    exists k :: Owns(rows, k, realm, identifier) && own != Some(k.1)
  }

  /** A create stores the row and what seeding assigns, and leaves the cache alone. */
  ghost function CreateOutcome(s: State, realm: string, client: Client, seeded: seq<string>, manageRealm: bool)
    : (r: Result<State, ApiError>)
  {
    if client.access == Some("true") && !manageRealm then Err(Forbidden)
    else if Taken(s.rows, realm, client.identifier, None) then Err(Conflict)
    else
      var k := (realm, client.id);
      Ok(s.(rows := s.rows[k := client.(realm := realm)], scopes := s.scopes[k := seeded]))
  }

  function Generation(s: State, realm: string, identifier: string): (n: nat) {
    var key := GenerationKey(realm, identifier);
    if key in s.generations then s.generations[key] else 0
  }

  /** What is derived from one client goes, and its generation moves on. */
  function Invalidated(s: State, realm: string, uuid: string, identifier: string): (r: State) {
    s.(cache := s.cache - {ClientKey(realm, identifier), ScopesKey(realm, uuid), UuidKey(realm, uuid)},
       generations := s.generations[GenerationKey(realm, identifier) := Generation(s, realm, identifier) + 1])
  }

  function UpdatedRow(existing: Client, body: Client): (r: Client) {
    body.(id := existing.id, realm := existing.realm, mappings := existing.mappings,
          secret := if body.secret.None? then existing.secret else body.secret,
          access := if body.access.None? then existing.access else body.access)
  }

  /** An update, renames included: the old identifier's entry goes, and the new one's too. */
  ghost function UpdateOutcome(s: State, realm: string, uuid: string, body: Client, manageRealm: bool)
    : (r: Result<State, ApiError>)
  {
    var k := (realm, uuid);
    if k !in s.rows then Err(NotFound)
    else if body.access.Some? && body.access != s.rows[k].access && !manageRealm then Err(Forbidden)
    else if Taken(s.rows, realm, body.identifier, Some(s.rows[k].id)) then Err(Conflict)
    else
      var existing := s.rows[k];
      var stored := Invalidated(s.(rows := s.rows[k := UpdatedRow(existing, body)]), realm, existing.id, existing.identifier);
      if body.identifier == existing.identifier then Ok(stored)
      else Ok(stored.(cache := stored.cache - {ClientKey(realm, body.identifier)}))
  }

  function DeleteOutcome(s: State, realm: string, uuid: string): (r: State) {
    var k := (realm, uuid);
    var gone := s.(rows := s.rows - {k}, scopes := s.scopes - {k});
    if k in s.rows then Invalidated(gone, realm, uuid, s.rows[k].identifier) else gone
  }

  function RotateOutcome(s: State, realm: string, uuid: string, secret: string): (r: Result<State, ApiError>) {
    var k := (realm, uuid);
    if k !in s.rows then Err(NotFound)
    else
      var client := s.rows[k].(secret := Some(secret));
      Ok(Invalidated(s.(rows := s.rows[k := client]), realm, client.id, client.identifier))
  }

  /** A scope assignment or unassignment: the assigned ids, and the row with its scope lists. */
  function AssignOutcome(s: State, realm: string, uuid: string, ids: seq<string>, settings: string)
    : (r: Result<State, ApiError>)
  {
    var k := (realm, uuid);
    if k !in s.rows then Err(NotFound)
    else
      var client := s.rows[k].(settings := settings);
      Ok(Invalidated(s.(rows := s.rows[k := client], scopes := s.scopes[k := ids]), realm, client.id, client.identifier))
  }

  function Bump(s: State, realm: string): (r: State) {
    s.(epochs := s.epochs[realm := Epoch(s, realm) + 1])
  }

  /** Storage changes at `k` only, and no entry is kept under the old identifier or the uuid of that row. */
  ghost predicate ChangesAt(s: State, s': State, k: Key) {
    && s'.epochs == s.epochs && s'.cache.Keys <= s.cache.Keys && (forall x :: x in s'.cache ==> s'.cache[x] == s.cache[x])
    && (forall l :: l != k ==> (l in s'.rows <==> l in s.rows) && (l in s.rows ==> s'.rows[l] == s.rows[l]))
    && (forall l :: l != k ==> ScopesOf(s', l) == ScopesOf(s, l))
  }

  lemma RowChangeKeepsCoherent(realms: set<string>, s: State, s': State, k: Key)
    requires Valid(realms, s) && k.0 in realms && ChangesAt(s, s', k) && UuidKey(k.0, k.1) !in s'.cache
    requires ScopesKey(k.0, k.1) !in s'.cache && (k in s.rows ==> ClientKey(k.0, s.rows[k].identifier) !in s'.cache)
    ensures Coherent(realms, s')
  {
    forall r, x | r in realms ensures Fits(s', r, x) {
      assert Fits(s, r, x);
      EntryOutlives(s, s', k, r, x);
    }
  }

  lemma EntryOutlives(s: State, s': State, k: Key, r: string, x: string)
    requires ChangesAt(s, s', k) && Fits(s, r, x)
    requires k in s.rows ==> !IsCurrent(s', k.0, ClientKey(k.0, s.rows[k].identifier)) && !IsCurrent(s', k.0, UuidKey(k.0, k.1))
    requires IsCurrent(s', k.0, ScopesKey(k.0, k.1)) ==> ScopesOf(s', k) == ScopesOf(s, k)
    ensures Fits(s', r, x)
  {
    if IsCurrent(s', r, ClientKey(r, x)) {
      var l :| Owns(s.rows, l, r, x) && s.rows[l] == s.cache[ClientKey(r, x)].client;
      assert l != k;
      assert Owns(s'.rows, l, r, x);
    }
    if IsCurrent(s', r, UuidKey(r, x)) {
      assert (r, x) != k;
    }
    if IsCurrent(s', r, ScopesKey(r, x)) {
      assert ScopesOf(s', (r, x)) == ScopesOf(s, (r, x));
    }
  }

  lemma PutKeepsUnique(rows: Rows, k: Key, client: Client)
    requires UniqueIdentifiers(rows) && forall l :: l != k ==> !Owns(rows, l, k.0, client.identifier)
    ensures UniqueIdentifiers(rows[k := client])
  {
    var rows' := rows[k := client];
    forall l, m | l in rows' && m in rows' && l.0 == m.0 && rows'[l].identifier == rows'[m].identifier ensures l == m {
      assert l != k ==> !Owns(rows, l, k.0, client.identifier);
      assert m != k ==> !Owns(rows, m, k.0, client.identifier);
    }
  }

  lemma UntakenHasNoOther(s: State, realm: string, uuid: string, identifier: string, l: Key)
    requires l != (realm, uuid) && !Taken(s.rows, realm, identifier, Some(uuid))
    ensures !Owns(s.rows, l, realm, identifier)
  {
  }

  lemma PutKeepsWellStored(s: State, s': State, k: Key, client: Client)
    requires WellStored(s) && s'.rows == s.rows[k := client] && s'.scopes.Keys <= s'.rows.Keys
    requires client.realm == k.0 && client.id == k.1 && forall l :: l != k ==> !Owns(s.rows, l, k.0, client.identifier)
    ensures WellStored(s')
  {
    PutKeepsUnique(s.rows, k, client);
  }

  lemma UpdateKeepsRows(s: State, realm: string, uuid: string, body: Client, manageRealm: bool)
    requires WellStored(s) && UpdateOutcome(s, realm, uuid, body, manageRealm).Ok?
    ensures WellStored(UpdateOutcome(s, realm, uuid, body, manageRealm).value)
  {
    var k, s' := (realm, uuid), UpdateOutcome(s, realm, uuid, body, manageRealm).value;
    assert s.rows[k].id == uuid && s'.rows == s.rows[k := UpdatedRow(s.rows[k], body)] && s'.scopes == s.scopes;
    assert s'.scopes.Keys <= s'.rows.Keys;
    forall l | l != k ensures !Owns(s.rows, l, realm, body.identifier) {
      UntakenHasNoOther(s, realm, uuid, body.identifier, l);
    }
    PutKeepsWellStored(s, s', k, UpdatedRow(s.rows[k], body));
  }

  /** A row stored anew, with what is derived from the old one dropped. */
  lemma StoredAnew(s: State, realm: string, uuid: string, client: Client)
    requires (realm, uuid) in s.rows
    ensures var identifier := s.rows[(realm, uuid)].identifier;
            var s' := Invalidated(s.(rows := s.rows[(realm, uuid) := client]), realm, uuid, identifier);
            && ChangesAt(s, s', (realm, uuid)) && UuidKey(realm, uuid) !in s'.cache && ScopesKey(realm, uuid) !in s'.cache
            && ClientKey(realm, identifier) !in s'.cache
  {
  }

  lemma FewerEntries(s: State, s': State, k: Key, key: string)
    requires ChangesAt(s, s', k)
    ensures ChangesAt(s, s'.(cache := s'.cache - {key}), k)
  {
    var s2 := s'.(cache := s'.cache - {key});
    assert forall l :: ScopesOf(s2, l) == ScopesOf(s', l);
  }

  lemma UpdateChangesAt(s: State, realm: string, uuid: string, body: Client, manageRealm: bool)
    requires WellStored(s) && UpdateOutcome(s, realm, uuid, body, manageRealm).Ok?
    ensures var s' := UpdateOutcome(s, realm, uuid, body, manageRealm).value;
            && ChangesAt(s, s', (realm, uuid)) && UuidKey(realm, uuid) !in s'.cache && ScopesKey(realm, uuid) !in s'.cache
            && ClientKey(realm, s.rows[(realm, uuid)].identifier) !in s'.cache
  {
    var existing := s.rows[(realm, uuid)];
    var row := UpdatedRow(existing, body);
    assert existing.id == uuid;
    StoredAnew(s, realm, uuid, row);
    FewerEntries(s, Invalidated(s.(rows := s.rows[(realm, uuid) := row]), realm, uuid, existing.identifier), (realm, uuid),
                 ClientKey(realm, body.identifier));
  }

  lemma UpdateKeepsValid(realms: set<string>, s: State, realm: string, uuid: string, body: Client, manageRealm: bool)
    requires Valid(realms, s) && realm in realms && UpdateOutcome(s, realm, uuid, body, manageRealm).Ok?
    ensures Valid(realms, UpdateOutcome(s, realm, uuid, body, manageRealm).value)
  {
    UpdateKeepsRows(s, realm, uuid, body, manageRealm);
    UpdateChangesAt(s, realm, uuid, body, manageRealm);
    RowChangeKeepsCoherent(realms, s, UpdateOutcome(s, realm, uuid, body, manageRealm).value, (realm, uuid));
  }

  lemma DeleteChangesAt(s: State, realm: string, uuid: string)
    requires WellStored(s) && (realm, uuid) in s.rows
    ensures var s' := DeleteOutcome(s, realm, uuid);
            && WellStored(s') && ChangesAt(s, s', (realm, uuid))
            && UuidKey(realm, uuid) !in s'.cache && ScopesKey(realm, uuid) !in s'.cache
            && ClientKey(realm, s.rows[(realm, uuid)].identifier) !in s'.cache
  {
  }

  lemma DeleteKeepsValid(realms: set<string>, s: State, realm: string, uuid: string)
    requires Valid(realms, s) && realm in realms
    ensures Valid(realms, DeleteOutcome(s, realm, uuid))
  {
    if (realm, uuid) in s.rows {
      DeleteChangesAt(s, realm, uuid);
      RowChangeKeepsCoherent(realms, s, DeleteOutcome(s, realm, uuid), (realm, uuid));
    } else {
      assert DeleteOutcome(s, realm, uuid) == s;
    }
  }

  lemma RotateKeepsValid(realms: set<string>, s: State, realm: string, uuid: string, secret: string)
    requires Valid(realms, s) && realm in realms && RotateOutcome(s, realm, uuid, secret).Ok?
    ensures Valid(realms, RotateOutcome(s, realm, uuid, secret).value)
  {
    RowChangeKeepsCoherent(realms, s, RotateOutcome(s, realm, uuid, secret).value, (realm, uuid));
  }

  lemma AssignKeepsValid(realms: set<string>, s: State, realm: string, uuid: string, ids: seq<string>, settings: string)
    requires Valid(realms, s) && realm in realms && AssignOutcome(s, realm, uuid, ids, settings).Ok?
    ensures Valid(realms, AssignOutcome(s, realm, uuid, ids, settings).value)
  {
    RowChangeKeepsCoherent(realms, s, AssignOutcome(s, realm, uuid, ids, settings).value, (realm, uuid));
  }

  lemma BumpKeepsValid(realms: set<string>, s: State, realm: string)
    requires Valid(realms, s)
    ensures Valid(realms, Bump(s, realm))
  {
    var s' := Bump(s, realm);
    forall r, x | r in realms ensures Fits(s', r, x) {
      assert Fits(s, r, x);
    }
  }

  /**
    What a create would leave stale: a current entry of a row it overwrites, or current scope ids for
    the new id, read before it existed, that are not the seeded ones.
   */
  ghost predicate LeavesStale(s: State, k: Key, seeded: seq<string>) {
    || (k in s.rows && (IsCurrent(s, k.0, ClientKey(k.0, s.rows[k].identifier)) || IsCurrent(s, k.0, UuidKey(k.0, k.1))))
    || (IsCurrent(s, k.0, ScopesKey(k.0, k.1)) && ScopesOf(s, k) != seeded)
  }

  lemma CreateKeepsRows(s: State, realm: string, client: Client, seeded: seq<string>, manageRealm: bool)
    requires WellStored(s) && CreateOutcome(s, realm, client, seeded, manageRealm).Ok?
    ensures WellStored(CreateOutcome(s, realm, client, seeded, manageRealm).value)
    ensures ChangesAt(s, CreateOutcome(s, realm, client, seeded, manageRealm).value, (realm, client.id))
  {
    PutKeepsUnique(s.rows, (realm, client.id), client.(realm := realm));
  }

  lemma NothingStaleKeepsCoherence(realms: set<string>, s: State, s': State, k: Key)
    requires Valid(realms, s) && k.0 in realms && ChangesAt(s, s', k) && s'.cache == s.cache && k in s'.scopes
    requires !LeavesStale(s, k, s'.scopes[k])
    ensures Coherent(realms, s')
  {
    forall r, x | r in realms ensures Fits(s', r, x) {
      assert Fits(s, r, x);
      EntryOutlives(s, s', k, r, x);
    }
  }

  /** A create does not touch the cache. It keeps coherence exactly when it leaves nothing stale. */
  lemma CreateValidIff(realms: set<string>, s: State, realm: string, client: Client, seeded: seq<string>, manageRealm: bool)
    requires Valid(realms, s) && realm in realms && CreateOutcome(s, realm, client, seeded, manageRealm).Ok?
    ensures Valid(realms, CreateOutcome(s, realm, client, seeded, manageRealm).value) <==>
            !LeavesStale(s, (realm, client.id), seeded)
  {
    var s', k := CreateOutcome(s, realm, client, seeded, manageRealm).value, (realm, client.id);
    CreateKeepsRows(s, realm, client, seeded, manageRealm);
    if LeavesStale(s, k, seeded) {
      assert k in s.rows ==> !Owns(s.rows, k, realm, client.identifier);
      StaleBreaksCoherence(realms, s, s', k);
    } else {
      NothingStaleKeepsCoherence(realms, s, s', k);
    }
  }

  lemma StaleBreaksCoherence(realms: set<string>, s: State, s': State, k: Key)
    requires Valid(realms, s) && k.0 in realms && ChangesAt(s, s', k) && s'.cache == s.cache
    requires k in s'.rows && k in s'.scopes && (k in s.rows ==> s'.rows[k].identifier != s.rows[k].identifier)
    requires LeavesStale(s, k, s'.scopes[k])
    ensures !Coherent(realms, s')
  {
    assert Fits(s, k.0, k.1);
    if k in s.rows {
      var identifier := s.rows[k].identifier;
      assert Fits(s, k.0, identifier);
      assert forall l :: !Owns(s'.rows, l, k.0, identifier);
      assert !Fits(s', k.0, identifier) || !Fits(s', k.0, k.1);
    } else {
      assert !Fits(s', k.0, k.1);
    }
  }

  /** An overwrite of a cached row leaves reads answering with the client that is gone. */
  lemma OverwriteServesGoneClient(realm: string, before: Client, after: Client, seeded: seq<string>)
    requires before.realm == realm && before.id == after.id && before.identifier != after.identifier && after.access.None?
    ensures var s := State(map[(realm, before.id) := before], map[], map[], map[], map[]);
            var o := CreateOutcome(ReadClient(s, realm, before.identifier).1, realm, after, seeded, false);
            && o.Ok? && Stored(o.value.rows, realm, before.identifier).None?
            && ReadClient(o.value, realm, before.identifier).0 == Some(before)
  {
    var s := State(map[(realm, before.id) := before], map[], map[], map[], map[]);
    assert Owns(s.rows, (realm, before.id), realm, before.identifier);
    var s1 := ReadClient(s, realm, before.identifier).1;
    assert forall k :: !Owns(s1.rows, k, realm, after.identifier);
  }

  /**
    With one realm id nested in the other, the client that a read of the outer realm caches is what
    the next read of the inner realm returns, whatever the inner realm stores.
   */
  lemma NestedRealmsMix(s: State, a: string, b: string, identifier: string)
    requires Nested(a, b) && s.cache == map[] && Epoch(s, a) == Epoch(s, b)
    requires Stored(s.rows, a, b[|a| + 1..] + ":" + identifier).Some?
    ensures var outer := b[|a| + 1..] + ":" + identifier;
            ReadClient(ReadClient(s, a, outer).1, b, identifier).0 == Stored(s.rows, a, outer)
  {
    NestedCollides(a, b, identifier);
  }
}
