/** Runs of client operations: when the cache stays coherent, who becomes an admin client, what a client keeps. */
module ClientRuns {
  import opened Names
  import opened Prelude
  import opened ClientCache

  datatype Op =
    | Create(realm: string, client: Client, seeded: seq<string>, manageRealm: bool)
    | Update(realm: string, uuid: string, body: Client, manageRealm: bool)
    | Delete(realm: string, uuid: string)
    | Rotate(realm: string, uuid: string, secret: string)
    | Assign(realm: string, uuid: string, ids: seq<string>, settings: string)
    | FillClient(realm: string, identifier: string)
    | FillIdentifier(realm: string, uuid: string)
    | FillScopes(realm: string, uuid: string)
    | BumpEpoch(realm: string)

  function OkOr(r: Result<State, ApiError>, s: State): (x: State) {
    if r.Ok? then r.value else s
  }

  ghost function Next(s: State, op: Op): (r: State) {
    match op
    case Create(realm, client, seeded, manageRealm) => OkOr(CreateOutcome(s, realm, client, seeded, manageRealm), s)
    case Update(realm, uuid, body, manageRealm) => OkOr(UpdateOutcome(s, realm, uuid, body, manageRealm), s)
    case Delete(realm, uuid) => DeleteOutcome(s, realm, uuid)
    case Rotate(realm, uuid, secret) => OkOr(RotateOutcome(s, realm, uuid, secret), s)
    case Assign(realm, uuid, ids, settings) => OkOr(AssignOutcome(s, realm, uuid, ids, settings), s)
    case FillClient(realm, identifier) => ReadClient(s, realm, identifier).1
    case FillIdentifier(realm, uuid) => ReadIdentifier(s, realm, uuid).1
    case FillScopes(realm, uuid) => ReadScopes(s, realm, uuid).1
    case BumpEpoch(realm) => Bump(s, realm)
  }

  ghost function Run(s: State, ops: seq<Op>): (r: State) {
    if ops == [] then s else Next(Run(s, ops[..|ops| - 1]), ops[|ops| - 1])
  }

  /** The row at `k` after one step. */
  ghost function RowAfter(s: State, op: Op, k: Key): (r: Option<Client>) {
    match op
    case Create(realm, client, seeded, manageRealm) =>
      if k == (realm, client.id) && CreateOutcome(s, realm, client, seeded, manageRealm).Ok? then Some(client.(realm := realm))
      else Get(s.rows, k)
    case Update(realm, uuid, body, manageRealm) =>
      if k == (realm, uuid) && UpdateOutcome(s, realm, uuid, body, manageRealm).Ok? then Some(UpdatedRow(s.rows[k], body))
      else Get(s.rows, k)
    case Delete(realm, uuid) => if k == (realm, uuid) then None else Get(s.rows, k)
    case Rotate(realm, uuid, secret) =>
      if k == (realm, uuid) && k in s.rows then Some(s.rows[k].(secret := Some(secret))) else Get(s.rows, k)
    case Assign(realm, uuid, ids, settings) =>
      if k == (realm, uuid) && k in s.rows then Some(s.rows[k].(settings := settings)) else Get(s.rows, k)
    case _ => Get(s.rows, k)
  }

  lemma RowAfterUpdate(s: State, realm: string, uuid: string, body: Client, manageRealm: bool, k: Key)
    requires UpdateOutcome(s, realm, uuid, body, manageRealm).Ok?
    ensures Get(UpdateOutcome(s, realm, uuid, body, manageRealm).value.rows, k) ==
            if k == (realm, uuid) then Some(UpdatedRow(s.rows[k], body)) else Get(s.rows, k)
  {
  }

  lemma RowAfterIs(s: State, op: Op, k: Key)
    ensures Get(Next(s, op).rows, k) == RowAfter(s, op, k)
  {
    if op.Update? {
      if UpdateOutcome(s, op.realm, op.uuid, op.body, op.manageRealm).Ok? {
        RowAfterUpdate(s, op.realm, op.uuid, op.body, op.manageRealm, k);
      }
    } else if op.Assign? {
    } else if op.Rotate? {
    } else if op.Delete? {
    }
  }

  /** An accepted update stores what the body brings and keeps ids, mappings, and a secret or access attribute it omits. */
  lemma UpdateStores(s: State, realm: string, uuid: string, body: Client, manageRealm: bool)
    requires UpdateOutcome(s, realm, uuid, body, manageRealm).Ok?
    ensures var before, rows := s.rows[(realm, uuid)], UpdateOutcome(s, realm, uuid, body, manageRealm).value.rows;
            && (forall k :: k != (realm, uuid) ==> Get(rows, k) == Get(s.rows, k)) && (realm, uuid) in rows
            && var after := rows[(realm, uuid)];
               && after.identifier == body.identifier && after.enabled == body.enabled && after.settings == body.settings
               && (after.secret == if body.secret.Some? then body.secret else before.secret)
               && (after.access == if body.access.Some? then body.access else before.access)
               && after.id == before.id && after.realm == before.realm && after.mappings == before.mappings
  {
    forall k ensures Get(UpdateOutcome(s, realm, uuid, body, manageRealm).value.rows, k) ==
                     if k == (realm, uuid) then Some(UpdatedRow(s.rows[k], body)) else Get(s.rows, k) {
      RowAfterUpdate(s, realm, uuid, body, manageRealm, k);
    }
    RowAfterUpdate(s, realm, uuid, body, manageRealm, (realm, uuid));
  }

  ghost function At(s: State, ops: seq<Op>, k: nat): (r: State)
    requires k <= |ops|
  {
    Run(s, ops[..k])
  }

  lemma AtNext(s: State, ops: seq<Op>, k: nat)
    requires k < |ops|
    ensures At(s, ops, k + 1) == Next(At(s, ops, k), ops[k])
  {
    assert ops[..k + 1][..k] == ops[..k];
  }

  lemma AtEnds(s: State, ops: seq<Op>)
    ensures At(s, ops, 0) == s && At(s, ops, |ops|) == Run(s, ops)
  {
    assert ops[..0] == [] && ops[..|ops|] == ops;
  }

  // --- Coherence -----------------------------------------------------------

  /** An accepted create that leaves an entry stale. */
  ghost predicate StaleCreate(s: State, op: Op) {
    && op.Create? && CreateOutcome(s, op.realm, op.client, op.seeded, op.manageRealm).Ok?
    && LeavesStale(s, (op.realm, op.client.id), op.seeded)
  }

  /** A read whose entry another realm takes for its own, or may take in a later epoch. */
  ghost predicate Misleads(realms: set<string>, s: State, op: Op) {
    match op
    case FillClient(realm, identifier) => MisleadsClient(realms, s, realm, identifier)
    case FillIdentifier(realm, uuid) => MisleadsIdentifier(realms, s, realm, uuid)
    case FillScopes(realm, uuid) => MisleadsScopes(realms, s, realm, uuid)
    case _ => false
  }

  ghost predicate Spoils(realms: set<string>, s: State, op: Op) {
    StaleCreate(s, op) || Misleads(realms, s, op)
  }

  lemma SeparatedSpoilsIff(realms: set<string>, s: State, op: Op)
    requires Separated(realms) && op.realm in realms
    ensures Spoils(realms, s, op) <==> StaleCreate(s, op)
  {
    match op
    case FillClient(realm, identifier) => SeparatedNeverMisleads(realms, s, realm, identifier);
    case FillIdentifier(realm, uuid) => SeparatedNeverMisleads(realms, s, realm, uuid);
    case FillScopes(realm, uuid) => SeparatedNeverMisleads(realms, s, realm, uuid);
    case _ =>
  }

  lemma NextValidIff(realms: set<string>, s: State, op: Op)
    requires Valid(realms, s) && op.realm in realms
    ensures Valid(realms, Next(s, op)) <==> !Spoils(realms, s, op)
  {
    match op
    case Create(realm, client, seeded, manageRealm) =>
      if CreateOutcome(s, realm, client, seeded, manageRealm).Ok? {
        CreateValidIff(realms, s, realm, client, seeded, manageRealm);
      }
    case Update(realm, uuid, body, manageRealm) =>
      if UpdateOutcome(s, realm, uuid, body, manageRealm).Ok? {
        UpdateKeepsValid(realms, s, realm, uuid, body, manageRealm);
      }
    case Delete(realm, uuid) => DeleteKeepsValid(realms, s, realm, uuid);
    case Rotate(realm, uuid, secret) =>
      if (realm, uuid) in s.rows {
        RotateKeepsValid(realms, s, realm, uuid, secret);
      }
    case Assign(realm, uuid, ids, settings) =>
      if (realm, uuid) in s.rows {
        AssignKeepsValid(realms, s, realm, uuid, ids, settings);
      }
    case FillClient(realm, identifier) => ReadClientIsTransparent(realms, s, realm, identifier);
    case FillIdentifier(realm, uuid) => ReadIdentifierIsTransparent(realms, s, realm, uuid);
    case FillScopes(realm, uuid) => ReadScopesIsTransparent(realms, s, realm, uuid);
    case BumpEpoch(realm) => BumpKeepsValid(realms, s, realm);
  }

  ghost predicate InRealms(realms: set<string>, ops: seq<Op>) {
    forall op :: op in ops ==> op.realm in realms
  }

  lemma ValidNext(realms: set<string>, s: State, ops: seq<Op>, k: nat)
    requires InRealms(realms, ops) && k < |ops| && Valid(realms, At(s, ops, k))
    ensures Valid(realms, At(s, ops, k + 1)) <==> !Spoils(realms, At(s, ops, k), ops[k])
  {
    AtNext(s, ops, k);
    NextValidIff(realms, At(s, ops, k), ops[k]);
  }

  lemma {:induction false} ValidUpTo(realms: set<string>, s: State, ops: seq<Op>, k: nat)
    requires InRealms(realms, ops) && Valid(realms, s) && k <= |ops|
    requires forall i: nat :: i < k ==> !Spoils(realms, At(s, ops, i), ops[i])
    ensures Valid(realms, At(s, ops, k))
  {
    if k == 0 {
      AtEnds(s, ops);
    } else {
      ValidUpTo(realms, s, ops, k - 1);
      ValidNext(realms, s, ops, k - 1);
    }
  }

  /**
    Identifiers stay unique and the cache coherent through the whole run exactly when they are at the
    start, no accepted create leaves an entry stale and no read misleads another realm.
   */
  lemma RunValidIff(realms: set<string>, s: State, ops: seq<Op>)
    requires InRealms(realms, ops)
    ensures (forall k: nat :: k <= |ops| ==> Valid(realms, At(s, ops, k))) <==>
            Valid(realms, s) && forall k: nat :: k < |ops| ==> !Spoils(realms, At(s, ops, k), ops[k])
  {
    AtEnds(s, ops);
    if forall k: nat :: k <= |ops| ==> Valid(realms, At(s, ops, k)) {
      assert Valid(realms, At(s, ops, 0));
      forall k: nat | k < |ops| ensures !Spoils(realms, At(s, ops, k), ops[k]) {
        assert Valid(realms, At(s, ops, k)) && Valid(realms, At(s, ops, k + 1));
        ValidNext(realms, s, ops, k);
      }
    }
    if Valid(realms, s) && forall k: nat :: k < |ops| ==> !Spoils(realms, At(s, ops, k), ops[k]) {
      forall k: nat | k <= |ops| ensures Valid(realms, At(s, ops, k)) {
        ValidUpTo(realms, s, ops, k);
      }
    }
  }

  /** After any such run, reading through the cache is reading storage. */
  lemma ReadsAreTransparent(realms: set<string>, s: State, ops: seq<Op>, realm: string, x: string)
    requires InRealms(realms, ops) && Valid(realms, s) && realm in realms
    requires forall k: nat :: k < |ops| ==> !Spoils(realms, At(s, ops, k), ops[k])
    ensures var end := Run(s, ops);
            && ReadClient(end, realm, x).0 == Stored(end.rows, realm, x)
            && ReadIdentifier(end, realm, x).0 == Identifier(end, (realm, x))
            && ReadScopes(end, realm, x).0 == ScopesOf(end, (realm, x))
  {
    AtEnds(s, ops);
    ValidUpTo(realms, s, ops, |ops|);
    ReadClientIsTransparent(realms, Run(s, ops), realm, x);
    ReadIdentifierIsTransparent(realms, Run(s, ops), realm, x);
    ReadScopesIsTransparent(realms, Run(s, ops), realm, x);
  }

  // --- Generations ---------------------------------------------------------

  /** Counters never go back. */
  lemma NextRaises(s: State, op: Op, realm: string, identifier: string)
    ensures Generation(s, realm, identifier) <= Generation(Next(s, op), realm, identifier)
  {
  }

  lemma {:induction false} RunRaises(s: State, ops: seq<Op>, realm: string, identifier: string)
    ensures Generation(s, realm, identifier) <= Generation(Run(s, ops), realm, identifier)
  {
    if ops != [] {
      RunRaises(s, ops[..|ops| - 1], realm, identifier);
      NextRaises(Run(s, ops[..|ops| - 1]), ops[|ops| - 1], realm, identifier);
    }
  }

  /** A changed or dropped row moves on the generation of the identifier it had. */
  lemma ChangeMovesGeneration(s: State, op: Op, k: Key)
    requires Keyed(s.rows) && k in s.rows && !op.Create? && (k !in Next(s, op).rows || Next(s, op).rows[k] != s.rows[k])
    ensures Generation(s, k.0, s.rows[k].identifier) < Generation(Next(s, op), k.0, s.rows[k].identifier)
  {
    RowAfterIs(s, op, k);
  }

  /** So what was stamped with the generation before the change is not taken for current after any later run. */
  lemma StampsExpire(s: State, op: Op, k: Key, later: seq<Op>)
    requires Keyed(s.rows) && k in s.rows && !op.Create? && (k !in Next(s, op).rows || Next(s, op).rows[k] != s.rows[k])
    ensures Generation(Run(Next(s, op), later), k.0, s.rows[k].identifier) > Generation(s, k.0, s.rows[k].identifier)
  {
    ChangeMovesGeneration(s, op, k);
    RunRaises(Next(s, op), later, k.0, s.rows[k].identifier);
  }

  // --- Admin clients -------------------------------------------------------

  predicate AdminAccess(c: Client) {
    AdminApiAccess(c.enabled, c.identifier, c.access)
  }

  /** The clients whose tokens the admin API takes. */
  ghost function AdminClients(rows: Rows): (r: set<Key>) {
    set k | k in rows && AdminAccess(rows[k])
  }

  predicate ByRealmManager(op: Op) {
    (op.Create? || op.Update?) && op.manageRealm
  }

  /**
    An accepted create or update leaves the row enabled and called `admin-cli`, or an update leaves it
    enabled where it already carried the access attribute.
   */
  ghost predicate Promotes(s: State, op: Op, k: Key) {
    match op
    case Create(realm, client, seeded, manageRealm) =>
      && k == (realm, client.id) && CreateOutcome(s, realm, client, seeded, manageRealm).Ok?
      && client.enabled && client.identifier == "admin-cli"
    case Update(realm, uuid, body, manageRealm) =>
      && k == (realm, uuid) && UpdateOutcome(s, realm, uuid, body, manageRealm).Ok?
      && body.enabled && (body.identifier == "admin-cli" || s.rows[k].access == Some("true"))
    case _ => false
  }

  /** Without manage-realm a step makes a client an admin client exactly when it promotes it by name or enables it. */
  lemma NextAdminIff(s: State, op: Op, k: Key)
    requires !ByRealmManager(op)
    ensures k in AdminClients(Next(s, op).rows) <==>
            Promotes(s, op, k) || (k in AdminClients(s.rows) && !Touches(s, op, k))
  {
    RowAfterIs(s, op, k);
  }

  /** The step stores the row anew or drops it. */
  ghost predicate Touches(s: State, op: Op, k: Key) {
    match op
    case Create(realm, client, seeded, manageRealm) =>
      k == (realm, client.id) && CreateOutcome(s, realm, client, seeded, manageRealm).Ok?
    case Update(realm, uuid, body, manageRealm) => k == (realm, uuid) && UpdateOutcome(s, realm, uuid, body, manageRealm).Ok?
    case Delete(realm, uuid) => k == (realm, uuid)
    case _ => false
  }

  ghost predicate AdminsWithin(start: State, s: State) {
    AdminClients(s.rows) <= AdminClients(start.rows)
  }

  ghost predicate PromotesOutsider(start: State, s: State, op: Op) {
    exists k :: Promotes(s, op, k) && k !in AdminClients(start.rows)
  }

  lemma AdminsNext(start: State, s: State, ops: seq<Op>, i: nat)
    requires i < |ops| && !ByRealmManager(ops[i]) && AdminsWithin(start, At(s, ops, i))
    ensures AdminsWithin(start, At(s, ops, i + 1)) <==> !PromotesOutsider(start, At(s, ops, i), ops[i])
  {
    var before := At(s, ops, i);
    AtNext(s, ops, i);
    forall k ensures k in AdminClients(Next(before, ops[i]).rows) <==>
                     Promotes(before, ops[i], k) || (k in AdminClients(before.rows) && !Touches(before, ops[i], k)) {
      NextAdminIff(before, ops[i], k);
    }
    if k :| Promotes(before, ops[i], k) && k !in AdminClients(start.rows) {
      assert k in AdminClients(At(s, ops, i + 1).rows);
    }
  }

  lemma {:induction false} AdminsUpTo(s: State, ops: seq<Op>, i: nat)
    requires i <= |ops| && forall op :: op in ops ==> !ByRealmManager(op)
    requires forall j: nat :: j < i ==> !PromotesOutsider(s, At(s, ops, j), ops[j])
    ensures AdminsWithin(s, At(s, ops, i))
  {
    if i == 0 {
      AtEnds(s, ops);
    } else {
      AdminsUpTo(s, ops, i - 1);
      AdminsNext(s, s, ops, i - 1);
    }
  }

  /** A run without manage-realm makes no new admin client exactly when none of its steps promotes one. */
  lemma RunAdminIff(s: State, ops: seq<Op>)
    requires forall op :: op in ops ==> !ByRealmManager(op)
    ensures (forall i: nat :: i <= |ops| ==> AdminsWithin(s, At(s, ops, i))) <==>
            forall i: nat :: i < |ops| ==> !PromotesOutsider(s, At(s, ops, i), ops[i])
  {
    if forall i: nat :: i <= |ops| ==> AdminsWithin(s, At(s, ops, i)) {
      forall i: nat | i < |ops| ensures !PromotesOutsider(s, At(s, ops, i), ops[i]) {
        assert AdminsWithin(s, At(s, ops, i)) && AdminsWithin(s, At(s, ops, i + 1));
        AdminsNext(s, s, ops, i);
      }
    }
    if forall i: nat :: i < |ops| ==> !PromotesOutsider(s, At(s, ops, i), ops[i]) {
      forall i: nat | i <= |ops| ensures AdminsWithin(s, At(s, ops, i)) {
        AdminsUpTo(s, ops, i);
      }
    }
  }

  /** Such a step: once the name `admin-cli` is free, another client can be given it. */
  lemma RenameMakesAdmin(realm: string, cli: Client, app: Client, body: Client)
    requires cli.id != app.id && cli.realm == app.realm == realm && cli.identifier == "admin-cli" && app.identifier != "admin-cli"
    requires app.access.None? && body.access.None? && body.enabled && body.identifier == "admin-cli"
    ensures var s := State(map[(realm, cli.id) := cli, (realm, app.id) := app], map[], map[], map[], map[]);
            var end := Run(s, [Delete(realm, cli.id), Update(realm, app.id, body, false)]);
            (realm, app.id) in AdminClients(end.rows) && (realm, app.id) !in AdminClients(s.rows)
  {
    var s := State(map[(realm, cli.id) := cli, (realm, app.id) := app], map[], map[], map[], map[]);
    var freed := Next(s, Delete(realm, cli.id));
    var ops := [Delete(realm, cli.id), Update(realm, app.id, body, false)];
    assert ops[..1] == [Delete(realm, cli.id)] && ops[..1][..0] == [];
    assert Run(s, ops[..1]) == Next(Run(s, []), Delete(realm, cli.id)) == freed;
    assert freed.rows == map[(realm, app.id) := app];
    assert !Taken(freed.rows, realm, "admin-cli", Some(app.id));
    NextAdminIff(freed, ops[1], (realm, app.id));
  }

  /** The clients that carry the access attribute. */
  ghost function AccessHolders(rows: Rows): (r: set<Key>) {
    set k | k in rows && rows[k].access == Some("true")
  }

  lemma NextGrantsNoAccess(s: State, op: Op)
    requires !ByRealmManager(op)
    ensures AccessHolders(Next(s, op).rows) <= AccessHolders(s.rows)
    ensures !op.Create? && !op.Delete? ==> AccessHolders(Next(s, op).rows) == AccessHolders(s.rows)
  {
    forall k ensures Get(Next(s, op).rows, k) == RowAfter(s, op, k) {
      RowAfterIs(s, op, k);
    }
    forall k | k in AccessHolders(Next(s, op).rows) ensures k in AccessHolders(s.rows) {
      assert Get(Next(s, op).rows, k) == RowAfter(s, op, k);
    }
    if !op.Create? && !op.Delete? {
      forall k | k in AccessHolders(s.rows) ensures k in AccessHolders(Next(s, op).rows) {
        assert Get(Next(s, op).rows, k) == RowAfter(s, op, k);
      }
    }
  }

  /** The attribute itself is never granted without manage-realm. */
  lemma {:induction false} RunGrantsNoAccess(s: State, ops: seq<Op>)
    requires forall op :: op in ops ==> !ByRealmManager(op)
    ensures AccessHolders(Run(s, ops).rows) <= AccessHolders(s.rows)
  {
    if ops != [] {
      RunGrantsNoAccess(s, ops[..|ops| - 1]);
      NextGrantsNoAccess(Run(s, ops[..|ops| - 1]), ops[|ops| - 1]);
    }
  }

  // --- What a client keeps -------------------------------------------------

  /** The operation replaces or drops the row as a whole. */
  predicate Ends(op: Op, k: Key) {
    (op.Create? && (op.realm, op.client.id) == k) || (op.Delete? && (op.realm, op.uuid) == k)
  }

  /** The operation brings a secret for the row. */
  predicate BringsSecret(op: Op, k: Key) {
    (op.Rotate? && (op.realm, op.uuid) == k) || (op.Update? && (op.realm, op.uuid) == k && op.body.secret.Some?)
  }

  ghost predicate Kept(before: Client, after: Client) {
    before.id == after.id && before.realm == after.realm && before.mappings == after.mappings
  }

  lemma NextKeepsClient(s: State, op: Op, k: Key)
    requires k in s.rows && !Ends(op, k)
    ensures var end := Next(s, op).rows;
            k in end && Kept(s.rows[k], end[k]) && (!BringsSecret(op, k) ==> end[k].secret == s.rows[k].secret)
  {
    RowAfterIs(s, op, k);
  }

  /** A client keeps its ids and scope mappings through every run, and its secret unless one is brought. */
  lemma {:induction false} RunKeepsClient(s: State, ops: seq<Op>, k: Key)
    requires k in s.rows && forall op :: op in ops ==> !Ends(op, k)
    ensures var end := Run(s, ops).rows;
            && k in end && Kept(s.rows[k], end[k])
            && ((forall op :: op in ops ==> !BringsSecret(op, k)) ==> end[k].secret == s.rows[k].secret)
  {
    if ops != [] {
      var n := |ops| - 1;
      RunKeepsClient(s, ops[..n], k);
      NextKeepsClient(Run(s, ops[..n]), ops[n], k);
    }
  }

  // --- The store -----------------------------------------------------------

  class Store {
    var rows: Rows
    var scopes: map<Key, seq<string>>
    var cache: map<string, Entry>
    var epochs: map<string, nat>
    var generations: map<string, nat>

    function View(): (s: State)
      reads this
    {
      State(rows, scopes, cache, epochs, generations)
    }

    method FindByIdentifier(realm: string, identifier: string) returns (r: Option<Client>)
      requires UniqueIdentifiers(rows)
      ensures r == Stored(rows, realm, identifier)
    {
      var keys := rows.Keys;
      while keys != {}
        invariant keys <= rows.Keys
        invariant forall k :: k in rows && k !in keys ==> !Owns(rows, k, realm, identifier)
      {
        var k :| k in keys;
        if Owns(rows, k, realm, identifier) {
          return Some(rows[k]);
        }
        keys := keys - {k};
      }
      return None;
    }

    method EnsureClientIdAvailable(realm: string, identifier: string, own: Option<string>) returns (r: Result<bool, ApiError>)
      requires Keyed(rows) && UniqueIdentifiers(rows)
      ensures r == if Taken(rows, realm, identifier, own) then Err(Conflict) else Ok(true)
    {
      var other := FindByIdentifier(realm, identifier);
      if other.Some? && own != Some(other.value.id) {
        return Err(Conflict);
      }
      return Ok(true);
    }

    method InvalidateClientClaims(realm: string, uuid: string, identifier: string)
      modifies this
      ensures View() == Invalidated(old(View()), realm, uuid, identifier)
      ensures cache == old(cache) - {"client:" + realm + ":" + identifier, "client-scopes:" + realm + ":" + uuid,
                                     "client-uuid:" + realm + ":" + uuid}
      ensures var key := "clientgen:" + realm + ":" + identifier;
              generations == old(generations)[key := (if key in old(generations) then old(generations)[key] else 0) + 1]
    {
      var key := GenerationKey(realm, identifier);
      generations := generations[key := (if key in generations then generations[key] else 0) + 1];
      cache := cache - {ClientKey(realm, identifier)};
      cache := cache - {ScopesKey(realm, uuid)};
      cache := cache - {UuidKey(realm, uuid)};
    }

    method CreateClient(realm: string, client: Client, seeded: seq<string>, manageRealm: bool) returns (r: Result<bool, ApiError>)
      requires Keyed(rows) && UniqueIdentifiers(rows)
      modifies this
      ensures var o := CreateOutcome(old(View()), realm, client, seeded, manageRealm);
              View() == OkOr(o, old(View())) && r == if o.Ok? then Ok(true) else Err(o.error)
    {
      if client.access == Some("true") && !manageRealm {
        return Err(Forbidden);
      }
      r := EnsureClientIdAvailable(realm, client.identifier, None);
      if r.Ok? {
        rows := rows[(realm, client.id) := client.(realm := realm)];
        scopes := scopes[(realm, client.id) := seeded];
      }
    }

    method UpdateClient(realm: string, uuid: string, body: Client, manageRealm: bool) returns (r: Result<bool, ApiError>)
      requires Keyed(rows) && UniqueIdentifiers(rows)
      modifies this
      ensures var o := UpdateOutcome(old(View()), realm, uuid, body, manageRealm);
              View() == OkOr(o, old(View())) && r == if o.Ok? then Ok(true) else Err(o.error)
    {
      if (realm, uuid) !in rows {
        return Err(NotFound);
      }
      var existing := rows[(realm, uuid)];
      var updated := body.(id := existing.id, realm := existing.realm);
      if updated.secret.None? {
        updated := updated.(secret := existing.secret);
      }
      if updated.access.Some? {
        if existing.access != updated.access && !manageRealm {
          return Err(Forbidden);
        }
      } else {
        updated := updated.(access := existing.access);
      }
      updated := updated.(mappings := existing.mappings);
      r := EnsureClientIdAvailable(realm, updated.identifier, Some(updated.id));
      if r.Ok? {
        rows := rows[(realm, uuid) := updated];
        InvalidateClientClaims(realm, updated.id, existing.identifier);
        if updated.identifier != existing.identifier {
          cache := cache - {ClientKey(realm, updated.identifier)};
        }
      }
    }

    method DeleteClient(realm: string, uuid: string)
      modifies this
      ensures View() == DeleteOutcome(old(View()), realm, uuid)
    {
      var existing := if (realm, uuid) in rows then Some(rows[(realm, uuid)]) else None;
      rows := rows - {(realm, uuid)};
      scopes := scopes - {(realm, uuid)};
      if existing.Some? {
        InvalidateClientClaims(realm, uuid, existing.value.identifier);
      }
    }

    method RotateClientSecret(realm: string, uuid: string, secret: string) returns (r: Result<string, ApiError>)
      modifies this
      ensures var o := RotateOutcome(old(View()), realm, uuid, secret);
              View() == OkOr(o, old(View())) && r == if o.Ok? then Ok(secret) else Err(o.error)
    {
      if (realm, uuid) !in rows {
        return Err(NotFound);
      }
      var client := rows[(realm, uuid)].(secret := Some(secret));
      rows := rows[(realm, uuid) := client];
      InvalidateClientClaims(realm, client.id, client.identifier);
      return Ok(secret);
    }

    method SetScopes(realm: string, uuid: string, ids: seq<string>, settings: string) returns (r: Result<bool, ApiError>)
      modifies this
      ensures var o := AssignOutcome(old(View()), realm, uuid, ids, settings);
              View() == OkOr(o, old(View())) && r == if o.Ok? then Ok(true) else Err(o.error)
    {
      if (realm, uuid) !in rows {
        return Err(NotFound);
      }
      var client := rows[(realm, uuid)].(settings := settings);
      scopes := scopes[(realm, uuid) := ids];
      rows := rows[(realm, uuid) := client];
      InvalidateClientClaims(realm, client.id, client.identifier);
      return Ok(true);
    }

    method GetClient(realm: string, identifier: string) returns (r: Option<Client>)
      requires UniqueIdentifiers(rows)
      modifies this
      ensures (r, View()) == ReadClient(old(View()), realm, identifier)
    {
      var key := ClientKey(realm, identifier);
      if IsCurrent(View(), realm, key) && cache[key].ClientEntry? {
        return Some(cache[key].client);
      }
      r := FindByIdentifier(realm, identifier);
      if r.Some? {
        cache := cache[key := ClientEntry(r.value, Epoch(View(), realm))];
      }
    }

    method GetIdentifier(realm: string, uuid: string) returns (r: Option<string>)
      modifies this
      ensures (r, View()) == ReadIdentifier(old(View()), realm, uuid)
    {
      var key := UuidKey(realm, uuid);
      if IsCurrent(View(), realm, key) && cache[key].UuidEntry? {
        return Some(cache[key].identifier);
      }
      if (realm, uuid) !in rows {
        return None;
      }
      r := Some(rows[(realm, uuid)].identifier);
      cache := cache[key := UuidEntry(r.value, Epoch(View(), realm))];
    }

    method GetDefaultScopeIds(realm: string, uuid: string) returns (r: seq<string>)
      modifies this
      ensures (r, View()) == ReadScopes(old(View()), realm, uuid)
    {
      var key := ScopesKey(realm, uuid);
      if IsCurrent(View(), realm, key) && cache[key].ScopesEntry? {
        return cache[key].ids;
      }
      r := if (realm, uuid) in scopes then scopes[(realm, uuid)] else [];
      cache := cache[key := ScopesEntry(r, Epoch(View(), realm))];
    }

    method BumpClaimsEpoch(realm: string)
      modifies this
      ensures View() == Bump(old(View()), realm)
    {
      epochs := epochs[realm := (if realm in epochs then epochs[realm] else 0) + 1];
    }
  }
}
