/**
  Requests to the admin gate while the stores change: a request can be accepted under a history of writes
  exactly when there are moments of it, in order, that show what the gate asks for.
 */
module AdminMoments {
  import opened PathRealm
  import opened Prelude
  import opened Interleaving
  import opened AdminGate

  // --- Requests as processes -----------------------------------------------

  datatype Live = Live(req: Request, pc: Pc)

  function Advance(l: Live, db: Db, fails: bool): (r: Live) {
    l.(pc := Step(l.req, l.pc, db, fails))
  }

  function Start(req: Request): (r: Live) {
    Live(req, Begin(req))
  }

  predicate Dead(l: Live) {
    l.pc.Rejected?
  }

  lemma FailuresAreFatal()
    ensures Fatal(Advance, Dead)
  {
  }

  /** Some run over this history, alone or among others, accepts the request. */
  ghost predicate CanPass(req: Request, dbs: seq<Db>)
    requires dbs != []
  {
    exists events :: Becomes(Advance, Start(req), Live(req, Accepted), dbs, events)
  }

  /** Its reads, at some moments of the history in order, let the request through. */
  ghost predicate Passes(req: Request, dbs: seq<Db>) {
    Leads(Advance, Start(req), dbs, Live(req, Accepted))
  }

  lemma PassesIff(req: Request, dbs: seq<Db>)
    requires dbs != []
    ensures CanPass(req, dbs) <==> Passes(req, dbs)
  {
    FailuresAreFatal();
    InterleavingExact(Advance, Dead, Start(req), Live(req, Accepted), dbs);
  }

  // --- What the moments show -----------------------------------------------

  datatype Moments = Moments(token: nat, realm: nat, client: nat, owner: nat, user: nat, path: nat)

  ghost predicate InOrder(m: Moments, n: nat) {
    m.token <= m.realm <= m.client <= m.owner <= m.user <= m.path < n
  }

  ghost predicate TokenShown(req: Request, db: Db) {
    !req.token.stepUp && !req.token.bound && req.token.raw !in db.revoked
  }

  ghost predicate RealmShown(req: Request, realm: Realm, db: Db) {
    req.token.realm.Some? && Get(db.realms, req.token.realm.value) == Some(realm) && InForce(realm, req.token)
  }

  ghost predicate ClientShown(req: Request, realm: Realm, db: Db) {
    exists c :: ClientOf(db, realm.id, req.token, c) && Trusted(c)
  }

  ghost predicate OwnerAt(req: Request, realmId: string, db: Db, c: Client) {
    ClientOf(db, realmId, req.token, c) && c.serviceAccounts
  }

  ghost predicate UserAt(req: Request, realmId: string, db: Db, c: Client) {
    req.token.sub == "service-account-" + c.id && SubjectIsOwn(db, realmId, req.token, c)
  }

  ghost predicate SessionAt(req: Request, realmId: string, db: Db) {
    req.token.sid.None? || (realmId, req.token.sid.value) in db.sessions || IssuedTo(req.token, req.token.sub)
  }

  /** No session is asked for or it is there; or the token's client has service accounts and then its user is the subject. */
  ghost predicate SessionShown(req: Request, realm: Realm, owner: Db, user: Db) {
    || SessionAt(req, realm.id, user)
    || exists c :: OwnerAt(req, realm.id, owner, c) && UserAt(req, realm.id, user, c)
  }

  ghost predicate PathShown(req: Request, realm: Realm, db: Db) {
    match RealmOf(req.path)
    case Err(_) => false
    case Ok(None) => realm.name == Ascii("master") || ServerPath(req)
    case Ok(Some(name)) =>
      || realm.name == name == Ascii("master")
      || name !in db.realms
      || ((realm.name == Ascii("master") || Some(db.realms[name].name) == req.token.realm) && InForce(db.realms[name], req.token))
  }

  /** Six moments in order: the token not revoked, its realm not cut off, its client an admin client, the session, the path. */
  ghost predicate Shows(req: Request, dbs: seq<Db>, m: Moments, realm: Realm)
    requires InOrder(m, |dbs|)
  {
    && TokenShown(req, dbs[m.token]) && RealmShown(req, realm, dbs[m.realm]) && ClientShown(req, realm, dbs[m.client])
    && SessionShown(req, realm, dbs[m.owner], dbs[m.user]) && PathShown(req, realm, dbs[m.path])
  }

  ghost predicate Admits(req: Request, dbs: seq<Db>) {
    exists m, realm :: InOrder(m, |dbs|) && Shows(req, dbs, m, realm)
  }

  // --- From a run to its moments -------------------------------------------

  /** The first moments, as far as the request has come by moment `k`; the others are still to be chosen. */
  ghost predicate SeenSo(req: Request, dbs: seq<Db>, pc: Pc, m: Moments, k: nat)
    requires k < |dbs|
  {
    match pc
    case ReadRevoked => !req.token.stepUp && !req.token.bound
    case ReadRealm => m.token <= k && TokenShown(req, dbs[m.token])
    case ReadClient(realm) => m.token <= m.realm <= k && TokenShown(req, dbs[m.token]) && RealmShown(req, realm, dbs[m.realm])
    case ReadSession(realm) => SeenClient(req, dbs, realm, m, k)
    case ReadOwner(realm) => SeenClient(req, dbs, realm, m, k)
    case ReadServiceUser(realm, c) =>
      SeenClient(req, dbs, realm, m, m.owner) && m.owner <= k && OwnerAt(req, realm.id, dbs[m.owner], c)
    case ReadPathRealm(realm, name) => SeenSession(req, dbs, realm, m, k) && Bind(req, realm) == pc
    case Accepted => Admits(req, dbs)
    case Rejected(_) => true
  }

  ghost predicate SeenClient(req: Request, dbs: seq<Db>, realm: Realm, m: Moments, k: nat) {
    && m.token <= m.realm <= m.client <= k < |dbs|
    && TokenShown(req, dbs[m.token]) && RealmShown(req, realm, dbs[m.realm]) && ClientShown(req, realm, dbs[m.client])
  }

  ghost predicate SeenSession(req: Request, dbs: seq<Db>, realm: Realm, m: Moments, k: nat) {
    && SeenClient(req, dbs, realm, m, m.owner) && m.owner <= m.user <= k < |dbs|
    && SessionShown(req, realm, dbs[m.owner], dbs[m.user])
  }

  ghost predicate Seen(req: Request, dbs: seq<Db>, pc: Pc, k: nat)
    requires k < |dbs|
  {
    exists m :: SeenSo(req, dbs, pc, m, k)
  }

  /** Binding at the moment the session part is done. */
  lemma BindSeen(req: Request, dbs: seq<Db>, realm: Realm, m: Moments, k: nat)
    requires SeenSession(req, dbs, realm, m, k)
    ensures Seen(req, dbs, Bind(req, realm), k)
  {
    var pc := Bind(req, realm);
    MetadataIsServerPath(req);
    if pc.Accepted? {
      var m' := m.(path := k);
      assert InOrder(m', |dbs|) && Shows(req, dbs, m', realm);
    }
    assert SeenSo(req, dbs, pc, m, k);
  }

  lemma EarlyStepSeen(req: Request, dbs: seq<Db>, pc: Pc, m: Moments, j: nat, k: nat)
    requires j <= k < |dbs| && SeenSo(req, dbs, pc, m, j) && (pc.ReadRevoked? || pc.ReadRealm?)
    ensures Seen(req, dbs, Step(req, pc, dbs[k], false), k)
  {
    var m' := if pc.ReadRevoked? then m.(token := k) else m.(realm := k);
    assert SeenSo(req, dbs, Step(req, pc, dbs[k], false), m', k);
  }

  lemma ClientStepSeen(req: Request, dbs: seq<Db>, realm: Realm, m: Moments, j: nat, k: nat)
    requires j <= k < |dbs| && SeenSo(req, dbs, ReadClient(realm), m, j)
    ensures Seen(req, dbs, Step(req, ReadClient(realm), dbs[k], false), k)
  {
    var m' := m.(client := k, owner := k, user := k);
    ClientIsFound(dbs[k], realm.id, req.token);
    if ClientShown(req, realm, dbs[k]) {
      assert SeenClient(req, dbs, realm, m', k);
      if req.token.sid.None? {
        BindSeen(req, dbs, realm, m', k);
      } else {
        assert SeenSo(req, dbs, ReadSession(realm), m', k);
      }
    } else {
      var c := Find(dbs[k], realm.id, req.token);
      assert c.None? || !Trusted(c.value);
      assert SeenSo(req, dbs, Rejected(Forbidden), m', k);
    }
  }

  lemma SessionStepSeen(req: Request, dbs: seq<Db>, realm: Realm, m: Moments, j: nat, k: nat)
    requires j <= k < |dbs| && SeenSo(req, dbs, ReadSession(realm), m, j)
    ensures Seen(req, dbs, Step(req, ReadSession(realm), dbs[k], false), k)
  {
    ClientIsFound(dbs[k], realm.id, req.token);
    if SessionAt(req, realm.id, dbs[k]) {
      BindSeen(req, dbs, realm, m.(owner := k, user := k), k);
    } else {
      assert SeenSo(req, dbs, ReadOwner(realm), m, k);
    }
  }

  lemma OwnerStepSeen(req: Request, dbs: seq<Db>, realm: Realm, m: Moments, j: nat, k: nat)
    requires j <= k < |dbs| && SeenSo(req, dbs, ReadOwner(realm), m, j)
    ensures Seen(req, dbs, Step(req, ReadOwner(realm), dbs[k], false), k)
  {
    ClientIsFound(dbs[k], realm.id, req.token);
    assert SeenSo(req, dbs, Step(req, ReadOwner(realm), dbs[k], false), m.(owner := k), k);
  }

  lemma UserStepSeen(req: Request, dbs: seq<Db>, realm: Realm, c: Client, m: Moments, j: nat, k: nat)
    requires j <= k < |dbs| && SeenSo(req, dbs, ReadServiceUser(realm, c), m, j)
    ensures Seen(req, dbs, Step(req, ReadServiceUser(realm, c), dbs[k], false), k)
  {
    var user := Get(dbs[k].users, (realm.id, ServiceUserId(c)));
    if user.Some? && Linked(c, user.value) && user.value.id == req.token.sub {
      assert UserAt(req, realm.id, dbs[k], c);
      BindSeen(req, dbs, realm, m.(user := k), k);
    } else {
      assert SeenSo(req, dbs, Step(req, ReadServiceUser(realm, c), dbs[k], false), m, k);
    }
  }

  lemma PathStepSeen(req: Request, dbs: seq<Db>, realm: Realm, name: RealmName, m: Moments, j: nat, k: nat)
    requires j <= k < |dbs| && SeenSo(req, dbs, ReadPathRealm(realm, name), m, j)
    ensures Seen(req, dbs, Step(req, ReadPathRealm(realm, name), dbs[k], false), k)
  {
    var pc, m' := Step(req, ReadPathRealm(realm, name), dbs[k], false), m.(path := k);
    if pc.Accepted? {
      assert InOrder(m', |dbs|) && Shows(req, dbs, m', realm);
    }
    assert SeenSo(req, dbs, pc, m, k);
  }

  lemma StepSeen(req: Request, dbs: seq<Db>, pc: Pc, j: nat, k: nat)
    requires j <= k < |dbs| && Seen(req, dbs, pc, j)
    ensures Seen(req, dbs, Step(req, pc, dbs[k], false), k)
  {
    var m :| SeenSo(req, dbs, pc, m, j);
    match pc
    case ReadRevoked => EarlyStepSeen(req, dbs, pc, m, j, k);
    case ReadRealm => EarlyStepSeen(req, dbs, pc, m, j, k);
    case ReadClient(realm) => ClientStepSeen(req, dbs, realm, m, j, k);
    case ReadSession(realm) => SessionStepSeen(req, dbs, realm, m, j, k);
    case ReadOwner(realm) => OwnerStepSeen(req, dbs, realm, m, j, k);
    case ReadServiceUser(realm, c) => UserStepSeen(req, dbs, realm, c, m, j, k);
    case ReadPathRealm(realm, name) => PathStepSeen(req, dbs, realm, name, m, j, k);
    case Accepted => assert SeenSo(req, dbs, pc, m, k);
    case Rejected(_) => assert SeenSo(req, dbs, pc, m, k);
  }

  lemma {:induction false} FollowSeen(req: Request, dbs: seq<Db>, ks: seq<nat>)
    requires dbs != [] && Rising(ks, |dbs|)
    ensures Reached(ks) < |dbs|
    ensures var l := Follow(Advance, Start(req), dbs, ks); l.req == req && Seen(req, dbs, l.pc, Reached(ks))
  {
    if ks == [] {
      assert SeenSo(req, dbs, Begin(req), Moments(0, 0, 0, 0, 0, 0), 0);
    } else {
      var n := |ks| - 1;
      FollowSeen(req, dbs, ks[..n]);
      StepSeen(req, dbs, Follow(Advance, Start(req), dbs, ks[..n]).pc, Reached(ks[..n]), ks[n]);
    }
  }

  lemma PassesShows(req: Request, dbs: seq<Db>)
    requires dbs != [] && Passes(req, dbs)
    ensures Admits(req, dbs)
  {
    var ks: seq<nat> :| Rising(ks, |dbs|) && Follow(Advance, Start(req), dbs, ks) == Live(req, Accepted);
    FollowSeen(req, dbs, ks);
  }

  // --- From moments to a run -----------------------------------------------

  /** Reads at rising moments, the last one not after `k`, that bring the request to `pc`. */
  ghost predicate At(req: Request, dbs: seq<Db>, pc: Pc, k: nat) {
    exists ks: seq<nat> :: Rising(ks, |dbs|) && Reached(ks) <= k < |dbs| && Follow(Advance, Start(req), dbs, ks) == Live(req, pc)
  }

  lemma StepAt(req: Request, dbs: seq<Db>, pc: Pc, j: nat, k: nat)
    requires At(req, dbs, pc, j) && j <= k < |dbs|
    ensures At(req, dbs, Step(req, pc, dbs[k], false), k)
  {
    var ks: seq<nat> :| Rising(ks, |dbs|) && Reached(ks) <= j < |dbs| && Follow(Advance, Start(req), dbs, ks) == Live(req, pc);
    FollowSnoc(Advance, Start(req), dbs, ks, k);
  }

  lemma StartAt(req: Request, dbs: seq<Db>, k: nat)
    requires k < |dbs|
    ensures At(req, dbs, Begin(req), k)
  {
    var none: seq<nat> := [];
    assert Rising(none, |dbs|) && Reached(none) <= k;
  }

  lemma EarlyReads(req: Request, realm: Realm, first: Db, second: Db, third: Db)
    requires TokenShown(req, first) && RealmShown(req, realm, second) && ClientShown(req, realm, third)
    ensures Begin(req) == ReadRevoked
    ensures Step(req, ReadRevoked, first, false) == ReadRealm
    ensures Step(req, ReadRealm, second, false) == ReadClient(realm)
    ensures Step(req, ReadClient(realm), third, false) == if req.token.sid.None? then Bind(req, realm) else ReadSession(realm)
  {
    ClientIsFound(third, realm.id, req.token);
  }

  lemma ClientAt(req: Request, dbs: seq<Db>, m: Moments, realm: Realm)
    requires InOrder(m, |dbs|)
    requires TokenShown(req, dbs[m.token]) && RealmShown(req, realm, dbs[m.realm]) && ClientShown(req, realm, dbs[m.client])
    ensures At(req, dbs, if req.token.sid.None? then Bind(req, realm) else ReadSession(realm), m.client)
  {
    EarlyReads(req, realm, dbs[m.token], dbs[m.realm], dbs[m.client]);
    StartAt(req, dbs, m.token);
    StepAt(req, dbs, ReadRevoked, m.token, m.token);
    StepAt(req, dbs, ReadRealm, m.token, m.realm);
    StepAt(req, dbs, ReadClient(realm), m.realm, m.client);
  }

  lemma LaterAt(req: Request, dbs: seq<Db>, pc: Pc, j: nat, k: nat)
    requires At(req, dbs, pc, j) && j <= k < |dbs|
    ensures At(req, dbs, pc, k)
  {
  }

  lemma OwnerReadAt(req: Request, dbs: seq<Db>, i: nat, j: nat, realm: Realm, c: Client)
    requires i <= j < |dbs| && At(req, dbs, ReadOwner(realm), i)
    requires OwnerAt(req, realm.id, dbs[i], c) && UserAt(req, realm.id, dbs[j], c)
    ensures At(req, dbs, Bind(req, realm), j)
  {
    ClientIsFound(dbs[i], realm.id, req.token);
    StepAt(req, dbs, ReadOwner(realm), i, i);
    StepAt(req, dbs, ReadServiceUser(realm, c), i, j);
  }

  lemma PathReadAt(req: Request, dbs: seq<Db>, i: nat, j: nat, realm: Realm)
    requires i <= j < |dbs| && At(req, dbs, Bind(req, realm), i) && PathShown(req, realm, dbs[j])
    ensures Passes(req, dbs)
  {
    MetadataIsServerPath(req);
    if Bind(req, realm) != Accepted {
      StepAt(req, dbs, Bind(req, realm), i, j);
    }
  }

  lemma SessionReadAt(req: Request, dbs: seq<Db>, m: Moments, realm: Realm)
    requires InOrder(m, |dbs|) && At(req, dbs, ReadSession(realm), m.client) && req.token.sid.Some?
    requires SessionShown(req, realm, dbs[m.owner], dbs[m.user])
    ensures At(req, dbs, Bind(req, realm), m.user)
  {
    ClientIsFound(dbs[m.owner], realm.id, req.token);
    if SessionAt(req, realm.id, dbs[m.user]) {
      StepAt(req, dbs, ReadSession(realm), m.client, m.user);
    } else {
      StepAt(req, dbs, ReadSession(realm), m.client, m.owner);
      if SessionAt(req, realm.id, dbs[m.owner]) {
        LaterAt(req, dbs, Bind(req, realm), m.owner, m.user);
      } else {
        var c :| OwnerAt(req, realm.id, dbs[m.owner], c) && UserAt(req, realm.id, dbs[m.user], c);
        OwnerReadAt(req, dbs, m.owner, m.user, realm, c);
      }
    }
  }

  lemma ShowsPasses(req: Request, dbs: seq<Db>, m: Moments, realm: Realm)
    requires InOrder(m, |dbs|) && Shows(req, dbs, m, realm)
    ensures Passes(req, dbs)
  {
    ClientAt(req, dbs, m, realm);
    if req.token.sid.None? {
      LaterAt(req, dbs, Bind(req, realm), m.client, m.user);
    } else {
      SessionReadAt(req, dbs, m, realm);
    }
    PathReadAt(req, dbs, m.user, m.path, realm);
  }

  /** Exactly which histories of writes a request can be accepted under. */
  lemma AcceptanceExact(req: Request, dbs: seq<Db>)
    requires dbs != []
    ensures CanPass(req, dbs) <==> Admits(req, dbs)
  {
    PassesIff(req, dbs);
    if Passes(req, dbs) {
      PassesShows(req, dbs);
    }
    if m, realm :| InOrder(m, |dbs|) && Shows(req, dbs, m, realm) {
      ShowsPasses(req, dbs, m, realm);
    }
  }
}
