/**
  The admin authorization middleware as a machine of separate reads. Each read sees the stores
  as they are at that moment; between two reads of a request anything may be written and other
  requests may take steps. A request carries an already validated bearer token.
 */
module AdminGate {
  import opened Names
  import opened PathRealm
  import opened Prelude
  import opened Utf8

  type RealmName = seq<byte>

  const MASTER: RealmName := Ascii("master")

  // --- The stores ----------------------------------------------------------

  datatype Realm = Realm(id: string, name: RealmName, notBefore: int)

  datatype Client = Client(id: string, identifier: string, enabled: bool, attributes: map<string, string>, serviceAccounts: bool)

  datatype User = User(id: string, attributes: map<string, seq<string>>)

  /** Rows by their lookup keys; clients, sessions and users are looked up within a realm id. */
  datatype Db = Db(
    realms: map<RealmName, Realm>,
    clients: map<(string, string), Client>,
    sessions: set<(string, string)>,
    users: map<(string, string), User>,
    revoked: set<string>)

  /** Rows sit under their own names and ids. */
  ghost predicate WellKeyed(db: Db) {
    && (forall n :: n in db.realms ==> db.realms[n].name == n)
    && (forall k :: k in db.users ==> db.users[k].id == k.1)
  }

  predicate AdminAccess(c: Client) {
    AdminApiAccess(c.enabled, c.identifier, Get(c.attributes, "admin_api_access"))
  }

  function ServiceUserId(c: Client): (r: string) {
    "service-account-" + c.id
  }

  predicate Linked(c: Client, u: User) {
    u.id == ServiceUserId(c) && Get(u.attributes, "service_account_client_id") == Some([c.id])
  }

  // --- Tokens and requests -------------------------------------------------

  datatype Token = Token(
    raw: string,
    stepUp: bool,
    bound: bool,
    realm: Option<RealmName>,
    azp: Option<string>,
    aud: string,
    sub: string,
    sid: Option<string>,
    iat: int)

  datatype Request = Request(token: Token, get: bool, path: seq<byte>)

  function ClientName(t: Token): (r: string) {
    if t.azp.Some? then t.azp.value else t.aud
  }

  /** The realm's revocation cutoff is set and lies after the token's issue time. */
  predicate CutOff(r: Realm, t: Token) {
    r.notBefore > 0 && t.iat < r.notBefore
  }

  predicate Metadata(req: Request) {
    req.get && (req.path == Ascii("/admin/serverinfo") || Ascii("/admin/enums/") <= req.path)
  }

  // --- The machine ---------------------------------------------------------

  /** What a request reads next, with what it remembers from earlier reads. */
  datatype Pc =
    | ReadRevoked
    | ReadRealm
    | ReadClient(realm: Realm)
    | ReadSession(realm: Realm)
    | ReadOwner(realm: Realm)
    | ReadServiceUser(realm: Realm, owner: Client)
    | ReadPathRealm(realm: Realm, name: RealmName)
    | Accepted
    | Rejected(error: ApiError)

  function Begin(req: Request): (pc: Pc) {
    if req.token.stepUp || req.token.bound then Rejected(Unauthorized) else ReadRevoked
  }

  /** The realm binding, once the token itself has passed. */
  function Bind(req: Request, realm: Realm): (pc: Pc) {
    match RealmOf(req.path)
    case Err(e) => Rejected(e)
    case Ok(None) => if realm.name == MASTER || Metadata(req) then Accepted else Rejected(Forbidden)
    case Ok(Some(name)) => if realm.name == MASTER && name == MASTER then Accepted else ReadPathRealm(realm, name)
  }

  function Step(req: Request, pc: Pc, db: Db, fails: bool): (next: Pc) {
    var t := req.token;
    if pc.Accepted? || pc.Rejected? then pc
    else if fails then Rejected(Internal)
    else
      match pc
      case ReadRevoked =>
        if t.raw in db.revoked then Rejected(Unauthorized)
        else if t.realm.None? then Rejected(Forbidden)
        else ReadRealm
      case ReadRealm =>
        var realm := if t.realm.Some? then Get(db.realms, t.realm.value) else None;
        if realm.None? || CutOff(realm.value, t) then Rejected(Unauthorized)
        else if ValidName(ClientName(t)).None? then Rejected(Forbidden)
        else ReadClient(realm.value)
      case ReadClient(realm) =>
        var client := Find(db, realm.id, t);
        if client.None? || !AdminAccess(client.value) then Rejected(Forbidden)
        else if t.sid.None? then Bind(req, realm)
        else ReadSession(realm)
      case ReadSession(realm) =>
        if t.sid.None? || (realm.id, t.sid.value) in db.sessions || t.sub == ClientName(t) then Bind(req, realm)
        else ReadOwner(realm)
      case ReadOwner(realm) =>
        var client := Find(db, realm.id, t);
        if client.None? || !client.value.serviceAccounts then Rejected(Unauthorized)
        else ReadServiceUser(realm, client.value)
      case ReadServiceUser(realm, owner) =>
        var user := Get(db.users, (realm.id, ServiceUserId(owner)));
        if user.None? then Rejected(Unauthorized)
        else if !Linked(owner, user.value) then Rejected(Internal)
        else if user.value.id == t.sub then Bind(req, realm)
        else Rejected(Unauthorized)
      case ReadPathRealm(realm, name) =>
        var row := Get(db.realms, name);
        if row.None? then Accepted
        else if realm.name != MASTER && Some(row.value.name) != t.realm then Rejected(Forbidden)
        else if CutOff(row.value, t) then Rejected(Unauthorized)
        else Accepted
  }

  function Find(db: Db, realmId: string, t: Token): (r: Option<Client>) {
    match ValidName(ClientName(t))
    case None => None
    case Some(identifier) => Get(db.clients, (realmId, identifier))
  }

  // --- One consistent snapshot ---------------------------------------------

  function Rank(pc: Pc): (n: nat) {
    match pc
    case ReadRevoked => 7
    case ReadRealm => 6
    case ReadClient(_) => 5
    case ReadSession(_) => 4
    case ReadOwner(_) => 3
    case ReadServiceUser(_, _) => 2
    case ReadPathRealm(_, _) => 1
    case _ => 0
  }

  /** Every step before a verdict gets closer to it. */
  lemma StepProgresses(req: Request, pc: Pc, db: Db, fails: bool)
    requires Rank(pc) > 0
    ensures Rank(Step(req, pc, db, fails)) < Rank(pc)
  {
  }

  /** All reads of one request against the same contents, none of them failing. */
  function Finish(req: Request, pc: Pc, db: Db): (end: Pc)
    ensures end.Accepted? || end.Rejected?
    decreases Rank(pc)
  {
    if Rank(pc) == 0 then pc
    else
      StepProgresses(req, pc, db, false);
      Finish(req, Step(req, pc, db, false), db)
  }

  // --- The rule, in the fields of the token and the rows --------------------

  /** Not issued before the realm's cutoff, if there is one. */
  ghost predicate InForce(realm: Realm, t: Token) {
    realm.notBefore <= 0 || realm.notBefore <= t.iat
  }

  /** The authorized party, or the audience where there is none. */
  ghost predicate IssuedTo(t: Token, name: string) {
    t.azp == Some(name) || (t.azp.None? && t.aud == name)
  }

  ghost predicate ClientOf(db: Db, realmId: string, t: Token, c: Client) {
    exists name, identifier :: && IssuedTo(t, name) && ValidName(name) == Some(identifier)
                               && (realmId, identifier) in db.clients && db.clients[(realmId, identifier)] == c
  }

  ghost predicate Trusted(c: Client) {
    c.enabled && (c.identifier == "admin-cli"
                  || ("admin_api_access" in c.attributes && c.attributes["admin_api_access"] == "true"))
  }

  ghost predicate OwnUser(c: Client, u: User) {
    && u.id == "service-account-" + c.id
    && "service_account_client_id" in u.attributes && u.attributes["service_account_client_id"] == [c.id]
  }

  ghost predicate SubjectIsOwn(db: Db, realmId: string, t: Token, c: Client) {
    (realmId, t.sub) in db.users && OwnUser(c, db.users[(realmId, t.sub)])
  }

  /** The token's shape is that of a client-credentials token: its subject is the client or the client's own user. */
  ghost predicate Sessionless(db: Db, realmId: string, t: Token) {
    || IssuedTo(t, t.sub)
    || exists c :: ClientOf(db, realmId, t, c) && c.serviceAccounts && SubjectIsOwn(db, realmId, t, c)
  }

  ghost predicate TokenAllowed(req: Request, db: Db) {
    var t := req.token;
    && !t.stepUp && !t.bound && t.raw !in db.revoked
    && t.realm.Some? && t.realm.value in db.realms && InForce(db.realms[t.realm.value], t)
    && (var realmId := db.realms[t.realm.value].id;
        && (exists c :: ClientOf(db, realmId, t, c) && Trusted(c))
        && (t.sid.Some? ==> (realmId, t.sid.value) in db.sessions || Sessionless(db, realmId, t)))
  }

  /** The read-only paths that tell about the server and no realm. */
  ghost predicate ServerPath(req: Request) {
    req.get && (req.path == Ascii("/admin/serverinfo") || exists rest :: req.path == Ascii("/admin/enums/") + rest)
  }

  ghost predicate PathAllowed(req: Request, db: Db) {
    var t, target := req.token, RealmOf(req.path);
    && target.Ok?
    && (if target.value.None? then t.realm == Some(Ascii("master")) || ServerPath(req)
        else
          var name := target.value.value;
          || name !in db.realms
          || ((t.realm == Some(Ascii("master")) || t.realm == Some(name)) && InForce(db.realms[name], t)))
  }

  lemma FindsClientOf(db: Db, realmId: string, t: Token, c: Client)
    ensures Find(db, realmId, t) == Some(c) <==> ClientOf(db, realmId, t, c)
    ensures t.sub == ClientName(t) <==> IssuedTo(t, t.sub)
  {
    assert IssuedTo(t, ClientName(t)) && forall name :: IssuedTo(t, name) ==> name == ClientName(t);
  }

  lemma MetadataIsServerPath(req: Request)
    ensures Metadata(req) <==> ServerPath(req)
  {
    var front := Ascii("/admin/enums/");
    if front <= req.path {
      assert req.path == front + req.path[|front|..];
    }
  }

  // --- The verdict on a snapshot --------------------------------------------

  ghost function PathVerdict(req: Request, db: Db): (pc: Pc) {
    var t := req.token;
    match RealmOf(req.path)
    case Err(e) => Rejected(e)
    case Ok(None) => if t.realm == Some(Ascii("master")) || ServerPath(req) then Accepted else Rejected(Forbidden)
    case Ok(Some(name)) =>
      if name !in db.realms then Accepted
      else if t.realm != Some(Ascii("master")) && t.realm != Some(name) then Rejected(Forbidden)
      else if !InForce(db.realms[name], t) then Rejected(Unauthorized)
      else Accepted
  }

  /** There is a user under the service account's id, and it is not the client's. */
  ghost predicate LinkBroken(db: Db, realmId: string, t: Token) {
    exists c :: && ClientOf(db, realmId, t, c) && c.serviceAccounts && (realmId, "service-account-" + c.id) in db.users
                && !OwnUser(c, db.users[(realmId, "service-account-" + c.id)])
  }

  /** The answer to a request: the first check that fails decides it. */
  ghost function Verdict(req: Request, db: Db): (pc: Pc) {
    var t := req.token;
    if t.stepUp || t.bound || t.raw in db.revoked then Rejected(Unauthorized)
    else if t.realm.None? then Rejected(Forbidden)
    else if t.realm.value !in db.realms || !InForce(db.realms[t.realm.value], t) then Rejected(Unauthorized)
    else
      var realmId := db.realms[t.realm.value].id;
      if !exists c :: ClientOf(db, realmId, t, c) && Trusted(c) then Rejected(Forbidden)
      else if t.sid.Some? && (realmId, t.sid.value) !in db.sessions && !Sessionless(db, realmId, t) then
        Rejected(if LinkBroken(db, realmId, t) then Internal else Unauthorized)
      else PathVerdict(req, db)
  }

  lemma BindExact(req: Request, realm: Realm, db: Db)
    requires WellKeyed(db) && req.token.realm == Some(realm.name)
    requires Get(db.realms, realm.name) == Some(realm) && InForce(realm, req.token)
    ensures Finish(req, Bind(req, realm), db) == PathVerdict(req, db)
  {
    MetadataIsServerPath(req);
    var pc := Bind(req, realm);
    if pc.ReadPathRealm? {
      assert Finish(req, pc, db) == Step(req, pc, db, false);
    }
  }

  /** Looking the service account up by its id finds the subject exactly when the subject is the client's own user. */
  lemma UserReadFindsOwn(db: Db, realmId: string, t: Token, c: Client)
    requires WellKeyed(db)
    ensures var user := Get(db.users, (realmId, ServiceUserId(c)));
            SubjectIsOwn(db, realmId, t, c) <==> user.Some? && Linked(c, user.value) && user.value.id == t.sub
  {
  }

  lemma ClientIsFound(db: Db, realmId: string, t: Token)
    ensures forall c :: Find(db, realmId, t) == Some(c) <==> ClientOf(db, realmId, t, c)
    ensures t.sub == ClientName(t) <==> IssuedTo(t, t.sub)
  {
    forall c ensures Find(db, realmId, t) == Some(c) <==> ClientOf(db, realmId, t, c) {
      FindsClientOf(db, realmId, t, c);
    }
    assert IssuedTo(t, ClientName(t));
  }

  /** Without a session: the client's own user goes on, a user that is not linked is an error, anything else is refused. */
  lemma {:induction false} SessionlessExact(req: Request, realm: Realm, db: Db)
    requires WellKeyed(db) && !IssuedTo(req.token, req.token.sub)
    ensures Finish(req, ReadOwner(realm), db) ==
            if Sessionless(db, realm.id, req.token) then Finish(req, Bind(req, realm), db)
            else Rejected(if LinkBroken(db, realm.id, req.token) then Internal else Unauthorized)
  {
    var t, c := req.token, Find(db, realm.id, req.token);
    ClientIsFound(db, realm.id, t);
    if c.Some? && c.value.serviceAccounts {
      UserReadFindsOwn(db, realm.id, t, c.value);
      var pc := ReadServiceUser(realm, c.value);
      assert Sessionless(db, realm.id, t) <==> SubjectIsOwn(db, realm.id, t, c.value);
      assert Finish(req, ReadOwner(realm), db) == Finish(req, pc, db);
      assert Finish(req, pc, db) == Finish(req, Step(req, pc, db, false), db);
    }
  }

  lemma SessionReadExact(req: Request, realm: Realm, db: Db)
    requires WellKeyed(db) && req.token.sid.Some?
    ensures var t := req.token;
            Finish(req, ReadSession(realm), db) ==
            if (realm.id, t.sid.value) in db.sessions || Sessionless(db, realm.id, t) then Finish(req, Bind(req, realm), db)
            else Rejected(if LinkBroken(db, realm.id, t) then Internal else Unauthorized)
  {
    var t := req.token;
    ClientIsFound(db, realm.id, t);
    assert Finish(req, ReadSession(realm), db) == Finish(req, Step(req, ReadSession(realm), db, false), db);
    if !IssuedTo(t, t.sub) {
      SessionlessExact(req, realm, db);
    }
  }

  lemma ClientReadExact(req: Request, realm: Realm, db: Db)
    requires WellKeyed(db) && req.token.realm == Some(realm.name)
    requires Get(db.realms, realm.name) == Some(realm) && InForce(realm, req.token)
    requires var t := req.token; !t.stepUp && !t.bound && t.raw !in db.revoked
    ensures Finish(req, ReadClient(realm), db) == Verdict(req, db)
  {
    var t, client := req.token, Find(db, realm.id, req.token);
    ClientIsFound(db, realm.id, t);
    assert Finish(req, ReadClient(realm), db) == Finish(req, Step(req, ReadClient(realm), db, false), db);
    if client.Some? && Trusted(client.value) {
      BindExact(req, realm, db);
      if t.sid.Some? {
        SessionReadExact(req, realm, db);
      }
    }
  }

  /** On a consistent snapshot the machine gives exactly that verdict. */
  lemma SnapshotVerdict(req: Request, db: Db)
    requires WellKeyed(db)
    ensures Finish(req, Begin(req), db) == Verdict(req, db)
  {
    var t := req.token;
    if !t.stepUp && !t.bound && t.raw !in db.revoked && t.realm.Some? {
      assert Finish(req, Begin(req), db) == Finish(req, ReadRealm, db);
      assert Finish(req, ReadRealm, db) == Finish(req, Step(req, ReadRealm, db, false), db);
      if t.realm.value in db.realms && InForce(db.realms[t.realm.value], t) {
        var realm := db.realms[t.realm.value];
        ClientIsFound(db, realm.id, t);
        if ValidName(ClientName(t)).Some? {
          ClientReadExact(req, realm, db);
        }
      }
    }
  }

  /** So it accepts exactly the allowed tokens on the allowed paths. */
  lemma SnapshotExact(req: Request, db: Db)
    requires WellKeyed(db)
    ensures Finish(req, Begin(req), db).Accepted? <==> TokenAllowed(req, db) && PathAllowed(req, db)
  {
    SnapshotVerdict(req, db);
  }

  /** A token of another realm than master is accepted only for its own realm, a realm that does not exist, or metadata. */
  lemma TenantTokensStayHome(req: Request, db: Db)
    requires WellKeyed(db) && req.token.realm != Some(Ascii("master"))
    requires Finish(req, Begin(req), db).Accepted?
    ensures match RealmOf(req.path)
            case Ok(Some(name)) => name !in db.realms || req.token.realm == Some(name)
            case Ok(None) => ServerPath(req)
            case Err(_) => false
  {
    SnapshotVerdict(req, db);
  }
}
