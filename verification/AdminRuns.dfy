/**
  Requests to the admin gate while the stores change: what a request without a session needs to see, and
  which standing conditions keep a request out.
 */
module AdminRuns {
  import opened Names
  import opened PathRealm
  import opened Prelude
  import opened Utf8
  import opened Interleaving
  import opened AdminGate
  import opened AdminMoments

  /** A verdict is final. */
  lemma VerdictIsFinal(s: Sys<Live, Db>, events: seq<Event<Live, Db>>, id: nat)
    requires id in s.live && Rank(s.live[id].pc) == 0
    ensures var end := After(Advance, s, events); id in end.live && end.live[id] == s.live[id]
  {
    RunKeepsStill(Advance, s, events, id);
  }

  /** A read that fails before the verdict rejects the request for good. */
  lemma FailsClosed(s: Sys<Live, Db>, id: nat, events: seq<Event<Live, Db>>)
    requires id in s.live && Rank(s.live[id].pc) > 0
    ensures var end := After(Advance, Next(Advance, s, Read(id, true)), events);
            id in end.live && end.live[id].pc == Rejected(Internal)
  {
    VerdictIsFinal(Next(Advance, s, Read(id, true)), events, id);
  }

  /** What an accepted request has been shown, in any run at all. */
  lemma AcceptedIsAdmitted(req: Request, s: Sys<Live, Db>, events: seq<Event<Live, Db>>, id: nat)
    requires StartsAs(s, events, id, Start(req))
    ensures var end := After(Advance, s, events);
            id in end.live && end.live[id].pc.Accepted? ==> Admits(req, History(s, events))
  {
    var end, dbs := After(Advance, s, events), History(s, events);
    if id in end.live && end.live[id].pc.Accepted? {
      FailuresAreFatal();
      RunLeads(Advance, Dead, s, events, id, Start(req));
      var ks: seq<nat> :| Rising(ks, |dbs|) && Follow(Advance, Start(req), dbs, ks) == end.live[id];
      FollowSeen(req, dbs, ks);
    }
  }

  // --- Requests without a session ------------------------------------------

  /** The token names a session that is not there, and its subject is not its client. */
  ghost predicate NoSession(req: Request, realmId: string, db: Db) {
    var t := req.token;
    && WellKeyed(db) && t.realm.Some? && (t.realm.value in db.realms ==> db.realms[t.realm.value].id == realmId)
    && !SessionAt(req, realmId, db)
  }

  /** The token's client has service accounts at one moment, and its subject is that client's user at a later one. */
  ghost predicate OwnerThenUser(req: Request, realmId: string, dbs: seq<Db>) {
    exists i: nat, j: nat, c :: i <= j < |dbs| && OwnerAt(req, realmId, dbs[i], c) && UserAt(req, realmId, dbs[j], c)
  }

  lemma AdmittedShowsUser(req: Request, realmId: string, dbs: seq<Db>)
    requires Admits(req, dbs) && forall db :: db in dbs ==> NoSession(req, realmId, db)
    ensures OwnerThenUser(req, realmId, dbs)
  {
    var m, realm :| InOrder(m, |dbs|) && Shows(req, dbs, m, realm);
    assert dbs[m.realm] in dbs && dbs[m.user] in dbs;
    var c :| OwnerAt(req, realmId, dbs[m.owner], c) && UserAt(req, realmId, dbs[m.user], c);
  }

  /** A request that never has its session is accepted in no run that does not show its owner and then its user. */
  lemma SessionlessNeedsOwnerThenUser(req: Request, realmId: string, s: Sys<Live, Db>, events: seq<Event<Live, Db>>, id: nat)
    requires StartsAs(s, events, id, Start(req)) && forall db :: db in History(s, events) ==> NoSession(req, realmId, db)
    ensures var end := After(Advance, s, events);
            id in end.live && end.live[id].pc.Accepted? ==> OwnerThenUser(req, realmId, History(s, events))
  {
    AcceptedIsAdmitted(req, s, events, id);
    if Admits(req, History(s, events)) {
      AdmittedShowsUser(req, realmId, History(s, events));
    }
  }

  /** Everything but the session is in order. */
  ghost predicate OtherwiseAllowed(req: Request, realm: Realm, db: Db) {
    var t := req.token;
    && !t.stepUp && !t.bound && t.raw !in db.revoked && t.realm == Some(realm.name)
    && realm.name in db.realms && db.realms[realm.name] == realm && InForce(realm, t)
    && (exists c :: ClientOf(db, realm.id, t, c) && Trusted(c)) && PathAllowed(req, db)
  }

  lemma AllowedIsShown(req: Request, realm: Realm, db: Db)
    requires WellKeyed(db) && OtherwiseAllowed(req, realm, db)
    ensures TokenShown(req, db) && RealmShown(req, realm, db) && ClientShown(req, realm, db) && PathShown(req, realm, db)
  {
  }

  lemma UserIsAdmitted(req: Request, realm: Realm, dbs: seq<Db>, i: nat, j: nat, c: Client)
    requires i <= j < |dbs| && OwnerAt(req, realm.id, dbs[i], c) && UserAt(req, realm.id, dbs[j], c)
    requires WellKeyed(dbs[i]) && OtherwiseAllowed(req, realm, dbs[i])
    requires WellKeyed(dbs[j]) && OtherwiseAllowed(req, realm, dbs[j])
    ensures Admits(req, dbs)
  {
    AllowedIsShown(req, realm, dbs[i]);
    AllowedIsShown(req, realm, dbs[j]);
    var m := Moments(i, i, i, i, j, j);
    assert InOrder(m, |dbs|) && Shows(req, dbs, m, realm);
  }

  /**
    When everything else is in order all the time and the session never there, a request can be
    accepted exactly when its client has service accounts at some moment and its subject is that
    client's user at the same or a later one.
   */
  lemma SessionlessHistoryIff(req: Request, realm: Realm, dbs: seq<Db>)
    requires dbs != [] && forall db :: db in dbs ==> NoSession(req, realm.id, db) && OtherwiseAllowed(req, realm, db)
    ensures CanPass(req, dbs) <==> OwnerThenUser(req, realm.id, dbs)
  {
    AcceptanceExact(req, dbs);
    if Admits(req, dbs) {
      AdmittedShowsUser(req, realm.id, dbs);
    }
    if OwnerThenUser(req, realm.id, dbs) {
      var i: nat, j: nat, c :| i <= j < |dbs| && OwnerAt(req, realm.id, dbs[i], c) && UserAt(req, realm.id, dbs[j], c);
      assert dbs[i] in dbs && dbs[j] in dbs;
      UserIsAdmitted(req, realm, dbs, i, j, c);
    }
  }

  // --- Standing conditions -------------------------------------------------

  /** Standing conditions under which a request must not pass. */
  datatype Bar =
    | Revoked
    | IssuerCutOff
    | PathCutOff(name: RealmName)
    | SessionGone(realmId: string, noUser: bool)

  /** The token's client has service accounts, and its subject is the id of that client's user. */
  ghost predicate OwnerShape(db: Db, realmId: string, t: Token) {
    exists c :: ClientOf(db, realmId, t, c) && c.serviceAccounts && t.sub == "service-account-" + c.id
  }

  ghost predicate Barred(bar: Bar, req: Request, db: Db) {
    var t := req.token;
    match bar
    case Revoked => t.raw in db.revoked
    case IssuerCutOff =>
      t.realm.Some? && t.realm.value in db.realms ==>
        0 < db.realms[t.realm.value].notBefore && t.iat < db.realms[t.realm.value].notBefore
    case PathCutOff(name) =>
      && RealmOf(req.path) == Ok(Some(name)) && name in db.realms
      && 0 < db.realms[name].notBefore && t.iat < db.realms[name].notBefore
    case SessionGone(realmId, noUser) =>
      && NoSession(req, realmId, db)
      && (if noUser then (realmId, t.sub) !in db.users else !OwnerShape(db, realmId, t))
  }

  /** Every state of the run is well keyed and bars the request. */
  ghost predicate BarredThroughout(bar: Bar, req: Request, s: Sys<Live, Db>, events: seq<Event<Live, Db>>) {
    forall db :: db in History(s, events) ==> WellKeyed(db) && Barred(bar, req, db)
  }

  /** Neither half of the sessionless shape alone is enough, so keeping one of them away keeps the request out. */
  lemma HalfAShapeIsNotEnough(req: Request, realmId: string, noUser: bool, dbs: seq<Db>)
    requires forall db :: db in dbs ==> Barred(SessionGone(realmId, noUser), req, db)
    ensures !OwnerThenUser(req, realmId, dbs)
  {
    forall i: nat, j: nat, c | i <= j < |dbs| && OwnerAt(req, realmId, dbs[i], c) ensures !UserAt(req, realmId, dbs[j], c) {
      assert dbs[i] in dbs && dbs[j] in dbs;
    }
  }

  lemma BarredIsNotAdmitted(bar: Bar, req: Request, dbs: seq<Db>)
    requires forall db :: db in dbs ==> WellKeyed(db) && Barred(bar, req, db)
    ensures !Admits(req, dbs)
  {
    if bar.SessionGone? {
      HalfAShapeIsNotEnough(req, bar.realmId, bar.noUser, dbs);
      if Admits(req, dbs) {
        AdmittedShowsUser(req, bar.realmId, dbs);
      }
    } else {
      forall m, realm | InOrder(m, |dbs|) ensures !Shows(req, dbs, m, realm) {
        assert dbs[m.token] in dbs && dbs[m.realm] in dbs && dbs[m.path] in dbs;
      }
    }
  }

  /**
    Over every interleaving of reads and writes: while the bar stands, no request that starts
    under it is accepted, however its reads and everybody else's steps are ordered.
   */
  lemma NoLateAcceptance(bar: Bar, req: Request, s: Sys<Live, Db>, events: seq<Event<Live, Db>>, id: nat)
    requires StartsAs(s, events, id, Start(req)) && BarredThroughout(bar, req, s, events)
    ensures var end := After(Advance, s, events); id in end.live ==> !end.live[id].pc.Accepted?
  {
    BarredIsNotAdmitted(bar, req, History(s, events));
    AcceptedIsAdmitted(req, s, events, id);
  }

  // --- No single state shows it --------------------------------------------

  /** Nothing but a session is missing, and the subject is the user of the token's client. */
  ghost predicate Scenario(req: Request, realm: Realm, owner: Client, user: User) {
    var t := req.token;
    && !t.stepUp && !t.bound && t.realm == Some(realm.name) && realm.notBefore == 0
    && t.sid.Some? && t.sub == user.id && !IssuedTo(t, t.sub) && ClientOf(ThreeStates(realm, owner, user)[0], realm.id, t, owner)
    && Trusted(owner) && owner.serviceAccounts && OwnUser(owner, user)
    && realm.name == Ascii("master") && RealmOf(req.path) == Ok(None)
  }

  /** The client with its service account on, then off, then with the user in place: one row changes at a time. */
  ghost function ThreeStates(realm: Realm, owner: Client, user: User): (dbs: seq<Db>) {
    var on := Db(map[realm.name := realm], map[(realm.id, owner.identifier) := owner], {}, map[], {});
    var off := on.(clients := on.clients[(realm.id, owner.identifier) := owner.(serviceAccounts := false)]);
    [on, off, off.(users := off.users[(realm.id, user.id) := user])]
  }

  lemma ThreeStatesAllowed(req: Request, realm: Realm, owner: Client, user: User, db: Db)
    requires Scenario(req, realm, owner, user) && db in ThreeStates(realm, owner, user)
    ensures NoSession(req, realm.id, db) && OtherwiseAllowed(req, realm, db) && !Sessionless(db, realm.id, req.token)
  {
    ClientIsFound(db, realm.id, req.token);
    var c := Find(db, realm.id, req.token);
    assert c.Some? && Trusted(c.value);
  }

  /**
    No state of the history shows the token as sessionless, no session is ever there, every write
    changes one row, and yet some run over it accepts the request.
   */
  lemma SessionlessMixesSnapshots(req: Request, realm: Realm, owner: Client, user: User)
    requires Scenario(req, realm, owner, user)
    ensures var dbs := ThreeStates(realm, owner, user);
            && (forall db :: db in dbs ==> NoSession(req, realm.id, db) && !Sessionless(db, realm.id, req.token))
            && CanPass(req, dbs)
  {
    var dbs := ThreeStates(realm, owner, user);
    forall db | db in dbs
      ensures NoSession(req, realm.id, db) && OtherwiseAllowed(req, realm, db) && !Sessionless(db, realm.id, req.token)
    {
      ThreeStatesAllowed(req, realm, owner, user, db);
    }
    assert OwnerAt(req, realm.id, dbs[0], owner);
    assert Get(dbs[2].users, (realm.id, req.token.sub)) == Some(user) && UserAt(req, realm.id, dbs[2], owner);
    SessionlessHistoryIff(req, realm, dbs);
  }

  lemma ServerInfoHasNoRealm()
    ensures RealmOf(Ascii("/admin/serverinfo")) == Ok(None)
  {
    var admin, info := Ascii("admin"), Ascii("serverinfo");
    assert Ascii("/admin/serverinfo") == [] + [SLASH] + (admin + [SLASH] + info);
    assert SLASH !in admin && SLASH !in info;
    SplitAtSlash([], admin + [SLASH] + info);
    SplitAtSlash(admin, info);
    SplitWithoutSlash(info);
    var segments: seq<seq<byte>> := [[], admin, info];
    assert Split(Ascii("/admin/serverinfo")) == segments;
    assert |info| != |REALMS| && |admin| != |REALMS|;
    assert segments[1..][1..] == [info] && |segments[1..][1..][1..]| == 0;
  }

  lemma AdminCliIsValid()
    ensures ValidName("admin-cli") == Some("admin-cli")
  {
    Utf8LengthBound("admin-cli");
  }

  /** There are such requests. */
  lemma ScenarioExists(realm: Realm, owner: Client, user: User, req: Request)
    requires realm == Realm("r1", MASTER, 0) && owner == Client("c1", "admin-cli", true, map[], true)
    requires user == User(ServiceUserId(owner), map["service_account_client_id" := ["c1"]])
    requires req == Request(Token("t", false, false, Some(MASTER), Some("admin-cli"), "a", user.id, Some("s"), 0), true,
                            Ascii("/admin/serverinfo"))
    ensures Scenario(req, realm, owner, user)
  {
    ServerInfoHasNoRealm();
    AdminCliIsValid();
    assert user.id[0] != "admin-cli"[0];
  }
}
