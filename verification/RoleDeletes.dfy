/**
  Deleting one client role, or a client with all its roles: the names that come to stand for something
  else, and what every closure is afterwards, in terms of the table before.
 */
module RoleDeletes {
  import opened Prelude
  import opened Roles
  import opened Digraph
  import opened Expansion
  import opened Composites
  import opened RoleStore
  import opened RoleWrites
  import C = ClientRoles

  // --- One role ------------------------------------------------------------

  /**
    With `x` out of the way its name, read from `a`, stands for `y`: `a` is a role of the same client and
    `y` the realm role behind its `x`, or `a` is a realm role and `x` and `y` were the only bearers of the name.
   */
  ghost predicate Uncovers(t: Table, x: Role, a: Role, y: Role) {
    && y in t && y != x && y.name == x.name
    && if a.clientRole then a.clientId == x.clientId && !y.clientRole
       else y.clientRole && forall z :: z in t && z.name == x.name ==> z == x || z == y
  }

  ghost predicate Exposes(t: Table, x: Role, a: Role, y: Role) {
    a in t && a != x && x.name in a.composites && Uncovers(t, x, a, y)
  }

  ghost function Exposed(t: Table, x: Role): Graph {
    iset a, y | Exposes(t, x, a, y) :: (a.id, y.id)
  }

  lemma DropRows(t: Table, x: Role)
    requires DistinctIds(t) && x in t
    ensures forall r :: r in C.Drop(t, x.id) <==> r in t && r != x
  {
    forall r | r in t && r.id == x.id ensures r == x {
      RowOf(t, r, x);
    }
  }

  lemma DropResolvesClient(t: Table, x: Role, a: Role, n: string, y: Role)
    requires WellFormed(t) && WellFormed(C.Drop(t, x.id)) && x in t && a.clientRole && a.clientId.Some?
    ensures x.clientRole ==>
              (ResolveExpansion(a, n, C.Drop(t, x.id)) == Some(y) <==>
               (ResolveExpansion(a, n, t) == Some(y) && y != x) || (n == x.name && Uncovers(t, x, a, y)))
  {
    DropRows(t, x);
    ExpansionNameIff(a, n, C.Drop(t, x.id), y);
    ExpansionNameIff(a, n, t, y);
    ContainerKeysAreUnique(t, ClientNamed(a.clientId, n));
  }

  lemma DropResolvesRealm(t: Table, x: Role, a: Role, n: string, y: Role)
    requires WellFormed(t) && WellFormed(C.Drop(t, x.id)) && x in t && x.clientRole && !a.clientRole && a.clientId.None?
    ensures ResolveExpansion(a, n, C.Drop(t, x.id)) == Some(y) <==>
            (ResolveExpansion(a, n, t) == Some(y) && y != x) || (n == x.name && Uncovers(t, x, a, y))
  {
    var u := C.Drop(t, x.id);
    DropRows(t, x);
    ExpansionNameIff(a, n, u, y);
    ExpansionNameIff(a, n, t, y);
    assert NoneMatches(u, RealmNamed(n)) <==> NoneMatches(t, RealmNamed(n));
  }

  /** What every name stands for after a delete. */
  lemma DropResolves(t: Table, x: Role, a: Role, n: string, y: Role)
    requires WellFormed(t) && x in t && x.clientRole && (a.clientRole <==> a.clientId.Some?)
    ensures ResolveExpansion(a, n, C.Drop(t, x.id)) == Some(y) <==>
            (ResolveExpansion(a, n, t) == Some(y) && y != x) || (n == x.name && Uncovers(t, x, a, y))
  {
    C.DropKeeps(t, x.id);
    if a.clientRole {
      DropResolvesClient(t, x, a, n, y);
    } else {
      DropResolvesRealm(t, x, a, n, y);
    }
  }

  lemma DropEdgesSound(t: Table, x: Role, a: Role, y: Role)
    requires WellFormed(t) && x in t && x.clientRole && a in C.Drop(t, x.id) && Step(C.Drop(t, x.id), a, y)
    ensures (a in t && a.id != x.id && y.id != x.id && Step(t, a, y)) || Exposes(t, x, a, y)
  {
    var n :| n in a.composites && ResolveExpansion(a, n, C.Drop(t, x.id)) == Some(y);
    DropRows(t, x);
    DropResolves(t, x, a, n, y);
  }

  lemma DropEdgesComplete(t: Table, x: Role, a: Role, n: string, y: Role)
    requires WellFormed(t) && x in t && x.clientRole && a in t && a != x && n in a.composites
    requires (ResolveExpansion(a, n, t) == Some(y) && y != x) || (n == x.name && Uncovers(t, x, a, y))
    ensures (a.id, y.id) in Edges(C.Drop(t, x.id))
  {
    DropRows(t, x);
    DropResolves(t, x, a, n, y);
    assert Step(C.Drop(t, x.id), a, y);
  }

  lemma DropEdge(t: Table, x: Role, i: RoleId, j: RoleId)
    requires WellFormed(t) && x in t && x.clientRole
    ensures (i, j) in Edges(C.Drop(t, x.id)) <==> (i, j) in Apart(Edges(t), x.id) || (i, j) in Exposed(t, x)
  {
    if (i, j) in Edges(C.Drop(t, x.id)) {
      var a, y :| a in C.Drop(t, x.id) && Step(C.Drop(t, x.id), a, y) && (a.id, y.id) == (i, j);
      DropEdgesSound(t, x, a, y);
    }
    if (i, j) in Apart(Edges(t), x.id) {
      var a, y :| a in t && Step(t, a, y) && (a.id, y.id) == (i, j);
      var n :| n in a.composites && ResolveExpansion(a, n, t) == Some(y);
      DropEdgesComplete(t, x, a, n, y);
    }
    if (i, j) in Exposed(t, x) {
      var a, y :| Exposes(t, x, a, y) && (a.id, y.id) == (i, j);
      DropEdgesComplete(t, x, a, x.name, y);
    }
  }

  lemma DropEdges(t: Table, x: Role)
    requires WellFormed(t) && x in t && x.clientRole
    ensures Edges(C.Drop(t, x.id)) == Apart(Edges(t), x.id) + Exposed(t, x)
  {
    forall i, j ensures (i, j) in Edges(C.Drop(t, x.id)) <==> (i, j) in Apart(Edges(t), x.id) + Exposed(t, x) {
      DropEdge(t, x, i, j);
    }
  }

  /** What is uncovered was in no way a child before. */
  lemma ExposedIsNew(t: Table, x: Role, a: Role, y: Role)
    requires WellFormed(t) && x in t && x.clientRole && Exposes(t, x, a, y)
    ensures (a.id, y.id) !in Edges(t)
  {
    EdgesFrom(t, a, y.id);
    if (a.id, y.id) in Edges(t) {
      var m :| m in Stored(a) && ResolveExpansion(a, m, t).Some? && ResolveExpansion(a, m, t).value.id == y.id;
      RowOf(t, ResolveExpansion(a, m, t).value, y);
      if a.clientRole {
        ClientNameNow(t, a, m, y);
      } else {
        RealmNameNow(t, a, m, y);
      }
    }
  }

  /** A delete makes a name stand for something new exactly where it uncovers. */
  lemma DropAnewIff(t: Table, x: Role, a: Role, n: string, y: Role)
    requires WellFormed(t) && x in t && x.clientRole
    ensures StandsAnew(t, C.Drop(t, x.id), a, n, y) <==> n == x.name && Exposes(t, x, a, y)
  {
    DropRows(t, x);
    if a in t && a != x && n in a.composites {
      DropResolves(t, x, a, n, y);
      if Exposes(t, x, a, y) {
        ExposedIsNew(t, x, a, y);
      }
      if ResolveExpansion(a, n, t) == Some(y) {
        assert Step(t, a, y);
      }
    }
  }

  /** Whatever is uncovered is one and the same role. */
  lemma ExposedIsOneSink(t: Table, x: Role)
    requires WellFormed(t) && x in t
    ensures OneSink(Exposed(t, x))
  {
    ContainerKeysAreUnique(t, RealmNamed(x.name));
    forall a, b, c, d | Exposes(t, x, a, b) && Exposes(t, x, c, d) ensures b == d {
      assert b.name == d.name == x.name;
      if !b.clientRole && !d.clientRole {
        assert Matches(RealmNamed(x.name), b) && Matches(RealmNamed(x.name), d);
      }
    }
  }

  /** Every closure after a delete: what was in reach past the deleted role, and what is uncovered. */
  lemma DeleteClosure(t: Table, x: Role, i: RoleId, j: RoleId)
    requires WellFormed(t) && x in t && x.clientRole
    ensures Reaches(Edges(C.Drop(t, x.id)), i, j) <==>
            || Reaches(Apart(Edges(t), x.id), i, j)
            || Via(Apart(Edges(t), x.id), Exposed(t, x), i, j)
  {
    DropEdges(t, x);
    ExposedIsOneSink(t, x);
    SinkClosure(Apart(Edges(t), x.id), Exposed(t, x), i, j);
  }

  lemma DropGuards(held: seq<string>, t: Table, x: Role)
    requires DistinctIds(t) && x in t && x.clientRole
    ensures GuardedIds(held, C.Drop(t, x.id)) == GuardedIds(held, t)
  {
    DropRows(t, x);
  }

  /** A delete enlarges no guarded closure exactly when nothing it uncovers reaches, past the deleted role, what is guarded. */
  lemma DeleteShieldsIff(held: seq<string>, t: Table, x: Role)
    requires WellFormed(t) && x in t && x.clientRole
    ensures Shielded(held, t, C.Drop(t, x.id)) <==>
            forall a, y :: Exposes(t, x, a, y) ==> !Gains(Edges(t), Apart(Edges(t), x.id), GuardedIds(held, t), a.id, y.id)
  {
    var g, k, e, kept := Edges(t), Apart(Edges(t), x.id), Exposed(t, x), GuardedIds(held, t);
    DropGuards(held, t, x);
    DropEdges(t, x);
    ExposedIsOneSink(t, x);
    SinkKeepsOutIff(g, k, e, kept);
    assert forall a, y :: Exposes(t, x, a, y) ==> (a.id, y.id) in e;
  }

  // --- A client with all its roles -----------------------------------------

  function DropClient(t: Table, client: ClientId): (u: Table)
    ensures forall r :: r in u <==> r in t && r.clientId != Some(client)
  {
    if t == [] then []
    else
      assert forall r :: r in t <==> r == t[0] || r in t[1..];
      (if t[0].clientId == Some(client) then [] else [t[0]]) + DropClient(t[1..], client)
  }

  lemma {:induction false} DropClientKeeps(t: Table, client: ClientId)
    requires WellFormed(t)
    ensures WellFormed(DropClient(t, client))
  {
    if t != [] {
      assert WellFormed(t[1..]);
      DropClientKeeps(t[1..], client);
      var u := DropClient(t[1..], client);
      forall x | x in u ensures x.id != t[0].id && (x.clientId != t[0].clientId || x.name != t[0].name) {
        C.HeadApart(t, x);
      }
      C.ConsKeeps(t[0], u);
    }
  }

  /** A name stops being ambiguous because the client's role `x` goes. */
  ghost predicate ClientExposes(t: Table, client: ClientId, a: Role, n: string, y: Role) {
    a.clientId != Some(client) && exists x :: x in t && x.clientId == Some(client) && x.name == n && Exposes(t, x, a, y)
  }

  lemma GoneRealmName(t: Table, client: ClientId, a: Role, n: string, y: Role)
    requires WellFormed(t) && a in t && !a.clientRole && n in a.composites
    ensures Bears(DropClient(t, client), n, y) <==>
            (Bears(t, n, y) && y.clientId != Some(client)) || ClientExposes(t, client, a, n, y)
  {
    ContainerKeysAreUnique(t, ClientNamed(Some(client), n));
    if Bears(DropClient(t, client), n, y) && !Bears(t, n, y) {
      var x :| x in t && x.name == n && x != y;
      assert x.clientId == Some(client);
      forall z | z in t && z.name == n ensures z == x || z == y {
        if z.clientId == Some(client) {
          assert Matches(ClientNamed(Some(client), n), z) && Matches(ClientNamed(Some(client), n), x);
        }
      }
      assert Exposes(t, x, a, y);
    }
    if ClientExposes(t, client, a, n, y) {
      var x :| x in t && x.clientId == Some(client) && x.name == n && Exposes(t, x, a, y);
      assert Matches(ClientNamed(Some(client), n), x);
      assert y.clientId == Some(client) ==> Matches(ClientNamed(Some(client), n), y);
    }
  }

  /** What every name stands for after the client is gone. */
  lemma DropClientResolves(t: Table, client: ClientId, a: Role, n: string, y: Role)
    requires WellFormed(t) && a in t && a.clientId != Some(client) && n in a.composites
    ensures ResolveExpansion(a, n, DropClient(t, client)) == Some(y) <==>
            (ResolveExpansion(a, n, t) == Some(y) && y.clientId != Some(client)) || ClientExposes(t, client, a, n, y)
  {
    var u := DropClient(t, client);
    DropClientKeeps(t, client);
    if a.clientRole {
      ClientNameNow(u, a, n, y);
      ClientNameNow(t, a, n, y);
    } else {
      RealmNameNow(u, a, n, y);
      RealmNameNow(t, a, n, y);
      GoneRealmName(t, client, a, n, y);
    }
  }

  ghost predicate Outside(t: Table, client: ClientId, a: Role, y: Role) {
    a in t && Step(t, a, y) && a.clientId != Some(client) && y.clientId != Some(client)
  }

  /** The edges between roles of others, and those that the deletion exposes. */
  ghost function OutsideEdges(t: Table, client: ClientId): Graph {
    iset a, y | Outside(t, client, a, y) :: (a.id, y.id)
  }

  ghost function ClientExposed(t: Table, client: ClientId): Graph {
    iset a, n, y | ClientExposes(t, client, a, n, y) :: (a.id, y.id)
  }

  lemma DropClientEdgeSound(t: Table, client: ClientId, a: Role, y: Role)
    requires WellFormed(t) && a in DropClient(t, client) && Step(DropClient(t, client), a, y)
    ensures Outside(t, client, a, y) || exists n :: ClientExposes(t, client, a, n, y)
  {
    var n :| n in a.composites && ResolveExpansion(a, n, DropClient(t, client)) == Some(y);
    DropClientResolves(t, client, a, n, y);
  }

  lemma DropClientEdgeComplete(t: Table, client: ClientId, a: Role, y: Role)
    requires WellFormed(t) && (Outside(t, client, a, y) || exists n :: ClientExposes(t, client, a, n, y))
    ensures (a.id, y.id) in Edges(DropClient(t, client))
  {
    var n :| && n in a.composites
             && ((ResolveExpansion(a, n, t) == Some(y) && y.clientId != Some(client)) || ClientExposes(t, client, a, n, y));
    DropClientResolves(t, client, a, n, y);
    assert Step(DropClient(t, client), a, y);
  }

  lemma DropClientEdges(t: Table, client: ClientId)
    requires WellFormed(t)
    ensures Edges(DropClient(t, client)) == OutsideEdges(t, client) + ClientExposed(t, client)
  {
    var u := DropClient(t, client);
    forall i, j ensures (i, j) in Edges(u) <==> (i, j) in OutsideEdges(t, client) + ClientExposed(t, client) {
      if (i, j) in Edges(u) {
        var a, y :| a in u && Step(u, a, y) && (a.id, y.id) == (i, j);
        DropClientEdgeSound(t, client, a, y);
      }
      if (i, j) in OutsideEdges(t, client) {
        var a, y :| Outside(t, client, a, y) && (a.id, y.id) == (i, j);
        DropClientEdgeComplete(t, client, a, y);
      }
      if (i, j) in ClientExposed(t, client) {
        var a, n, y :| ClientExposes(t, client, a, n, y) && (a.id, y.id) == (i, j);
        DropClientEdgeComplete(t, client, a, y);
      }
    }
  }

  /** Deleting a client enlarges no guarded closure exactly when no name it exposes brings a guarded role. */
  lemma DeleteClientShieldsIff(held: seq<string>, t: Table, client: ClientId)
    requires WellFormed(t)
    ensures Shielded(held, t, DropClient(t, client)) <==>
            var h := OutsideEdges(t, client) + ClientExposed(t, client);
            forall a, n, y :: ClientExposes(t, client, a, n, y) ==> !Gains(Edges(t), h, GuardedIds(held, t), a.id, y.id)
  {
    var e := ClientExposed(t, client);
    assert GuardedIds(held, DropClient(t, client)) == GuardedIds(held, t);
    DropClientEdges(t, client);
    assert OutsideEdges(t, client) <= Edges(t);
    AddedEdgesDecide(Edges(t), OutsideEdges(t, client), e, GuardedIds(held, t));
    assert forall a, n, y :: ClientExposes(t, client, a, n, y) ==> (a.id, y.id) in e;
  }

  // --- A name with two bearers ---------------------------------------------

  /**
    Realm role `p` stores a name that two clients' roles bear, so it grants nothing. One of them, `x`,
    contains an admin role.
   */
  ghost predicate TwoBearers(held: seq<string>, t: Table, admin: Role, p: Role, x: Role, y: Role) {
    && WellFormed(t) && admin in t && p in t && x in t && y in t && x != y && p != admin
    && Guarded(held, admin) && !p.clientRole && x.clientRole && y.clientRole && y.name == x.name
    && p.composites == [x.name] && (forall r :: r in t && r.name == x.name ==> r == x || r == y)
    && x.composites == [admin.name] && NoneMatches(t, ClientNamed(x.clientId, admin.name))
  }

  lemma BearersAreTwo(held: seq<string>, t: Table, admin: Role, p: Role, x: Role, y: Role)
    requires TwoBearers(held, t, admin, p, x, y)
    ensures Exposes(t, y, p, x) && Step(t, x, admin) && x.clientId != y.clientId && p.id != admin.id
  {
    assert p.composites[0] == y.name && x.composites[0] == admin.name;
    ClientNameNow(t, x, admin.name, admin);
    ContainerKeysAreUnique(t, ClientNamed(x.clientId, x.name));
    assert Matches(ClientNamed(x.clientId, x.name), x);
    assert x.clientId == y.clientId ==> Matches(ClientNamed(x.clientId, x.name), y);
    if p.id == admin.id {
      RowOf(t, p, admin);
    }
  }

  lemma NothingInReach(t: Table, p: Role, n: string, j: RoleId)
    requires WellFormed(t) && p in t && !p.clientRole && j != p.id && p.composites == [n] && Ambiguous(p, n, t)
    ensures !Reaches(Edges(t), p.id, j)
  {
    ResolutionsAgree(p, n, t);
    forall b ensures (p.id, b) !in Edges(t) {
      EdgesFrom(t, p, b);
    }
  }

  lemma BearersGrantNothing(held: seq<string>, t: Table, admin: Role, p: Role, x: Role, y: Role)
    requires TwoBearers(held, t, admin, p, x, y) && p.id != admin.id
    ensures !Reaches(Edges(t), p.id, admin.id)
  {
    assert Ambiguous(p, x.name, t);
    NothingInReach(t, p, x.name, admin.id);
  }

  lemma TwoStepsContain(held: seq<string>, t: Table, u: Table, admin: Role, p: RoleId, x: RoleId)
    requires admin in u && Guarded(held, admin) && !Reaches(Edges(t), p, admin.id)
    requires (p, x) in Edges(u) && (x, admin.id) in Edges(u)
    ensures Reaches(Edges(u), p, admin.id) && !Shielded(held, t, u)
  {
    ReachesSelf(Edges(u), admin.id);
    ReachesByEdge(Edges(u), x, admin.id, admin.id);
    ReachesByEdge(Edges(u), p, x, admin.id);
    assert admin.id in GuardedIds(held, u);
  }

  /** When the other bearer is deleted, `p` contains the admin role. */
  lemma DeleteUncoversAdminRole(held: seq<string>, t: Table, admin: Role, p: Role, x: Role, y: Role)
    requires TwoBearers(held, t, admin, p, x, y)
    ensures Reaches(Edges(C.Drop(t, y.id)), p.id, admin.id) && !Shielded(held, t, C.Drop(t, y.id))
  {
    BearersAreTwo(held, t, admin, p, x, y);
    DropRows(t, y);
    DropEdge(t, y, p.id, x.id);
    DropEdgesComplete(t, y, x, admin.name, admin);
    BearersGrantNothing(held, t, admin, p, x, y);
    TwoStepsContain(held, t, C.Drop(t, y.id), admin, p.id, x.id);
  }

  /** And when the client of the other bearer is. */
  lemma DeleteClientUncoversAdminRole(held: seq<string>, t: Table, admin: Role, p: Role, x: Role, y: Role)
    requires TwoBearers(held, t, admin, p, x, y)
    ensures var u := DropClient(t, y.clientId.value);
            Reaches(Edges(u), p.id, admin.id) && !Shielded(held, t, u)
  {
    var client := y.clientId.value;
    BearersAreTwo(held, t, admin, p, x, y);
    assert ClientExposes(t, client, p, x.name, x);
    DropClientEdgeComplete(t, client, p, x);
    assert Outside(t, client, x, admin);
    DropClientEdgeComplete(t, client, x, admin);
    BearersGrantNothing(held, t, admin, p, x, y);
    TwoStepsContain(held, t, DropClient(t, client), admin, p.id, x.id);
  }
}
