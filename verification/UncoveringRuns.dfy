/**
  No table is safe from the steps that enlarge: from every well-formed one with an admin role that the caller
  may not grant, two accepted writes end in a client role that contains it, and so do three.
 */
module UncoveringRuns {
  import opened Prelude
  import opened Names
  import opened Roles
  import opened Digraph
  import opened Expansion
  import opened Composites
  import opened RoleStore
  import opened RoleWrites
  import opened RoleDeletes
  import opened RowRewrites
  import opened RoleRuns
  import C = ClientRoles

  function Body(name: string, composites: seq<string>): C.RoleRep {
    C.RoleRep(None, name, None, None, Some(composites), None)
  }

  function NewRole(client: ClientId, id: RoleId, name: string, composites: seq<string>): Role {
    Role(id, name, None, true, Some(client), false, composites, map[])
  }

  ghost predicate FreeName(t: Table, client: ClientId, name: string) {
    ValidName(name) == Some(name) && NoneMatches(t, OwnedNamed(Some(client), name))
  }

  ghost predicate FreeId(t: Table, id: RoleId) {
    id != "" && id !in Ids(t)
  }

  predicate Lower(s: string) {
    forall i :: 0 <= i < |s| ==> 'a' <= s[i] <= 'z' || s[i] == '-'
  }

  lemma LowerIsValid(name: string)
    requires 0 < |name| < 60 && Lower(name)
    ensures ValidName(name) == Some(name)
  {
    Utf8LengthBound(name);
  }

  lemma AdminNamesAreValid(name: string)
    requires name in ADMIN_ROLES
    ensures ValidName(name) == Some(name)
  {
    var i :| 0 <= i < |ADMIN_ROLES| && ADMIN_ROLES[i] == name;
    assert Lower("manage-realm") && Lower("view-realm") && Lower("manage-users") && Lower("view-users");
    assert Lower("manage-clients") && Lower("view-clients") && Lower("impersonation");
    LowerIsValid(name);
  }

  lemma CreateLands(held: seq<string>, t: Table, client: ClientId, id: RoleId, name: string, composites: seq<string>)
    requires WellFormed(t) && FreeName(t, client, name) && FreeId(t, id)
    requires Grants(held, t, None, NewRole(client, id, name, composites))
    ensures Next(t, Create(client, Body(name, composites), id), held) == t + [NewRole(client, id, name, composites)]
    ensures WellFormed(t + [NewRole(client, id, name, composites)])
  {
    var row := NewRole(client, id, name, composites);
    assert C.FromRep(Body(name, composites), client, id) == Some(row);
    C.CreateKeepsUnique(t, client, Body(name, composites), id, true);
  }

  /** A candidate all of whose targets lie in a set that no edge leaves reaches nothing guarded outside of it. */
  lemma ClosedCandidate(held: seq<string>, t: Table, previous: Option<Role>, c: Role, s: iset<RoleId>)
    requires c.id in s && Targets(c, Stored(c), t) <= s && (forall a, b :: (a, b) in Edges(t) && a in s ==> a == c.id || b in s)
    requires forall r :: r in t && Guarded(held, r) ==> r.id !in s
    ensures Grants(held, t, previous, c)
  {
    var g := CandidateGraph(t, c);
    forall r | r in t && Guarded(held, r) ensures !Reaches(g, c.id, r.id) {
      if Reaches(g, c.id, r.id) {
        var n: nat :| ReachesIn(g, c.id, r.id, n);
        ClosedSetsKeepPaths(g, s, c.id, r.id, n);
      }
    }
  }

  // --- A role that hides the admin role ------------------------------------

  /** An admin role the caller may not grant, a free name of its spelling in the client, and a free id. */
  ghost predicate Start(held: seq<string>, t: Table, admin: Role, client: ClientId, id: RoleId) {
    && WellFormed(t) && admin in t && Guarded(held, admin) && "manage-realm" !in held
    && NoneMatches(t, OwnedNamed(Some(client), admin.name)) && FreeId(t, id)
  }

  ghost function Hiding(admin: Role, client: ClientId, id: RoleId): Role {
    NewRole(client, id, admin.name, [])
  }

  lemma HidingLands(held: seq<string>, t: Table, admin: Role, client: ClientId, id: RoleId)
    requires Start(held, t, admin, client, id)
    ensures Next(t, Create(client, Body(admin.name, []), id), held) == t + [Hiding(admin, client, id)]
    ensures WellFormed(t + [Hiding(admin, client, id)])
  {
    DeniedIff(held, admin);
    AdminNamesAreValid(admin.name);
    ClosedCandidate(held, t, None, Hiding(admin, client, id), iset{id});
    CreateLands(held, t, client, id, admin.name, []);
  }

  /** In the client's other roles the name of the admin role now stands for the role that hides it. */
  lemma HidingHides(held: seq<string>, t: Table, admin: Role, client: ClientId, id: RoleId, c: Role)
    requires Start(held, t, admin, client, id) && WellFormed(t + [Hiding(admin, client, id)])
    requires c.clientRole && c.clientId == Some(client) && c.composites == [admin.name]
    ensures Targets(c, Stored(c), t + [Hiding(admin, client, id)]) == iset{id}
  {
    var x := Hiding(admin, client, id);
    var u := t + [x];
    assert u[|t|] == x;
    assert Matches(ClientNamed(Some(client), admin.name), x);
    ClientNameNow(u, c, admin.name, x);
    assert c.composites[0] == admin.name;
  }

  lemma NoNamesNoEdges(u: Table, x: Role, b: RoleId)
    requires DistinctIds(u) && x in u && x.composites == []
    ensures (x.id, b) !in Edges(u)
  {
    EdgesFrom(u, x, b);
  }

  lemma NewIdReachesNothing(t: Table, id: RoleId, j: RoleId)
    requires id !in Ids(t) && j != id
    ensures !Reaches(Edges(t), id, j)
  {
    assert forall b :: (id, b) !in Edges(t);
  }

  lemma NowContains(held: seq<string>, t: Table, u: Table, admin: Role, id: RoleId)
    requires admin in t && admin in u && Guarded(held, admin) && id !in Ids(t) && (id, admin.id) in Edges(u)
    ensures Reaches(Edges(u), id, admin.id) && !Shielded(held, t, u)
  {
    ReachesSelf(Edges(u), admin.id);
    ReachesByEdge(Edges(u), id, admin.id, admin.id);
    NewIdReachesNothing(t, id, admin.id);
    assert admin.id in GuardedIds(held, u);
  }

  // --- Renaming it ---------------------------------------------------------

  lemma RenameGranted(held: seq<string>, t: Table, admin: Role, client: ClientId, id: RoleId, name: string)
    requires Start(held, t, admin, client, id) && WellFormed(t + [Hiding(admin, client, id)])
    ensures var x := Hiding(admin, client, id);
            Grants(held, t + [x], Some(x), NewRole(client, id, name, [admin.name]))
  {
    var x, row := Hiding(admin, client, id), NewRole(client, id, name, [admin.name]);
    HidingHides(held, t, admin, client, id, row);
    forall r | r in t + [x] && Guarded(held, r) ensures r.id !in iset{id} {
      assert r in t;
    }
    ClosedCandidate(held, t + [x], Some(x), row, iset{id});
  }

  lemma RenameRow(t: Table, x: Role, client: ClientId, name: string, composites: seq<string>)
    requires x == NewRole(client, x.id, x.name, []) && x.id != "" && WellFormed(t) && x in t
    requires ValidName(name) == Some(name) && NoneMatches(t, OwnedNamed(Some(client), name))
    ensures C.UpdateOutcome(t, client, x.name, Body(name, composites), true) ==
            Ok(ReplaceRow(t, NewRole(client, x.id, name, composites)))
    ensures First(t, OwnedNamed(Some(client), x.name)) == Some(x)
    ensures C.FromRep(Body(name, composites), client, x.id) == Some(NewRole(client, x.id, name, composites))
  {
    C.NamedRowIsFound(t, client, x.name, x);
  }

  lemma JudgedUpdate(held: seq<string>, t: Table, client: ClientId, x: Role, rep: C.RoleRep, role: Role)
    requires First(t, OwnedNamed(Some(client), x.name)) == Some(x) && C.FromRep(rep, client, x.id) == Some(role)
    requires Grants(held, t, Some(x), C.UpdatedRow(x, role, rep))
    ensures Judged(t, Update(client, x.name, rep), held) == C.Update(client, x.name, rep, true)
  {
  }

  lemma GrantedUpdateLands(
    held: seq<string>, t: Table, client: ClientId, x: Role, rep: C.RoleRep, role: Role, u: Table)
    requires First(t, OwnedNamed(Some(client), x.name)) == Some(x) && C.FromRep(rep, client, x.id) == Some(role)
    requires Grants(held, t, Some(x), C.UpdatedRow(x, role, rep)) && C.UpdateOutcome(t, client, x.name, rep, true) == Ok(u)
    ensures Next(t, Update(client, x.name, rep), held) == u
  {
    JudgedUpdate(held, t, client, x, rep, role);
    assert C.Next(t, C.Update(client, x.name, rep, true)) == u;
  }

  lemma RenameLands(held: seq<string>, t: Table, admin: Role, client: ClientId, id: RoleId, name: string)
    requires Start(held, t, admin, client, id) && WellFormed(t + [Hiding(admin, client, id)])
    requires FreeName(t, client, name) && name != admin.name
    ensures Next(t + [Hiding(admin, client, id)], Update(client, admin.name, Body(name, [admin.name])), held) ==
            ReplaceRow(t + [Hiding(admin, client, id)], NewRole(client, id, name, [admin.name]))
  {
    var x, row, rep := Hiding(admin, client, id), NewRole(client, id, name, [admin.name]), Body(name, [admin.name]);
    assert (t + [x])[|t|] == x;
    RenameRow(t + [x], x, client, name, [admin.name]);
    RenameGranted(held, t, admin, client, id, name);
    GrantedUpdateLands(held, t + [x], client, x, rep, row, ReplaceRow(t + [x], row));
  }

  lemma RenameUncovers(held: seq<string>, t: Table, admin: Role, client: ClientId, id: RoleId, name: string)
    requires Start(held, t, admin, client, id) && WellFormed(t + [Hiding(admin, client, id)]) && name != admin.name
    ensures var u := ReplaceRow(t + [Hiding(admin, client, id)], NewRole(client, id, name, [admin.name]));
            admin in u && (id, admin.id) in Edges(u)
  {
    var x, row := Hiding(admin, client, id), NewRole(client, id, name, [admin.name]);
    var v := t + [x];
    assert v[|t|] == x && x in v && admin in v && Rewrites(v, x, row);
    assert Frees(v, x, row, row, admin);
    assert row.composites[0] == x.name;
    OwnSteps(v, x, row, admin);
    OtherRows(v, x, row, admin);
  }

  /** Created under the name of the admin role, then renamed while it stores that name: it contains the admin role. */
  lemma RenameReachesAdminRole(held: seq<string>, t: Table, admin: Role, client: ClientId, id: RoleId, name: string)
    requires Start(held, t, admin, client, id) && FreeName(t, client, name) && name != admin.name
    ensures var ops := [Create(client, Body(admin.name, []), id), Update(client, admin.name, Body(name, [admin.name]))];
            Reaches(Edges(RoleRuns.Run(t, ops, held)), id, admin.id) && !Shielded(held, t, RoleRuns.Run(t, ops, held))
  {
    var first, second := Create(client, Body(admin.name, []), id), Update(client, admin.name, Body(name, [admin.name]));
    var ops := [first, second];
    assert ops[..1] == [first] && [first][..0] == [];
    HidingLands(held, t, admin, client, id);
    assert RoleRuns.Run(t, [first], held) == t + [Hiding(admin, client, id)];
    RenameLands(held, t, admin, client, id, name);
    RenameUncovers(held, t, admin, client, id, name);
    NowContains(held, t, RoleRuns.Run(t, ops, held), admin, id);
  }

  // --- Deleting it ---------------------------------------------------------

  lemma SecondLands(held: seq<string>, t: Table, admin: Role, client: ClientId, id: RoleId, second: RoleId, name: string)
    requires Start(held, t, admin, client, id) && WellFormed(t + [Hiding(admin, client, id)])
    requires FreeName(t, client, name) && name != admin.name && FreeId(t, second) && second != id
    ensures var u := t + [Hiding(admin, client, id)];
            && Next(u, Create(client, Body(name, [admin.name]), second), held) == u + [NewRole(client, second, name, [admin.name])]
            && WellFormed(u + [NewRole(client, second, name, [admin.name])])
  {
    var x, row := Hiding(admin, client, id), NewRole(client, second, name, [admin.name]);
    var u := t + [x];
    assert u[|t|] == x;
    HidingHides(held, t, admin, client, id, row);
    forall b ensures (id, b) !in Edges(u) {
      NoNamesNoEdges(u, x, b);
    }
    forall r | r in u && Guarded(held, r) ensures r.id !in iset{id, second} {
      assert r in t;
    }
    ClosedCandidate(held, u, None, row, iset{id, second});
    CreateLands(held, u, client, second, name, [admin.name]);
  }

  lemma DeleteLands(held: seq<string>, t: Table, client: ClientId, x: Role)
    requires Owned(t) && UniqueNames(t) && x in t && x.clientId == Some(client)
    ensures Next(t, Delete(client, x.name), held) == C.Drop(t, x.id)
  {
    C.NamedRowIsFound(t, client, x.name, x);
    assert Judged(t, Delete(client, x.name), held) == C.Delete(client, x.name);
    assert C.Next(t, C.Delete(client, x.name)) == C.Drop(t, x.id);
  }

  lemma DeleteUncovers(held: seq<string>, t: Table, admin: Role, x: Role, row: Role)
    requires WellFormed(t) && admin in t && x in t && row in t && row != x && Guarded(held, admin)
    requires x.clientRole && row.clientRole && row.clientId == x.clientId && x.name == admin.name && row.composites == [admin.name]
    ensures admin in C.Drop(t, x.id) && (row.id, admin.id) in Edges(C.Drop(t, x.id))
  {
    assert row.composites[0] == x.name;
    assert Exposes(t, x, row, admin);
    DropEdge(t, x, row.id, admin.id);
    DropRows(t, x);
  }

  /** Created under the name of the admin role, stored by a second role, then deleted: the second contains the admin role. */
  lemma DeleteReachesAdminRole(
    held: seq<string>, t: Table, admin: Role, client: ClientId, id: RoleId, second: RoleId, name: string)
    requires Start(held, t, admin, client, id)
    requires FreeName(t, client, name) && name != admin.name && FreeId(t, second) && second != id
    ensures var ops := [Create(client, Body(admin.name, []), id), Create(client, Body(name, [admin.name]), second),
                        Delete(client, admin.name)];
            Reaches(Edges(RoleRuns.Run(t, ops, held)), second, admin.id) && !Shielded(held, t, RoleRuns.Run(t, ops, held))
  {
    var x, row := Hiding(admin, client, id), NewRole(client, second, name, [admin.name]);
    var a, b := Create(client, Body(admin.name, []), id), Create(client, Body(name, [admin.name]), second);
    var ops := [a, b, Delete(client, admin.name)];
    assert [a][..0] == [] && [a, b][..1] == [a] && ops[..2] == [a, b];
    HidingLands(held, t, admin, client, id);
    assert RoleRuns.Run(t, [a], held) == t + [x];
    SecondLands(held, t, admin, client, id, second, name);
    var u := t + [x] + [row];
    assert RoleRuns.Run(t, [a, b], held) == u;
    assert u[|t|] == x && u[|t| + 1] == row && admin in u;
    DeleteLands(held, u, client, x);
    DeleteUncovers(held, u, admin, x, row);
    NowContains(held, t, C.Drop(u, x.id), admin, second);
  }
}
