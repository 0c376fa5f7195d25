/**
  One realm's role table and the two ways a stored composite name is resolved in it:
  the lookup of the composites endpoints and the lookup of the effective-role expansion.
 */
module Roles {
  import opened Prelude

  type RoleId = string
  type ClientId = string

  datatype Role = Role(
    id: RoleId,
    name: string,
    description: Option<string>,
    clientRole: bool,
    clientId: Option<ClientId>,
    composite: bool,
    composites: seq<string>,
    attributes: map<string, seq<string>>)

  type Table = seq<Role>

  datatype Query = RealmNamed(name: string)
                 | ClientNamed(owner: Option<ClientId>, name: string)
                 | AnyClientNamed(name: string)
                 | OwnedNamed(owner: Option<ClientId>, name: string)

  predicate Matches(q: Query, r: Role) {
    match q
    case RealmNamed(name) => !r.clientRole && r.name == name
    case ClientNamed(owner, name) => r.clientRole && r.clientId == owner && r.name == name
    case AnyClientNamed(name) => r.clientRole && r.name == name
    case OwnedNamed(owner, name) => r.clientId == owner && r.name == name
  }

  ghost predicate DistinctIds(t: Table) {
    forall i, j :: 0 <= i < j < |t| ==> t[i].id != t[j].id
  }

  /** Client roles, and only they, have an owning client. */
  ghost predicate Owned(t: Table) {
    forall r :: r in t ==> (r.clientRole <==> r.clientId.Some?)
  }

  /** Names are unique per container (the realm, or one client). */
  ghost predicate UniqueNames(t: Table) {
    forall i, j :: 0 <= i < j < |t| ==> t[i].clientId != t[j].clientId || t[i].name != t[j].name
  }

  ghost predicate WellFormed(t: Table) {
    DistinctIds(t) && Owned(t) && UniqueNames(t)
  }

  // --- Lookups -------------------------------------------------------------

  function First(t: Table, q: Query): (r: Option<Role>)
    ensures r.Some? ==> r.value in t && Matches(q, r.value)
    ensures r.None? ==> forall x :: x in t ==> !Matches(q, x)
  {
    if t == [] then None else if Matches(q, t[0]) then Some(t[0]) else First(t[1..], q)
  }

  /** A hash map collected from the table keeps the last row of each key. */
  function Last(t: Table, q: Query): (r: Option<Role>)
    ensures r.Some? ==> r.value in t && Matches(q, r.value)
    ensures r.None? ==> forall x :: x in t ==> !Matches(q, x)
  {
    if t == [] then None
    else
      var n := |t| - 1;
      assert forall x :: x in t ==> x in t[..n] || x == t[n];
      if Matches(q, t[n]) then Some(t[n]) else Last(t[..n], q)
  }

  /** The first match, provided no later row matches too. */
  function Sole(t: Table, q: Query): (r: Option<Role>)
    ensures r.Some? ==> r.value in t && Matches(q, r.value)
    ensures r.Some? ==> forall x :: x in t && Matches(q, x) ==> x == r.value
  {
    if t == [] then None
    else if !Matches(q, t[0]) then Sole(t[1..], q)
    else if First(t[1..], q).None? then Some(t[0])
    else None
  }

  /** How the composites endpoints read a stored name (`resolve_child_name`). */
  function ResolveChildName(parent: Role, name: string, all: Table): (r: Option<Role>)
    ensures r.Some? ==> r.value in all && r.value.name == name
  {
    if parent.clientRole then
      OrElse(First(all, ClientNamed(parent.clientId, name)), First(all, RealmNamed(name)))
    else
      OrElse(First(all, RealmNamed(name)), First(all, AnyClientNamed(name)))
  }

  /** How `expand_composites` reads a stored name: an ambiguous client-role name grants nothing. */
  function ResolveExpansion(role: Role, name: string, all: Table): (r: Option<Role>)
    ensures r.Some? ==> r.value in all && r.value.name == name
  {
    if role.clientRole then
      OrElse(if role.clientId.Some? then Last(all, ClientNamed(role.clientId, name)) else None,
             Last(all, RealmNamed(name)))
    else
      OrElse(Last(all, RealmNamed(name)), Sole(all, AnyClientNamed(name)))
  }

  /** A realm role names something that only client roles answer to, and more than one does. */
  ghost predicate Ambiguous(parent: Role, name: string, all: Table) {
    && !parent.clientRole
    && (forall r :: r in all ==> !Matches(RealmNamed(name), r))
    && exists a, b :: a in all && b in all && a != b && Matches(AnyClientNamed(name), a) && Matches(AnyClientNamed(name), b)
  }

  // --- Facts about lookups -------------------------------------------------

  ghost predicate AtMostOne(t: Table, q: Query) {
    forall a, b :: a in t && b in t && Matches(q, a) && Matches(q, b) ==> a == b
  }

  /** In a well-formed table a container and a name pin down one row. */
  lemma ContainerKeysAreUnique(t: Table, q: Query)
    requires Owned(t) && UniqueNames(t)
    requires q.RealmNamed? || (q.ClientNamed? && q.owner.Some?)
    ensures AtMostOne(t, q)
  {
    forall a, b | a in t && b in t && Matches(q, a) && Matches(q, b) ensures a == b {
      var i :| 0 <= i < |t| && t[i] == a;
      var j :| 0 <= j < |t| && t[j] == b;
      assert a.clientId == b.clientId;
    }
  }

  lemma {:induction false} SoleWhenUnique(t: Table, q: Query)
    requires DistinctIds(t)
    ensures Sole(t, q).Some? <==> AtMostOne(t, q) && exists x :: x in t && Matches(q, x)
  {
    if t == [] {
    } else if !Matches(q, t[0]) {
      SoleWhenUnique(t[1..], q);
      assert forall x :: x in t && Matches(q, x) <==> x in t[1..] && Matches(q, x);
    } else if First(t[1..], q).Some? {
      var y := First(t[1..], q).value;
      assert t[0] in t && y in t && t[0].id != y.id;
    }
  }

  /** A stored name that still resolves for expansion resolves for the endpoints as well. */
  lemma ExpansionImpliesChild(parent: Role, name: string, all: Table)
    ensures ResolveExpansion(parent, name, all).Some? ==> ResolveChildName(parent, name, all).Some?
  {
  }

  /**
    The composites endpoints document that they mirror the expansion. They do, except for
    exactly the ambiguous client-role names under a realm role.
   */
  lemma ResolutionsAgree(parent: Role, name: string, all: Table)
    requires WellFormed(all) && (parent.clientRole <==> parent.clientId.Some?)
    ensures ResolveChildName(parent, name, all) == ResolveExpansion(parent, name, all) <==> !Ambiguous(parent, name, all)
    ensures Ambiguous(parent, name, all) ==>
              ResolveChildName(parent, name, all).Some? && ResolveExpansion(parent, name, all).None?
  {
    ContainerKeysAreUnique(all, RealmNamed(name));
    if parent.clientRole {
      ContainerKeysAreUnique(all, ClientNamed(parent.clientId, name));
    } else {
      SoleWhenUnique(all, AnyClientNamed(name));
    }
  }

  lemma FirstIgnoresOrder(t: Table, u: Table, q: Query)
    requires multiset(t) == multiset(u) && AtMostOne(t, q)
    ensures First(t, q) == First(u, q)
  {
    forall x ensures x in t <==> x in u { assert x in t <==> x in multiset(t); }
  }

  /**
    A client role's stored names resolve the same in every listing order, and never to a role
    of another client.
   */
  lemma ClientParentResolution(parent: Role, name: string, t: Table, u: Table)
    requires parent.clientRole && parent.clientId.Some?
    requires Owned(t) && UniqueNames(t) && multiset(t) == multiset(u)
    ensures ResolveChildName(parent, name, t) == ResolveChildName(parent, name, u)
    ensures ResolveChildName(parent, name, t).Some? ==>
              ResolveChildName(parent, name, t).value.clientId in {None, parent.clientId}
  {
    ContainerKeysAreUnique(t, ClientNamed(parent.clientId, name));
    ContainerKeysAreUnique(t, RealmNamed(name));
    FirstIgnoresOrder(t, u, ClientNamed(parent.clientId, name));
    FirstIgnoresOrder(t, u, RealmNamed(name));
  }

  // --- What a name stands for ----------------------------------------------

  ghost predicate FirstAt(t: Table, q: Query, r: Role, i: nat) {
    i < |t| && t[i] == r && Matches(q, r) && forall j :: 0 <= j < i ==> !Matches(q, t[j])
  }

  lemma {:induction false} FirstIs(t: Table, q: Query, r: Role)
    ensures First(t, q) == Some(r) <==> exists i: nat :: FirstAt(t, q, r, i)
  {
    if t != [] {
      FirstIs(t[1..], q, r);
      if Matches(q, t[0]) {
        assert t[0] == r ==> FirstAt(t, q, r, 0);
      } else {
        if i: nat :| FirstAt(t[1..], q, r, i) {
          assert FirstAt(t, q, r, i + 1);
        }
        if i: nat :| FirstAt(t, q, r, i) {
          assert FirstAt(t[1..], q, r, i - 1);
        }
      }
    }
  }

  ghost predicate NoneMatches(t: Table, q: Query) {
    forall x :: x in t ==> !Matches(q, x)
  }

  /** The endpoints: own client role, else realm role; for a realm role its own kind, else the first client role listed. */
  lemma ChildNameIff(parent: Role, name: string, all: Table, r: Role)
    requires WellFormed(all) && (parent.clientRole <==> parent.clientId.Some?)
    ensures ResolveChildName(parent, name, all) == Some(r) <==>
            if parent.clientRole then
              || (r in all && Matches(ClientNamed(parent.clientId, name), r))
              || (r in all && Matches(RealmNamed(name), r) && NoneMatches(all, ClientNamed(parent.clientId, name)))
            else
              || (r in all && Matches(RealmNamed(name), r))
              || (NoneMatches(all, RealmNamed(name)) && exists i: nat :: FirstAt(all, AnyClientNamed(name), r, i))
  {
    ContainerKeysAreUnique(all, RealmNamed(name));
    FirstIs(all, AnyClientNamed(name), r);
    if parent.clientRole {
      ContainerKeysAreUnique(all, ClientNamed(parent.clientId, name));
    }
  }

  /** The expansion: the same, but a client-role name under a realm role has to have one bearer only. */
  lemma ExpansionNameIff(parent: Role, name: string, all: Table, r: Role)
    requires WellFormed(all) && (parent.clientRole <==> parent.clientId.Some?)
    ensures ResolveExpansion(parent, name, all) == Some(r) <==>
            if parent.clientRole then
              || (r in all && Matches(ClientNamed(parent.clientId, name), r))
              || (r in all && Matches(RealmNamed(name), r) && NoneMatches(all, ClientNamed(parent.clientId, name)))
            else
              || (r in all && Matches(RealmNamed(name), r))
              || (&& NoneMatches(all, RealmNamed(name)) && r in all && Matches(AnyClientNamed(name), r)
                  && forall x :: x in all && Matches(AnyClientNamed(name), x) ==> x == r)
  {
    ContainerKeysAreUnique(all, RealmNamed(name));
    SoleWhenUnique(all, AnyClientNamed(name));
    if parent.clientRole {
      ContainerKeysAreUnique(all, ClientNamed(parent.clientId, name));
    }
  }

  /** Read from a realm role: a realm role of the name, or the only role of the name at all. */
  ghost predicate Bears(t: Table, n: string, y: Role) {
    y in t && y.name == n && (y.clientRole ==> forall z :: z in t && z.name == n ==> z == y)
  }

  lemma RealmNameNow(t: Table, a: Role, n: string, y: Role)
    requires WellFormed(t) && !a.clientRole && a.clientId.None?
    ensures ResolveExpansion(a, n, t) == Some(y) <==> Bears(t, n, y)
  {
    ExpansionNameIff(a, n, t, y);
  }

  /** Read from a client role: a role of the client, or else a realm role. */
  ghost predicate OwnBears(t: Table, a: Role, n: string, y: Role) {
    var own := ClientNamed(a.clientId, n);
    y in t && Matches(if NoneMatches(t, own) then RealmNamed(n) else own, y)
  }

  lemma ClientNameNow(t: Table, a: Role, n: string, y: Role)
    requires WellFormed(t) && a.clientRole && a.clientId.Some?
    ensures ResolveExpansion(a, n, t) == Some(y) <==> OwnBears(t, a, n, y)
  {
    ExpansionNameIff(a, n, t, y);
  }
}
