/**
  The composites endpoints: resolving a request body, the rows that the union-add and the removal
  store, and what replacing one row does to the edges of the graph.
 */
module Composites {
  import opened Prelude
  import opened Roles
  import opened Expansion

  // --- Request bodies ------------------------------------------------------

  datatype RoleRef = RoleRef(id: Option<string>, name: string, clientRole: Option<bool>, containerId: Option<string>)

  function ById(t: Table, id: RoleId): (r: Option<Role>)
    ensures r.Some? ==> r.value in t && r.value.id == id
    ensures r.None? ==> id !in Ids(t)
  {
    if t == [] then None else if t[0].id == id then Some(t[0]) else ById(t[1..], id)
  }

  function Found(r: Option<Role>): (res: Result<Role, ApiError>) {
    if r.Some? then Ok(r.value) else Err(NotFound)
  }

  function ResolveRef(ref: RoleRef, t: Table): (res: Result<Role, ApiError>)
    ensures res.Ok? ==> res.value in t
  {
    match ref.id
    case Some(id) => if id == "" then Err(BadRequest) else Found(ById(t, id))
    case None =>
      if ref.clientRole == Some(true) then
        match ref.containerId
        case None => Err(BadRequest)
        case Some(c) => if c == "" then Err(BadRequest) else Found(First(t, OwnedNamed(Some(c), ref.name)))
      else
        Found(OrElse(First(t, RealmNamed(ref.name)), First(t, AnyClientNamed(ref.name))))
  }

  function ResolveRefs(refs: seq<RoleRef>, t: Table): (res: Result<seq<Role>, ApiError>)
    ensures res.Ok? ==> |res.value| == |refs| && forall r :: r in res.value ==> r in t
  {
    if refs == [] then Ok([])
    else
      var n := |refs| - 1;
      match ResolveRefs(refs[..n], t)
      case Err(e) => Err(e)
      case Ok(roles) =>
        match ResolveRef(refs[n], t)
        case Err(e) => Err(e)
        case Ok(r) => Ok(roles + [r])
  }

  ghost predicate ResolvesTo(refs: seq<RoleRef>, t: Table, roles: seq<Role>) {
    |roles| == |refs| && forall i :: 0 <= i < |refs| ==> ResolveRef(refs[i], t) == Ok(roles[i])
  }

  ghost predicate FailsFirst(refs: seq<RoleRef>, t: Table, i: nat, e: ApiError) {
    i < |refs| && ResolveRef(refs[i], t) == Err(e) && forall j :: 0 <= j < i ==> ResolveRef(refs[j], t).Ok?
  }

  lemma ResolvesSnoc(refs: seq<RoleRef>, t: Table, roles: seq<Role>, ref: RoleRef)
    requires ResolvesTo(refs, t, roles)
    ensures match ResolveRef(ref, t)
            case Ok(r) => ResolvesTo(refs + [ref], t, roles + [r])
            case Err(e) => FailsFirst(refs + [ref], t, |refs|, e)
  {
  }

  /** A body resolves to the role of each reference in turn, or to the error of the first that has none. */
  lemma {:induction false} ResolveRefsInTurn(refs: seq<RoleRef>, t: Table)
    ensures match ResolveRefs(refs, t)
            case Ok(roles) => ResolvesTo(refs, t, roles)
            case Err(e) => exists i: nat :: FailsFirst(refs, t, i, e)
  {
    if refs != [] {
      var n := |refs| - 1;
      var front := ResolveRefs(refs[..n], t);
      ResolveRefsInTurn(refs[..n], t);
      assert refs == refs[..n] + [refs[n]];
      if front.Ok? {
        ResolvesSnoc(refs[..n], t, front.value, refs[n]);
        if ResolveRef(refs[n], t).Err? {
          var e := ResolveRef(refs[n], t).error;
          assert ResolveRefs(refs, t) == Err(e) && FailsFirst(refs, t, n, e);
        }
      } else {
        var i: nat :| FailsFirst(refs[..n], t, i, front.error);
        assert ResolveRefs(refs, t) == Err(front.error) && FailsFirst(refs, t, i, front.error);
      }
    }
  }

  /** Which role a reference stands for: by its id; else by name the client's own, a realm role, or the first client role. */
  lemma RefStandsFor(ref: RoleRef, t: Table, r: Role)
    requires WellFormed(t)
    ensures ResolveRef(ref, t) == Ok(r) <==>
            if ref.id.Some? then ref.id.value != "" && r in t && r.id == ref.id.value
            else if ref.clientRole == Some(true) then
              ref.containerId.Some? && ref.containerId.value != "" && r in t && Matches(ClientNamed(ref.containerId, ref.name), r)
            else
              || (r in t && Matches(RealmNamed(ref.name), r))
              || (NoneMatches(t, RealmNamed(ref.name)) && exists i: nat :: FirstAt(t, AnyClientNamed(ref.name), r, i))
    ensures ResolveRef(ref, t) == Err(BadRequest) <==>
            if ref.id.Some? then ref.id.value == ""
            else ref.clientRole == Some(true) && (ref.containerId.None? || ref.containerId.value == "")
    ensures ResolveRef(ref, t).Err? ==> ResolveRef(ref, t).error in {BadRequest, NotFound}
  {
    ContainerKeysAreUnique(t, RealmNamed(ref.name));
    FirstIs(t, AnyClientNamed(ref.name), r);
    if ref.id.Some? {
      RefById(t, ref.id.value, r);
    } else if ref.clientRole == Some(true) && ref.containerId.Some? {
      OwnedIsClientNamed(t, ref.containerId.value, ref.name, r);
    }
  }

  lemma RefById(t: Table, id: RoleId, r: Role)
    requires DistinctIds(t)
    ensures ById(t, id) == Some(r) <==> r in t && r.id == id
  {
    if r in t && r.id == id {
      RowOf(t, ById(t, id).value, r);
    }
  }

  lemma OwnedIsClientNamed(t: Table, client: ClientId, name: string, r: Role)
    requires WellFormed(t)
    ensures First(t, OwnedNamed(Some(client), name)) == Some(r) <==> r in t && Matches(ClientNamed(Some(client), name), r)
  {
    ContainerKeysAreUnique(t, ClientNamed(Some(client), name));
    forall x | x in t ensures Matches(OwnedNamed(Some(client), name), x) <==> Matches(ClientNamed(Some(client), name), x) {}
  }

  // --- The candidate set and the written row -------------------------------

  function DirectChildren(parent: Role, names: seq<string>, all: Table): (r: seq<Role>) {
    if names == [] then []
    else
      var n := |names| - 1;
      var rest := DirectChildren(parent, names[..n], all);
      var c := ResolveChildName(parent, names[n], all);
      if c.Some? then rest + [c.value] else rest
  }

  /** Dangling names are skipped; everything else is listed. */
  lemma {:induction false} DirectChildrenListed(parent: Role, names: seq<string>, all: Table, c: Role)
    ensures c in DirectChildren(parent, names, all) <==>
            c in all && c.name in names && ResolveChildName(parent, c.name, all) == Some(c)
  {
    if names != [] {
      var n := |names| - 1;
      DirectChildrenListed(parent, names[..n], all, c);
      assert c.name in names <==> c.name in names[..n] || c.name == names[n];
    }
  }

  /** Union by id, as the add loop builds it. */
  function UnionById(children: seq<Role>, additions: seq<Role>): (r: seq<Role>)
    ensures children <= r
    ensures forall c :: c in r ==> c in children || c in additions
    ensures forall a :: a in additions ==> a.id in Ids(r)
  {
    if additions == [] then children
    else
      var n := |additions| - 1;
      var u := UnionById(children, additions[..n]);
      if additions[n].id in Ids(u) then u
      else assert Ids(u + [additions[n]]) == Ids(u) + {additions[n].id}; u + [additions[n]]
  }

  function Candidates(parent: Role, additions: seq<Role>, all: Table): (r: seq<Role>) {
    UnionById(DirectChildren(parent, parent.composites, all), additions)
  }

  /** The names in order of first occurrence. */
  function DistinctNames(children: seq<Role>): (r: seq<string>)
    ensures Distinct(r)
    ensures forall n :: n in r <==> exists c :: c in children && c.name == n
  {
    if children == [] then []
    else
      var k := |children| - 1;
      var rest := DistinctNames(children[..k]);
      assert forall c :: c in children <==> c in children[..k] || c == children[k];
      if children[k].name in rest then rest else rest + [children[k].name]
  }

  function WithNames(parent: Role, names: seq<string>): (r: Role) {
    parent.(composites := names, composite := names != [])
  }

  function AddedRow(parent: Role, additions: seq<Role>, all: Table): (r: Role) {
    WithNames(parent, DistinctNames(Candidates(parent, additions, all)))
  }

  function Without(names: seq<string>, removed: set<string>): (r: seq<string>)
    ensures forall n :: n in r <==> n in names && n !in removed
  {
    if names == [] then []
    else
      var k := |names| - 1;
      assert forall n :: n in names <==> n in names[..k] || n == names[k];
      var rest := Without(names[..k], removed);
      if names[k] in removed then rest else rest + [names[k]]
  }

  function Names(roles: seq<Role>): (r: set<string>) {
    set x | x in roles :: x.name
  }

  function RemovedRow(parent: Role, removals: seq<Role>): (r: Role) {
    WithNames(parent, Without(parent.composites, Names(removals)))
  }

  function Swap(r: Role, row: Role): (x: Role) {
    if r.id == row.id then row else r
  }

  function ReplaceRow(t: Table, row: Role): (u: Table)
    ensures |u| == |t| && forall i :: 0 <= i < |t| ==> u[i] == Swap(t[i], row)
  {
    if t == [] then [] else [Swap(t[0], row)] + ReplaceRow(t[1..], row)
  }

  // --- Replacing a row's composites ---------------------------------------

  /** `row` differs from its stored version only in what it contains, not in how it is found. */
  ghost predicate SameSite(t: Table, row: Role) {
    forall r :: r in t && r.id == row.id ==> r.name == row.name && r.clientRole == row.clientRole && r.clientId == row.clientId
  }

  function SwapOption(r: Option<Role>, row: Role): (x: Option<Role>) {
    if r.Some? then Some(Swap(r.value, row)) else None
  }

  lemma SwapKeepsMatches(t: Table, row: Role, q: Query, r: Role)
    requires SameSite(t, row) && r in t
    ensures Matches(q, Swap(r, row)) == Matches(q, r)
  {
  }

  lemma {:induction false} FirstAfterReplace(t: Table, row: Role, q: Query)
    requires SameSite(t, row)
    ensures First(ReplaceRow(t, row), q) == SwapOption(First(t, q), row)
  {
    if t != [] {
      FirstAfterReplace(t[1..], row, q);
      SwapKeepsMatches(t, row, q, t[0]);
      assert ReplaceRow(t, row)[1..] == ReplaceRow(t[1..], row);
    }
  }

  lemma {:induction false} LastAfterReplace(t: Table, row: Role, q: Query)
    requires SameSite(t, row)
    ensures Last(ReplaceRow(t, row), q) == SwapOption(Last(t, q), row)
  {
    if t != [] {
      var n := |t| - 1;
      LastAfterReplace(t[..n], row, q);
      SwapKeepsMatches(t, row, q, t[n]);
      assert ReplaceRow(t, row)[..n] == ReplaceRow(t[..n], row);
    }
  }

  lemma {:induction false} SoleAfterReplace(t: Table, row: Role, q: Query)
    requires SameSite(t, row)
    ensures Sole(ReplaceRow(t, row), q) == SwapOption(Sole(t, q), row)
  {
    if t != [] {
      SoleAfterReplace(t[1..], row, q);
      FirstAfterReplace(t[1..], row, q);
      SwapKeepsMatches(t, row, q, t[0]);
      assert ReplaceRow(t, row)[1..] == ReplaceRow(t[1..], row);
    }
  }

  lemma ResolveAfterReplace(t: Table, row: Role, a: Role, name: string)
    requires SameSite(t, row)
    ensures ResolveExpansion(a, name, ReplaceRow(t, row)) == SwapOption(ResolveExpansion(a, name, t), row)
  {
    LastAfterReplace(t, row, ClientNamed(a.clientId, name));
    LastAfterReplace(t, row, RealmNamed(name));
    SoleAfterReplace(t, row, AnyClientNamed(name));
  }

  /** The ids a set of stored names stands for, read from `parent`. */
  ghost function Targets(parent: Role, names: iset<string>, t: Table): (r: iset<RoleId>) {
    iset n | n in names && ResolveExpansion(parent, n, t).Some? :: ResolveExpansion(parent, n, t).value.id
  }

  ghost function Stored(r: Role): iset<string> {
    iset n | n in r.composites
  }

  lemma StepTargets(t: Table, a: Role, j: RoleId)
    ensures j in Targets(a, Stored(a), t) <==> exists b :: Step(t, a, b) && b.id == j
  {
    if j in Targets(a, Stored(a), t) {
      var n :| n in a.composites && ResolveExpansion(a, n, t).Some? && ResolveExpansion(a, n, t).value.id == j;
      assert Step(t, a, ResolveExpansion(a, n, t).value);
    }
  }

  lemma StepAfterReplace(t: Table, row: Role, a: Role, j: RoleId)
    requires SameSite(t, row)
    ensures (exists b :: Step(ReplaceRow(t, row), a, b) && b.id == j) <==> (exists b :: Step(t, a, b) && b.id == j)
  {
    var u := ReplaceRow(t, row);
    forall n ensures ResolveExpansion(a, n, u) == SwapOption(ResolveExpansion(a, n, t), row) {
      ResolveAfterReplace(t, row, a, n);
    }
    forall b | Step(u, a, b) ensures exists c :: Step(t, a, c) && c.id == b.id {
      var n :| n in a.composites && ResolveExpansion(a, n, u) == Some(b);
      assert Step(t, a, ResolveExpansion(a, n, t).value);
    }
    forall b | Step(t, a, b) ensures exists c :: Step(u, a, c) && c.id == b.id {
      assert Step(u, a, Swap(b, row));
    }
  }

  lemma EdgesFrom(t: Table, a: Role, j: RoleId)
    requires DistinctIds(t) && a in t
    ensures (a.id, j) in Edges(t) <==> j in Targets(a, Stored(a), t)
  {
    StepTargets(t, a, j);
    if (a.id, j) in Edges(t) {
      var x, y :| x in t && Step(t, x, y) && (x.id, y.id) == (a.id, j);
      RowOf(t, a, x);
    }
  }

  lemma ReplaceKeepsIds(t: Table, row: Role)
    requires DistinctIds(t)
    ensures DistinctIds(ReplaceRow(t, row)) && Ids(ReplaceRow(t, row)) == Ids(t)
  {
    var u := ReplaceRow(t, row);
    forall i ensures i in Ids(u) <==> i in Ids(t) {
      if i in Ids(t) {
        var k :| 0 <= k < |t| && t[k].id == i;
        assert u[k] in u;
      }
    }
  }

  /** Rewriting one row's composites changes exactly the edges out of that row. */
  lemma EdgesAfterReplace(t: Table, row: Role, i: RoleId, j: RoleId)
    requires DistinctIds(t) && row.id in Ids(t) && SameSite(t, row)
    ensures (i, j) in Edges(ReplaceRow(t, row)) <==>
              if i == row.id then j in Targets(row, Stored(row), t) else (i, j) in Edges(t)
  {
    var u := ReplaceRow(t, row);
    ReplaceKeepsIds(t, row);
    if i in Ids(t) {
      var k :| 0 <= k < |t| && t[k].id == i;
      var x, y := t[k], u[k];
      EdgesFrom(u, y, j);
      EdgesFrom(t, x, j);
      StepAfterReplace(t, row, y, j);
      StepTargets(u, y, j);
      StepTargets(t, y, j);
    }
  }
}
