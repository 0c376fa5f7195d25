/** Creating, updating and deleting the roles of a client: name uniqueness over every run. */
module ClientRoles {
  import opened Names
  import opened Prelude
  import opened Roles
  import opened Composites
  import opened Expansion

  // --- Outcomes ------------------------------------------------------------

  datatype RoleRep = RoleRep(
    id: Option<string>,
    name: string,
    description: Option<string>,
    composite: Option<bool>,
    composites: Option<seq<string>>,
    attributes: Option<map<string, seq<string>>>)

  /** The role a body describes for `client`; `generated` is the id used when the body has none. */
  function FromRep(rep: RoleRep, client: ClientId, generated: string): (r: Option<Role>)
    ensures r.Some? ==> r.value.clientRole && r.value.clientId == Some(client) && ValidName(rep.name) == Some(r.value.name)
  {
    var name := ValidName(rep.name);
    var id := Or(rep.id, generated);
    if id == "" || name.None? then None
    else Some(Role(id, name.value, rep.description, true, Some(client),
                   Or(rep.composite, false), Or(rep.composites, []), Or(rep.attributes, map[])))
  }

  /** Storage is keyed by id: a known id is overwritten, a new one inserted. */
  function Put(t: Table, row: Role): (u: Table) {
    if row.id in Ids(t) then ReplaceRow(t, row) else t + [row]
  }

  function Drop(t: Table, id: RoleId): (u: Table)
    ensures forall r :: r in u <==> r in t && r.id != id
  {
    if t == [] then []
    else
      assert forall r :: r in t <==> r == t[0] || r in t[1..];
      (if t[0].id == id then [] else [t[0]]) + Drop(t[1..], id)
  }

  function CreateOutcome(t: Table, client: ClientId, rep: RoleRep, generated: string, grantable: bool)
    : (r: Result<Table, ApiError>)
  {
    if First(t, OwnedNamed(Some(client), rep.name)).Some? then Err(Conflict)
    else
      var role := FromRep(rep, client, generated);
      if role.None? then Err(BadRequest)
      else if !grantable then Err(Forbidden)
      else if First(t, OwnedNamed(Some(client), role.value.name)).Some? then Err(BadRequest)
      else Ok(Put(t, role.value))
  }

  /** Renaming is refused when the requested spelling belongs to another role of the client. */
  function UpdateOutcome(t: Table, client: ClientId, roleName: string, rep: RoleRep, grantable: bool)
    : (r: Result<Table, ApiError>)
  {
    var existing := First(t, OwnedNamed(Some(client), roleName));
    var other := First(t, OwnedNamed(Some(client), rep.name));
    if existing.None? then Err(NotFound)
    else if rep.name != roleName && other.Some? && other.value.id != existing.value.id then Err(Conflict)
    else
      var role := FromRep(rep, client, existing.value.id);
      if role.None? then Err(BadRequest)
      else if !grantable then Err(Forbidden)
      else Ok(ReplaceRow(t, UpdatedRow(existing.value, role.value, rep)))
  }

  function UpdatedRow(existing: Role, role: Role, rep: RoleRep): (r: Role) {
    role.(id := existing.id,
          composites := Or(rep.composites, existing.composites),
          attributes := Or(rep.attributes, existing.attributes))
  }

  function DeleteOutcome(t: Table, client: ClientId, roleName: string): (r: Result<Table, ApiError>) {
    var existing := First(t, OwnedNamed(Some(client), roleName));
    if existing.None? then Err(NotFound) else Ok(Drop(t, existing.value.id))
  }

  // --- What is stored ------------------------------------------------------

  /** The row that a body asks for, with `composites` and `attributes` where the body has none. */
  ghost predicate RowFor(row: Role, rep: RoleRep, client: ClientId, composites: seq<string>,
                         attributes: map<string, seq<string>>)
  {
    && ValidName(rep.name) == Some(row.name) && row.clientRole && row.clientId == Some(client)
    && row.description == rep.description && (row.composite <==> rep.composite == Some(true))
    && (row.composites == if rep.composites.Some? then rep.composites.value else composites)
    && (row.attributes == if rep.attributes.Some? then rep.attributes.value else attributes)
  }

  /** An accepted update rewrites the named row, keeps its id and omitted composites and attributes, and touches no other. */
  lemma UpdateStores(t: Table, client: ClientId, roleName: string, rep: RoleRep, grantable: bool)
    requires UpdateOutcome(t, client, roleName, rep, grantable).Ok?
    ensures var u := UpdateOutcome(t, client, roleName, rep, grantable).value;
            exists x :: && x in t && x.clientId == Some(client) && x.name == roleName && |u| == |t|
                        && forall i :: 0 <= i < |t| ==>
                             if t[i].id == x.id then u[i].id == x.id && RowFor(u[i], rep, client, x.composites, x.attributes)
                             else u[i] == t[i]
  {
    var x := First(t, OwnedNamed(Some(client), roleName)).value;
    var row := UpdatedRow(x, FromRep(rep, client, x.id).value, rep);
    assert row.id == x.id && RowFor(row, rep, client, x.composites, x.attributes);
  }

  /** An accepted create stores one row, under the body's id or the generated one, in place of a row of that id or at the end. */
  lemma CreateStores(t: Table, client: ClientId, rep: RoleRep, generated: string, grantable: bool)
    requires CreateOutcome(t, client, rep, generated, grantable).Ok?
    ensures var u := CreateOutcome(t, client, rep, generated, grantable).value;
            var id := if rep.id.Some? then rep.id.value else generated;
            exists row: Role :: && row.id == id && RowFor(row, rep, client, [], map[])
                          && (if exists r :: r in t && r.id == id
                              then |u| == |t| && forall i :: 0 <= i < |t| ==> u[i] == if t[i].id == id then row else t[i]
                              else u == t + [row])
  {
    var row := FromRep(rep, client, generated).value;
    assert RowFor(row, rep, client, [], map[]);
    assert row.id in Ids(t) <==> exists r :: r in t && r.id == row.id;
  }

  // --- Uniqueness ----------------------------------------------------------

  /** Another role than `id` answers to `name` in `client`. */
  ghost predicate Taken(t: Table, client: ClientId, name: string, id: RoleId) {
    exists r :: r in t && r.id != id && r.clientId == Some(client) && r.name == name
  }

  lemma TakenBreaksUnique(t: Table, u: Table, row: Role, k: nat)
    requires k < |u| && u[k] == row && |t| <= |u| && row.clientId.Some?
    requires forall j :: 0 <= j < |t| && t[j].id != row.id ==> u[j] == t[j]
    requires Taken(t, row.clientId.value, row.name, row.id)
    ensures !UniqueNames(u)
  {
    var r :| r in t && r.id != row.id && r.clientId == row.clientId && r.name == row.name;
    var j :| 0 <= j < |t| && t[j] == r;
    assert u[j] == r && j != k;
  }

  lemma UntakenKeepsUnique(t: Table, row: Role)
    requires DistinctIds(t) && UniqueNames(t)
    requires forall i :: 0 <= i < |t| && t[i].id != row.id ==> row.clientId != t[i].clientId || row.name != t[i].name
    ensures UniqueNames(ReplaceRow(t, row))
  {
    var u := ReplaceRow(t, row);
    forall i, j | 0 <= i < j < |u| ensures u[i].clientId != u[j].clientId || u[i].name != u[j].name {
      assert u[i] == Swap(t[i], row) && u[j] == Swap(t[j], row);
      assert t[i].id != t[j].id;
    }
  }

  lemma ReplaceKeeps(t: Table, row: Role)
    requires WellFormed(t) && row.clientRole && row.clientId.Some? && row.id in Ids(t)
    ensures var u := ReplaceRow(t, row);
            DistinctIds(u) && Owned(u) && (UniqueNames(u) <==> !Taken(t, row.clientId.value, row.name, row.id))
  {
    var u := ReplaceRow(t, row);
    ReplaceKeepsIds(t, row);
    forall r | r in u ensures r == row || r in t {
      var k :| 0 <= k < |u| && u[k] == r;
    }
    var k :| 0 <= k < |t| && t[k].id == row.id;
    if Taken(t, row.clientId.value, row.name, row.id) {
      TakenBreaksUnique(t, u, row, k);
    } else {
      forall i | 0 <= i < |t| && t[i].id != row.id ensures row.clientId != t[i].clientId || row.name != t[i].name {
        assert t[i] in t;
      }
      UntakenKeepsUnique(t, row);
    }
  }

  lemma AppendKeeps(t: Table, row: Role)
    requires WellFormed(t) && row.clientRole && row.clientId.Some? && row.id !in Ids(t)
    ensures var u := t + [row];
            DistinctIds(u) && Owned(u) && (UniqueNames(u) <==> !Taken(t, row.clientId.value, row.name, row.id))
  {
    var u := t + [row];
    if Taken(t, row.clientId.value, row.name, row.id) {
      TakenBreaksUnique(t, u, row, |t|);
    } else {
      forall i | 0 <= i < |t| ensures t[i].id != row.id && (row.clientId != t[i].clientId || row.name != t[i].name) {
        assert t[i] in t && t[i].id in Ids(t);
      }
    }
  }

  lemma PutKeeps(t: Table, row: Role)
    requires WellFormed(t) && row.clientRole && row.clientId.Some?
    ensures DistinctIds(Put(t, row)) && Owned(Put(t, row))
    ensures UniqueNames(Put(t, row)) <==> !Taken(t, row.clientId.value, row.name, row.id)
  {
    if row.id in Ids(t) {
      ReplaceKeeps(t, row);
    } else {
      AppendKeeps(t, row);
    }
  }

  lemma ConsKeeps(row: Role, u: Table)
    requires WellFormed(u) && (row.clientRole <==> row.clientId.Some?)
    requires forall x :: x in u ==> x.id != row.id && (x.clientId != row.clientId || x.name != row.name)
    ensures WellFormed([row] + u)
  {
    var t := [row] + u;
    forall j | 0 < j < |t| ensures t[j] == u[j - 1] && u[j - 1] in u {
    }
  }

  lemma HeadApart(t: Table, x: Role)
    requires WellFormed(t) && t != [] && x in t[1..]
    ensures x.id != t[0].id && (x.clientId != t[0].clientId || x.name != t[0].name)
  {
    var k :| 1 <= k < |t| && t[k] == x;
  }

  lemma {:induction false} DropKeeps(t: Table, id: RoleId)
    requires WellFormed(t)
    ensures WellFormed(Drop(t, id))
  {
    if t != [] {
      assert WellFormed(t[1..]);
      DropKeeps(t[1..], id);
      var u := Drop(t[1..], id);
      forall x | x in u ensures x.id != t[0].id && (x.clientId != t[0].clientId || x.name != t[0].name) {
        HeadApart(t, x);
      }
      ConsKeeps(t[0], u);
    }
  }

  lemma CreateKeepsUnique(t: Table, client: ClientId, rep: RoleRep, generated: string, grantable: bool)
    requires WellFormed(t) && CreateOutcome(t, client, rep, generated, grantable).Ok?
    ensures WellFormed(CreateOutcome(t, client, rep, generated, grantable).value)
  {
    PutKeeps(t, FromRep(rep, client, generated).value);
  }

  /**
    An accepted update keeps names unique exactly when the requested name was already in its
    stored (trimmed) form or the stored form belongs to no other role of the client: the conflict
    check looks up the name as requested, the row keeps the trimmed one.
   */
  lemma UpdateUniqueIff(t: Table, client: ClientId, roleName: string, rep: RoleRep, grantable: bool)
    requires WellFormed(t) && UpdateOutcome(t, client, roleName, rep, grantable).Ok?
    ensures var existing := First(t, OwnedNamed(Some(client), roleName)).value;
            var u := UpdateOutcome(t, client, roleName, rep, grantable).value;
            && DistinctIds(u) && Owned(u)
            && (UniqueNames(u) <==> Trimmed(rep.name) || !Taken(t, client, Trim(rep.name), existing.id))
  {
    var existing := First(t, OwnedNamed(Some(client), roleName)).value;
    var row := UpdatedRow(existing, FromRep(rep, client, existing.id).value, rep);
    assert existing.id in Ids(t);
    PutKeeps(t, row);
    if Trimmed(rep.name) && Taken(t, client, rep.name, existing.id) {
      var r :| r in t && r.id != existing.id && r.clientId == Some(client) && r.name == rep.name;
      NamedRowIsFound(t, client, rep.name, r);
    }
  }

  lemma NamedRowIsFound(t: Table, client: ClientId, name: string, r: Role)
    requires Owned(t) && UniqueNames(t) && r in t && r.clientId == Some(client) && r.name == name
    ensures First(t, OwnedNamed(Some(client), name)) == Some(r)
  {
    ContainerKeysAreUnique(t, ClientNamed(Some(client), name));
    assert Matches(OwnedNamed(Some(client), name), r);
    var f := First(t, OwnedNamed(Some(client), name)).value;
    assert Matches(ClientNamed(Some(client), name), f) && Matches(ClientNamed(Some(client), name), r);
  }

  lemma PaddedRenameDuplicates()
    ensures exists t: Table, client, roleName, rep ::
              && WellFormed(t) && UpdateOutcome(t, client, roleName, rep, true).Ok?
              && !UniqueNames(UpdateOutcome(t, client, roleName, rep, true).value)
  {
    var a := Role("1", "x", None, true, Some("c"), false, [], map[]);
    var b := Role("2", "y", None, true, Some("c"), false, [], map[]);
    var t, rep := [a, b], RoleRep(None, " x", None, None, None, None);
    assert a.name[0] != b.name[0];
    assert WellFormed(t);
    NamedRowIsFound(t, "c", "y", b);
    assert rep.name[0] != a.name[0] && rep.name[0] != b.name[0];
    assert First(t, OwnedNamed(Some("c"), " x")).None?;
    assert rep.name[1..] == "x" && Trim(rep.name) == "x";
    assert Utf8Length("x") == 1;
    assert ValidName(rep.name) == Some("x");
    UpdateUniqueIff(t, "c", "y", rep, true);
    assert a in t && Taken(t, "c", "x", "2");
  }

  // --- The store and its runs ----------------------------------------------

  datatype Op = Create(client: ClientId, rep: RoleRep, generated: string, grantable: bool)
              | Update(client: ClientId, roleName: string, rep: RoleRep, grantable: bool)
              | Delete(client: ClientId, roleName: string)

  function Outcome(t: Table, op: Op): (r: Result<Table, ApiError>) {
    match op
    case Create(client, rep, generated, grantable) => CreateOutcome(t, client, rep, generated, grantable)
    case Update(client, roleName, rep, grantable) => UpdateOutcome(t, client, roleName, rep, grantable)
    case Delete(client, roleName) => DeleteOutcome(t, client, roleName)
  }

  function Run(t: Table, ops: seq<Op>): (u: Table) {
    if ops == [] then t
    else Next(Run(t, ops[..|ops| - 1]), ops[|ops| - 1])
  }

  function Next(t: Table, op: Op): (u: Table) {
    var outcome := Outcome(t, op);
    if outcome.Ok? then outcome.value else t
  }

  /** An accepted update with a padded name whose trimmed form belongs to another role of the client. */
  ghost predicate PadsOnto(t: Table, op: Op) {
    && op.Update? && Outcome(t, op).Ok? && !Trimmed(op.rep.name)
    && Taken(t, op.client, Trim(op.rep.name), First(t, OwnedNamed(Some(op.client), op.roleName)).value.id)
  }

  lemma NextWellFormedIff(t: Table, op: Op)
    requires WellFormed(t)
    ensures WellFormed(Next(t, op)) <==> !PadsOnto(t, op)
  {
    if Outcome(t, op).Ok? {
      match op
      case Create(client, rep, generated, grantable) => CreateKeepsUnique(t, client, rep, generated, grantable);
      case Update(client, roleName, rep, grantable) => UpdateUniqueIff(t, client, roleName, rep, grantable);
      case Delete(client, roleName) => DropKeeps(t, First(t, OwnedNamed(Some(client), roleName)).value.id);
    }
  }

  function At(t: Table, ops: seq<Op>, k: nat): (u: Table)
    requires k <= |ops|
  {
    Run(t, ops[..k])
  }

  lemma WellFormedNext(t: Table, ops: seq<Op>, k: nat)
    requires k < |ops| && WellFormed(At(t, ops, k))
    ensures WellFormed(At(t, ops, k + 1)) <==> !PadsOnto(At(t, ops, k), ops[k])
  {
    assert ops[..k + 1][..k] == ops[..k];
    NextWellFormedIff(At(t, ops, k), ops[k]);
  }

  lemma {:induction false} WellFormedUpTo(t: Table, ops: seq<Op>, k: nat)
    requires k <= |ops| && WellFormed(t) && forall i: nat :: i < k ==> !PadsOnto(At(t, ops, i), ops[i])
    ensures WellFormed(At(t, ops, k))
  {
    if k == 0 {
      assert ops[..0] == [];
    } else {
      WellFormedUpTo(t, ops, k - 1);
      WellFormedNext(t, ops, k - 1);
    }
  }

  /** Names stay unique through the whole run exactly when they are at the start and no update pads onto a taken name. */
  lemma RunUniqueIff(t: Table, ops: seq<Op>)
    ensures (forall k: nat :: k <= |ops| ==> WellFormed(At(t, ops, k))) <==>
            WellFormed(t) && forall k: nat :: k < |ops| ==> !PadsOnto(At(t, ops, k), ops[k])
  {
    assert ops[..0] == [];
    if forall k: nat :: k <= |ops| ==> WellFormed(At(t, ops, k)) {
      assert WellFormed(At(t, ops, 0));
      forall k: nat | k < |ops| ensures !PadsOnto(At(t, ops, k), ops[k]) {
        assert WellFormed(At(t, ops, k)) && WellFormed(At(t, ops, k + 1));
        WellFormedNext(t, ops, k);
      }
    }
    if WellFormed(t) && forall k: nat :: k < |ops| ==> !PadsOnto(At(t, ops, k), ops[k]) {
      forall k: nat | k <= |ops| ensures WellFormed(At(t, ops, k)) {
        WellFormedUpTo(t, ops, k);
      }
    }
  }

  class Store {
    var rows: Table

    constructor (rows: Table)
      ensures this.rows == rows
    {
      this.rows := rows;
    }

    method CreateClientRole(client: ClientId, rep: RoleRep, generated: string, grantable: bool)
      returns (res: Result<(), ApiError>)
      modifies this
      ensures match CreateOutcome(old(rows), client, rep, generated, grantable)
              case Ok(u) => res == Ok(()) && rows == u
              case Err(e) => res == Err(e) && rows == old(rows)
    {
      if First(rows, OwnedNamed(Some(client), rep.name)).Some? {
        return Err(Conflict);
      }
      var role := FromRep(rep, client, generated);
      if role.None? {
        return Err(BadRequest);
      }
      if !grantable {
        return Err(Forbidden);
      }
      if First(rows, OwnedNamed(role.value.clientId, role.value.name)).Some? {
        return Err(BadRequest);
      }
      rows := Put(rows, role.value);
      return Ok(());
    }

    method UpdateClientRole(client: ClientId, roleName: string, rep: RoleRep, grantable: bool)
      returns (res: Result<(), ApiError>)
      modifies this
      ensures match UpdateOutcome(old(rows), client, roleName, rep, grantable)
              case Ok(u) => res == Ok(()) && rows == u
              case Err(e) => res == Err(e) && rows == old(rows)
    {
      var existing := First(rows, OwnedNamed(Some(client), roleName));
      if existing.None? {
        return Err(NotFound);
      }
      if rep.name != roleName {
        var other := First(rows, OwnedNamed(Some(client), rep.name));
        if other.Some? && other.value.id != existing.value.id {
          return Err(Conflict);
        }
      }
      var role := FromRep(rep, client, existing.value.id);
      if role.None? {
        return Err(BadRequest);
      }
      var updated := role.value.(id := existing.value.id);
      if rep.composites.None? {
        updated := updated.(composites := existing.value.composites);
      }
      if rep.attributes.None? {
        updated := updated.(attributes := existing.value.attributes);
      }
      if !grantable {
        return Err(Forbidden);
      }
      rows := ReplaceRow(rows, updated);
      return Ok(());
    }

    method DeleteClientRole(client: ClientId, roleName: string) returns (res: Result<(), ApiError>)
      modifies this
      ensures match DeleteOutcome(old(rows), client, roleName)
              case Ok(u) => res == Ok(()) && rows == u
              case Err(e) => res == Err(e) && rows == old(rows)
    {
      var existing := First(rows, OwnedNamed(Some(client), roleName));
      if existing.None? {
        return Err(NotFound);
      }
      rows := Drop(rows, existing.value.id);
      return Ok(());
    }
  }
}
