/**
  Runs of composite writes, client-role writes and client deletions by a caller without manage-realm:
  exactly which steps bring an admin role the caller may not grant into the closure of some role.
 */
module RoleRuns {
  import opened Prelude
  import opened Names
  import opened Roles
  import opened Digraph
  import opened Expansion
  import opened Composites
  import opened RoleStore
  import opened RoleWrites
  import opened RoleDeletes
  import opened RoleRenames
  import C = ClientRoles

  datatype Op =
    | Composite(op: RoleStore.Op)
    | Create(client: ClientId, rep: C.RoleRep, generated: string)
    | Update(client: ClientId, roleName: string, rep: C.RoleRep)
    | Delete(client: ClientId, roleName: string)
    | DeleteClient(client: ClientId)

  ghost predicate RoleOp(op: Op) {
    op.Create? || op.Update? || op.Delete?
  }

  /** The client-role operation with the verdict of the guard filled in. */
  ghost function Judged(t: Table, op: Op, held: seq<string>): (r: C.Op)
    requires RoleOp(op)
  {
    match op
    case Create(client, rep, generated) =>
      var role := C.FromRep(rep, client, generated);
      C.Create(client, rep, generated, role.Some? && Grants(held, t, None, role.value))
    case Update(client, roleName, rep) =>
      var existing := First(t, OwnedNamed(Some(client), roleName));
      C.Update(client, roleName, rep, existing.Some? && UpdateGranted(t, existing.value, client, rep, held))
    case Delete(client, roleName) => C.Delete(client, roleName)
  }

  ghost predicate UpdateGranted(t: Table, existing: Role, client: ClientId, rep: C.RoleRep, held: seq<string>) {
    var role := C.FromRep(rep, client, existing.id);
    role.Some? && Grants(held, t, Some(existing), C.UpdatedRow(existing, role.value, rep))
  }

  ghost function Next(t: Table, op: Op, held: seq<string>): (u: Table) {
    if op.Composite? then RoleStore.Apply(t, op.op, held)
    else if op.DeleteClient? then DropClient(t, op.client)
    else C.Next(t, Judged(t, op, held))
  }

  ghost predicate Accepted(t: Table, op: Op, held: seq<string>)
    requires RoleOp(op)
  {
    C.Outcome(t, Judged(t, op, held)).Ok?
  }

  // --- The steps that enlarge ----------------------------------------------

  ghost function Created(op: Op): (r: Option<Role>)
    requires op.Create?
  {
    C.FromRep(op.rep, op.client, op.generated)
  }

  ghost predicate CreateEnlarges(t: Table, op: Op, held: seq<string>)
    requires op.Create?
  {
    && Accepted(t, op, held) && Created(op).value.id in Ids(t)
    && RewriteEnlarges(held, t, ById(t, Created(op).value.id).value, Created(op).value)
  }

  ghost predicate UpdateEnlarges(t: Table, op: Op, held: seq<string>)
    requires op.Update?
  {
    && Accepted(t, op, held)
    && var x := First(t, OwnedNamed(Some(op.client), op.roleName)).value;
       && ValidName(op.rep.name) != Some(x.name)
       && RewriteEnlarges(held, t, x, C.UpdatedRow(x, C.FromRep(op.rep, op.client, x.id).value, op.rep))
  }

  ghost predicate DeleteEnlarges(t: Table, op: Op, held: seq<string>)
    requires op.Delete?
  {
    && Accepted(t, op, held)
    && var x := First(t, OwnedNamed(Some(op.client), op.roleName)).value;
       exists a, y :: Exposes(t, x, a, y) && Gains(Edges(t), Apart(Edges(t), x.id), GuardedIds(held, t), a.id, y.id)
  }

  ghost predicate DeleteClientEnlarges(t: Table, client: ClientId, held: seq<string>) {
    var h := OutsideEdges(t, client) + ClientExposed(t, client);
    exists a, n, y :: ClientExposes(t, client, a, n, y) && Gains(Edges(t), h, GuardedIds(held, t), a.id, y.id)
  }

  /** All of it is decided by the table before the step. */
  ghost predicate Enlarges(t: Table, op: Op, held: seq<string>) {
    match op
    case Composite(_) => false
    case Create(_, _, _) => CreateEnlarges(t, op, held)
    case Update(_, _, _) => UpdateEnlarges(t, op, held)
    case Delete(_, _) => DeleteEnlarges(t, op, held)
    case DeleteClient(client) => DeleteClientEnlarges(t, client, held)
  }

  lemma CompositeShields(held: seq<string>, t: Table, op: RoleStore.Op)
    requires DistinctIds(t) && "manage-realm" !in held
    ensures Shielded(held, t, RoleStore.Apply(t, op, held))
  {
    var u := RoleStore.Apply(t, op, held);
    ApplyContains(t, op, held);
    ApplyKeepsRoles(t, op, held);
    forall i, r | r in GuardedIds(held, u) && Reaches(Edges(u), i, r) ensures Reaches(Edges(t), i, r) {
      var x :| x in u && Guarded(held, x) && x.id == r;
      var k :| 0 <= k < |u| && u[k] == x;
      assert SameRole(t[k], u[k]) && t[k] in t && Guarded(held, t[k]);
    }
  }

  lemma CreateStepIff(held: seq<string>, t: Table, op: Op)
    requires WellFormed(t) && "manage-realm" !in held && op.Create? && Accepted(t, op, held)
    ensures Shielded(held, t, Next(t, op, held)) <==> !CreateEnlarges(t, op, held)
  {
    var row := Created(op).value;
    assert Grants(held, t, None, row) && Next(t, op, held) == C.Put(t, row);
    if row.id in Ids(t) {
      RewriteShieldsIff(held, t, ById(t, row.id).value, row, None);
    } else {
      C.CreateKeepsUnique(t, op.client, op.rep, op.generated, true);
      CreateShields(held, t, row);
    }
  }

  lemma UpdateStepIff(held: seq<string>, t: Table, op: Op)
    requires WellFormed(t) && "manage-realm" !in held && op.Update? && Accepted(t, op, held)
    ensures Shielded(held, t, Next(t, op, held)) <==> !UpdateEnlarges(t, op, held)
  {
    var x := First(t, OwnedNamed(Some(op.client), op.roleName)).value;
    var row := C.UpdatedRow(x, C.FromRep(op.rep, op.client, x.id).value, op.rep);
    assert Grants(held, t, Some(x), row) && Next(t, op, held) == ReplaceRow(t, row);
    if row.name != x.name {
      RewriteShieldsIff(held, t, x, row, Some(x));
    } else {
      forall r | r in t && r.id == row.id ensures r == x {
        RowOf(t, r, x);
      }
      UpdateInPlaceShields(held, t, x, row);
    }
  }

  lemma DeleteStepIff(held: seq<string>, t: Table, op: Op)
    requires WellFormed(t) && "manage-realm" !in held && op.Delete? && Accepted(t, op, held)
    ensures Shielded(held, t, Next(t, op, held)) <==> !DeleteEnlarges(t, op, held)
  {
    var x := First(t, OwnedNamed(Some(op.client), op.roleName)).value;
    DeleteShieldsIff(held, t, x);
  }

  lemma SameTableShields(held: seq<string>, t: Table)
    ensures Shielded(held, t, t)
  {
  }

  /** One write without manage-realm enlarges a guarded closure exactly when it is one of those. */
  lemma NextShieldsIff(held: seq<string>, t: Table, op: Op)
    requires WellFormed(t) && "manage-realm" !in held
    ensures Shielded(held, t, Next(t, op, held)) <==> !Enlarges(t, op, held)
  {
    if op.Composite? {
      CompositeShields(held, t, op.op);
    } else if op.DeleteClient? {
      DeleteClientShieldsIff(held, t, op.client);
    } else if !Accepted(t, op, held) {
      SameTableShields(held, t);
    } else if op.Create? {
      CreateStepIff(held, t, op);
    } else if op.Update? {
      UpdateStepIff(held, t, op);
    } else {
      DeleteStepIff(held, t, op);
    }
  }

  // --- Runs ----------------------------------------------------------------

  ghost function Run(t: Table, ops: seq<Op>, held: seq<string>): (u: Table) {
    if ops == [] then t else Next(Run(t, ops[..|ops| - 1], held), ops[|ops| - 1], held)
  }

  ghost function At(t: Table, ops: seq<Op>, held: seq<string>, k: nat): (u: Table)
    requires k <= |ops|
  {
    Run(t, ops[..k], held)
  }

  lemma AtNext(t: Table, ops: seq<Op>, held: seq<string>, k: nat)
    requires k < |ops|
    ensures At(t, ops, held, k + 1) == Next(At(t, ops, held, k), ops[k], held)
  {
    assert ops[..k + 1][..k] == ops[..k];
  }

  /** An accepted update whose padded name, trimmed, belongs to another role of the client. */
  ghost predicate Pads(t: Table, op: Op, held: seq<string>) {
    op.Update? && C.PadsOnto(t, Judged(t, op, held))
  }

  lemma SameRolesStayWellFormed(t: Table, u: Table)
    requires WellFormed(t) && SameRoles(t, u)
    ensures WellFormed(u)
  {
    forall i, j | 0 <= i < j < |u| ensures u[i].id != u[j].id && (u[i].clientId != u[j].clientId || u[i].name != u[j].name) {
      assert SameRole(t[i], u[i]) && SameRole(t[j], u[j]);
    }
    forall r | r in u ensures r.clientRole <==> r.clientId.Some? {
      var k :| 0 <= k < |u| && u[k] == r;
      assert SameRole(t[k], u[k]) && t[k] in t;
    }
  }

  lemma NextWellFormedIff(t: Table, op: Op, held: seq<string>)
    requires WellFormed(t)
    ensures WellFormed(Next(t, op, held)) <==> !Pads(t, op, held)
  {
    if op.Composite? {
      ApplyKeepsRoles(t, op.op, held);
      SameRolesStayWellFormed(t, Next(t, op, held));
    } else if op.DeleteClient? {
      DropClientKeeps(t, op.client);
    } else {
      C.NextWellFormedIff(t, Judged(t, op, held));
    }
  }

  ghost predicate SoundRun(t: Table, ops: seq<Op>, held: seq<string>) {
    forall k: nat :: k <= |ops| ==> WellFormed(At(t, ops, held, k))
  }

  lemma {:induction false} SoundUpTo(t: Table, ops: seq<Op>, held: seq<string>, k: nat)
    requires k <= |ops| && WellFormed(t) && forall i: nat :: i < k ==> !Pads(At(t, ops, held, i), ops[i], held)
    ensures WellFormed(At(t, ops, held, k))
  {
    if k == 0 {
      assert ops[..0] == [];
    } else {
      SoundUpTo(t, ops, held, k - 1);
      AtNext(t, ops, held, k - 1);
      NextWellFormedIff(At(t, ops, held, k - 1), ops[k - 1], held);
    }
  }

  /** The tables of a run are well formed exactly when the first one is and no update pads onto a taken name. */
  lemma SoundRunIff(t: Table, ops: seq<Op>, held: seq<string>)
    ensures SoundRun(t, ops, held) <==>
            WellFormed(t) && forall k: nat :: k < |ops| ==> !Pads(At(t, ops, held, k), ops[k], held)
  {
    assert ops[..0] == [];
    if SoundRun(t, ops, held) {
      assert WellFormed(At(t, ops, held, 0));
      forall k: nat | k < |ops| ensures !Pads(At(t, ops, held, k), ops[k], held) {
        AtNext(t, ops, held, k);
        assert WellFormed(At(t, ops, held, k)) && WellFormed(At(t, ops, held, k + 1));
        NextWellFormedIff(At(t, ops, held, k), ops[k], held);
      }
    }
    if WellFormed(t) && forall k: nat :: k < |ops| ==> !Pads(At(t, ops, held, k), ops[k], held) {
      forall k: nat | k <= |ops| ensures WellFormed(At(t, ops, held, k)) {
        SoundUpTo(t, ops, held, k);
      }
    }
  }

  /** No write makes a role guarded. */
  lemma NextGuardsNoMore(held: seq<string>, t: Table, op: Op)
    requires DistinctIds(t)
    ensures GuardedIds(held, Next(t, op, held)) <= GuardedIds(held, t)
  {
    var u := Next(t, op, held);
    if op.Composite? {
      ApplyKeepsRoles(t, op.op, held);
    }
    forall r | r in u && Guarded(held, r) ensures r.id in GuardedIds(held, t) {
      var k :| 0 <= k < |u| && u[k] == r;
      if op.Composite? {
        assert SameRole(t[k], u[k]) && t[k] in t && Guarded(held, t[k]);
      } else {
        assert r in t;
      }
    }
  }

  ghost predicate ShieldsAt(t: Table, ops: seq<Op>, held: seq<string>, k: nat)
    requires k < |ops|
  {
    Shielded(held, At(t, ops, held, k), At(t, ops, held, k + 1))
  }

  ghost predicate EnlargesAt(t: Table, ops: seq<Op>, held: seq<string>, k: nat)
    requires k < |ops|
  {
    Enlarges(At(t, ops, held, k), ops[k], held)
  }

  lemma StepShieldsIff(t: Table, ops: seq<Op>, held: seq<string>, k: nat)
    requires "manage-realm" !in held && SoundRun(t, ops, held) && k < |ops|
    ensures ShieldsAt(t, ops, held, k) <==> !EnlargesAt(t, ops, held, k)
  {
    AtNext(t, ops, held, k);
    NextShieldsIff(held, At(t, ops, held, k), ops[k]);
  }

  lemma ShieldedTwice(held: seq<string>, t: Table, u: Table, v: Table)
    requires Shielded(held, t, u) && Shielded(held, u, v) && GuardedIds(held, v) <= GuardedIds(held, u)
    ensures Shielded(held, t, v)
  {
  }

  lemma {:induction false} ShieldedUpTo(t: Table, ops: seq<Op>, held: seq<string>, k: nat)
    requires k <= |ops| && SoundRun(t, ops, held) && forall i: nat :: i < k ==> ShieldsAt(t, ops, held, i)
    ensures Shielded(held, t, At(t, ops, held, k)) && GuardedIds(held, At(t, ops, held, k)) <= GuardedIds(held, t)
  {
    if k == 0 {
      assert ops[..0] == [];
      SameTableShields(held, t);
    } else {
      var u := At(t, ops, held, k - 1);
      ShieldedUpTo(t, ops, held, k - 1);
      AtNext(t, ops, held, k - 1);
      assert WellFormed(u) && ShieldsAt(t, ops, held, k - 1);
      NextGuardsNoMore(held, u, ops[k - 1]);
      ShieldedTwice(held, t, u, At(t, ops, held, k));
    }
  }

  /**
    Along every run without manage-realm the steps that enlarge a guarded closure are exactly those, and a
    run without one enlarges none from its start to its end.
   */
  lemma RunShields(t: Table, ops: seq<Op>, held: seq<string>)
    requires "manage-realm" !in held && SoundRun(t, ops, held)
    ensures forall k: nat :: k < |ops| ==> (ShieldsAt(t, ops, held, k) <==> !EnlargesAt(t, ops, held, k))
    ensures (forall k: nat :: k < |ops| ==> !EnlargesAt(t, ops, held, k)) ==>
              Shielded(held, t, Run(t, ops, held)) && GuardedIds(held, Run(t, ops, held)) <= GuardedIds(held, t)
  {
    forall k: nat | k < |ops| ensures ShieldsAt(t, ops, held, k) <==> !EnlargesAt(t, ops, held, k) {
      StepShieldsIff(t, ops, held, k);
    }
    if forall k: nat :: k < |ops| ==> !EnlargesAt(t, ops, held, k) {
      assert ops[..|ops|] == ops;
      ShieldedUpTo(t, ops, held, |ops|);
    }
  }
}
