/**
  The role store behind the composites endpoints, the admin-role guard, and the properties of
  whole runs of composite writes.
 */
module RoleStore {
  import opened Prelude
  import opened Roles
  import opened Digraph
  import opened Expansion
  import opened Composites
  import opened CompositeGraph

  // --- Which admin roles a caller may grant --------------------------------

  const ADMIN_ROLES: seq<string> := ["manage-realm", "view-realm", "manage-users", "view-users",
                                     "manage-clients", "view-clients", "impersonation"]

  /** The caller holds the role, or the `manage-` role that covers a `view-` one. */
  predicate MayGrant(held: seq<string>, role: string) {
    role in held || ("view-" <= role && "manage-" + role[|"view-"|..] in held)
  }

  predicate Denied(held: seq<string>, r: Role) {
    !r.clientRole && r.name in ADMIN_ROLES && !MayGrant(held, r.name)
  }

  /**
    An admin role that only its holders may grant and the caller does not hold, or the view role of an area that
    the caller neither views nor manages.
   */
  ghost predicate Reserved(held: seq<string>, name: string) {
    || (name in {"manage-realm", "manage-users", "manage-clients", "impersonation"} && name !in held)
    || (exists area :: && area in {"realm", "users", "clients"} && name == "view-" + area
                       && name !in held && "manage-" + area !in held)
  }

  ghost predicate Guarded(held: seq<string>, r: Role) {
    !r.clientRole && Reserved(held, r.name)
  }

  lemma ViewIsCovered(held: seq<string>, area: string)
    ensures MayGrant(held, "view-" + area) <==> "view-" + area in held || "manage-" + area in held
  {
    var name := "view-" + area;
    assert name[..5] == "view-" && name[5..] == area;
  }

  lemma OthersAreNotCovered(held: seq<string>, name: string)
    requires name != "" && name[0] != 'v'
    ensures MayGrant(held, name) <==> name in held
  {
    assert "view-"[0] == 'v';
  }

  /** The guard's own test: the seven names and the rule that covers three of them. */
  lemma DeniedIff(held: seq<string>, r: Role)
    ensures Denied(held, r) <==> Guarded(held, r)
  {
    var name := r.name;
    assert "view-realm" == "view-" + "realm" && "view-users" == "view-" + "users" && "view-clients" == "view-" + "clients";
    if name in {"manage-realm", "manage-users", "manage-clients", "impersonation"} {
      OthersAreNotCovered(held, name);
      assert forall area :: ("view-" + area)[0] == 'v';
    } else if area :| area in {"realm", "users", "clients"} && name == "view-" + area {
      ViewIsCovered(held, area);
      assert forall other :: name == "view-" + other ==> other == name[5..];
    }
  }

  /** No role the caller may not grant enters the closure of `p` between `t` and `u`. */
  ghost predicate BringsNothingGuarded(held: seq<string>, t: Table, u: Table, p: RoleId) {
    forall r :: r in t && Guarded(held, r) && Reaches(Edges(u), p, r.id) ==> Reaches(Edges(t), p, r.id)
  }

  ghost predicate Grantable(held: seq<string>, t: Table, parent: Role, additions: seq<Role>) {
    "manage-realm" in held || BringsNothingGuarded(held, t, AfterAdd(t, parent, additions), parent.id)
  }

  // --- Outcomes ------------------------------------------------------------

  ghost function AddOutcome(t: Table, parent: Role, refs: seq<RoleRef>, held: seq<string>): (r: Result<Table, ApiError>) {
    match ResolveRefs(refs, t)
    case Err(e) => Err(e)
    case Ok(additions) =>
      if Rejects(t, parent, additions) then Err(BadRequest)
      else if !Grantable(held, t, parent, additions) then Err(Forbidden)
      else Ok(AfterAdd(t, parent, additions))
  }

  ghost function RemoveOutcome(t: Table, parent: Role, refs: seq<RoleRef>): (r: Result<Table, ApiError>) {
    match ResolveRefs(refs, t)
    case Err(e) => Err(e)
    case Ok(removals) => Ok(AfterRemove(t, parent, removals))
  }

  // --- The guard computes what it should -----------------------------------

  lemma RowsAfterReplace(t: Table, row: Role, r: Role)
    requires row.id in Ids(t) && (r == row || (r in t && r.id != row.id))
    ensures r in ReplaceRow(t, row)
  {
    var k :| 0 <= k < |t| && t[k].id == r.id && (r in t ==> t[k] == r);
    assert ReplaceRow(t, row)[k] == r;
  }

  lemma OnlyFirstHasItsId(out: seq<Role>, r: Role)
    requires DistinctIds(out) && out != [] && r in out && r.id == out[0].id
    ensures r == out[0]
  {
  }

  lemma CandidateCovered(t: Table, row: Role, out: seq<Role>)
    requires DistinctIds(t) && row.id in Ids(t) && SameSite(t, row) && IsExpansion([row], t, out)
    ensures forall r :: r in out ==> r in ReplaceRow(t, row)
    ensures Covered(ReplaceRow(t, row), out, Ids(out))
  {
    GrownFromTable([row], t, out);
    forall r | r in out ensures r in ReplaceRow(t, row) {
      if r.id == row.id {
        OnlyFirstHasItsId(out, r);
      }
      RowsAfterReplace(t, row, r);
    }
    forall r, b | r in out && Step(ReplaceRow(t, row), r, b) ensures b.id in Ids(out) {
      StepAfterReplace(t, row, r, b.id);
    }
  }

  lemma CandidateSteps(t: Table, row: Role, out: seq<Role>)
    requires DistinctIds(t) && row.id in Ids(t) && SameSite(t, row) && forall r :: r in out ==> r in ReplaceRow(t, row)
    ensures forall m, r :: m in out && Step(t, m, r) ==> (m.id, r.id) in Edges(ReplaceRow(t, row))
  {
    ReplaceKeepsIds(t, row);
    forall m, r | m in out && Step(t, m, r) ensures (m.id, r.id) in Edges(ReplaceRow(t, row)) {
      StepAfterReplace(t, row, m, r.id);
    }
  }

  /** Expanding the not yet stored candidate row gives its closure in the table that would be stored. */
  lemma CandidateClosure(t: Table, row: Role, out: seq<Role>, j: RoleId)
    requires DistinctIds(t) && row.id in Ids(t) && SameSite(t, row) && IsExpansion([row], t, out)
    ensures j in Ids(out) <==> Reaches(Edges(ReplaceRow(t, row)), row.id, j)
  {
    ReplaceKeepsIds(t, row);
    CandidateCovered(t, row, out);
    CandidateSteps(t, row, out);
    if j in Ids(out) {
      var k :| 0 <= k < |out| && out[k].id == j;
      GrownReaches([row], t, out, Edges(ReplaceRow(t, row)), k);
    }
    if Reaches(Edges(ReplaceRow(t, row)), row.id, j) {
      assert row in [row];
      assert row.id in Ids([row]);
      CoveredIsClosed(ReplaceRow(t, row), out, row.id, j);
    }
  }

  method NewAdminRolesGrantable(held: seq<string>, parent: Role, candidate: Role, all: Table) returns (ok: bool)
    requires DistinctIds(all) && parent in all && candidate == WithNames(parent, candidate.composites)
    ensures ok <==> "manage-realm" in held || BringsNothingGuarded(held, all, ReplaceRow(all, candidate), parent.id)
  {
    if "manage-realm" in held {
      return true;
    }
    var previous := ExpandComposites([parent], all);
    var effective := ExpandComposites([candidate], all);
    RowKeepsSite(all, parent, candidate.composites);
    forall j ensures j in Ids(previous) <==> Reaches(Edges(all), parent.id, j) {
      ExpansionIsClosure([parent], all, previous, j);
    }
    forall j ensures j in Ids(effective) <==> Reaches(Edges(ReplaceRow(all, candidate)), parent.id, j) {
      CandidateClosure(all, candidate, effective, j);
    }
    CandidateCovered(all, candidate, effective);
    ok := forall r :: r in effective ==> r.id in Ids(previous) || !Denied(held, r);
    forall r ensures Denied(held, r) <==> Guarded(held, r) {
      DeniedIff(held, r);
    }
    GuardedAgree(held, all, candidate, effective, Ids(previous));
  }

  lemma GuardedAgree(held: seq<string>, t: Table, row: Role, effective: seq<Role>, previous: set<RoleId>)
    requires DistinctIds(t) && SameSite(t, row) && forall r :: r in effective ==> r in ReplaceRow(t, row)
    ensures (forall r :: r in effective ==> r.id in previous || !Guarded(held, r)) <==>
            (forall r :: r in t && Guarded(held, r) && r.id in Ids(effective) ==> r.id in previous)
  {
    forall r | r in effective ensures exists x :: x in t && x.id == r.id && (Guarded(held, x) <==> Guarded(held, r)) {
      var x := OldRow(held, t, row, r);
    }
    forall x | x in t && x.id in Ids(effective)
      ensures exists r :: r in effective && r.id == x.id && (Guarded(held, x) <==> Guarded(held, r))
    {
      var r :| r in effective && r.id == x.id;
      var y := OldRow(held, t, row, r);
      RowOf(t, y, x);
    }
  }

  lemma OldRow(held: seq<string>, t: Table, row: Role, r: Role) returns (x: Role)
    requires DistinctIds(t) && SameSite(t, row) && r in ReplaceRow(t, row)
    ensures x in t && x.id == r.id && (Guarded(held, x) <==> Guarded(held, r))
  {
    var k :| 0 <= k < |t| && ReplaceRow(t, row)[k] == r;
    x := t[k];
  }

  /** Which adds the guard refuses: those of a caller without manage-realm that bring the parent a reserved role. */
  lemma AddForbiddenIff(t: Table, parent: Role, refs: seq<RoleRef>, held: seq<string>)
    ensures AddOutcome(t, parent, refs, held) == Err(Forbidden) <==>
            && ResolveRefs(refs, t).Ok? && !Rejects(t, parent, ResolveRefs(refs, t).value) && "manage-realm" !in held
            && exists r :: && r in t && !r.clientRole && Reserved(held, r.name) && !Reaches(Edges(t), parent.id, r.id)
                           && Reaches(Edges(AfterAdd(t, parent, ResolveRefs(refs, t).value)), parent.id, r.id)
  {
    RefErrors(refs, t);
  }

  lemma {:induction false} RefErrors(refs: seq<RoleRef>, t: Table)
    ensures ResolveRefs(refs, t).Err? ==> ResolveRefs(refs, t).error in {BadRequest, NotFound}
  {
    if refs != [] {
      RefErrors(refs[..|refs| - 1], t);
    }
  }

  // --- The steps of the add ------------------------------------------------

  method UnionAdd(parent: Role, additions: seq<Role>, all: Table) returns (children: seq<Role>)
    ensures children == Candidates(parent, additions, all)
  {
    children := DirectChildren(parent, parent.composites, all);
    for k := 0 to |additions|
      invariant children == UnionById(DirectChildren(parent, parent.composites, all), additions[..k])
    {
      assert additions[..k + 1][..k] == additions[..k];
      if additions[k].id !in Ids(children) {
        children := children + [additions[k]];
      }
    }
    assert additions[..|additions|] == additions;
  }

  method ClosureContains(children: seq<Role>, id: RoleId, all: Table) returns (b: bool)
    requires DistinctIds(all) && forall c :: c in children ==> c in all
    ensures b <==> exists c :: c in children && Reaches(Edges(all), c.id, id)
  {
    var closure := ExpandComposites(children, all);
    ExpansionIsClosure(children, all, closure, id);
    b := id in Ids(closure);
  }

  method CollectNames(children: seq<Role>) returns (names: seq<string>)
    ensures names == DistinctNames(children)
  {
    names := [];
    for k := 0 to |children|
      invariant names == DistinctNames(children[..k])
    {
      assert children[..k + 1][..k] == children[..k];
      if children[k].name !in names {
        names := names + [children[k].name];
      }
    }
    assert children[..|children|] == children;
  }

  // --- The store -----------------------------------------------------------

  class Store {
    var rows: Table

    constructor (rows: Table)
      ensures this.rows == rows
    {
      this.rows := rows;
    }

    method ResolveCompositeRefs(refs: seq<RoleRef>) returns (res: Result<seq<Role>, ApiError>)
      ensures res == ResolveRefs(refs, rows)
    {
      var roles: seq<Role> := [];
      for k := 0 to |refs|
        invariant ResolveRefs(refs[..k], rows) == Ok(roles)
      {
        assert refs[..k + 1][..k] == refs[..k];
        var r := ResolveRef(refs[k], rows);
        match r {
          case Err(e) =>
            ErrorsStick(refs, k + 1, rows);
            return Err(e);
          case Ok(role) => roles := roles + [role];
        }
      }
      assert refs[..|refs|] == refs;
      return Ok(roles);
    }

    /** The union-add endpoint. */
    method AddComposites(parent: Role, refs: seq<RoleRef>, held: seq<string>) returns (res: Result<(), ApiError>)
      requires DistinctIds(rows) && parent in rows
      modifies this
      ensures match AddOutcome(old(rows), parent, refs, held)
              case Ok(u) => res == Ok(()) && rows == u
              case Err(e) => res == Err(e) && rows == old(rows)
    {
      var resolved := ResolveCompositeRefs(refs);
      if resolved.Err? {
        return Err(resolved.error);
      }
      var additions := resolved.value;
      var children := UnionAdd(parent, additions, rows);
      CandidateIds(rows, parent, additions);
      var circular := ClosureContains(children, parent.id, rows);
      if circular {
        return Err(BadRequest);
      }
      var names := CollectNames(children);
      var updated := parent.(composites := names, composite := names != []);
      var grantable := NewAdminRolesGrantable(held, parent, updated, rows);
      if !grantable {
        return Err(Forbidden);
      }
      rows := ReplaceRow(rows, updated);
      return Ok(());
    }

    /** The idempotent removal endpoint. */
    method RemoveComposites(parent: Role, refs: seq<RoleRef>) returns (res: Result<(), ApiError>)
      requires DistinctIds(rows) && parent in rows
      modifies this
      ensures match RemoveOutcome(old(rows), parent, refs)
              case Ok(u) => res == Ok(()) && rows == u
              case Err(e) => res == Err(e) && rows == old(rows)
    {
      var resolved := ResolveCompositeRefs(refs);
      if resolved.Err? {
        return Err(resolved.error);
      }
      var names := Names(resolved.value);
      var kept := Without(parent.composites, names);
      rows := ReplaceRow(rows, parent.(composites := kept, composite := kept != []));
      return Ok(());
    }
  }

  lemma {:induction false} ErrorsStick(refs: seq<RoleRef>, k: nat, t: Table)
    requires k <= |refs| && ResolveRefs(refs[..k], t).Err?
    ensures ResolveRefs(refs, t) == ResolveRefs(refs[..k], t)
    decreases |refs|
  {
    if k == |refs| {
      assert refs[..k] == refs;
    } else {
      var n := |refs| - 1;
      assert refs[..n][..k] == refs[..k];
      ErrorsStick(refs[..n], k, t);
    }
  }

  // --- Runs ----------------------------------------------------------------

  datatype Op = Add(parent: RoleId, refs: seq<RoleRef>) | Remove(parent: RoleId, refs: seq<RoleRef>)

  /** One request: an unknown parent or a refused write leaves the table alone. */
  ghost function Apply(t: Table, op: Op, held: seq<string>): (u: Table) {
    match ById(t, op.parent)
    case None => t
    case Some(parent) =>
      var outcome := if op.Add? then AddOutcome(t, parent, op.refs, held) else RemoveOutcome(t, parent, op.refs);
      if outcome.Ok? then outcome.value else t
  }

  ghost function Run(t: Table, ops: seq<Op>, held: seq<string>): (u: Table) {
    if ops == [] then t else Apply(Run(t, ops[..|ops| - 1], held), ops[|ops| - 1], held)
  }

  /** The roles of `op`'s body are the ones their names stand for when read from its parent. */
  ghost predicate FaithfulOp(t: Table, op: Op) {
    op.Add? && ById(t, op.parent).Some? && ResolveRefs(op.refs, t).Ok? ==>
      Faithful(t, ById(t, op.parent).value, ResolveRefs(op.refs, t).value)
  }

  ghost predicate FaithfulRun(t: Table, ops: seq<Op>, held: seq<string>) {
    forall k :: 0 <= k < |ops| ==> FaithfulOp(Run(t, ops[..k], held), ops[k])
  }

  /** Row by row the same roles, up to their composites. */
  ghost predicate SameRoles(t: Table, u: Table) {
    |t| == |u| && forall k :: 0 <= k < |t| ==> SameRole(t[k], u[k])
  }

  ghost predicate SameRole(r: Role, x: Role) {
    r.id == x.id && r.name == x.name && r.clientRole == x.clientRole && r.clientId == x.clientId
  }

  lemma NewNamesKeepRoles(t: Table, parent: Role, names: seq<string>)
    requires DistinctIds(t) && parent in t
    ensures DistinctIds(ReplaceRow(t, WithNames(parent, names))) && SameRoles(t, ReplaceRow(t, WithNames(parent, names)))
  {
    var row := WithNames(parent, names);
    RowKeepsSite(t, parent, names);
    ReplaceKeepsIds(t, row);
    forall k | 0 <= k < |t| ensures SameRole(t[k], ReplaceRow(t, row)[k]) {
      assert t[k] in t;
    }
  }

  lemma AddKeepsRoles(t: Table, parent: Role, refs: seq<RoleRef>, held: seq<string>)
    requires DistinctIds(t) && parent in t && AddOutcome(t, parent, refs, held).Ok?
    ensures DistinctIds(AddOutcome(t, parent, refs, held).value) && SameRoles(t, AddOutcome(t, parent, refs, held).value)
  {
    NewNamesKeepRoles(t, parent, AddedRow(parent, ResolveRefs(refs, t).value, t).composites);
  }

  lemma RemoveKeepsRoles(t: Table, parent: Role, refs: seq<RoleRef>)
    requires DistinctIds(t) && parent in t && RemoveOutcome(t, parent, refs).Ok?
    ensures DistinctIds(RemoveOutcome(t, parent, refs).value) && SameRoles(t, RemoveOutcome(t, parent, refs).value)
  {
    NewNamesKeepRoles(t, parent, RemovedRow(parent, ResolveRefs(refs, t).value).composites);
  }

  lemma ApplyKeepsRoles(t: Table, op: Op, held: seq<string>)
    requires DistinctIds(t)
    ensures DistinctIds(Apply(t, op, held)) && SameRoles(t, Apply(t, op, held))
  {
    var parent := ById(t, op.parent);
    if parent.Some? {
      if op.Add? && AddOutcome(t, parent.value, op.refs, held).Ok? {
        AddKeepsRoles(t, parent.value, op.refs, held);
      } else if op.Remove? && RemoveOutcome(t, parent.value, op.refs).Ok? {
        RemoveKeepsRoles(t, parent.value, op.refs);
      }
    }
  }

  lemma {:induction false} RunKeepsRoles(t: Table, ops: seq<Op>, held: seq<string>)
    requires DistinctIds(t)
    ensures DistinctIds(Run(t, ops, held)) && SameRoles(t, Run(t, ops, held))
  {
    if ops != [] {
      RunKeepsRoles(t, ops[..|ops| - 1], held);
      ApplyKeepsRoles(Run(t, ops[..|ops| - 1], held), ops[|ops| - 1], held);
    }
  }

  /** An accepted add one of whose names, read from the parent, stands for a role that reaches the parent. */
  ghost predicate ClosesLoop(t: Table, op: Op, held: seq<string>) {
    && op.Add? && ById(t, op.parent).Some? && AddOutcome(t, ById(t, op.parent).value, op.refs, held).Ok?
    && AddedReaches(t, ById(t, op.parent).value, ResolveRefs(op.refs, t).value, op.parent)
  }

  lemma AddOutcomeAcyclicIff(t: Table, parent: Role, refs: seq<RoleRef>, held: seq<string>)
    requires DistinctIds(t) && Acyclic(Edges(t)) && parent in t && AddOutcome(t, parent, refs, held).Ok?
    ensures Acyclic(Edges(AddOutcome(t, parent, refs, held).value)) <==>
            !AddedReaches(t, parent, ResolveRefs(refs, t).value, parent.id)
  {
    AddAcyclicIff(t, parent, ResolveRefs(refs, t).value);
  }

  lemma RemoveOutcomeAcyclic(t: Table, parent: Role, refs: seq<RoleRef>)
    requires DistinctIds(t) && Acyclic(Edges(t)) && parent in t && RemoveOutcome(t, parent, refs).Ok?
    ensures Acyclic(Edges(RemoveOutcome(t, parent, refs).value))
  {
    RemoveClosure(t, parent, ResolveRefs(refs, t).value, parent.id, parent.id);
  }

  lemma ApplyAcyclicIff(t: Table, op: Op, held: seq<string>)
    requires DistinctIds(t) && Acyclic(Edges(t))
    ensures Acyclic(Edges(Apply(t, op, held))) <==> !ClosesLoop(t, op, held)
  {
    var parent := ById(t, op.parent);
    if parent.Some? {
      if op.Add? && AddOutcome(t, parent.value, op.refs, held).Ok? {
        AddOutcomeAcyclicIff(t, parent.value, op.refs, held);
      } else if op.Remove? && RemoveOutcome(t, parent.value, op.refs).Ok? {
        RemoveOutcomeAcyclic(t, parent.value, op.refs);
      }
    }
  }

  ghost predicate AcyclicAt(t: Table, ops: seq<Op>, held: seq<string>, k: nat)
    requires k <= |ops|
  {
    Acyclic(Edges(Run(t, ops[..k], held)))
  }

  ghost predicate LoopAt(t: Table, ops: seq<Op>, held: seq<string>, k: nat)
    requires k < |ops|
  {
    ClosesLoop(Run(t, ops[..k], held), ops[k], held)
  }

  lemma AcyclicNext(t: Table, ops: seq<Op>, held: seq<string>, k: nat)
    requires DistinctIds(t) && k < |ops| && AcyclicAt(t, ops, held, k)
    ensures AcyclicAt(t, ops, held, k + 1) <==> !LoopAt(t, ops, held, k)
  {
    assert ops[..k + 1][..k] == ops[..k];
    RunKeepsRoles(t, ops[..k], held);
    ApplyAcyclicIff(Run(t, ops[..k], held), ops[k], held);
  }

  lemma {:induction false} AcyclicUpTo(t: Table, ops: seq<Op>, held: seq<string>, k: nat)
    requires DistinctIds(t) && Acyclic(Edges(t)) && k <= |ops| && forall i: nat :: i < k ==> !LoopAt(t, ops, held, i)
    ensures AcyclicAt(t, ops, held, k)
  {
    if k == 0 {
      assert ops[..0] == [];
    } else {
      AcyclicUpTo(t, ops, held, k - 1);
      AcyclicNext(t, ops, held, k - 1);
    }
  }

  /** A run stays acyclic all the way exactly when it starts so and no accepted add closes a loop by name. */
  lemma RunAcyclicIff(t: Table, ops: seq<Op>, held: seq<string>)
    requires DistinctIds(t)
    ensures (forall k: nat :: k <= |ops| ==> AcyclicAt(t, ops, held, k)) <==>
            Acyclic(Edges(t)) && forall k: nat :: k < |ops| ==> !LoopAt(t, ops, held, k)
  {
    assert ops[..0] == [];
    if forall k: nat :: k <= |ops| ==> AcyclicAt(t, ops, held, k) {
      assert AcyclicAt(t, ops, held, 0);
      forall k: nat | k < |ops| ensures !LoopAt(t, ops, held, k) {
        AcyclicNext(t, ops, held, k);
      }
    }
    if Acyclic(Edges(t)) && forall k: nat :: k < |ops| ==> !LoopAt(t, ops, held, k) {
      forall k: nat | k <= |ops| ensures AcyclicAt(t, ops, held, k) {
        AcyclicUpTo(t, ops, held, k);
      }
    }
  }

  /** With names that stand for the roles they were taken from, no accepted add closes a loop. */
  lemma FaithfulAddClosesNoLoop(t: Table, op: Op, held: seq<string>)
    requires DistinctIds(t) && Acyclic(Edges(t)) && FaithfulOp(t, op)
    ensures !ClosesLoop(t, op, held)
  {
    if op.Add? && ById(t, op.parent).Some? && AddOutcome(t, ById(t, op.parent).value, op.refs, held).Ok? {
      var parent, roles := ById(t, op.parent).value, ResolveRefs(op.refs, t).value;
      AcceptedAddKeepsAcyclic(t, parent, roles);
      AddAcyclicIff(t, parent, roles);
    }
  }

  /** Every run of adds and removes with faithful names keeps an acyclic graph acyclic. */
  lemma {:induction false} RunKeepsAcyclic(t: Table, ops: seq<Op>, held: seq<string>)
    requires DistinctIds(t) && Acyclic(Edges(t)) && FaithfulRun(t, ops, held)
    ensures Acyclic(Edges(Run(t, ops, held)))
  {
    if ops != [] {
      var n := |ops| - 1;
      forall k | 0 <= k < n ensures FaithfulOp(Run(t, ops[..n][..k], held), ops[..n][k]) {
        assert ops[..n][..k] == ops[..k];
      }
      RunKeepsAcyclic(t, ops[..n], held);
      RunKeepsRoles(t, ops[..n], held);
      FaithfulAddClosesNoLoop(Run(t, ops[..n], held), ops[n], held);
      ApplyAcyclicIff(Run(t, ops[..n], held), ops[n], held);
    }
  }

  /** No role's closure gained a role the caller may not grant. */
  ghost predicate Contained(held: seq<string>, t: Table, u: Table) {
    forall i, r :: r in t && Guarded(held, r) && Reaches(Edges(u), i, r.id) ==> Reaches(Edges(t), i, r.id)
  }

  /** The guard looks at the parent only; every other role is covered by the closure law. */
  lemma AddContains(held: seq<string>, t: Table, parent: Role, additions: seq<Role>)
    requires Site(t, parent, additions)
    requires BringsNothingGuarded(held, t, AfterAdd(t, parent, additions), parent.id)
    ensures Contained(held, t, AfterAdd(t, parent, additions))
  {
    var u := AfterAdd(t, parent, additions);
    forall i, r | r in t && Guarded(held, r) && Reaches(Edges(u), i, r.id) ensures Reaches(Edges(t), i, r.id) {
      AddClosure(t, parent, additions, i, r.id);
      if !Reaches(Edges(t), i, r.id) {
        ReachesSelf(Edges(t), parent.id);
        AddClosure(t, parent, additions, parent.id, r.id);
        ReachesTrans(Edges(t), i, parent.id, r.id);
      }
    }
  }

  lemma RemoveContains(held: seq<string>, t: Table, parent: Role, removals: seq<Role>)
    requires DistinctIds(t) && parent in t
    ensures Contained(held, t, AfterRemove(t, parent, removals))
  {
    forall i, j | Reaches(Edges(AfterRemove(t, parent, removals)), i, j) ensures Reaches(Edges(t), i, j) {
      RemoveClosure(t, parent, removals, i, j);
    }
  }

  lemma ApplyContains(t: Table, op: Op, held: seq<string>)
    requires DistinctIds(t) && "manage-realm" !in held
    ensures Contained(held, t, Apply(t, op, held))
  {
    if Apply(t, op, held) != t {
      var parent := ById(t, op.parent).value;
      var roles := ResolveRefs(op.refs, t).value;
      if op.Add? {
        AddContains(held, t, parent, roles);
      } else {
        RemoveContains(held, t, parent, roles);
      }
    }
  }

  /**
    No sequence of composite writes by a caller without `manage-realm` brings an admin role the
    caller may not grant into the closure of any role: names, cycles and other ancestors included.
   */
  lemma {:induction false} RunContains(t: Table, ops: seq<Op>, held: seq<string>)
    requires DistinctIds(t) && "manage-realm" !in held
    ensures Contained(held, t, Run(t, ops, held))
  {
    if ops != [] {
      var n := |ops| - 1;
      var u := Run(t, ops[..n], held);
      RunContains(t, ops[..n], held);
      RunKeepsRoles(t, ops[..n], held);
      ApplyContains(u, ops[n], held);
      forall i, r | r in t && Guarded(held, r) && Reaches(Edges(Run(t, ops, held)), i, r.id)
        ensures Reaches(Edges(t), i, r.id)
      {
        var k :| 0 <= k < |t| && t[k] == r;
        assert u[k] in u && Guarded(held, u[k]);
      }
    }
  }

  /**
    In the names of the roles: without manage-realm, no run of composite writes brings manage-realm, manage-users,
    manage-clients or impersonation that the caller does not hold into any closure, nor a view role of an area
    that the caller neither views nor manages.
   */
  lemma RunKeepsAdminRolesOut(t: Table, ops: seq<Op>, held: seq<string>, r: Role, i: RoleId)
    requires DistinctIds(t) && "manage-realm" !in held && r in t && !r.clientRole
    requires || (r.name in {"manage-realm", "manage-users", "manage-clients", "impersonation"} && r.name !in held)
             || (r.name == "view-realm" && "view-realm" !in held)
             || (r.name == "view-users" && "view-users" !in held && "manage-users" !in held)
             || (r.name == "view-clients" && "view-clients" !in held && "manage-clients" !in held)
    ensures Reaches(Edges(Run(t, ops, held)), i, r.id) ==> Reaches(Edges(t), i, r.id)
  {
    assert "view-realm" == "view-" + "realm" && "view-users" == "view-" + "users" && "view-clients" == "view-" + "clients";
    assert "manage-realm" == "manage-" + "realm" && "manage-users" == "manage-" + "users";
    assert "manage-clients" == "manage-" + "clients";
    RunContains(t, ops, held);
  }

  // --- When bodies are faithful --------------------------------------------

  /** A name-only reference is faithful for a realm role exactly when its name is not ambiguous. */
  lemma NameReferenceFaithful(t: Table, parent: Role, ref: RoleRef)
    requires WellFormed(t) && parent in t && !parent.clientRole
    requires ref.id.None? && ref.clientRole != Some(true) && ResolveRef(ref, t).Ok?
    ensures Faithful(t, parent, [ResolveRef(ref, t).value]) <==> !Ambiguous(parent, ref.name, t)
  {
    ResolutionsAgree(parent, ref.name, t);
    var r := ResolveRef(ref, t).value;
    assert ResolveChildName(parent, ref.name, t) == Some(r) && r.name == ref.name;
    assert r in [r];
  }

  /** A reference to a role of the parent's own client is always faithful. */
  lemma OwnClientReferenceFaithful(t: Table, parent: Role, ref: RoleRef)
    requires WellFormed(t) && parent in t && parent.clientRole
    requires ref.id.None? && ref.clientRole == Some(true) && ref.containerId == parent.clientId && ResolveRef(ref, t).Ok?
    ensures Faithful(t, parent, [ResolveRef(ref, t).value])
  {
    var r := ResolveRef(ref, t).value;
    assert Matches(ClientNamed(parent.clientId, ref.name), r);
    ContainerKeysAreUnique(t, ClientNamed(parent.clientId, ref.name));
  }
}
