/**
  What it means that a write brings no admin role the caller may not grant into any closure, the guard
  on client-role writes, and the writes that are safe under it.
 */
module RoleWrites {
  import opened Prelude
  import opened Roles
  import opened Digraph
  import opened Expansion
  import opened Composites
  import opened RoleStore

  // --- What has to stay out ------------------------------------------------

  ghost function GuardedIds(held: seq<string>, t: Table): (r: iset<RoleId>) {
    iset r | r in t && Guarded(held, r) :: r.id
  }

  /** No closure gains a role of `u` that the caller may not grant. */
  ghost predicate Shielded(held: seq<string>, t: Table, u: Table) {
    KeepsOut(Edges(t), Edges(u), GuardedIds(held, u))
  }

  /** A name that role `a` stores stands, in `u`, for a role that no name of `a` stood for in `t`. */
  ghost predicate StandsAnew(t: Table, u: Table, a: Role, n: string, y: Role) {
    a in u && n in a.composites && ResolveExpansion(a, n, u) == Some(y) && (a.id, y.id) !in Edges(t)
  }

  /** For any change of the table at all: closures gain nothing guarded exactly when no name comes to stand for it. */
  lemma NamesDecide(held: seq<string>, t: Table, u: Table)
    ensures Shielded(held, t, u) <==>
            forall a, n, y :: StandsAnew(t, u, a, n, y) ==> !Gains(Edges(t), Edges(u), GuardedIds(held, u), a.id, y.id)
  {
    var g, h, kept := Edges(t), Edges(u), GuardedIds(held, u);
    NewEdgesDecide(g, h, kept);
    if forall i, j :: !LetsIn(g, h, kept, i, j) {
      forall a, n, y | StandsAnew(t, u, a, n, y) ensures !Gains(g, h, kept, a.id, y.id) {
        assert Step(u, a, y) && !LetsIn(g, h, kept, a.id, y.id);
      }
    }
    if forall a, n, y :: StandsAnew(t, u, a, n, y) ==> !Gains(g, h, kept, a.id, y.id) {
      forall i, j ensures !LetsIn(g, h, kept, i, j) {
        if (i, j) in h && (i, j) !in g {
          var a, y :| a in u && Step(u, a, y) && (a.id, y.id) == (i, j);
          var n :| n in a.composites && ResolveExpansion(a, n, u) == Some(y);
          assert StandsAnew(t, u, a, n, y);
        }
      }
    }
  }

  // --- The guard -----------------------------------------------------------

  /** The graph in which the candidate, stored or not, has the edges its names stand for in `t`. */
  ghost function CandidateGraph(t: Table, c: Role): (g: Graph) {
    Cut(Edges(t), c.id) + Fan(c.id, Targets(c, Stored(c), t))
  }

  lemma CandidateStepsIn(t: Table, c: Role, out: seq<Role>, m: Role, r: Role)
    requires DistinctIds(t) && IsExpansion([c], t, out) && m in out && Step(t, m, r)
    ensures (m.id, r.id) in CandidateGraph(t, c)
  {
    StepTargets(t, m, r.id);
    GrownFromTable([c], t, out);
    if m.id == c.id {
      OnlyFirstHasItsId(out, m);
    } else {
      assert m in t;
    }
  }

  lemma CandidateClosed(t: Table, c: Role, out: seq<Role>, a: RoleId, b: RoleId)
    requires DistinctIds(t) && IsExpansion([c], t, out) && a in Ids(out) && (a, b) in CandidateGraph(t, c)
    ensures b in Ids(out)
  {
    GrownFromTable([c], t, out);
    var m :| m in out && m.id == a;
    if a == c.id {
      OnlyFirstHasItsId(out, m);
      StepTargets(t, c, b);
    } else {
      var x, y :| x in t && Step(t, x, y) && (x.id, y.id) == (a, b);
      RowOf(t, x, m);
    }
  }

  /** Expanding a candidate gives its closure in that graph. */
  lemma CandidateReach(t: Table, c: Role, out: seq<Role>, j: RoleId)
    requires DistinctIds(t) && IsExpansion([c], t, out)
    ensures j in Ids(out) <==> Reaches(CandidateGraph(t, c), c.id, j)
  {
    var g := CandidateGraph(t, c);
    forall m, r | m in out && Step(t, m, r) ensures (m.id, r.id) in g {
      CandidateStepsIn(t, c, out, m, r);
    }
    if j in Ids(out) {
      var k :| 0 <= k < |out| && out[k].id == j;
      GrownReaches([c], t, out, g, k);
    }
    if Reaches(g, c.id, j) {
      var n: nat :| ReachesIn(g, c.id, j, n);
      var s := iset i | i in Ids(out);
      forall a, b | (a, b) in g && a in s ensures b in s {
        CandidateClosed(t, c, out, a, b);
      }
      assert c in [c] && c.id in Ids([c]);
      ClosedSetsKeepPaths(g, s, c.id, j, n);
    }
  }

  /** The guard on client-role writes: whatever the candidate brings, it had before or the caller may grant. */
  ghost predicate Grants(held: seq<string>, t: Table, previous: Option<Role>, candidate: Role) {
    || "manage-realm" in held
    || forall r :: r in t && Guarded(held, r) && Reaches(CandidateGraph(t, candidate), candidate.id, r.id) ==>
                     r.id == candidate.id || (previous.Some? && Reaches(Edges(t), previous.value.id, r.id))
  }

  method RequireNewAdminRolesGrantable(held: seq<string>, previous: Option<Role>, candidate: Role, all: Table) returns (ok: bool)
    requires DistinctIds(all) && candidate.clientRole && (previous.Some? ==> previous.value in all)
    ensures ok <==> Grants(held, all, previous, candidate)
  {
    if "manage-realm" in held {
      return true;
    }
    var known: seq<Role> := [];
    if previous.Some? {
      known := ExpandComposites([previous.value], all);
    }
    var effective := ExpandComposites([candidate], all);
    forall j ensures j in Ids(effective) <==> Reaches(CandidateGraph(all, candidate), candidate.id, j) {
      CandidateReach(all, candidate, effective, j);
    }
    forall j ensures j in Ids(known) <==> previous.Some? && Reaches(Edges(all), previous.value.id, j) {
      if previous.Some? {
        ExpansionIsClosure([previous.value], all, known, j);
      }
    }
    ok := forall r :: r in effective ==> r.id in Ids(known) || !Denied(held, r);
    forall r ensures Denied(held, r) <==> Guarded(held, r) {
      DeniedIff(held, r);
    }
    EffectiveRows(held, candidate, all, effective, Ids(known));
  }

  lemma EffectiveRows(held: seq<string>, candidate: Role, all: Table, effective: seq<Role>, known: set<RoleId>)
    requires DistinctIds(all) && candidate.clientRole && IsExpansion([candidate], all, effective)
    ensures (forall r :: r in effective ==> r.id in known || !Guarded(held, r)) <==>
            forall r :: r in all && Guarded(held, r) && r.id in Ids(effective) ==> r.id == candidate.id || r.id in known
  {
    GrownFromTable([candidate], all, effective);
    forall r | r in effective ensures r == candidate || (r in all && r.id != candidate.id) {
      if r.id == candidate.id {
        OnlyFirstHasItsId(effective, r);
      }
    }
    forall r | r in all && r.id in Ids(effective) && r.id != candidate.id ensures r in effective {
      var x :| x in effective && x.id == r.id;
      RowOf(all, x, r);
    }
  }

  // --- Writes that are safe ------------------------------------------------

  /** A row rewritten in its place, when its own closure gains nothing guarded. */
  lemma InPlaceShields(held: seq<string>, t: Table, row: Role)
    requires DistinctIds(t) && row.id in Ids(t) && SameSite(t, row)
    requires forall r :: r in GuardedIds(held, ReplaceRow(t, row)) && Reaches(Edges(ReplaceRow(t, row)), row.id, r) ==>
                           Reaches(Edges(t), row.id, r)
    ensures Shielded(held, t, ReplaceRow(t, row))
  {
    var g, h, kept := Edges(t), Edges(ReplaceRow(t, row)), GuardedIds(held, ReplaceRow(t, row));
    NewEdgesDecide(g, h, kept);
    forall a, b ensures !LetsIn(g, h, kept, a, b) {
      EdgesAfterReplace(t, row, a, b);
      if (a, b) in h && (a, b) !in g {
        forall r | r in kept && Reaches(h, b, r) ensures Reaches(g, a, r) {
          ReachesByEdge(h, a, b, r);
        }
      }
    }
  }

  lemma CandidateIsStored(t: Table, row: Role)
    requires DistinctIds(t) && row.id in Ids(t) && SameSite(t, row)
    ensures Edges(ReplaceRow(t, row)) == CandidateGraph(t, row)
  {
    forall i, j ensures (i, j) in Edges(ReplaceRow(t, row)) <==> (i, j) in CandidateGraph(t, row) {
      EdgesAfterReplace(t, row, i, j);
    }
  }

  /** An update that keeps the name is safe under the guard. */
  lemma UpdateInPlaceShields(held: seq<string>, t: Table, existing: Role, row: Role)
    requires DistinctIds(t) && existing in t && row.id == existing.id && SameSite(t, row) && existing.clientRole
    requires "manage-realm" !in held && Grants(held, t, Some(existing), row)
    ensures Shielded(held, t, ReplaceRow(t, row))
  {
    assert row.id in Ids(t) && row.clientRole;
    CandidateIsStored(t, row);
    ReachesSelf(Edges(t), row.id);
    forall r | r in GuardedIds(held, ReplaceRow(t, row)) && Reaches(Edges(ReplaceRow(t, row)), row.id, r)
      ensures Reaches(Edges(t), row.id, r)
    {
      var x := GuardedRowStays(held, t, row, r);
    }
    InPlaceShields(held, t, row);
  }

  lemma GuardedRowStays(held: seq<string>, t: Table, row: Role, r: RoleId) returns (x: Role)
    requires row.clientRole && r in GuardedIds(held, ReplaceRow(t, row))
    ensures x in t && Guarded(held, x) && x.id == r
  {
    x :| x in ReplaceRow(t, row) && Guarded(held, x) && x.id == r;
    var k :| 0 <= k < |t| && ReplaceRow(t, row)[k] == x;
    assert t[k] in t && t[k] == x;
  }

  /** With a new row in the table, a name stands for the new row or for what it stood for before. */
  lemma AppendResolves(t: Table, x: Role, a: Role, n: string, y: Role)
    requires WellFormed(t) && WellFormed(t + [x]) && (a.clientRole <==> a.clientId.Some?)
    requires ResolveExpansion(a, n, t + [x]) == Some(y) && y != x
    ensures ResolveExpansion(a, n, t) == Some(y)
  {
    var u := t + [x];
    assert x in u && (forall r :: r in t ==> r in u) && forall r :: r in u ==> r in t || r == x;
    ExpansionNameIff(a, n, u, y);
    ExpansionNameIff(a, n, t, y);
  }

  lemma AppendEdges(t: Table, x: Role, i: RoleId, j: RoleId)
    requires WellFormed(t) && WellFormed(t + [x]) && (i, j) in Edges(t + [x]) && j != x.id
    ensures (i, j) in CandidateGraph(t, x) && (i != x.id ==> (i, j) in Edges(t))
  {
    var u := t + [x];
    var a, y :| a in u && Step(u, a, y) && (a.id, y.id) == (i, j);
    var n :| n in a.composites && ResolveExpansion(a, n, u) == Some(y);
    AppendResolves(t, x, a, n, y);
    assert Step(t, a, y);
    StepTargets(t, a, j);
    if i == x.id {
      RowOf(u, a, x);
    } else {
      assert a in t;
    }
  }

  lemma NewRowReachesNothing(held: seq<string>, t: Table, x: Role, r: RoleId)
    requires WellFormed(t) && WellFormed(t + [x]) && x.clientRole
    requires "manage-realm" !in held && Grants(held, t, None, x) && r in GuardedIds(held, t + [x])
    ensures !Reaches(Edges(t + [x]), x.id, r)
  {
    var u, g := t + [x], CandidateGraph(t, x);
    var row :| row in u && Guarded(held, row) && row.id == r;
    var k :| 0 <= k < |t| && t[k] == row;
    assert u[k] == row && u[|t|] == x && row.id != x.id;
    assert !Reaches(g, x.id, r);
    if Reaches(Edges(u), x.id, r) {
      var n: nat :| ReachesIn(Edges(u), x.id, r, n);
      forall a, b | (a, b) in Edges(u) && b != x.id ensures (a, b) in g {
        AppendEdges(t, x, a, b);
      }
      PathOrFrom(g, Edges(u), x.id, x.id, r, n);
    }
  }

  /** A create under a new id is safe under the guard, although other roles' names may come to stand for the new role. */
  lemma CreateShields(held: seq<string>, t: Table, x: Role)
    requires WellFormed(t) && WellFormed(t + [x]) && x.clientRole && "manage-realm" !in held && Grants(held, t, None, x)
    ensures Shielded(held, t, t + [x])
  {
    var g, h, kept := Edges(t), Edges(t + [x]), GuardedIds(held, t + [x]);
    NewEdgesDecide(g, h, kept);
    forall r | r in kept ensures !Reaches(h, x.id, r) {
      NewRowReachesNothing(held, t, x, r);
    }
    forall a, b ensures !LetsIn(g, h, kept, a, b) {
      if (a, b) in h && (a, b) !in g {
        if b != x.id {
          AppendEdges(t, x, a, b);
          forall r | r in kept ensures !Reaches(h, b, r) {
            if Reaches(h, b, r) {
              ReachesByEdge(h, a, b, r);
            }
          }
        }
      }
    }
  }
}
