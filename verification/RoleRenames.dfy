/**
  Renames, and creates over a stored id: every closure afterwards in terms of the table before, and exactly
  which of them enlarge a closure by a role the caller may not grant.
 */
module RoleRenames {
  import opened Prelude
  import opened Roles
  import opened Digraph
  import opened Expansion
  import opened Composites
  import opened RoleStore
  import opened RoleWrites
  import opened RoleDeletes
  import opened RowRewrites

  // --- Closures ------------------------------------------------------------

  /** Past the rewritten row: over names that stay, and at most one that is freed. */
  ghost predicate Beyond(t: Table, x: Role, row: Role, i: RoleId, j: RoleId) {
    Reaches(Kept(t, x, row), i, j) || Via(Kept(t, x, row), Freed(t, x, row), i, j)
  }

  ghost predicate ComesTo(t: Table, x: Role, row: Role, i: RoleId) {
    exists a :: Taker(t, x, row, a) && Beyond(t, x, row, i, a.id)
  }

  ghost predicate RowBrings(t: Table, x: Role, row: Role, j: RoleId) {
    exists y :: (OwnKept(t, x, row, y) || OwnFreed(t, x, row, y)) && Beyond(t, x, row, y.id, j)
  }

  ghost predicate Brings(t: Table, x: Role, row: Role, i: RoleId, j: RoleId) {
    if i == x.id then RowBrings(t, x, row, j)
    else Beyond(t, x, row, i, j) || (ComesTo(t, x, row, i) && RowBrings(t, x, row, j))
  }

  lemma FreedIsOneSink(t: Table, x: Role, row: Role)
    requires Rewrites(t, x, row)
    ensures OneSink(Freed(t, x, row))
  {
    ExposedIsOneSink(t, x);
    assert Freed(t, x, row) <= Exposed(t, x);
  }

  lemma BeyondIff(t: Table, x: Role, row: Role, i: RoleId, j: RoleId)
    requires Rewrites(t, x, row)
    ensures Reaches(Apart(Edges(ReplaceRow(t, row)), x.id), i, j) <==> Beyond(t, x, row, i, j)
  {
    AroundEdges(t, x, row);
    FreedIsOneSink(t, x, row);
    SinkClosure(Kept(t, x, row), Freed(t, x, row), i, j);
  }

  lemma ComesToIff(t: Table, x: Role, row: Role, i: RoleId)
    requires Rewrites(t, x, row)
    ensures Enters(Edges(ReplaceRow(t, row)), x.id, i) <==> ComesTo(t, x, row, i)
  {
    var h := Edges(ReplaceRow(t, row));
    if Enters(h, x.id, i) {
      var b :| b != x.id && (b, x.id) in h && Reaches(Apart(h, x.id), i, b);
      EdgeInto(t, x, row, b);
      BeyondIff(t, x, row, i, b);
    }
    if a :| Taker(t, x, row, a) && Beyond(t, x, row, i, a.id) {
      OtherRows(t, x, row, a);
      EdgeInto(t, x, row, a.id);
      BeyondIff(t, x, row, i, a.id);
    }
  }

  lemma RowBringsIff(t: Table, x: Role, row: Role, j: RoleId)
    requires Rewrites(t, x, row)
    ensures Leaves(Edges(ReplaceRow(t, row)), x.id, j) <==> RowBrings(t, x, row, j)
  {
    var h := Edges(ReplaceRow(t, row));
    if Leaves(h, x.id, j) {
      var b :| b != x.id && (x.id, b) in h && Reaches(Apart(h, x.id), b, j);
      EdgeOut(t, x, row, b);
      BeyondIff(t, x, row, b, j);
    }
    if y :| (OwnKept(t, x, row, y) || OwnFreed(t, x, row, y)) && Beyond(t, x, row, y.id, j) {
      OwnSteps(t, x, row, y);
      BeyondIff(t, x, row, y.id, j);
    }
  }

  /** Every closure after the write. */
  lemma RewriteClosure(t: Table, x: Role, row: Role, i: RoleId, j: RoleId)
    requires Rewrites(t, x, row) && j != x.id
    ensures Reaches(Edges(ReplaceRow(t, row)), i, j) <==> Brings(t, x, row, i, j)
  {
    RowBringsIff(t, x, row, j);
    if i == x.id {
      DetourClosure(Edges(ReplaceRow(t, row)), x.id, j, j);
    } else {
      DetourClosure(Edges(ReplaceRow(t, row)), x.id, i, j);
      BeyondIff(t, x, row, i, j);
      ComesToIff(t, x, row, i);
    }
  }

  // --- Guarded closures ----------------------------------------------------

  /** The roles other than `x` that the caller may not grant. */
  ghost function GuardedBut(held: seq<string>, t: Table, x: Role): (r: iset<RoleId>) {
    iset r | r in t && r != x && Guarded(held, r) :: r.id
  }

  ghost predicate GainsAfter(t: Table, x: Role, row: Role, kept: iset<RoleId>, a: RoleId, b: RoleId) {
    exists r :: r in kept && Brings(t, x, row, b, r) && !Reaches(Edges(t), a, r)
  }

  /**
    The write gives some role a guarded one: the name it frees does, stored by another role or by the row
    itself, or the row does, in a role whose name it takes.
   */
  ghost predicate RewriteEnlarges(held: seq<string>, t: Table, x: Role, row: Role) {
    var kept := GuardedBut(held, t, x);
    || (exists a, y :: FreedName(t, x, row, a, y) && GainsAfter(t, x, row, kept, a.id, y.id))
    || (exists y :: OwnFreed(t, x, row, y) && GainsAfter(t, x, row, kept, x.id, y.id))
    || (exists a :: Taker(t, x, row, a) && GainsAfter(t, x, row, kept, a.id, x.id))
  }

  lemma GainsIff(t: Table, x: Role, row: Role, kept: iset<RoleId>, a: RoleId, b: RoleId)
    requires Rewrites(t, x, row) && x.id !in kept
    ensures Gains(Edges(t), Edges(ReplaceRow(t, row)), kept, a, b) <==> GainsAfter(t, x, row, kept, a, b)
  {
    forall r | r in kept ensures Reaches(Edges(ReplaceRow(t, row)), b, r) <==> Brings(t, x, row, b, r) {
      RewriteClosure(t, x, row, b, r);
    }
  }

  lemma GuardedAfter(held: seq<string>, t: Table, x: Role, row: Role)
    requires Rewrites(t, x, row)
    ensures GuardedIds(held, ReplaceRow(t, row)) == GuardedBut(held, t, x) && x.id !in GuardedBut(held, t, x)
  {
    RowsAfter(t, x, row);
    forall r | r in t && r != x ensures r.id != x.id {
      OtherRows(t, x, row, r);
    }
  }

  ghost function OwnKeptIds(t: Table, x: Role, row: Role): iset<RoleId> {
    iset y | OwnKept(t, x, row, y) :: y.id
  }

  ghost function OwnFreedIds(t: Table, x: Role, row: Role): iset<RoleId> {
    iset y | OwnFreed(t, x, row, y) :: y.id
  }

  lemma KeptIsOld(t: Table, x: Role, row: Role)
    ensures Kept(t, x, row) <= Edges(t)
  {
    forall a, n, y | KeptName(t, x, row, a, n, y) ensures (a.id, y.id) in Edges(t) {
      assert Step(t, a, y);
    }
  }

  lemma RewriteIsRewiring(t: Table, x: Role, row: Role)
    requires Rewrites(t, x, row)
    ensures Rewired(Edges(t), Edges(ReplaceRow(t, row)), x.id, Freed(t, x, row), OwnKeptIds(t, x, row), OwnFreedIds(t, x, row))
  {
    var h := Edges(ReplaceRow(t, row));
    AroundEdges(t, x, row);
    KeptIsOld(t, x, row);
    FreedIsOneSink(t, x, row);
    forall b | (x.id, b) in h && b != x.id ensures b in OwnKeptIds(t, x, row) || b in OwnFreedIds(t, x, row) {
      EdgeOut(t, x, row, b);
    }
    forall y | OwnFreed(t, x, row, y) ensures (x.id, y.id) in h {
      OwnSteps(t, x, row, y);
    }
  }

  /** What the guard knows of the row: the names it stores, read in the table before. */
  lemma GuardKnows(held: seq<string>, t: Table, x: Role, row: Role, previous: Option<Role>, b: RoleId, r: RoleId)
    requires Rewrites(t, x, row) && (previous.Some? ==> previous.value.id == x.id)
    requires "manage-realm" !in held && Grants(held, t, previous, row)
    requires b in OwnKeptIds(t, x, row) && r in GuardedBut(held, t, x) && Reaches(Cut(Edges(t), x.id), b, r)
    ensures Reaches(Edges(t), x.id, r)
  {
    var c := CandidateGraph(t, row);
    var y :| OwnKept(t, x, row, y) && y.id == b;
    assert Step(t, row, y);
    StepTargets(t, row, b);
    assert (x.id, b) in c;
    ReachesMono(Cut(Edges(t), x.id), c, b, r);
    ReachesByEdge(c, x.id, b, r);
    var g :| g in t && g != x && Guarded(held, g) && g.id == r;
    OtherRows(t, x, row, g);
  }

  lemma FreedGains(t: Table, x: Role, row: Role, kept: iset<RoleId>)
    requires Rewrites(t, x, row) && x.id !in kept
    ensures (forall a, q :: (a, q) in Freed(t, x, row) ==> !Gains(Edges(t), Edges(ReplaceRow(t, row)), kept, a, q)) <==>
            !exists a, y :: FreedName(t, x, row, a, y) && GainsAfter(t, x, row, kept, a.id, y.id)
  {
    var e := Freed(t, x, row);
    forall a, y | FreedName(t, x, row, a, y)
      ensures && (a.id, y.id) in e
              && (Gains(Edges(t), Edges(ReplaceRow(t, row)), kept, a.id, y.id) <==> GainsAfter(t, x, row, kept, a.id, y.id))
    {
      GainsIff(t, x, row, kept, a.id, y.id);
    }
  }

  lemma OwnGains(t: Table, x: Role, row: Role, kept: iset<RoleId>)
    requires Rewrites(t, x, row) && x.id !in kept
    ensures (forall q :: q in OwnFreedIds(t, x, row) ==> !Gains(Edges(t), Edges(ReplaceRow(t, row)), kept, x.id, q)) <==>
            !exists y :: OwnFreed(t, x, row, y) && GainsAfter(t, x, row, kept, x.id, y.id)
  {
    forall y | OwnFreed(t, x, row, y)
      ensures && y.id in OwnFreedIds(t, x, row)
              && (Gains(Edges(t), Edges(ReplaceRow(t, row)), kept, x.id, y.id) <==> GainsAfter(t, x, row, kept, x.id, y.id))
    {
      GainsIff(t, x, row, kept, x.id, y.id);
    }
  }

  lemma TakerGains(t: Table, x: Role, row: Role, kept: iset<RoleId>)
    requires Rewrites(t, x, row) && x.id !in kept
    ensures (forall a :: a != x.id && (a, x.id) in Edges(ReplaceRow(t, row)) ==>
                           !Gains(Edges(t), Edges(ReplaceRow(t, row)), kept, a, x.id)) <==>
            !exists a :: Taker(t, x, row, a) && GainsAfter(t, x, row, kept, a.id, x.id)
  {
    var h := Edges(ReplaceRow(t, row));
    forall a | a != x.id ensures (a, x.id) in h <==> exists m :: Taker(t, x, row, m) && m.id == a {
      EdgeInto(t, x, row, a);
    }
    forall m | Taker(t, x, row, m)
      ensures m.id != x.id && (Gains(Edges(t), h, kept, m.id, x.id) <==> GainsAfter(t, x, row, kept, m.id, x.id))
    {
      OtherRows(t, x, row, m);
      GainsIff(t, x, row, kept, m.id, x.id);
    }
  }

  /** Under the guard, a rename or a create over a stored id enlarges a guarded closure in exactly those three ways. */
  lemma RewriteShieldsIff(held: seq<string>, t: Table, x: Role, row: Role, previous: Option<Role>)
    requires Rewrites(t, x, row) && (previous.Some? ==> previous.value.id == x.id)
    requires "manage-realm" !in held && Grants(held, t, previous, row)
    ensures Shielded(held, t, ReplaceRow(t, row)) <==> !RewriteEnlarges(held, t, x, row)
  {
    var g, kept := Edges(t), GuardedBut(held, t, x);
    GuardedAfter(held, t, x, row);
    RewriteIsRewiring(t, x, row);
    forall b, r | b in OwnKeptIds(t, x, row) && r in kept && Reaches(Cut(g, x.id), b, r) ensures Reaches(g, x.id, r) {
      GuardKnows(held, t, x, row, previous, b, r);
    }
    RewiredKeepsOutIff(g, Edges(ReplaceRow(t, row)), x.id,
                       Freed(t, x, row), OwnKeptIds(t, x, row), OwnFreedIds(t, x, row), kept);
    FreedGains(t, x, row, kept);
    OwnGains(t, x, row, kept);
    TakerGains(t, x, row, kept);
  }
}
