/**
  What the composite writes do to the graph of roles: the exact change of every closure, the
  exact meaning of the cycle check, and the shape of the rows they store.
 */
module CompositeGraph {
  import opened Prelude
  import opened Roles
  import opened Digraph
  import opened Expansion
  import opened Composites

  function AfterAdd(t: Table, parent: Role, additions: seq<Role>): (u: Table) {
    ReplaceRow(t, AddedRow(parent, additions, t))
  }

  function AfterRemove(t: Table, parent: Role, removals: seq<Role>): (u: Table) {
    ReplaceRow(t, RemovedRow(parent, removals))
  }

  /** The cycle check of the add: some candidate child already reaches the parent. */
  ghost predicate Rejects(t: Table, parent: Role, additions: seq<Role>) {
    exists c :: c in Candidates(parent, additions, t) && Reaches(Edges(t), c.id, parent.id)
  }

  /** Every added role is the one its name stands for when read from the parent. */
  ghost predicate Faithful(t: Table, parent: Role, additions: seq<Role>) {
    forall a :: a in additions ==> ResolveExpansion(parent, a.name, t) == Some(a)
  }

  ghost predicate Site(t: Table, parent: Role, roles: seq<Role>) {
    DistinctIds(t) && parent in t && forall r :: r in roles ==> r in t
  }

  /** An added role's name, read from the parent, stands for a role that reaches `j`. */
  ghost predicate AddedReaches(t: Table, parent: Role, additions: seq<Role>, j: RoleId) {
    exists a :: && a in additions && ResolveExpansion(parent, a.name, t).Some?
                && Reaches(Edges(t), ResolveExpansion(parent, a.name, t).value.id, j)
  }

  ghost function AddedTargets(t: Table, parent: Role, additions: seq<Role>): (r: iset<RoleId>) {
    Targets(parent, iset a | a in additions :: a.name, t)
  }

  // --- Edges after a write -------------------------------------------------

  lemma RowKeepsSite(t: Table, parent: Role, names: seq<string>)
    requires DistinctIds(t) && parent in t
    ensures SameSite(t, WithNames(parent, names)) && parent.id in Ids(t)
  {
    forall r | r in t && r.id == parent.id ensures r == parent { RowOf(t, r, parent); }
  }

  lemma AddedNamesAreStored(t: Table, parent: Role, additions: seq<Role>, n: string)
    requires Site(t, parent, additions)
    ensures n in AddedRow(parent, additions, t).composites ==> n in parent.composites || exists a :: a in additions && a.name == n
    ensures (exists a :: a in additions && a.name == n) ==> n in AddedRow(parent, additions, t).composites
    ensures n in parent.composites && ResolveChildName(parent, n, t).Some? ==> n in AddedRow(parent, additions, t).composites
  {
    var kids := DirectChildren(parent, parent.composites, t);
    var cands := Candidates(parent, additions, t);
    if c :| c in cands && c.name == n {
      DirectChildrenListed(parent, parent.composites, t, c);
    }
    if a :| a in additions && a.name == n {
      CandidateIds(t, parent, additions);
    }
    if n in parent.composites && ResolveChildName(parent, n, t).Some? {
      var c := ResolveChildName(parent, n, t).value;
      DirectChildrenListed(parent, parent.composites, t, c);
      assert c in kids && kids <= cands;
      var k :| 0 <= k < |kids| && kids[k] == c;
      assert cands[k] == c;
    }
  }

  lemma AddedRowTargets(t: Table, parent: Role, additions: seq<Role>, j: RoleId)
    requires Site(t, parent, additions)
    ensures var row := AddedRow(parent, additions, t);
            j in Targets(row, Stored(row), t) <==>
            j in Targets(parent, Stored(parent), t) || j in AddedTargets(t, parent, additions)
  {
    var row := AddedRow(parent, additions, t);
    forall n ensures ResolveExpansion(row, n, t) == ResolveExpansion(parent, n, t) {}
    if j in Targets(row, Stored(row), t) {
      var n :| n in Stored(row) && ResolveExpansion(row, n, t).Some? && ResolveExpansion(row, n, t).value.id == j;
      AddedNamesAreStored(t, parent, additions, n);
    }
    if j in Targets(parent, Stored(parent), t) {
      var n :| n in Stored(parent) && ResolveExpansion(parent, n, t).Some? && ResolveExpansion(parent, n, t).value.id == j;
      AddedNamesAreStored(t, parent, additions, n);
      ExpansionImpliesChild(parent, n, t);
      assert n in Stored(row);
    }
    if j in AddedTargets(t, parent, additions) {
      var a :| a in additions && ResolveExpansion(parent, a.name, t).Some? && ResolveExpansion(parent, a.name, t).value.id == j;
      AddedNamesAreStored(t, parent, additions, a.name);
      assert a.name in Stored(row);
    }
  }

  /** An add puts in exactly the edges its names stand for, and takes none away. */
  lemma AddEdges(t: Table, parent: Role, additions: seq<Role>)
    requires Site(t, parent, additions)
    ensures Edges(AfterAdd(t, parent, additions)) == Edges(t) + Fan(parent.id, AddedTargets(t, parent, additions))
  {
    var row := AddedRow(parent, additions, t);
    RowKeepsSite(t, parent, row.composites);
    var g, h := Edges(AfterAdd(t, parent, additions)), Edges(t) + Fan(parent.id, AddedTargets(t, parent, additions));
    forall i, j ensures (i, j) in g <==> (i, j) in h {
      EdgesAfterReplace(t, row, i, j);
      AddedRowTargets(t, parent, additions, j);
      EdgesFrom(t, parent, j);
    }
  }

  ghost function RemovedTargets(t: Table, parent: Role, removals: seq<Role>): (r: iset<RoleId>) {
    Targets(parent, iset a | a in removals :: a.name, t)
  }

  /** A role is named once, so different names stand for different roles. */
  lemma NamesStandApart(t: Table, parent: Role, n: string, m: string)
    requires DistinctIds(t) && ResolveExpansion(parent, n, t).Some? && ResolveExpansion(parent, m, t).Some?
    requires ResolveExpansion(parent, n, t).value.id == ResolveExpansion(parent, m, t).value.id
    ensures n == m
  {
    RowOf(t, ResolveExpansion(parent, n, t).value, ResolveExpansion(parent, m, t).value);
  }

  lemma RemovedRowTargets(t: Table, parent: Role, removals: seq<Role>, j: RoleId)
    requires DistinctIds(t) && parent in t
    ensures var row := RemovedRow(parent, removals);
            j in Targets(row, Stored(row), t) <==>
            j in Targets(parent, Stored(parent), t) && j !in RemovedTargets(t, parent, removals)
  {
    var row := RemovedRow(parent, removals);
    forall n ensures ResolveExpansion(row, n, t) == ResolveExpansion(parent, n, t) {}
    if j in Targets(row, Stored(row), t) {
      var n :| n in Stored(row) && ResolveExpansion(row, n, t).Some? && ResolveExpansion(row, n, t).value.id == j;
      assert n in Stored(parent) && n !in Names(removals);
      forall a | a in removals && ResolveExpansion(parent, a.name, t).Some?
        ensures ResolveExpansion(parent, a.name, t).value.id != j
      {
        if ResolveExpansion(parent, a.name, t).value.id == j {
          NamesStandApart(t, parent, n, a.name);
        }
      }
    } else if j in Targets(parent, Stored(parent), t) {
      var n :| n in Stored(parent) && ResolveExpansion(parent, n, t).Some? && ResolveExpansion(parent, n, t).value.id == j;
      assert n !in Stored(row);
      var a :| a in removals && a.name == n;
      assert n in (iset x | x in removals :: x.name);
    }
  }

  /** A remove takes out exactly the edges its names stand for, and puts none in. */
  lemma RemoveEdges(t: Table, parent: Role, removals: seq<Role>)
    requires DistinctIds(t) && parent in t
    ensures Edges(AfterRemove(t, parent, removals)) == Edges(t) - Fan(parent.id, RemovedTargets(t, parent, removals))
  {
    var row := RemovedRow(parent, removals);
    RowKeepsSite(t, parent, row.composites);
    var g, h := Edges(AfterRemove(t, parent, removals)), Edges(t) - Fan(parent.id, RemovedTargets(t, parent, removals));
    forall i, j ensures (i, j) in g <==> (i, j) in h {
      EdgesAfterReplace(t, row, i, j);
      RemovedRowTargets(t, parent, removals, j);
      EdgesFrom(t, parent, j);
    }
  }

  // --- Closures ------------------------------------------------------------

  lemma AddedTargetsReach(t: Table, parent: Role, additions: seq<Role>, j: RoleId)
    ensures (exists x :: x in AddedTargets(t, parent, additions) && Reaches(Edges(t), x, j)) <==>
            AddedReaches(t, parent, additions, j)
  {
    if x :| x in AddedTargets(t, parent, additions) && Reaches(Edges(t), x, j) {
      var a :| a in additions && ResolveExpansion(parent, a.name, t).Some? && ResolveExpansion(parent, a.name, t).value.id == x;
    }
    if AddedReaches(t, parent, additions, j) {
      var a :| && a in additions && ResolveExpansion(parent, a.name, t).Some?
               && Reaches(Edges(t), ResolveExpansion(parent, a.name, t).value.id, j);
      assert ResolveExpansion(parent, a.name, t).value.id in AddedTargets(t, parent, additions);
    }
  }

  /** The exact effect of an add on the closure of every role `i`. */
  lemma AddClosure(t: Table, parent: Role, additions: seq<Role>, i: RoleId, j: RoleId)
    requires Site(t, parent, additions)
    ensures Reaches(Edges(AfterAdd(t, parent, additions)), i, j) <==>
            Reaches(Edges(t), i, j) || (Reaches(Edges(t), i, parent.id) && AddedReaches(t, parent, additions, j))
  {
    AddEdges(t, parent, additions);
    FanClosure(Edges(t), parent.id, AddedTargets(t, parent, additions), i, j);
    AddedTargetsReach(t, parent, additions, j);
  }

  /** With faithful names: only the parent and its ancestors change, by the additions and their closures. */
  lemma FaithfulAddClosure(t: Table, parent: Role, additions: seq<Role>, i: RoleId, j: RoleId)
    requires Site(t, parent, additions) && Faithful(t, parent, additions)
    ensures Reaches(Edges(AfterAdd(t, parent, additions)), i, j) <==>
            || Reaches(Edges(t), i, j)
            || (Reaches(Edges(t), i, parent.id) && exists a :: a in additions && Reaches(Edges(t), a.id, j))
  {
    AddClosure(t, parent, additions, i, j);
    if a :| a in additions && Reaches(Edges(t), a.id, j) {
      assert ResolveExpansion(parent, a.name, t).Some?;
    }
  }

  /** The graph without the edges out of the parent. */
  ghost function Others(t: Table, parent: Role): (g: Graph) {
    iset e | e in Edges(t) && e.0 != parent.id
  }

  /** A stored name that is not removed stands for a role that reaches `j` without passing the parent. */
  ghost predicate KeptReaches(t: Table, parent: Role, removals: seq<Role>, j: RoleId) {
    exists n :: && n in parent.composites && n !in Names(removals) && ResolveExpansion(parent, n, t).Some?
                && Reaches(Others(t, parent), ResolveExpansion(parent, n, t).value.id, j)
  }

  lemma RemoveSplits(t: Table, parent: Role, removals: seq<Role>)
    requires DistinctIds(t) && parent in t
    ensures var row := RemovedRow(parent, removals);
            Edges(AfterRemove(t, parent, removals)) == Others(t, parent) + Fan(parent.id, Targets(row, Stored(row), t))
  {
    var row := RemovedRow(parent, removals);
    RowKeepsSite(t, parent, row.composites);
    var g, h := Edges(AfterRemove(t, parent, removals)), Others(t, parent) + Fan(parent.id, Targets(row, Stored(row), t));
    forall i, j ensures (i, j) in g <==> (i, j) in h {
      EdgesAfterReplace(t, row, i, j);
    }
  }

  lemma KeptTargetsReach(t: Table, parent: Role, removals: seq<Role>, j: RoleId)
    ensures var row := RemovedRow(parent, removals);
            (exists x :: x in Targets(row, Stored(row), t) && Reaches(Others(t, parent), x, j)) <==>
            KeptReaches(t, parent, removals, j)
  {
    var row := RemovedRow(parent, removals);
    forall n ensures ResolveExpansion(row, n, t) == ResolveExpansion(parent, n, t) {}
    if x :| x in Targets(row, Stored(row), t) && Reaches(Others(t, parent), x, j) {
      var n :| n in Stored(row) && ResolveExpansion(row, n, t).Some? && ResolveExpansion(row, n, t).value.id == x;
      assert n in parent.composites && n !in Names(removals);
    }
    if KeptReaches(t, parent, removals, j) {
      var n :| && n in parent.composites && n !in Names(removals) && ResolveExpansion(parent, n, t).Some?
               && Reaches(Others(t, parent), ResolveExpansion(parent, n, t).value.id, j);
      assert n in Stored(row);
    }
  }

  /** The exact effect of a remove on the closure of every role `i`; in particular no closure grows. */
  lemma RemoveClosure(t: Table, parent: Role, removals: seq<Role>, i: RoleId, j: RoleId)
    requires DistinctIds(t) && parent in t
    ensures Reaches(Edges(AfterRemove(t, parent, removals)), i, j) <==>
            || Reaches(Others(t, parent), i, j)
            || (Reaches(Others(t, parent), i, parent.id) && KeptReaches(t, parent, removals, j))
    ensures Reaches(Edges(AfterRemove(t, parent, removals)), i, j) ==> Reaches(Edges(t), i, j)
    ensures Acyclic(Edges(t)) ==> Acyclic(Edges(AfterRemove(t, parent, removals)))
  {
    var g, row := Edges(AfterRemove(t, parent, removals)), RemovedRow(parent, removals);
    RemoveSplits(t, parent, removals);
    FanClosure(Others(t, parent), parent.id, Targets(row, Stored(row), t), i, j);
    KeptTargetsReach(t, parent, removals, j);
    RemoveShrinks(t, parent, removals, i, j);
  }

  lemma RemoveShrinks(t: Table, parent: Role, removals: seq<Role>, i: RoleId, j: RoleId)
    requires DistinctIds(t) && parent in t
    ensures Reaches(Edges(AfterRemove(t, parent, removals)), i, j) ==> Reaches(Edges(t), i, j)
    ensures Acyclic(Edges(t)) ==> Acyclic(Edges(AfterRemove(t, parent, removals)))
  {
    var g := Edges(AfterRemove(t, parent, removals));
    RemoveEdges(t, parent, removals);
    if Reaches(g, i, j) {
      ReachesMono(g, Edges(t), i, j);
    }
    if Acyclic(Edges(t)) {
      AcyclicMono(g, Edges(t));
    }
  }

  // --- The cycle check -----------------------------------------------------

  lemma CandidateIds(t: Table, parent: Role, additions: seq<Role>)
    requires Site(t, parent, additions)
    ensures forall a :: a in additions ==> a in Candidates(parent, additions, t)
    ensures forall c :: c in Candidates(parent, additions, t) ==> c in t
  {
    var cands := Candidates(parent, additions, t);
    forall c | c in cands ensures c in t {
      DirectChildrenListed(parent, parent.composites, t, c);
    }
    forall a | a in additions ensures a in cands {
      assert a.id in Ids(cands);
      var c :| c in cands && c.id == a.id;
      RowOf(t, a, c);
    }
  }

  /** A name the parent stores stands, at the endpoints, for a role that reaches the parent. */
  ghost predicate ChildReaches(t: Table, parent: Role) {
    exists n :: n in parent.composites && ChildNameReaches(t, parent, n)
  }

  ghost predicate ChildNameReaches(t: Table, parent: Role, n: string) {
    ResolveChildName(parent, n, t).Some? && Reaches(Edges(t), ResolveChildName(parent, n, t).value.id, parent.id)
  }

  /** The same of a name that the expansion finds ambiguous, and so ignores. */
  ghost predicate AmbiguousReach(t: Table, parent: Role) {
    exists n :: n in parent.composites && Ambiguous(parent, n, t) && ChildNameReaches(t, parent, n)
  }

  /** What the check looks at: the stored names as the endpoints read them, and the added roles. */
  lemma RejectsMeans(t: Table, parent: Role, additions: seq<Role>)
    requires Site(t, parent, additions)
    ensures Rejects(t, parent, additions) <==>
            ChildReaches(t, parent) || exists a :: a in additions && Reaches(Edges(t), a.id, parent.id)
  {
    var kids := DirectChildren(parent, parent.composites, t);
    if Rejects(t, parent, additions) {
      var c :| c in Candidates(parent, additions, t) && Reaches(Edges(t), c.id, parent.id);
      DirectChildrenListed(parent, parent.composites, t, c);
      assert c !in additions ==> ChildNameReaches(t, parent, c.name);
    }
    if ChildReaches(t, parent) {
      var n :| n in parent.composites && ChildNameReaches(t, parent, n);
      var c := ResolveChildName(parent, n, t).value;
      DirectChildrenListed(parent, parent.composites, t, c);
      var k :| 0 <= k < |kids| && kids[k] == c;
      assert Candidates(parent, additions, t)[k] == c;
    }
    CandidateIds(t, parent, additions);
  }

  lemma CycleAfterAddIff(t: Table, parent: Role, additions: seq<Role>)
    requires Site(t, parent, additions)
    ensures OnCycle(Edges(AfterAdd(t, parent, additions)), parent.id) <==>
            OnCycle(Edges(t), parent.id) || AddedReaches(t, parent, additions, parent.id)
  {
    AddEdges(t, parent, additions);
    FanCycle(Edges(t), parent.id, AddedTargets(t, parent, additions));
    AddedTargetsReach(t, parent, additions, parent.id);
  }

  /** The parent is on a cycle exactly when a name that both readings share leads back to it. */
  lemma CycleByName(t: Table, parent: Role)
    requires DistinctIds(t) && parent in t
    ensures OnCycle(Edges(t), parent.id) <==>
            exists n :: && n in parent.composites && ResolveExpansion(parent, n, t).Some?
                        && Reaches(Edges(t), ResolveExpansion(parent, n, t).value.id, parent.id)
  {
    if OnCycle(Edges(t), parent.id) {
      var j :| (parent.id, j) in Edges(t) && Reaches(Edges(t), j, parent.id);
      EdgesFrom(t, parent, j);
      var n :| n in Stored(parent) && ResolveExpansion(parent, n, t).Some? && ResolveExpansion(parent, n, t).value.id == j;
    }
    if n :| && n in parent.composites && ResolveExpansion(parent, n, t).Some?
            && Reaches(Edges(t), ResolveExpansion(parent, n, t).value.id, parent.id) {
      var j := ResolveExpansion(parent, n, t).value.id;
      assert n in Stored(parent);
      EdgesFrom(t, parent, j);
    }
  }

  lemma ChildReachesIff(t: Table, parent: Role)
    requires WellFormed(t) && parent in t
    ensures ChildReaches(t, parent) <==> OnCycle(Edges(t), parent.id) || AmbiguousReach(t, parent)
  {
    CycleByName(t, parent);
    forall n ensures ResolveChildName(parent, n, t) == ResolveExpansion(parent, n, t) <==> !Ambiguous(parent, n, t) {
      ResolutionsAgree(parent, n, t);
    }
    forall n | Ambiguous(parent, n, t) ensures ResolveExpansion(parent, n, t).None? {
      ResolutionsAgree(parent, n, t);
    }
    if n :| && n in parent.composites && ResolveExpansion(parent, n, t).Some?
            && Reaches(Edges(t), ResolveExpansion(parent, n, t).value.id, parent.id) {
      assert ChildNameReaches(t, parent, n);
    }
  }

  /** The exact outcome of the check, whatever the names of the additions stand for. */
  lemma RejectsIff(t: Table, parent: Role, additions: seq<Role>)
    requires WellFormed(t) && Site(t, parent, additions)
    ensures Rejects(t, parent, additions) <==>
            || OnCycle(Edges(t), parent.id)
            || AmbiguousReach(t, parent)
            || exists a :: a in additions && Reaches(Edges(t), a.id, parent.id)
  {
    RejectsMeans(t, parent, additions);
    ChildReachesIff(t, parent);
  }

  lemma FaithfulReaches(t: Table, parent: Role, additions: seq<Role>, j: RoleId)
    requires Faithful(t, parent, additions)
    ensures AddedReaches(t, parent, additions, j) <==> exists a :: a in additions && Reaches(Edges(t), a.id, j)
  {
    if a :| a in additions && Reaches(Edges(t), a.id, j) {
      assert ResolveExpansion(parent, a.name, t).Some?;
    }
  }

  /**
    The check against the cycle it is there to prevent: an add of faithfully named roles is refused
    exactly when it would put the parent on a cycle, or when a stored name that grants nothing,
    being ambiguous, leads at the endpoints to a role that reaches the parent.
   */
  lemma CheckIsExactIff(t: Table, parent: Role, additions: seq<Role>)
    requires WellFormed(t) && Site(t, parent, additions) && Faithful(t, parent, additions)
    ensures Rejects(t, parent, additions) <==>
            OnCycle(Edges(AfterAdd(t, parent, additions)), parent.id) || AmbiguousReach(t, parent)
  {
    RejectsIff(t, parent, additions);
    CycleAfterAddIff(t, parent, additions);
    FaithfulReaches(t, parent, additions, parent.id);
  }

  /**
    With no assumption on names: an add keeps the graph acyclic exactly when no added name,
    read from the parent, stands for a role that already reaches the parent.
   */
  lemma AddAcyclicIff(t: Table, parent: Role, additions: seq<Role>)
    requires Site(t, parent, additions)
    ensures Acyclic(Edges(AfterAdd(t, parent, additions))) <==>
            Acyclic(Edges(t)) && !AddedReaches(t, parent, additions, parent.id)
  {
    AddEdges(t, parent, additions);
    FanAcyclic(Edges(t), parent.id, AddedTargets(t, parent, additions));
    AddedTargetsReach(t, parent, additions, parent.id);
  }

  /** An accepted add of faithfully named roles keeps the graph acyclic. */
  lemma AcceptedAddKeepsAcyclic(t: Table, parent: Role, additions: seq<Role>)
    requires Site(t, parent, additions) && Faithful(t, parent, additions)
    requires Acyclic(Edges(t)) && !Rejects(t, parent, additions)
    ensures Acyclic(Edges(AfterAdd(t, parent, additions)))
  {
    AddAcyclicIff(t, parent, additions);
    CandidateIds(t, parent, additions);
  }

  // --- The written rows ----------------------------------------------------

  lemma ChildAfterReplace(t: Table, row: Role, a: Role, name: string)
    requires SameSite(t, row)
    ensures ResolveChildName(a, name, ReplaceRow(t, row)) == SwapOption(ResolveChildName(a, name, t), row)
  {
    FirstAfterReplace(t, row, ClientNamed(a.clientId, name));
    FirstAfterReplace(t, row, RealmNamed(name));
    FirstAfterReplace(t, row, AnyClientNamed(name));
  }

  lemma {:induction false} SomeChild(parent: Role, names: seq<string>, t: Table)
    ensures DirectChildren(parent, names, t) != [] <==> exists n :: n in names && ResolveChildName(parent, n, t).Some?
  {
    if names != [] {
      var k := |names| - 1;
      SomeChild(parent, names[..k], t);
      assert forall n :: n in names <==> n in names[..k] || n == names[k];
    }
  }

  /** The flag of a stored row says whether the role has children exactly when it has no names or one that resolves. */
  lemma FlagIff(t: Table, parent: Role, names: seq<string>)
    requires DistinctIds(t) && parent in t
    ensures var row := WithNames(parent, names);
            (row.composite <==> DirectChildren(row, names, ReplaceRow(t, row)) != []) <==>
            names == [] || exists n :: n in names && ResolveChildName(parent, n, t).Some?
  {
    var row := WithNames(parent, names);
    RowKeepsSite(t, parent, names);
    SomeChild(row, names, ReplaceRow(t, row));
    forall n ensures ResolveChildName(row, n, ReplaceRow(t, row)).Some? <==> ResolveChildName(parent, n, t).Some? {
      ChildAfterReplace(t, row, row, n);
      assert ResolveChildName(row, n, t) == ResolveChildName(parent, n, t);
    }
  }

  /**
    The row an add stores: other fields kept, the candidates' names each once, and a flag that says
    whether the role has children exactly when there is no candidate or one whose name resolves.
   */
  lemma AddedRowShape(t: Table, parent: Role, additions: seq<Role>)
    requires Site(t, parent, additions)
    ensures var row, u := AddedRow(parent, additions, t), AfterAdd(t, parent, additions);
            && row.(composites := parent.composites, composite := parent.composite) == parent
            && Distinct(row.composites)
            && (row.composite <==> Candidates(parent, additions, t) != [])
            && ((row.composite <==> DirectChildren(row, row.composites, u) != []) <==>
                row.composites == [] || exists n :: n in row.composites && ResolveChildName(parent, n, t).Some?)
  {
    var cands := Candidates(parent, additions, t);
    if cands != [] {
      assert cands[0].name in DistinctNames(cands);
    }
    FlagIff(t, parent, AddedRow(parent, additions, t).composites);
  }

  ghost predicate ListedAt(names: seq<string>, kept: seq<string>, removed: set<string>, at: seq<nat>) {
    && |at| == |kept| && (forall k :: 0 <= k < |at| ==> at[k] < |names| && kept[k] == names[at[k]])
    && (forall k, l :: 0 <= k < l < |at| ==> at[k] < at[l])
    && (forall i :: 0 <= i < |names| && names[i] !in removed ==> i in at)
    && (forall k :: 0 <= k < |kept| ==> kept[k] !in removed)
  }

  /** `kept` lists, in order and as often, the names that are not removed. */
  ghost predicate KeptInOrder(names: seq<string>, kept: seq<string>, removed: set<string>) {
    exists at: seq<nat> :: ListedAt(names, kept, removed, at)
  }

  lemma ListedSnoc(names: seq<string>, kept: seq<string>, removed: set<string>, at: seq<nat>, n: string)
    requires ListedAt(names, kept, removed, at)
    ensures n in removed ==> ListedAt(names + [n], kept, removed, at)
    ensures n !in removed ==> ListedAt(names + [n], kept + [n], removed, at + [|names|])
  {
    assert forall i :: i in at ==> i in at + [|names|];
    assert |names| in at + [|names|];
  }

  lemma {:induction false} WithoutKeepsOrder(names: seq<string>, removed: set<string>) returns (at: seq<nat>)
    ensures ListedAt(names, Without(names, removed), removed, at)
  {
    if names == [] {
      at := [];
    } else {
      var n := |names| - 1;
      at := WithoutKeepsOrder(names[..n], removed);
      ListedSnoc(names[..n], Without(names[..n], removed), removed, at, names[n]);
      assert names == names[..n] + [names[n]];
      at := if names[n] in removed then at else at + [n];
    }
  }

  /**
    The row a remove stores: other fields kept, the stored names that were not removed in their order,
    and a flag that says whether the role has children exactly when no name is left or one of them
    resolves. Dangling names are not cleaned up, so a role without children can stay marked.
   */
  lemma RemovedRowShape(t: Table, parent: Role, removals: seq<Role>)
    requires DistinctIds(t) && parent in t
    ensures var row, u := RemovedRow(parent, removals), AfterRemove(t, parent, removals);
            && row.(composites := parent.composites, composite := parent.composite) == parent
            && KeptInOrder(parent.composites, row.composites, Names(removals))
            && ((row.composite <==> DirectChildren(row, row.composites, u) != []) <==>
                row.composites == [] || exists n :: n in row.composites && ResolveChildName(parent, n, t).Some?)
  {
    var at := WithoutKeepsOrder(parent.composites, Names(removals));
    FlagIff(t, parent, RemovedRow(parent, removals).composites);
  }

  /** Remove the only child of a role that also stores a dangling name: the role stays marked as composite. */
  lemma RemoveCanLeaveFlag(t: Table, parent: Role, child: Role, gone: string)
    requires DistinctIds(t) && parent in t && child in t && parent.composites == [gone, child.name]
    requires gone != child.name && forall r :: r in t ==> r.name != gone
    ensures var row := RemovedRow(parent, [child]);
            row.composite && DirectChildren(row, row.composites, AfterRemove(t, parent, [child])) == []
  {
    var row, removed := RemovedRow(parent, [child]), Names([child]);
    assert parent.composites == [gone] + [child.name] && child in [child];
    WithoutSplit([gone], [child.name], removed);
    WithoutNone([gone], removed);
    WithoutAll([child.name], removed);
    assert row.composites == [gone];
    RemovedRowShape(t, parent, [child]);
  }

  lemma {:induction false} WithoutSplit(a: seq<string>, b: seq<string>, removed: set<string>)
    ensures Without(a + b, removed) == Without(a, removed) + Without(b, removed)
  {
    if b == [] {
      assert a + b == a;
    } else {
      var k := |b| - 1;
      assert (a + b)[..|a + b| - 1] == a + b[..k];
      WithoutSplit(a, b[..k], removed);
    }
  }

  lemma {:induction false} WithoutAll(a: seq<string>, removed: set<string>)
    requires forall n :: n in a ==> n in removed
    ensures Without(a, removed) == []
  {
    if a != [] {
      WithoutAll(a[..|a| - 1], removed);
    }
  }

  lemma {:induction false} WithoutNone(a: seq<string>, removed: set<string>)
    requires forall n :: n in a ==> n !in removed
    ensures Without(a, removed) == a
  {
    if a != [] {
      var k := |a| - 1;
      assert a[k] in a && a == a[..k] + [a[k]];
      WithoutNone(a[..k], removed);
    }
  }

  lemma {:induction false} DistinctNamesGrow(a: seq<Role>, b: seq<Role>) returns (extra: seq<string>)
    ensures DistinctNames(a + b) == DistinctNames(a) + extra
    ensures forall n :: n in extra ==> exists c :: c in b && c.name == n
  {
    if b == [] {
      assert a + b == a;
      extra := [];
    } else {
      var k := |b| - 1;
      assert (a + b)[..|a + b| - 1] == a + b[..k];
      extra := DistinctNamesGrow(a, b[..k]);
      if b[k].name !in DistinctNames(a + b[..k]) {
        extra := extra + [b[k].name];
      }
    }
  }

  ghost predicate Spells(children: seq<Role>, names: seq<string>) {
    |children| == |names| && forall i :: 0 <= i < |names| ==> children[i].name == names[i]
  }

  lemma {:induction false} ResolvableNamesComeBack(parent: Role, names: seq<string>, t: Table)
    requires forall n :: n in names ==> ResolveChildName(parent, n, t).Some?
    ensures Spells(DirectChildren(parent, names, t), names)
  {
    if names != [] {
      var k := |names| - 1;
      ResolvableNamesComeBack(parent, names[..k], t);
      assert names[k] in names;
    }
  }

  lemma {:induction false} DistinctNamesOfDistinct(children: seq<Role>, names: seq<string>)
    requires Spells(children, names) && Distinct(names)
    ensures DistinctNames(children) == names
  {
    if names != [] {
      var k := |names| - 1;
      DistinctNamesOfDistinct(children[..k], names[..k]);
      assert names == names[..k] + [names[k]];
    }
  }

  lemma AddExtendsNames(t: Table, parent: Role, additions: seq<Role>) returns (extra: seq<string>)
    requires Distinct(parent.composites)
    requires forall n :: n in parent.composites ==> ResolveChildName(parent, n, t).Some?
    ensures AddedRow(parent, additions, t).composites == parent.composites + extra
    ensures forall n :: n in extra ==> n in Names(additions)
  {
    var kids := DirectChildren(parent, parent.composites, t);
    var cands := Candidates(parent, additions, t);
    assert cands == kids + cands[|kids|..];
    UnionSuffix(kids, additions);
    extra := DistinctNamesGrow(kids, cands[|kids|..]);
    ResolvableNamesComeBack(parent, parent.composites, t);
    DistinctNamesOfDistinct(kids, parent.composites);
  }

  /** Removing what was just added gives the old table back, unless the add had to clean up the stored names. */
  lemma RemoveUndoesAdd(t: Table, parent: Role, additions: seq<Role>)
    requires Site(t, parent, additions)
    requires Distinct(parent.composites) && (parent.composite <==> parent.composites != [])
    requires forall n :: n in parent.composites ==> ResolveChildName(parent, n, t).Some? && n !in Names(additions)
    ensures AfterRemove(AfterAdd(t, parent, additions), AddedRow(parent, additions, t), additions) == t
  {
    var extra := AddExtendsNames(t, parent, additions);
    WithoutSplit(parent.composites, extra, Names(additions));
    WithoutNone(parent.composites, Names(additions));
    WithoutAll(extra, Names(additions));
    assert parent.composites + [] == parent.composites;
    SwapBack(t, parent, AddedRow(parent, additions, t), RemovedRow(AddedRow(parent, additions, t), additions));
  }

  lemma SwapBack(t: Table, parent: Role, row: Role, back: Role)
    requires DistinctIds(t) && parent in t && row.id == parent.id && back == parent
    ensures ReplaceRow(ReplaceRow(t, row), back) == t
  {
    forall i | 0 <= i < |t| && t[i].id == parent.id ensures t[i] == parent { RowOf(t, t[i], parent); }
  }

  lemma {:induction false} UnionSuffix(children: seq<Role>, additions: seq<Role>)
    ensures forall c :: c in UnionById(children, additions)[|children|..] ==> c in additions
  {
    if additions != [] {
      var n := |additions| - 1;
      UnionSuffix(children, additions[..n]);
      var u := UnionById(children, additions[..n]);
      assert (u + [additions[n]])[|children|..] == u[|children|..] + [additions[n]];
    }
  }

  // --- A name that resolves elsewhere --------------------------------------

  /**
    Why stored names have to be unambiguous: the name `x` that `p` stores belongs to two clients, so it
    grants nothing, but the endpoints read it as the first one, which contains `p`. Every add to `p`
    is refused, also the empty one, and none would make a cycle.
   */
  lemma AmbiguousNameRefusesAdds(p: Role, x: Role, y: Role, additions: seq<Role>)
    requires p == Role("1", "p", None, false, None, true, ["x"], map[])
    requires x == Role("2", "x", None, true, Some("c"), true, ["p"], map[])
    requires y == Role("3", "x", None, true, Some("d"), false, [], map[])
    ensures var t := [p, x, y];
            && WellFormed(t) && Acyclic(Edges(AfterAdd(t, p, [])))
            && Rejects(t, p, []) && (Site(t, p, additions) ==> Rejects(t, p, additions))
  {
    var t := [p, x, y];
    AmbiguousTable(p, x, y);
    ReachesSelf(Edges(t), "1");
    ReachesByEdge(Edges(t), "2", "1", "1");
    assert ChildNameReaches(t, p, "x") && AmbiguousReach(t, p);
    RejectsIff(t, p, []);
    if Site(t, p, additions) {
      RejectsIff(t, p, additions);
    }
    AddAcyclicIff(t, p, []);
  }

  lemma AmbiguousTable(p: Role, x: Role, y: Role)
    requires p == Role("1", "p", None, false, None, true, ["x"], map[])
    requires x == Role("2", "x", None, true, Some("c"), true, ["p"], map[])
    requires y == Role("3", "x", None, true, Some("d"), false, [], map[])
    ensures var t := [p, x, y];
            && WellFormed(t) && Edges(t) == iset{("2", "1")} && Acyclic(Edges(t))
            && ResolveChildName(p, "x", t) == Some(x) && Ambiguous(p, "x", t)
  {
    var t := [p, x, y];
    assert "p"[0] != "x"[0];
    assert t[1..] == [x, y];
    assert First(t, AnyClientNamed("x")) == First([x, y], AnyClientNamed("x")) == Some(x);
    assert p in t && Matches(RealmNamed("p"), p) && ResolveExpansion(x, "p", t) == Some(p);
    assert x in t && y in t && Ambiguous(p, "x", t);
    ResolutionsAgree(p, "x", t);
    OneEdgeIsAcyclic("2", "1");
    OnlyStepIs(t, x, p);
  }

  lemma OnlyStepIs(t: Table, x: Role, p: Role)
    requires x in t && x.composites == [p.name] && ResolveExpansion(x, p.name, t) == Some(p)
    requires forall a, n :: a in t && n in a.composites && ResolveExpansion(a, n, t).Some? ==> a == x
    ensures Edges(t) == iset{(x.id, p.id)}
  {
    assert x.composites[0] == p.name && Step(t, x, p);
    forall i, j | (i, j) in Edges(t) ensures (i, j) == (x.id, p.id) {
      var a, b :| a in t && Step(t, a, b) && (a.id, b.id) == (i, j);
    }
  }

  /**
    Why faithfulness is needed: realm role `p` gains the client role `x` of client `c`, the check
    looks at that role, but the stored name `x` stands for the realm role `x`, which contains `p`.
   */
  lemma NameCollisionMakesCycle()
    ensures exists t: Table, parent, added ::
              && WellFormed(t) && Acyclic(Edges(t)) && Site(t, parent, [added])
              && !Rejects(t, parent, [added]) && !Acyclic(Edges(AfterAdd(t, parent, [added])))
  {
    var p := Role("1", "p", None, false, None, false, [], map[]);
    var x := Role("2", "x", None, false, None, true, ["p"], map[]);
    var y := Role("3", "x", None, true, Some("c"), false, [], map[]);
    var t := [p, x, y];
    CollisionTable(p, x, y);
    assert Site(t, p, [y]);
    CheckPasses(t, p, y);
    assert AddedReaches(t, p, [y], "1") by {
      assert ResolveExpansion(p, "x", t) == Some(x) && y in [y];
      ReachesSelf(Edges(t), "1");
      ReachesByEdge(Edges(t), "2", "1", "1");
    }
    AddAcyclicIff(t, p, [y]);
  }

  lemma CheckPasses(t: Table, p: Role, y: Role)
    requires p.composites == [] && p.id != y.id && Edges(t) == iset{("2", "1")} && y.id == "3"
    ensures !Rejects(t, p, [y])
  {
    assert UnionById([], [y][..0]) == [];
    assert Candidates(p, [y], t) == [y];
    if n: nat :| ReachesIn(Edges(t), y.id, p.id, n) {
      ClosedSetsKeepPaths(Edges(t), iset{"3"}, y.id, p.id, n);
    }
  }

  lemma CollisionTable(p: Role, x: Role, y: Role)
    requires p == Role("1", "p", None, false, None, false, [], map[])
    requires x == Role("2", "x", None, false, None, true, ["p"], map[])
    requires y == Role("3", "x", None, true, Some("c"), false, [], map[])
    ensures var t := [p, x, y];
            && WellFormed(t) && Edges(t) == iset{("2", "1")} && Acyclic(Edges(t))
            && ResolveExpansion(p, "x", t) == Some(x)
  {
    var t := [p, x, y];
    assert t[..2] == [p, x] && t[..2][..1] == [p];
    assert "x"[0] != "p"[0];
    assert Last([p], RealmNamed("p")) == Some(p);
    assert Last([p, x], RealmNamed("p")) == Last([p], RealmNamed("p"));
    assert Last(t, RealmNamed("p")) == Last([p, x], RealmNamed("p"));
    assert Last(t, RealmNamed("x")) == Last([p, x], RealmNamed("x")) == Some(x);
    assert ResolveExpansion(x, "p", t) == Some(p);
    assert "p" in x.composites && Step(t, x, p);
    assert forall i, j :: (i, j) in Edges(t) <==> (i, j) == ("2", "1");
    OneEdgeIsAcyclic("2", "1");
  }
}
