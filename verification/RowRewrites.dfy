/**
  Rewriting a row under another name or owner (a rename, or a create over a stored id): what every stored
  name stands for afterwards, and the edges this makes, read off the table before the write.
 */
module RowRewrites {
  import opened Prelude
  import opened Roles
  import opened Digraph
  import opened Expansion
  import opened Composites
  import opened RoleStore
  import opened RoleDeletes

  // --- What a name stands for afterwards -----------------------------------

  /** `row`, a client role, takes the place of `x`. */
  ghost predicate Rewrites(t: Table, x: Role, row: Role) {
    WellFormed(t) && x in t && row.id == x.id && row.clientRole && row.clientId.Some?
  }

  ghost predicate NoneAfter(t: Table, x: Role, q: Query) {
    forall i, j :: 0 <= i < j < |t| && t[i] == x ==> !Matches(q, t[j])
  }

  /** The name `n`, read from `a`, comes to stand for the row: by its owner, or because nobody else bears it. */
  ghost predicate Takes(t: Table, x: Role, row: Role, a: Role, n: string) {
    && n == row.name
    && if a.clientRole then a.clientId == row.clientId && NoneAfter(t, x, ClientNamed(row.clientId, row.name))
       else forall z :: z in t && z.name == n ==> z == x
  }

  /** The name `n`, read from `a`, stops standing for `y`: the row takes it, or makes it ambiguous. */
  ghost predicate Blocks(t: Table, x: Role, row: Role, a: Role, n: string, y: Role) {
    if a.clientRole then Takes(t, x, row, a, n) else n == row.name && y.clientRole
  }

  /** The row no longer answers to the name of `x`, read from `a`. */
  ghost predicate Vacates(x: Role, row: Role, a: Role) {
    row.name != x.name || (a.clientRole && row.clientId != x.clientId)
  }

  /** The name goes on standing for `y`, another role than the rewritten one. */
  ghost predicate Stays(t: Table, x: Role, row: Role, a: Role, n: string, y: Role) {
    ResolveExpansion(a, n, t) == Some(y) && y != x && !Blocks(t, x, row, a, n, y)
  }

  /** The name of `x` comes to stand for `y`. */
  ghost predicate Frees(t: Table, x: Role, row: Role, a: Role, y: Role) {
    Uncovers(t, x, a, y) && Vacates(x, row, a)
  }

  lemma RowsAfter(t: Table, x: Role, row: Role)
    requires Rewrites(t, x, row)
    ensures DistinctIds(ReplaceRow(t, row))
    ensures forall r :: r in ReplaceRow(t, row) <==> r == row || (r in t && r != x)
  {
    var u := ReplaceRow(t, row);
    ReplaceKeepsIds(t, row);
    forall r | r == row || (r in t && r != x) ensures r in u {
      if r != row && r.id == row.id {
        RowOf(t, r, x);
      }
      assert row.id in Ids(t);
      RowsAfterReplace(t, row, r);
    }
    forall r | r in u ensures r == row || (r in t && r != x) {
      var k :| 0 <= k < |t| && u[k] == r;
    }
  }

  lemma {:induction false} LastAtIff(u: Table, k: nat, q: Query)
    requires k < |u| && forall j :: 0 <= j < |u| && j != k ==> u[j] != u[k]
    ensures Last(u, q) == Some(u[k]) <==> Matches(q, u[k]) && forall j :: k < j < |u| ==> !Matches(q, u[j])
  {
    var n := |u| - 1;
    if k < n && !Matches(q, u[n]) {
      LastAtIff(u[..n], k, q);
    }
  }

  lemma RowsAt(t: Table, k: nat, row: Role)
    requires DistinctIds(t) && k < |t| && t[k].id == row.id
    ensures ReplaceRow(t, row)[k] == row
    ensures forall j :: 0 <= j < |t| && j != k ==> ReplaceRow(t, row)[j] == t[j] && t[j] != row && t[j] != t[k]
  {
    forall j | 0 <= j < |t| && j != k ensures t[j].id != row.id {
    }
  }

  lemma NoneAfterAt(t: Table, k: nat, q: Query)
    requires k < |t| && forall j :: 0 <= j < |t| && j != k ==> t[j] != t[k]
    ensures NoneAfter(t, t[k], q) <==> forall j :: k < j < |t| ==> !Matches(q, t[j])
  {
  }

  lemma RowIsLastAt(t: Table, u: Table, k: nat, q: Query)
    requires k < |t| == |u|
    requires forall j :: 0 <= j < |t| && j != k ==> u[j] == t[j] && t[j] != u[k] && t[j] != t[k]
    ensures Last(u, q) == Some(u[k]) <==> Matches(q, u[k]) && NoneAfter(t, t[k], q)
  {
    NoneAfterAt(t, k, q);
    LastAtIff(u, k, q);
  }

  lemma RowIsLastIff(t: Table, x: Role, row: Role, q: Query)
    requires Rewrites(t, x, row)
    ensures Last(ReplaceRow(t, row), q) == Some(row) <==> Matches(q, row) && NoneAfter(t, x, q)
  {
    var k: nat :| k < |t| && t[k] == x;
    RowsAt(t, k, row);
    RowIsLastAt(t, ReplaceRow(t, row), k, q);
  }

  lemma OtherIsLast(t: Table, x: Role, row: Role, q: Query, y: Role)
    requires Rewrites(t, x, row) && AtMostOne(t, q) && !(Matches(q, row) && NoneAfter(t, x, q))
    requires y in t && y != x && Matches(q, y)
    ensures Last(ReplaceRow(t, row), q) == Some(y)
  {
    RowsAfter(t, x, row);
    var u := ReplaceRow(t, row);
    RowIsLastIff(t, x, row, q);
    assert y in u;
    var z := Last(u, q).value;
    assert z in t && Matches(q, z);
  }

  /** A lookup after the write finds the row, unless it does not match or a later row does; else the other match. */
  lemma LastAfter(t: Table, x: Role, row: Role, q: Query, y: Role)
    requires Rewrites(t, x, row) && AtMostOne(t, q)
    ensures Last(ReplaceRow(t, row), q) == Some(y) <==>
            if Matches(q, row) && NoneAfter(t, x, q) then y == row else y in t && y != x && Matches(q, y)
  {
    RowIsLastIff(t, x, row, q);
    RowsAfter(t, x, row);
    if !(Matches(q, row) && NoneAfter(t, x, q)) && y in t && y != x && Matches(q, y) {
      OtherIsLast(t, x, row, q, y);
    }
  }

  lemma OwnAfter(t: Table, x: Role, row: Role, q: Query)
    requires Rewrites(t, x, row) && AtMostOne(t, q)
    ensures Last(ReplaceRow(t, row), q).None? <==>
            !(Matches(q, row) && NoneAfter(t, x, q)) && forall z :: z in t && Matches(q, z) ==> z == x
  {
    var found := Last(ReplaceRow(t, row), q);
    RowIsLastIff(t, x, row, q);
    if found.Some? {
      LastAfter(t, x, row, q, found.value);
    } else {
      RowsAfter(t, x, row);
    }
  }

  /** Some role other than `x` answers to `n` in the client of `a`. */
  ghost predicate OwnAnswers(t: Table, x: Role, a: Role, n: string) {
    exists z :: z in t && z != x && Matches(ClientNamed(a.clientId, n), z)
  }

  lemma ClientNameLeft(t: Table, x: Role, row: Role, a: Role, n: string, y: Role)
    requires Rewrites(t, x, row) && a.clientRole && a.clientId.Some?
    ensures ResolveExpansion(a, n, ReplaceRow(t, row)) == Some(y) <==>
            if Takes(t, x, row, a, n) then y == row
            else && y in t && y != x
                 && if OwnAnswers(t, x, a, n) then Matches(ClientNamed(a.clientId, n), y) else Matches(RealmNamed(n), y)
    ensures !Takes(t, x, row, a, n) && Matches(ClientNamed(a.clientId, n), row) ==> OwnAnswers(t, x, a, n)
  {
    var q := ClientNamed(a.clientId, n);
    ContainerKeysAreUnique(t, q);
    ContainerKeysAreUnique(t, RealmNamed(n));
    assert Takes(t, x, row, a, n) <==> Matches(q, row) && NoneAfter(t, x, q);
    OwnAfter(t, x, row, q);
    LastAfter(t, x, row, q, y);
    LastAfter(t, x, row, RealmNamed(n), y);
    if !Takes(t, x, row, a, n) && Matches(q, row) {
      var i, j :| 0 <= i < j < |t| && t[i] == x && Matches(q, t[j]);
      assert t[j] in t && t[j] != x;
    }
  }

  lemma OwnLeftOrFreed(t: Table, x: Role, row: Role, a: Role, n: string, y: Role)
    requires x in t && a.clientRole && a.clientId.Some? && !Takes(t, x, row, a, n) && row.clientRole
    requires Owned(t) && AtMostOne(t, ClientNamed(a.clientId, n))
    requires Matches(ClientNamed(a.clientId, n), row) ==> OwnAnswers(t, x, a, n)
    requires ResolveExpansion(a, n, t) == Some(y) <==> OwnBears(t, a, n, y)
    ensures Stays(t, x, row, a, n, y) || (n == x.name && Frees(t, x, row, a, y)) <==>
            && y in t && y != x
            && if OwnAnswers(t, x, a, n) then Matches(ClientNamed(a.clientId, n), y) else Matches(RealmNamed(n), y)
  {
  }

  lemma NameAfterClient(t: Table, x: Role, row: Role, a: Role, n: string, y: Role)
    requires Rewrites(t, x, row) && a.clientRole && a.clientId.Some?
    ensures ResolveExpansion(a, n, ReplaceRow(t, row)) == Some(y) <==>
            if Takes(t, x, row, a, n) then y == row
            else Stays(t, x, row, a, n, y) || (n == x.name && Frees(t, x, row, a, y))
  {
    ClientNameLeft(t, x, row, a, n, y);
    ClientNameNow(t, a, n, y);
    ContainerKeysAreUnique(t, ClientNamed(a.clientId, n));
    if !Takes(t, x, row, a, n) {
      OwnLeftOrFreed(t, x, row, a, n, y);
    }
  }

  lemma SoleAfter(t: Table, x: Role, row: Role, n: string, y: Role)
    requires Rewrites(t, x, row)
    ensures Sole(ReplaceRow(t, row), AnyClientNamed(n)) == Some(y) <==>
            if row.name == n then y == row && forall z :: z in t && Matches(AnyClientNamed(n), z) ==> z == x
            else && y in t && y != x && Matches(AnyClientNamed(n), y)
                 && forall z :: z in t && Matches(AnyClientNamed(n), z) ==> z == x || z == y
  {
    RowsAfter(t, x, row);
    SoleWhenUnique(ReplaceRow(t, row), AnyClientNamed(n));
    assert Matches(AnyClientNamed(n), row) <==> row.name == n;
    if row != x && row in t {
      RowOf(t, row, x);
    }
  }

  lemma RealmAfter(t: Table, x: Role, row: Role, n: string, y: Role)
    requires Rewrites(t, x, row)
    ensures Last(ReplaceRow(t, row), RealmNamed(n)) == Some(y) <==> y in t && y != x && Matches(RealmNamed(n), y)
    ensures Last(ReplaceRow(t, row), RealmNamed(n)).None? <==> forall z :: z in t && Matches(RealmNamed(n), z) ==> z == x
  {
    ContainerKeysAreUnique(t, RealmNamed(n));
    LastAfter(t, x, row, RealmNamed(n), y);
    OwnAfter(t, x, row, RealmNamed(n));
  }

  lemma RealmNameTaken(t: Table, x: Role, row: Role, a: Role, n: string, y: Role)
    requires Rewrites(t, x, row) && !a.clientRole && a.clientId.None? && n == row.name
    ensures ResolveExpansion(a, n, ReplaceRow(t, row)) == Some(y) <==>
            if Takes(t, x, row, a, n) then y == row else y in t && y != x && Matches(RealmNamed(n), y)
  {
    RealmAfter(t, x, row, n, y);
    SoleAfter(t, x, row, n, y);
  }

  lemma RealmNameLeft(t: Table, x: Role, row: Role, a: Role, n: string, y: Role)
    requires Rewrites(t, x, row) && !a.clientRole && a.clientId.None? && n != row.name
    ensures ResolveExpansion(a, n, ReplaceRow(t, row)) == Some(y) <==>
            && y in t && y != x && y.name == n
            && (y.clientRole ==> forall z :: z in t && z.name == n ==> z == x || z == y)
  {
    RealmAfter(t, x, row, n, y);
    SoleAfter(t, x, row, n, y);
  }

  lemma LeftOrFreed(t: Table, x: Role, row: Role, a: Role, n: string, y: Role)
    requires x in t && !a.clientRole && n != row.name && (ResolveExpansion(a, n, t) == Some(y) <==> Bears(t, n, y))
    ensures Stays(t, x, row, a, n, y) || (n == x.name && Frees(t, x, row, a, y)) <==>
            && y in t && y != x && y.name == n
            && (y.clientRole ==> forall z :: z in t && z.name == n ==> z == x || z == y)
  {
  }

  lemma NameAfterRealm(t: Table, x: Role, row: Role, a: Role, n: string, y: Role)
    requires Rewrites(t, x, row) && !a.clientRole && a.clientId.None?
    ensures ResolveExpansion(a, n, ReplaceRow(t, row)) == Some(y) <==>
            if Takes(t, x, row, a, n) then y == row
            else Stays(t, x, row, a, n, y) || (n == x.name && Frees(t, x, row, a, y))
  {
    RealmNameNow(t, a, n, y);
    if n == row.name {
      RealmNameTaken(t, x, row, a, n, y);
    } else {
      RealmNameLeft(t, x, row, a, n, y);
      LeftOrFreed(t, x, row, a, n, y);
    }
  }

  /** What a name stands for afterwards: the row that takes it, what it stood for, or what is freed. */
  ghost predicate StandsFor(t: Table, x: Role, row: Role, a: Role, n: string, y: Role) {
    (Takes(t, x, row, a, n) && y == row) || Stays(t, x, row, a, n, y) || (n == x.name && Frees(t, x, row, a, y))
  }

  lemma TakenIsNotLeft(t: Table, x: Role, row: Role, a: Role, n: string, y: Role)
    requires Takes(t, x, row, a, n)
    ensures !Stays(t, x, row, a, n, y) && !(n == x.name && Frees(t, x, row, a, y))
  {
  }

  lemma NameAfter(t: Table, x: Role, row: Role, a: Role, n: string, y: Role)
    requires Rewrites(t, x, row) && (a.clientRole <==> a.clientId.Some?)
    ensures ResolveExpansion(a, n, ReplaceRow(t, row)) == Some(y) <==> StandsFor(t, x, row, a, n, y)
  {
    if Takes(t, x, row, a, n) {
      TakenIsNotLeft(t, x, row, a, n, y);
    }
    if a.clientRole {
      NameAfterClient(t, x, row, a, n, y);
    } else {
      NameAfterRealm(t, x, row, a, n, y);
    }
  }

  // --- Edges afterwards ----------------------------------------------------

  /** The names of other roles that go on standing for other roles. */
  ghost predicate KeptName(t: Table, x: Role, row: Role, a: Role, n: string, y: Role) {
    a in t && a != x && n in a.composites && Stays(t, x, row, a, n, y)
  }

  ghost function Kept(t: Table, x: Role, row: Role): Graph {
    iset a, n, y | KeptName(t, x, row, a, n, y) :: (a.id, y.id)
  }

  ghost predicate FreedName(t: Table, x: Role, row: Role, a: Role, y: Role) {
    Exposes(t, x, a, y) && Vacates(x, row, a)
  }

  ghost function Freed(t: Table, x: Role, row: Role): Graph {
    iset a, y | FreedName(t, x, row, a, y) :: (a.id, y.id)
  }

  /** Another role that comes to contain the row, or goes on containing it. */
  ghost predicate Taker(t: Table, x: Role, row: Role, a: Role) {
    a in t && a != x && row.name in a.composites && Takes(t, x, row, a, row.name)
  }

  /** The row stores the name that it gave up. */
  ghost predicate OwnFreed(t: Table, x: Role, row: Role, y: Role) {
    x.name in row.composites && Frees(t, x, row, row, y)
  }

  ghost predicate OwnKept(t: Table, x: Role, row: Role, y: Role) {
    exists n :: n in row.composites && Stays(t, x, row, row, n, y)
  }

  lemma StepAfter(t: Table, x: Role, row: Role, a: Role, y: Role)
    requires Rewrites(t, x, row) && (a.clientRole <==> a.clientId.Some?)
    ensures Step(ReplaceRow(t, row), a, y) <==> exists n :: n in a.composites && StandsFor(t, x, row, a, n, y)
  {
    forall n ensures ResolveExpansion(a, n, ReplaceRow(t, row)) == Some(y) <==> StandsFor(t, x, row, a, n, y) {
      NameAfter(t, x, row, a, n, y);
    }
  }

  lemma OtherRows(t: Table, x: Role, row: Role, y: Role)
    requires Rewrites(t, x, row) && y in t && y != x
    ensures y.id != x.id && y in ReplaceRow(t, row)
  {
    RowsAfter(t, x, row);
    if y.id == x.id {
      RowOf(t, x, y);
    }
  }

  lemma AroundEdgeSound(t: Table, x: Role, row: Role, i: RoleId, j: RoleId)
    requires Rewrites(t, x, row) && (i, j) in Apart(Edges(ReplaceRow(t, row)), x.id)
    ensures (i, j) in Kept(t, x, row) || (i, j) in Freed(t, x, row)
  {
    var u := ReplaceRow(t, row);
    var a, y :| a in u && Step(u, a, y) && (a.id, y.id) == (i, j);
    RowsAfter(t, x, row);
    StepAfter(t, x, row, a, y);
    var n :| n in a.composites && StandsFor(t, x, row, a, n, y);
    assert KeptName(t, x, row, a, n, y) || FreedName(t, x, row, a, y);
  }

  lemma AroundEdgeComplete(t: Table, x: Role, row: Role, a: Role, n: string, y: Role)
    requires Rewrites(t, x, row)
    requires KeptName(t, x, row, a, n, y) || (n == x.name && FreedName(t, x, row, a, y))
    ensures (a.id, y.id) in Apart(Edges(ReplaceRow(t, row)), x.id)
  {
    StepAfter(t, x, row, a, y);
    assert StandsFor(t, x, row, a, n, y);
    OtherRows(t, x, row, a);
    OtherRows(t, x, row, y);
    assert (a.id, y.id) in Edges(ReplaceRow(t, row));
  }

  /** The edges between the other roles afterwards. */
  lemma AroundEdges(t: Table, x: Role, row: Role)
    requires Rewrites(t, x, row)
    ensures Apart(Edges(ReplaceRow(t, row)), x.id) == Kept(t, x, row) + Freed(t, x, row)
  {
    var k := Apart(Edges(ReplaceRow(t, row)), x.id);
    forall i, j ensures (i, j) in k <==> (i, j) in Kept(t, x, row) + Freed(t, x, row) {
      if (i, j) in k {
        AroundEdgeSound(t, x, row, i, j);
      }
      if (i, j) in Kept(t, x, row) {
        var a, n, y :| KeptName(t, x, row, a, n, y) && (a.id, y.id) == (i, j);
        AroundEdgeComplete(t, x, row, a, n, y);
      }
      if (i, j) in Freed(t, x, row) {
        var a, y :| FreedName(t, x, row, a, y) && (a.id, y.id) == (i, j);
        AroundEdgeComplete(t, x, row, a, x.name, y);
      }
    }
  }

  /** The edges into the row. */
  lemma EdgeInto(t: Table, x: Role, row: Role, i: RoleId)
    requires Rewrites(t, x, row) && i != x.id
    ensures (i, x.id) in Edges(ReplaceRow(t, row)) <==> exists a :: Taker(t, x, row, a) && a.id == i
  {
    var u := ReplaceRow(t, row);
    RowsAfter(t, x, row);
    if (i, x.id) in Edges(u) {
      var a, y :| a in u && Step(u, a, y) && (a.id, y.id) == (i, x.id);
      assert y in u;
      RowOf(u, y, row);
      StepAfter(t, x, row, a, y);
      var n :| n in a.composites && StandsFor(t, x, row, a, n, row);
      RowIsNotLeft(t, x, row, a, n);
      assert Taker(t, x, row, a);
    }
    if a :| Taker(t, x, row, a) && a.id == i {
      StepAfter(t, x, row, a, row);
      assert StandsFor(t, x, row, a, row.name, row);
      assert a in u;
    }
  }

  lemma RowIsNotLeft(t: Table, x: Role, row: Role, a: Role, n: string)
    requires Rewrites(t, x, row) && StandsFor(t, x, row, a, n, row)
    ensures Takes(t, x, row, a, n)
  {
    if row in t {
      RowOf(t, row, x);
    }
  }

  /** The edges out of the row. */
  lemma EdgeOut(t: Table, x: Role, row: Role, j: RoleId)
    requires Rewrites(t, x, row) && j != x.id
    ensures (x.id, j) in Edges(ReplaceRow(t, row)) <==>
            exists y :: (OwnKept(t, x, row, y) || OwnFreed(t, x, row, y)) && y.id == j
  {
    var u := ReplaceRow(t, row);
    RowsAfter(t, x, row);
    if (x.id, j) in Edges(u) {
      var a, y :| a in u && Step(u, a, y) && (a.id, y.id) == (x.id, j);
      RowOf(u, a, row);
      StepAfter(t, x, row, row, y);
      var n :| n in row.composites && StandsFor(t, x, row, row, n, y);
      assert OwnKept(t, x, row, y) || OwnFreed(t, x, row, y);
    }
    if y :| (OwnKept(t, x, row, y) || OwnFreed(t, x, row, y)) && y.id == j {
      OwnSteps(t, x, row, y);
    }
  }

  lemma OwnSteps(t: Table, x: Role, row: Role, y: Role)
    requires Rewrites(t, x, row) && (OwnKept(t, x, row, y) || OwnFreed(t, x, row, y))
    ensures (x.id, y.id) in Edges(ReplaceRow(t, row)) && y.id != x.id
  {
    RowsAfter(t, x, row);
    StepAfter(t, x, row, row, y);
    if OwnFreed(t, x, row, y) {
      assert StandsFor(t, x, row, row, x.name, y);
    } else {
      var n :| n in row.composites && Stays(t, x, row, row, n, y);
      assert StandsFor(t, x, row, row, n, y);
    }
    OtherRows(t, x, row, y);
    assert row in ReplaceRow(t, row) && Step(ReplaceRow(t, row), row, y);
  }
}
