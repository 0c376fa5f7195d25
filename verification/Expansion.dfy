/** Composite expansion: the work-list algorithm, and the closure it computes. */
module Expansion {
  import opened Prelude
  import opened Roles
  import opened Digraph

  /** `b` is what one of the names stored on `a` stands for. */
  ghost predicate Step(all: Table, a: Role, b: Role) {
    exists n :: n in a.composites && ResolveExpansion(a, n, all) == Some(b)
  }

  /** `r` is a seed or a child of one of `parents`. */
  ghost predicate Justified(seeds: seq<Role>, all: Table, parents: seq<Role>, r: Role) {
    r in seeds || exists m :: m in parents && Step(all, m, r)
  }

  function Ids(s: seq<Role>): (r: set<RoleId>) {
    set x | x in s :: x.id
  }

  /**
    What the expansion yields for any seeds at all, whether or not they are rows of the table:
    no id twice, every role a seed or a child of a role put out before it, every seed's id, and with
    every role the ids of its children. The first role out is the last seed.
   */
  ghost predicate IsExpansion(seeds: seq<Role>, all: Table, out: seq<Role>) {
    && DistinctIds(out)
    && Grown(seeds, all, out)
    && Ids(seeds) <= Ids(out)
    && Covered(all, out, Ids(out))
    && (seeds != [] ==> out != [] && out[0] == seeds[|seeds| - 1])
  }

  ghost predicate Grown(seeds: seq<Role>, all: Table, out: seq<Role>) {
    forall k :: 0 <= k < |out| ==> Justified(seeds, all, out[..k], out[k])
  }

  /** `ids` holds the id of every child of every role of `s`. */
  ghost predicate Covered(all: Table, s: seq<Role>, ids: set<RoleId>) {
    forall r, b :: r in s && Step(all, r, b) ==> b.id in ids
  }

  /** The inner loop: push every child that has not been seen. */
  method PushChildren(role: Role, all: Table, seen: set<RoleId>, queue: seq<Role>) returns (q: seq<Role>)
    ensures forall x :: x in queue ==> x in q
    ensures forall x :: x in q ==> x in queue || (Step(all, role, x) && x in all)
    ensures Covered(all, [role], seen + Ids(q))
  {
    q := queue;
    for k := 0 to |role.composites|
      invariant forall x :: x in queue ==> x in q
      invariant forall x :: x in q ==> x in queue || (Step(all, role, x) && x in all)
      invariant forall m :: 0 <= m < k && ResolveExpansion(role, role.composites[m], all).Some? ==>
                              ResolveExpansion(role, role.composites[m], all).value.id in seen + Ids(q)
    {
      var resolved := ResolveExpansion(role, role.composites[k], all);
      if resolved.Some? && resolved.value.id !in seen {
        assert Step(all, role, resolved.value);
        ghost var before := q;
        q := q + [resolved.value];
        assert resolved.value in q && forall x :: x in before ==> x in q;
        assert Ids(before) <= Ids(q) && resolved.value.id in Ids(q);
      }
    }
  }

  /** The loop invariant of the work list. */
  ghost predicate Working(seeds: seq<Role>, all: Table, seen: set<RoleId>, queue: seq<Role>, out: seq<Role>) {
    && seen == Ids(out) && DistinctIds(out)
    && Grown(seeds, all, out) && (forall r :: r in queue ==> Justified(seeds, all, out, r))
    && Ids(seeds) <= seen + Ids(queue)
    && Covered(all, out, seen + Ids(queue))
    && (if out == [] then queue == seeds else seeds != [] && out[0] == seeds[|seeds| - 1])
  }

  lemma SkipSeen(seeds: seq<Role>, all: Table, seen: set<RoleId>, queue: seq<Role>, out: seq<Role>)
    requires queue != [] && Working(seeds, all, seen, queue, out) && queue[|queue| - 1].id in seen
    ensures Working(seeds, all, seen, queue[..|queue| - 1], out)
  {
    var rest := queue[..|queue| - 1];
    assert queue == rest + [queue[|queue| - 1]];
    assert seen + Ids(queue) == seen + Ids(rest);
  }

  lemma JustifiedMono(seeds: seq<Role>, all: Table, parents: seq<Role>, role: Role, r: Role)
    requires Justified(seeds, all, parents, r)
    ensures Justified(seeds, all, parents + [role], r)
  {
    if m :| m in parents && Step(all, m, r) {
      assert m in parents + [role];
    }
  }

  lemma TakeNew(seeds: seq<Role>, all: Table, seen: set<RoleId>, rest: seq<Role>, role: Role, out: seq<Role>, pushed: seq<Role>)
    requires Working(seeds, all, seen, rest + [role], out) && role.id !in seen
    requires forall x :: x in rest ==> x in pushed
    requires forall x :: x in pushed ==> x in rest || Step(all, role, x)
    requires Covered(all, [role], seen + {role.id} + Ids(pushed))
    ensures Working(seeds, all, seen + {role.id}, pushed, out + [role])
  {
    var queue := rest + [role];
    assert role in queue && queue[|rest|] == role && forall x :: x in rest ==> x in queue;
    GrownSnoc(seeds, all, out, role);
    TakenJustified(seeds, all, rest, role, out, pushed);
    IdsSnoc(rest, role);
    IdsSnoc(out, role);
    IdsMono(rest, pushed);
    TakenCovered(all, seen + Ids(queue), out, role, seen + {role.id} + Ids(pushed));
    DistinctSnoc(out, role);
  }

  lemma TakenJustified(seeds: seq<Role>, all: Table, rest: seq<Role>, role: Role, out: seq<Role>, pushed: seq<Role>)
    requires forall r :: r in rest ==> Justified(seeds, all, out, r)
    requires forall x :: x in pushed ==> x in rest || Step(all, role, x)
    ensures forall x :: x in pushed ==> Justified(seeds, all, out + [role], x)
  {
    forall x | x in pushed ensures Justified(seeds, all, out + [role], x) {
      if x in rest {
        JustifiedMono(seeds, all, out, role, x);
      } else {
        assert role in out + [role];
      }
    }
  }

  lemma TakenCovered(all: Table, before: set<RoleId>, out: seq<Role>, role: Role, after: set<RoleId>)
    requires before <= after && Covered(all, out, before) && Covered(all, [role], after)
    ensures Covered(all, out + [role], after)
  {
    forall r, b | r in out + [role] && Step(all, r, b) ensures b.id in after {
      assert r in out || r in [role];
    }
  }

  lemma IdsSnoc(s: seq<Role>, r: Role)
    ensures Ids(s + [r]) == Ids(s) + {r.id}
  {
    forall i ensures i in Ids(s + [r]) <==> i in Ids(s) + {r.id} {
      if x :| x in s && x.id == i {
        assert x in s + [r];
      }
      assert r in s + [r];
    }
  }

  lemma IdsMono(s: seq<Role>, u: seq<Role>)
    requires forall x :: x in s ==> x in u
    ensures Ids(s) <= Ids(u)
  {
  }

  lemma DistinctSnoc(s: seq<Role>, r: Role)
    requires DistinctIds(s) && r.id !in Ids(s)
    ensures DistinctIds(s + [r])
  {
    forall i | 0 <= i < |s| ensures s[i].id != r.id {
      assert s[i] in s;
    }
  }

  lemma GrownSnoc(seeds: seq<Role>, all: Table, out: seq<Role>, role: Role)
    requires Grown(seeds, all, out) && Justified(seeds, all, out, role)
    ensures Grown(seeds, all, out + [role])
  {
    assert (out + [role])[..|out|] == out;
    forall k | 0 <= k < |out| ensures (out + [role])[..k] == out[..k] {}
  }

  method ExpandComposites(seeds: seq<Role>, all: Table) returns (out: seq<Role>)
    ensures IsExpansion(seeds, all, out)
  {
    var seen: set<RoleId> := {};
    out := [];
    var queue := seeds;
    ghost var universe := Ids(seeds) + Ids(all);
    while queue != []
      invariant Working(seeds, all, seen, queue, out)
      invariant Ids(queue) <= universe
      decreases universe - seen, |queue|
    {
      var role := queue[|queue| - 1];
      var rest := queue[..|queue| - 1];
      assert role in queue && role.id in Ids(queue);
      if role.id in seen {
        SkipSeen(seeds, all, seen, queue, out);
        queue := rest;
      } else {
        var pushed := PushChildren(role, all, seen + {role.id}, rest);
        assert queue == rest + [role];
        TakeNew(seeds, all, seen, rest, role, out, pushed);
        seen := seen + {role.id};
        queue := pushed;
        out := out + [role];
      }
    }
    assert Ids(queue) == {};
  }

  // --- The closure over a table --------------------------------------------

  /** The composite graph of a table, on role ids. */
  ghost function Edges(t: Table): (g: Graph) {
    iset a, b | a in t && Step(t, a, b) :: (a.id, b.id)
  }

  lemma RowOf(t: Table, a: Role, b: Role)
    requires DistinctIds(t) && a in t && b in t && a.id == b.id
    ensures a == b
  {
  }

  /** Whatever is put out is reached from a seed in any graph that has the steps taken. */
  lemma {:induction false} GrownReaches(seeds: seq<Role>, all: Table, out: seq<Role>, g: Graph, k: nat)
    requires Grown(seeds, all, out) && k < |out|
    requires forall m, r :: m in out && Step(all, m, r) ==> (m.id, r.id) in g
    ensures exists s :: s in seeds && Reaches(g, s.id, out[k].id)
    decreases k
  {
    assert Justified(seeds, all, out[..k], out[k]);
    if out[k] in seeds {
      ReachesSelf(g, out[k].id);
    } else {
      var m :| m in out[..k] && Step(all, m, out[k]);
      var j :| 0 <= j < k && out[j] == m;
      GrownReaches(seeds, all, out, g, j);
      var s :| s in seeds && Reaches(g, s.id, m.id);
      ReachesThenEdge(g, s.id, m.id, out[k].id);
    }
  }

  lemma GrownFromTable(seeds: seq<Role>, all: Table, out: seq<Role>)
    requires Grown(seeds, all, out)
    ensures forall r :: r in out ==> r in seeds || r in all
  {
    forall r | r in out ensures r in seeds || r in all {
      var k :| 0 <= k < |out| && out[k] == r;
      assert Justified(seeds, all, out[..k], r);
    }
  }

  lemma CoveredIsClosed(t: Table, out: seq<Role>, i: RoleId, j: RoleId)
    requires DistinctIds(t) && (forall r :: r in out ==> r in t) && Covered(t, out, Ids(out))
    requires i in Ids(out) && Reaches(Edges(t), i, j)
    ensures j in Ids(out)
  {
    var s := iset x | x in Ids(out);
    forall a, b | (a, b) in Edges(t) && a in s ensures b in s {
      var x, y :| x in t && Step(t, x, y) && (x.id, y.id) == (a, b);
      var r :| r in out && r.id == a;
      RowOf(t, x, r);
    }
    var n: nat :| ReachesIn(Edges(t), i, j, n);
    ClosedSetsKeepPaths(Edges(t), s, i, j, n);
  }

  /** Seeded with rows of the table, the expansion is exactly the set of roles they reach. */
  lemma ExpansionIsClosure(seeds: seq<Role>, t: Table, out: seq<Role>, j: RoleId)
    requires DistinctIds(t) && (forall s :: s in seeds ==> s in t) && IsExpansion(seeds, t, out)
    ensures j in Ids(out) <==> exists s :: s in seeds && Reaches(Edges(t), s.id, j)
  {
    GrownFromTable(seeds, t, out);
    if j in Ids(out) {
      var k :| 0 <= k < |out| && out[k].id == j;
      GrownReaches(seeds, t, out, Edges(t), k);
    }
    if s :| s in seeds && Reaches(Edges(t), s.id, j) {
      assert s.id in Ids(seeds);
      CoveredIsClosed(t, out, s.id, j);
    }
  }
}
