/** Reachability in a directed graph, and what adding or dropping the edges out of one node does to it. */
module Digraph {
  type Node = string
  type Graph = iset<(Node, Node)>

  ghost predicate ReachesIn(g: Graph, i: Node, j: Node, n: nat)
    decreases n
  {
    if n == 0 then i == j else exists k :: (i, k) in g && ReachesIn(g, k, j, n - 1)
  }

  ghost predicate Reaches(g: Graph, i: Node, j: Node) {
    exists n: nat :: ReachesIn(g, i, j, n)
  }

  /** A path of at least one edge leads from `i` back to `i`. */
  ghost predicate OnCycle(g: Graph, i: Node) {
    exists j :: (i, j) in g && Reaches(g, j, i)
  }

  ghost predicate Acyclic(g: Graph) {
    forall i :: !OnCycle(g, i)
  }

  /** The edges from `p` to every node of `targets`. */
  ghost function Fan(p: Node, targets: iset<Node>): Graph {
    iset a | a in targets :: (p, a)
  }

  lemma ReachesSelf(g: Graph, i: Node)
    ensures Reaches(g, i, i)
  {
    assert ReachesIn(g, i, i, 0);
  }

  lemma ReachesByEdge(g: Graph, i: Node, k: Node, j: Node)
    requires (i, k) in g && Reaches(g, k, j)
    ensures Reaches(g, i, j)
  {
    var n: nat :| ReachesIn(g, k, j, n);
    assert ReachesIn(g, i, j, n + 1);
  }

  lemma {:induction false} ReachesInTrans(g: Graph, i: Node, j: Node, k: Node, n: nat)
    requires ReachesIn(g, i, j, n) && Reaches(g, j, k)
    ensures Reaches(g, i, k)
    decreases n
  {
    if n > 0 {
      var m :| (i, m) in g && ReachesIn(g, m, j, n - 1);
      ReachesInTrans(g, m, j, k, n - 1);
      ReachesByEdge(g, i, m, k);
    }
  }

  lemma ReachesTrans(g: Graph, i: Node, j: Node, k: Node)
    requires Reaches(g, i, j) && Reaches(g, j, k)
    ensures Reaches(g, i, k)
  {
    var n: nat :| ReachesIn(g, i, j, n);
    ReachesInTrans(g, i, j, k, n);
  }

  lemma ReachesThenEdge(g: Graph, i: Node, j: Node, k: Node)
    requires Reaches(g, i, j) && (j, k) in g
    ensures Reaches(g, i, k)
  {
    ReachesSelf(g, k);
    ReachesByEdge(g, j, k, k);
    ReachesTrans(g, i, j, k);
  }

  /** A set of nodes that is closed under the edges is closed under paths. */
  lemma {:induction false} ClosedSetsKeepPaths(g: Graph, s: iset<Node>, i: Node, j: Node, n: nat)
    requires forall a, b :: (a, b) in g && a in s ==> b in s
    requires i in s && ReachesIn(g, i, j, n)
    ensures j in s
    decreases n
  {
    if n > 0 {
      var k :| (i, k) in g && ReachesIn(g, k, j, n - 1);
      ClosedSetsKeepPaths(g, s, k, j, n - 1);
    }
  }

  lemma {:induction false} ReachesInMono(g: Graph, h: Graph, i: Node, j: Node, n: nat)
    requires g <= h && ReachesIn(g, i, j, n)
    ensures ReachesIn(h, i, j, n)
    decreases n
  {
    if n > 0 {
      var k :| (i, k) in g && ReachesIn(g, k, j, n - 1);
      ReachesInMono(g, h, k, j, n - 1);
    }
  }

  /** A graph with fewer edges reaches no more. */
  lemma ReachesMono(g: Graph, h: Graph, i: Node, j: Node)
    requires g <= h && Reaches(g, i, j)
    ensures Reaches(h, i, j)
  {
    var n: nat :| ReachesIn(g, i, j, n);
    ReachesInMono(g, h, i, j, n);
  }

  lemma AcyclicMono(g: Graph, h: Graph)
    requires g <= h && Acyclic(h)
    ensures Acyclic(g)
  {
    forall i ensures !OnCycle(g, i) {
      if OnCycle(g, i) {
        var j :| (i, j) in g && Reaches(g, j, i);
        ReachesMono(g, h, j, i);
        assert OnCycle(h, i);
      }
    }
  }

  lemma OneEdgeIsAcyclic(a: Node, b: Node)
    requires a != b
    ensures Acyclic(iset{(a, b)})
  {
    var g := iset{(a, b)};
    forall i ensures !OnCycle(g, i) {
      if OnCycle(g, i) {
        var n: nat :| ReachesIn(g, b, a, n);
        ClosedSetsKeepPaths(g, iset{b}, b, a, n);
      }
    }
  }

  ghost predicate ViaFan(g: Graph, p: Node, targets: iset<Node>, i: Node, j: Node) {
    Reaches(g, i, p) && exists a :: a in targets && Reaches(g, a, j)
  }

  lemma {:induction false} FanSound(g: Graph, p: Node, targets: iset<Node>, i: Node, j: Node, n: nat)
    requires ReachesIn(g + Fan(p, targets), i, j, n)
    ensures Reaches(g, i, j) || ViaFan(g, p, targets, i, j)
    decreases n
  {
    if n == 0 {
      ReachesSelf(g, i);
    } else {
      var h := g + Fan(p, targets);
      var k :| (i, k) in h && ReachesIn(h, k, j, n - 1);
      FanSound(g, p, targets, k, j, n - 1);
      if (i, k) in g {
        if Reaches(g, k, j) {
          ReachesByEdge(g, i, k, j);
        } else {
          ReachesByEdge(g, i, k, p);
        }
      } else {
        ReachesSelf(g, p);
      }
    }
  }

  /** Exactly what new edges out of `p` add to every node's closure. */
  lemma FanClosure(g: Graph, p: Node, targets: iset<Node>, i: Node, j: Node)
    ensures Reaches(g + Fan(p, targets), i, j) <==> Reaches(g, i, j) || ViaFan(g, p, targets, i, j)
  {
    var h := g + Fan(p, targets);
    if Reaches(h, i, j) {
      var n: nat :| ReachesIn(h, i, j, n);
      FanSound(g, p, targets, i, j, n);
    }
    if Reaches(g, i, j) {
      ReachesMono(g, h, i, j);
    }
    if ViaFan(g, p, targets, i, j) {
      var a :| a in targets && Reaches(g, a, j);
      ReachesMono(g, h, i, p);
      ReachesMono(g, h, a, j);
      assert (p, a) in h;
      ReachesByEdge(h, p, a, j);
      ReachesTrans(h, i, p, j);
    }
  }

  /** New edges out of `p` put `p` on a cycle exactly when it was on one or a target reaches it. */
  lemma FanCycle(g: Graph, p: Node, targets: iset<Node>)
    ensures OnCycle(g + Fan(p, targets), p) <==> OnCycle(g, p) || exists a :: a in targets && Reaches(g, a, p)
  {
    var h := g + Fan(p, targets);
    if OnCycle(h, p) {
      var j :| (p, j) in h && Reaches(h, j, p);
      FanClosure(g, p, targets, j, p);
    }
    if OnCycle(g, p) {
      var j :| (p, j) in g && Reaches(g, j, p);
      ReachesMono(g, h, j, p);
      assert (p, j) in h;
    }
    if exists a :: a in targets && Reaches(g, a, p) {
      var a :| a in targets && Reaches(g, a, p);
      ReachesMono(g, h, a, p);
      assert (p, a) in h;
    }
  }

  /** New edges out of `p` keep a graph acyclic exactly when no target reaches `p`. */
  lemma FanAcyclic(g: Graph, p: Node, targets: iset<Node>)
    ensures Acyclic(g + Fan(p, targets)) <==> Acyclic(g) && forall a :: a in targets ==> !Reaches(g, a, p)
  {
    var h := g + Fan(p, targets);
    FanCycle(g, p, targets);
    if Acyclic(h) {
      AcyclicMono(g, h);
    }
    if Acyclic(g) && forall a :: a in targets ==> !Reaches(g, a, p) {
      forall i ensures !OnCycle(h, i) {
        if OnCycle(h, i) {
          var j :| (i, j) in h && Reaches(h, j, i);
          FanClosure(g, p, targets, j, i);
          if (i, j) in g {
            assert !Reaches(g, j, i) by { assert !OnCycle(g, i); }
            var a :| a in targets && Reaches(g, a, i);
            ReachesByEdge(g, i, j, p);
            ReachesTrans(g, a, i, p);
          }
        }
      }
    }
  }

  // --- Nodes that must not come into reach ---------------------------------

  /** No node comes to reach a node of `kept` that it did not reach before. */
  ghost predicate KeepsOut(g: Graph, h: Graph, kept: iset<Node>) {
    forall i, r :: r in kept && Reaches(h, i, r) ==> Reaches(g, i, r)
  }

  /** What `a` gains from `b` over the edges of `h`: a node of `kept` that it did not reach in `g`. */
  ghost predicate Gains(g: Graph, h: Graph, kept: iset<Node>, a: Node, b: Node) {
    exists r :: r in kept && Reaches(h, b, r) && !Reaches(g, a, r)
  }

  /** A new edge that leads to such a node. */
  ghost predicate LetsIn(g: Graph, h: Graph, kept: iset<Node>, a: Node, b: Node) {
    (a, b) in h && (a, b) !in g && Gains(g, h, kept, a, b)
  }

  lemma {:induction false} NoEdgeLetsIn(g: Graph, h: Graph, kept: iset<Node>, i: Node, r: Node, n: nat)
    requires r in kept && ReachesIn(h, i, r, n) && forall a, b :: !LetsIn(g, h, kept, a, b)
    ensures Reaches(g, i, r)
    decreases n
  {
    if n == 0 {
      ReachesSelf(g, i);
    } else {
      var k :| (i, k) in h && ReachesIn(h, k, r, n - 1);
      NoEdgeLetsIn(g, h, kept, k, r, n - 1);
      if (i, k) in g {
        ReachesByEdge(g, i, k, r);
      } else {
        assert !LetsIn(g, h, kept, i, k);
      }
    }
  }

  /** The new edges alone decide it. */
  lemma NewEdgesDecide(g: Graph, h: Graph, kept: iset<Node>)
    ensures KeepsOut(g, h, kept) <==> forall a, b :: !LetsIn(g, h, kept, a, b)
  {
    if KeepsOut(g, h, kept) {
      forall a, b ensures !LetsIn(g, h, kept, a, b) {
        if LetsIn(g, h, kept, a, b) {
          var r :| r in kept && Reaches(h, b, r) && !Reaches(g, a, r);
          ReachesByEdge(h, a, b, r);
        }
      }
    }
    if forall a, b :: !LetsIn(g, h, kept, a, b) {
      forall i, r | r in kept && Reaches(h, i, r) ensures Reaches(g, i, r) {
        var n: nat :| ReachesIn(h, i, r, n);
        NoEdgeLetsIn(g, h, kept, i, r, n);
      }
    }
  }

  lemma EdgesGainNothing(g: Graph, h: Graph, kept: iset<Node>, a: Node, q: Node)
    requires KeepsOut(g, h, kept) && (a, q) in h
    ensures !Gains(g, h, kept, a, q)
  {
    forall r | r in kept && Reaches(h, q, r) ensures Reaches(g, a, r) {
      ReachesByEdge(h, a, q, r);
    }
  }

  /** The same where the edges that may be new are known. */
  lemma AddedEdgesDecide(g: Graph, k: Graph, e: Graph, kept: iset<Node>)
    requires k <= g
    ensures KeepsOut(g, k + e, kept) <==> forall a, q :: (a, q) in e ==> !Gains(g, k + e, kept, a, q)
  {
    NewEdgesDecide(g, k + e, kept);
    if KeepsOut(g, k + e, kept) {
      forall a, q | (a, q) in e ensures !Gains(g, k + e, kept, a, q) {
        EdgesGainNothing(g, k + e, kept, a, q);
      }
    }
  }

  /** If only edges into `p` are missing from `g`, a path either survives or its end is in reach of `p`. */
  lemma {:induction false} PathOrFrom(g: Graph, h: Graph, p: Node, i: Node, r: Node, n: nat)
    requires ReachesIn(h, i, r, n) && forall a, b :: (a, b) in h && b != p ==> (a, b) in g
    ensures Reaches(g, i, r) || Reaches(g, p, r)
    decreases n
  {
    if n == 0 {
      ReachesSelf(g, i);
    } else {
      var k :| (i, k) in h && ReachesIn(h, k, r, n - 1);
      PathOrFrom(g, h, p, k, r, n - 1);
      if k != p && Reaches(g, k, r) {
        ReachesByEdge(g, i, k, r);
      }
    }
  }

  // --- Paths past one node -------------------------------------------------

  /** The graph without the edges at `p`. */
  ghost function Apart(g: Graph, p: Node): Graph {
    iset e | e in g && e.0 != p && e.1 != p
  }

  ghost predicate Enters(g: Graph, p: Node, i: Node) {
    exists a :: a != p && (a, p) in g && Reaches(Apart(g, p), i, a)
  }

  ghost predicate Leaves(g: Graph, p: Node, j: Node) {
    exists b :: b != p && (p, b) in g && Reaches(Apart(g, p), b, j)
  }

  lemma {:induction false} DetourSound(g: Graph, p: Node, i: Node, j: Node, n: nat)
    requires ReachesIn(g, i, j, n) && j != p
    ensures if i == p then Leaves(g, p, j) else Reaches(Apart(g, p), i, j) || (Enters(g, p, i) && Leaves(g, p, j))
    decreases n
  {
    var k := Apart(g, p);
    if n == 0 {
      ReachesSelf(k, i);
    } else {
      var m :| (i, m) in g && ReachesIn(g, m, j, n - 1);
      DetourSound(g, p, m, j, n - 1);
      if i != p && m == p {
        ReachesSelf(k, i);
      } else if i != p && Reaches(k, m, j) {
        ReachesByEdge(k, i, m, j);
      } else if i != p {
        var a :| a != p && (a, p) in g && Reaches(k, m, a);
        ReachesByEdge(k, i, m, a);
      }
    }
  }

  lemma {:induction false} EntersSound(g: Graph, p: Node, i: Node, n: nat)
    requires ReachesIn(g, i, p, n) && i != p
    ensures Enters(g, p, i)
    decreases n
  {
    var k := Apart(g, p);
    var m :| (i, m) in g && ReachesIn(g, m, p, n - 1);
    if m == p {
      ReachesSelf(k, i);
    } else {
      EntersSound(g, p, m, n - 1);
      var a :| a != p && (a, p) in g && Reaches(k, m, a);
      ReachesByEdge(k, i, m, a);
    }
  }

  lemma EntersReaches(g: Graph, p: Node, i: Node)
    requires Enters(g, p, i)
    ensures Reaches(g, i, p)
  {
    var a :| a != p && (a, p) in g && Reaches(Apart(g, p), i, a);
    ReachesMono(Apart(g, p), g, i, a);
    ReachesThenEdge(g, i, a, p);
  }

  lemma LeavesReaches(g: Graph, p: Node, j: Node)
    requires Leaves(g, p, j)
    ensures Reaches(g, p, j)
  {
    var b :| b != p && (p, b) in g && Reaches(Apart(g, p), b, j);
    ReachesMono(Apart(g, p), g, b, j);
    ReachesByEdge(g, p, b, j);
  }

  /** Every path goes past `p`, or into it and out of it once. */
  lemma DetourClosure(g: Graph, p: Node, i: Node, j: Node)
    requires i != p && j != p
    ensures Reaches(g, i, j) <==> Reaches(Apart(g, p), i, j) || (Enters(g, p, i) && Leaves(g, p, j))
    ensures Reaches(g, p, j) <==> Leaves(g, p, j)
    ensures Reaches(g, i, p) <==> Enters(g, p, i)
  {
    if Reaches(g, i, j) {
      var n: nat :| ReachesIn(g, i, j, n);
      DetourSound(g, p, i, j, n);
    }
    if Reaches(g, p, j) {
      var n: nat :| ReachesIn(g, p, j, n);
      DetourSound(g, p, p, j, n);
    }
    if Reaches(g, i, p) {
      var n: nat :| ReachesIn(g, i, p, n);
      EntersSound(g, p, i, n);
    }
    if Reaches(Apart(g, p), i, j) {
      ReachesMono(Apart(g, p), g, i, j);
    }
    if Leaves(g, p, j) {
      LeavesReaches(g, p, j);
    }
    if Enters(g, p, i) {
      EntersReaches(g, p, i);
      if Leaves(g, p, j) {
        ReachesTrans(g, i, p, j);
      }
    }
  }

  // --- Edges into one node -------------------------------------------------

  /** An edge of `e` is in reach of `i` and leads to where `j` is in reach. */
  ghost predicate Via(g: Graph, e: Graph, i: Node, j: Node) {
    exists a, q :: (a, q) in e && Reaches(g, i, a) && Reaches(g, q, j)
  }

  ghost predicate OneSink(e: Graph) {
    forall a, b, c, d :: (a, b) in e && (c, d) in e ==> b == d
  }

  lemma {:induction false} SinkSound(g: Graph, e: Graph, i: Node, j: Node, n: nat)
    requires OneSink(e) && ReachesIn(g + e, i, j, n)
    ensures Reaches(g, i, j) || Via(g, e, i, j)
    decreases n
  {
    if n == 0 {
      ReachesSelf(g, i);
    } else {
      var m :| (i, m) in g + e && ReachesIn(g + e, m, j, n - 1);
      SinkSound(g, e, m, j, n - 1);
      if (i, m) in e {
        ReachesSelf(g, i);
      } else if Reaches(g, m, j) {
        ReachesByEdge(g, i, m, j);
      } else {
        var a, q :| (a, q) in e && Reaches(g, m, a) && Reaches(g, q, j);
        ReachesByEdge(g, i, m, a);
      }
    }
  }

  /** New edges that all lead to one node are used at most once. */
  lemma SinkClosure(g: Graph, e: Graph, i: Node, j: Node)
    requires OneSink(e)
    ensures Reaches(g + e, i, j) <==> Reaches(g, i, j) || Via(g, e, i, j)
  {
    if Reaches(g + e, i, j) {
      var n: nat :| ReachesIn(g + e, i, j, n);
      SinkSound(g, e, i, j, n);
    }
    if Reaches(g, i, j) {
      ReachesMono(g, g + e, i, j);
    }
    if Via(g, e, i, j) {
      var a, q :| (a, q) in e && Reaches(g, i, a) && Reaches(g, q, j);
      ReachesMono(g, g + e, i, a);
      ReachesMono(g, g + e, q, j);
      ReachesThenEdge(g + e, i, a, q);
      ReachesTrans(g + e, i, q, j);
    }
  }

  lemma SinkKeepsReach(g: Graph, e: Graph, a: Node, q: Node, j: Node)
    requires OneSink(e) && (a, q) in e
    ensures Reaches(g + e, q, j) <==> Reaches(g, q, j)
  {
    SinkClosure(g, e, q, j);
  }

  /** Edges that all lead to one node keep a node out exactly when none of them brings it. */
  lemma SinkKeepsOutIff(g: Graph, k: Graph, e: Graph, kept: iset<Node>)
    requires k <= g && OneSink(e)
    ensures KeepsOut(g, k + e, kept) <==> forall a, q :: (a, q) in e ==> !Gains(g, k, kept, a, q)
  {
    AddedEdgesDecide(g, k, e, kept);
    forall a, q | (a, q) in e ensures Gains(g, k + e, kept, a, q) <==> Gains(g, k, kept, a, q) {
      forall r ensures Reaches(k + e, q, r) <==> Reaches(k, q, r) {
        SinkKeepsReach(k, e, a, q, r);
      }
    }
  }

  // --- One node rewired ----------------------------------------------------

  /** The graph without the edges out of `p`. */
  ghost function Cut(g: Graph, p: Node): Graph {
    iset e | e in g && e.0 != p
  }

  lemma {:induction false} PathOrCut(g: Graph, p: Node, i: Node, r: Node, n: nat)
    requires ReachesIn(g, i, r, n)
    ensures Reaches(Cut(g, p), i, r) || Reaches(g, p, r)
    decreases n
  {
    if n == 0 {
      ReachesSelf(Cut(g, p), i);
    } else {
      var k :| (i, k) in g && ReachesIn(g, k, r, n - 1);
      PathOrCut(g, p, k, r, n - 1);
      if i == p {
        assert ReachesIn(g, p, r, n);
      } else if Reaches(Cut(g, p), k, r) {
        ReachesByEdge(Cut(g, p), i, k, r);
      }
    }
  }

  /**
    From `g` to `h` the edges at `p` have changed; of the others some are gone, and those of `e`, which all
    lead to one node, have come. The ends of the new edges out of `p` are among `known` and `own`.
   */
  ghost predicate Rewired(g: Graph, h: Graph, p: Node, e: Graph, known: iset<Node>, own: iset<Node>) {
    && e <= Apart(h, p) <= g + e && OneSink(e)
    && (forall b :: (p, b) in h && b != p ==> b in known || b in own)
    && forall b :: b in own ==> (p, b) in h
  }

  /** What is known to be in reach of `p` brings nothing, unless a new edge elsewhere does. */
  lemma KnownBringsNothing(g: Graph, h: Graph, p: Node, e: Graph, kept: iset<Node>, b: Node, r: Node)
    requires e <= Apart(h, p) <= g + e && OneSink(e) && r in kept && Reaches(Apart(h, p), b, r)
    requires Reaches(Cut(g, p), b, r) ==> Reaches(g, p, r)
    requires forall a, q :: (a, q) in e ==> !Gains(g, h, kept, a, q)
    ensures Reaches(g, p, r)
  {
    var k := Apart(h, p) * g;
    assert Apart(h, p) == k + e;
    SinkClosure(k, e, b, r);
    if Reaches(k, b, r) {
      ReachesMono(k, Cut(g, p), b, r);
    } else {
      var a, q :| (a, q) in e && Reaches(k, b, a) && Reaches(k, q, r);
      ReachesMono(k, h, q, r);
      assert Reaches(g, a, r) by { assert !Gains(g, h, kept, a, q); }
      ReachesMono(k, g, b, a);
      ReachesTrans(g, b, a, r);
      var n: nat :| ReachesIn(g, b, r, n);
      PathOrCut(g, p, b, r, n);
    }
  }

  lemma RewiredNode(g: Graph, h: Graph, p: Node, e: Graph, known: iset<Node>, own: iset<Node>, kept: iset<Node>, r: Node)
    requires Rewired(g, h, p, e, known, own) && r in kept && r != p && Reaches(h, p, r)
    requires forall b :: b in known && Reaches(Cut(g, p), b, r) ==> Reaches(g, p, r)
    requires forall a, q :: (a, q) in e ==> !Gains(g, h, kept, a, q)
    requires forall q :: q in own ==> !Gains(g, h, kept, p, q)
    ensures Reaches(g, p, r)
  {
    var n: nat :| ReachesIn(h, p, r, n);
    DetourSound(h, p, p, r, n);
    var b :| b != p && (p, b) in h && Reaches(Apart(h, p), b, r);
    if b in own {
      ReachesMono(Apart(h, p), h, b, r);
      assert !Gains(g, h, kept, p, b);
    } else {
      KnownBringsNothing(g, h, p, e, kept, b, r);
    }
  }

  /** Three kinds of edges decide: those of `e`, those of `own`, and those into `p`. */
  lemma RewiredKeepsOutIff(g: Graph, h: Graph, p: Node, e: Graph, known: iset<Node>, own: iset<Node>, kept: iset<Node>)
    requires Rewired(g, h, p, e, known, own) && p !in kept
    requires forall b, r :: b in known && r in kept && Reaches(Cut(g, p), b, r) ==> Reaches(g, p, r)
    ensures KeepsOut(g, h, kept) <==>
            && (forall a, q :: (a, q) in e ==> !Gains(g, h, kept, a, q))
            && (forall q :: q in own ==> !Gains(g, h, kept, p, q))
            && (forall a :: a != p && (a, p) in h ==> !Gains(g, h, kept, a, p))
  {
    if KeepsOut(g, h, kept) {
      forall a, q | (a, q) in h ensures !Gains(g, h, kept, a, q) {
        EdgesGainNothing(g, h, kept, a, q);
      }
    }
    if && (forall a, q :: (a, q) in e ==> !Gains(g, h, kept, a, q))
       && (forall q :: q in own ==> !Gains(g, h, kept, p, q))
       && (forall a :: a != p && (a, p) in h ==> !Gains(g, h, kept, a, p))
    {
      NewEdgesDecide(g, h, kept);
      forall a, b ensures !LetsIn(g, h, kept, a, b) {
        if a == p && (p, b) in h {
          forall r | r in kept && Reaches(h, b, r) ensures Reaches(g, p, r) {
            ReachesByEdge(h, p, b, r);
            RewiredNode(g, h, p, e, known, own, kept, r);
          }
        } else if b != p && (a, b) in h {
          assert (a, b) in Apart(h, p);
        }
      }
    }
  }
}
