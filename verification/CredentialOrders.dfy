/** Every order of a user's credentials can be reached by moves, and n - 1 of them are enough. */
module CredentialOrders {
  import opened Prelude
  import opened Credentials
  import opened CredentialStore

  function IdsOf(s: Creds): (r: seq<string>)
    ensures |r| == |s| && forall i :: 0 <= i < |s| ==> r[i] == s[i].id
  {
    seq(|s|, i requires 0 <= i < |s| => s[i].id)
  }

  datatype Move = Move(id: string, target: string)

  function Run(rows: Creds, moves: seq<Move>): (r: Creds) {
    if moves == [] then rows
    else
      var n := |moves| - 1;
      AfterMove(Run(rows, moves[..n]), moves[n].id, moves[n].target)
  }

  /** Move each credential of the goal behind its predecessor. */
  function Chain(goal: seq<string>): (moves: seq<Move>)
    ensures |moves| == if goal == [] then 0 else |goal| - 1
    ensures forall i :: 0 <= i < |moves| ==> moves[i] == Move(goal[i + 1], goal[i])
  {
    if |goal| < 2 then [] else seq(|goal| - 1, i requires 0 <= i < |goal| - 1 => Move(goal[i + 1], goal[i]))
  }

  /** The first `k` ids of the goal stand together in `ids`, after `at` others. */
  ghost predicate Block(ids: seq<string>, goal: seq<string>, k: nat, at: nat) {
    k <= |goal| && at + k <= |ids| && forall i :: 0 <= i < k ==> ids[at + i] == goal[i]
  }

  lemma BlockElement(ids: seq<string>, goal: seq<string>, k: nat, at: nat, x: nat)
    requires Block(ids, goal, k, at) && at <= x < at + k
    ensures ids[x] == goal[x - at]
  {
    assert ids[at + (x - at)] == goal[x - at];
  }

  /** Taking out an element that is not in the block leaves the block together. */
  lemma BlockAfterTakeOut(ids: seq<string>, goal: seq<string>, k: nat, at: nat, x: nat)
    requires Distinct(ids) && Distinct(goal) && Block(ids, goal, k, at) && k < |goal| && x < |ids| && ids[x] == goal[k]
    ensures Block(ids[..x] + ids[x + 1..], goal, k, if x < at then at - 1 else at)
  {
    if at <= x < at + k {
      BlockElement(ids, goal, k, at, x);
    }
  }

  lemma IdsOfTakeOut(s: Creds, x: nat)
    requires x < |s|
    ensures IdsOf(TakeOut(s, x)) == IdsOf(s)[..x] + IdsOf(s)[x + 1..]
  {
  }

  lemma InsertExtendsBlock(rest: Creds, goal: seq<string>, k: nat, at: nat, c: Credential)
    requires k < |goal| && Block(IdsOf(rest), goal, k, at) && c.id == goal[k]
    ensures Block(IdsOf(PutIn(rest, at + k, c)), goal, k + 1, at)
  {
    var r := PutIn(rest, at + k, c);
    forall i | 0 <= i < k + 1 ensures IdsOf(r)[at + i] == goal[i] {
      if i < k {
        assert r[at + i] == rest[at + i] && IdsOf(rest)[at + i] == goal[i];
      }
    }
  }

  lemma MovedAtExtendsBlock(s: Creds, goal: seq<string>, k: nat, at: nat, x: nat)
    requires Distinct(IdsOf(s)) && Distinct(goal) && 0 < k < |goal| && Block(IdsOf(s), goal, k, at)
    requires x < |s| && s[x].id == goal[k]
    ensures at + k - 1 != x && Block(IdsOf(MovedAt(s, x, at + k - 1)), goal, k + 1, if x < at then at - 1 else at)
  {
    assert IdsOf(s)[at + (k - 1)] == goal[k - 1];
    BlockAfterTakeOut(IdsOf(s), goal, k, at, x);
    IdsOfTakeOut(s, x);
    InsertExtendsBlock(TakeOut(s, x), goal, k, if x < at then at - 1 else at, s[x]);
  }

  /** One move of the chain makes the block one longer. */
  lemma MoveExtendsBlock(s: Creds, goal: seq<string>, k: nat, at: nat) returns (at': nat)
    requires DistinctIds(s) && Distinct(goal) && 0 < k < |goal| && Block(IdsOf(s), goal, k, at)
    requires exists x :: 0 <= x < |s| && s[x].id == goal[k]
    ensures Moved(s, goal[k], goal[k - 1]).Ok?
    ensures Block(IdsOf(Moved(s, goal[k], goal[k - 1]).value), goal, k + 1, at')
  {
    var x :| 0 <= x < |s| && s[x].id == goal[k];
    assert IdsOf(s)[at + (k - 1)] == goal[k - 1];
    PositionIs(s, x, goal[k]);
    PositionIs(s, at + k - 1, goal[k - 1]);
    MovedAtExtendsBlock(s, goal, k, at, x);
    at' := if x < at then at - 1 else at;
  }

  ghost predicate SameIds(s: Creds, goal: seq<string>) {
    |s| == |goal| && forall g :: g in goal ==> exists x :: 0 <= x < |s| && s[x].id == g
  }

  lemma SameIdsTransfer(a: Creds, b: Creds, goal: seq<string>)
    requires SameIds(a, goal) && |a| == |b| && forall i :: 0 <= i < |a| ==> exists j :: 0 <= j < |b| && b[j].id == a[i].id
    ensures SameIds(b, goal)
  {
    forall g | g in goal ensures exists x :: 0 <= x < |b| && b[x].id == g {
      var i :| 0 <= i < |a| && a[i].id == g;
    }
  }

  lemma ListingSameIds(rows: Creds, goal: seq<string>)
    requires DistinctIds(rows) && SameIds(rows, goal)
    ensures SameIds(Listing(rows), goal) && DistinctIds(Listing(rows))
  {
    ListingKeepsIds(rows);
    forall i | 0 <= i < |rows| ensures exists j :: 0 <= j < |rows| && Listing(rows)[j].id == rows[i].id {
      assert rows[i] in Listing(rows);
    }
    SameIdsTransfer(rows, Listing(rows), goal);
  }

  lemma MoveSameIds(rows: Creds, move: Move, goal: seq<string>)
    requires DistinctIds(rows) && SameIds(rows, goal)
    ensures SameIds(AfterMove(rows, move.id, move.target), goal) && DistinctIds(AfterMove(rows, move.id, move.target))
  {
    var r := AfterMove(rows, move.id, move.target);
    if rows == [] {
      assert goal == [];
      assert Listing(rows) == [];
    }
    forall i | 0 <= i < |rows| ensures |r| == |rows| && r[i].id == rows[i].id {
      MoveConserves(rows, move.id, move.target, i);
    }
    forall i | 0 <= i < |rows| ensures exists j :: 0 <= j < |r| && r[j].id == rows[i].id {
      assert r[i].id == rows[i].id;
    }
    SameIdsTransfer(rows, r, goal);
  }

  lemma IdsOfRenumbered(list: Creds)
    ensures IdsOf(Renumbered(list)) == IdsOf(list)
  {
  }

  lemma HasId(s: Creds, goal: seq<string>, k: nat)
    requires SameIds(s, goal) && k < |goal|
    ensures exists x :: 0 <= x < |s| && s[x].id == goal[k]
  {
    assert goal[k] in goal;
  }

  lemma BlockAfterMove(r: Creds, goal: seq<string>, k: nat, b: nat) returns (at: nat)
    requires DistinctIds(r) && |r| < 0x8000_0000 && SameIds(r, goal) && Distinct(goal) && 0 < k < |goal|
    requires Block(IdsOf(Listing(r)), goal, k, b)
    ensures Block(IdsOf(Listing(AfterMove(r, goal[k], goal[k - 1]))), goal, k + 1, at)
  {
    ListingSameIds(r, goal);
    HasId(Listing(r), goal, k);
    at := MoveExtendsBlock(Listing(r), goal, k, b);
    MoveListing(r, goal[k], goal[k - 1]);
    IdsOfRenumbered(Moved(Listing(r), goal[k], goal[k - 1]).value);
  }

  lemma ChainStep(r: Creds, goal: seq<string>, k: nat, b: nat) returns (at: nat)
    requires DistinctIds(r) && |r| < 0x8000_0000 && SameIds(r, goal) && Distinct(goal) && 0 < k < |goal|
    requires Block(IdsOf(Listing(r)), goal, k, b)
    ensures var r' := AfterMove(r, goal[k], goal[k - 1]);
            DistinctIds(r') && SameIds(r', goal) && Block(IdsOf(Listing(r')), goal, k + 1, at)
  {
    at := BlockAfterMove(r, goal, k, b);
    MoveSameIds(r, Move(goal[k], goal[k - 1]), goal);
  }

  lemma {:induction false} ChainBuilds(rows: Creds, goal: seq<string>, k: nat) returns (at: nat)
    requires DistinctIds(rows) && |rows| < 0x8000_0000 && SameIds(rows, goal) && Distinct(goal) && 0 < k <= |goal|
    ensures var r := Run(rows, Chain(goal)[..k - 1]);
            DistinctIds(r) && SameIds(r, goal) && Block(IdsOf(Listing(r)), goal, k, at)
    decreases k
  {
    if k == 1 {
      ListingSameIds(rows, goal);
      assert goal[0] in goal;
      at :| 0 <= at < |rows| && Listing(rows)[at].id == goal[0];
      assert Chain(goal)[..0] == [];
    } else {
      var moves := Chain(goal)[..k - 1];
      assert moves[..k - 2] == Chain(goal)[..k - 2];
      assert moves[k - 2] == Move(goal[k - 1], goal[k - 2]);
      var b := ChainBuilds(rows, goal, k - 1);
      at := ChainStep(Run(rows, moves[..k - 2]), goal, k - 1, b);
    }
  }

  lemma FullBlock(ids: seq<string>, goal: seq<string>, at: nat)
    requires Block(ids, goal, |goal|, at) && |ids| == |goal|
    ensures ids == goal
  {
    forall i | 0 <= i < |goal| ensures ids[i] == goal[i] {
      assert ids[at + i] == goal[i];
    }
  }

  /** From any store, the n - 1 moves of the chain list the credentials in any wanted order. */
  lemma EveryOrderIsReachable(rows: Creds, goal: seq<string>)
    requires DistinctIds(rows) && |rows| < 0x8000_0000 && Distinct(goal) && SameIds(rows, goal)
    ensures IdsOf(Listing(Run(rows, Chain(goal)))) == goal
  {
    if goal != [] {
      var at := ChainBuilds(rows, goal, |goal|);
      assert Chain(goal)[..|goal| - 1] == Chain(goal);
      ListingSameIds(Run(rows, Chain(goal)), goal);
      FullBlock(IdsOf(Listing(Run(rows, Chain(goal)))), goal, at);
    }
  }
}
