/** The credential endpoints on the store, and what whole runs of them can do to the order. */
module CredentialStore {
  import opened Prelude
  import opened Sorting
  import opened Credentials

  /** How many rows of the new order carry another priority than their position asks for. */
  function Changes(list: Creds): (n: nat) {
    if list == [] then 0
    else
      var k := |list| - 1;
      Changes(list[..k]) + if list[k].priority != Priority(k) then 1 else 0
  }

  /** The store after a move; a refused move changes nothing. */
  function AfterMove(rows: Creds, id: string, target: string): (r: Creds) {
    match Moved(Listing(rows), id, target)
    case Ok(list) => RewriteAll(rows, Renumbered(list))
    case Err(_) => rows
  }

  lemma PendingRow(rows: Creds, list: Creds, k: nat)
    requires SameSet(rows, list) && k < |list|
    ensures list[k] in RewriteAll(rows, Renumbered(list)[..k]) && DistinctIds(RewriteAll(rows, Renumbered(list)[..k]))
  {
    var numbered := Renumbered(list);
    var out := RewriteAll(rows, numbered[..k]);
    RewriteAllLength(rows, numbered[..k]);
    forall i | 0 <= i < |rows| ensures out[i].id == rows[i].id && (rows[i] == list[k] ==> out[i] == list[k]) {
      RewriteAllRows(rows, list[..k], numbered[..k], i);
    }
    assert list[k] in rows;
    var i :| 0 <= i < |rows| && rows[i] == list[k];
    assert out[i] == list[k];
  }

  lemma SkippedWrite(rows: Creds, list: Creds, k: nat)
    requires SameSet(rows, list) && k < |list| && list[k].priority == Priority(k)
    ensures RewriteAll(rows, Renumbered(list)[..k + 1]) == RewriteAll(rows, Renumbered(list)[..k])
  {
    var numbered := Renumbered(list);
    var done, next := numbered[..k], numbered[..k + 1];
    PendingRow(rows, list, k);
    assert next[..k] == done && next[k] == list[k];
    SetUnchangedRow(RewriteAll(rows, done), list[k]);
  }

  /** Remove from the vector, find the target again, insert behind it. */
  method Reinsert(s: Creds, from: nat, at: nat) returns (r: Creds)
    requires DistinctIds(s) && from < |s| && at < |s| && from != at
    ensures r == MovedAt(s, from, at)
  {
    var rest := TakeOut(s, from);
    AnchorAt(s, from, at);
    var anchor := Position(rest, s[at].id);
    r := PutIn(rest, anchor.value + 1, s[from]);
  }

  class Store {
    var rows: Creds
    ghost var writes: nat

    constructor (rows: Creds)
      ensures this.rows == rows && writes == 0
    {
      this.rows := rows;
      writes := 0;
    }

    method UpdateCredential(c: Credential)
      modifies this
      ensures rows == SetRow(old(rows), c) && writes == old(writes) + 1
    {
      rows := SetRow(rows, c);
      writes := writes + 1;
    }

    /** The reorder endpoint: only rows whose priority changes are written. */
    method MoveCredentialAfter(id: string, target: string) returns (res: Result<(), ApiError>)
      requires DistinctIds(rows)
      modifies this
      ensures rows == AfterMove(old(rows), id, target)
      ensures match Moved(Listing(old(rows)), id, target)
              case Ok(list) => res == Ok(()) && writes == old(writes) + Changes(list)
              case Err(e) => res == Err(e) && writes == old(writes)
    {
      var creds := Listing(rows);
      ListingKeepsIds(rows);
      var from := Position(creds, id);
      if from.None? {
        return Err(NotFound);
      }
      var at := Position(creds, target);
      if at.None? {
        return Err(NotFound);
      }
      if from.value == at.value {
        return Err(BadRequest);
      }
      MovedSameSet(creds, id, target);
      creds := Reinsert(creds, from.value, at.value);
      Renumber(creds);
      return Ok(());
    }

    method Renumber(list: Creds)
      requires SameSet(rows, list)
      modifies this
      ensures rows == RewriteAll(old(rows), Renumbered(list)) && writes == old(writes) + Changes(list)
    {
      var creds := list;
      ghost var numbered := Renumbered(list);
      for idx := 0 to |list|
        invariant |creds| == |list| && forall i :: idx <= i < |list| ==> creds[i] == list[i]
        invariant rows == RewriteAll(old(rows), numbered[..idx])
        invariant writes == old(writes) + Changes(list[..idx])
      {
        assert numbered[..idx + 1][..idx] == numbered[..idx] && list[..idx + 1][..idx] == list[..idx];
        if creds[idx].priority != Priority(idx) {
          creds := creds[idx := creds[idx].(priority := Priority(idx))];
          UpdateCredential(creds[idx]);
        } else {
          SkippedWrite(old(rows), list, idx);
        }
      }
      assert numbered[..|list|] == numbered && list[..|list|] == list;
    }

    /** The last remaining credential cannot be deleted. */
    method DeleteCredential(id: string) returns (res: Result<(), ApiError>)
      requires DistinctIds(rows)
      modifies this
      ensures res == (if forall i :: 0 <= i < |old(rows)| ==> old(rows)[i].id != id then Err(NotFound)
                      else if |old(rows)| == 1 then Err(BadRequest) else Ok(()))
      ensures rows == if res.Ok? then Without(old(rows), id) else old(rows)
    {
      var creds := Listing(rows);
      ListingKeepsIds(rows);
      var at := Position(creds, id);
      if at.None? {
        forall i | 0 <= i < |rows| ensures rows[i].id != id { assert rows[i] in creds; }
        return Err(NotFound);
      }
      assert creds[at.value] in rows;
      if |creds| == 1 {
        return Err(BadRequest);
      }
      rows := Without(rows, id);
      return Ok(());
    }
  }

  function Without(s: Creds, id: string): (r: Creds)
    ensures forall c :: c in r <==> c in s && c.id != id
  {
    if s == [] then []
    else
      assert forall c :: c in s <==> c == s[0] || c in s[1..];
      (if s[0].id == id then [] else [s[0]]) + Without(s[1..], id)
  }

  lemma AnchorAt(s: Creds, k: nat, at: nat)
    requires DistinctIds(s) && k < |s| && at < |s| && at != k
    ensures Position(TakeOut(s, k), s[at].id) == Some(if at < k then at else at - 1)
  {
    TakeOutElements(s, k);
    var r, a := TakeOut(s, k), if at < k then at else at - 1;
    assert r[a] == s[at];
    PositionIs(r, a, s[at].id);
  }

  // --- One move ------------------------------------------------------------

  /** Only priorities change: every row keeps its id and all its other fields. */
  lemma MoveConserves(rows: Creds, id: string, target: string, i: nat)
    requires DistinctIds(rows) && i < |rows|
    ensures var r := AfterMove(rows, id, target);
            |r| == |rows| && r[i].(priority := rows[i].priority) == rows[i]
  {
    ListingKeepsIds(rows);
    var m := Moved(Listing(rows), id, target);
    if m.Ok? {
      MovedSameSet(Listing(rows), id, target);
      var list := m.value;
      RewriteAllRows(rows, list, Renumbered(list), i);
      assert rows[i] in Listing(rows);
      var k :| 0 <= k < |list| && list[k] == rows[i];
    }
  }

  /** Afterwards the listing is the moved list, numbered from one. */
  lemma MoveListing(rows: Creds, id: string, target: string)
    requires DistinctIds(rows) && |rows| < 0x8000_0000
    requires Moved(Listing(rows), id, target).Ok?
    ensures Listing(AfterMove(rows, id, target)) == Renumbered(Moved(Listing(rows), id, target).value)
    ensures DistinctIds(AfterMove(rows, id, target))
  {
    ListingKeepsIds(rows);
    MovedSameSet(Listing(rows), id, target);
    var list := Moved(Listing(rows), id, target).value;
    RewriteAllSameSet(rows, list);
    SameSetIsPermutation(RewriteAll(rows, Renumbered(list)), Renumbered(list));
    RenumberedIsListed(AfterMove(rows, id, target), list);
  }

  lemma MovedAtShape(s: Creds, k: nat, at: nat)
    requires DistinctIds(s) && k < |s| && at < |s| && k != at
    ensures var r, a := MovedAt(s, k, at), if at < k then at + 1 else at;
            && DistinctIds(r) && 0 < a < |r| && r[a] == s[k] && r[a - 1] == s[at] && TakeOut(r, a) == TakeOut(s, k)
  {
    var r, a := MovedAt(s, k, at), if at < k then at + 1 else at;
    ReinsertedSameSet(s, k, a);
    assert r[..a] + r[a + 1..] == TakeOut(s, k);
  }

  /** The moved credential ends up right after the target and the others keep their order. */
  lemma MoveShape(s: Creds, id: string, target: string)
    requires DistinctIds(s) && Moved(s, id, target).Ok?
    ensures var r := Moved(s, id, target).value;
            && DistinctIds(r) && Position(r, id).Some? && Position(r, target).Some?
            && Position(r, id).value == Position(r, target).value + 1
            && r[Position(r, id).value] == s[Position(s, id).value]
            && TakeOut(r, Position(r, id).value) == TakeOut(s, Position(s, id).value)
  {
    var k, at := Position(s, id).value, Position(s, target).value;
    var r, a := MovedAt(s, k, at), if at < k then at + 1 else at;
    MovedAtShape(s, k, at);
    PositionIs(r, a, id);
    PositionIs(r, a - 1, target);
  }

  lemma PositionIs(s: Creds, k: nat, id: string)
    requires DistinctIds(s) && k < |s| && s[k].id == id
    ensures Position(s, id) == Some(k)
  {
  }

  /** A list already in the wanted shape is left as it is. */
  lemma MoveInPlace(s: Creds, id: string, target: string)
    requires DistinctIds(s) && Position(s, id).Some? && Position(s, target).Some?
    requires Position(s, id).value == Position(s, target).value + 1
    ensures Moved(s, id, target) == Ok(s)
  {
    var k := Position(s, id).value;
    assert PutIn(TakeOut(s, k), k, s[k]) == s;
  }

  lemma RenumberedPosition(s: Creds, id: string)
    requires DistinctIds(s)
    ensures DistinctIds(Renumbered(s)) && Position(Renumbered(s), id) == Position(s, id)
  {
    var r := Renumbered(s);
    if Position(s, id).Some? {
      PositionIs(r, Position(s, id).value, id);
    }
  }

  lemma {:induction false} NoChanges(list: Creds)
    requires forall i :: 0 <= i < |list| ==> list[i].priority == Priority(i)
    ensures Changes(list) == 0
  {
    if list != [] {
      NoChanges(list[..|list| - 1]);
    }
  }

  lemma NumberedStaysPut(list: Creds, id: string, target: string)
    requires DistinctIds(list) && Position(list, id).Some? && Position(list, target).Some?
    requires Position(list, id).value == Position(list, target).value + 1
    ensures Moved(Renumbered(list), id, target) == Ok(Renumbered(list)) && Changes(Renumbered(list)) == 0
  {
    RenumberedPosition(list, id);
    RenumberedPosition(list, target);
    MoveInPlace(Renumbered(list), id, target);
    NoChanges(Renumbered(list));
  }

  /** Repeating the same move writes nothing. */
  lemma RepeatedMoveWritesNothing(rows: Creds, id: string, target: string)
    requires DistinctIds(rows) && |rows| < 0x8000_0000
    requires Moved(Listing(rows), id, target).Ok?
    ensures var again := Moved(Listing(AfterMove(rows, id, target)), id, target);
            again.Ok? && Changes(again.value) == 0
  {
    MoveListing(rows, id, target);
    ListingKeepsIds(rows);
    MoveShape(Listing(rows), id, target);
    NumberedStaysPut(Moved(Listing(rows), id, target).value, id, target);
  }

  // --- Deleting keeps the order --------------------------------------------

  lemma WithoutCons(c: Credential, s: Creds, id: string)
    ensures Without([c] + s, id) == if c.id == id then Without(s, id) else [c] + Without(s, id)
  {
    assert ([c] + s)[1..] == s;
  }

  lemma InsertAtFront(c: Credential, s: Creds, id: string)
    requires SortedBy(Before, s) && (s == [] || Before(c, s[0]))
    ensures Insert(Before, c, Without(s, id)) == [c] + Without(s, id)
  {
    var w := Without(s, id);
    if w != [] {
      assert w[0] in s;
    }
  }

  lemma InsertPast(c: Credential, h: Credential, t: Creds)
    requires !Before(c, h)
    ensures Insert(Before, c, [h] + t) == [h] + Insert(Before, c, t)
  {
    assert ([h] + t)[1..] == t;
  }

  lemma {:induction false} InsertCommutesWithDelete(c: Credential, s: Creds, id: string)
    requires SortedBy(Before, s)
    ensures Without(Insert(Before, c, s), id) == if c.id == id then Without(s, id) else Insert(Before, c, Without(s, id))
  {
    if s == [] || Before(c, s[0]) {
      WithoutCons(c, s, id);
      InsertAtFront(c, s, id);
    } else {
      var h, t := s[0], s[1..];
      assert s == [h] + t;
      InsertPast(c, h, t);
      InsertCommutesWithDelete(c, t, id);
      WithoutCons(h, Insert(Before, c, t), id);
      WithoutCons(h, t, id);
      InsertPast(c, h, Without(t, id));
    }
  }

  lemma DeleteFromLonger(c: Credential, s: Creds, id: string)
    ensures Without(Listing([c] + s), id) ==
            if c.id == id then Without(Listing(s), id) else Insert(Before, c, Without(Listing(s), id))
  {
    BeforeIsTotalPreorder();
    SortSorts(Before, s);
    InsertCommutesWithDelete(c, Listing(s), id);
    ListingCons(c, s);
  }

  /** Deleting a row and listing is the same as listing and deleting: the others keep their order. */
  lemma {:induction false} DeleteKeepsOrder(rows: Creds, id: string)
    ensures Listing(Without(rows, id)) == Without(Listing(rows), id)
  {
    if rows != [] {
      var c, s := rows[0], rows[1..];
      assert rows == [c] + s;
      DeleteKeepsOrder(s, id);
      DeleteFromLonger(c, s, id);
      WithoutCons(c, s, id);
      ListingCons(c, Without(s, id));
    }
  }

  lemma ListingCons(c: Credential, s: Creds)
    ensures Listing([c] + s) == Insert(Before, c, Listing(s))
  {
    assert ([c] + s)[1..] == s;
  }
}
