/**
  Reordering a user's credentials: sort, take one out, put it back after another, renumber and
  persist only the rows whose priority changed.
 */
module Credentials {
  import opened Prelude
  import opened Sorting

  datatype Credential = Credential(
    id: string,
    kind: string,
    userLabel: Option<string>,
    created: int,
    secret: seq<int>,
    data: string,
    priority: int)

  type Creds = seq<Credential>

  ghost predicate DistinctIds(s: Creds) {
    forall i, j :: 0 <= i < j < |s| ==> s[i].id != s[j].id
  }

  predicate Before(a: Credential, b: Credential) {
    a.priority < b.priority || (a.priority == b.priority && a.created <= b.created)
  }

  /** The order credentials are listed and consumed in. */
  function Listing(rows: Creds): (r: Creds) {
    Sort(Before, rows)
  }

  lemma BeforeIsTotalPreorder()
    ensures TotalPreorder(Before)
  {
  }

  /** Credentials are listed by rising priority, and by the date of creation where priorities are equal. */
  lemma ListingMeans(rows: Creds)
    ensures multiset(Listing(rows)) == multiset(rows)
    ensures var l := Listing(rows);
            forall i, j :: 0 <= i < j < |l| ==>
                             l[i].priority < l[j].priority || (l[i].priority == l[j].priority && l[i].created <= l[j].created)
  {
    SortPermutes(Before, rows);
    BeforeIsTotalPreorder();
    SortSorts(Before, rows);
  }

  // --- The list move -------------------------------------------------------

  function Position(s: Creds, id: string): (r: Option<nat>)
    ensures r.Some? ==> r.value < |s| && s[r.value].id == id && forall i :: 0 <= i < r.value ==> s[i].id != id
    ensures r.None? ==> forall i :: 0 <= i < |s| ==> s[i].id != id
  {
    if s == [] then None
    else if s[0].id == id then Some(0)
    else
      var p := Position(s[1..], id);
      if p.Some? then Some(p.value + 1) else None
  }

  function TakeOut(s: Creds, k: nat): (r: Creds)
    requires k < |s|
  {
    s[..k] + s[k + 1..]
  }

  function PutIn(s: Creds, k: nat, c: Credential): (r: Creds)
    requires k <= |s|
  {
    s[..k] + [c] + s[k..]
  }

  /** `(idx + 1) as i32`. */
  function Priority(idx: nat): (p: int) {
    var n := (idx + 1) % 0x1_0000_0000;
    if n < 0x8000_0000 then n else n - 0x1_0000_0000
  }

  /** The position from one, wrapped to a signed 32-bit number. */
  lemma PriorityMeans(idx: nat)
    ensures -2147483648 <= Priority(idx) < 2147483648 && (Priority(idx) - (idx + 1)) % 4294967296 == 0
    ensures idx < 2147483647 ==> Priority(idx) == idx + 1
  {
  }

  function Renumbered(s: Creds): (r: Creds)
    ensures |r| == |s| && forall i :: 0 <= i < |s| ==> r[i] == s[i].(priority := Priority(i))
  {
    seq(|s|, i requires 0 <= i < |s| => s[i].(priority := Priority(i)))
  }

  /** Take the element at `from` out and put it right after the one at `at`. */
  function MovedAt(s: Creds, from: nat, at: nat): (r: Creds)
    requires from < |s| && at < |s| && from != at
  {
    PutIn(TakeOut(s, from), if at < from then at + 1 else at, s[from])
  }

  /** Move `id` right after `target`; refused for unknown ids and for one and the same. */
  function Moved(s: Creds, id: string, target: string): (r: Result<Creds, ApiError>) {
    var from, at := Position(s, id), Position(s, target);
    if from.None? || at.None? then Err(NotFound)
    else if from.value == at.value then Err(BadRequest)
    else Ok(MovedAt(s, from.value, at.value))
  }

  // --- The store -----------------------------------------------------------

  function SetRow(rows: Creds, c: Credential): (r: Creds)
    ensures |r| == |rows| && forall i :: 0 <= i < |rows| ==> r[i] == if rows[i].id == c.id then c else rows[i]
  {
    if rows == [] then [] else [if rows[0].id == c.id then c else rows[0]] + SetRow(rows[1..], c)
  }

  /** Every row rewritten from `list`, whether its priority changed or not. */
  function RewriteAll(rows: Creds, list: Creds): (r: Creds) {
    if list == [] then rows
    else
      var n := |list| - 1;
      SetRow(RewriteAll(rows, list[..n]), list[n])
  }

  ghost predicate SameSet(rows: Creds, list: Creds) {
    DistinctIds(rows) && DistinctIds(list) && forall c :: c in rows <==> c in list
  }

  lemma SameSetIsPermutation(a: Creds, b: Creds)
    requires DistinctIds(a) && DistinctIds(b)
    ensures SameSet(a, b) <==> multiset(a) == multiset(b)
  {
    DistinctMultiset(a);
    DistinctMultiset(b);
    if SameSet(a, b) {
      forall c ensures multiset(a)[c] == multiset(b)[c] {}
    }
    if multiset(a) == multiset(b) {
      SameElements(a, b);
    }
  }

  /** `rows`, with each row that stands in `list` replaced by its renumbered version. */
  lemma {:induction false} RewriteAllRows(rows: Creds, list: Creds, numbered: Creds, i: nat)
    requires DistinctIds(list) && |numbered| == |list| && i < |rows|
    requires forall k :: 0 <= k < |list| ==> numbered[k].id == list[k].id
    ensures |RewriteAll(rows, numbered)| == |rows|
    ensures (forall k :: 0 <= k < |list| ==> list[k].id != rows[i].id) ==> RewriteAll(rows, numbered)[i] == rows[i]
    ensures forall k :: 0 <= k < |list| && list[k].id == rows[i].id ==> RewriteAll(rows, numbered)[i] == numbered[k]
  {
    if list != [] {
      var n := |list| - 1;
      RewriteAllRows(rows, list[..n], numbered[..n], i);
      forall k | 0 <= k < n ensures list[..n][k] == list[k] && numbered[..n][k] == numbered[k] {}
    }
  }

  lemma SetUnchangedRow(rows: Creds, c: Credential)
    requires DistinctIds(rows) && c in rows
    ensures SetRow(rows, c) == rows
  {
  }

  /** The rewritten store holds exactly the renumbered list, row by row in the old row order. */
  lemma RewriteAllHolds(rows: Creds, list: Creds, i: nat)
    requires SameSet(rows, list) && i < |rows|
    ensures var out := RewriteAll(rows, Renumbered(list));
            |out| == |rows| && out[i].id == rows[i].id && out[i] in Renumbered(list)
  {
    var numbered := Renumbered(list);
    RewriteAllRows(rows, list, numbered, i);
    assert rows[i] in list;
    var k :| 0 <= k < |list| && list[k] == rows[i];
    assert RewriteAll(rows, numbered)[i] == numbered[k];
  }

  lemma RewriteAllCovers(rows: Creds, list: Creds, k: nat)
    requires SameSet(rows, list) && k < |list|
    ensures Renumbered(list)[k] in RewriteAll(rows, Renumbered(list))
  {
    var numbered := Renumbered(list);
    assert list[k] in rows;
    var i :| 0 <= i < |rows| && rows[i] == list[k];
    RewriteAllRows(rows, list, numbered, i);
    assert RewriteAll(rows, numbered)[i] == numbered[k];
  }

  lemma RewriteAllLength(rows: Creds, list: Creds)
    ensures |RewriteAll(rows, list)| == |rows|
  {
  }

  lemma RewriteAllSameSet(rows: Creds, list: Creds)
    requires SameSet(rows, list)
    ensures SameSet(RewriteAll(rows, Renumbered(list)), Renumbered(list))
  {
    var numbered := Renumbered(list);
    var out := RewriteAll(rows, numbered);
    RewriteAllLength(rows, numbered);
    forall i | 0 <= i < |rows| ensures out[i].id == rows[i].id && out[i] in numbered {
      RewriteAllHolds(rows, list, i);
    }
    forall c | c in numbered ensures c in out {
      var k :| 0 <= k < |numbered| && numbered[k] == c;
      RewriteAllCovers(rows, list, k);
    }
  }

  lemma RenumberedPriority(list: Creds, i: nat)
    requires i < |list| < 0x8000_0000
    ensures Renumbered(list)[i].priority == i + 1
  {
  }

  lemma RenumberedIsOrdered(list: Creds)
    requires |list| < 0x8000_0000
    ensures SortedBy(Before, Renumbered(list)) && Antisymmetric(Before, Renumbered(list))
  {
    var numbered := Renumbered(list);
    forall i | 0 <= i < |list| ensures numbered[i].priority == i + 1 { RenumberedPriority(list, i); }
    forall x, y | x in numbered && y in numbered && Before(x, y) && Before(y, x) ensures x == y {
      var i :| 0 <= i < |numbered| && numbered[i] == x;
      var j :| 0 <= j < |numbered| && numbered[j] == y;
    }
  }

  /** Renumbered priorities are 1..n, so the list is its own listing. */
  lemma RenumberedIsListed(rows: Creds, list: Creds)
    requires multiset(rows) == multiset(Renumbered(list)) && |list| < 0x8000_0000
    ensures Listing(rows) == Renumbered(list)
  {
    BeforeIsTotalPreorder();
    SortSorts(Before, rows);
    SortPermutes(Before, rows);
    RenumberedIsOrdered(list);
    OrderedPermutationsAgree(Before, Renumbered(list), Listing(rows));
  }

  lemma ListingKeepsIds(rows: Creds)
    requires DistinctIds(rows)
    ensures SameSet(rows, Listing(rows))
  {
    var s := Listing(rows);
    SortPermutes(Before, rows);
    DistinctMultiset(rows);
    SameElements(rows, s);
    forall i, j | 0 <= i < j < |s| ensures s[i].id != s[j].id {
      if s[i].id == s[j].id {
        assert s[i] in rows && s[j] in rows;
        MultisetPair(s, i, j);
      }
    }
  }

  lemma MultisetPair(s: Creds, i: nat, j: nat)
    requires i < j < |s| && s[i] == s[j]
    ensures multiset(s)[s[i]] >= 2
  {
    assert s == s[..i] + [s[i]] + s[i + 1..j] + [s[j]] + s[j + 1..];
  }

  lemma TakeOutElements(s: Creds, k: nat)
    requires DistinctIds(s) && k < |s|
    ensures DistinctIds(TakeOut(s, k)) && forall c :: c in TakeOut(s, k) <==> c in s && c.id != s[k].id
  {
    var r := TakeOut(s, k);
    forall i | 0 <= i < |r| ensures r[i] == s[if i < k then i else i + 1] {}
    forall c | c in s && c.id != s[k].id ensures c in r {
      var j :| 0 <= j < |s| && s[j] == c;
      assert r[if j < k then j else j - 1] == c;
    }
  }

  lemma PutInElements(s: Creds, k: nat, c: Credential)
    requires DistinctIds(s) && k <= |s| && forall x :: x in s ==> x.id != c.id
    ensures DistinctIds(PutIn(s, k, c)) && forall x :: x in PutIn(s, k, c) <==> x in s || x == c
  {
    var r := PutIn(s, k, c);
    forall i | 0 <= i < |r| ensures r[i] == if i < k then s[i] else if i == k then c else s[i - 1] {}
    forall x | x in s ensures x in r {
      var j :| 0 <= j < |s| && s[j] == x;
      assert r[if j < k then j else j + 1] == x;
    }
    assert r[k] == c;
    forall i | 0 <= i < |s| ensures s[i] in s {}
  }

  lemma IdPinsRow(s: Creds, c: Credential, k: nat)
    requires DistinctIds(s) && k < |s| && c in s && c.id == s[k].id
    ensures c == s[k]
  {
  }

  lemma ReinsertedSameSet(s: Creds, k: nat, a: nat)
    requires DistinctIds(s) && k < |s| && a < |s|
    ensures SameSet(s, PutIn(TakeOut(s, k), a, s[k]))
  {
    TakeOutElements(s, k);
    PutInElements(TakeOut(s, k), a, s[k]);
    forall c | c in s && c.id == s[k].id ensures c == s[k] { IdPinsRow(s, c, k); }
  }

  lemma MovedSameSet(s: Creds, id: string, target: string)
    requires DistinctIds(s) && Moved(s, id, target).Ok?
    ensures SameSet(s, Moved(s, id, target).value)
  {
    var k, at := Position(s, id).value, Position(s, target).value;
    ReinsertedSameSet(s, k, if at < k then at + 1 else at);
  }
}
