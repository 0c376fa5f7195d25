/** A client's scope assignments: the assignment table and the two legacy name lists kept beside it. */
module ClientScopes {
  import opened Prelude
  import opened Sorting

  type ScopeId = string

  // --- Scope lists ---------------------------------------------------------

  function Dedup(s: seq<string>): (r: seq<string>) {
    if |s| < 2 then s else if s[0] == s[1] then Dedup(s[1..]) else [s[0]] + Dedup(s[1..])
  }

  /** The sorted, duplicate-free list that a scope value holds. */
  function Canonical(tokens: seq<string>): (r: seq<string>) {
    Dedup(Sort(LexLeq, tokens))
  }

  ghost predicate Increasing(s: seq<string>) {
    forall i, j :: 0 <= i < j < |s| ==> LexLeq(s[i], s[j]) && s[i] != s[j]
  }

  lemma {:induction false} DedupOfSorted(s: seq<string>)
    requires SortedBy(LexLeq, s)
    ensures Increasing(Dedup(s)) && forall x :: x in Dedup(s) <==> x in s
  {
    if |s| >= 2 {
      DedupOfSorted(s[1..]);
      assert forall x :: x in s <==> x == s[0] || x in s[1..];
      if s[0] != s[1] {
        var r := Dedup(s[1..]);
        forall j | 0 <= j < |r| ensures LexLeq(s[0], r[j]) && s[0] != r[j] {
          assert r[j] in s[1..];
          var k :| 1 <= k < |s| && s[k] == r[j];
          LexTotal(s[0], s[1]);
        }
      }
    }
  }

  lemma CanonicalShape(tokens: seq<string>)
    ensures Increasing(Canonical(tokens)) && forall x :: x in Canonical(tokens) <==> x in tokens
  {
    LexIsTotalPreorder();
    SortSorts(LexLeq, tokens);
    SortPermutes(LexLeq, tokens);
    SameElements(Sort(LexLeq, tokens), tokens);
    DedupOfSorted(Sort(LexLeq, tokens));
  }

  lemma {:induction false} IncreasingIsUnique(a: seq<string>, b: seq<string>)
    requires Increasing(a) && Increasing(b) && forall x :: x in a <==> x in b
    ensures a == b
  {
    if a == [] {
      EmptyOrMember(b);
    } else {
      assert a[0] in b;
      assert b[0] in a;
      var i :| 0 <= i < |a| && a[i] == b[0];
      var j :| 0 <= j < |b| && b[j] == a[0];
      LexTotal(a[0], b[0]);
      assert a[0] == b[0];
      forall x ensures x in a[1..] <==> x in b[1..] {
        assert x in a[1..] <==> x in a && x != a[0];
        assert x in b[1..] <==> x in b && x != b[0];
      }
      IncreasingIsUnique(a[1..], b[1..]);
    }
  }

  function ListAdd(list: seq<string>, name: string): (r: seq<string>) {
    Canonical(if name in list then list else list + [name])
  }

  function Filter(list: seq<string>, name: string): (r: seq<string>)
    ensures forall x :: x in r <==> x in list && x != name
  {
    if list == [] then []
    else
      assert forall x :: x in list <==> x == list[0] || x in list[1..];
      (if list[0] == name then [] else [list[0]]) + Filter(list[1..], name)
  }

  function ListRemove(list: seq<string>, name: string): (r: seq<string>) {
    Canonical(Filter(list, name))
  }

  // --- The assignment table ------------------------------------------------

  type Table = seq<(ScopeId, bool)>

  function Lookup(t: Table, id: ScopeId): (r: Option<bool>) {
    if t == [] then None else if t[0].0 == id then Some(t[0].1) else Lookup(t[1..], id)
  }

  /** Change the first row of the scope, or append one. */
  function Upsert(t: Table, id: ScopeId, isDefault: bool): (r: Table) {
    if t == [] then [(id, isDefault)]
    else if t[0].0 == id then [(id, isDefault)] + t[1..]
    else [t[0]] + Upsert(t[1..], id, isDefault)
  }

  function Drop(t: Table, id: ScopeId): (r: Table) {
    if t == [] then [] else (if t[0].0 == id then [] else [t[0]]) + Drop(t[1..], id)
  }

  lemma {:induction false} UpsertLookup(t: Table, id: ScopeId, isDefault: bool, x: ScopeId)
    ensures Lookup(Upsert(t, id, isDefault), x) == if x == id then Some(isDefault) else Lookup(t, x)
  {
    if t != [] {
      UpsertLookup(t[1..], id, isDefault, x);
    }
  }

  lemma {:induction false} DropLookup(t: Table, id: ScopeId, x: ScopeId)
    ensures Lookup(Drop(t, id), x) == if x == id then None else Lookup(t, x)
  {
    if t != [] {
      DropLookup(t[1..], id, x);
      if t[0].0 != id {
        assert ([t[0]] + Drop(t[1..], id))[1..] == Drop(t[1..], id);
      } else {
        assert [] + Drop(t[1..], id) == Drop(t[1..], id);
      }
    }
  }

  // --- Operations ----------------------------------------------------------

  datatype State = State(table: Table, defaults: seq<string>, optionals: seq<string>)

  /** The realm's scopes by id, and the names reserved for explicit optional assignment. */
  datatype Scopes = Scopes(names: map<ScopeId, string>, reserved: set<string>)

  datatype Op = Assign(id: ScopeId, isDefault: bool) | Unassign(id: ScopeId)

  function Outcome(scopes: Scopes, st: State, op: Op): (r: Result<State, ApiError>) {
    if op.id !in scopes.names then Err(NotFound)
    else
      var name := scopes.names[op.id];
      match op
      case Assign(id, isDefault) =>
        if isDefault && name in scopes.reserved then Err(BadRequest)
        else if isDefault then
          Ok(State(Upsert(st.table, id, true), ListAdd(st.defaults, name), ListRemove(st.optionals, name)))
        else
          Ok(State(Upsert(st.table, id, false), ListRemove(st.defaults, name), ListAdd(st.optionals, name)))
      case Unassign(id) =>
        Ok(State(Drop(st.table, id), ListRemove(st.defaults, name), ListRemove(st.optionals, name)))
  }

  function Next(scopes: Scopes, st: State, op: Op): (r: State) {
    var o := Outcome(scopes, st, op);
    if o.Ok? then o.value else st
  }

  function Run(scopes: Scopes, st: State, ops: seq<Op>): (r: State) {
    if ops == [] then st else Next(scopes, Run(scopes, st, ops[..|ops| - 1]), ops[|ops| - 1])
  }

  ghost predicate UniqueNames(scopes: Scopes) {
    forall i, j :: i in scopes.names && j in scopes.names && scopes.names[i] == scopes.names[j] ==> i == j
  }

  /** `list` holds exactly the names of the scopes whose row says `isDefault`. */
  ghost predicate ListAgrees(scopes: Scopes, table: Table, list: seq<string>, isDefault: bool) {
    && Increasing(list)
    && (forall n :: n in list ==> exists id :: id in scopes.names && scopes.names[id] == n)
    && (forall id :: id in scopes.names ==> (scopes.names[id] in list <==> Lookup(table, id) == Some(isDefault)))
  }

  ghost predicate Agrees(scopes: Scopes, st: State) {
    ListAgrees(scopes, st.table, st.defaults, true) && ListAgrees(scopes, st.table, st.optionals, false)
  }

  lemma ListAddAgrees(scopes: Scopes, table: Table, table': Table, list: seq<string>, id: ScopeId, isDefault: bool)
    requires UniqueNames(scopes) && id in scopes.names && ListAgrees(scopes, table, list, isDefault)
    requires forall x :: Lookup(table', x) == if x == id then Some(isDefault) else Lookup(table, x)
    ensures ListAgrees(scopes, table', ListAdd(list, scopes.names[id]), isDefault)
  {
    var name := scopes.names[id];
    CanonicalShape(if name in list then list else list + [name]);
  }

  lemma ListRemoveAgrees(scopes: Scopes, table: Table, table': Table, list: seq<string>, id: ScopeId, isDefault: bool)
    requires UniqueNames(scopes) && id in scopes.names && ListAgrees(scopes, table, list, isDefault)
    requires forall x :: x != id ==> Lookup(table', x) == Lookup(table, x)
    requires Lookup(table', id) != Some(isDefault)
    ensures ListAgrees(scopes, table', ListRemove(list, scopes.names[id]), isDefault)
  {
    CanonicalShape(Filter(list, scopes.names[id]));
  }

  lemma NextLookup(scopes: Scopes, st: State, op: Op, x: ScopeId)
    requires Outcome(scopes, st, op).Ok?
    ensures Lookup(Next(scopes, st, op).table, x) ==
            if x != op.id then Lookup(st.table, x) else if op.Assign? then Some(op.isDefault) else None
  {
    match op
    case Assign(id, isDefault) => UpsertLookup(st.table, id, isDefault, x);
    case Unassign(id) => DropLookup(st.table, id, x);
  }

  lemma NextAgrees(scopes: Scopes, st: State, op: Op)
    requires UniqueNames(scopes) && Agrees(scopes, st)
    ensures Agrees(scopes, Next(scopes, st, op))
  {
    if Outcome(scopes, st, op).Ok? {
      var st' := Next(scopes, st, op);
      forall x ensures Lookup(st'.table, x) ==
                       if x != op.id then Lookup(st.table, x) else if op.Assign? then Some(op.isDefault) else None
      {
        NextLookup(scopes, st, op, x);
      }
      if op.Assign? && op.isDefault {
        ListAddAgrees(scopes, st.table, st'.table, st.defaults, op.id, true);
        ListRemoveAgrees(scopes, st.table, st'.table, st.optionals, op.id, false);
      } else if op.Assign? {
        ListRemoveAgrees(scopes, st.table, st'.table, st.defaults, op.id, true);
        ListAddAgrees(scopes, st.table, st'.table, st.optionals, op.id, false);
      } else {
        ListRemoveAgrees(scopes, st.table, st'.table, st.defaults, op.id, true);
        ListRemoveAgrees(scopes, st.table, st'.table, st.optionals, op.id, false);
      }
    }
  }

  /** Every run keeps the table and both lists in agreement. */
  lemma {:induction false} RunAgrees(scopes: Scopes, st: State, ops: seq<Op>)
    requires UniqueNames(scopes) && Agrees(scopes, st)
    ensures Agrees(scopes, Run(scopes, st, ops))
  {
    if ops != [] {
      RunAgrees(scopes, st, ops[..|ops| - 1]);
      NextAgrees(scopes, Run(scopes, st, ops[..|ops| - 1]), ops[|ops| - 1]);
    }
  }

  /** No name is both a default and an optional scope. */
  lemma AgreeingListsAreDisjoint(scopes: Scopes, st: State, name: string)
    requires Agrees(scopes, st) && name in st.defaults
    ensures name !in st.optionals
  {
  }

  /** What the last accepted operation on the scope said, or `start` if there was none. */
  function LastWord(scopes: Scopes, ops: seq<Op>, id: ScopeId, start: Option<bool>): (r: Option<bool>)
    requires id in scopes.names
  {
    if ops == [] then start
    else
      var op := ops[|ops| - 1];
      if op.id == id && !(op.Assign? && op.isDefault && scopes.names[id] in scopes.reserved)
      then (if op.Assign? then Some(op.isDefault) else None)
      else LastWord(scopes, ops[..|ops| - 1], id, start)
  }

  lemma {:induction false} LastOperationWins(scopes: Scopes, st: State, ops: seq<Op>, id: ScopeId)
    requires id in scopes.names
    ensures Lookup(Run(scopes, st, ops).table, id) == LastWord(scopes, ops, id, Lookup(st.table, id))
  {
    if ops != [] {
      var before, op := Run(scopes, st, ops[..|ops| - 1]), ops[|ops| - 1];
      LastOperationWins(scopes, st, ops[..|ops| - 1], id);
      if Outcome(scopes, before, op).Ok? {
        NextLookup(scopes, before, op, id);
      }
    }
  }

  /** The lists after a run hold a scope's name exactly as its last operation says. */
  lemma ListsFollowLastOperation(scopes: Scopes, st: State, ops: seq<Op>, id: ScopeId)
    requires UniqueNames(scopes) && Agrees(scopes, st) && id in scopes.names
    ensures var end, word := Run(scopes, st, ops), LastWord(scopes, ops, id, Lookup(st.table, id));
            && (scopes.names[id] in end.defaults <==> word == Some(true))
            && (scopes.names[id] in end.optionals <==> word == Some(false))
  {
    RunAgrees(scopes, st, ops);
    LastOperationWins(scopes, st, ops, id);
  }

  lemma AgreeingListsAreEqual(scopes: Scopes, t: Table, u: Table, a: seq<string>, b: seq<string>, isDefault: bool)
    requires ListAgrees(scopes, t, a, isDefault) && ListAgrees(scopes, u, b, isDefault)
    requires forall id :: id in scopes.names ==> Lookup(t, id) == Lookup(u, id)
    ensures a == b
  {
    forall x ensures x in a <==> x in b {
      if x in a {
        var id :| id in scopes.names && scopes.names[id] == x;
      }
      if x in b {
        var id :| id in scopes.names && scopes.names[id] == x;
      }
    }
    IncreasingIsUnique(a, b);
  }

  /** Two runs that agree on the last word for every scope end with the very same lists. */
  lemma RunsAreDeterminedByLastWords(scopes: Scopes, st: State, ops: seq<Op>, other: seq<Op>)
    requires UniqueNames(scopes) && Agrees(scopes, st)
    requires forall id :: id in scopes.names ==>
                            LastWord(scopes, ops, id, Lookup(st.table, id)) == LastWord(scopes, other, id, Lookup(st.table, id))
    ensures Run(scopes, st, ops).defaults == Run(scopes, st, other).defaults
    ensures Run(scopes, st, ops).optionals == Run(scopes, st, other).optionals
  {
    var a, b := Run(scopes, st, ops), Run(scopes, st, other);
    RunAgrees(scopes, st, ops);
    RunAgrees(scopes, st, other);
    forall id | id in scopes.names ensures Lookup(a.table, id) == Lookup(b.table, id) {
      LastOperationWins(scopes, st, ops, id);
      LastOperationWins(scopes, st, other, id);
    }
    AgreeingListsAreEqual(scopes, a.table, b.table, a.defaults, b.defaults, true);
    AgreeingListsAreEqual(scopes, a.table, b.table, a.optionals, b.optionals, false);
  }

  // --- The endpoints -------------------------------------------------------

  class Client {
    var table: Table
    var defaults: seq<string>
    var optionals: seq<string>

    constructor (st: State)
      ensures Value() == st
    {
      table := st.table;
      defaults := st.defaults;
      optionals := st.optionals;
    }

    function Value(): (st: State)
      reads this
    {
      State(table, defaults, optionals)
    }

    method AssignScope(scopes: Scopes, id: ScopeId, isDefault: bool) returns (res: Result<(), ApiError>)
      modifies this
      ensures Value() == Next(scopes, old(Value()), Assign(id, isDefault))
      ensures res == (match Outcome(scopes, old(Value()), Assign(id, isDefault)) case Ok(_) => Ok(()) case Err(e) => Err(e))
    {
      if id !in scopes.names {
        return Err(NotFound);
      }
      var name := scopes.names[id];
      if isDefault && name in scopes.reserved {
        return Err(BadRequest);
      }
      table := Upsert(table, id, isDefault);
      if isDefault {
        defaults := ListAdd(defaults, name);
        optionals := ListRemove(optionals, name);
      } else {
        optionals := ListAdd(optionals, name);
        defaults := ListRemove(defaults, name);
      }
      return Ok(());
    }

    method UnassignScope(scopes: Scopes, id: ScopeId) returns (res: Result<(), ApiError>)
      modifies this
      ensures Value() == Next(scopes, old(Value()), Unassign(id))
      ensures res == (match Outcome(scopes, old(Value()), Unassign(id)) case Ok(_) => Ok(()) case Err(e) => Err(e))
    {
      if id !in scopes.names {
        return Err(NotFound);
      }
      var name := scopes.names[id];
      table := Drop(table, id);
      defaults := ListRemove(defaults, name);
      optionals := ListRemove(optionals, name);
      return Ok(());
    }
  }
}
