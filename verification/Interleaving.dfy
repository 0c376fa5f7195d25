/**
  Processes that advance by separate reads of shared contents, while anybody may replace the contents
  in between: what a process can have seen is a choice of moments in the history of writes.
 */
module Interleaving {
  datatype Sys<P, D> = Sys(db: D, live: map<nat, P>)

  datatype Event<P, D> = Write(db: D) | Arrive(id: nat, p: P) | Read(id: nat, fails: bool)

  function Next<P, D>(step: (P, D, bool) -> P, s: Sys<P, D>, e: Event<P, D>): (s': Sys<P, D>) {
    match e
    case Write(db) => s.(db := db)
    case Arrive(id, p) => if id in s.live then s else s.(live := s.live[id := p])
    case Read(id, fails) => if id in s.live then s.(live := s.live[id := step(s.live[id], s.db, fails)]) else s
  }

  function After<P, D>(step: (P, D, bool) -> P, s: Sys<P, D>, events: seq<Event<P, D>>): (s': Sys<P, D>) {
    if events == [] then s else Next(step, After(step, s, events[..|events| - 1]), events[|events| - 1])
  }

  // --- Histories -----------------------------------------------------------

  function Writes<P, D>(events: seq<Event<P, D>>): (r: seq<D>) {
    if events == [] then []
    else
      var n := |events| - 1;
      if events[n].Write? then Writes(events[..n]) + [events[n].db] else Writes(events[..n])
  }

  /** The contents from the start of the run on, one write after the other. */
  function History<P, D>(s: Sys<P, D>, events: seq<Event<P, D>>): (r: seq<D>)
    ensures r != []
  {
    [s.db] + Writes(events)
  }

  lemma {:induction false} HistoryEnds<P, D>(step: (P, D, bool) -> P, s: Sys<P, D>, events: seq<Event<P, D>>)
    ensures After(step, s, events).db == History(s, events)[|History(s, events)| - 1]
  {
    if events != [] {
      HistoryEnds(step, s, events[..|events| - 1]);
    }
  }

  /** Moments of a history, in order. */
  ghost predicate Rising(ks: seq<nat>, n: nat) {
    (forall i :: 0 <= i < |ks| ==> ks[i] < n) && forall i, j :: 0 <= i < j < |ks| ==> ks[i] <= ks[j]
  }

  function Reached(ks: seq<nat>): (k: nat) {
    if ks == [] then 0 else ks[|ks| - 1]
  }

  /** The reads of one process, one at each of the moments, none of them failing. */
  function Follow<P, D>(step: (P, D, bool) -> P, p: P, dbs: seq<D>, ks: seq<nat>): (r: P)
    requires forall i :: 0 <= i < |ks| ==> ks[i] < |dbs|
  {
    if ks == [] then p
    else
      var n := |ks| - 1;
      step(Follow(step, p, dbs, ks[..n]), dbs[ks[n]], false)
  }

  lemma FollowSnoc<P, D>(step: (P, D, bool) -> P, p: P, dbs: seq<D>, ks: seq<nat>, k: nat)
    requires Rising(ks, |dbs|) && k < |dbs| && Reached(ks) <= k
    ensures Rising(ks + [k], |dbs|) && Reached(ks + [k]) == k
    ensures Follow(step, p, dbs, ks + [k]) == step(Follow(step, p, dbs, ks), dbs[k], false)
  {
    assert (ks + [k])[..|ks|] == ks;
  }

  lemma {:induction false} FollowExtends<P, D>(step: (P, D, bool) -> P, p: P, dbs: seq<D>, more: seq<D>, ks: seq<nat>)
    requires Rising(ks, |dbs|)
    ensures Rising(ks, |dbs + more|) && Follow(step, p, dbs + more, ks) == Follow(step, p, dbs, ks)
  {
    if ks != [] {
      FollowExtends(step, p, dbs, more, ks[..|ks| - 1]);
    }
  }

  // --- What a run explains -------------------------------------------------

  /** Dead processes stay dead, and a failing read kills a process or leaves it alone. */
  ghost predicate Fatal<P(!new), D(!new)>(step: (P, D, bool) -> P, dead: P -> bool) {
    && (forall p, db, fails :: dead(p) ==> dead(step(p, db, fails)))
    && (forall p, db :: dead(step(p, db, true)) || step(p, db, true) == p)
  }

  ghost predicate Leads<P, D>(step: (P, D, bool) -> P, p: P, dbs: seq<D>, q: P) {
    exists ks: seq<nat> :: Rising(ks, |dbs|) && Follow(step, p, dbs, ks) == q
  }

  lemma ReadLeads<P, D>(step: (P, D, bool) -> P, p: P, dbs: seq<D>, q: P)
    requires dbs != [] && Leads(step, p, dbs, q)
    ensures Leads(step, p, dbs, step(q, dbs[|dbs| - 1], false))
  {
    var ks: seq<nat> :| Rising(ks, |dbs|) && Follow(step, p, dbs, ks) == q;
    FollowSnoc(step, p, dbs, ks, |dbs| - 1);
  }

  lemma WriteLeads<P, D>(step: (P, D, bool) -> P, p: P, dbs: seq<D>, db: D, q: P)
    requires Leads(step, p, dbs, q)
    ensures Leads(step, p, dbs + [db], q)
  {
    var ks: seq<nat> :| Rising(ks, |dbs|) && Follow(step, p, dbs, ks) == q;
    FollowExtends(step, p, dbs, [db], ks);
  }

  lemma ArriveLeads<P, D>(step: (P, D, bool) -> P, p: P, dbs: seq<D>)
    ensures Leads(step, p, dbs, p)
  {
    var none: seq<nat> := [];
    assert Rising(none, |dbs|) && Follow(step, p, dbs, none) == p;
  }

  /** Whenever process `id` starts, it starts as `p`. */
  ghost predicate StartsAs<P, D>(s: Sys<P, D>, events: seq<Event<P, D>>, id: nat, p: P) {
    id !in s.live && forall e :: e in events && e.Arrive? && e.id == id ==> e.p == p
  }

  /** In any run, whatever else goes on in it, a live process is where reads at moments of the history lead. */
  lemma {:induction false} RunLeads<P(!new), D(!new)>(step: (P, D, bool) -> P, dead: P -> bool, s: Sys<P, D>,
                                                      events: seq<Event<P, D>>, id: nat, p: P)
    requires Fatal(step, dead) && StartsAs(s, events, id, p)
    ensures var end := After(step, s, events);
            id in end.live && !dead(end.live[id]) ==> Leads(step, p, History(s, events), end.live[id])
  {
    if events != [] {
      var n := |events| - 1;
      var before, dbs, e := After(step, s, events[..n]), History(s, events[..n]), events[n];
      RunLeads(step, dead, s, events[..n], id, p);
      if id in before.live {
        if e.Write? && !dead(before.live[id]) {
          WriteLeads(step, p, dbs, e.db, before.live[id]);
          assert History(s, events) == dbs + [e.db];
        } else if e == Read(id, false) && !dead(before.live[id]) {
          HistoryEnds(step, s, events[..n]);
          ReadLeads(step, p, dbs, before.live[id]);
        }
      } else {
        ArriveLeads(step, p, dbs);
        assert e in events;
      }
    }
  }

  /** A process that no read moves stays as it is. */
  lemma {:induction false} RunKeepsStill<P(!new), D(!new)>(step: (P, D, bool) -> P, s: Sys<P, D>, events: seq<Event<P, D>>,
                                                           id: nat)
    requires id in s.live && forall db, fails :: step(s.live[id], db, fails) == s.live[id]
    ensures var end := After(step, s, events); id in end.live && end.live[id] == s.live[id]
  {
    if events != [] {
      RunKeepsStill(step, s, events[..|events| - 1], id);
    }
  }

  // --- A run for every choice of moments -----------------------------------

  lemma {:induction false} AfterSplits<P, D>(step: (P, D, bool) -> P, s: Sys<P, D>, a: seq<Event<P, D>>, b: seq<Event<P, D>>)
    ensures After(step, s, a + b) == After(step, After(step, s, a), b)
  {
    if b == [] {
      assert a + b == a;
    } else {
      assert (a + b)[..|a + b| - 1] == a + b[..|b| - 1];
      AfterSplits(step, s, a, b[..|b| - 1]);
    }
  }

  lemma {:induction false} WritesSplit<P, D>(a: seq<Event<P, D>>, b: seq<Event<P, D>>)
    ensures Writes(a + b) == Writes(a) + Writes(b)
  {
    if b == [] {
      assert a + b == a;
    } else {
      assert (a + b)[..|a + b| - 1] == a + b[..|b| - 1];
      WritesSplit(a, b[..|b| - 1]);
    }
  }

  /** The writes that lead from moment `a` to moment `b`. */
  function Moves<P, D>(dbs: seq<D>, a: nat, b: nat): (r: seq<Event<P, D>>)
    requires a <= b < |dbs|
    decreases b
  {
    if a == b then [] else Moves(dbs, a, b - 1) + [Write(dbs[b])]
  }

  lemma {:induction false} MovesLead<P, D>(step: (P, D, bool) -> P, dbs: seq<D>, a: nat, b: nat, s: Sys<P, D>)
    requires a <= b < |dbs| && s.db == dbs[a]
    ensures var moves: seq<Event<P, D>> := Moves(dbs, a, b);
            Writes(moves) == dbs[a + 1..b + 1] && After(step, s, moves) == s.(db := dbs[b])
    decreases b
  {
    if a < b {
      MovesLead(step, dbs, a, b - 1, s);
      var front: seq<Event<P, D>>, moves: seq<Event<P, D>> := Moves(dbs, a, b - 1), Moves(dbs, a, b);
      assert moves[..|front|] == front;
      assert dbs[a + 1..b] + [dbs[b]] == dbs[a + 1..b + 1];
    }
  }

  lemma ThenMoves<P, D>(step: (P, D, bool) -> P, s: Sys<P, D>, front: seq<Event<P, D>>, dbs: seq<D>, at: nat, k: nat)
    requires at <= k < |dbs| && After(step, s, front).db == dbs[at]
    ensures var events: seq<Event<P, D>> := front + Moves(dbs, at, k);
            Writes(events) == Writes(front) + dbs[at + 1..k + 1] && After(step, s, events) == After(step, s, front).(db := dbs[k])
  {
    var moves: seq<Event<P, D>> := Moves(dbs, at, k);
    MovesLead(step, dbs, at, k, After(step, s, front));
    AfterSplits(step, s, front, moves);
    WritesSplit(front, moves);
  }

  /** One process alone, reading at the given moments. */
  function Schedule<P, D>(p: P, dbs: seq<D>, ks: seq<nat>): (r: seq<Event<P, D>>)
    requires dbs != [] && Rising(ks, |dbs|)
  {
    if ks == [] then [Arrive(0, p)]
    else
      var n := |ks| - 1;
      Schedule(p, dbs, ks[..n]) + Moves(dbs, Reached(ks[..n]), ks[n]) + [Read(0, false)]
  }

  lemma MovesThenRead<P, D>(step: (P, D, bool) -> P, s: Sys<P, D>, front: seq<Event<P, D>>, dbs: seq<D>, at: nat, k: nat)
    requires at <= k < |dbs| && After(step, s, front).db == dbs[at]
    ensures var events: seq<Event<P, D>> := front + Moves(dbs, at, k) + [Read(0, false)];
            && Writes(events) == Writes(front) + dbs[at + 1..k + 1]
            && After(step, s, events) == Next(step, After(step, s, front).(db := dbs[k]), Read(0, false))
  {
    var moves: seq<Event<P, D>> := Moves(dbs, at, k);
    ThenMoves(step, s, front, dbs, at, k);
    assert (front + moves + [Read(0, false)])[..|front + moves|] == front + moves;
  }

  lemma ReadAlone<P, D>(step: (P, D, bool) -> P, p: P, db: D)
    ensures Next(step, Sys(db, map[0 := p]), Read(0, false)) == Sys(db, map[0 := step(p, db, false)])
  {
    var live := map[0 := p];
    assert live[0 := step(p, db, false)] == map[0 := step(p, db, false)];
  }

  lemma SlicesJoin<D>(dbs: seq<D>, a: nat, b: nat, c: nat)
    requires a <= b <= c <= |dbs|
    ensures dbs[a..b] + dbs[b..c] == dbs[a..c]
  {
  }

  lemma {:induction false} ScheduleFollows<P, D>(step: (P, D, bool) -> P, p: P, dbs: seq<D>, ks: seq<nat>)
    requires dbs != [] && Rising(ks, |dbs|)
    ensures var s, events := Sys(dbs[0], map[]), Schedule(p, dbs, ks);
            && Writes(events) == dbs[1..Reached(ks) + 1]
            && After(step, s, events) == Sys(dbs[Reached(ks)], map[0 := Follow(step, p, dbs, ks)])
  {
    var s: Sys<P, D> := Sys(dbs[0], map[]);
    if ks == [] {
      var events: seq<Event<P, D>> := [Arrive(0, p)];
      assert events[..0] == [];
    } else {
      var n := |ks| - 1;
      var front, at := Schedule(p, dbs, ks[..n]), Reached(ks[..n]);
      ScheduleFollows(step, p, dbs, ks[..n]);
      MovesThenRead(step, s, front, dbs, at, ks[n]);
      SlicesJoin(dbs, 1, at + 1, ks[n] + 1);
      ReadAlone(step, Follow(step, p, dbs, ks[..n]), dbs[ks[n]]);
    }
  }

  /** A run from the first contents, with exactly these writes, in which a process that starts as `p` becomes `q`. */
  ghost predicate Becomes<P, D>(step: (P, D, bool) -> P, p: P, q: P, dbs: seq<D>, events: seq<Event<P, D>>)
    requires dbs != []
  {
    var s := Sys(dbs[0], map[]);
    && StartsAs(s, events, 0, p) && History(s, events) == dbs
    && 0 in After(step, s, events).live && After(step, s, events).live[0] == q
  }

  ghost predicate OnlyArrives<P, D>(events: seq<Event<P, D>>, p: P) {
    forall e :: e in events && e.Arrive? ==> e.p == p
  }

  lemma OnlyArrivesJoins<P, D>(a: seq<Event<P, D>>, b: seq<Event<P, D>>, p: P)
    requires OnlyArrives(a, p) && OnlyArrives(b, p)
    ensures OnlyArrives(a + b, p)
  {
  }

  lemma {:induction false} MovesArriveNobody<P, D>(dbs: seq<D>, a: nat, b: nat, p: P)
    requires a <= b < |dbs|
    ensures OnlyArrives(Moves(dbs, a, b), p)
    decreases b
  {
    if a < b {
      MovesArriveNobody(dbs, a, b - 1, p);
      OnlyArrivesJoins(Moves(dbs, a, b - 1), [Write(dbs[b])], p);
    }
  }

  lemma {:induction false} ScheduleStarts<P, D>(p: P, dbs: seq<D>, ks: seq<nat>)
    requires dbs != [] && Rising(ks, |dbs|)
    ensures OnlyArrives(Schedule(p, dbs, ks), p)
  {
    if ks != [] {
      var n := |ks| - 1;
      var front: seq<Event<P, D>> := Schedule(p, dbs, ks[..n]);
      var moves: seq<Event<P, D>> := Moves(dbs, Reached(ks[..n]), ks[n]);
      ScheduleStarts(p, dbs, ks[..n]);
      MovesArriveNobody(dbs, Reached(ks[..n]), ks[n], p);
      OnlyArrivesJoins(front, moves, p);
      OnlyArrivesJoins(front + moves, [Read(0, false)], p);
    }
  }

  lemma ScheduleToTheEnd<P, D>(step: (P, D, bool) -> P, p: P, dbs: seq<D>, ks: seq<nat>, events: seq<Event<P, D>>)
    requires dbs != [] && Rising(ks, |dbs|) && events == Schedule(p, dbs, ks) + Moves(dbs, Reached(ks), |dbs| - 1)
    ensures Writes(events) == dbs[1..|dbs|]
    ensures After(step, Sys(dbs[0], map[]), events) == Sys(dbs[|dbs| - 1], map[0 := Follow(step, p, dbs, ks)])
  {
    ScheduleFollows(step, p, dbs, ks);
    ThenMoves(step, Sys(dbs[0], map[]), Schedule(p, dbs, ks), dbs, Reached(ks), |dbs| - 1);
    SlicesJoin(dbs, 1, Reached(ks) + 1, |dbs|);
  }

  lemma RunFor<P, D>(step: (P, D, bool) -> P, p: P, dbs: seq<D>, ks: seq<nat>) returns (events: seq<Event<P, D>>)
    requires dbs != [] && Rising(ks, |dbs|)
    ensures Becomes(step, p, Follow(step, p, dbs, ks), dbs, events)
  {
    events := Schedule(p, dbs, ks) + Moves(dbs, Reached(ks), |dbs| - 1);
    ScheduleToTheEnd(step, p, dbs, ks, events);
    ScheduleStarts(p, dbs, ks);
    MovesArriveNobody(dbs, Reached(ks), |dbs| - 1, p);
    OnlyArrivesJoins(Schedule(p, dbs, ks), Moves(dbs, Reached(ks), |dbs| - 1), p);
    assert [dbs[0]] + dbs[1..] == dbs;
  }

  /**
    Exactly which histories of writes take a process from `p` to `q`: those with moments, in order,
    at which its reads one after the other lead there.
   */
  lemma InterleavingExact<P(!new), D(!new)>(step: (P, D, bool) -> P, dead: P -> bool, p: P, q: P, dbs: seq<D>)
    requires dbs != [] && Fatal(step, dead) && !dead(q)
    ensures (exists events :: Becomes(step, p, q, dbs, events)) <==> Leads(step, p, dbs, q)
  {
    if events :| Becomes(step, p, q, dbs, events) {
      RunLeads(step, dead, Sys(dbs[0], map[]), events, 0, p);
    }
    if Leads(step, p, dbs, q) {
      var ks: seq<nat> :| Rising(ks, |dbs|) && Follow(step, p, dbs, ks) == q;
      var events := RunFor(step, p, dbs, ks);
    }
  }
}
