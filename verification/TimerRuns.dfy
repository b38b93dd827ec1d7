/** The timers of voyager/core/timerlist.cc as a value: what callbacks, calls of RunTimerProcs and
    whole runs do to them. */
module TimerRuns {
  import opened TimerClock

  // ----- The list as a value -----

  /** What a timer callback does to the list; clock is what the clock says at an insertion. */
  datatype Action = DoInsert(value: nat, interval: nat, proc: seq<Action>, clock: nat) | DoErase(id: nat)

  datatype Timer = Timer(value: nat, interval: nat, proc: seq<Action>)

  /** erased and spent are the timers that were erased and the one-shot timers that have fired; an
      inserted timer gets the next identity. */
  datatype List = List(heap: map<nat, Timer>, born: map<nat, Birth>, nextId: nat, erased: set<nat>,
                       spent: set<nat>, last: nat)

  predicate Aged(t: Timer, b: Birth, last: nat) {
    t.value == Value(b.last, b.asked, b.readings) && last == Reading(b.last, b.readings)
  }

  /** Every timer ever set is pending, erased or spent, and the pending ones stand where the
      readings have moved them. */
  ghost predicate Sound(s: List) {
    s.heap.Keys == s.born.Keys && s.heap.Keys !! s.erased && s.heap.Keys !! s.spent && s.erased !! s.spent &&
    (forall id :: id in s.heap || id in s.erased || id in s.spent ==> id < s.nextId) &&
    (forall id :: 0 <= id < s.nextId ==> id in s.heap || id in s.erased || id in s.spent) &&
    (forall id :: id in s.heap ==> Aged(s.heap[id], s.born[id], s.last))
  }

  ghost function DueIn(heap: map<nat, Timer>, now: nat): set<nat> { set id | id in heap && heap[id].value <= now }

  function Inserted(s: List, value: nat, interval: nat, proc: seq<Action>, clock: nat): List {
    s.(heap := s.heap[s.nextId := Timer(value, interval, proc)],
       born := s.born[s.nextId := Birth(clock, s.last, value, [])], nextId := s.nextId + 1)
  }

  function Gone(s: List, id: nat): List {
    if id in s.heap then s.(heap := s.heap - {id}, born := s.born - {id}, erased := s.erased + {id}) else s
  }

  function Did(s: List, a: Action): List {
    match a
    case DoInsert(value, interval, proc, clock) => Inserted(s, value, interval, proc, clock)
    case DoErase(id) => Gone(s, id)
  }

  function Ran(s: List, proc: seq<Action>): List {
    if proc == [] then s else Did(Ran(s, proc[..|proc| - 1]), proc[|proc| - 1])
  }

  /** A timer whose turn it is: put back for its next turn, or freed. */
  function Taken(s: List, id: nat, now: nat): List
    requires id in s.heap
  {
    var t := s.heap[id];
    if t.interval > 0 then
      s.(heap := s.heap[id := t.(value := now + t.interval)],
         born := s.born[id := Birth(now, s.last, now + t.interval, [])])
    else s.(heap := s.heap - {id}, born := s.born - {id}, spent := s.spent + {id})
  }

  function FiredOne(s: List, id: nat, now: nat): List {
    if id in s.heap then Ran(Taken(s, id, now), s.heap[id].proc) else s
  }

  function ReadClock(s: List, now: nat): List {
    s.(heap := if now < s.last then map id | id in s.heap :: s.heap[id].(value := Shifted(s.heap[id].value, s.last - now)) else s.heap,
       born := map id | id in s.born :: s.born[id].(readings := s.born[id].readings + [now]),
       last := now)
  }

  /** After these timers have fired, one after the other. */
  function After(s: List, now: nat, ids: seq<nat>): List {
    if ids == [] then s else FiredOne(After(s, now, ids[..|ids| - 1]), ids[|ids| - 1], now)
  }

  ghost predicate Earliest(s: List, id: nat, now: nat) {
    id in s.heap && s.heap[id].value <= now && forall other :: other in s.heap ==> s.heap[id].value <= s.heap[other].value
  }

  /** Each of them fires when it is due and none is due earlier. */
  ghost predicate InTurn(s: List, now: nat, ids: seq<nat>) {
    ids == [] ||
    (InTurn(s, now, ids[..|ids| - 1]) && Earliest(After(s, now, ids[..|ids| - 1]), ids[|ids| - 1], now))
  }

  /** Callbacks only insert timers that are not due yet; otherwise one call could run for ever. */
  predicate Later(proc: seq<Action>, now: nat) {
    forall a :: a in proc && a.DoInsert? ==> a.value > now
  }

  ghost predicate DueAreLater(s: List, now: nat) {
    forall id :: id in DueIn(s.heap, now) ==> Later(s.heap[id].proc, now)
  }

  // ----- What each step keeps -----

  lemma InsertedSound(s: List, value: nat, interval: nat, proc: seq<Action>, clock: nat)
    requires Sound(s)
    ensures Sound(Inserted(s, value, interval, proc, clock)) && s.nextId !in s.heap
    ensures var t := Inserted(s, value, interval, proc, clock);
      Lives(DoInsert(value, interval, proc, clock), s.nextId, t) && s.nextId in t.heap && t.nextId == s.nextId + 1 &&
      forall id :: id in s.heap ==> Same(s, t, id)
  {
  }

  lemma GoneSound(s: List, id: nat)
    requires Sound(s)
    ensures Sound(Gone(s, id))
    ensures var t := Gone(s, id);
      id !in t.heap && (id in s.heap ==> id in t.erased) && t.nextId == s.nextId &&
      forall other :: other in s.heap && other != id ==> Same(s, t, other)
  {
  }

  lemma TakenSound(s: List, id: nat, now: nat)
    requires Sound(s) && id in s.heap && s.last == now
    ensures Sound(Taken(s, id, now))
  {
  }

  lemma ReadClockSound(s: List, now: nat)
    requires Sound(s)
    ensures Sound(ReadClock(s, now))
  {
    var t := ReadClock(s, now);
    forall id | id in t.heap ensures Aged(t.heap[id], t.born[id], now) {
      var rs := s.born[id].readings;
      assert (rs + [now])[..|rs|] == rs;
    }
  }

  /** The timer is still there, as it was. */
  ghost predicate Same(s: List, t: List, id: nat) {
    id in s.heap && id in t.heap && id in s.born && id in t.born && t.heap[id] == s.heap[id] && t.born[id] == s.born[id]
  }

  predicate IsOf(a: Action, t: Timer) { a.DoInsert? && t == Timer(a.value, a.interval, a.proc) }

  // What becomes of the timers that a callback sets.

  function Inserts(proc: seq<Action>): seq<Action> {
    if proc == [] then []
    else
      var n := |proc| - 1;
      Inserts(proc[..n]) + if proc[n].DoInsert? then [proc[n]] else []
  }

  /** The timer is in the list as it was set, or has been erased. */
  ghost predicate Lives(a: Action, id: nat, t: List) {
    if id in t.heap then IsOf(a, t.heap[id]) && id in t.born && t.born[id] == Birth(a.clock, t.last, a.value, [])
    else id in t.erased
  }

  /** Each insertion got the next identity. */
  ghost predicate Placed(inserts: seq<Action>, first: nat, t: List) {
    t.nextId == first + |inserts| && forall k :: 0 <= k < |inserts| ==> Lives(inserts[k], first + k, t)
  }

  lemma {:induction false} RanPlaces(s: List, proc: seq<Action>)
    requires Sound(s)
    ensures Placed(Inserts(proc), s.nextId, Ran(s, proc))
    decreases |proc|
  {
    if proc != [] {
      var n := |proc| - 1;
      RanPlaces(s, proc[..n]);
      RanWent(s, proc[..n]);
      var t := Ran(s, proc[..n]);
      match proc[n] {
        case DoInsert(value, interval, p, clock) => InsertedSound(t, value, interval, p, clock);
        case DoErase(id) => GoneSound(t, id);
      }
      hide Aged, Went;
    }
  }

  /** Insertions of before stay where a turn leaves the others. */
  lemma PlacedOn(before: seq<Action>, more: seq<Action>, first: nat, t: List, id: nat, u: List)
    requires Placed(before, first, t) && Placed(more, t.nextId, u) && id < first
    requires TurnedOthers(t, id, u) && t.erased <= u.erased && t.erased !! u.heap.Keys && t.last == u.last
    ensures Placed(before + more, first, u)
  {
    var all := before + more;
    forall k | 0 <= k < |all| ensures Lives(all[k], first + k, u) {
      if k < |before| {
        assert Lives(before[k], first + k, t);
      } else {
        assert Lives(more[k - |before|], t.nextId + (k - |before|), u);
      }
    }
  }

  /** What a callback may have done to the list: the timers that were there are as they were, or
      erased by it; the new ones are those that it inserted. */
  ghost predicate Went(s: List, proc: seq<Action>, t: List) {
    Sound(t) && t.last == s.last && t.spent == s.spent && Remaining(s, t) && Erasures(s, proc, t) && Insertions(s, proc, t)
  }

  ghost predicate Remaining(s: List, t: List) {
    s.erased <= t.erased && forall id :: id in s.heap ==> if id in t.heap then Same(s, t, id) else id in t.erased
  }

  ghost predicate Erasures(s: List, proc: seq<Action>, t: List) {
    (forall id :: id in t.erased && id !in s.erased ==> DoErase(id) in proc) &&
    (forall id :: id in s.heap && DoErase(id) in proc ==> id in t.erased)
  }

  ghost predicate Insertions(s: List, proc: seq<Action>, t: List) {
    s.nextId <= t.nextId &&
    forall id :: id in t.heap && id !in s.heap ==> id >= s.nextId && exists a :: a in proc && IsOf(a, t.heap[id])
  }

  lemma {:induction false} RanWent(s: List, proc: seq<Action>)
    requires Sound(s)
    ensures Went(s, proc, Ran(s, proc))
    decreases |proc|
  {
    if proc != [] {
      var n := |proc| - 1;
      var t := Ran(s, proc[..n]);
      RanWent(s, proc[..n]);
      WentOn(s, proc[..n], t, proc[n]);
      assert proc[..n] + [proc[n]] == proc;
    }
  }

  lemma WentOn(s: List, proc: seq<Action>, t: List, a: Action)
    requires Sound(s) && Went(s, proc, t)
    ensures Went(s, proc + [a], Did(t, a))
  {
    match a {
      case DoInsert(_, _, _, _) => WentOnInserting(s, proc, t, a);
      case DoErase(id) => WentOnErasing(s, proc, t, id);
    }
  }

  lemma WentOnInserting(s: List, proc: seq<Action>, t: List, a: Action)
    requires Sound(s) && Went(s, proc, t) && a.DoInsert?
    ensures Went(s, proc + [a], Did(t, a))
  {
    var u, more := Did(t, a), proc + [a];
    InsertedSound(t, a.value, a.interval, a.proc, a.clock);
    InsertionsGrow(s, proc, t, a);
    assert t.nextId !in s.heap;
    assert Erasures(s, more, u) by {
      assert forall id :: DoErase(id) in more <==> DoErase(id) in proc;
    }
    assert Remaining(s, u);
    hide *;
  }

  lemma InsertionsGrow(s: List, proc: seq<Action>, t: List, a: Action)
    requires Sound(s) && Insertions(s, proc, t) && a.DoInsert?
    ensures Insertions(s, proc + [a], Did(t, a))
  {
    var u, more := Did(t, a), proc + [a];
    hide Sound;
    assert a in more && forall b :: b in proc ==> b in more;
    forall id | id in u.heap && id !in s.heap ensures exists b :: b in more && IsOf(b, u.heap[id]) {
      if id == t.nextId {
        assert IsOf(a, u.heap[id]);
      } else {
        var b :| b in proc && IsOf(b, t.heap[id]);
        assert b in more;
      }
    }
  }

  lemma WentOnErasing(s: List, proc: seq<Action>, t: List, gone: nat)
    requires Sound(s) && Went(s, proc, t)
    ensures Went(s, proc + [DoErase(gone)], Gone(t, gone))
  {
    var u, more := Gone(t, gone), proc + [DoErase(gone)];
    GoneSound(t, gone);
    InsertionsOn(s, proc, t, gone);
    assert Remaining(s, u);
    ErasuresOn(s, proc, t, gone);
    hide *;
  }

  lemma InsertionsOn(s: List, proc: seq<Action>, t: List, gone: nat)
    requires Insertions(s, proc, t)
    ensures Insertions(s, proc + [DoErase(gone)], Gone(t, gone))
  {
    var u, more := Gone(t, gone), proc + [DoErase(gone)];
    assert forall b :: b in proc ==> b in more;
    forall id | id in u.heap && id !in s.heap ensures exists b :: b in more && IsOf(b, u.heap[id]) {
      var b :| b in proc && IsOf(b, t.heap[id]);
      assert b in more;
    }
  }

  lemma ErasuresOn(s: List, proc: seq<Action>, t: List, gone: nat)
    requires Sound(s) && Went(s, proc, t)
    ensures Erasures(s, proc + [DoErase(gone)], Gone(t, gone))
  {
    var more := proc + [DoErase(gone)];
    hide Aged, Insertions;
    assert DoErase(gone) in more && forall id :: DoErase(id) in more <==> DoErase(id) in proc || id == gone;
  }

  /** What a turn does: the timers that were there, but for the one that fires, are as they were,
      or erased by its callback; the one that fires is spent, due again an interval from now, or
      erased; and nothing becomes due. */
  ghost predicate Turned(s: List, id: nat, now: nat, t: List)
    requires id in s.heap
  {
    Sound(t) && t.last == s.last && TurnedSelf(s, id, now, t) && TurnedOthers(s, id, t) &&
    TurnedErased(s, id, t) && (forall other :: other in t.heap && other !in s.heap ==> t.heap[other].value > now)
  }

  ghost predicate TurnedSelf(s: List, id: nat, now: nat, t: List)
    requires id in s.heap
  {
    var timer := s.heap[id];
    t.spent == (if timer.interval == 0 then s.spent + {id} else s.spent) &&
    if timer.interval == 0 then id !in t.heap
    else if id in t.heap then t.heap[id] == timer.(value := now + timer.interval)
    else id in t.erased
  }

  ghost predicate TurnedOthers(s: List, id: nat, t: List) {
    forall other :: other in s.heap && other != id ==> if other in t.heap then Same(s, t, other) else other in t.erased
  }

  ghost predicate TurnedErased(s: List, id: nat, t: List)
    requires id in s.heap
  {
    s.erased <= t.erased &&
    (forall other :: other in t.erased && other !in s.erased ==> DoErase(other) in s.heap[id].proc) &&
    (forall other :: other in s.heap && other != id && DoErase(other) in s.heap[id].proc ==> other in t.erased)
  }

  lemma FiredOneTurns(s: List, id: nat, now: nat)
    requires Sound(s) && s.last == now && id in s.heap && Later(s.heap[id].proc, now)
    ensures Turned(s, id, now, FiredOne(s, id, now))
  {
    var proc, u := s.heap[id].proc, Taken(s, id, now);
    var t := Ran(u, proc);
    TakenSound(s, id, now);
    RanWent(u, proc);
    assert id !in u.spent ==> id in u.heap;
    assert id !in u.heap ==> id in u.spent && u.spent == t.spent;
    assert TurnedSelf(s, id, now, t) by {
      hide Aged, Erasures, Insertions, Ran;
    }
    OthersTurn(s, id, now, t);
    NewAreLater(s, id, now, t);
    hide *;
  }

  lemma OthersTurn(s: List, id: nat, now: nat, t: List)
    requires Sound(s) && id in s.heap && Went(Taken(s, id, now), s.heap[id].proc, t)
    ensures TurnedOthers(s, id, t) && TurnedErased(s, id, t)
  {
    var u := Taken(s, id, now);
    hide Aged, Insertions;
    assert u.erased == s.erased;
    assert forall other :: other in s.heap && other != id ==> Same(s, u, other);
  }

  lemma NewAreLater(s: List, id: nat, now: nat, t: List)
    requires id in s.heap && Went(Taken(s, id, now), s.heap[id].proc, t) && Later(s.heap[id].proc, now)
    ensures forall other :: other in t.heap && other !in s.heap ==> t.heap[other].value > now
  {
    var u := Taken(s, id, now);
    hide Sound, Remaining, Erasures;
    forall other | other in t.heap && other !in s.heap ensures t.heap[other].value > now {
      assert other !in u.heap;
      var a :| a in s.heap[id].proc && IsOf(a, t.heap[other]);
    }
  }

  lemma FiredOnePlaces(s: List, id: nat, now: nat)
    requires Sound(s) && s.last == now && id in s.heap
    ensures Placed(Inserts(s.heap[id].proc), s.nextId, FiredOne(s, id, now))
  {
    TakenSound(s, id, now);
    RanPlaces(Taken(s, id, now), s.heap[id].proc);
    hide Sound, Ran, Inserts;
  }

  // ----- What one call of RunTimerProcs does -----

  /** The insertions of the callbacks of these timers, in order. */
  function InsertsOf(s: List, ids: seq<nat>): seq<Action> {
    if ids == [] then []
    else
      var n := |ids| - 1;
      InsertsOf(s, ids[..n]) + if ids[n] in s.heap then Inserts(s.heap[ids[n]].proc) else []
  }

  /** After any number of turns each timer that a callback set is in the list as it was set, under
      the identity that its turn gave it, or has been erased; and no identity is given otherwise. */
  lemma {:induction false} InTurnPlaces(s: List, now: nat, ids: seq<nat>)
    requires Sound(s) && s.last == now && DueAreLater(s, now) && InTurn(s, now, ids)
    ensures Placed(InsertsOf(s, ids), s.nextId, After(s, now, ids))
    decreases |ids|
  {
    if ids != [] {
      var n := |ids| - 1;
      var t, id := After(s, now, ids[..n]), ids[n];
      LastTurn(s, now, ids);
      InTurnPlaces(s, now, ids[..n]);
      InTurnProgresses(s, now, ids[..n]);
      Grounds(s, now, ids[..n], t);
      NextIsLater(s, now, ids[..n], t, id);
      FiredOneTurns(t, id, now);
      FiredOnePlaces(t, id, now);
      NextWasThere(s, now, ids[..n], t, id);
      TurnedBounds(t, id, now, FiredOne(t, id, now));
      PlacedOn(InsertsOf(s, ids[..n]), Inserts(s.heap[id].proc), s.nextId, t, id, FiredOne(t, id, now));
      assert InsertsOf(s, ids) == InsertsOf(s, ids[..n]) + Inserts(s.heap[id].proc);
      hide *;
    }
  }

  lemma NextWasThere(s: List, now: nat, ids: seq<nat>, t: List, id: nat)
    requires Sound(s) && Progress(s, now, ids, t) && Earliest(t, id, now)
    ensures id in s.heap && id < s.nextId && t.heap[id] == s.heap[id]
  {
    assert id in DueIn(t.heap, now);
    hide Aged, Rearmed, Kept, Fair, ErasedByCallbacks;
  }

  lemma TurnedBounds(s: List, id: nat, now: nat, t: List)
    requires id in s.heap && Turned(s, id, now, t)
    ensures TurnedOthers(s, id, t) && s.erased <= t.erased && s.erased !! t.heap.Keys && s.last == t.last
  {
    hide Aged;
  }

  /** What became of the timers that fired. */
  ghost predicate Rearmed(s: List, now: nat, ids: seq<nat>, t: List) {
    forall id :: id in ids && id in s.heap ==> BecameOf(s, now, id, t)
  }

  /** A one-shot timer is spent, a periodic one due an interval from now unless it was erased. */
  ghost predicate BecameOf(s: List, now: nat, id: nat, t: List)
    requires id in s.heap
  {
    var timer := s.heap[id];
    if timer.interval == 0 then id in t.spent && id !in t.heap
    else if id in t.heap then t.heap[id] == timer.(value := now + timer.interval)
    else id in t.erased
  }

  /** What became of those that did not: nothing, unless a callback erased them. */
  ghost predicate Kept(s: List, ids: seq<nat>, t: List) {
    forall id :: id in s.heap && id !in ids ==> if id in t.heap then Same(s, t, id) else id in t.erased
  }

  predicate Distinct(ids: seq<nat>) {
    forall i, j :: 0 <= i < j < |ids| ==> ids[i] != ids[j]
  }

  /** Who fires: due timers only, earlier deadlines first, none after a callback erased it. */
  ghost predicate Fair(s: List, now: nat, ids: seq<nat>) {
    Distinct(ids) && (forall id :: id in ids ==> id in DueIn(s.heap, now)) &&
    (forall i, j :: 0 <= i < j < |ids| ==> Precedes(s, ids[i], ids[j]))
  }

  ghost predicate Precedes(s: List, id: nat, other: nat) {
    id in s.heap && other in s.heap && s.heap[id].value <= s.heap[other].value &&
    DoErase(other) !in s.heap[id].proc
  }

  /** Timers are erased by callbacks that run, and by nothing else. */
  ghost predicate ErasedByCallbacks(s: List, ids: seq<nat>, t: List) {
    s.erased <= t.erased &&
    forall other :: other in t.erased && other !in s.erased ==>
      exists id :: id in ids && id in s.heap && DoErase(other) in s.heap[id].proc
  }

  /** Those that are still due are those of the beginning that have neither fired nor been erased. */
  ghost predicate StillDue(s: List, now: nat, ids: seq<nat>, t: List) {
    forall other :: other in DueIn(t.heap, now) ==>
      other in DueIn(s.heap, now) && other !in ids && t.heap[other] == s.heap[other] &&
      forall id :: id in ids ==> Precedes(s, id, other)
  }

  ghost predicate Progress(s: List, now: nat, ids: seq<nat>, t: List) {
    Sound(t) && t.last == now && Rearmed(s, now, ids, t) && Kept(s, ids, t) && Fair(s, now, ids) &&
    ErasedByCallbacks(s, ids, t) && StillDue(s, now, ids, t)
  }

  lemma NothingFired(s: List, now: nat)
    requires Sound(s) && s.last == now
    ensures Progress(s, now, [], s)
  {
  }

  lemma LastTurn(s: List, now: nat, ids: seq<nat>)
    requires ids != [] && InTurn(s, now, ids)
    ensures var n := |ids| - 1;
      var t := After(s, now, ids[..n]);
      InTurn(s, now, ids[..n]) && Earliest(t, ids[n], now) && After(s, now, ids) == FiredOne(t, ids[n], now) &&
      ids[..n] + [ids[n]] == ids
  {
    hide FiredOne, Earliest;
  }

  lemma NextIsLater(s: List, now: nat, ids: seq<nat>, t: List, id: nat)
    requires DueAreLater(s, now) && Progress(s, now, ids, t) && Earliest(t, id, now)
    ensures id in t.heap && Later(t.heap[id].proc, now)
  {
    hide Sound, Rearmed, Kept, Fair, ErasedByCallbacks, Later;
    assert id in DueIn(t.heap, now);
  }

  lemma Grounds(s: List, now: nat, ids: seq<nat>, t: List)
    requires Progress(s, now, ids, t)
    ensures Sound(t) && t.last == now
  {
  }

  lemma {:induction false} InTurnProgresses(s: List, now: nat, ids: seq<nat>)
    requires Sound(s) && s.last == now && DueAreLater(s, now) && InTurn(s, now, ids)
    ensures Progress(s, now, ids, After(s, now, ids))
    decreases |ids|
  {
    if ids == [] {
      NothingFired(s, now);
    } else {
      hide *;
      var n := |ids| - 1;
      LastTurn(s, now, ids);
      InTurnProgresses(s, now, ids[..n]);
      var t := After(s, now, ids[..n]);
      Grounds(s, now, ids[..n], t);
      NextIsLater(s, now, ids[..n], t, ids[n]);
      FiredOneTurns(t, ids[n], now);
      Onward(s, now, ids[..n], t, ids[n], FiredOne(t, ids[n], now));
    }
  }

  lemma Onward(s: List, now: nat, ids: seq<nat>, t: List, id: nat, u: List)
    requires Sound(s) && Progress(s, now, ids, t) && Earliest(t, id, now) && Turned(t, id, now, u)
    ensures Progress(s, now, ids + [id], u)
  {
    assert id in DueIn(t.heap, now) && id in DueIn(s.heap, now);
    hide Sound;
    OnwardRearmed(s, now, ids, t, id, u);
    OnwardKept(s, now, ids, t, id, u);
    OnwardFair(s, now, ids, t, id, u);
    OnwardErased(s, now, ids, t, id, u);
    OnwardDue(s, now, ids, t, id, u);
  }

  lemma OnwardRearmed(s: List, now: nat, ids: seq<nat>, t: List, id: nat, u: List)
    requires Sound(s) && Progress(s, now, ids, t) && id in DueIn(t.heap, now) && Turned(t, id, now, u)
    ensures Rearmed(s, now, ids + [id], u)
  {
    assert id in s.heap && id !in ids && t.heap[id] == s.heap[id];
    forall other | other in ids + [id] && other in s.heap ensures BecameOf(s, now, other, u) {
      if other != id {
        assert other in ids && BecameOf(s, now, other, t);
        assert other in t.heap ==> other !in t.spent;
      }
    }
  }

  lemma OnwardKept(s: List, now: nat, ids: seq<nat>, t: List, id: nat, u: List)
    requires Sound(s) && Progress(s, now, ids, t) && id in DueIn(t.heap, now) && Turned(t, id, now, u)
    ensures Kept(s, ids + [id], u)
  {
    hide Aged, Fair, ErasedByCallbacks, StillDue, Rearmed, DueIn;
  }

  lemma OnwardFair(s: List, now: nat, ids: seq<nat>, t: List, id: nat, u: List)
    requires Progress(s, now, ids, t) && id in DueIn(t.heap, now)
    ensures Fair(s, now, ids + [id])
  {
    hide Sound, Rearmed, Kept, ErasedByCallbacks, Precedes;
  }

  lemma OnwardErased(s: List, now: nat, ids: seq<nat>, t: List, id: nat, u: List)
    requires Progress(s, now, ids, t) && id in DueIn(t.heap, now) && Turned(t, id, now, u)
    ensures ErasedByCallbacks(s, ids + [id], u)
  {
    assert id in s.heap && t.heap[id] == s.heap[id];
    hide Sound, Rearmed, Kept, Fair, StillDue, DueIn;
    var more := ids + [id];
    assert id in more;
    forall other | other in u.erased && other !in s.erased
      ensures exists eraser :: eraser in more && eraser in s.heap && DoErase(other) in s.heap[eraser].proc
    {
      if other in t.erased {
        var eraser :| eraser in ids && eraser in s.heap && DoErase(other) in s.heap[eraser].proc;
        assert eraser in more;
      } else {
        assert DoErase(other) in s.heap[id].proc;
      }
    }
  }

  lemma OnwardDue(s: List, now: nat, ids: seq<nat>, t: List, id: nat, u: List)
    requires Progress(s, now, ids, t) && Earliest(t, id, now) && Turned(t, id, now, u)
    ensures StillDue(s, now, ids + [id], u)
  {
    assert id in DueIn(t.heap, now) && id in s.heap && t.heap[id] == s.heap[id];
    assert Sound(u);
    forall other | other in DueIn(u.heap, now)
      ensures other in DueIn(s.heap, now) && other !in ids + [id] && u.heap[other] == s.heap[other]
      ensures forall before :: before in ids + [id] ==> Precedes(s, before, other)
    {
      assert other != id && other in t.heap;
      assert other in DueIn(t.heap, now);
      assert other !in u.erased;
      assert Precedes(s, id, other);
    }
  }

  /** A call that fires these timers in turn until nothing is due: a timer fires if and only if it
      is due and no callback before its turn erases it; and whatever was due later is still there,
      unless a callback erased it. */
  lemma FiresExactly(s: List, now: nat, ids: seq<nat>)
    requires Sound(s) && s.last == now && DueAreLater(s, now) && InTurn(s, now, ids)
    requires DueIn(After(s, now, ids).heap, now) == {}
    ensures var t := After(s, now, ids);
      Sound(t) && Rearmed(s, now, ids, t) && Kept(s, ids, t) && Fair(s, now, ids) && ErasedByCallbacks(s, ids, t) &&
      Placed(InsertsOf(s, ids), s.nextId, t)
    ensures forall id :: id in DueIn(s.heap, now) ==>
      (id in ids || (id in After(s, now, ids).erased &&
        exists eraser :: eraser in ids && eraser in s.heap && DoErase(id) in s.heap[eraser].proc))
  {
    InTurnProgresses(s, now, ids);
    InTurnPlaces(s, now, ids);
    var t := After(s, now, ids);
    hide After, Placed, InsertsOf;
    forall id | id in DueIn(s.heap, now) && id !in ids
      ensures id in t.erased && exists eraser :: eraser in ids && eraser in s.heap && DoErase(id) in s.heap[eraser].proc
    {
      assert id in s.heap;
      assert id !in t.heap || id in DueIn(t.heap, now);
      assert id in t.erased && id !in s.erased;
    }
  }

  /** Reading the clock makes due exactly the timers that DueExactlyWhen says. */
  lemma DueByBirth(s: List, now: nat, id: nat)
    requires Sound(s) && id in s.heap
    ensures var t := ReadClock(s, now);
      id in DueIn(t.heap, now) <==> Due(s.born[id].(readings := s.born[id].readings + [now]))
  {
    ReadClockSound(s, now);
    assert Aged(ReadClock(s, now).heap[id], ReadClock(s, now).born[id], now);
  }

  // ----- Whole runs -----

  /** Timers are set and erased, and RunTimerProcs reads the clock and fires some, in turn. */
  datatype Event = Set(value: nat, interval: nat, proc: seq<Action>, clock: nat) | Erase(id: nat) | Read(now: nat, ids: seq<nat>)

  /** The clock is read only if there are timers. */
  function Next(s: List, e: Event): List {
    match e
    case Set(value, interval, proc, clock) => Inserted(s, value, interval, proc, clock)
    case Erase(id) => Gone(s, id)
    case Read(now, ids) => if s.heap == map[] then s else After(ReadClock(s, now), now, ids)
  }

  ghost predicate Proper(s: List, e: Event) {
    match e
    case Read(now, ids) =>
      if s.heap == map[] then ids == []
      else
        var t := ReadClock(s, now);
        DueAreLater(t, now) && InTurn(t, now, ids) && DueIn(After(t, now, ids).heap, now) == {}
    case _ => true
  }

  ghost predicate AllProper(s: List, events: seq<Event>)
    decreases events
  {
    events == [] || (Proper(s, events[0]) && AllProper(Next(s, events[0]), events[1..]))
  }

  function Run(s: List, events: seq<Event>): List
    decreases events
  {
    if events == [] then s else Run(Next(s, events[0]), events[1..])
  }

  function Readings(events: seq<Event>): seq<nat>
    decreases events
  {
    if events == [] then []
    else (if events[0].Read? then [events[0].now] else []) + Readings(events[1..])
  }

  predicate Fires(e: Event, id: nat) { e.Read? && id in e.ids }

  predicate Unfired(events: seq<Event>, id: nat) { forall e :: e in events ==> !Fires(e, id) }

  /** A timer that does not fire stays as it is, but for the reading, or is erased for good. */
  lemma NextKeeps(s: List, e: Event)
    requires Sound(s) && Proper(s, e)
    ensures var t := Next(s, e);
      Sound(t) && s.erased <= t.erased &&
      forall id :: id in s.heap && !Fires(e, id) ==>
        if id in t.heap then
          id in t.born && id in s.born &&
          t.born[id] == s.born[id].(readings := s.born[id].readings + if e.Read? then [e.now] else [])
        else id in t.erased
  {
    match e {
      case Set(value, interval, proc, clock) =>
        InsertedSound(s, value, interval, proc, clock);
        hide Aged;
        assert forall b: Birth :: b.readings + [] == b.readings;
      case Erase(id) =>
        GoneSound(s, id);
        hide Aged;
        assert forall b: Birth :: b.readings + [] == b.readings;
      case Read(now, ids) =>
        if s.heap != map[] {
          ReadClockSound(s, now);
          FiresExactly(ReadClock(s, now), now, ids);
          hide After, InTurn, Aged, Rearmed, Fair, ErasedByCallbacks;
        }
    }
  }

  /** Along every run, what is known of a pending timer is the history of the readings. */
  lemma {:induction false} BirthIsHistory(s: List, id: nat, events: seq<Event>)
    requires Sound(s) && AllProper(s, events) && Unfired(events, id) && (id in s.heap || id in s.erased)
    ensures var t := Run(s, events);
      Sound(t) && s.erased <= t.erased &&
      (id in t.heap ==> id in s.heap && t.born[id] == s.born[id].(readings := s.born[id].readings + Readings(events)))
    decreases events
  {
    hide Aged, Next, Proper;
    if events == [] {
      if id in s.heap { assert s.born[id].readings + [] == s.born[id].readings; }
    } else {
      var u := Next(s, events[0]);
      NextKeeps(s, events[0]);
      BirthIsHistory(u, id, events[1..]);
      if id in s.heap {
        var head := if events[0].Read? then [events[0].now] else [];
        assert s.born[id].readings + head + Readings(events[1..]) == s.born[id].readings + (head + Readings(events[1..]));
      }
    }
  }

  /** In every run a timer fires at the first reading at which DueExactlyWhen has it due, unless a
      callback erases it in that very call. */
  lemma FiresWhenDue(s: List, e: Event, events: seq<Event>, now: nat, ids: seq<nat>)
    requires Sound(s) && e.Set? && AllProper(Next(s, e), events) && Unfired(events, s.nextId)
    requires var t := Run(Next(s, e), events); s.nextId in t.heap && Proper(t, Read(now, ids))
    ensures var b := Birth(e.clock, s.last, e.value, Readings(events) + [now]);
      (s.nextId in ids ==> Due(b)) &&
      (Due(b) ==> s.nextId in ids || s.nextId in Next(Run(Next(s, e), events), Read(now, ids)).erased)
  {
    var id, s1 := s.nextId, Next(s, e);
    InsertedSound(s, e.value, e.interval, e.proc, e.clock);
    BirthIsHistory(s1, id, events);
    var t := Run(s1, events);
    assert s1.born[id] == Birth(e.clock, s.last, e.value, []);
    assert [] + Readings(events) == Readings(events);
    hide Inserted, Due, Aged, InTurn, Sound, AllProper, Run, Readings, Unfired;
    FiresIfDue(t, now, ids, id);
  }

  lemma FiresIfDue(s: List, now: nat, ids: seq<nat>, id: nat)
    requires Sound(s) && id in s.heap && Proper(s, Read(now, ids))
    ensures var due := Due(s.born[id].(readings := s.born[id].readings + [now]));
      (id in ids ==> due) && (due ==> id in ids || id in Next(s, Read(now, ids)).erased)
  {
    DueByBirth(s, now, id);
    ReadClockSound(s, now);
    FiresExactly(ReadClock(s, now), now, ids);
    hide Due, Aged, After, InTurn, Sound;
  }

  lemma FirstTwo(ids: seq<nat>)
    ensures ids != [] ==> ids[0] in ids
    ensures |ids| > 1 ==> ids[0] in ids && ids[1] in ids
  {
  }

  /** A reading at which nothing is due only moves the deadlines. */
  lemma NothingDue(s: List, now: nat, ids: seq<nat>)
    requires Sound(s) && s.heap != map[] && Proper(s, Read(now, ids)) && DueIn(ReadClock(s, now).heap, now) == {}
    ensures ids == [] && Next(s, Read(now, ids)) == ReadClock(s, now)
  {
    ReadClockSound(s, now);
    FiresExactly(ReadClock(s, now), now, ids);
    hide Sound;
    FirstTwo(ids);
  }

  /** A lone timer without a callback fires when it is due, and nothing else happens. */
  lemma LoneTimer(s: List, now: nat, ids: seq<nat>, id: nat)
    requires Sound(s) && s.heap.Keys == {id} && s.heap[id].interval == 0 && s.heap[id].proc == []
    requires Proper(s, Read(now, ids)) && id in DueIn(ReadClock(s, now).heap, now)
    ensures ids == [id] && Next(s, Read(now, ids)) == Taken(ReadClock(s, now), id, now)
  {
    var t := ReadClock(s, now);
    assert t.heap.Keys == {id} && t.heap[id].proc == [];
    ReadClockSound(s, now);
    FiresExactly(t, now, ids);
    hide Sound, Taken, InTurn, ReadClock, After;
    assert id in ids && forall other :: other in ids ==> other == id;
    OnlyOne(ids, id);
    AfterOne(t, now, id);
  }

  lemma OnlyOne(ids: seq<nat>, id: nat)
    requires Distinct(ids) && id in ids && forall other :: other in ids ==> other == id
    ensures ids == [id]
  {
    FirstTwo(ids);
  }

  lemma AfterOne(s: List, now: nat, id: nat)
    requires id in s.heap && s.heap[id].proc == []
    ensures After(s, now, [id]) == Taken(s, id, now)
  {
    hide Taken;
    assert [id][..0] == [];
    assert After(s, now, []) == s;
  }

  /** When the clock steps back no timer is lost, those due are the ones that were due at the last
      reading, the others wait as long as they had to from that reading, and none overtakes another. */
  lemma StepBackKeepsDelays(s: List, now: nat)
    requires now < s.last
    ensures var t := ReadClock(s, now);
      t.heap.Keys == s.heap.Keys && DueIn(t.heap, now) == DueIn(s.heap, s.last) &&
      (forall id :: id in s.heap && s.heap[id].value > s.last ==> t.heap[id].value - now == s.heap[id].value - s.last) &&
      (forall id, other :: id in s.heap && other in s.heap && s.heap[id].value <= s.heap[other].value ==>
        t.heap[id].value <= t.heap[other].value)
  {
  }
}
