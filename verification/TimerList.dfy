/** The timers of voyager/core/timerlist.cc: a set of deadlines and a set of timers that must
    agree while callbacks insert and erase timers, and when the clock steps back. */
module Timing {
  import opened TimerClock
  import opened TimerRuns

  const NO_TIMEOUT: nat := 0xffff_ffff_ffff_ffff

  // ----- The object -----

  /** The two indexes agree: the pairs hold exactly the deadlines of the timers. */
  ghost predicate Pairs(timers: set<(nat, nat)>, heap: map<nat, Timer>) {
    forall v, id :: (v, id) in timers <==> id in heap && heap[id].value == v
  }

  lemma PairsInserted(timers: set<(nat, nat)>, heap: map<nat, Timer>, id: nat, t: Timer)
    requires Pairs(timers, heap) && id !in heap
    ensures Pairs(timers + {(t.value, id)}, heap[id := t])
  {
  }

  lemma PairsErased(timers: set<(nat, nat)>, heap: map<nat, Timer>, id: nat)
    requires Pairs(timers, heap) && id in heap
    ensures Pairs(timers - {(heap[id].value, id)}, heap - {id})
  {
  }

  lemma PairsMoved(timers: set<(nat, nat)>, heap: map<nat, Timer>, id: nat, t: Timer)
    requires Pairs(timers, heap) && id in heap
    ensures Pairs(timers - {(heap[id].value, id)} + {(t.value, id)}, heap[id := t])
  {
  }

  lemma PairFound(timers: set<(nat, nat)>, heap: map<nat, Timer>, it: (nat, nat))
    requires Pairs(timers, heap) && it in timers
    ensures it.1 in heap && heap[it.1].value == it.0 && it == (heap[it.1].value, it.1)
  {
    assert it == (it.0, it.1);
  }

  class TimerList {
    var lastTimeOut: nat
    var heap: map<nat, Timer> // the Timer objects that are allocated
    var timerPtrs: set<nat>
    var timers: set<(nat, nat)> // pairs of deadline and timer; ties go by address, which is arbitrary
    var nextId: nat
    ghost var born: map<nat, Birth>
    ghost var erased: set<nat>
    ghost var spent: set<nat>

    ghost function Abs(): List
      reads this
    {
      List(heap, born, nextId, erased, spent, lastTimeOut)
    }

    ghost predicate Paired()
      reads this
    {
      timerPtrs == heap.Keys && Pairs(timers, heap)
    }

    ghost predicate Valid()
      reads this
    {
      Paired() && Sound(Abs())
    }

    constructor (now: nat)
      ensures Valid() && Abs() == List(map[], map[], 0, {}, {}, now)
    {
      lastTimeOut, heap, timerPtrs, timers, nextId := now, map[], {}, {}, 0;
      born, erased, spent := map[], {}, {};
    }

    method Insert(value: nat, interval: nat, proc: seq<Action>, ghost clock: nat) returns (id: nat)
      requires Valid()
      modifies this`heap, this`timerPtrs, this`timers, this`nextId, this`born
      ensures Valid() && id == old(nextId) && Abs() == Inserted(old(Abs()), value, interval, proc, clock)
      ensures id !in old(heap) && heap == old(heap)[id := Timer(value, interval, proc)] && (value, id) in timers
    {
      InsertedSound(Abs(), value, interval, proc, clock);
      PairsInserted(timers, heap, nextId, Timer(value, interval, proc));
      hide Sound, Pairs;
      id := nextId;
      nextId := nextId + 1;
      heap := heap[id := Timer(value, interval, proc)];
      born := born[id := Birth(clock, lastTimeOut, value, [])];
      InsertInLoop(value, id);
    }

    method InsertInLoop(value: nat, id: nat)
      modifies this`timerPtrs, this`timers
      ensures timers == old(timers) + {(value, id)} && timerPtrs == old(timerPtrs) + {id}
    {
      timers := timers + {(value, id)};
      timerPtrs := timerPtrs + {id};
    }

    /** The deadline in a TimerId may be stale; the one in the timer counts. */
    method EraseInLoop(value: nat, id: nat)
      requires Valid()
      modifies this`heap, this`timerPtrs, this`timers, this`born, this`erased
      ensures Valid() && Abs() == Gone(old(Abs()), id)
      ensures heap == old(heap) - {id} && forall v :: (v, id) !in timers
    {
      GoneSound(Abs(), id);
      hide Sound, Pairs;
      if id in timerPtrs {
        PairsErased(timers, heap, id);
        var first := heap[id].value;
        timers := timers - {(first, id)};
        heap := heap - {id};
        timerPtrs := timerPtrs - {id};
        born := born - {id};
        erased := erased + {id};
      }
    }

    /** How long poll may sleep: until the earliest deadline and no longer. */
    method TimeoutMs(now: nat) returns (ms: nat)
      requires Valid()
      ensures timers == {} ==> ms == NO_TIMEOUT
      ensures timers != {} ==> (ms == 0 <==> now < lastTimeOut || DueIn(heap, now) != {})
      ensures timers != {} && ms > 0 ==>
        (forall id :: id in heap ==> now + ms <= heap[id].value) && (exists id :: id in heap && now + ms == heap[id].value)
    {
      hide Sound;
      if timers == {} { return NO_TIMEOUT; }
      var it := First();
      assert it.1 in heap && heap[it.1].value == it.0;
      assert forall id :: id in heap ==> (heap[id].value, id) in timers;
      if now < lastTimeOut { return 0; }
      if it.0 <= now {
        assert it.1 in DueIn(heap, now);
        return 0;
      }
      return it.0 - now;
    }

    /** timers_.begin() */
    method First() returns (it: (nat, nat))
      requires timers != {}
      ensures it in timers && forall u :: u in timers ==> it.0 <= u.0
    {
      EarliestExists(timers);
      it :| it in timers && forall u :: u in timers ==> it.0 <= u.0;
    }

    /** The clock has stepped back: every deadline goes back with it. */
    method Rebuild(diff: nat)
      requires Paired()
      modifies this`heap, this`timers
      ensures Paired() && heap == map id | id in old(heap) :: old(heap)[id].(value := Shifted(old(heap)[id].value, diff))
    {
      var rebuilt: set<(nat, nat)>, rest := {}, timers;
      while rest != {}
        invariant rest <= timers && heap.Keys == old(heap).Keys
        invariant forall id :: id in heap ==>
          heap[id] == if (old(heap)[id].value, id) in rest then old(heap)[id]
                      else old(heap)[id].(value := Shifted(old(heap)[id].value, diff))
        invariant forall v, id :: (v, id) in rebuilt <==>
          id in heap && (old(heap)[id].value, id) !in rest && heap[id].value == v
      {
        var it: (nat, nat) :| it in rest;
        var value := if it.0 > diff then it.0 - diff else 0;
        heap := heap[it.1 := heap[it.1].(value := value)];
        rebuilt := rebuilt + {(value, it.1)};
        rest := rest - {it};
      }
      timers := rebuilt;
    }

    method RunProc(proc: seq<Action>)
      requires Valid()
      modifies this`heap, this`timerPtrs, this`timers, this`nextId, this`born, this`erased
      ensures Valid() && Abs() == Ran(old(Abs()), proc)
      ensures Placed(Inserts(proc), old(nextId), Abs())
    {
      RanPlaces(Abs(), proc);
      hide Sound, Paired, Placed;
      for i := 0 to |proc|
        invariant Valid() && Abs() == Ran(old(Abs()), proc[..i])
      {
        assert proc[..i + 1][..i] == proc[..i];
        match proc[i] {
          case DoInsert(value, interval, p, clock) => var _ := Insert(value, interval, p, clock);
          case DoErase(id) => EraseInLoop(0, id);
        }
      }
      assert proc[..|proc|] == proc;
    }

    /** Fires what is due, in turn, until nothing is; the clock is read only if there are timers. */
    method RunTimerProcs(now: nat) returns (ghost ids: seq<nat>)
      requires Valid() && DueAreLater(ReadClock(Abs(), now), now)
      modifies this
      ensures Valid() && DueIn(heap, now) == {}
      ensures Proper(old(Abs()), Read(now, ids)) && Abs() == Next(old(Abs()), Read(now, ids))
      ensures old(heap) != map[] ==>
        var s := ReadClock(old(Abs()), now);
        Fair(s, now, ids) && Rearmed(s, now, ids, Abs()) &&
        Kept(s, ids, Abs()) && ErasedByCallbacks(s, ids, Abs()) && Placed(InsertsOf(s, ids), s.nextId, Abs()) &&
        (forall id :: id in DueIn(s.heap, now) ==>
          id in ids || exists eraser :: eraser in ids && eraser in s.heap && DoErase(id) in s.heap[eraser].proc)
    {
      hide Sound, InTurn, After, Fair, Rearmed, Kept, ErasedByCallbacks, Placed, DueAreLater;
      if timers == {} {
        NoTimers();
        return [];
      }
      ghost var s := ReadClock(Abs(), now);
      ReadClockSound(Abs(), now);
      SomeTimer();
      if now < lastTimeOut {
        var diff := lastTimeOut - now;
        Rebuild(diff);
      }
      lastTimeOut := now;
      born := s.born;
      assert Abs() == s;
      ids := FireDue(now);
      FiresExactly(s, now, ids);
    }

    lemma NoTimers()
      requires Valid() && timers == {}
      ensures heap == map[]
    {
      assert forall id :: id in heap ==> (heap[id].value, id) in timers;
    }

    lemma SomeTimer()
      requires Valid() && timers != {}
      ensures heap != map[]
    {
      var it :| it in timers;
      assert (it.0, it.1) in timers;
    }

    /** Takes the earliest timer out, or puts it back for its next turn, and calls it. */
    method FireFirst(it: (nat, nat), now: nat)
      requires Valid() && it in timers && lastTimeOut == now
      modifies this`heap, this`timerPtrs, this`timers, this`nextId, this`born, this`erased, this`spent
      ensures Valid() && Abs() == FiredOne(old(Abs()), it.1, now)
    {
      hide Sound, Ran, Taken;
      assert (it.0, it.1) in timers;
      var proc := Take(it, now);
      RunProc(proc);
    }

    method Take(it: (nat, nat), now: nat) returns (proc: seq<Action>)
      requires Valid() && it in timers && lastTimeOut == now && it.1 in heap
      modifies this`heap, this`timerPtrs, this`timers, this`born, this`spent
      ensures Valid() && Abs() == Taken(old(Abs()), it.1, now) && proc == old(heap)[it.1].proc
    {
      PairFound(timers, heap, it);
      ghost var s := Abs();
      TakenSound(s, it.1, now);
      hide Sound, Pairs;
      proc := heap[it.1].proc;
      if heap[it.1].interval > 0 {
        PutBack(it, now);
        assert Abs() == Taken(s, it.1, now);
      } else {
        Free(it);
        assert Abs() == Taken(s, it.1, now);
      }
    }

    method PutBack(it: (nat, nat), now: nat)
      requires Paired() && it.1 in heap && it.0 == heap[it.1].value
      modifies this`heap, this`timers, this`born
      ensures Paired() && heap == old(heap)[it.1 := old(heap)[it.1].(value := now + old(heap)[it.1].interval)]
      ensures born == old(born)[it.1 := Birth(now, lastTimeOut, heap[it.1].value, [])]
    {
      hide Pairs;
      var t, next := it.1, heap[it.1].(value := now + heap[it.1].interval);
      PairsMoved(timers, heap, t, next);
      timers := timers - {it};
      heap := heap[t := next];
      timers := timers + {(next.value, t)};
      born := born[t := Birth(now, lastTimeOut, next.value, [])];
    }

    method Free(it: (nat, nat))
      requires Paired() && it.1 in heap && it.0 == heap[it.1].value
      modifies this`heap, this`timerPtrs, this`timers, this`born, this`spent
      ensures Paired() && heap == old(heap) - {it.1} && born == old(born) - {it.1} && spent == old(spent) + {it.1}
    {
      hide Pairs;
      PairsErased(timers, heap, it.1);
      timers := timers - {it};
      heap := heap - {it.1};
      timerPtrs := timerPtrs - {it.1};
      born := born - {it.1};
      spent := spent + {it.1};
    }

    method FireDue(now: nat) returns (ghost ids: seq<nat>)
      requires Valid() && lastTimeOut == now && DueAreLater(Abs(), now)
      modifies this`heap, this`timerPtrs, this`timers, this`nextId, this`born, this`erased, this`spent
      ensures Valid() && DueIn(heap, now) == {}
      ensures InTurn(old(Abs()), now, ids) && Abs() == After(old(Abs()), now, ids)
    {
      ghost var s := Abs();
      ids := [];
      while true
        invariant Valid() && lastTimeOut == now && InTurn(s, now, ids) && Abs() == After(s, now, ids)
        decreases DueIn(heap, now)
      {
        hide Sound, After, InTurn, FiredOne, DueAreLater;
        if timers == {} { break; }
        var it := First();
        if it.0 > now { break; }
        ghost var t := Abs();
        FirstIsEarliest(it, now);
        ExtendTurns(s, now, ids, it.1);
        FireFirst(it, now);
        ids := ids + [it.1];
      }
      forall id | id in heap ensures heap[id].value > now {
        assert (heap[id].value, id) in timers;
      }
    }

    lemma FirstIsEarliest(it: (nat, nat), now: nat)
      requires Valid() && it in timers && it.0 <= now && forall u :: u in timers ==> it.0 <= u.0
      ensures Earliest(Abs(), it.1, now)
    {
      assert (it.0, it.1) in timers;
      forall id | id in heap ensures it.0 <= heap[id].value {
        assert (heap[id].value, id) in timers;
      }
    }
  }

  lemma ExtendTurns(s: List, now: nat, ids: seq<nat>, id: nat)
    requires Sound(s) && s.last == now && DueAreLater(s, now) && InTurn(s, now, ids) && Earliest(After(s, now, ids), id, now)
    ensures var t := After(s, now, ids);
      InTurn(s, now, ids + [id]) && After(s, now, ids + [id]) == FiredOne(t, id, now) &&
      DueIn(FiredOne(t, id, now).heap, now) < DueIn(t.heap, now)
  {
    var t := After(s, now, ids);
    assert (ids + [id])[..|ids|] == ids;
    InTurnProgresses(s, now, ids);
    hide Sound, Ran;
    assert id in DueIn(t.heap, now);
    FiredOneTurns(t, id, now);
    TurnedDue(t, id, now, FiredOne(t, id, now));
  }

  lemma TurnedDue(s: List, id: nat, now: nat, t: List)
    requires Sound(s) && id in DueIn(s.heap, now) && Turned(s, id, now, t)
    ensures DueIn(t.heap, now) < DueIn(s.heap, now)
  {
    hide Aged;
    assert id !in DueIn(t.heap, now);
    forall other | other in DueIn(t.heap, now) ensures other in DueIn(s.heap, now) { }
  }

  lemma {:induction false} EarliestExists(s: set<(nat, nat)>)
    requires s != {}
    ensures exists it :: it in s && forall u :: u in s ==> it.0 <= u.0
    decreases |s|
  {
    var x: (nat, nat) :| x in s;
    if s - {x} != {} {
      EarliestExists(s - {x});
      var it: (nat, nat) :| it in s - {x} && forall u :: u in s - {x} ==> it.0 <= u.0;
      var least := if it.0 <= x.0 then it else x;
      assert least in s && forall u :: u in s ==> least.0 <= u.0;
    } else {
      assert s == {x};
    }
  }

  // ----- Timers that fire too early -----

  /** The clock steps back from 1000 to 100, where a timer is set for 150. It fires at 101. */
  method EarlyInsideTheGap() returns (t: TimerList, ghost ids: seq<nat>)
    ensures ids == [0] && t.heap == map[] && t.spent == {0} && t.lastTimeOut == 101
  {
    t := new TimerList(1000);
    var _ := t.Insert(150, 0, [], 100);
    ghost var s := t.Abs();
    assert s.heap == map[0 := Timer(150, 0, [])];
    assert ReadClock(s, 101).heap[0].value == 0;
    hide Sound, After, InTurn, Proper, Fair, Rearmed, Kept, ErasedByCallbacks;
    ids := t.RunTimerProcs(101);
    LoneTimer(s, 101, ids, 0);
  }

  lemma ReadBeyondTheGap()
    ensures var s := Inserted(List(map[], map[], 0, {}, {}, 1000), 1500, 0, [], 100);
      ReadClock(s, 101) == List(map[0 := Timer(601, 0, [])], map[0 := Birth(100, 1000, 1500, [101])], 1, {}, {}, 101)
  {
    var s := Inserted(List(map[], map[], 0, {}, {}, 1000), 1500, 0, [], 100);
    assert s.born == map[0 := Birth(100, 1000, 1500, [])] && s.heap == map[0 := Timer(1500, 0, [])];
    assert [] + [101] == [101];
    var t := ReadClock(s, 101);
    assert t.born[0] == Birth(100, 1000, 1500, [101]) && t.heap[0] == Timer(601, 0, []);
    assert t.born == map[0 := Birth(100, 1000, 1500, [101])] && t.heap == map[0 := Timer(601, 0, [])];
  }

  /** The same, but the timer is set for 1500, after the last reading. At 101 it is moved to 601. */
  method MovedBeyondTheGap() returns (t: TimerList, ghost ids: seq<nat>)
    ensures fresh(t) && t.Valid() && ids == []
    ensures t.Abs() == List(map[0 := Timer(601, 0, [])], map[0 := Birth(100, 1000, 1500, [101])], 1, {}, {}, 101)
  {
    t := new TimerList(1000);
    var _ := t.Insert(1500, 0, [], 100);
    ghost var s := t.Abs();
    ReadBeyondTheGap();
    hide Sound, After, InTurn, Proper, Fair, Rearmed, Kept, ErasedByCallbacks, ReadClock;
    ids := t.RunTimerProcs(101);
    NothingDue(s, 101, ids);
  }

  /** And at 601 it fires. */
  method EarlyBeyondTheGap() returns (t: TimerList, ghost ids: seq<nat>)
    ensures ids == [0] && t.heap == map[] && t.spent == {0} && t.lastTimeOut == 601
  {
    hide Sound, After, InTurn, Proper, Fair, Rearmed, Kept, ErasedByCallbacks;
    ghost var none;
    t, none := MovedBeyondTheGap();
    ghost var s := t.Abs();
    ids := t.RunTimerProcs(601);
    LoneTimer(s, 601, ids, 0);
  }
}
