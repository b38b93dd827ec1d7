/** The poll(2) backend of voyager/core/event_poll.cc: a vector of descriptors from which
    entries are removed by swapping with the last, and a map back to the dispatches. */
module PollBackend {
  import opened Dispatching

  datatype PollFd = PollFd(fd: int, events: bv16)

  /** The descriptor that a slot stands for; poll ignores negative entries. */
  function Named(slot: PollFd): nat { if slot.fd < 0 then -slot.fd - 1 else slot.fd }

  function SlotOf(fd: nat, events: bv16): PollFd {
    PollFd(if events == NONE_EVENT then -(fd as int) - 1 else fd, events)
  }

  /** Every registered descriptor has a slot, every slot a registered descriptor, and a slot is
      negated exactly when its events are empty. */
  predicate Table(pollfds: seq<PollFd>, at: map<nat, nat>, view: View) {
    at.Keys == view.Keys &&
    (forall fd :: fd in at ==> at[fd] < |pollfds| && pollfds[at[fd]] == SlotOf(fd, view[fd].events)) &&
    (forall i :: 0 <= i < |pollfds| ==> Named(pollfds[i]) in at && at[Named(pollfds[i])] == i)
  }

  lemma Appended(pollfds: seq<PollFd>, at: map<nat, nat>, view: View, fd: nat, s: State)
    requires Table(pollfds, at, view) && fd !in view
    ensures Table(pollfds + [SlotOf(fd, s.events)], at[fd := |pollfds|], view[fd := s])
  {
  }

  lemma Replaced(pollfds: seq<PollFd>, at: map<nat, nat>, view: View, fd: nat, s: State)
    requires Table(pollfds, at, view) && fd in view
    ensures Table(pollfds[at[fd] := SlotOf(fd, s.events)], at, view[fd := s])
  {
    var idx, after := at[fd], pollfds[at[fd] := SlotOf(fd, s.events)];
    assert Named(after[idx]) == fd;
    forall other | other in at && other != fd ensures after[at[other]] == pollfds[at[other]] {
      assert Named(pollfds[at[other]]) == other;
    }
  }

  lemma DroppedLast(pollfds: seq<PollFd>, at: map<nat, nat>, view: View, fd: nat)
    requires Table(pollfds, at, view) && fd in view && at[fd] == |pollfds| - 1
    ensures Table(pollfds[..|pollfds| - 1], at - {fd}, view - {fd})
  {
  }

  lemma SwappedOut(pollfds: seq<PollFd>, at: map<nat, nat>, view: View, fd: nat, last: PollFd)
    requires Table(pollfds, at, view) && fd in view && at[fd] != |pollfds| - 1
    requires last == pollfds[|pollfds| - 1]
    ensures Named(last) in view && Named(last) != fd
    ensures Table(pollfds[at[fd] := last][..|pollfds| - 1], at[Named(last) := at[fd]] - {fd}, view - {fd})
  {
  }

  class EventPoll {
    var pollfds: seq<PollFd>
    var dispatchMap: map<nat, Dispatch>
    ghost var at: map<nat, nat>
    ghost var history: seq<Call>

    /** Each registered dispatch's index is that of its own slot. */
    ghost predicate Linked(view: View)
      reads this`pollfds, this`dispatchMap, this`at, dispatchMap.Values`index
    {
      Table(pollfds, at, view) && dispatchMap.Keys == view.Keys &&
      forall fd :: fd in dispatchMap ==> dispatchMap[fd].fd == fd && dispatchMap[fd].index == at[fd]
    }

    ghost predicate Valid()
      reads this, dispatchMap.Values
    {
      Legal(history) && Linked(Replay(history)) && Tracks(dispatchMap, Replay(history))
    }

    constructor ()
      ensures Valid() && history == [] && dispatchMap == map[]
    {
      pollfds, dispatchMap, at, history := [], map[], map[], [];
    }

    method UpdateDispatch(d: Dispatch, ghost view: View, ghost s: State)
      requires Linked(view) && d.events == s.events
      requires if d.fd in dispatchMap then dispatchMap[d.fd] == d else d.index == -1 && s.events != NONE_EVENT
      modifies this`pollfds, this`dispatchMap, this`at, d`index
      ensures Linked(view[d.fd := s]) && dispatchMap == old(dispatchMap)[d.fd := d]
    {
      hide Table;
      SlotBounds(pollfds, at, view, d.fd);
      if d.index == -1 {
        assert d.fd !in dispatchMap;
        Appended(pollfds, at, view, d.fd, s);
        pollfds := pollfds + [PollFd(d.fd, d.events)];
        d.index := |pollfds| - 1;
        dispatchMap := dispatchMap[d.fd := d];
        at := at[d.fd := |pollfds| - 1];
      } else {
        assert d.fd in dispatchMap && dispatchMap[d.fd] == d;
        var idx := d.index;
        ghost var before := pollfds;
        assert pollfds[idx].fd == d.fd || pollfds[idx].fd == -(d.fd as int) - 1;
        Replaced(pollfds, at, view, d.fd, s);
        pollfds := pollfds[idx := PollFd(d.fd, d.events)];
        if d.IsNoneEvent() {
          pollfds := pollfds[idx := pollfds[idx].(fd := -(d.fd as int) - 1)];
        }
        assert dispatchMap == dispatchMap[d.fd := d] && pollfds == before[idx := SlotOf(d.fd, s.events)];
      }
    }

    method RemoveDispatch(d: Dispatch, ghost view: View)
      requires Linked(view) && d.fd in dispatchMap && dispatchMap[d.fd] == d
      requires d.events == view[d.fd].events == NONE_EVENT
      modifies this`pollfds, this`dispatchMap, this`at, (set e: Dispatch | e in dispatchMap.Values)`index
      ensures Linked(view - {d.fd}) && dispatchMap == old(dispatchMap) - {d.fd}
    {
      hide Table;
      var idx := d.index;
      SlotBounds(pollfds, at, view, d.fd);
      assert pollfds[idx].fd == -(d.fd as int) - 1 && pollfds[idx].events == d.events;
      hide SlotOf, Table;
      dispatchMap := dispatchMap - {d.fd};
      if idx == |pollfds| - 1 {
        DroppedLast(pollfds, at, view, d.fd);
        pollfds := pollfds[..|pollfds| - 1];
        at := at - {d.fd};
      } else {
        ghost var before, last := pollfds, pollfds[|pollfds| - 1];
        SwappedOut(pollfds, at, view, d.fd, last);
        var id := pollfds[|pollfds| - 1].fd;
        pollfds := pollfds[idx := pollfds[|pollfds| - 1]][|pollfds| - 1 := pollfds[idx]];
        if id < 0 {
          id := -id - 1;
        }
        dispatchMap[id].index := idx;
        pollfds := pollfds[..|pollfds| - 1];
        at := at[id := idx] - {d.fd};
        assert pollfds == before[idx := last][..|before| - 1];
      }
    }

    method Perform(d: Dispatch, op: Op)
      requires Valid() && Registrable(dispatchMap, d) && Allowed(Replay(history), Do(d.fd, op))
      modifies this, d
      ensures Valid() && history == old(history) + [Do(d.fd, op)] && Registrable(dispatchMap, d)
    {
      hide Table, Coherent, After, Notifies, Delta, Replay, Legal, Step, Allowed, Tracks, StateOf, SlotOf, Named;
      ghost var view := Replay(history);
      Extend(history, Do(d.fd, op));
      ReplayCoherent(history);
      var update := Change(d, op, dispatchMap, view);
      history := history + [Do(d.fd, op)];
      if update {
        UpdateDispatch(d, view, After(StateOf(view, d.fd), op));
      }
    }

    method Remove(d: Dispatch)
      requires Valid() && d.fd in dispatchMap && dispatchMap[d.fd] == d
      requires Allowed(Replay(history), Call.Remove(d.fd))
      modifies this, (set e: Dispatch | e in dispatchMap.Values)`index
      ensures Valid() && history == old(history) + [Call.Remove(d.fd)]
    {
      hide Table;
      Extend(history, Call.Remove(d.fd));
      RemoveDispatch(d, Replay(history));
      history := history + [Call.Remove(d.fd)];
    }

    /** poll(2) has set revents in ret slots, none of them negated. Hands over the dispatches of
        those slots, in slot order, and looks no further than the last of them. */
    method Poll(revents: seq<nat>, ret: nat) returns (active: seq<Dispatch>)
      requires Valid() && |revents| == |pollfds| && ret == |Raised(pollfds, revents)|
      requires forall i :: 0 <= i < |pollfds| && revents[i] > 0 ==> pollfds[i].fd >= 0
      ensures Found(dispatchMap, Raised(pollfds, revents), active)
    {
      SlotsFound();
      NoneFound(dispatchMap);
      hide *;
      ghost var fds: seq<nat> := [];
      active := [];
      var left, i := ret, 0;
      RaisedStart(pollfds, revents);
      while i < |pollfds| && left > 0
        invariant 0 <= i <= |pollfds| && fds == Raised(pollfds[..i], revents[..i])
        invariant Found(dispatchMap, fds, active) && |fds| == ret - left
      {
        RaisedNext(pollfds, revents, i);
        if revents[i] > 0 {
          left := left - 1;
          var fd := pollfds[i].fd;
          FoundNext(dispatchMap, fds, active, fd);
          active := active + [dispatchMap[fd]];
          fds := fds + [fd];
        }
        i := i + 1;
      }
      RaisedRest(pollfds, revents, i);
      assert i == |pollfds| ==> pollfds[..i] == pollfds && revents[..i] == revents;
    }

    /** A slot that poll does not ignore is that of a registered dispatch. */
    lemma SlotsFound()
      requires Valid()
      ensures forall i :: 0 <= i < |pollfds| && pollfds[i].fd >= 0 ==>
        pollfds[i].fd in dispatchMap && dispatchMap[pollfds[i].fd].fd == pollfds[i].fd == Named(pollfds[i])
    {
      forall i | 0 <= i < |pollfds| && pollfds[i].fd >= 0
        ensures pollfds[i].fd in dispatchMap && dispatchMap[pollfds[i].fd].fd == pollfds[i].fd
      {
        assert Named(pollfds[i]) == pollfds[i].fd;
      }
    }

    /** What poll(2) watches a descriptor for. */
    ghost function Watched(fd: nat): bv16
      reads this
    {
      if exists i :: 0 <= i < |pollfds| && pollfds[i].fd == fd then
        var i :| 0 <= i < |pollfds| && pollfds[i].fd == fd; pollfds[i].events
      else NONE_EVENT
    }

    lemma WatchedIsInterest(fd: nat)
      requires Valid()
      ensures Watched(fd) == Interest(Replay(history), fd)
    {
      var view := Replay(history);
      if i :| 0 <= i < |pollfds| && pollfds[i].fd == fd {
        assert Named(pollfds[i]) == fd;
      } else if fd in view {
        assert pollfds[at[fd]].fd != fd;
      }
    }
  }

  lemma SlotBounds(pollfds: seq<PollFd>, at: map<nat, nat>, view: View, fd: nat)
    requires Table(pollfds, at, view)
    ensures at.Keys == view.Keys
    ensures fd in view ==> fd in at && at[fd] < |pollfds| && pollfds[at[fd]] == SlotOf(fd, view[fd].events)
  {
  }

  /** The descriptors of the slots that have something raised; poll(2) returns their number. */
  function Raised(pollfds: seq<PollFd>, revents: seq<nat>): seq<nat>
    requires |pollfds| == |revents|
  {
    var n := |revents|;
    if n == 0 then [] else Raised(pollfds[..n - 1], revents[..n - 1]) + if revents[n - 1] > 0 then [Named(pollfds[n - 1])] else []
  }

  /** The dispatches of these descriptors, one for one. */
  ghost predicate Found(dispatchMap: map<nat, Dispatch>, fds: seq<nat>, active: seq<Dispatch>) {
    |active| == |fds| &&
    forall k :: 0 <= k < |fds| ==> fds[k] in dispatchMap && active[k] == dispatchMap[fds[k]] && active[k].fd == fds[k]
  }

  lemma NoneFound(dispatchMap: map<nat, Dispatch>)
    ensures Found(dispatchMap, [], [])
  {
  }

  lemma FoundNext(dispatchMap: map<nat, Dispatch>, fds: seq<nat>, active: seq<Dispatch>, fd: nat)
    requires Found(dispatchMap, fds, active) && fd in dispatchMap && dispatchMap[fd].fd == fd
    ensures Found(dispatchMap, fds + [fd], active + [dispatchMap[fd]])
  {
  }

  lemma RaisedStart(pollfds: seq<PollFd>, revents: seq<nat>)
    requires |pollfds| == |revents|
    ensures Raised(pollfds[..0], revents[..0]) == []
  {
  }

  lemma RaisedNext(pollfds: seq<PollFd>, revents: seq<nat>, i: nat)
    requires |pollfds| == |revents| && i < |revents|
    ensures Raised(pollfds[..i + 1], revents[..i + 1]) ==
      Raised(pollfds[..i], revents[..i]) + if revents[i] > 0 then [Named(pollfds[i])] else []
  {
    assert revents[..i + 1][..i] == revents[..i] && pollfds[..i + 1][..i] == pollfds[..i];
  }

  /** Once all are found, the slots that are left add none. */
  lemma {:induction false} RaisedRest(pollfds: seq<PollFd>, revents: seq<nat>, i: nat)
    requires |pollfds| == |revents| && i <= |revents|
    ensures |Raised(pollfds[..i], revents[..i])| <= |Raised(pollfds, revents)|
    ensures |Raised(pollfds[..i], revents[..i])| == |Raised(pollfds, revents)| ==>
      Raised(pollfds[..i], revents[..i]) == Raised(pollfds, revents)
    decreases |revents| - i
  {
    hide Raised;
    if i < |revents| {
      RaisedNext(pollfds, revents, i);
      RaisedRest(pollfds, revents, i + 1);
    } else {
      assert pollfds[..i] == pollfds && revents[..i] == revents;
    }
  }
}
