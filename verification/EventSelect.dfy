/** The select(2) backend of voyager/core/event_select.cc: descriptor sets kept by deltas, and an
    ordered map of the dispatches with an interest that bounds what select looks at. */
module SelectBackend {
  import opened Dispatching

  class EventSelect {
    var dispatchMap: map<nat, Dispatch>
    var workerMap: map<nat, Dispatch>
    var readfds: set<nat>
    var writefds: set<nat>
    var nfds: nat
    ghost var history: seq<Call>

    /** The two sets hold the two interests, and no descriptor in them is out of select's sight. */
    ghost predicate Sets(view: View)
      reads this`readfds, this`writefds
    {
      (forall fd :: fd in readfds <==> Reading(StateOf(view, fd).events)) &&
      (forall fd :: fd in writefds <==> Writing(StateOf(view, fd).events))
    }

    /** The worker map stores the registered dispatches themselves. */
    ghost predicate Stored()
      reads this`dispatchMap, this`workerMap
    {
      forall fd :: fd in workerMap ==> fd in dispatchMap && workerMap[fd] == dispatchMap[fd]
    }

    /** It has those with an interest, and nfds is one past the last of them. */
    ghost predicate Workers(view: View)
      reads this`workerMap, this`nfds
    {
      (forall fd :: fd in workerMap <==> StateOf(view, fd).events != NONE_EVENT) &&
      (forall fd :: fd in workerMap ==> fd < nfds) &&
      (workerMap != map[] ==> nfds - 1 in workerMap)
    }

    ghost predicate Linked()
      reads this`dispatchMap, dispatchMap.Values`index
    {
      forall fd :: fd in dispatchMap ==> dispatchMap[fd].fd == fd && dispatchMap[fd].index == 0
    }

    ghost predicate Valid()
      reads this, dispatchMap.Values
    {
      Legal(history) && Sets(Replay(history)) && Workers(Replay(history)) && Stored() && Linked() &&
      Tracks(dispatchMap, Replay(history))
    }

    constructor ()
      ensures Valid() && history == [] && dispatchMap == map[]
    {
      dispatchMap, workerMap, readfds, writefds, nfds, history := map[], map[], {}, {}, 0, [];
    }

    method ApplyDelta(fd: nat, delta: Modify, ghost view: View, ghost op: Op)
      requires Sets(view) && Coherent(StateOf(view, fd)) && Notifies(StateOf(view, fd), op)
      requires delta == Delta(StateOf(view, fd), op) && Allowed(view, Do(fd, op))
      modifies this`readfds, this`writefds
      ensures Sets(view[fd := After(StateOf(view, fd), op)])
    {
      hide Coherent, After, Notifies, Delta, Reading, Writing;
      DeltaMeaning(StateOf(view, fd), op);
      match delta {
        case AddRead => readfds := readfds + {fd};
        case AddWrite => writefds := writefds + {fd};
        case DeleteRead => readfds := readfds - {fd};
        case DeleteWrite => writefds := writefds - {fd};
        case EnableWrite => writefds := writefds + {fd};
        case DisableWrite => writefds := writefds - {fd};
        case DeleteAll => readfds, writefds := readfds - {fd}, writefds - {fd};
        case NoModify =>
      }
    }

    /** The largest key of a map, which worker_map_.rbegin() finds. */
    static method LastKey(m: map<nat, Dispatch>) returns (last: nat)
      requires m != map[]
      ensures last in m && forall fd :: fd in m ==> fd <= last
    {
      var rest := m.Keys;
      assert exists fd :: fd in rest;
      last :| last in rest;
      rest := rest - {last};
      while rest != {}
        invariant rest <= m.Keys && last in m && forall fd :: fd in m && fd !in rest ==> fd <= last
      {
        var fd :| fd in rest;
        if fd > last { last := fd; }
        rest := rest - {fd};
      }
    }

    method UpdateWorkers(d: Dispatch, ghost view: View, ghost s: State)
      requires Workers(view) && d.events == s.events
      requires Stored() && d.fd in dispatchMap && dispatchMap[d.fd] == d
      modifies this`workerMap, this`nfds
      ensures Workers(view[d.fd := s]) && Stored()
    {
      if d.IsNoneEvent() {
        if d.fd in workerMap {
          workerMap := workerMap - {d.fd};
        }
      } else {
        workerMap := workerMap[d.fd := d];
      }
      BoundWorkers();
    }

    method BoundWorkers()
      modifies this`nfds
      ensures forall fd :: fd in workerMap ==> fd < nfds
      ensures if workerMap == map[] then nfds == 1 else nfds > 0 && nfds - 1 in workerMap
    {
      if workerMap == map[] {
        nfds := 1;
      } else {
        var last := LastKey(workerMap);
        nfds := last + 1;
      }
    }

    method UpdateDispatch(d: Dispatch, ghost view: View, ghost op: Op)
      requires Sets(view) && Workers(view) && Stored() && Linked() && Coherent(StateOf(view, d.fd))
      requires Notifies(StateOf(view, d.fd), op) && Allowed(view, Do(d.fd, op))
      requires d.modifyEvent == Delta(StateOf(view, d.fd), op) && d.Shows(After(StateOf(view, d.fd), op))
      requires if d.fd in dispatchMap then dispatchMap[d.fd] == d else d.index == -1
      modifies this`dispatchMap, this`workerMap, this`readfds, this`writefds, this`nfds, d`index
      ensures var view' := view[d.fd := After(StateOf(view, d.fd), op)]; Sets(view') && Workers(view') && Stored()
      ensures Linked() && dispatchMap == old(dispatchMap)[d.fd := d]
    {
      hide Coherent, After, Notifies, Delta, Sets, Workers, Allowed;
      ApplyDelta(d.fd, d.modifyEvent, view, op);
      if d.index == -1 {
        assert d.fd !in dispatchMap;
        dispatchMap := dispatchMap[d.fd := d];
        d.index := 0;
      } else {
        assert d.fd in dispatchMap && dispatchMap == dispatchMap[d.fd := d];
      }
      UpdateWorkers(d, view, After(StateOf(view, d.fd), op));
    }

    method RemoveDispatch(d: Dispatch, ghost view: View)
      requires Sets(view) && Workers(view) && Stored() && Linked()
      requires d.fd in dispatchMap && dispatchMap[d.fd] == d && d.fd in view && view[d.fd].events == NONE_EVENT
      modifies this`dispatchMap, d`index
      ensures Sets(view - {d.fd}) && Workers(view - {d.fd}) && Stored() && Linked()
      ensures dispatchMap == old(dispatchMap) - {d.fd}
    {
      assert StateOf(view - {d.fd}, d.fd).events == StateOf(view, d.fd).events;
      dispatchMap := dispatchMap - {d.fd};
      d.index := -1;
    }

    method Perform(d: Dispatch, op: Op)
      requires Valid() && Registrable(dispatchMap, d) && Allowed(Replay(history), Do(d.fd, op))
      modifies this, d
      ensures Valid() && history == old(history) + [Do(d.fd, op)] && Registrable(dispatchMap, d)
    {
      hide Coherent, After, Notifies, Delta, Replay, Legal, Step, Allowed, Tracks, Sets, Workers;
      ghost var view := Replay(history);
      Extend(history, Do(d.fd, op));
      ReplayCoherent(history);
      var update := Change(d, op, dispatchMap, view);
      history := history + [Do(d.fd, op)];
      if update {
        UpdateDispatch(d, view, op);
      }
    }

    method Remove(d: Dispatch)
      requires Valid() && d.fd in dispatchMap && dispatchMap[d.fd] == d
      requires Allowed(Replay(history), Call.Remove(d.fd))
      modifies this, d`index
      ensures Valid() && history == old(history) + [Call.Remove(d.fd)]
    {
      hide Sets, Workers;
      Extend(history, Call.Remove(d.fd));
      RemoveDispatch(d, Replay(history));
      history := history + [Call.Remove(d.fd)];
    }

    /** What select(2) watches a descriptor for, given that it looks at those below nfds only. */
    function Watched(fd: nat): bv16
      reads this
    {
      Mask(fd < nfds && fd in readfds, fd < nfds && fd in writefds)
    }

    lemma WatchedIsInterest(fd: nat)
      requires Valid()
      ensures Watched(fd) == Interest(Replay(history), fd)
    {
      hide Coherent, Reading, Writing, Mask, Replay, Legal;
      var s := StateOf(Replay(history), fd);
      ReplayCoherent(history);
      CoherentFresh();
      MaskOf(s);
      NoInterest();
    }
  }

  lemma NoInterest()
    ensures Mask(false, false) == NONE_EVENT
  {
  }
}
