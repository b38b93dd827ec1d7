/** The kqueue backend of voyager/core/event_kqueue.cc over a model of the kernel's filters. */
module KqueueBackend {
  import opened Dispatching

  datatype Filter = ReadFilter | WriteFilter
  datatype Action = AddEnable | Delete | Enable | Disable
  datatype Change = Change(fd: nat, filter: Filter, action: Action)

  /** The registered filters, and which of them are enabled. */
  type Filters = map<(nat, Filter), bool>

  /** kevent(2) rejects a change to a filter that is not registered, unless it adds it. */
  predicate Accepted(filters: Filters, c: Change) {
    c.action.AddEnable? || (c.fd, c.filter) in filters
  }

  function Applied(filters: Filters, c: Change): Filters {
    match c.action
    case AddEnable => filters[(c.fd, c.filter) := true]
    case Delete => filters - {(c.fd, c.filter)}
    case Enable => filters[(c.fd, c.filter) := true]
    case Disable => filters[(c.fd, c.filter) := false]
  }

  /** kevent(2) with no room for events stops at the first change that it rejects. */
  function AppliedAll(filters: Filters, changes: seq<Change>): (Filters, bool)
    decreases changes
  {
    if changes == [] then (filters, true)
    else if !Accepted(filters, changes[0]) then (filters, false)
    else AppliedAll(Applied(filters, changes[0]), changes[1..])
  }

  lemma OneChange(filters: Filters, c: Change)
    requires Accepted(filters, c)
    ensures AppliedAll(filters, [c]) == (Applied(filters, c), true)
  {
    assert [c][1..] == [];
  }

  lemma TwoChanges(filters: Filters, c: Change, c': Change)
    requires Accepted(filters, c) && Accepted(Applied(filters, c), c')
    ensures AppliedAll(filters, [c, c']) == (Applied(Applied(filters, c), c'), true)
  {
    assert [c, c'][1..] == [c'];
    OneChange(Applied(filters, c), c');
  }

  predicate On(filters: Filters, fd: nat, f: Filter) { (fd, f) in filters && filters[(fd, f)] }

  /** The read filter is there exactly while reading; the write filter from the first write
      interest on, and enabled exactly while writing. */
  predicate Holds(filters: Filters, fd: nat, s: State) {
    ((fd, ReadFilter) in filters <==> Reading(s.events)) &&
    (On(filters, fd, ReadFilter) <==> Reading(s.events)) &&
    (s.addWrite ==> (fd, WriteFilter) in filters) &&
    (On(filters, fd, WriteFilter) <==> Writing(s.events))
  }

  function Changes(fd: nat, delta: Modify): seq<Change> {
    match delta
    case AddRead => [Change(fd, ReadFilter, AddEnable)]
    case AddWrite => [Change(fd, WriteFilter, AddEnable)]
    case DeleteRead => [Change(fd, ReadFilter, Delete)]
    case DeleteWrite => [Change(fd, WriteFilter, Delete)]
    case EnableWrite => [Change(fd, WriteFilter, Enable)]
    case DisableWrite => [Change(fd, WriteFilter, Disable)]
    case DeleteAll => [Change(fd, ReadFilter, Delete), Change(fd, WriteFilter, Delete)]
    case NoModify => []
  }

  /** The switch of UpdateDispatch asks for nothing illegal and leaves the filters as the new state wants. */
  lemma ChangesFit(filters: Filters, fd: nat, s: State, op: Op)
    requires Holds(filters, fd, s) && Coherent(s) && Notifies(s, op) && (op.DoDisableRead? ==> Reading(s.events))
    ensures var (after, ok) := AppliedAll(filters, Changes(fd, Delta(s, op)));
      ok && Holds(after, fd, After(s, op)) &&
      forall key: (nat, Filter) :: key.0 != fd ==>
        (key in after <==> key in filters) && (key in after ==> after[key] == filters[key])
  {
    hide Coherent, After, Notifies, Delta, Reading, Writing, AppliedAll;
    DeltaMeaning(s, op);
    var changes := Changes(fd, Delta(s, op));
    if |changes| == 1 {
      OneChange(filters, changes[0]);
    } else {
      TwoChanges(filters, changes[0], changes[1]);
    }
  }

  lemma OthersHold(filters: Filters, after: Filters, fd: nat, s: State)
    requires Holds(filters, fd, s)
    requires forall f :: ((fd, f) in after <==> (fd, f) in filters) && ((fd, f) in after ==> after[(fd, f)] == filters[(fd, f)])
    ensures Holds(after, fd, s)
  {
  }

  class EventKqueue {
    var dispatchMap: map<nat, Dispatch>
    var filters: Filters // behind kq_
    var errors: nat // requests that kevent(2) rejected
    ghost var history: seq<Call>

    ghost predicate AllHold(view: View)
      reads this`filters
    {
      forall fd :: Holds(filters, fd, StateOf(view, fd))
    }

    ghost predicate Linked()
      reads this`dispatchMap, dispatchMap.Values`index
    {
      forall fd :: fd in dispatchMap ==> dispatchMap[fd].fd == fd && dispatchMap[fd].index == 0
    }

    ghost predicate Valid()
      reads this, dispatchMap.Values
    {
      Legal(history) && AllHold(Replay(history)) && Linked() && Tracks(dispatchMap, Replay(history)) && errors == 0
    }

    constructor ()
      ensures Valid() && history == [] && dispatchMap == map[]
    {
      dispatchMap, filters, errors, history := map[], map[], 0, [];
    }

    method Kevent(changes: seq<Change>)
      modifies this`filters, this`errors
      ensures filters == AppliedAll(old(filters), changes).0
      ensures errors == old(errors) + if AppliedAll(old(filters), changes).1 then 0 else 1
    {
      var (result, ok) := AppliedAll(filters, changes);
      filters := result;
      if !ok { errors := errors + 1; }
    }

    method ApplyDelta(fd: nat, delta: Modify, ghost view: View, ghost op: Op)
      requires AllHold(view) && Coherent(StateOf(view, fd)) && Notifies(StateOf(view, fd), op)
      requires delta == Delta(StateOf(view, fd), op) && Allowed(view, Do(fd, op))
      modifies this`filters, this`errors
      ensures AllHold(view[fd := After(StateOf(view, fd), op)]) && errors == old(errors)
    {
      hide Coherent, After, Notifies, Delta, Reading, Writing, Holds, AppliedAll;
      ghost var before := filters;
      ChangesFit(filters, fd, StateOf(view, fd), op);
      Kevent(Changes(fd, delta));
      ghost var view' := view[fd := After(StateOf(view, fd), op)];
      forall other: nat ensures Holds(filters, other, StateOf(view', other)) {
        if other != fd { OthersHold(before, filters, other, StateOf(view, other)); }
      }
    }

    method UpdateDispatch(d: Dispatch, ghost view: View, ghost op: Op)
      requires AllHold(view) && Linked() && Coherent(StateOf(view, d.fd))
      requires Notifies(StateOf(view, d.fd), op) && Allowed(view, Do(d.fd, op))
      requires d.modifyEvent == Delta(StateOf(view, d.fd), op)
      requires if d.fd in dispatchMap then dispatchMap[d.fd] == d else d.index == -1
      modifies this`dispatchMap, this`filters, this`errors, d`index
      ensures AllHold(view[d.fd := After(StateOf(view, d.fd), op)]) && errors == old(errors)
      ensures Linked() && dispatchMap == old(dispatchMap)[d.fd := d]
    {
      hide Coherent, After, Notifies, Delta, AllHold, Allowed;
      ApplyDelta(d.fd, d.modifyEvent, view, op);
      if d.index == -1 {
        assert d.fd !in dispatchMap;
        dispatchMap := dispatchMap[d.fd := d];
        d.index := 0;
      } else {
        assert d.fd in dispatchMap && dispatchMap == dispatchMap[d.fd := d];
      }
    }

    method RemoveDispatch(d: Dispatch, ghost view: View)
      requires AllHold(view) && Linked()
      requires d.fd in dispatchMap && dispatchMap[d.fd] == d && d.fd in view && view[d.fd].events == NONE_EVENT
      modifies this`dispatchMap, d`index
      ensures AllHold(view - {d.fd}) && Linked()
      ensures dispatchMap == old(dispatchMap) - {d.fd}
    {
      forall other: nat ensures Holds(filters, other, StateOf(view - {d.fd}, other)) {
        assert Holds(filters, other, StateOf(view, other));
      }
      dispatchMap := dispatchMap - {d.fd};
      d.index := -1;
    }

    method Perform(d: Dispatch, op: Op)
      requires Valid() && Registrable(dispatchMap, d) && Allowed(Replay(history), Do(d.fd, op))
      modifies this, d
      ensures Valid() && history == old(history) + [Do(d.fd, op)] && Registrable(dispatchMap, d)
    {
      hide Coherent, After, Notifies, Delta, Replay, Legal, Step, Allowed, Tracks, AllHold;
      ghost var view := Replay(history);
      Extend(history, Do(d.fd, op));
      ReplayCoherent(history);
      var update := Dispatching.Change(d, op, dispatchMap, view);
      history := history + [Do(d.fd, op)];
      if update {
        UpdateDispatch(d, view, op);
      }
    }

    method Remove(d: Dispatch)
      requires Valid() && d.fd in dispatchMap && dispatchMap[d.fd] == d
      requires Allowed(Replay(history), Call.Remove(d.fd))
      modifies this, d`index
      ensures Valid() && history == old(history) + [Call.Remove(d.fd)]
    {
      hide AllHold;
      Extend(history, Call.Remove(d.fd));
      RemoveDispatch(d, Replay(history));
      history := history + [Call.Remove(d.fd)];
    }

    /** What the kernel watches a descriptor for: its enabled filters. */
    function Watched(fd: nat): bv16
      reads this
    {
      Mask(On(filters, fd, ReadFilter), On(filters, fd, WriteFilter))
    }

    lemma WatchedIsInterest(fd: nat)
      requires Valid()
      ensures Watched(fd) == Interest(Replay(history), fd)
    {
      hide Coherent, Reading, Writing, Mask, Replay, Legal;
      assert Holds(filters, fd, StateOf(Replay(history), fd));
      ReplayCoherent(history);
      CoherentFresh();
      MaskOf(StateOf(Replay(history), fd));
    }
  }
}
