/** The epoll backend of voyager/core/event_epoll.cc over a model of the kernel's interest list. */
module EpollBackend {
  import opened Dispatching

  const NEW := -1
  const ADDED := 1
  const DELETED := 2

  datatype CtlOp = Add | Mod | Del

  /** The index says whether the kernel holds the descriptor, and then it holds its events. */
  predicate Agrees(held: bool, mask: bv16, index: int, events: bv16) {
    if held then index == ADDED && mask == events else index == DELETED && events == NONE_EVENT
  }

  lemma AgreesAt(mask: bv16)
    ensures Agrees(true, mask, ADDED, mask) && Agrees(false, mask, DELETED, NONE_EVENT)
  {
  }

  function MaskIn(kernel: map<nat, bv16>, fd: nat): bv16 { if fd in kernel then kernel[fd] else NONE_EVENT }

  class EventEpoll {
    var dispatchMap: map<nat, Dispatch>
    var kernel: map<nat, bv16> // the interest list behind epollfd_
    var errors: nat // requests that epoll_ctl(2) rejected
    ghost var history: seq<Call>

    ghost predicate Linked(view: View)
      reads this`dispatchMap, this`kernel, dispatchMap.Values`index
    {
      dispatchMap.Keys == view.Keys && kernel.Keys <= view.Keys &&
      forall fd :: fd in dispatchMap ==>
        dispatchMap[fd].fd == fd && Agrees(fd in kernel, MaskIn(kernel, fd), dispatchMap[fd].index, view[fd].events)
    }

    ghost predicate Valid()
      reads this, dispatchMap.Values
    {
      Legal(history) && Linked(Replay(history)) && Tracks(dispatchMap, Replay(history)) && errors == 0
    }

    constructor ()
      ensures Valid() && history == [] && dispatchMap == map[]
    {
      dispatchMap, kernel, errors, history := map[], map[], 0, [];
    }

    /** epoll_ctl(2): EEXIST for a second ADD, ENOENT for MOD or DEL of what is not there. */
    method EpollCTL(op: CtlOp, d: Dispatch)
      modifies this`kernel, this`errors
      ensures op.Add? && d.fd !in old(kernel) ==> errors == old(errors) && kernel == old(kernel)[d.fd := d.events]
      ensures op.Mod? && d.fd in old(kernel) ==> errors == old(errors) && kernel == old(kernel)[d.fd := d.events]
      ensures op.Del? && d.fd in old(kernel) ==> errors == old(errors) && kernel == old(kernel) - {d.fd}
      ensures (op.Add? <==> d.fd in old(kernel)) ==> errors == old(errors) + 1 && kernel == old(kernel)
    {
      if op.Add? <==> d.fd in kernel {
        errors := errors + 1;
      } else if op.Del? {
        kernel := kernel - {d.fd};
      } else {
        kernel := kernel[d.fd := d.events];
      }
    }

    /** A dispatch that the kernel does not hold is added, whatever its mask. */
    method AddToKernel(d: Dispatch, ghost view: View, ghost s: State)
      requires Linked(view) && d.events == s.events && d.fd !in kernel
      requires if d.fd in dispatchMap then dispatchMap[d.fd] == d && d.index == DELETED else d.index == NEW
      modifies this`dispatchMap, this`kernel, this`errors, d`index
      ensures Linked(view[d.fd := s]) && dispatchMap == old(dispatchMap)[d.fd := d]
      ensures errors == old(errors)
    {
      AgreesAt(s.events);
      hide Agrees;
      if d.index == NEW {
        assert d.fd !in dispatchMap;
        dispatchMap := dispatchMap[d.fd := d];
      } else {
        assert d.fd in dispatchMap && dispatchMap[d.fd] == d;
        assert dispatchMap == dispatchMap[d.fd := d];
      }
      d.index := ADDED;
      EpollCTL(Add, d);
    }

    /** A dispatch that the kernel holds is taken out once its interest is gone. */
    method ChangeInKernel(d: Dispatch, ghost view: View, ghost s: State)
      requires Linked(view) && d.events == s.events && d.fd in kernel
      requires d.fd in dispatchMap && dispatchMap[d.fd] == d && d.index == ADDED
      modifies this`kernel, this`errors, d`index
      ensures Linked(view[d.fd := s])
      ensures errors == old(errors)
    {
      AgreesAt(s.events);
      AgreesAt(MaskIn(kernel - {d.fd}, d.fd));
      hide Agrees;
      if d.IsNoneEvent() {
        EpollCTL(Del, d);
        d.index := DELETED;
      } else {
        EpollCTL(Mod, d);
      }
    }

    method UpdateDispatch(d: Dispatch, ghost view: View, ghost s: State)
      requires Linked(view) && d.events == s.events
      requires if d.fd in dispatchMap then dispatchMap[d.fd] == d else d.index == NEW
      modifies this`dispatchMap, this`kernel, this`errors, d`index
      ensures Linked(view[d.fd := s]) && dispatchMap == old(dispatchMap)[d.fd := d]
      ensures errors == old(errors)
    {
      var idx := d.index;
      if idx == NEW || idx == DELETED {
        AddToKernel(d, view, s);
      } else {
        assert d.fd in dispatchMap && dispatchMap[d.fd] == d && idx == ADDED;
        ChangeInKernel(d, view, s);
        assert dispatchMap == dispatchMap[d.fd := d];
      }
    }

    method RemoveDispatch(d: Dispatch, ghost view: View)
      requires Linked(view) && d.fd in dispatchMap && dispatchMap[d.fd] == d
      requires d.events == view[d.fd].events == NONE_EVENT
      modifies this`dispatchMap, this`kernel, this`errors, d`index
      ensures Linked(view - {d.fd}) && dispatchMap == old(dispatchMap) - {d.fd}
      ensures errors == old(errors)
    {
      var idx := d.index;
      assert idx == ADDED || idx == DELETED;
      dispatchMap := dispatchMap - {d.fd};
      if idx == ADDED {
        EpollCTL(Del, d);
      }
      d.index := NEW;
    }

    method Perform(d: Dispatch, op: Op)
      requires Valid() && Registrable(dispatchMap, d) && Allowed(Replay(history), Do(d.fd, op))
      modifies this, d
      ensures Valid() && history == old(history) + [Do(d.fd, op)] && Registrable(dispatchMap, d)
    {
      hide Coherent, After, Notifies, Delta, Replay, Legal, Step, Allowed, Tracks, StateOf, Linked, Agrees, MaskIn;
      ghost var view := Replay(history);
      Extend(history, Do(d.fd, op));
      ReplayCoherent(history);
      var update := Change(d, op, dispatchMap, view);
      history := history + [Do(d.fd, op)];
      if update {
        UpdateDispatch(d, view, After(StateOf(view, d.fd), op));
      }
    }

    method Remove(d: Dispatch)
      requires Valid() && d.fd in dispatchMap && dispatchMap[d.fd] == d
      requires Allowed(Replay(history), Call.Remove(d.fd))
      modifies this, d`index
      ensures Valid() && history == old(history) + [Call.Remove(d.fd)]
    {
      Extend(history, Call.Remove(d.fd));
      RemoveDispatch(d, Replay(history));
      history := history + [Call.Remove(d.fd)];
    }

    /** What the kernel watches a descriptor for; it may hold one for nothing. */
    function Watched(fd: nat): bv16
      reads this
    {
      MaskIn(kernel, fd)
    }

    lemma WatchedIsInterest(fd: nat)
      requires Valid()
      ensures Watched(fd) == Interest(Replay(history), fd)
    {
      hide Replay, Legal;
    }
  }
}
