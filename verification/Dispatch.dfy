/** The Dispatch of voyager/core/dispatch.cc and the interest that a history of calls leaves. */
module Dispatching {
  const READ_EVENT: bv16 := 0x3 // POLLIN | POLLPRI
  const WRITE_EVENT: bv16 := 0x4 // POLLOUT
  const NONE_EVENT: bv16 := 0x0

  datatype Modify = NoModify | AddRead | AddWrite | DeleteRead | DeleteWrite | EnableWrite | DisableWrite | DeleteAll

  datatype Op = DoEnableRead | DoEnableWrite | DoDisableRead | DoDisableWrite | DoDisableAll

  predicate Reading(events: bv16) { events & READ_EVENT != 0 }
  predicate Writing(events: bv16) { events & WRITE_EVENT != 0 }

  function SetRead(events: bv16): bv16 { events | READ_EVENT }
  function SetWrite(events: bv16): bv16 { events | WRITE_EVENT }
  function ClearRead(events: bv16): bv16 { events & !READ_EVENT }
  function ClearWrite(events: bv16): bv16 { events & !WRITE_EVENT }

  // ----- What one call does, on values -----

  datatype State = State(events: bv16, addWrite: bool)

  const FRESH := State(NONE_EVENT, false)

  /** Whether the call reaches the poller at all. */
  predicate Notifies(s: State, op: Op) {
    match op
    case DoDisableWrite => s.addWrite
    case DoDisableAll => Reading(s.events) || s.addWrite
    case _ => true
  }

  function After(s: State, op: Op): State {
    match op
    case DoEnableRead => s.(events := SetRead(s.events))
    case DoEnableWrite => State(SetWrite(s.events), true)
    case DoDisableRead => s.(events := ClearRead(s.events))
    case DoDisableWrite => if s.addWrite then s.(events := ClearWrite(s.events)) else s
    case DoDisableAll => if Notifies(s, op) then FRESH else s
  }

  /** What select and kqueue are told has changed. */
  function Delta(s: State, op: Op): Modify {
    match op
    case DoEnableRead => AddRead
    case DoEnableWrite => if s.addWrite then EnableWrite else AddWrite
    case DoDisableRead => DeleteRead
    case DoDisableWrite => DisableWrite
    case DoDisableAll =>
      if Reading(s.events) && s.addWrite then DeleteAll
      else if Reading(s.events) then DeleteRead
      else if s.addWrite then DeleteWrite
      else NoModify
  }

  /** The events are whole read and write interests, and nothing is written that was never added. */
  predicate Coherent(s: State) {
    (s.events == 0 || s.events == 0x3 || s.events == 0x4 || s.events == 0x7) &&
    (Writing(s.events) ==> s.addWrite)
  }

  lemma AfterCoherent(s: State, op: Op)
    requires Coherent(s)
    ensures Coherent(After(s, op))
    ensures !Notifies(s, op) ==> After(s, op) == s
  {
  }

  // ----- Histories -----

  datatype Call = Do(fd: nat, op: Op) | Remove(fd: nat)

  type View = map<nat, State>

  /** A dispatch that the poller has not seen has no interest yet. */
  function StateOf(view: View, fd: nat): State { if fd in view then view[fd] else FRESH }

  /** What the library's callers keep to: reads are disabled only while reading, and a dispatch
      is removed once, with no interest left. */
  predicate Allowed(view: View, call: Call) {
    match call
    case Do(fd, op) => op.DoDisableRead? ==> Reading(StateOf(view, fd).events)
    case Remove(fd) => fd in view && view[fd].events == NONE_EVENT
  }

  function Step(view: View, call: Call): View
    requires Allowed(view, call)
  {
    match call
    case Do(fd, op) =>
      if Notifies(StateOf(view, fd), op) then view[fd := After(StateOf(view, fd), op)] else view
    case Remove(fd) => view - {fd}
  }

  predicate Legal(history: seq<Call>)
    decreases |history|, 0
  {
    history == [] ||
    var n := |history| - 1;
    Legal(history[..n]) && Allowed(Replay(history[..n]), history[n])
  }

  function Replay(history: seq<Call>): View
    requires Legal(history)
    decreases |history|, 1
  {
    if history == [] then map[] else Step(Replay(history[..|history| - 1]), history[|history| - 1])
  }

  lemma Extend(history: seq<Call>, call: Call)
    requires Legal(history) && Allowed(Replay(history), call)
    ensures Legal(history + [call]) && Replay(history + [call]) == Step(Replay(history), call)
  {
    assert (history + [call])[..|history|] == history;
  }

  ghost predicate AllCoherent(view: View) { forall fd :: fd in view ==> Coherent(view[fd]) }

  lemma {:induction false} ReplayCoherent(history: seq<Call>)
    requires Legal(history)
    ensures AllCoherent(Replay(history))
  {
    hide Coherent, After, Notifies, Reading;
    CoherentFresh();
    if history != [] {
      var before := history[..|history| - 1];
      ReplayCoherent(before);
      match history[|history| - 1]
      case Do(fd, op) => AfterCoherent(StateOf(Replay(before), fd), op);
      case _ =>
    }
  }

  lemma CoherentFresh()
    ensures Coherent(FRESH)
  {
  }

  /** The interest that a view holds in a descriptor. */
  function Interest(view: View, fd: nat): bv16 { StateOf(view, fd).events }

  // ----- What a history means -----

  predicate EndsRead(call: Call, fd: nat) {
    call == Do(fd, DoDisableRead) || call == Do(fd, DoDisableAll) || call == Remove(fd)
  }

  predicate EndsWrite(call: Call, fd: nat) {
    call == Do(fd, DoDisableWrite) || call == Do(fd, DoDisableAll) || call == Remove(fd)
  }

  /** Of the calls about reading the last one enables it. */
  predicate ReadWanted(history: seq<Call>, fd: nat) {
    exists i :: 0 <= i < |history| && history[i] == Do(fd, DoEnableRead) &&
      forall j :: i < j < |history| ==> !EndsRead(history[j], fd)
  }

  predicate WriteWanted(history: seq<Call>, fd: nat) {
    exists i :: 0 <= i < |history| && history[i] == Do(fd, DoEnableWrite) &&
      forall j :: i < j < |history| ==> !EndsWrite(history[j], fd)
  }

  lemma WantedStep(history: seq<Call>, call: Call, fd: nat)
    ensures ReadWanted(history + [call], fd) <==>
      call == Do(fd, DoEnableRead) || (ReadWanted(history, fd) && !EndsRead(call, fd))
    ensures WriteWanted(history + [call], fd) <==>
      call == Do(fd, DoEnableWrite) || (WriteWanted(history, fd) && !EndsWrite(call, fd))
  {
    var h, n := history + [call], |history|;
    assert h[n] == call && forall i :: 0 <= i < n ==> h[i] == history[i];
    if call == Do(fd, DoEnableRead) { assert ReadWanted(h, fd); }
    if call == Do(fd, DoEnableWrite) { assert WriteWanted(h, fd); }
    if i :| 0 <= i < n && history[i] == Do(fd, DoEnableRead) && forall j :: i < j < n ==> !EndsRead(history[j], fd) {
      if !EndsRead(call, fd) { assert h[i] == Do(fd, DoEnableRead); }
    }
    if i :| 0 <= i < n && history[i] == Do(fd, DoEnableWrite) && forall j :: i < j < n ==> !EndsWrite(history[j], fd) {
      if !EndsWrite(call, fd) { assert h[i] == Do(fd, DoEnableWrite); }
    }
  }

  lemma StepInterest(view: View, call: Call, fd: nat)
    requires Coherent(StateOf(view, fd)) && Allowed(view, call)
    ensures var t := StateOf(Step(view, call), fd);
      (Reading(t.events) <==> call == Do(fd, DoEnableRead) || (Reading(StateOf(view, fd).events) && !EndsRead(call, fd))) &&
      (Writing(t.events) <==> call == Do(fd, DoEnableWrite) || (Writing(StateOf(view, fd).events) && !EndsWrite(call, fd)))
  {
  }

  /** In every history a descriptor is watched for reading if and only if the last call that
      enabled or ended it enabled it, and likewise for writing. */
  lemma {:induction false} InterestIsWanted(history: seq<Call>, fd: nat)
    requires Legal(history)
    ensures Reading(Interest(Replay(history), fd)) <==> ReadWanted(history, fd)
    ensures Writing(Interest(Replay(history), fd)) <==> WriteWanted(history, fd)
    decreases |history|
  {
    hide ReadWanted, WriteWanted, Coherent, Step, Allowed, EndsRead, EndsWrite;
    if history == [] {
      NothingWanted(fd);
    } else {
      var n := |history| - 1;
      InterestIsWanted(history[..n], fd);
      ReplayCoherent(history[..n]);
      CoherentFresh();
      StepInterest(Replay(history[..n]), history[n], fd);
      WantedStep(history[..n], history[n], fd);
      assert history[..n] + [history[n]] == history;
    }
  }

  lemma NothingWanted(fd: nat)
    ensures !ReadWanted([], fd) && !WriteWanted([], fd)
    ensures !Reading(NONE_EVENT) && !Writing(NONE_EVENT)
  {
  }

  /** What registers a dispatch leaves it with an interest. */
  lemma FirstInterest(op: Op)
    requires op.DoDisableRead? ==> Reading(FRESH.events)
    ensures Notifies(FRESH, op) ==> After(FRESH, op).events != NONE_EVENT
  {
  }

  // ----- The object -----

  lemma ReadSet(e: bv16)
    ensures Reading(SetRead(e))
  {
  }

  lemma ReadSetAlone(e: bv16)
    ensures Writing(SetRead(e)) == Writing(e)
  {
  }

  lemma WriteSet(e: bv16)
    ensures Writing(SetWrite(e))
  {
  }

  lemma WriteSetAlone(e: bv16)
    ensures Reading(SetWrite(e)) == Reading(e)
  {
  }

  lemma ReadCleared(e: bv16)
    ensures !Reading(ClearRead(e))
  {
  }

  lemma ReadClearedAlone(e: bv16)
    ensures Writing(ClearRead(e)) == Writing(e)
  {
  }

  lemma WriteCleared(e: bv16)
    ensures !Writing(ClearWrite(e))
  {
  }

  lemma WriteClearedAlone(e: bv16)
    ensures Reading(ClearWrite(e)) == Reading(e)
  {
  }

  class Dispatch {
    const fd: nat
    var events: bv16
    var index: int
    var modifyEvent: Modify
    var addWrite: bool

    constructor (fd: nat)
      ensures this.fd == fd && Shows(FRESH) && index == -1
    {
      this.fd := fd;
      events := NONE_EVENT;
      index := -1;
      modifyEvent := NoModify;
      addWrite := false;
    }

    ghost predicate Shows(s: State)
      reads this`events, this`addWrite
    {
      events == s.events && addWrite == s.addWrite
    }

    predicate IsReading()
      reads this
    {
      Reading(events)
    }

    predicate IsWriting()
      reads this
    {
      Writing(events)
    }

    predicate IsNoneEvent()
      reads this
    {
      events == NONE_EVENT
    }

    // Each of these returns whether it calls UpdateEvents, which hands the dispatch to the poller.

    method EnableRead(ghost s: State) returns (update: bool)
      requires Shows(s)
      modifies this`events, this`modifyEvent
      ensures update == Notifies(s, DoEnableRead) && Shows(After(s, DoEnableRead))
      ensures modifyEvent == Delta(s, DoEnableRead)
      ensures IsReading() && IsWriting() == old(IsWriting())
    {
      ReadSet(events);
      ReadSetAlone(events);
      hide SetRead;
      events := SetRead(events);
      modifyEvent := AddRead;
      update := true;
    }

    method EnableWrite(ghost s: State) returns (update: bool)
      requires Shows(s)
      modifies this`events, this`modifyEvent, this`addWrite
      ensures update == Notifies(s, DoEnableWrite) && Shows(After(s, DoEnableWrite))
      ensures modifyEvent == Delta(s, DoEnableWrite)
      ensures IsWriting() && IsReading() == old(IsReading())
    {
      WriteSet(events);
      WriteSetAlone(events);
      hide SetWrite;
      events := SetWrite(events);
      if addWrite {
        modifyEvent := Modify.EnableWrite;
      } else {
        modifyEvent := AddWrite;
        addWrite := true;
      }
      update := true;
    }

    method DisableRead(ghost s: State) returns (update: bool)
      requires Shows(s)
      modifies this`events, this`modifyEvent
      ensures update == Notifies(s, DoDisableRead) && Shows(After(s, DoDisableRead))
      ensures modifyEvent == Delta(s, DoDisableRead)
      ensures !IsReading() && IsWriting() == old(IsWriting())
    {
      ReadCleared(events);
      ReadClearedAlone(events);
      hide ClearRead;
      events := ClearRead(events);
      modifyEvent := DeleteRead;
      update := true;
    }

    method DisableWrite(ghost s: State) returns (update: bool)
      requires Shows(s)
      modifies this`events, this`modifyEvent
      ensures update == Notifies(s, DoDisableWrite) && Shows(After(s, DoDisableWrite))
      ensures update ==> modifyEvent == Delta(s, DoDisableWrite)
      ensures IsReading() == old(IsReading()) && (old(addWrite) ==> !IsWriting())
    {
      WriteCleared(events);
      WriteClearedAlone(events);
      hide ClearWrite;
      update := addWrite;
      if addWrite {
        events := ClearWrite(events);
        modifyEvent := Modify.DisableWrite;
      }
    }

    method DisableAll(ghost s: State) returns (update: bool)
      requires Shows(s)
      modifies this`events, this`modifyEvent, this`addWrite
      ensures update == Notifies(s, DoDisableAll) && Shows(After(s, DoDisableAll))
      ensures modifyEvent == Delta(s, DoDisableAll)
      ensures !IsReading() && (old(addWrite) ==> !IsWriting())
    {
      if IsReading() && addWrite {
        modifyEvent := DeleteAll;
      } else if IsReading() {
        modifyEvent := DeleteRead;
      } else if addWrite {
        modifyEvent := DeleteWrite;
      } else {
        modifyEvent := NoModify;
        return false;
      }
      addWrite := false;
      events := NONE_EVENT;
      update := true;
    }

    method Perform(op: Op, ghost s: State) returns (update: bool)
      requires Shows(s)
      modifies this`events, this`modifyEvent, this`addWrite
      ensures update == Notifies(s, op) && Shows(After(s, op))
      ensures update ==> modifyEvent == Delta(s, op)
    {
      hide Notifies, After, Delta;
      match op {
        case DoEnableRead => update := EnableRead(s);
        case DoEnableWrite => update := EnableWrite(s);
        case DoDisableRead => update := DisableRead(s);
        case DoDisableWrite => update := DisableWrite(s);
        case DoDisableAll => update := DisableAll(s);
      }
    }
  }

  /** The map from descriptors to dispatches is the one of the view and shows its states. */
  ghost predicate Tracks(dispatchMap: map<nat, Dispatch>, view: View)
    reads dispatchMap.Values`events, dispatchMap.Values`addWrite
  {
    dispatchMap.Keys == view.Keys &&
    forall fd :: fd in dispatchMap ==> dispatchMap[fd].fd == fd && dispatchMap[fd].Shows(view[fd])
  }

  /** The poller knows d, or d is new and its descriptor free. */
  ghost predicate Registrable(dispatchMap: map<nat, Dispatch>, d: Dispatch)
    reads d
  {
    if d.fd in dispatchMap then dispatchMap[d.fd] == d else d.Shows(FRESH) && d.index == -1
  }

  /** A call on one dispatch, seen from a loop that tracks many. */
  method Change(d: Dispatch, op: Op, ghost dispatchMap: map<nat, Dispatch>, ghost view: View) returns (update: bool)
    requires Tracks(dispatchMap, view) && AllCoherent(view) && Registrable(dispatchMap, d)
    requires Allowed(view, Do(d.fd, op))
    modifies d`events, d`modifyEvent, d`addWrite
    ensures var s := StateOf(view, d.fd);
      update == Notifies(s, op) && d.Shows(After(s, op)) && Coherent(s) && Coherent(After(s, op)) &&
      (update ==> d.modifyEvent == Delta(s, op) && (d.fd !in view ==> d.events != NONE_EVENT)) &&
      Step(view, Do(d.fd, op)) == (if update then view[d.fd := After(s, op)] else view)
    ensures Tracks(if update then dispatchMap[d.fd := d] else dispatchMap, Step(view, Do(d.fd, op)))
    ensures !update ==> Registrable(dispatchMap, d)
  {
    hide Coherent, After, Notifies, Reading, Delta;
    ghost var s := StateOf(view, d.fd);
    CoherentFresh();
    AfterCoherent(s, op);
    if d.fd !in view { FirstInterest(op); }
    update := d.Perform(op, s);
  }

  /** A delta carries over to the new interest: the poller that applies it need not see the events. */
  lemma DeltaMeaning(s: State, op: Op)
    requires Coherent(s) && Notifies(s, op) && (op.DoDisableRead? ==> Reading(s.events))
    ensures var t := After(s, op);
      match Delta(s, op)
      case AddRead => Reading(t.events) && Writing(t.events) == Writing(s.events) && t.addWrite == s.addWrite
      case AddWrite => Reading(t.events) == Reading(s.events) && Writing(t.events) && !s.addWrite && t.addWrite
      case EnableWrite => Reading(t.events) == Reading(s.events) && Writing(t.events) && s.addWrite && t.addWrite
      case DeleteRead => Reading(s.events) && !Reading(t.events) && Writing(t.events) == Writing(s.events) && t.addWrite == s.addWrite
      case DisableWrite => Reading(t.events) == Reading(s.events) && !Writing(t.events) && s.addWrite && t.addWrite
      case DeleteWrite => !Reading(s.events) && !Reading(t.events) && !Writing(t.events) && s.addWrite && !t.addWrite
      case DeleteAll => Reading(s.events) && s.addWrite && !Reading(t.events) && !Writing(t.events) && !t.addWrite
      case NoModify => false
  {
  }

  /** The mask of a coherent state, from its two interests. */
  function Mask(reading: bool, writing: bool): bv16 {
    (if reading then READ_EVENT else NONE_EVENT) | (if writing then WRITE_EVENT else NONE_EVENT)
  }

  lemma MaskOf(s: State)
    requires Coherent(s)
    ensures s.events == Mask(Reading(s.events), Writing(s.events))
    ensures s.events == NONE_EVENT <==> !Reading(s.events) && !Writing(s.events)
  {
  }
}
