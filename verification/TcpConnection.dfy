/** The connection of voyager/core/tcp_connection.cc: direct writes, a spill buffer, and a close
    state machine that together keep one byte stream. */
module Tcp {
  import opened Wrappers
  import opened Buffers
  import opened Dispatching

  datatype ConnectState = Disconnected | Disconnecting | Connected

  datatype Errno = EPIPE | ECONNRESET | EAGAIN | EWOULDBLOCK | OtherErrno

  /** write(2) takes at most this many of the bytes it is given, or fails. */
  datatype WriteResult = Wrote(atMost: nat) | WriteFailed(errno: Errno)
  datatype ReadResult = ReadBytes(bytes: seq<bv8>) | ReadFailed(errno: Errno)

  predicate Fatal(errno: Errno) { errno.EPIPE? || errno.ECONNRESET? }

  /** What a user callback does to its connection, and what other threads do to it meanwhile; a
      ForceClose may be from either. A send carries what the kernel will answer
      and what the write-complete callback will do, should the send complete at once. */
  datatype Action =
    | Send(data: seq<bv8>, answer: WriteResult, onComplete: seq<Action>)
    | ShutDown
    | ForceClose
    | ShutDownElsewhere // ShutDown from another thread, landing here

  type Script = seq<Action>

  datatype Cause = NotClosed | PeerClosed | ReadFault | WriteFault | AfterWrite | Forced

  // ----- The connection as a value -----

  /** wire is what write(2) has taken, accepted what SendInLoop was given before the connection
      closed, out the spill buffer, finShort whether the write side was ever shut down with
      accepted bytes missing from the wire, and cause the handler that closed the connection. */
  datatype Conn = Conn(state: ConnectState, out: seq<bv8>, writing: bool, wire: seq<bv8>, accepted: seq<bv8>,
                       finSent: bool, finShort: bool, closes: nat, shutDowns: nat, cause: Cause)

  const STARTED := Conn(Connected, [], false, [], [], false, false, 0, 0, NotClosed)

  function Taken(atMost: nat, size: nat): nat { if atMost < size then atMost else size }

  function Spilled(c: Conn, data: seq<bv8>): Conn {
    if data == [] then c else c.(out := c.out + data, writing := true)
  }

  function Closed(c: Conn, why: Cause): Conn {
    c.(state := Disconnected, writing := false, cause := why)
  }

  function Sent(c: Conn, data: seq<bv8>, answer: WriteResult, onComplete: Script): Conn
    decreases onComplete, 2
  {
    if c.state.Disconnected? then c
    else
      var c1 := c.(accepted := c.accepted + data);
      if c.writing || c.out != [] then Spilled(c1, data)
      else
        match answer
        case Wrote(atMost) =>
          var n := Taken(atMost, |data|);
          var c2 := c1.(wire := c1.wire + data[..n]);
          if n == |data| then Ran(c2, onComplete) else Spilled(c2, data[n..])
        case WriteFailed(errno) => if Fatal(errno) then Closed(c1, WriteFault) else Spilled(c1, data)
  }

  function FinishedShutDown(c: Conn): Conn {
    if c.writing then c else c.(finSent := true, finShort := c.finShort || c.wire != c.accepted)
  }

  function ShutDownFromElsewhere(c: Conn): Conn {
    if c.state.Connected? then c.(state := Disconnecting, shutDowns := c.shutDowns + 1) else c
  }

  function Acted(c: Conn, a: Action): Conn
    decreases a, 3
  {
    match a
    case Send(data, answer, onComplete) => if c.state.Connected? then Sent(c, data, answer, onComplete) else c
    case ShutDown => if c.state.Connected? then FinishedShutDown(c.(state := Disconnecting)) else c
    case ForceClose => if c.state.Disconnected? then c else c.(state := Disconnecting, closes := c.closes + 1)
    case ShutDownElsewhere => ShutDownFromElsewhere(c)
  }

  function Ran(c: Conn, script: Script): Conn
    decreases script, 1
  {
    if script == [] then c else Ran(Acted(c, script[0]), script[1..])
  }

  function Writable(c: Conn, answer: WriteResult, onComplete: Script): Conn {
    if !c.writing then c
    else
      match answer
      case Wrote(atMost) =>
        var n := Taken(atMost, |c.out|);
        var c1 := c.(wire := c.wire + c.out[..n], out := c.out[n..]);
        if n < |c.out| then c1 else AfterDrain(Ran(c1.(writing := false), onComplete))
      case WriteFailed(errno) => if Fatal(errno) then Closed(c, WriteFault) else c
  }

  function AfterDrain(c: Conn): Conn { if c.state.Disconnecting? then Closed(c, AfterWrite) else c }

  function Readable(c: Conn, result: ReadResult, onMessage: Script): Conn {
    match result
    case ReadBytes(bytes) => if bytes != [] then Ran(c, onMessage) else Closed(c, PeerClosed)
    case ReadFailed(errno) => if Fatal(errno) then Closed(c, ReadFault) else c
  }

  // ----- What every step keeps -----

  ghost predicate Inv(c: Conn) {
    (c.state.Disconnected? <==> c.cause != NotClosed) &&
    if c.state.Disconnected? then c.wire <= c.accepted && !c.writing
    else c.wire + c.out == c.accepted && (c.writing <==> c.out != [])
  }

  /** Nothing that was put on the wire or accepted is taken back; a closed connection writes no
      more; one that is disconnecting accepts no messages from its callbacks. */
  ghost predicate Onward(c: Conn, d: Conn) {
    c.wire <= d.wire && c.accepted <= d.accepted &&
    (c.state.Disconnected? ==> d.state.Disconnected? && d.cause == c.cause && d.wire == c.wire) &&
    (d.state.Connected? ==> c.state.Connected?)
  }

  lemma OnwardTrans(c: Conn, d: Conn, e: Conn)
    requires Onward(c, d) && Onward(d, e)
    ensures Onward(c, e)
  {
  }

  /** d has accepted the data after what c had accepted, and goes on from c. */
  ghost predicate Advances(c: Conn, data: seq<bv8>, d: Conn) {
    Inv(d) && Onward(c, d) && (!c.state.Disconnected? ==> c.accepted + data <= d.accepted) &&
    (d.cause == c.cause || d.cause == WriteFault)
  }

  /** n bytes of the data on the wire and the others spilled. */
  lemma SpillAdvances(c: Conn, data: seq<bv8>, n: nat)
    requires Inv(c) && !c.state.Disconnected? && n <= |data| && (n > 0 ==> c.out == [])
    ensures Advances(c, data, Spilled(c.(accepted := c.accepted + data, wire := c.wire + data[..n]), data[n..]))
  {
    assert data[..n] + data[n..] == data;
    assert c.wire + data[..n] + (c.out + data[n..]) == c.accepted + data;
  }

  lemma {:induction false} WholeAdvances(c: Conn, data: seq<bv8>, onComplete: Script)
    requires Inv(c) && !c.state.Disconnected? && c.out == []
    ensures Advances(c, data, Ran(c.(accepted := c.accepted + data, wire := c.wire + data), onComplete))
    decreases onComplete, 2
  {
    var c1 := c.(accepted := c.accepted + data, wire := c.wire + data);
    assert Inv(c1) && Onward(c, c1);
    hide Inv;
    RanKeeps(c1, onComplete);
    OnwardTrans(c, c1, Ran(c1, onComplete));
  }

  lemma {:induction false} SentKeeps(c: Conn, data: seq<bv8>, answer: WriteResult, onComplete: Script)
    requires Inv(c)
    ensures Advances(c, data, Sent(c, data, answer, onComplete))
    decreases onComplete, 3
  {
    if c.state.Disconnected? { return; }
    var n := if c.writing || c.out != [] || answer.WriteFailed? then 0 else Taken(answer.atMost, |data|);
    SpillAdvances(c, data, n);
    assert n == 0 ==> c.wire + data[..n] == c.wire && data[n..] == data;
    if n == |data| {
      assert data[..n] == data;
      if c.out == [] { WholeAdvances(c, data, onComplete); }
    }
    if Closing(c, answer) { ClosedAdvances(c, data); }
    hide Advances, Spilled, Inv, Closed;
  }

  predicate Closing(c: Conn, answer: WriteResult) {
    !c.writing && c.out == [] && answer.WriteFailed? && Fatal(answer.errno)
  }

  lemma ClosedAdvances(c: Conn, data: seq<bv8>)
    requires Inv(c) && !c.state.Disconnected? && c.out == []
    ensures Advances(c, data, Closed(c.(accepted := c.accepted + data), WriteFault))
  {
  }

  lemma {:induction false} RanKeeps(c: Conn, script: Script)
    requires Inv(c)
    ensures Inv(Ran(c, script)) && Onward(c, Ran(c, script))
    ensures Ran(c, script).cause == c.cause || Ran(c, script).cause == WriteFault
    ensures c.state.Disconnecting? ==> Ran(c, script) == c.(closes := Ran(c, script).closes)
    decreases script, 1
  {
    if script != [] {
      ActedKeeps(c, script[0]);
      hide Inv, Acted;
      RanKeeps(Acted(c, script[0]), script[1..]);
      OnwardTrans(c, Acted(c, script[0]), Ran(c, script));
    }
  }

  lemma {:induction false} ActedKeeps(c: Conn, a: Action)
    requires Inv(c)
    ensures Inv(Acted(c, a)) && Onward(c, Acted(c, a))
    ensures Acted(c, a).cause == c.cause || Acted(c, a).cause == WriteFault
    ensures c.state.Disconnecting? ==> Acted(c, a) == c.(closes := Acted(c, a).closes)
    decreases a, 3
  {
    if a.Send? { SentKeeps(c, a.data, a.answer, a.onComplete); }
  }

  // ----- Whole runs -----

  /** What the loop delivers to a connection. A queued send comes from another thread, which saw
      the connection connected; it arrives in whatever state the connection then is. */
  datatype Event =
    | QueuedSend(data: seq<bv8>, answer: WriteResult, onComplete: Script)
    | UserCode(script: Script)
    | CanWrite(answer: WriteResult, onComplete: Script)
    | CanRead(result: ReadResult, onMessage: Script)
    | QueuedClose
    | QueuedShutDown

  /** Reads are not delivered to a closed connection, and queued functions run once each. */
  predicate Possible(c: Conn, e: Event) {
    match e
    case CanRead(_, _) => !c.state.Disconnected?
    case QueuedClose => c.closes > 0
    case QueuedShutDown => c.shutDowns > 0
    case _ => true
  }

  function ClosedByQueue(c: Conn): Conn {
    var c1 := c.(closes := if c.closes > 0 then c.closes - 1 else 0);
    if c.state.Disconnected? then c1 else Closed(c1, Forced)
  }

  function ShutDownByQueue(c: Conn): Conn {
    FinishedShutDown(c.(shutDowns := if c.shutDowns > 0 then c.shutDowns - 1 else 0))
  }

  function Next(c: Conn, e: Event): Conn {
    match e
    case QueuedSend(data, answer, onComplete) => Sent(c, data, answer, onComplete)
    case UserCode(script) => Ran(c, script)
    case CanWrite(answer, onComplete) => Writable(c, answer, onComplete)
    case CanRead(result, onMessage) => Readable(c, result, onMessage)
    case QueuedClose => ClosedByQueue(c)
    case QueuedShutDown => ShutDownByQueue(c)
  }

  predicate AllPossible(c: Conn, events: seq<Event>)
    decreases events
  {
    events == [] || (Possible(c, events[0]) && AllPossible(Next(c, events[0]), events[1..]))
  }

  function Run(c: Conn, events: seq<Event>): Conn
    decreases events
  {
    if events == [] then c else Run(Next(c, events[0]), events[1..])
  }

  lemma WritableKeeps(c: Conn, answer: WriteResult, onComplete: Script)
    requires Inv(c)
    ensures Inv(Writable(c, answer, onComplete)) && Onward(c, Writable(c, answer, onComplete))
  {
    if c.writing && answer.Wrote? {
      var n := Taken(answer.atMost, |c.out|);
      var c1 := c.(wire := c.wire + c.out[..n], out := c.out[n..]);
      assert c.out[..n] + c.out[n..] == c.out;
      assert c1.wire + c1.out == c.accepted;
      if n == |c.out| { RanKeeps(c1.(writing := false), onComplete); }
    }
  }

  lemma NextKeeps(c: Conn, e: Event)
    requires Inv(c) && Possible(c, e)
    ensures Inv(Next(c, e)) && Onward(c, Next(c, e))
  {
    match e
    case QueuedSend(data, answer, onComplete) => SentKeeps(c, data, answer, onComplete);
    case UserCode(script) => RanKeeps(c, script);
    case CanWrite(answer, onComplete) => WritableKeeps(c, answer, onComplete);
    case CanRead(result, onMessage) => RanKeeps(c, onMessage);
    case _ =>
  }

  /** In every run, what is on the wire and what is spilled are together what was accepted, write
      interest is on exactly while something is spilled, and after the close the wire is a prefix. */
  lemma {:induction false} RunKeeps(c: Conn, events: seq<Event>)
    requires Inv(c) && AllPossible(c, events)
    ensures Inv(Run(c, events)) && Onward(c, Run(c, events))
    decreases events
  {
    if events != [] {
      NextKeeps(c, events[0]);
      RunKeeps(Next(c, events[0]), events[1..]);
    }
  }

  // ----- Closing after a write -----

  /** How a callback leaves its connection: connected with nothing or something left to write,
      shut down likewise, or broken by a write error. */
  datatype Fate = Clear | Waiting | ShutClear | ShutWaiting | Broken

  /** A send that the kernel does not take whole leaves bytes waiting, and the first shutdown finds
      them waiting or not. */
  function FateAfter(f: Fate, a: Action): Fate
    decreases a, 1
  {
    match a
    case Send(data, answer, onComplete) =>
      if f != Clear then f
      else
        (match answer
         case Wrote(atMost) => if atMost >= |data| then FateOf(Clear, onComplete) else Waiting
         case WriteFailed(errno) => if Fatal(errno) then Broken else if data == [] then Clear else Waiting)
    case _ => if f == Clear then ShutClear else if f == Waiting then ShutWaiting else f
  }

  function FateOf(f: Fate, script: Script): Fate
    decreases script, 0
  {
    if script == [] then f else FateOf(FateAfter(f, script[0]), script[1..])
  }

  function Shape(c: Conn): Fate {
    match c.state
    case Disconnected => Broken
    case Connected => if c.out == [] then Clear else Waiting
    case Disconnecting => if c.out == [] then ShutClear else ShutWaiting
  }

  lemma {:induction false} ActedShape(c: Conn, a: Action)
    requires Inv(c)
    ensures Shape(Acted(c, a)) == FateAfter(Shape(c), a)
    decreases a, 3
  {
    if a.Send? && c.state.Connected? && c.out == [] && a.answer.Wrote? && a.answer.atMost >= |a.data| {
      assert a.data[..|a.data|] == a.data;
      RanShape(c.(accepted := c.accepted + a.data, wire := c.wire + a.data), a.onComplete);
    }
  }

  lemma {:induction false} RanShape(c: Conn, script: Script)
    requires Inv(c)
    ensures Shape(Ran(c, script)) == FateOf(Shape(c), script)
    decreases script, 1
  {
    if script != [] {
      ActedShape(c, script[0]);
      ActedKeeps(c, script[0]);
      RanShape(Acted(c, script[0]), script[1..]);
    }
  }

  /** A write that empties the buffer of an open connection closes it exactly when the connection
      was disconnecting or is shut down before the state is tested, and then everything accepted
      is on the wire exactly when nothing was waiting at the first shutdown. */
  lemma ClosedByFate(c: Conn, atMost: nat, script: Script)
    requires Inv(c) && c.writing && atMost >= |c.out|
    ensures var d := Writable(c, Wrote(atMost), script);
      var f := FateOf(if c.state.Connected? then Clear else ShutClear, script);
      (d.cause == AfterWrite <==> f == ShutClear || f == ShutWaiting) &&
      (d.cause == AfterWrite ==> (d.wire == d.accepted <==> f == ShutClear))
    ensures c.state.Disconnecting? ==>
      var d := Writable(c, Wrote(atMost), script); d.cause == AfterWrite && d.wire == d.accepted
  {
    assert c.out[..|c.out|] == c.out && c.out[|c.out|..] == [];
    var c1 := c.(wire := c.wire + c.out, out := [], writing := false);
    RanKeeps(c1, script);
    RanShape(c1, script);
    var e := Ran(c1, script);
    assert Writable(c, Wrote(atMost), script) == AfterDrain(e);
    assert e.state.Disconnecting? ==> e.wire + e.out == e.accepted;
    if c.state.Disconnecting? { assert e.wire + [] == e.wire; }
  }

  // ----- The same without the kernel's answers -----

  /** The same sends and shutdowns, whatever the kernel answers. */
  predicate SameAction(a: Action, b: Action)
    decreases a, 1
  {
    match a
    case Send(data, _, onComplete) => b.Send? && b.data == data && SameScript(onComplete, b.onComplete)
    case _ => b == a
  }

  predicate SameScript(s: Script, t: Script)
    decreases s, 0
  {
    |s| == |t| && (s == [] || (SameAction(s[0], t[0]) && SameScript(s[1..], t[1..])))
  }

  /** A shutdown comes in this sequence itself. */
  predicate Shuts(script: Script) { exists i :: 0 <= i < |script| && !script[i].Send? }

  /** For some answers the sequence ends connected with nothing waiting. */
  predicate StaysOpen(script: Script)
    decreases script
  {
    script == [] ||
    (script[0].Send? && (script[0].data == [] || StaysOpen(script[0].onComplete)) && StaysOpen(script[1..]))
  }

  /** No send of any bytes comes before a shutdown in its own or an enclosing sequence; later says
      that one comes in an enclosing sequence. Sends after a shutdown, or after a completed send
      whose callback always shuts down, do not count, for they are ignored. */
  predicate Harmless(script: Script, later: bool)
    decreases script
  {
    script == [] || !script[0].Send? ||
    var a := script[0];
    var after := later || Shuts(script[1..]);
    (a.data != [] ==> !after) && Harmless(a.onComplete, after) &&
    (a.data == [] || StaysOpen(a.onComplete) ==> Harmless(script[1..], later))
  }

  lemma {:induction false} SameGuard(s: Script, t: Script)
    requires SameScript(s, t)
    ensures Shuts(s) <==> Shuts(t)
    ensures StaysOpen(s) <==> StaysOpen(t)
    ensures forall later :: Harmless(s, later) <==> Harmless(t, later)
    decreases s
  {
    if s != [] {
      if s[0].Send? { SameGuard(s[0].onComplete, t[0].onComplete); }
      SameGuard(s[1..], t[1..]);
      ShutsStep(s);
      ShutsStep(t);
    }
  }

  lemma ShutsStep(s: Script)
    requires s != []
    ensures Shuts(s) <==> !s[0].Send? || Shuts(s[1..])
  {
    if i :| 0 <= i < |s| && !s[i].Send? && i > 0 { assert s[1..][i - 1] == s[i]; }
    if i :| 0 <= i < |s[1..]| && !s[1..][i].Send? { assert s[i + 1] == s[1..][i]; }
  }

  /** Once something waits, only shutdowns of the sequence itself matter; once shut, nothing does. */
  lemma {:induction false} FateSettled(f: Fate, s: Script)
    requires f != Clear
    ensures FateOf(f, s) == if f == Waiting && Shuts(s) then ShutWaiting else f
    decreases s
  {
    if s != [] {
      ShutsStep(s);
      FateSettled(FateAfter(f, s[0]), s[1..]);
    }
  }

  lemma {:induction false} ClearMeansOpen(s: Script)
    requires FateOf(Clear, s) == Clear
    ensures StaysOpen(s)
    decreases s
  {
    if s != [] {
      var f := FateAfter(Clear, s[0]);
      if f != Clear { FateSettled(f, s[1..]); }
      ClearMeansOpen(s[1..]);
      if s[0].data != [] { ClearMeansOpen(s[0].onComplete); }
    }
  }

  lemma {:induction false} HarmlessKeeps(s: Script, later: bool)
    requires Harmless(s, later)
    ensures FateOf(Clear, s) != ShutWaiting
    ensures later ==> FateOf(Clear, s) != Waiting
    decreases s
  {
    if s != [] {
      var f := FateAfter(Clear, s[0]);
      if s[0].Send? {
        HarmlessKeeps(s[0].onComplete, later || Shuts(s[1..]));
      }
      if f != Clear {
        FateSettled(f, s[1..]);
      } else {
        if s[0].data != [] { ClearMeansOpen(s[0].onComplete); }
        HarmlessKeeps(s[1..], later);
      }
    }
  }

  lemma {:induction false} SameItself(s: Script)
    ensures SameScript(s, s)
    decreases s
  {
    if s != [] {
      if s[0].Send? { SameItself(s[0].onComplete); }
      SameItself(s[1..]);
    }
  }

  /** The answers that leave nothing waiting. */
  lemma {:induction false} OpenAnswers(s: Script) returns (t: Script)
    requires StaysOpen(s)
    ensures SameScript(s, t) && FateOf(Clear, t) == Clear
    decreases s
  {
    if s == [] { return []; }
    var a := ClearAnswer(s[0]);
    var rest := OpenAnswers(s[1..]);
    t := [a] + rest;
  }

  lemma {:induction false} ClearAnswer(a: Action) returns (b: Action)
    requires a.Send? && (a.data == [] || StaysOpen(a.onComplete))
    ensures SameAction(a, b) && FateAfter(Clear, b) == Clear
    decreases a
  {
    if a.data == [] {
      SameItself(a.onComplete);
      b := Send(a.data, WriteFailed(EAGAIN), a.onComplete);
    } else {
      var inner := OpenAnswers(a.onComplete);
      b := Send(a.data, Wrote(|a.data|), inner);
    }
  }

  /** The answers that lose something. */
  lemma {:induction false} LosingAnswers(s: Script, later: bool) returns (t: Script)
    requires !Harmless(s, later)
    ensures SameScript(s, t)
    ensures FateOf(Clear, t) == ShutWaiting || (later && FateOf(Clear, t) == Waiting)
    decreases s
  {
    var a, after := s[0], later || Shuts(s[1..]);
    var b, rest := a, s[1..];
    SameItself(s[1..]);
    if a.data != [] && after {
      SameItself(a.onComplete);
      b := Send(a.data, WriteFailed(EAGAIN), a.onComplete);
    } else if !Harmless(a.onComplete, after) {
      var inner := LosingAnswers(a.onComplete, after);
      b := Send(a.data, Wrote(|a.data|), inner);
    } else {
      b := ClearAnswer(a);
      rest := LosingAnswers(s[1..], later);
    }
    t := [b] + rest;
    if FateAfter(Clear, b) != Clear { FateSettled(FateAfter(Clear, b), rest); }
  }

  /** Nothing that was accepted is lost by a close that follows a write. */
  ghost predicate Kept(d: Conn) { d.cause == AfterWrite ==> d.wire == d.accepted }

  /** The script is all that lands between a write that empties the buffer and the test of the
      state: what the write-complete callback does, and what other threads do. Whatever the kernel
      answers to its sends nothing is lost, if and only if the script is harmless; and nothing ever
      is if the connection was disconnecting already. */
  lemma CloseAfterWrite(c: Conn, atMost: nat, script: Script)
    requires Inv(c) && c.writing && atMost >= |c.out|
    ensures c.state.Connected? ==>
      ((forall s :: SameScript(script, s) ==> Kept(Writable(c, Wrote(atMost), s))) <==> Harmless(script, false))
    ensures c.state.Disconnecting? ==> forall s :: SameScript(script, s) ==> Kept(Writable(c, Wrote(atMost), s))
  {
    forall s | SameScript(script, s) && (c.state.Disconnecting? || Harmless(script, false))
      ensures Kept(Writable(c, Wrote(atMost), s))
    {
      ClosedByFate(c, atMost, s);
      SameGuard(script, s);
      if c.state.Connected? { HarmlessKeeps(s, false); }
    }
    if c.state.Connected? && !Harmless(script, false) {
      var s := LosingAnswers(script, false);
      ClosedByFate(c, atMost, s);
      assert !Kept(Writable(c, Wrote(atMost), s));
    }
  }

  /** With a shutdown from another thread landing last, a callback is harmless exactly if no send
      of any bytes is reached in it, as if a shutdown followed every one. */
  lemma {:induction false} ShutDownLandsLast(script: Script, later: bool)
    ensures Harmless(script + [ShutDownElsewhere], later) <==> Harmless(script, true)
    decreases script
  {
    if script == [] {
      assert script + [ShutDownElsewhere] == [ShutDownElsewhere];
    } else {
      var s := script + [ShutDownElsewhere];
      assert s[0] == script[0] && s[1..] == script[1..] + [ShutDownElsewhere];
      assert !s[1..][|script| - 1].Send?;
      ShutDownLandsLast(script[1..], later);
    }
  }

  /** A callback that sends and then shuts down can lose what it sent. */
  lemma SendThenShutDownLoses()
    ensures var spilled := Sent(STARTED, [1], WriteFailed(EAGAIN), []);
      var d := Writable(spilled, Wrote(1), [Send([2], WriteFailed(EAGAIN), []), ShutDown]);
      d.cause == AfterWrite && d.wire == [1] && d.accepted == [1, 2]
  {
    SendThenShutLoses(ShutDown);
  }

  /** So can one that only sends, when another thread shuts down before the state is tested. */
  lemma SendThenShutDownElsewhereLoses()
    ensures var spilled := Sent(STARTED, [1], WriteFailed(EAGAIN), []);
      var d := Writable(spilled, Wrote(1), [Send([2], WriteFailed(EAGAIN), []), ShutDownElsewhere]);
      d.cause == AfterWrite && d.wire == [1] && d.accepted == [1, 2]
  {
    SendThenShutLoses(ShutDownElsewhere);
  }

  lemma SendThenShutLoses(shut: Action)
    requires shut.ShutDown? || shut.ShutDownElsewhere?
    ensures var spilled := Sent(STARTED, [1], WriteFailed(EAGAIN), []);
      var d := Writable(spilled, Wrote(1), [Send([2], WriteFailed(EAGAIN), []), shut]);
      d.cause == AfterWrite && d.wire == [1] && d.accepted == [1, 2]
  {
    var script := [Send([2], WriteFailed(EAGAIN), []), shut];
    var c := STARTED.(wire := [1], accepted := [1]);
    var c2 := c.(out := [2], writing := true, accepted := [1, 2]);
    assert Acted(c, script[0]) == c2;
    var rest := script[1..];
    assert rest[0] == shut && rest[1..] == [];
    assert Ran(c2, rest) == Ran(Acted(c2, rest[0]), rest[1..]);
    assert Ran(c, script) == Ran(Acted(c, script[0]), rest);
    var spilled := Sent(STARTED, [1], WriteFailed(EAGAIN), []);
    assert spilled == STARTED.(out := [1], writing := true, accepted := [1]);
    assert spilled.out[..1] == [1] && spilled.out[1..] == [];
    assert Writable(spilled, Wrote(1), script) == AfterDrain(Acted(c2, shut));
  }

  // ----- The half-close -----

  /** Somewhere in the run a queued half-close finds its connection closed with bytes unsent. */
  predicate ShutTooLate(c: Conn, events: seq<Event>)
    decreases events
  {
    events != [] &&
    ((events[0].QueuedShutDown? && c.state.Disconnected? && c.wire != c.accepted) ||
     ShutTooLate(Next(c, events[0]), events[1..]))
  }

  lemma {:induction false} ActedShort(c: Conn, a: Action)
    requires Inv(c)
    ensures Acted(c, a).finShort == c.finShort
    decreases a, 3
  {
    if a.Send? { SentShort(c, a.data, a.answer, a.onComplete); }
  }

  lemma {:induction false} SentShort(c: Conn, data: seq<bv8>, answer: WriteResult, onComplete: Script)
    requires Inv(c)
    ensures Sent(c, data, answer, onComplete).finShort == c.finShort
    decreases onComplete, 2
  {
    if !c.state.Disconnected? && !c.writing && c.out == [] && answer.Wrote? && Taken(answer.atMost, |data|) == |data| {
      assert data[..|data|] == data;
      DirectKeeps(c, data);
      RanShort(c.(wire := c.wire + data, accepted := c.accepted + data), onComplete);
    }
  }

  lemma {:induction false} RanShort(c: Conn, script: Script)
    requires Inv(c)
    ensures Ran(c, script).finShort == c.finShort
    decreases script, 1
  {
    if script != [] {
      ActedShort(c, script[0]);
      ActedKeeps(c, script[0]);
      RanShort(Acted(c, script[0]), script[1..]);
    }
  }

  lemma NextShort(c: Conn, e: Event)
    requires Inv(c)
    ensures Next(c, e).finShort <==> c.finShort || (e.QueuedShutDown? && c.state.Disconnected? && c.wire != c.accepted)
  {
    match e
    case QueuedSend(data, answer, onComplete) => SentShort(c, data, answer, onComplete);
    case UserCode(script) => RanShort(c, script);
    case CanRead(result, onMessage) => RanShort(c, onMessage);
    case CanWrite(answer, onComplete) =>
      if c.writing && answer.Wrote? && Taken(answer.atMost, |c.out|) == |c.out| {
        assert c.out[..|c.out|] == c.out && c.out[|c.out|..] == [];
        RanShort(c.(wire := c.wire + c.out, out := [], writing := false), onComplete);
      }
    case _ =>
  }

  /** In every run, a half-close happens with accepted bytes missing from the wire if and only if
      one that was queued from another thread runs after the connection has closed with bytes unsent. */
  lemma {:induction false} FinFollowsData(c: Conn, events: seq<Event>)
    requires Inv(c) && AllPossible(c, events)
    ensures Run(c, events).finShort <==> c.finShort || ShutTooLate(c, events)
    decreases events
  {
    if events != [] {
      NextShort(c, events[0]);
      NextKeeps(c, events[0]);
      FinFollowsData(Next(c, events[0]), events[1..]);
    }
  }

  /** It does happen: the peer closes between the shutdown and its turn. */
  lemma LateHalfClose()
    ensures var events := [QueuedSend([1], WriteFailed(EAGAIN), []), UserCode([ShutDownElsewhere]),
                           CanRead(ReadBytes([]), []), QueuedShutDown];
      AllPossible(STARTED, events) && Run(STARTED, events).finShort
  {
    var e2 := [CanRead(ReadBytes([]), []), QueuedShutDown];
    var e1 := [UserCode([ShutDownElsewhere])] + e2;
    var e0 := [QueuedSend([1], WriteFailed(EAGAIN), [])] + e1;
    assert e0[1..] == e1 && e1[1..] == e2 && e2[1..] == [QueuedShutDown] && [QueuedShutDown][1..] == [];
    var c1 := Next(STARTED, e0[0]);
    assert c1 == STARTED.(out := [1], writing := true, accepted := [1]);
    var c2 := Next(c1, e1[0]);
    assert [ShutDownElsewhere][1..] == [];
    assert c2 == c1.(state := Disconnecting, shutDowns := 1);
    var c3 := Next(c2, e2[0]);
    assert c3 == Closed(c2, PeerClosed);
    assert Next(c3, QueuedShutDown).finShort;
    assert e0 == [QueuedSend([1], WriteFailed(EAGAIN), []), UserCode([ShutDownElsewhere]),
                  CanRead(ReadBytes([]), []), QueuedShutDown];
  }

  // ----- The object -----

  lemma WriteInterest(s: State)
    requires Coherent(s)
    ensures Writing(After(s, DoEnableWrite).events)
    ensures Writing(s.events) ==> !Writing(After(s, DoDisableWrite).events)
    ensures After(s, DoDisableAll).events == NONE_EVENT && !Writing(NONE_EVENT)
  {
  }

  class TcpConnection {
    var state: ConnectState
    const dispatch: Dispatch
    const readbuf: Buffer
    const writebuf: Buffer
    var finSent: bool
    var pendingCloses: nat // queued by ForceClose
    var pendingShutDowns: nat // queued by ShutDown from another thread
    ghost var wire: seq<bv8>
    ghost var accepted: seq<bv8>
    ghost var finShort: bool
    ghost var cause: Cause

    ghost function Abs(): Conn
      requires writebuf.Valid()
      reads this, dispatch, writebuf
    {
      Conn(state, writebuf.Contents(), dispatch.IsWriting(), wire, accepted, finSent, finShort,
           pendingCloses, pendingShutDowns, cause)
    }

    ghost predicate Sound()
      reads dispatch, readbuf, writebuf
    {
      readbuf != writebuf && readbuf.Valid() && writebuf.Valid() && Coherent(DispatchState())
    }

    ghost predicate Valid()
      reads this, dispatch, readbuf, writebuf
    {
      Sound() && Inv(Abs())
    }

    ghost function DispatchState(): State
      reads dispatch
    {
      State(dispatch.events, dispatch.addWrite)
    }

    /** A connection after StartWorking. */
    constructor (fd: nat)
      ensures Valid() && Abs() == STARTED && readbuf.Contents() == []
      ensures fresh(dispatch) && fresh(readbuf) && fresh(writebuf)
    {
      state := Connected;
      dispatch := new Dispatch(fd);
      readbuf := new Buffer(1024);
      writebuf := new Buffer(1024);
      finSent, pendingCloses, pendingShutDowns := false, 0, 0;
      wire, accepted, finShort, cause := [], [], false, NotClosed;
      new;
      CoherentFresh();
      AfterCoherent(FRESH, DoEnableRead);
      var _ := dispatch.EnableRead(FRESH);
    }

    method HandleClose(ghost why: Cause)
      requires Sound() && state != Disconnected
      modifies this`state, this`cause, dispatch
      ensures Sound() && Abs() == Closed(old(Abs()), why) && dispatch.IsNoneEvent()
    {
      hide Coherent, After, Reading, Writing;
      ghost var s := DispatchState();
      AfterCoherent(s, DoDisableAll);
      WriteInterest(s);
      state := Disconnected;
      cause := why;
      var _ := dispatch.DisableAll(s);
      assert dispatch.IsNoneEvent(); // RemoveEvents relies on it
    }

    /** The tail of SendInLoop: what is left goes into the buffer and waits to be writable. */
    method Spill(data: seq<bv8>)
      requires Sound()
      modifies dispatch, writebuf
      ensures Sound() && Abs() == Spilled(old(Abs()), data)
    {
      hide Coherent, After, Reading, Writing;
      if |data| > 0 {
        writebuf.Append(data);
        if !dispatch.IsWriting() {
          ghost var s := DispatchState();
          AfterCoherent(s, DoEnableWrite);
          WriteInterest(s);
          var _ := dispatch.EnableWrite(s);
        }
      }
    }

    method SendInLoop(data: seq<bv8>, answer: WriteResult, onComplete: Script)
      requires Valid()
      modifies this, dispatch, writebuf
      ensures Valid() && Abs() == Sent(old(Abs()), data, answer, onComplete)
      decreases onComplete, 2
    {
      hide Coherent, Reading, Writing, Inv, Onward, Ran;
      SentKeeps(Abs(), data, answer, onComplete);
      if state == Disconnected { return; }
      ghost var before := Abs();
      accepted := accepted + data;
      var nwrote, remaining, fault := 0, |data|, false;
      if !dispatch.IsWriting() && writebuf.ReadableSize() == 0 {
        match answer {
          case Wrote(atMost) =>
            nwrote := Taken(atMost, |data|);
            wire := wire + data[..nwrote];
            remaining := |data| - nwrote;
            if remaining == 0 {
              assert data[..nwrote] == data;
              DirectKeeps(before, data);
              RunScript(onComplete);
            }
          case WriteFailed(errno) =>
            if Fatal(errno) {
              HandleClose(WriteFault);
              fault := true;
            }
        }
      }
      if !fault && remaining > 0 {
        assert data[0..] == data;
        Spill(data[nwrote..]);
      }
    }

    method RunScript(script: Script)
      requires Valid()
      modifies this, dispatch, writebuf
      ensures Valid() && Abs() == Ran(old(Abs()), script)
      decreases script, 1
    {
      hide Acted, Inv;
      if |script| > 0 {
        Act(script[0]);
        RunScript(script[1..]);
      }
    }

    method Act(a: Action)
      requires Valid()
      modifies this, dispatch, writebuf
      ensures Valid() && Abs() == Acted(old(Abs()), a)
      decreases a, 3
    {
      hide Inv, Coherent;
      ActedKeeps(Abs(), a);
      match a {
        case Send(data, answer, onComplete) =>
          // SendMessage from the loop thread
          if state == Connected { SendInLoop(data, answer, onComplete); }
        case ShutDown =>
          if state == Connected {
            state := Disconnecting;
            FinishShutDown();
          }
        case ForceClose =>
          if state != Disconnected {
            state := Disconnecting;
            pendingCloses := pendingCloses + 1;
          }
        case ShutDownElsewhere => ShutDownOffLoop();
      }
    }

    /** The part of ShutDown that runs in the loop. */
    method FinishShutDown()
      requires Sound()
      modifies this`finSent, this`finShort
      ensures Sound() && Abs() == FinishedShutDown(old(Abs()))
    {
      if !dispatch.IsWriting() {
        finSent := true;
        finShort := finShort || wire != accepted;
      }
    }

    method ShutDownOffLoop()
      requires Valid()
      modifies this`state, this`pendingShutDowns
      ensures Valid() && Abs() == ShutDownFromElsewhere(old(Abs()))
    {
      if state == Connected {
        state := Disconnecting;
        pendingShutDowns := pendingShutDowns + 1;
      }
    }

    method HandleWrite(answer: WriteResult, onComplete: Script)
      requires Valid()
      modifies this, dispatch, writebuf
      ensures Valid() && Abs() == Writable(old(Abs()), answer, onComplete)
      ensures old(dispatch.IsWriting()) && answer.WriteFailed? && Fatal(answer.errno) ==> state == Disconnected
    {
      hide Coherent, After, Reading, Writing, Onward, Ran;
      WritableKeeps(Abs(), answer, onComplete);
      if dispatch.IsWriting() {
        match answer {
          case Wrote(atMost) =>
            var n := Taken(atMost, writebuf.ReadableSize());
            WrittenKeeps(Abs(), n);
            wire := wire + writebuf.Contents()[..n];
            writebuf.Retrieve(n);
            if writebuf.ReadableSize() == 0 {
              ghost var s := DispatchState();
              AfterCoherent(s, DoDisableWrite);
              WriteInterest(s);
              var _ := dispatch.DisableWrite(s);
              RunScript(onComplete);
              if state == Disconnecting {
                HandleClose(AfterWrite);
              }
            }
          case WriteFailed(errno) =>
            if Fatal(errno) {
              HandleClose(WriteFault);
            }
        }
      }
    }

    /** Delivered to an open connection only. */
    method HandleRead(result: ReadResult, onMessage: Script)
      requires Valid() && state != Disconnected
      requires result.ReadBytes? ==> |result.bytes| <= readbuf.Offered()
      modifies this, dispatch, writebuf, readbuf
      ensures Valid() && Abs() == Readable(old(Abs()), result, onMessage)
      ensures result == ReadBytes([]) || (result.ReadFailed? && Fatal(result.errno)) ==> state == Disconnected
      ensures readbuf.Contents() == old(readbuf.Contents()) + if result.ReadBytes? then result.bytes else []
    {
      hide Coherent, After, Reading, Writing;
      var n := readbuf.ReadV(match result case ReadBytes(bytes) => Some(bytes) case ReadFailed(_) => None);
      if n > 0 {
        RunScript(onMessage);
      } else if n == 0 {
        HandleClose(PeerClosed);
      } else if Fatal(result.errno) {
        HandleClose(ReadFault);
      }
    }

    /** The function that ForceClose queued. */
    method RunQueuedClose()
      requires Valid() && pendingCloses > 0
      modifies this`pendingCloses, this`state, this`cause, dispatch
      ensures Valid() && Abs() == Next(old(Abs()), QueuedClose) && state == Disconnected
    {
      pendingCloses := pendingCloses - 1;
      if state == Connected || state == Disconnecting {
        HandleClose(Forced);
      }
    }

    /** The function that ShutDown queued from another thread. */
    method RunQueuedShutDown()
      requires Valid() && pendingShutDowns > 0
      modifies this`pendingShutDowns, this`finSent, this`finShort
      ensures Valid() && Abs() == Next(old(Abs()), QueuedShutDown)
    {
      pendingShutDowns := pendingShutDowns - 1;
      FinishShutDown();
    }
  }

  lemma DirectKeeps(c: Conn, data: seq<bv8>)
    requires Inv(c) && !c.state.Disconnected? && c.out == []
    ensures Inv(c.(wire := c.wire + data, accepted := c.accepted + data))
  {
  }

  lemma WrittenKeeps(c: Conn, n: nat)
    requires Inv(c) && !c.state.Disconnected? && n <= |c.out|
    ensures c.wire + c.out[..n] + c.out[n..] == c.accepted
  {
    assert c.out[..n] + c.out[n..] == c.out;
  }
}
