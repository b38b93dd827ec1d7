/** What each event of voyager/core/tcp_connection.cc brings about: bytes on the wire, the end of
    the connection, the half-close. */
module TcpClosing {
  import opened Tcp

  // ----- What the kernel's answers bring about -----

  /** A send behind waiting bytes waits; another puts on the wire what the kernel takes and leaves
      the rest waiting, closes on a broken pipe or a reset, and waits after any other error. The
      callback runs exactly when the kernel takes everything. */
  lemma SendOutcome(c: Conn, data: seq<bv8>, answer: WriteResult, onComplete: Script)
    requires Inv(c) && !c.state.Disconnected?
    ensures var d := Sent(c, data, answer, onComplete);
      (c.out != [] ==> d.wire == c.wire && d.out == c.out + data && d.state == c.state && d.closes == c.closes) &&
      (c.out == [] && answer.Wrote? && answer.atMost < |data| ==>
        d.wire == c.wire + data[..answer.atMost] && d.out == data[answer.atMost..] && d.state == c.state && d.closes == c.closes) &&
      (c.out == [] && answer.Wrote? && answer.atMost >= |data| ==>
        d == Ran(c.(wire := c.wire + data, accepted := c.accepted + data), onComplete) && c.wire + data <= d.wire) &&
      (c.out == [] && (answer == WriteFailed(EPIPE) || answer == WriteFailed(ECONNRESET)) ==>
        d.state.Disconnected? && d.cause == WriteFault && d.wire == c.wire) &&
      (c.out == [] && answer.WriteFailed? && answer.errno != EPIPE && answer.errno != ECONNRESET ==>
        d.wire == c.wire && d.out == data && d.state == c.state && d.closes == c.closes)
  {
    if c.out == [] && answer.Wrote? && answer.atMost >= |data| {
      assert data[..|data|] == data;
      DirectKeeps(c, data);
      RanKeeps(c.(wire := c.wire + data, accepted := c.accepted + data), onComplete);
    }
  }

  /** A writable socket takes what the kernel takes of the waiting bytes; on a broken pipe or a
      reset the connection closes, and any other error changes nothing. */
  lemma WriteOutcome(c: Conn, answer: WriteResult, onComplete: Script)
    requires Inv(c)
    ensures var d := Writable(c, answer, onComplete);
      (!c.writing ==> d == c) &&
      (c.writing && answer.Wrote? && answer.atMost < |c.out| ==>
        d == c.(wire := c.wire + c.out[..answer.atMost], out := c.out[answer.atMost..])) &&
      (c.writing && answer.Wrote? && answer.atMost >= |c.out| ==> c.wire + c.out <= d.wire) &&
      (c.writing && (answer == WriteFailed(EPIPE) || answer == WriteFailed(ECONNRESET)) ==>
        d.state.Disconnected? && d.cause == WriteFault && d.wire == c.wire) &&
      (c.writing && answer.WriteFailed? && answer.errno != EPIPE && answer.errno != ECONNRESET ==> d == c)
  {
    if c.writing && answer.Wrote? && answer.atMost >= |c.out| {
      assert c.out[..|c.out|] == c.out && c.out[|c.out|..] == [];
      var c1 := c.(wire := c.wire + c.out, out := [], writing := false);
      RanKeeps(c1, onComplete);
    }
  }

  /** The end of the stream, a broken pipe and a reset close the connection, and no other result
      of a read does. */
  lemma ReadOutcome(c: Conn, result: ReadResult, onMessage: Script)
    requires Inv(c) && !c.state.Disconnected?
    ensures var d := Readable(c, result, onMessage);
      (result == ReadBytes([]) ==>
        d.state.Disconnected? && d.cause == PeerClosed && d.wire == c.wire && d.accepted == c.accepted) &&
      (result == ReadFailed(EPIPE) || result == ReadFailed(ECONNRESET) ==>
        d.state.Disconnected? && d.cause == ReadFault && d.wire == c.wire && d.accepted == c.accepted) &&
      (result.ReadFailed? && result.errno != EPIPE && result.errno != ECONNRESET ==> d == c) &&
      (result.ReadBytes? && result.bytes != [] ==> d == Ran(c, onMessage) && d.cause != PeerClosed && d.cause != ReadFault)
  {
    RanKeeps(c, onMessage);
  }

  /** A shutdown takes a connected connection out of that state, and half-closes it at once only
      if nothing waits; one from another thread leaves the half-close to the loop. */
  lemma ShutDownOutcome(c: Conn)
    requires Inv(c)
    ensures var d := Acted(c, ShutDown);
      if c.state.Connected? then
        d.state.Disconnecting? && d.out == c.out && d.wire == c.wire && (d.finSent <==> c.finSent || c.out == [])
      else d == c
    ensures var d := Acted(c, ShutDownElsewhere);
      if c.state.Connected? then d.state.Disconnecting? && d.shutDowns == c.shutDowns + 1 && d.finSent == c.finSent
      else d == c
    ensures c.shutDowns > 0 ==>
      var d := Next(c, QueuedShutDown);
      d.shutDowns == c.shutDowns - 1 && d.state == c.state &&
      (d.finSent <==> c.finSent || c.state.Disconnected? || c.out == [])
  {
  }

  // ----- A forced close -----

  /** Closed, or with a close queued. */
  predicate Doomed(c: Conn) { c.state.Disconnected? || c.closes > 0 }

  lemma {:induction false} ActedDoomed(c: Conn, a: Action)
    requires Doomed(c) || a.ForceClose?
    ensures Doomed(Acted(c, a))
    decreases a, 3
  {
    if a.Send? { SentDoomed(c, a.data, a.answer, a.onComplete); }
  }

  lemma {:induction false} SentDoomed(c: Conn, data: seq<bv8>, answer: WriteResult, onComplete: Script)
    requires Doomed(c)
    ensures Doomed(Sent(c, data, answer, onComplete))
    decreases onComplete, 2
  {
    if !c.state.Disconnected? && !c.writing && c.out == [] && answer.Wrote? && Taken(answer.atMost, |data|) == |data| {
      assert data[..|data|] == data;
      RanDoomed(c.(wire := c.wire + data, accepted := c.accepted + data), onComplete);
    }
  }

  lemma {:induction false} RanDoomed(c: Conn, script: Script)
    requires Doomed(c)
    ensures Doomed(Ran(c, script))
    decreases script, 1
  {
    if script != [] {
      ActedDoomed(c, script[0]);
      RanDoomed(Acted(c, script[0]), script[1..]);
    }
  }

  lemma {:induction false} RanJoined(c: Conn, a: Script, b: Script)
    ensures Ran(c, a + b) == Ran(Ran(c, a), b)
    decreases a
  {
    if a == [] {
      assert a + b == b;
    } else {
      assert (a + b)[0] == a[0] && (a + b)[1..] == a[1..] + b;
      RanJoined(Acted(c, a[0]), a[1..], b);
    }
  }

  lemma NextDoomed(c: Conn, e: Event)
    requires Doomed(c)
    ensures Doomed(Next(c, e))
  {
    match e
    case QueuedSend(data, answer, onComplete) => SentDoomed(c, data, answer, onComplete);
    case UserCode(script) => RanDoomed(c, script);
    case CanRead(result, onMessage) => RanDoomed(c, onMessage);
    case CanWrite(answer, onComplete) =>
      if c.writing && answer.Wrote? && Taken(answer.atMost, |c.out|) == |c.out| {
        var c1 := c.(wire := c.wire + c.out[..|c.out|], out := c.out[|c.out|..]);
        RanDoomed(c1.(writing := false), onComplete);
      }
    case _ =>
  }

  lemma {:induction false} RunDoomed(c: Conn, events: seq<Event>)
    requires Doomed(c)
    ensures Doomed(Run(c, events))
    decreases events
  {
    if events != [] {
      NextDoomed(c, events[0]);
      RunDoomed(Next(c, events[0]), events[1..]);
    }
  }

  /** Wherever in a callback a ForceClose comes, the connection is closed or has a close queued
      from then on, for the rest of the callback and along every run. */
  lemma ForceCloseIsFinal(c: Conn, before: Script, after: Script, events: seq<Event>)
    ensures Doomed(Run(Ran(c, before + [ForceClose] + after), events))
  {
    var b, d := Ran(c, before), Ran(c, before + [ForceClose]);
    RanJoined(c, before, [ForceClose]);
    assert [ForceClose][1..] == [];
    assert Ran(b, [ForceClose]) == Ran(Acted(b, ForceClose), []);
    ActedDoomed(b, ForceClose);
    RanJoined(c, before + [ForceClose], after);
    RanDoomed(d, after);
    RunDoomed(Ran(d, after), events);
  }

  /** A queued close can run as long as one is queued, and closes whatever is still open, losing
      nothing that is on the wire. */
  lemma QueuedCloseCloses(c: Conn)
    requires Inv(c) && Doomed(c)
    ensures c.state.Disconnected? || Possible(c, QueuedClose)
    ensures var d := Next(c, QueuedClose);
      d.state.Disconnected? && d.wire == c.wire && d.accepted == c.accepted &&
      d.cause == if c.state.Disconnected? then c.cause else Forced
  {
  }

  // ----- The half-close, exactly -----

  /** In this sequence the loop thread shuts down a connected connection with nothing waiting. */
  predicate HalfCloses(c: Conn, script: Script)
    decreases script, 1
  {
    script != [] && (ActHalfCloses(c, script[0]) || HalfCloses(Acted(c, script[0]), script[1..]))
  }

  predicate ActHalfCloses(c: Conn, a: Action)
    decreases a, 3
  {
    match a
    case ShutDown => c.state.Connected? && c.out == []
    case Send(data, answer, onComplete) => c.state.Connected? && SendHalfCloses(c, data, answer, onComplete)
    case _ => false
  }

  predicate SendHalfCloses(c: Conn, data: seq<bv8>, answer: WriteResult, onComplete: Script)
    decreases onComplete, 2
  {
    !c.state.Disconnected? && c.out == [] && answer.Wrote? && answer.atMost >= |data| &&
    HalfCloses(c.(wire := c.wire + data, accepted := c.accepted + data), onComplete)
  }

  predicate EventHalfCloses(c: Conn, e: Event) {
    match e
    case QueuedSend(data, answer, onComplete) => SendHalfCloses(c, data, answer, onComplete)
    case UserCode(script) => HalfCloses(c, script)
    case CanRead(result, onMessage) => result.ReadBytes? && result.bytes != [] && HalfCloses(c, onMessage)
    case CanWrite(answer, onComplete) =>
      c.out != [] && !c.state.Disconnected? && answer.Wrote? && answer.atMost >= |c.out| &&
      HalfCloses(c.(wire := c.wire + c.out, out := [], writing := false), onComplete)
    case QueuedShutDown => c.state.Disconnected? || c.out == []
    case _ => false
  }

  predicate RunHalfCloses(c: Conn, events: seq<Event>)
    decreases events
  {
    events != [] && (EventHalfCloses(c, events[0]) || RunHalfCloses(Next(c, events[0]), events[1..]))
  }

  lemma {:induction false} ActFin(c: Conn, a: Action)
    requires Inv(c)
    ensures Acted(c, a).finSent <==> c.finSent || ActHalfCloses(c, a)
    decreases a, 3
  {
    if a.Send? { SendFin(c, a.data, a.answer, a.onComplete); }
  }

  lemma {:induction false} SendFin(c: Conn, data: seq<bv8>, answer: WriteResult, onComplete: Script)
    requires Inv(c)
    ensures Sent(c, data, answer, onComplete).finSent <==> c.finSent || SendHalfCloses(c, data, answer, onComplete)
    decreases onComplete, 2
  {
    if !c.state.Disconnected? && c.out == [] && answer.Wrote? && answer.atMost >= |data| {
      assert data[..|data|] == data;
      DirectKeeps(c, data);
      ScriptFin(c.(wire := c.wire + data, accepted := c.accepted + data), onComplete);
    }
  }

  lemma {:induction false} ScriptFin(c: Conn, script: Script)
    requires Inv(c)
    ensures Ran(c, script).finSent <==> c.finSent || HalfCloses(c, script)
    decreases script, 1
  {
    if script != [] {
      ActFin(c, script[0]);
      ActedKeeps(c, script[0]);
      ScriptFin(Acted(c, script[0]), script[1..]);
    }
  }

  lemma EventFin(c: Conn, e: Event)
    requires Inv(c)
    ensures Next(c, e).finSent <==> c.finSent || EventHalfCloses(c, e)
  {
    match e
    case QueuedSend(data, answer, onComplete) => SendFin(c, data, answer, onComplete);
    case UserCode(script) => ScriptFin(c, script);
    case CanRead(result, onMessage) => ScriptFin(c, onMessage);
    case CanWrite(answer, onComplete) =>
      if c.writing && answer.Wrote? && answer.atMost >= |c.out| {
        assert c.out[..|c.out|] == c.out && c.out[|c.out|..] == [];
        ScriptFin(c.(wire := c.wire + c.out, out := [], writing := false), onComplete);
      }
    case _ =>
  }

  /** In every run the write side is shut down if and only if somewhere a shutdown found nothing
      waiting: of a connected connection by its loop, or when its queued half-close had its turn. */
  lemma {:induction false} FinSentExactly(c: Conn, events: seq<Event>)
    requires Inv(c) && AllPossible(c, events)
    ensures Run(c, events).finSent <==> c.finSent || RunHalfCloses(c, events)
    decreases events
  {
    if events != [] {
      EventFin(c, events[0]);
      NextKeeps(c, events[0]);
      FinSentExactly(Next(c, events[0]), events[1..]);
    }
  }
}
