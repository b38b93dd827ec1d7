/** The hand-off of voyager/core/eventloop.cc: threads push functions under a lock and wake the
    loop through a socket pair; the loop swaps the queue out and runs it. One step here is one
    critical section or one system call, so that a run is any interleaving of the threads. */
module Looping {
  type Func = nat

  /** Where the loop thread is: in poll, in the timer callbacks, in the event handlers, in RunFuncs,
      at the test of exit_, or out of Loop. run_ is true exactly while running. */
  datatype Phase = Polling | Timers | Handling | Running | Checking | Stopped

  /** tokens are unread wake-ups; owing counts the other threads that have pushed, or asked for an
      exit, and have yet to write their token; loopOwes says the same of the loop thread. */
  datatype Loop = Loop(phase: Phase, funcs: seq<Func>, batch: seq<Func>, executed: seq<Func>, pushed: seq<Func>,
                       tokens: nat, owing: nat, loopOwes: bool, exit: bool)

  datatype Step =
    | Push(f: Func) // QueueInLoop from another thread, up to the unlock
    | AskExit // Exit from another thread, up to the store
    | Wake // WakeUp from another thread
    | LoopPush(f: Func) // QueueInLoop from the loop thread
    | LoopWake // and its WakeUp, which only run_ asks for
    | LoopExit
    | PollReturns
    | TimersRun
    | ReadToken // HandleRead
    | Swap // RunFuncs, up to the unlock
    | RunOne
    | BatchDone
    | Check

  predicate Callbacks(p: Phase) { p.Timers? || p.Handling? || p.Running? }

  predicate Enabled(s: Loop, step: Step) {
    match step
    case Push(_) => true
    case AskExit => true
    case Wake => s.owing > 0
    case LoopPush(_) => Callbacks(s.phase) && !s.loopOwes
    case LoopWake => s.loopOwes
    case LoopExit => Callbacks(s.phase) && !s.loopOwes
    case PollReturns => s.phase.Polling?
    case TimersRun => s.phase.Timers?
    case ReadToken => s.phase.Handling? && s.tokens > 0
    case Swap => s.phase.Handling?
    case RunOne => s.phase.Running? && s.batch != [] && !s.loopOwes
    case BatchDone => s.phase.Running? && s.batch == [] && !s.loopOwes
    case Check => s.phase.Checking?
  }

  function Next(s: Loop, step: Step): Loop
    requires Enabled(s, step)
  {
    match step
    case Push(f) => s.(funcs := s.funcs + [f], pushed := s.pushed + [f], owing := s.owing + 1)
    case AskExit => s.(exit := true, owing := s.owing + 1)
    case Wake => s.(owing := s.owing - 1, tokens := s.tokens + 1)
    case LoopPush(f) => s.(funcs := s.funcs + [f], pushed := s.pushed + [f], loopOwes := s.phase.Running?)
    case LoopWake => s.(loopOwes := false, tokens := s.tokens + 1)
    case LoopExit => s.(exit := true)
    case PollReturns => s.(phase := Timers)
    case TimersRun => s.(phase := Handling)
    case ReadToken => s.(tokens := s.tokens - 1)
    case Swap => s.(phase := Running, batch := s.funcs, funcs := s.batch)
    case RunOne => s.(executed := s.executed + [s.batch[0]], batch := s.batch[1..])
    case BatchDone => s.(phase := Checking)
    case Check => s.(phase := if s.exit then Stopped else Polling)
  }

  /** Loop has just cleared exit_. */
  const START := Loop(Checking, [], [], [], [], 0, 0, false, false)

  predicate AllEnabled(s: Loop, steps: seq<Step>)
    decreases steps
  {
    steps == [] || (Enabled(s, steps[0]) && AllEnabled(Next(s, steps[0]), steps[1..]))
  }

  function Run(s: Loop, steps: seq<Step>): Loop
    requires AllEnabled(s, steps)
    decreases steps
  {
    if steps == [] then s else Run(Next(s, steps[0]), steps[1..])
  }

  /** The wake-ups that poll will see, now or once the threads under way have written theirs. */
  function Due(s: Loop): nat { s.tokens + s.owing + if s.loopOwes then 1 else 0 }

  ghost predicate Inv(s: Loop) {
    s.executed + s.batch + s.funcs == s.pushed &&
    (s.batch != [] || s.loopOwes ==> s.phase.Running?) &&
    (s.phase.Running? || s.phase.Checking? || s.phase.Polling? ==> |s.funcs| <= Due(s)) &&
    (s.phase.Polling? && s.exit ==> |s.funcs| < Due(s))
  }

  lemma NextKeeps(s: Loop, step: Step)
    requires Inv(s) && Enabled(s, step)
    ensures Inv(Next(s, step))
  {
    match step
    case RunOne => assert s.executed + [s.batch[0]] + s.batch[1..] == s.executed + s.batch;
    case Push(f) => assert s.executed + s.batch + (s.funcs + [f]) == s.pushed + [f];
    case LoopPush(f) => assert s.executed + s.batch + (s.funcs + [f]) == s.pushed + [f];
    case _ =>
  }

  lemma {:induction false} RunKeeps(s: Loop, steps: seq<Step>)
    requires Inv(s) && AllEnabled(s, steps)
    ensures Inv(Run(s, steps))
    decreases steps
  {
    if steps != [] {
      NextKeeps(s, steps[0]);
      RunKeeps(Next(s, steps[0]), steps[1..]);
    }
  }

  /** In every interleaving: whenever the loop is at poll there are at least as many wake-ups
      pending or under way as functions queued, and one more if an exit was asked for. So when no
      thread is under way and there is something to do, poll returns at once. */
  lemma NoLostWakeUp(steps: seq<Step>)
    requires AllEnabled(START, steps)
    ensures var s := Run(START, steps);
      s.phase.Polling? ==>
        |s.funcs| + (if s.exit then 1 else 0) <= s.tokens + s.owing &&
        (s.owing == 0 && (s.funcs != [] || s.exit) ==> s.tokens > 0)
  {
    RunKeeps(START, steps);
  }

  /** In every interleaving: what was executed, then the rest of the batch, then the queue are the
      functions pushed, in that order; so each runs at most once, and in the order of the pushes. */
  lemma FirstInFirstOut(steps: seq<Step>)
    requires AllEnabled(START, steps)
    ensures var s := Run(START, steps);
      s.executed + s.batch + s.funcs == s.pushed && s.executed <= s.pushed
  {
    RunKeeps(START, steps);
    var s := Run(START, steps);
    assert s.executed <= s.executed + (s.batch + s.funcs);
    assert s.executed + (s.batch + s.funcs) == s.pushed;
  }

  lemma {:induction false} ClaimedGrows(s: Loop, steps: seq<Step>)
    requires Inv(s) && AllEnabled(s, steps)
    ensures s.executed + s.batch <= Run(s, steps).executed + Run(s, steps).batch
    decreases steps
  {
    if steps != [] {
      var t := Next(s, steps[0]);
      NextKeeps(s, steps[0]);
      assert s.executed + s.batch <= t.executed + t.batch by {
        if steps[0].RunOne? {
          assert s.executed + [s.batch[0]] + s.batch[1..] == s.executed + s.batch;
        }
      }
      ClaimedGrows(t, steps[1..]);
    }
  }

  /** What was queued when the loop swapped the queue out has been executed by the time it tests
      exit_ again, whatever the other threads and the functions themselves do meanwhile. */
  lemma SwappedOutIsRun(s: Loop, steps: seq<Step>)
    requires Inv(s) && Enabled(s, Swap) && AllEnabled(Next(s, Swap), steps)
    requires Run(Next(s, Swap), steps).phase.Checking?
    ensures s.pushed <= Run(Next(s, Swap), steps).executed
  {
    var t := Next(s, Swap);
    NextKeeps(s, Swap);
    ClaimedGrows(t, steps);
    RunKeeps(t, steps);
    var u := Run(t, steps);
    assert t.executed + t.batch == s.pushed;
    assert u.executed + u.batch == u.executed;
  }

  // ----- The loop thread on its own -----

  /** What the functions of a batch queue when they run, one after the other. */
  function Queued(pushes: Func -> seq<Func>, batch: seq<Func>): seq<Func> {
    if batch == [] then [] else pushes(batch[0]) + Queued(pushes, batch[1..])
  }

  lemma {:induction false} QueuedAppend(pushes: Func -> seq<Func>, a: seq<Func>, f: Func)
    ensures Queued(pushes, a + [f]) == Queued(pushes, a) + pushes(f)
    decreases a
  {
    if a == [] {
      assert [f][1..] == [] && pushes(f) + [] == pushes(f) && [] + pushes(f) == pushes(f);
    } else {
      assert (a + [f])[0] == a[0] && (a + [f])[1..] == a[1..] + [f];
      QueuedAppend(pushes, a[1..], f);
      assert pushes(a[0]) + (Queued(pushes, a[1..]) + pushes(f)) == pushes(a[0]) + Queued(pushes, a[1..]) + pushes(f);
    }
  }

  lemma {:induction false} RunJoined(s: Loop, a: seq<Step>, b: seq<Step>)
    requires AllEnabled(s, a) && AllEnabled(Run(s, a), b)
    ensures AllEnabled(s, a + b) && Run(s, a + b) == Run(Run(s, a), b)
    decreases a
  {
    if a == [] {
      assert a + b == b;
    } else {
      assert (a + b)[0] == a[0] && (a + b)[1..] == a[1..] + b;
      RunJoined(Next(s, a[0]), a[1..], b);
    }
  }

  /** QueueInLoop as steps. */
  function QueueSteps(f: Func, inMyLoop: bool, running: bool): seq<Step> {
    if !inMyLoop then [Push(f), Wake] else if running then [LoopPush(f), LoopWake] else [LoopPush(f)]
  }

  lemma QueueIsSteps(s: Loop, f: Func, inMyLoop: bool)
    requires inMyLoop ==> Callbacks(s.phase) && !s.loopOwes
    ensures var steps := QueueSteps(f, inMyLoop, s.phase.Running?);
      AllEnabled(s, steps) &&
      Run(s, steps) == s.(funcs := s.funcs + [f], pushed := s.pushed + [f],
                          tokens := s.tokens + if inMyLoop && !s.phase.Running? then 0 else 1)
  {
    var steps := QueueSteps(f, inMyLoop, s.phase.Running?);
    var t := Next(s, steps[0]);
    if |steps| == 2 {
      assert steps[1..] == [steps[1]] && [steps[1]][1..] == [];
      assert Run(t, [steps[1]]) == Next(t, steps[1]);
    } else {
      assert steps[1..] == [] && Run(t, []) == t;
    }
  }

  /** A function that runs in the loop and queues others. */
  function CallSteps(pushes: seq<Func>): seq<Step>
    decreases pushes
  {
    if pushes == [] then [] else CallSteps(pushes[..|pushes| - 1]) + QueueSteps(pushes[|pushes| - 1], true, true)
  }

  /** The first n functions of a batch. */
  function BatchSteps(pushes: Func -> seq<Func>, batch: seq<Func>, n: nat): seq<Step>
    requires n <= |batch|
    decreases n
  {
    if n == 0 then [] else BatchSteps(pushes, batch, n - 1) + ([RunOne] + CallSteps(pushes(batch[n - 1])))
  }

  /** RunFuncs as steps. */
  function RunFuncsSteps(pushes: Func -> seq<Func>, batch: seq<Func>): seq<Step> {
    [Swap] + BatchSteps(pushes, batch, |batch|) + [BatchDone]
  }

  lemma {:induction false} CallIsSteps(s: Loop, pushes: seq<Func>)
    requires s.phase.Running? && !s.loopOwes
    ensures AllEnabled(s, CallSteps(pushes))
    ensures Run(s, CallSteps(pushes)) ==
      s.(funcs := s.funcs + pushes, pushed := s.pushed + pushes, tokens := s.tokens + |pushes|)
    decreases pushes
  {
    if pushes == [] {
      assert s.funcs + pushes == s.funcs && s.pushed + pushes == s.pushed;
    } else {
      var init, f := pushes[..|pushes| - 1], pushes[|pushes| - 1];
      CallIsSteps(s, init);
      var t := Run(s, CallSteps(init));
      QueueIsSteps(t, f, true);
      RunJoined(s, CallSteps(init), QueueSteps(f, true, true));
      assert s.funcs + init + [f] == s.funcs + pushes && s.pushed + init + [f] == s.pushed + pushes;
    }
  }

  lemma RunOneTakes(s: Loop)
    requires s.phase.Running? && !s.loopOwes && s.batch != []
    ensures Next(s, RunOne) == s.(executed := s.executed + [s.batch[0]], batch := s.batch[1..])
  {
  }

  /** One function of a batch, with what it queues. */
  lemma TurnIsSteps(s: Loop, pushes: seq<Func>)
    requires s.phase.Running? && !s.loopOwes && s.batch != []
    ensures AllEnabled(s, [RunOne] + CallSteps(pushes))
    ensures var t := Next(s, RunOne);
      Run(s, [RunOne] + CallSteps(pushes)) ==
        t.(funcs := t.funcs + pushes, pushed := t.pushed + pushes, tokens := t.tokens + |pushes|)
  {
    var t := Next(s, RunOne);
    assert t.phase.Running? && !t.loopOwes;
    OneStep(s, RunOne);
    hide *;
    CallIsSteps(t, pushes);
    RunJoined(s, [RunOne], CallSteps(pushes));
  }

  lemma {:induction false} BatchIsSteps(s: Loop, pushes: Func -> seq<Func>, batch: seq<Func>, n: nat)
    requires s.phase.Running? && !s.loopOwes && s.batch == batch && n <= |batch|
    ensures var more := Queued(pushes, batch[..n]);
      AllEnabled(s, BatchSteps(pushes, batch, n)) &&
      Run(s, BatchSteps(pushes, batch, n)) ==
        s.(batch := batch[n..], executed := s.executed + batch[..n], funcs := s.funcs + more,
           pushed := s.pushed + more, tokens := s.tokens + |more|)
    decreases n
  {
    if n == 0 {
      assert batch[0..] == batch && s.executed + [] == s.executed && s.funcs + [] == s.funcs && s.pushed + [] == s.pushed;
    } else {
      hide AllEnabled, Run, CallSteps, Queued, Next;
      var f, init := batch[n - 1], batch[..n - 1];
      BatchIsSteps(s, pushes, batch, n - 1);
      var before := BatchSteps(pushes, batch, n - 1);
      RunOneTakes(Run(s, before));
      TurnIsSteps(Run(s, before), pushes(f));
      RunJoined(s, before, [RunOne] + CallSteps(pushes(f)));
      assert batch[..n] == init + [f] && batch[n - 1..][0] == f && batch[n - 1..][1..] == batch[n..];
      QueuedAppend(pushes, init, f);
      Associate(s.executed, init, [f]);
      Associate(s.funcs, Queued(pushes, init), pushes(f));
      Associate(s.pushed, Queued(pushes, init), pushes(f));
    }
  }

  lemma Associate(a: seq<Func>, b: seq<Func>, c: seq<Func>)
    ensures a + b + c == a + (b + c)
  {
  }

  lemma OneStep(s: Loop, step: Step)
    requires Enabled(s, step)
    ensures AllEnabled(s, [step]) && Run(s, [step]) == Next(s, step)
  {
    assert [step][1..] == [];
  }

  /** RunFuncs, undisturbed, is one of the interleavings. */
  lemma RunFuncsIsSteps(s: Loop, pushes: Func -> seq<Func>)
    requires s.phase.Handling? && s.batch == [] && !s.loopOwes
    ensures var more := Queued(pushes, s.funcs);
      AllEnabled(s, RunFuncsSteps(pushes, s.funcs)) &&
      Run(s, RunFuncsSteps(pushes, s.funcs)) ==
        s.(phase := Checking, executed := s.executed + s.funcs, funcs := more,
           pushed := s.pushed + more, tokens := s.tokens + |more|)
  {
    var n := |s.funcs|;
    var t, steps := Next(s, Swap), BatchSteps(pushes, s.funcs, n);
    OneStep(s, Swap);
    BatchIsSteps(t, pushes, s.funcs, n);
    assert s.funcs[..n] == s.funcs && s.funcs[n..] == [] && [] + Queued(pushes, s.funcs) == Queued(pushes, s.funcs);
    RunJoined(s, [Swap], steps);
    OneStep(Run(t, steps), BatchDone);
    RunJoined(s, [Swap] + steps, [BatchDone]);
  }

  // ----- Going on and stopping -----

  /** exit_ is set exactly by those who ask for it. */
  lemma {:induction false} ExitIsAsked(s: Loop, steps: seq<Step>)
    requires AllEnabled(s, steps)
    ensures Run(s, steps).exit <==> s.exit || AskExit in steps || LoopExit in steps
    decreases steps
  {
    if steps != [] {
      ExitIsAsked(Next(s, steps[0]), steps[1..]);
      assert steps == [steps[0]] + steps[1..];
    }
  }

  lemma {:induction false} StoppedMeansExit(s: Loop, steps: seq<Step>)
    requires AllEnabled(s, steps) && (s.phase.Stopped? ==> s.exit)
    ensures Run(s, steps).phase.Stopped? ==> Run(s, steps).exit
    decreases steps
  {
    if steps != [] { StoppedMeansExit(Next(s, steps[0]), steps[1..]); }
  }

  /** In every interleaving the loop stops only if someone asked for it, and the test of exit_
      stops it if and only if someone has. */
  lemma StopsExactlyOnExit(steps: seq<Step>)
    requires AllEnabled(START, steps)
    ensures var s := Run(START, steps);
      (s.phase.Stopped? ==> AskExit in steps || LoopExit in steps) &&
      (s.phase.Checking? ==>
        Enabled(s, Check) &&
        Next(s, Check).phase == if AskExit in steps || LoopExit in steps then Stopped else Polling)
  {
    ExitIsAsked(START, steps);
    StoppedMeansExit(START, steps);
  }

  /** From every state at poll that can be reached, whatever the functions queue, the loop thread
      goes on to the next test of exit_; everything then queued has been executed, and nothing
      else; and it is back at poll unless an exit was asked for. */
  lemma PollProceeds(before: seq<Step>, pushes: Func -> seq<Func>)
    requires AllEnabled(START, before) && Run(START, before).phase.Polling?
    ensures var s := Run(START, before);
      var steps := IterationSteps(s, pushes);
      AllEnabled(s, steps) &&
      var t := Run(s, steps);
      t.phase.Checking? && t.executed == s.pushed && t.funcs == Queued(pushes, s.funcs) &&
      Next(t, Check).phase == if AskExit in before || LoopExit in before then Stopped else Polling
  {
    var s := Run(START, before);
    RunKeeps(START, before);
    ExitIsAsked(START, before);
    assert s.batch == [] && s.executed + [] == s.executed;
    IterationProceeds(s, pushes);
  }

  /** One iteration of the loop thread: a wake-up is read if there is one. */
  function IterationSteps(s: Loop, pushes: Func -> seq<Func>): seq<Step> {
    [PollReturns] + ([TimersRun] + ((if s.tokens > 0 then [ReadToken] else []) + RunFuncsSteps(pushes, s.funcs)))
  }

  lemma StepThen(s: Loop, step: Step, steps: seq<Step>)
    requires Enabled(s, step) && AllEnabled(Next(s, step), steps)
    ensures AllEnabled(s, [step] + steps) && Run(s, [step] + steps) == Run(Next(s, step), steps)
  {
    assert ([step] + steps)[1..] == steps;
  }

  lemma IterationProceeds(s: Loop, pushes: Func -> seq<Func>)
    requires s.phase.Polling? && s.batch == [] && !s.loopOwes
    ensures AllEnabled(s, IterationSteps(s, pushes))
    ensures var t := Run(s, IterationSteps(s, pushes));
      t.phase.Checking? && t.executed == s.executed + s.funcs && t.funcs == Queued(pushes, s.funcs) && t.exit == s.exit
  {
    var s1 := Next(s, PollReturns);
    var s2 := Next(s1, TimersRun);
    var run := RunFuncsSteps(pushes, s.funcs);
    var head := if s.tokens > 0 then [ReadToken] else [];
    var s3 := if s.tokens > 0 then Next(s2, ReadToken) else s2;
    assert s3.phase.Handling? && s3.funcs == s.funcs && s3.executed == s.executed && s3.exit == s.exit;
    RunFuncsIsSteps(s3, pushes);
    if s.tokens > 0 { StepThen(s2, ReadToken, run); }
    assert s.tokens == 0 ==> head + run == run;
    hide AllEnabled, Run, RunFuncsSteps;
    StepThen(s1, TimersRun, head + run);
    StepThen(s, PollReturns, [TimersRun] + (head + run));
  }

  predicate Wakes(step: Step) { step.Wake? || step.LoopWake? }
  predicate Owes(step: Step) { step.Push? || step.AskExit? }

  function Count(steps: seq<Step>, p: Step -> bool): nat {
    if steps == [] then 0 else (if p(steps[0]) then 1 else 0) + Count(steps[1..], p)
  }

  /** In every interleaving the unread wake-ups are those written less those read, and the threads
      that have yet to write are those that pushed or asked for an exit less those that wrote. */
  lemma {:induction false} WakeUpsCounted(s: Loop, steps: seq<Step>)
    requires AllEnabled(s, steps)
    ensures var t := Run(s, steps);
      t.tokens + Count(steps, (x: Step) => x.ReadToken?) == s.tokens + Count(steps, Wakes) &&
      t.owing + Count(steps, (x: Step) => x.Wake?) == s.owing + Count(steps, Owes)
    decreases steps
  {
    if steps != [] { WakeUpsCounted(Next(s, steps[0]), steps[1..]); }
  }

  class EventLoop {
    var funcs: seq<Func>
    var run: bool
    var tokens: nat // unread bytes behind wakeup_fd_[0], in wake-ups
    ghost var executed: seq<Func>

    constructor ()
      ensures funcs == executed == [] && !run && tokens == 0
    {
      funcs, run, tokens, executed := [], false, 0, [];
    }

    /** The object is in this state of the model. */
    ghost predicate Shows(s: Loop)
      reads this
    {
      funcs == s.funcs && tokens == s.tokens && executed == s.executed && (run <==> s.phase.Running?)
    }

    method WakeUp()
      modifies this`tokens
      ensures tokens == old(tokens) + 1
    {
      tokens := tokens + 1;
    }

    method QueueInLoop(f: Func, inMyLoop: bool, ghost s: Loop)
      requires Shows(s) && (inMyLoop ==> Callbacks(s.phase) && !s.loopOwes)
      modifies this`funcs, this`tokens
      ensures var steps := QueueSteps(f, inMyLoop, s.phase.Running?); AllEnabled(s, steps) && Shows(Run(s, steps))
      ensures funcs == old(funcs) + [f]
      ensures tokens == old(tokens) + if inMyLoop && !run then 0 else 1
    {
      funcs := funcs + [f];
      if !inMyLoop || run {
        WakeUp();
      }
      QueueIsSteps(s, f, inMyLoop);
    }

    /** Runs a function, which queues others. */
    method Call(f: Func, pushes: Func -> seq<Func>, ghost s: Loop)
      requires Shows(s) && s.phase.Running? && !s.loopOwes
      modifies this`funcs, this`tokens, this`executed
      ensures executed == old(executed) + [f] && funcs == old(funcs) + pushes(f)
      ensures tokens == old(tokens) + if run then |pushes(f)| else 0
    {
      executed := executed + [f];
      for i := 0 to |pushes(f)|
        invariant executed == old(executed) + [f] && funcs == old(funcs) + pushes(f)[..i]
        invariant tokens == old(tokens) + if run then i else 0
      {
        QueueInLoop(pushes(f)[i], true, s.(funcs := funcs, tokens := tokens, executed := executed));
      }
      assert pushes(f)[..|pushes(f)|] == pushes(f);
    }

    /** Executes exactly what was queued, in order; what that queues stays, with a wake-up each. */
    method RunFuncs(pushes: Func -> seq<Func>, ghost s: Loop)
      requires Shows(s) && s.phase.Handling? && s.batch == [] && !s.loopOwes
      modifies this
      ensures var steps := RunFuncsSteps(pushes, s.funcs); AllEnabled(s, steps) && Shows(Run(s, steps))
      ensures executed == old(executed) + old(funcs)
      ensures funcs == Queued(pushes, old(funcs))
      ensures tokens == old(tokens) + |funcs| && !run
    {
      var batch: seq<Func> := [];
      run := true;
      batch, funcs := funcs, batch;
      for i := 0 to |batch|
        invariant run && executed == old(executed) + batch[..i]
        invariant funcs == Queued(pushes, batch[..i]) && tokens == old(tokens) + |funcs|
      {
        Call(batch[i], pushes, s.(phase := Running, funcs := funcs, tokens := tokens, executed := executed));
        QueuedAppend(pushes, batch[..i], batch[i]);
        assert batch[..i + 1] == batch[..i] + [batch[i]];
      }
      assert batch[..|batch|] == batch;
      run := false;
      RunFuncsIsSteps(s, pushes);
    }
  }
}
