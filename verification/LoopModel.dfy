/**
 The hand-off of functors to an event loop, as a step system: the loop thread goes round its
 poll / dispatch / run-functors cycle while any number of other threads push functors and call
 quit. Pushing and waking up are separate steps, so every interleaving is a sequence of steps.
 */
module LoopModel {

  type Functor = nat
  type Thread = nat

  const EVENTFD_MAX: nat := 0xffff_ffff_ffff_fffe

  /** Where the loop thread stands in EventLoop::loop. */
  datatype Pc =
    | AtCheck                    // while (!quit_)
    | AtPoll                     // in poller_->poll
    | AtDispatch(wakeup: bool)   // handling the active channels; whether the wake-up channel is still to come
    | AtSwap                     // in doPendingFunctors, before the locked swap
    | AtRun(active: bool)        // in the for loop over the swapped functors; whether one has been entered
    | Exited

  datatype Loop = Loop(
    pc: Pc, pending: seq<Functor>, counter: nat, calling: bool, quit: bool, batch: seq<Functor>,
    owing: set<Thread>,   // threads between their push (or quit_ = true) and their wakeup()
    loopOwes: bool,       // the loop thread itself, likewise
    pushed: seq<Functor>, // history: every push, in mutex order
    ran: seq<Functor>,    // history: every functor entered, in order
    taken: nat)           // history: how many had been pushed at the last swap

  const INIT := Loop(AtCheck, [], 0, false, false, [], {}, false, [], [], 0)

  datatype Step =
    | Push(t: Thread, f: Functor) | SetQuit(t: Thread) | Wake(t: Thread)
    | LoopPush(f: Functor) | LoopWake | LoopQuit
    | CheckQuit | PollReturn(wakeup: bool) | ReadWakeup | StartFunctors | Swap | RunNext | Finish

  /** ::write of 1 to the eventfd; a full counter refuses it and stays full. */
  function Bump(counter: nat): (n: nat)
    ensures n > 0 && (counter < EVENTFD_MAX ==> n == counter + 1) && (counter >= EVENTFD_MAX ==> n == counter)
  {
    if counter < EVENTFD_MAX then counter + 1 else counter
  }

  /** User code runs on the loop thread: an event callback, or a functor that was entered. */
  predicate InUserCode(s: Loop) {
    !s.loopOwes && (s.pc.AtDispatch? || s.pc == AtRun(true))
  }

  predicate Enabled(s: Loop, step: Step) {
    match step
    case Push(t, _) => t !in s.owing
    case SetQuit(t) => t !in s.owing
    case Wake(t) => t in s.owing
    case LoopPush(_) => InUserCode(s)
    case LoopWake => s.loopOwes
    case LoopQuit => InUserCode(s)
    case CheckQuit => s.pc == AtCheck
    case PollReturn(wakeup) => s.pc == AtPoll && (wakeup ==> s.counter > 0)
    case ReadWakeup => s.pc == AtDispatch(true)
    case StartFunctors => s.pc == AtDispatch(false)
    case Swap => s.pc == AtSwap
    case RunNext => s.pc.AtRun? && !s.loopOwes && s.batch != []
    case Finish => s.pc.AtRun? && !s.loopOwes && s.batch == []
  }

  /** A step that is not enabled leaves everything as it is. */
  function Next(s: Loop, step: Step): Loop {
    if !Enabled(s, step) then s else
    match step
    case Push(t, f) => s.(pending := s.pending + [f], pushed := s.pushed + [f], owing := s.owing + {t})
    case SetQuit(t) => s.(quit := true, owing := s.owing + {t})
    case Wake(t) => s.(counter := Bump(s.counter), owing := s.owing - {t})
    case LoopPush(f) => s.(pending := s.pending + [f], pushed := s.pushed + [f], loopOwes := s.calling)
    case LoopWake => s.(counter := Bump(s.counter), loopOwes := false)
    case LoopQuit => s.(quit := true)
    case CheckQuit => s.(pc := if s.quit then Exited else AtPoll)
    case PollReturn(wakeup) => s.(pc := AtDispatch(wakeup))
    case ReadWakeup => s.(pc := AtDispatch(false), counter := 0)
    case StartFunctors => s.(pc := AtSwap, calling := true)
    case Swap => s.(pc := AtRun(false), batch := s.pending, pending := [], taken := |s.pushed|)
    case RunNext => s.(pc := AtRun(true), ran := s.ran + [s.batch[0]], batch := s.batch[1..])
    case Finish => s.(pc := AtCheck, calling := false)
  }

  function Run(s: Loop, steps: seq<Step>): Loop
    decreases |steps|
  {
    if steps == [] then s else Run(Next(s, steps[0]), steps[1..])
  }

  // ---------- no wake-up is lost ----------

  /** From the swap until the next poll returns, nothing will look at pendingFunctors_ unless woken. */
  predicate Blind(s: Loop) {
    s.pc.AtRun? || s.pc == AtCheck || s.pc == AtPoll
  }

  predicate WakeupDue(s: Loop) {
    s.counter > 0 || s.owing != {} || s.loopOwes
  }

  predicate NoLostWakeup(s: Loop) {
    && (Blind(s) && s.pending != [] ==> WakeupDue(s))
    && (s.pc == AtPoll && s.quit ==> WakeupDue(s))
  }

  /** Each push is run once, in push order, and a round ends with exactly what was pushed before its swap. */
  predicate Fifo(s: Loop) {
    && s.ran + s.batch + s.pending == s.pushed
    && s.taken <= |s.pushed| && |s.ran| + |s.batch| == s.taken
    && (!s.pc.AtRun? && s.pc != Exited ==> s.batch == [])
    && (s.pc == Exited ==> s.batch == [])
  }

  predicate Consistent(s: Loop) {
    && (s.calling <==> s.pc == AtSwap || s.pc.AtRun?)
    && (s.loopOwes ==> s.pc == AtRun(true))
    && (s.pc == Exited ==> s.quit)
  }

  predicate Inv(s: Loop) {
    NoLostWakeup(s) && Fifo(s) && Consistent(s)
  }

  lemma FifoStep(s: Loop, step: Step)
    requires Fifo(s) && Consistent(s)
    ensures Fifo(Next(s, step))
  {
    if Enabled(s, step) {
      if step.Push? || step.LoopPush? {
        Associate(s.ran + s.batch, s.pending, [step.f]);
      } else if step.Swap? {
        NoBatch(s.ran, s.pending);
      } else if step.RunNext? {
        Associate(s.ran, [s.batch[0]], s.batch[1..]);
      }
    }
  }

  lemma Associate(a: seq<Functor>, b: seq<Functor>, c: seq<Functor>)
    ensures a + (b + c) == a + b + c
  {
  }

  lemma NoBatch(a: seq<Functor>, b: seq<Functor>)
    ensures a + b + [] == a + [] + b
  {
  }

  lemma InvStep(s: Loop, step: Step)
    requires Inv(s)
    ensures Inv(Next(s, step))
  {
    FifoStep(s, step);
    hide Fifo;
    if step.Push? || step.SetQuit? {
      assert step.t in Next(s, step).owing;
    }
  }

  lemma {:induction false} RunInv(s: Loop, steps: seq<Step>)
    requires Inv(s)
    ensures Inv(Run(s, steps))
    decreases |steps|
  {
    if steps != [] {
      InvStep(s, steps[0]);
      RunInv(Next(s, steps[0]), steps[1..]);
    }
  }

  /** Whatever the threads do, and in whatever order: no lost wake-up, and exactly-once FIFO hand-off. */
  lemma Reachable(steps: seq<Step>)
    ensures Inv(Run(INIT, steps))
  {
    RunInv(INIT, steps);
  }

  /** The functors that get pushed in the course of some steps, in mutex order. */
  function PushedBy(s: Loop, steps: seq<Step>): seq<Functor>
    decreases |steps|
  {
    if steps == [] then [] else
      (if (steps[0].Push? || steps[0].LoopPush?) && Enabled(s, steps[0]) then [steps[0].f] else [])
      + PushedBy(Next(s, steps[0]), steps[1..])
  }

  /** Each push that happens is recorded, and nothing else is. */
  lemma {:induction false} EveryPushCounts(s: Loop, steps: seq<Step>)
    ensures Run(s, steps).pushed == s.pushed + PushedBy(s, steps)
    decreases |steps|
  {
    if steps == [] {
      assert s.pushed + [] == s.pushed;
    } else {
      PushCounts(s, steps[0]);
      EveryPushCounts(Next(s, steps[0]), steps[1..]);
      var one := if (steps[0].Push? || steps[0].LoopPush?) && Enabled(s, steps[0]) then [steps[0].f] else [];
      Associate(s.pushed, one, PushedBy(Next(s, steps[0]), steps[1..]));
    }
  }

  lemma PushCounts(s: Loop, step: Step)
    ensures Next(s, step).pushed ==
            s.pushed + if (step.Push? || step.LoopPush?) && Enabled(s, step) then [step.f] else []
  {
    assert s.pushed + [] == s.pushed;
  }

  /**
   Exactly-once hand-off, in terms of what was called alone: after any steps of any threads the functors
   run, the rest of the batch and those pending are the functors queued, each once, in mutex order.
   */
  lemma ExactlyOnce(steps: seq<Step>)
    ensures var e := Run(INIT, steps); e.ran + e.batch + e.pending == PushedBy(INIT, steps)
  {
    RunInv(INIT, steps);
    EveryPushCounts(INIT, steps);
    assert [] + PushedBy(INIT, steps) == PushedBy(INIT, steps);
  }

  /** A push is possible for any thread that is not inside an earlier call, and for running user code. */
  lemma PushAppends(s: Loop, step: Step)
    requires (step.Push? && step.t !in s.owing) || (step.LoopPush? && InUserCode(s))
    ensures Next(s, step).pending == s.pending + [step.f] && Next(s, step).batch == s.batch
    ensures step.Push? ==> Next(s, step).owing == s.owing + {step.t}
    ensures step.LoopPush? ==> (Next(s, step).loopOwes <==> s.calling)
  {
  }

  /** A caller that still owes its wake-up can always deliver it, and then owes nothing. */
  lemma WakeDelivers(s: Loop, t: Thread)
    ensures t in s.owing ==>
              t !in Next(s, Wake(t)).owing && Next(s, Wake(t)).counter > 0
              && Next(s, Wake(t)) == s.(owing := s.owing - {t}, counter := Bump(s.counter))
    ensures s.loopOwes ==> Next(s, LoopWake) == s.(loopOwes := false, counter := Bump(s.counter))
  {
  }

  /** Only a readable eventfd is reported, and reading it empties it. */
  lemma WakeupReported(s: Loop)
    requires s.pc == AtPoll
    ensures Next(s, PollReturn(true)).pc == (if s.counter > 0 then AtDispatch(true) else AtPoll)
    ensures Next(s, PollReturn(false)).pc == AtDispatch(false)
    ensures Next(Next(s, PollReturn(true)), ReadWakeup).counter == 0
  {
  }

  /** The loop thread goes on to the next functor, or ends the round, only when it owes no wake-up itself. */
  lemma OwesNothingBetween(s: Loop)
    requires s.pc.AtRun?
    ensures Next(s, RunNext).ran != s.ran <==> !s.loopOwes && s.batch != []
    ensures Next(s, Finish).pc == AtCheck <==> !s.loopOwes && s.batch == []
  {
    assert s.batch != [] && !s.loopOwes ==> |Next(s, RunNext).ran| > |s.ran|;
  }

  /** A quit is open to any thread that is not inside an earlier call, and to user code on the loop thread. */
  lemma QuitSets(s: Loop, step: Step)
    requires (step.SetQuit? && step.t !in s.owing) || (step.LoopQuit? && InUserCode(s))
    ensures Next(s, step) == s.(quit := true, owing := if step.SetQuit? then s.owing + {step.t} else s.owing)
  {
  }

  /** Whether a quit gets called in the course of some steps. */
  predicate QuitBy(s: Loop, steps: seq<Step>)
    decreases |steps|
  {
    steps != [] && (((steps[0].SetQuit? || steps[0].LoopQuit?) && Enabled(s, steps[0]))
                    || QuitBy(Next(s, steps[0]), steps[1..]))
  }

  /** quit_ is set exactly by a call of quit, and stays set. */
  lemma {:induction false} QuitExactly(s: Loop, steps: seq<Step>)
    ensures Run(s, steps).quit <==> s.quit || QuitBy(s, steps)
    decreases |steps|
  {
    if steps != [] {
      QuitStep(s, steps[0]);
      QuitExactly(Next(s, steps[0]), steps[1..]);
    }
  }

  lemma QuitStep(s: Loop, step: Step)
    ensures Next(s, step).quit <==> s.quit || ((step.SetQuit? || step.LoopQuit?) && Enabled(s, step))
  {
  }

  /** At the head of the loop quit_ decides: set, the loop is left, and not set, it goes on to poll. */
  lemma QuitLeavesLoop(s: Loop)
    requires s.pc == AtCheck
    ensures Next(s, CheckQuit) == s.(pc := if s.quit then Exited else AtPoll)
  {
  }

  /** What poll waits for, besides events of other channels: the eventfd is readable. */
  predicate PollWillReturn(s: Loop) {
    s.counter > 0
  }

  /**
   A loop can only sleep on work while a producer is still inside queueInLoop or quit: once
   all of them are back, poll returns.
   */
  lemma NeverSleepsOnWork(steps: seq<Step>)
    ensures var s := Run(INIT, steps);
            s.pc == AtPoll && (s.pending != [] || s.quit) && s.owing == {} ==> PollWillReturn(s)
  {
    Reachable(steps);
  }

  // ---------- and what is pushed is run, whatever the interleaving ----------

  /** How many functors the loop thread enters in the course of some steps. */
  function Entered(s: Loop, steps: seq<Step>): nat
    decreases |steps|
  {
    if steps == [] then 0 else
      var rest := Entered(Next(s, steps[0]), steps[1..]);
      if steps[0].RunNext? && Enabled(s, steps[0]) then rest + 1 else rest
  }

  /** Pushes are only ever added to, and each functor entered is one more run. */
  lemma {:induction false} HistoryGrows(s: Loop, steps: seq<Step>)
    ensures s.pushed <= Run(s, steps).pushed
    ensures |Run(s, steps).ran| == |s.ran| + Entered(s, steps)
    decreases |steps|
  {
    if steps != [] {
      var n := Next(s, steps[0]);
      StepGrows(s, steps[0]);
      HistoryGrows(n, steps[1..]);
    }
  }

  lemma StepGrows(s: Loop, step: Step)
    ensures s.pushed <= Next(s, step).pushed
    ensures |Next(s, step).ran| == |s.ran| + if step.RunNext? && Enabled(s, step) then 1 else 0
    ensures s.taken <= |s.pushed| ==> s.taken <= Next(s, step).taken <= |Next(s, step).pushed|
  {
  }

  /** What has been run is what was pushed first. */
  lemma RanFirst(s: Loop)
    requires Fifo(s)
    ensures s.ran == s.pushed[..|s.ran|]
  {
    assert s.pushed == s.ran + (s.batch + s.pending);
  }

  /**
   In every run in which the loop thread enters more functors than there are ahead of a queued one,
   that one has been run, in its place: whatever other threads, callbacks and functors do meanwhile.
   */
  lemma QueuedFunctorRuns(s: Loop, i: nat, steps: seq<Step>)
    requires Inv(s) && i < |s.batch + s.pending| && Entered(s, steps) > i
    ensures var e := Run(s, steps);
            |s.ran| + i < |e.ran| && e.ran[|s.ran| + i] == (s.batch + s.pending)[i]
  {
    hide Run, Entered, Inv;
    var e := Run(s, steps);
    RunInv(s, steps);
    HistoryGrows(s, steps);
    RanFirstInv(e);
    PlaceOf(s, i);
    assert e.pushed[|s.ran| + i] == s.pushed[|s.ran| + i];
  }

  lemma RanFirstInv(s: Loop)
    requires Inv(s)
    ensures |s.ran| <= |s.pushed| && s.ran == s.pushed[..|s.ran|]
  {
    RanFirst(s);
  }

  lemma PlaceOf(s: Loop, i: nat)
    requires Inv(s) && i < |s.batch + s.pending|
    ensures |s.ran| + i < |s.pushed| && s.pushed[|s.ran| + i] == (s.batch + s.pending)[i]
  {
    assert s.pushed == s.ran + (s.batch + s.pending);
  }

  /** And a round the loop completes has run everything that was pushed before its swap. */
  lemma RoundRunsAll(s: Loop, before: seq<Step>, during: seq<Step>)
    requires Inv(s)
    requires var a := Run(s, before); Enabled(a, Swap) && Enabled(Run(Next(a, Swap), during), Finish)
    ensures var a := Run(s, before); a.pushed <= Run(Next(a, Swap), during).ran
  {
    var a := Run(s, before);
    var b := Next(a, Swap);
    var e := Run(b, during);
    RunInv(s, before);
    InvStep(a, Swap);
    RunInv(b, during);
    TakenGrows(b, during);
    HistoryGrows(b, during);
    RanFirst(e);
  }

  lemma {:induction false} TakenGrows(s: Loop, steps: seq<Step>)
    requires s.taken <= |s.pushed|
    ensures s.taken <= Run(s, steps).taken
    decreases |steps|
  {
    if steps != [] {
      StepGrows(s, steps[0]);
      TakenGrows(Next(s, steps[0]), steps[1..]);
    }
  }

  // ---------- a woken loop can do the work ----------

  function Repeat(step: Step, n: nat): seq<Step> {
    if n == 0 then [] else [step] + Repeat(step, n - 1)
  }

  /** One round of the loop from a poll that saw the wake-up. */
  function Round(n: nat): seq<Step> {
    [PollReturn(true), ReadWakeup, StartFunctors, Swap] + Repeat(RunNext, n) + [Finish, CheckQuit]
  }

  lemma {:induction false} RunConcat(s: Loop, a: seq<Step>, b: seq<Step>)
    ensures Run(s, a + b) == Run(Run(s, a), b)
    decreases |a|
  {
    if a == [] {
      assert a + b == b;
    } else {
      assert (a + b)[1..] == a[1..] + b;
      RunConcat(Next(s, a[0]), a[1..], b);
    }
  }

  lemma {:induction false} RunsBatch(s: Loop)
    requires s.pc.AtRun? && !s.loopOwes
    ensures Run(s, Repeat(RunNext, |s.batch|)) ==
            s.(ran := s.ran + s.batch, batch := [], pc := if s.batch == [] then s.pc else AtRun(true))
    decreases |s.batch|
  {
    if s.batch == [] {
      assert s.ran + s.batch == s.ran;
    } else {
      var n := Next(s, RunNext);
      RunsBatch(n);
      assert Repeat(RunNext, |s.batch|)[1..] == Repeat(RunNext, |s.batch| - 1);
      assert s.ran + [s.batch[0]] + s.batch[1..] == s.ran + s.batch;
    }
  }

  /** A loop in poll with the eventfd readable can go round, and if nobody comes in, one round runs everything. */
  lemma RoundDrains(s: Loop)
    requires Inv(s) && s.pc == AtPoll && PollWillReturn(s)
    ensures var e := Run(s, Round(|s.pending|));
            && e.ran == s.pushed && e.pending == [] && e.batch == []
            && e.pc == if s.quit then Exited else AtPoll
  {
    var head := [PollReturn(true), ReadWakeup, StartFunctors, Swap];
    var body := Repeat(RunNext, |s.pending|);
    assert s.batch == [] && !s.loopOwes && s.ran + s.pending == s.pushed by {
      assert s.ran + [] + s.pending == s.ran + s.pending;
    }
    hide Run, Repeat, Next, Inv;
    RunConcat(s, head + body, [Finish, CheckQuit]);
    RunConcat(s, head, body);
    RoundHead(s);
    RunsBatch(Run(s, head));
    RoundTail(Run(Run(s, head), body));
  }

  lemma RoundHead(s: Loop)
    requires s.pc == AtPoll && s.counter > 0 && !s.loopOwes
    ensures Run(s, [PollReturn(true), ReadWakeup, StartFunctors, Swap]) ==
            s.(pc := AtRun(false), counter := 0, calling := true,
               batch := s.pending, pending := [], taken := |s.pushed|)
  {
    var steps := [PollReturn(true), ReadWakeup, StartFunctors, Swap];
    var s1 := Next(s, PollReturn(true));
    var s2 := Next(s1, ReadWakeup);
    var s3 := Next(s2, StartFunctors);
    assert steps[1..] == [ReadWakeup, StartFunctors, Swap];
    assert steps[1..][1..] == [StartFunctors, Swap];
    assert steps[1..][1..][1..] == [Swap];
    assert steps[1..][1..][1..][1..] == [];
    assert Run(s, steps) == Run(s1, steps[1..]) == Run(s2, steps[1..][1..]) == Run(s3, [Swap]) == Next(s3, Swap);
  }

  lemma RoundTail(s: Loop)
    requires s.pc.AtRun? && s.batch == [] && !s.loopOwes
    ensures Run(s, [Finish, CheckQuit]) == s.(calling := false, pc := if s.quit then Exited else AtPoll)
  {
    var steps := [Finish, CheckQuit];
    assert steps[1..] == [CheckQuit] && steps[1..][1..] == [];
    assert Run(s, steps) == Run(Next(s, Finish), steps[1..]) == Next(Next(s, Finish), CheckQuit);
  }
}
