/**
 EventLoop's queue of functors as an object. `model` is the state of LoopModel the object is in; a method
 that one thread runs through without another coming in between is the run of its steps.
 */
module EventLoops {
  import opened LoopModel

  class EventLoop {
    var quit: bool
    var callingPendingFunctors: bool
    var pendingFunctors: seq<Functor>
    var wakeupCounter: nat            // the kernel's eventfd counter

    ghost var model: Loop

    ghost predicate Valid()
      reads this
    {
      && Inv(model)
      && quit == model.quit && callingPendingFunctors == model.calling
      && pendingFunctors == model.pending && wakeupCounter == model.counter
    }

    /** The state behind the first two statements of loop(). */
    constructor ()
      ensures Valid() && model == INIT
    {
      quit, callingPendingFunctors, pendingFunctors, wakeupCounter := false, false, [], 0;
      model := INIT;
    }

    /** The thread that is calling: the loop's own, in user code, or another one. */
    ghost predicate MayCall(caller: Caller)
      reads this
    {
      if caller.Loop? then InUserCode(model) else caller.t !in model.owing
    }

    method QueueInLoop(cb: Functor, caller: Caller)
      requires Valid() && MayCall(caller)
      modifies this
      ensures Valid()
      ensures pendingFunctors == old(pendingFunctors) + [cb]
      ensures wakeupCounter ==
              if caller.Other? || old(callingPendingFunctors) then Bump(old(wakeupCounter)) else old(wakeupCounter)
      ensures quit == old(quit) && callingPendingFunctors == old(callingPendingFunctors)
      ensures model == Run(old(model),
        if caller.Other? then [Push(caller.t, cb), Wake(caller.t)] else [LoopPush(cb), LoopWake])
    {
      ghost var push := if caller.Other? then Push(caller.t, cb) else LoopPush(cb);
      ghost var wake := if caller.Other? then Wake(caller.t) else LoopWake;
      TwoSteps(model, push, wake);
      InvStep(model, push);
      InvStep(Next(model, push), wake);
      hide Run, Inv;
      pendingFunctors := pendingFunctors + [cb];
      if caller.Other? || callingPendingFunctors {
        Wakeup();
      }
      model := Next(Next(model, push), wake);
    }

    method Quit(caller: Caller)
      requires Valid() && MayCall(caller)
      modifies this
      ensures Valid()
      ensures quit && pendingFunctors == old(pendingFunctors)
      ensures wakeupCounter == if caller.Other? then Bump(old(wakeupCounter)) else old(wakeupCounter)
      ensures callingPendingFunctors == old(callingPendingFunctors)
      ensures model == Run(old(model), if caller.Other? then [SetQuit(caller.t), Wake(caller.t)] else [LoopQuit])
    {
      ghost var m := model;
      if caller.Other? {
        TwoSteps(m, SetQuit(caller.t), Wake(caller.t));
      } else {
        assert [LoopQuit][1..] == [] && Run(m, [LoopQuit]) == Next(m, LoopQuit);
      }
      RunInv(m, if caller.Other? then [SetQuit(caller.t), Wake(caller.t)] else [LoopQuit]);
      quit := true;
      if caller.Other? {
        Wakeup();
        model := Next(Next(m, SetQuit(caller.t)), Wake(caller.t));
      } else {
        model := Next(m, LoopQuit);
      }
    }

    method Wakeup()
      modifies this`wakeupCounter
      ensures wakeupCounter == Bump(old(wakeupCounter))
      ensures wakeupCounter == if old(wakeupCounter) < EVENTFD_MAX then old(wakeupCounter) + 1 else old(wakeupCounter)
    {
      wakeupCounter := Bump(wakeupCounter);
    }

    /** The wake-up channel's read callback. */
    method HandleRead()
      requires Valid() && model.pc == AtDispatch(true)
      modifies this
      ensures Valid() && model == Next(old(model), ReadWakeup)
      ensures wakeupCounter == 0 && pendingFunctors == old(pendingFunctors) && quit == old(quit)
    {
      InvStep(model, ReadWakeup);
      hide Inv;
      wakeupCounter := 0;
      model := Next(model, ReadWakeup);
    }

    /**
     doPendingFunctors: `effects` says what is queued while each functor runs, by the functor itself
     or by other threads. The functors swapped out all run, in order; what is queued meanwhile waits
     for the next round with a wake-up due.
     */
    method DoPendingFunctors(effects: Effects)
      requires Valid() && model.pc == AtDispatch(false) && Permitted(effects, model.owing)
      modifies this
      ensures Valid() && model.pc == AtCheck && model.owing == old(model.owing)
      ensures model.ran == old(model.pushed)
      ensures model.pushed == old(model.pushed) + Queued(effects, old(pendingFunctors))
      ensures pendingFunctors == Queued(effects, old(pendingFunctors))
      ensures pendingFunctors != [] ==> WakeupDue(model)
    {
      hide Inv, Next, Queued, Permitted, Effect;
      ghost var m := model;
      StartRound(m);
      callingPendingFunctors := true;
      var functors := pendingFunctors;
      pendingFunctors := [];
      model := Next(Next(m, StartFunctors), Swap);
      QueuedNone(effects, functors);
      var i := 0;
      while i < |functors|
        invariant 0 <= i <= |functors| && Valid()
        invariant model.pc.AtRun? && !model.loopOwes && model.owing == m.owing
        invariant model.batch == functors[i..] && model.ran == m.ran + functors[..i]
        invariant pendingFunctors == Queued(effects, functors[..i])
        invariant model.pushed == m.pushed + Queued(effects, functors[..i])
      {
        QueuedNext(effects, functors, i);
        RunFunctor(functors, i, effects);
        assert m.ran + functors[..i] + [functors[i]] == m.ran + functors[..i + 1];
        i := i + 1;
      }
      assert functors[..i] == functors;
      FinishRound(model);
      callingPendingFunctors := false;
      model := Next(model, Finish);
    }

    /** One round of the loop over the functors. */
    method RunFunctor(functors: seq<Functor>, i: nat, effects: Effects)
      requires Valid() && model.pc.AtRun? && !model.loopOwes && Permitted(effects, model.owing)
      requires i < |functors| && model.batch == functors[i..]
      modifies this
      ensures Valid() && model.pc.AtRun? && !model.loopOwes && model.owing == old(model.owing)
      ensures model.batch == functors[i + 1..] && model.ran == old(model.ran) + [functors[i]]
      ensures pendingFunctors == old(pendingFunctors) + Effect(effects, functors[i])
      ensures model.pushed == old(model.pushed) + Effect(effects, functors[i])
    {
      hide Inv, Next, Functors;
      EnterNext(model, functors, i);
      model := Next(model, RunNext);
      RunEffects(if functors[i] in effects then effects[functors[i]] else []);
    }

    /** While one functor runs, it and other threads queue functors one after the other. */
    method RunEffects(es: seq<(Caller, Functor)>)
      requires Valid() && model.pc == AtRun(true) && !model.loopOwes
      requires forall e <- es :: e.0.Other? ==> e.0.t !in model.owing
      modifies this
      ensures Valid() && model.pc == AtRun(true) && !model.loopOwes && model.owing == old(model.owing)
      ensures model.batch == old(model.batch) && model.ran == old(model.ran)
      ensures pendingFunctors == old(pendingFunctors) + Functors(es)
      ensures model.pushed == old(model.pushed) + Functors(es)
    {
      hide Inv, Run;
      FunctorsNone(es);
      var j := 0;
      while j < |es|
        invariant 0 <= j <= |es| && Valid()
        invariant model.pc == AtRun(true) && !model.loopOwes && model.owing == old(model.owing)
        invariant model.batch == old(model.batch) && model.ran == old(model.ran)
        invariant pendingFunctors == old(pendingFunctors) + Functors(es[..j])
        invariant model.pushed == old(model.pushed) + Functors(es[..j])
      {
        assert es[j] in es;
        FunctorsNext(es, j);
        QueuedWhileRunning(model, es[j].0, es[j].1);
        QueueInLoop(es[j].1, es[j].0);
        j := j + 1;
      }
      assert es[..j] == es;
    }
  }

  datatype Caller = Loop | Other(t: Thread)

  /** What is queued while a functor runs, in mutex order, and by whom. */
  type Effects = map<Functor, seq<(Caller, Functor)>>

  /** The other threads are not still inside an earlier call. */
  predicate Permitted(effects: Effects, owing: set<Thread>) {
    forall f <- effects, e <- effects[f] :: e.0.Other? ==> e.0.t !in owing
  }

  function Functors(es: seq<(Caller, Functor)>): seq<Functor> {
    if es == [] then [] else Functors(es[..|es| - 1]) + [es[|es| - 1].1]
  }

  lemma FunctorsNone(es: seq<(Caller, Functor)>)
    ensures Functors(es[..0]) == []
  {
  }

  lemma FunctorsNext(es: seq<(Caller, Functor)>, j: nat)
    requires j < |es|
    ensures Functors(es[..j + 1]) == Functors(es[..j]) + [es[j].1]
  {
    assert es[..j + 1][..j] == es[..j];
  }

  lemma QueuedWhileRunning(s: LoopModel.Loop, caller: Caller, f: Functor)
    requires Inv(s) && s.pc == AtRun(true) && !s.loopOwes && (caller.Other? ==> caller.t !in s.owing)
    ensures var n := Run(s, if caller.Other? then [Push(caller.t, f), Wake(caller.t)] else [LoopPush(f), LoopWake]);
            && n.pc == s.pc && !n.loopOwes && n.owing == s.owing && n.batch == s.batch && n.ran == s.ran
            && n.pending == s.pending + [f] && n.pushed == s.pushed + [f]
  {
    if caller.Other? {
      TwoSteps(s, Push(caller.t, f), Wake(caller.t));
    } else {
      TwoSteps(s, LoopPush(f), LoopWake);
    }
  }

  lemma TwoSteps(s: LoopModel.Loop, a: Step, b: Step)
    ensures Run(s, [a, b]) == Next(Next(s, a), b)
  {
    assert [a, b][1..] == [b] && [b][1..] == [];
    assert Run(s, [a, b]) == Run(Next(s, a), [b]) == Next(Next(s, a), b);
  }

  function Effect(effects: Effects, f: Functor): seq<Functor> {
    Functors(if f in effects then effects[f] else [])
  }

  /** What is queued while these functors run. */
  function Queued(effects: Effects, fs: seq<Functor>): seq<Functor> {
    if fs == [] then [] else Queued(effects, fs[..|fs| - 1]) + Effect(effects, fs[|fs| - 1])
  }

  lemma QueuedNext(effects: Effects, fs: seq<Functor>, i: nat)
    requires i < |fs|
    ensures Queued(effects, fs[..i + 1]) ==
            Queued(effects, fs[..i]) + Effect(effects, fs[i])
  {
    assert fs[..i + 1][..i] == fs[..i];
  }

  lemma QueuedNone(effects: Effects, fs: seq<Functor>)
    ensures Queued(effects, fs[..0]) == []
  {
  }

  lemma StartRound(s: LoopModel.Loop)
    requires Inv(s) && s.pc == AtDispatch(false)
    ensures var n := Next(Next(s, StartFunctors), Swap);
            && Inv(n) && !s.loopOwes && s.ran + s.pending == s.pushed
            && n == s.(pc := AtRun(false), calling := true, batch := s.pending, pending := [], taken := |s.pushed|)
  {
    InvStep(s, StartFunctors);
    InvStep(Next(s, StartFunctors), Swap);
    assert s.batch == [] && s.ran + s.batch == s.ran;
  }

  lemma EnterNext(s: LoopModel.Loop, fs: seq<Functor>, i: nat)
    requires Inv(s) && s.pc.AtRun? && !s.loopOwes && i < |fs| && s.batch == fs[i..]
    ensures var n := Next(s, RunNext);
            && Inv(n) && n.batch == fs[i + 1..] && n.ran == s.ran + [fs[i]] && n.pc == AtRun(true)
            && n == s.(pc := n.pc, batch := n.batch, ran := n.ran)
  {
    InvStep(s, RunNext);
    assert fs[i..][0] == fs[i] && fs[i..][1..] == fs[i + 1..];
  }

  lemma FinishRound(s: LoopModel.Loop)
    requires Inv(s) && s.pc.AtRun? && !s.loopOwes && s.batch == []
    ensures Inv(Next(s, Finish)) && Next(s, Finish) == s.(pc := AtCheck, calling := false)
    ensures s.pending != [] ==> WakeupDue(Next(s, Finish))
  {
    InvStep(s, Finish);
  }
}
