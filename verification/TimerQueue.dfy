/**
 TimerQueue as an object. `model` is the state of TimerModel it is in; its methods run on the loop
 thread, so each is the run of its steps.
 */
module TimerQueues {
  import opened Bytes
  import opened TimerModel

  /** What a callback does to the queue. */
  predicate IsOp(op: Step) {
    op.Add? || op.Cancel?
  }

  function OpsOf(callbacks: map<Id, seq<Step>>, id: Id): seq<Step> {
    if id in callbacks then callbacks[id] else []
  }

  /** The steps of running the callbacks of these timers. */
  function CallSteps(callbacks: map<Id, seq<Step>>, es: seq<Entry>): seq<Step> {
    if es == [] then []
    else CallSteps(callbacks, es[..|es| - 1]) + ([CallNext] + OpsOf(callbacks, es[|es| - 1].id))
  }

  lemma {:induction false} RunAppend(q: Queue, a: seq<Step>, b: seq<Step>)
    ensures Run(q, a + b) == Run(Run(q, a), b)
    decreases |a|
  {
    if a == [] {
      assert a + b == b;
    } else {
      assert (a + b)[1..] == a[1..] + b;
      RunAppend(Next(q, a[0]), a[1..], b);
    }
  }

  lemma RunOneMore(q: Queue, a: seq<Step>, s: Step)
    ensures Run(q, a + [s]) == Next(Run(q, a), s)
  {
    RunAppend(q, a, [s]);
    assert [s][1..] == [];
  }

  class TimerQueue {
    var timers: seq<Entry>
    var table: map<Id, Timer>     // the Timer objects
    var activeTimers: set<Id>
    var callingExpiredTimers: bool
    var cancelingTimers: set<Id>
    var timerfd: Option<int>      // the expiration the timerfd was last set for and has not reached
    ghost var model: Queue

    ghost predicate Mirrors(q: Queue)
      reads this
    {
      && timers == q.timers && table == q.table && activeTimers == q.active
      && callingExpiredTimers == q.calling && cancelingTimers == q.canceling && timerfd == q.armed
    }

    ghost predicate Valid()
      reads this
    {
      Inv(model) && Mirrors(model)
    }

    constructor ()
      ensures Valid() && model == INIT
    {
      timers, table, activeTimers := [], map[], {};
      callingExpiredTimers, cancelingTimers, timerfd := false, {}, None;
      model := INIT;
    }

    method Insert(id: Id) returns (earliestChanged: bool)
      requires id in table
      modifies this`timers
      ensures timers == Inserted(old(timers), Entry(table[id].expiration, id))
      ensures Sorted(old(timers)) ==>
                Sorted(timers) && forall e :: e in timers <==> e in old(timers) || e == Entry(table[id].expiration, id)
      ensures earliestChanged <==> old(timers) == [] || table[id].expiration < old(timers)[0].when
    {
      if Sorted(timers) {
        InsertedIsSet(timers, Entry(table[id].expiration, id));
      }
      earliestChanged := false;
      var when := table[id].expiration;
      if timers == [] || when < timers[0].when {
        earliestChanged := true;
      }
      timers := Inserted(timers, Entry(when, id));
    }

    method ResetTimerfd(expiration: int)
      modifies this`timerfd
      ensures timerfd == Some(expiration)
    {
      timerfd := Some(expiration);
    }

    /** id is the address of the new timer. */
    method AddTimerInLoop(id: Id, timer: Timer)
      requires Valid() && Enabled(model, Add(id, timer))
      modifies this
      ensures Valid() && model == Next(old(model), Add(id, timer))
      ensures table == old(table)[id := timer]
      ensures forall e :: e in timers <==> e in old(timers) || e == Entry(timer.expiration, id)
      ensures timerfd == if old(timers) == [] || timer.expiration < old(timers)[0].when then Some(timer.expiration)
                         else old(timerfd)
      ensures cancelingTimers == old(cancelingTimers) && callingExpiredTimers == old(callingExpiredTimers)
    {
      hide Inv, Inserted, Sorted;
      AddFiles(model, id, timer);
      StepKeeps(model, Add(id, timer));
      table := table[id := timer];
      var earliestChanged := Insert(id);
      if earliestChanged {
        ResetTimerfd(timer.expiration);
      }
      model := Next(model, Add(id, timer));
    }

    method CancelInLoop(id: Id)
      requires Valid() && Enabled(model, Cancel(id))
      modifies this
      ensures Valid() && model == Next(old(model), Cancel(id))
      ensures timers == old(timers) && table == old(table) && timerfd == old(timerfd)
      ensures callingExpiredTimers == old(callingExpiredTimers)
      ensures cancelingTimers == old(cancelingTimers) + if callingExpiredTimers then {id} else {}
    {
      hide Inv, SetOk, Erased;
      ghost var m := model;
      StepKeeps(model, Cancel(id));
      if id in activeTimers {
        var expiration := if id in table then table[id].expiration else 0;
        timers := Erased(timers, Entry(expiration, id));
        activeTimers := activeTimers - {id};
      } else if callingExpiredTimers {
        cancelingTimers := cancelingTimers + {id};
      }
      model := Next(model, Cancel(id));
      CancelMoves(m, id);
    }

    /** handleRead up to its callbacks. */
    method GetExpired(now: int) returns (expired: seq<Entry>)
      requires Valid() && Enabled(model, Expire(now))
      modifies this
      ensures Valid() && model == Next(old(model), Expire(now)) && expired == model.expired
      ensures expired + timers == old(timers) && table == old(table)
      ensures (forall e <- expired :: e.when < now) && (forall e <- timers :: e.when >= now)
      ensures timerfd == None && callingExpiredTimers && cancelingTimers == {}
    {
      hide Inv, LowerBound, Keyed, Sorted;
      ExpireBegins(model, now);
      timerfd := None;
      var end := LowerBound(timers, Entry(now, NULL));
      expired := timers[..end];
      timers := timers[end..];
      var i := 0;
      while i < |expired|
        invariant 0 <= i <= |expired|
        invariant activeTimers == old(activeTimers) - Ids(expired[..i])
        modifies this`activeTimers
      {
        IdsAppend(expired, i);
        activeTimers := activeTimers - {expired[i].id};
        i := i + 1;
      }
      assert expired[..i] == expired;
      callingExpiredTimers := true;
      cancelingTimers := {};
      model := Next(model, Expire(now));
    }

    /** One callback, which makes the given calls; a new timer gets an address that no other has. */
    method RunCallback(ops: seq<Step>)
      requires Valid() && Enabled(model, CallNext) && forall op <- ops :: IsOp(op)
      modifies this
      ensures Valid() && model == Run(old(model), [CallNext] + ops)
      ensures model.calling && model.expired == old(model.expired) && model.called == old(model.called) + 1
    {
      StepKeeps(model, CallNext);
      ghost var m := Next(model, CallNext);
      model := m;
      var i := 0;
      assert ops[..0] == [];
      while i < |ops|
        invariant 0 <= i <= |ops|
        invariant Valid() && model == Run(m, ops[..i])
        invariant model.calling && model.expired == m.expired && model.called == m.called
      {
        hide Inv, Inserted, Erased, Run;
        assert ops[..i + 1] == ops[..i] + [ops[i]] && IsOp(ops[i]);
        RunOneMore(m, ops[..i], ops[i]);
        OpFrame(model, ops[i]);
        if ops[i].Add? {
          if ops[i].id != NULL && ops[i].id !in table {
            AddTimerInLoop(ops[i].id, ops[i].timer);
          }
        } else {
          CancelInLoop(ops[i].id);
        }
        i := i + 1;
      }
      assert ops[..i] == ops;
      assert ([CallNext] + ops)[1..] == ops;
    }

    /** One round of reset's loop: the timer is restarted and inserted again, or left out. */
    method PutTimerBack(id: Id, now: int, ghost q: Queue)
      requires Mirrors(q) && id in table && now == q.now
      modifies this`table, this`timers
      ensures Mirrors(PutBack(q, id))
    {
      hide Inserted;
      if table[id].Repeat() && id !in cancelingTimers {
        table := table[id := table[id].Restarted(now)];
        var _ := Insert(id);
      }
    }

    method Reset(expired: seq<Entry>, now: int)
      requires Inv(model) && Enabled(model, EndRound) && Mirrors(model.(calling := false))
      requires expired == model.expired && now == model.now
      modifies this
      ensures Valid() && model == Next(old(model), EndRound) && !callingExpiredTimers
    {
      hide Inv, ResetFrom, PutBack, ResetOk, Next;
      EndsRound(model);
      ghost var q := model.(calling := false);
      ResetStart(model);
      var nextExpire := 0;
      var i := 0;
      while i < |expired|
        invariant 0 <= i <= |expired| && q.expired == expired && q.now == now
        invariant ResetOk(q, i) && Mirrors(q) && model == old(model)
        invariant ResetFrom(q, i, nextExpire) == ResetFrom(old(model).(calling := false), 0, 0)
        modifies this`table, this`timers, this`timerfd
      {
        var id := expired[i].id;
        ghost var q2 := AfterRound(q, i, nextExpire);
        ResetRound(q, i, nextExpire);
        PutTimerBack(id, now, q);
        if timers != [] {
          nextExpire := table[timers[0].id].expiration;
        }
        if nextExpire > 0 {
          ResetTimerfd(nextExpire);
        }
        q := q2;
        i := i + 1;
      }
      ResetDone(q, nextExpire);
      model := Next(model, EndRound);
    }

    /** The timerfd is readable: everything expired is called, in order, and the queue is set up again. */
    method HandleRead(now: int, callbacks: map<Id, seq<Step>>)
      requires Valid() && Enabled(model, Expire(now))
      requires forall id <- callbacks, op <- callbacks[id] :: IsOp(op)
      modifies this
      ensures Valid()
      ensures var q := Next(old(model), Expire(now));
        model == Next(Run(q, CallSteps(callbacks, q.expired)), EndRound)
      ensures Armed(old(model)) ==> (Armed(model) <==> old(timers)[0].when < now)
      ensures !callingExpiredTimers
      ensures CalledAndRefiled(old(model), model, now, callbacks)
    {
      hide Inv, ResetFrom, TakeExpired, CalledAndRefiled, Next, Run;
      ghost var m := model;
      var expired := GetExpired(now);
      ExpireCalls(m, now);
      RunCallbacks(expired, callbacks);
      CallStepsInHandler(callbacks, expired);
      KeepsNow(Next(m, Expire(now)), CallSteps(callbacks, expired));
      HandlerArmsExactly(m, now, CallSteps(callbacks, expired));
      RoundOfCalls(m, now, callbacks);
      callingExpiredTimers := false;
      Reset(expired, now);
    }

    /** The loop over the expired timers. */
    method RunCallbacks(expired: seq<Entry>, callbacks: map<Id, seq<Step>>)
      requires Valid() && model.calling && model.called == 0 && expired == model.expired
      requires forall id <- callbacks, op <- callbacks[id] :: IsOp(op)
      modifies this
      ensures Valid() && model == Run(old(model), CallSteps(callbacks, expired))
      ensures model.calling && model.expired == expired && model.called == |expired|
    {
      hide Inv;
      var i := 0;
      while i < |expired|
        invariant 0 <= i <= |expired|
        invariant Valid() && model.calling && model.expired == expired && model.called == i
        invariant model == Run(old(model), CallSteps(callbacks, expired[..i]))
      {
        hide Run, CallSteps;
        var ops := if expired[i].id in callbacks then callbacks[expired[i].id] else [];
        NextCall(old(model), callbacks, expired, i);
        RunCallback(ops);
        i := i + 1;
      }
      assert expired[..i] == expired;
    }
  }

  lemma CancelMoves(q: Queue, id: Id)
    requires Inv(q) && Enabled(q, Cancel(id))
    ensures Next(q, Cancel(id)) == q.(canceling := q.canceling + if q.calling then {id} else {})
  {
    assert q.canceling + {} == q.canceling;
  }

  lemma HandlerArmsExactly(q: Queue, now: int, steps: seq<Step>)
    requires Inv(q) && Enabled(q, Expire(now)) && InHandler(steps)
    requires Enabled(Run(Next(q, Expire(now)), steps), EndRound)
    ensures Armed(q) ==> q.timers != []
    ensures Armed(q) ==> (Armed(Next(Run(Next(q, Expire(now)), steps), EndRound)) <==> q.timers[0].when < now)
  {
    hide Next, Run, Inv;
    if Armed(q) {
      RoundArmsExactly(q, now, steps);
    }
  }

  lemma ResetStart(q: Queue)
    requires Inv(q) && Enabled(q, EndRound)
    ensures ResetOk(q.(calling := false), 0) && Inv(Next(q, EndRound))
    ensures Next(q, EndRound) == ResetFrom(q.(calling := false), 0, 0).(expired := [], called := 0)
  {
    hide ResetFrom;
    StepKeeps(q, EndRound);
  }

  lemma ExpireCalls(q: Queue, now: int)
    requires Enabled(q, Expire(now))
    ensures Next(q, Expire(now)).calling && Next(q, Expire(now)).called == 0 && Next(q, Expire(now)).now == now
  {
  }

  lemma NextCall(q: Queue, callbacks: map<Id, seq<Step>>, es: seq<Entry>, i: nat)
    requires i < |es|
    ensures Run(q, CallSteps(callbacks, es[..i + 1]))
         == Run(Run(q, CallSteps(callbacks, es[..i])), [CallNext] + OpsOf(callbacks, es[i].id))
  {
    assert es[..i + 1][..i] == es[..i] && es[..i + 1][i] == es[i];
    RunAppend(q, CallSteps(callbacks, es[..i]), [CallNext] + OpsOf(callbacks, es[i].id));
  }

  lemma OpFrame(q: Queue, op: Step)
    requires IsOp(op)
    ensures Next(q, op).calling == q.calling && Next(q, op).expired == q.expired && Next(q, op).called == q.called
  {
  }

  lemma IdsAppend(es: seq<Entry>, i: nat)
    requires i < |es|
    ensures Ids(es[..i + 1]) == Ids(es[..i]) + {es[i].id}
  {
    assert es[..i + 1] == es[..i] + [es[i]];
  }

  lemma {:induction false} CallStepsInHandler(callbacks: map<Id, seq<Step>>, es: seq<Entry>)
    requires forall id <- callbacks, op <- callbacks[id] :: IsOp(op)
    ensures InHandler(CallSteps(callbacks, es))
  {
    if es != [] {
      CallStepsInHandler(callbacks, es[..|es| - 1]);
      var id := es[|es| - 1].id;
      assert id in callbacks ==> forall op <- callbacks[id] :: IsOp(op);
      forall s | s in CallSteps(callbacks, es)
        ensures s.Add? || s.Cancel? || s.CallNext?
      {
        assert s in CallSteps(callbacks, es[..|es| - 1]) || s == CallNext || s in OpsOf(callbacks, id);
        assert s in OpsOf(callbacks, id) ==> IsOp(s);
      }
    }
  }

  lemma {:induction false} KeepsNow(q: Queue, steps: seq<Step>)
    requires InHandler(steps)
    ensures Run(q, steps).now == q.now
    decreases |steps|
  {
    if steps != [] {
      assert steps[0] in steps;
      KeepsNow(Next(q, steps[0]), steps[1..]);
    }
  }

  /** One of the callbacks of these timers cancels this one. */
  predicate CancelledBy(callbacks: map<Id, seq<Step>>, es: seq<Entry>, id: Id) {
    exists e :: e in es && e.id in callbacks && Cancel(id) in callbacks[e.id]
  }

  /**
   What a read of the timerfd comes to: the callbacks of the timers strictly before now have run, once
   each and in order, and a repeating one of them is filed one interval after now unless one of those
   callbacks cancels it.
   */
  ghost predicate CalledAndRefiled(q: Queue, q': Queue, now: int, callbacks: map<Id, seq<Step>>) {
    exists expired, later :: q.timers == expired + later && Fulfilled(q, q', now, callbacks, expired, later)
  }

  ghost predicate Fulfilled(q: Queue, q': Queue, now: int, callbacks: map<Id, seq<Step>>,
                            expired: seq<Entry>, later: seq<Entry>)
  {
    && (forall e <- expired :: e.when < now) && (forall e <- later :: e.when >= now)
    && q'.fired == q.fired + Firings(expired, now)
    && forall e <- expired :: Repeats(q, e.id) ==>
         (Entry(now + q.table[e.id].Delta(), e.id) in q'.timers <==> !CancelledBy(callbacks, expired, e.id))
  }

  lemma RoundOfCalls(q: Queue, now: int, callbacks: map<Id, seq<Step>>)
    requires Inv(q) && Enabled(q, Expire(now)) && forall id <- callbacks, op <- callbacks[id] :: IsOp(op)
    requires Enabled(Run(Next(q, Expire(now)), CallSteps(callbacks, Next(q, Expire(now)).expired)), EndRound)
    ensures var q1 := Next(q, Expire(now));
      CalledAndRefiled(q, Next(Run(q1, CallSteps(callbacks, q1.expired)), EndRound), now, callbacks)
  {
    hide Run, Inv, CallSteps, CancelledBy, CancelledIn, Firings;
    var q1 := Next(q, Expire(now));
    ExpireBegins(q, now);
    hide Next;
    var steps := CallSteps(callbacks, q1.expired);
    CallStepsInHandler(callbacks, q1.expired);
    RoundRuns(q, now, steps);
    forall e | e in q1.expired && Repeats(q, e.id)
      ensures CancelledIn(q1, steps, e.id) <==> CancelledBy(callbacks, q1.expired, e.id)
    {
      CancelsInCalls(q1, callbacks, q1.expired, e.id);
    }
    assert Fulfilled(q, Next(Run(q1, steps), EndRound), now, callbacks, q1.expired, q1.timers);
  }

  lemma {:induction false} CancelledAppend(q: Queue, a: seq<Step>, b: seq<Step>, id: Id)
    ensures CancelledIn(q, a + b, id) <==> CancelledIn(q, a, id) || CancelledIn(Run(q, a), b, id)
    decreases |a|
  {
    if a == [] {
      assert a + b == b;
    } else {
      assert (a + b)[1..] == a[1..] + b;
      CancelledAppend(Next(q, a[0]), a[1..], b, id);
    }
  }

  /** Within a callback every cancellation takes place. */
  lemma {:induction false} OpsCancel(q: Queue, ops: seq<Step>, id: Id)
    requires q.calling && q.called > 0 && forall op <- ops :: IsOp(op)
    ensures CancelledIn(q, ops, id) <==> Cancel(id) in ops
    decreases |ops|
  {
    if ops != [] {
      assert IsOp(ops[0]);
      OpFrame(q, ops[0]);
      OpsCancel(Next(q, ops[0]), ops[1..], id);
      assert ops == [ops[0]] + ops[1..];
    }
  }

  lemma {:induction false} OpsFrame(q: Queue, ops: seq<Step>)
    requires forall op <- ops :: IsOp(op)
    ensures var q' := Run(q, ops); q'.calling == q.calling && q'.expired == q.expired && q'.called == q.called
    decreases |ops|
  {
    if ops != [] {
      assert IsOp(ops[0]);
      OpFrame(q, ops[0]);
      OpsFrame(Next(q, ops[0]), ops[1..]);
    }
  }

  /** So in the callbacks of the first timers of a round exactly what they name is cancelled. */
  lemma {:induction false} CancelsInCalls(q: Queue, callbacks: map<Id, seq<Step>>, es: seq<Entry>, id: Id)
    requires q.calling && q.called == 0 && |es| <= |q.expired|
    requires forall k <- callbacks, op <- callbacks[k] :: IsOp(op)
    ensures CancelledIn(q, CallSteps(callbacks, es), id) <==> CancelledBy(callbacks, es, id)
    ensures var q' := Run(q, CallSteps(callbacks, es));
      q'.calling && q'.called == |es| && q'.expired == q.expired
    decreases |es|
  {
    hide Next, Run, CancelledIn;
    if es == [] {
      NoCalls(q, callbacks, id);
    } else {
      var front, last := es[..|es| - 1], es[|es| - 1];
      var ops := OpsOf(callbacks, last.id);
      assert forall op <- ops :: IsOp(op);
      CancelsInCalls(q, callbacks, front, id);
      var q1 := Run(q, CallSteps(callbacks, front));
      RunAppend(q, CallSteps(callbacks, front), [CallNext] + ops);
      CancelledAppend(q, CallSteps(callbacks, front), [CallNext] + ops, id);
      OneCall(q1, ops, id);
      assert es == front + [last];
    }
  }

  lemma NoCalls(q: Queue, callbacks: map<Id, seq<Step>>, id: Id)
    ensures CallSteps(callbacks, []) == [] && Run(q, []) == q && !CancelledIn(q, [], id)
  {
  }

  lemma OneCall(q: Queue, ops: seq<Step>, id: Id)
    requires q.calling && q.called < |q.expired| && forall op <- ops :: IsOp(op)
    ensures CancelledIn(q, [CallNext] + ops, id) <==> Cancel(id) in ops
    ensures var q' := Run(q, [CallNext] + ops);
      q'.calling && q'.called == q.called + 1 && q'.expired == q.expired
  {
    assert ([CallNext] + ops)[1..] == ops && ([CallNext] + ops)[0] == CallNext;
    var q1 := Next(q, CallNext);
    OpsCancel(q1, ops, id);
    OpsFrame(q1, ops);
  }
}
