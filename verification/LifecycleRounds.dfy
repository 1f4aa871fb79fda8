/**
 Progress of the lifecycle: what a whole round of a loop's functors does in every interleaving, that
 rounds can always be run, and so that every closed connection can get to its destruction and be freed.
 */
module LifecycleRounds {
  import opened LifecycleModel

  // ---------- every round runs what it found, and every round can be run ----------

  /** None of these steps starts or ends a round of this loop. */
  predicate WithinRound(l: LoopId, steps: seq<Step>) {
    forall s <- steps :: s != StartFunctors(l) && s != EndFunctors(l)
  }

  /** Inside a round each functor run is one less to run. */
  lemma {:induction false} BatchCounts(s: Server, l: LoopId, steps: seq<Step>)
    requires l < |s.loops| && s.loops[l].running && WithinRound(l, steps)
    ensures var e := Run(s, steps);
            l < |e.loops| && e.loops[l].running && e.loops[l].batch + Executed(s, l, steps) == s.loops[l].batch
    decreases |steps|
  {
    if steps != [] {
      assert steps[0] in steps && forall x <- steps[1..] :: x in steps;
      BatchStep(s, l, steps[0]);
      BatchCounts(Next(s, steps[0]), l, steps[1..]);
    }
  }

  lemma BatchStep(s: Server, l: LoopId, step: Step)
    requires l < |s.loops| && s.loops[l].running && step != StartFunctors(l) && step != EndFunctors(l)
    ensures var e := Next(s, step);
            && l < |e.loops| && e.loops[l].running
            && e.loops[l].batch + (if step == RunFunctor(l) && Enabled(s, step) then 1 else 0) == s.loops[l].batch
  {
  }

  /**
   doPendingFunctors, in every interleaving with the other loops: when a round ends that began with these
   functors pending, it has executed as many as there were.
   */
  lemma RoundExecutesAll(s: Server, l: LoopId, during: seq<Step>)
    requires l < |s.loops| && !s.loops[l].running && WithinRound(l, during)
    requires Enabled(Run(Next(s, StartFunctors(l)), during), EndFunctors(l))
    ensures Executed(Next(s, StartFunctors(l)), l, during) == |s.loops[l].queue|
    ensures Next(s, StartFunctors(l)).loops[l].queue == s.loops[l].queue
  {
    BatchCounts(Next(s, StartFunctors(l)), l, during);
  }

  /** And so each of them, whatever the interleaving, has had its effect. */
  lemma RoundRunsEach(s: Server, l: LoopId, i: nat, during: seq<Step>)
    requires Inv(s) && l < |s.loops| && !s.loops[l].running && WithinRound(l, during) && i < |s.loops[l].queue|
    requires Enabled(Run(Next(s, StartFunctors(l)), during), EndFunctors(l))
    ensures Reaches(Run(Next(s, StartFunctors(l)), during), s.loops[l].queue[i])
  {
    RoundExecutesAll(s, l, during);
    StepKeeps(s, StartFunctors(l));
    QueuedFunctorRuns(Next(s, StartFunctors(l)), l, i, during);
  }

  function Runs(l: LoopId, n: nat): seq<Step> {
    if n == 0 then [] else [RunFunctor(l)] + Runs(l, n - 1)
  }

  lemma RunsOnly(l: LoopId, n: nat)
    ensures forall s <- Runs(l, n) :: s == RunFunctor(l)
  {
  }

  /** A loop inside a round can always run the next functor, and end the round when none is left. */
  lemma {:induction false} BatchRuns(s: Server, l: LoopId)
    requires Inv(s) && l < |s.loops| && s.loops[l].running
    ensures Inv(Run(s, Runs(l, s.loops[l].batch))) && Enabled(Run(s, Runs(l, s.loops[l].batch)), EndFunctors(l))
    decreases s.loops[l].batch
  {
    if s.loops[l].batch > 0 {
      CanRun(s, l);
      StepKeeps(s, RunFunctor(l));
      BatchStep(s, l, RunFunctor(l));
      BatchRuns(Next(s, RunFunctor(l)), l);
      assert Runs(l, s.loops[l].batch)[1..] == Runs(l, s.loops[l].batch - 1);
    }
  }

  lemma CanRun(s: Server, l: LoopId)
    requires Inv(s) && l < |s.loops| && s.loops[l].running && s.loops[l].batch > 0
    ensures Enabled(s, RunFunctor(l))
  {
    assert LoopOk(s, l) && Placed(s, l, s.loops[l].queue[0]);
    assert ConnOk(s, s.loops[l].queue[0].c);
  }

  /** So a loop that is not inside a round can run one. */
  lemma RoundPossible(s: Server, l: LoopId)
    requires Inv(s) && l < |s.loops| && !s.loops[l].running
    ensures exists during :: WithinRound(l, during) && Enabled(Run(Next(s, StartFunctors(l)), during), EndFunctors(l))
  {
    var s1 := Next(s, StartFunctors(l));
    StepKeeps(s, StartFunctors(l));
    BatchRuns(s1, l);
    RunsOnly(l, s1.loops[l].batch);
    assert WithinRound(l, Runs(l, s1.loops[l].batch));
  }

  /** One whole round of its own loop destroys a closed connection that is out of the map, in every interleaving. */
  lemma RoundDestroys(nLoops: nat, s: Server, id: Id, during: seq<Step>)
    requires Reachable(nLoops, s) && id in s.conns && s.conns[id].io < |s.loops| && AwaitsDestruction(s, id)
    requires !s.loops[s.conns[id].io].running && WithinRound(s.conns[id].io, during)
    requires Enabled(Run(Next(s, StartFunctors(s.conns[id].io)), during), EndFunctors(s.conns[id].io))
    ensures var e := Run(Next(s, StartFunctors(s.conns[id].io)), during);
            id in e.conns && IsDestroyed(e, id)
  {
    var l := s.conns[id].io;
    ReachableInv(nLoops, s);
    var i :| 0 <= i < |s.loops[l].queue| && s.loops[l].queue[i] == Destroy(id);
    RoundRunsEach(s, l, i, during);
    StepKeeps(s, StartFunctors(l));
    RunKeeps(Next(s, StartFunctors(l)), during);
    DeadIsDestroyed(Run(Next(s, StartFunctors(l)), during), id);
  }

  lemma DeadIsDestroyed(s: Server, id: Id)
    requires Inv(s) && id in s.conns && s.conns[id].stage == Dead
    ensures IsDestroyed(s, id)
  {
    assert ConnOk(s, id);
    TakeOut(s, id);
    InFlightNone(s.loops, id);
  }

  /** One whole round of the base loop takes a closed connection out of the map, in every interleaving. */
  lemma RoundRemoves(nLoops: nat, s: Server, id: Id, during: seq<Step>)
    requires Reachable(nLoops, s) && id in s.conns && 0 < |s.loops| && AwaitsRemoval(s, id)
    requires !s.loops[0].running && WithinRound(0, during)
    requires Enabled(Run(Next(s, StartFunctors(0)), during), EndFunctors(0))
    ensures id !in Run(Next(s, StartFunctors(0)), during).owned
  {
    ReachableInv(nLoops, s);
    var i :| 0 <= i < |s.loops[0].queue| && s.loops[0].queue[i] == Remove(id);
    RoundRunsEach(s, 0, i, during);
    StepKeeps(s, StartFunctors(0));
    RunKeeps(Next(s, StartFunctors(0)), during);
    assert ConnOk(Run(Next(s, StartFunctors(0)), during), id);
  }

  lemma {:induction false} RunAppend(s: Server, a: seq<Step>, b: seq<Step>)
    ensures Run(s, a + b) == Run(Run(s, a), b)
    decreases |a|
  {
    if a == [] {
      assert a + b == b;
    } else {
      assert (a + b)[1..] == a[1..] + b;
      RunAppend(Next(s, a[0]), a[1..], b);
    }
  }

  /** A loop in any state can finish its round, if it is in one, and run a whole one. */
  lemma FunctorCanRun(s: Server, l: LoopId, t: Task)
    requires Inv(s) && l < |s.loops| && t in s.loops[l].queue
    ensures exists steps :: Inv(Run(s, steps)) && Reaches(Run(s, steps), t)
  {
    if s.loops[l].running {
      var finish := Runs(l, s.loops[l].batch) + [EndFunctors(l)];
      var s1 := Run(s, Runs(l, s.loops[l].batch));
      BatchRuns(s, l);
      RunAppend(s, Runs(l, s.loops[l].batch), [EndFunctors(l)]);
      assert [EndFunctors(l)][1..] == [] && Run(s, finish) == Next(s1, EndFunctors(l));
      StepKeeps(s1, EndFunctors(l));
      if Reaches(Run(s, finish), t) {
        return;
      }
      StillThere(s, l, t, finish);
      FunctorCanRunIdle(Run(s, finish), l, t);
      var steps :| Inv(Run(Run(s, finish), steps)) && Reaches(Run(Run(s, finish), steps), t);
      RunAppend(s, finish, steps);
    } else {
      FunctorCanRunIdle(s, l, t);
    }
  }

  lemma FunctorCanRunIdle(s: Server, l: LoopId, t: Task)
    requires Inv(s) && l < |s.loops| && t in s.loops[l].queue && !s.loops[l].running
    ensures exists steps :: Inv(Run(s, steps)) && Reaches(Run(s, steps), t)
  {
    RoundPossible(s, l);
    var during :| WithinRound(l, during) && Enabled(Run(Next(s, StartFunctors(l)), during), EndFunctors(l));
    var i :| 0 <= i < |s.loops[l].queue| && s.loops[l].queue[i] == t;
    RoundRunsEach(s, l, i, during);
    StepKeeps(s, StartFunctors(l));
    RunKeeps(Next(s, StartFunctors(l)), during);
    var steps := [StartFunctors(l)] + during;
    assert steps[1..] == during && Run(s, steps) == Run(Next(s, StartFunctors(l)), during);
  }

  /** What a run has not executed is still queued. */
  lemma {:induction false} StillThere(s: Server, l: LoopId, t: Task, steps: seq<Step>)
    requires Inv(s) && l < |s.loops| && t in s.loops[l].queue && !Reaches(Run(s, steps), t)
    ensures l < |Run(s, steps).loops| && t in Run(s, steps).loops[l].queue
    decreases |steps|
  {
    if steps != [] {
      StepKeeps(s, steps[0]);
      var i :| 0 <= i < |s.loops[l].queue| && s.loops[l].queue[i] == t;
      if steps[0] == RunFunctor(l) && Enabled(s, steps[0]) && i == 0 {
        HeadReaches(s, l);
        NeverGoesBack(Next(s, steps[0]), steps[1..], t.c);
        assert false;
      } else {
        KeepsItsPlace(s, steps[0], l, i);
        StillThere(Next(s, steps[0]), l, t, steps[1..]);
      }
    }
  }

  /** From every reachable state, a closed connection can be brought to its destruction. */
  lemma ClosedCanBeDestroyed(nLoops: nat, s: Server, id: Id)
    requires Reachable(nLoops, s) && id in s.conns && s.conns[id].state == Disconnected
    ensures exists steps :: id in Run(s, steps).conns && IsDestroyed(Run(s, steps), id)
  {
    ReachableInv(nLoops, s);
    assert ConnOk(s, id);
    match s.conns[id].stage
    case Dead =>
      assert Run(s, []) == s;
      DeadIsDestroyed(s, id);
    case Destroying => DestructionPossible(s, id);
    case Removing =>
      FunctorCanRun(s, 0, Remove(id));
      var steps :| Inv(Run(s, steps)) && Reaches(Run(s, steps), Remove(id));
      DestructionPossible(Run(s, steps), id);
      var more :| id in Run(Run(s, steps), more).conns && IsDestroyed(Run(Run(s, steps), more), id);
      RunAppend(s, steps, more);
    case _ => assert false;
  }

  lemma DestructionPossible(s: Server, id: Id)
    requires Inv(s) && id in s.conns && Rank(s.conns[id].stage) >= 3
    ensures exists steps :: id in Run(s, steps).conns && IsDestroyed(Run(s, steps), id)
  {
    assert ConnOk(s, id);
    if s.conns[id].stage == Dead {
      assert Run(s, []) == s;
      DeadIsDestroyed(s, id);
    } else {
      FunctorCanRun(s, s.conns[id].io, Destroy(id));
      var steps :| Inv(Run(s, steps)) && Reaches(Run(s, steps), Destroy(id));
      DeadIsDestroyed(Run(s, steps), id);
    }
  }

  // ---------- what the single steps do ----------

  /** A new connection is given the next number, goes to the loop asked for, and will be established there. */
  lemma AcceptAdds(s: Server, io: LoopId)
    requires Inv(s) && io < |s.loops| && !s.loops[0].running
    ensures var s' := Next(s, Accept(io)); var id := s.nextId;
            && id !in s.conns && s'.conns == s.conns[id := s'.conns[id]] && s'.nextId == id + 1
            && s'.owned == s.owned + {id} && s'.conns[id].io == io && s'.conns[id].socketOpen
            && (if io == 0 then s'.conns[id].state == Connected && s'.conns[id].interest && s'.loops == s.loops
                else s'.conns[id].state == Connecting && s'.loops == Push(s.loops, io, Establish(id)))
  {
    AcceptKeeps(s, io);
    assert s.nextId !in s.conns by { assert forall k <- s.conns :: ConnOk(s, k); }
  }

  /** A connected one can be closed by its loop outside the functors: nothing is watched, and its removal begins. */
  lemma CloseBegins(s: Server, id: Id)
    requires Inv(s) && id in s.conns && s.conns[id].state == Connected
    requires s.conns[id].io < |s.loops| && !s.loops[s.conns[id].io].running
    ensures var s' := Next(s, Close(id));
            && id in s'.conns && s'.conns[id].state == Disconnected && !s'.conns[id].interest
            && (if s.conns[id].io == 0 then id !in s'.owned && s'.loops == Push(s.loops, 0, Destroy(id))
                else id in s'.owned && s'.loops == Push(s.loops, 0, Remove(id)))
  {
    assert ConnOk(s, id);
  }

  /**
   Only its own loop destroys a connection, and only inside a round of functors; the connection was
   established, is disconnected and watches nothing by then, and is held on to until the round ends.
   */
  lemma DestroyedByItsLoop(s: Server, step: Step, id: Id)
    requires Inv(s) && id in s.conns && Next(s, step).conns[id].destroyed != s.conns[id].destroyed
    ensures step == RunFunctor(s.conns[id].io) && s.conns[id].io < |s.loops| && s.loops[s.conns[id].io].running
    ensures s.conns[id].established == 1 && s.conns[id].destroyed == 0
    ensures s.conns[id].state == Disconnected && !s.conns[id].interest
    ensures Next(s, step).conns[id].destroyed == 1 && Referenced(Next(s, step), id)
  {
    StepNeverGoesBack(s, step, id);
    assert ConnOk(s, id);
    if step.RunFunctor? && Enabled(s, step) {
      var t := s.loops[step.l].queue[0];
      assert LoopOk(s, step.l) && Placed(s, step.l, t);
      var n := Next(s, step);
      assert t in n.loops[step.l].queue + n.loops[step.l].done;
    }
  }

  /** Events are handled outside the rounds, and functors run inside them; out of turn a step does nothing. */
  lemma PhasesRespected(s: Server, l: LoopId, id: Id)
    requires l < |s.loops|
    ensures s.loops[l].running ==> Next(s, StartFunctors(l)) == s
    ensures !s.loops[l].running ==> Next(s, RunFunctor(l)) == s && Next(s, EndFunctors(l)) == s
    ensures s.loops[l].batch > 0 ==> Next(s, EndFunctors(l)) == s
    ensures id in s.conns && s.conns[id].io == l && (s.loops[l].running || !s.conns[id].inPoller) ==>
              Next(s, Close(id)) == s
    ensures s.loops[0].running ==> forall io :: Next(s, Accept(io)) == s
  {
  }

  /** connectDestroyed of one that is still connected would end it first. */
  lemma DestructionEnds(c: Conn)
    ensures var d := Destruction(c);
            && d.state == (if c.state == Connected then Disconnected else c.state)
            && d.interest == (c.state != Connected && c.interest) && !d.inPoller && d.destroyed == c.destroyed + 1
  {
  }

  /** A channel taken out of the poller while it still watches something is counted. */
  lemma ViolationCounted(s: Server, l: LoopId)
    requires Enabled(s, RunFunctor(l)) && s.loops[l].queue[0].Destroy?
    ensures var c := s.conns[s.loops[l].queue[0].c];
            Next(s, RunFunctor(l)).violations ==
            s.violations + if c.interest && c.state != Connected then 1 else 0
  {
  }

  /** A round takes up all that is pending, and lets go of what it ran when it ends. */
  lemma RoundBrackets(s: Server, l: LoopId)
    requires l < |s.loops|
    ensures var begun := s.loops[l].(running := true, batch := |s.loops[l].queue|);
            !s.loops[l].running ==> Next(s, StartFunctors(l)) == s.(loops := s.loops[l := begun])
    ensures var ended := s.loops[l].(running := false, done := []);
            s.loops[l].running && s.loops[l].batch == 0 ==> Next(s, EndFunctors(l)) == s.(loops := s.loops[l := ended])
  {
  }

  /** Outside its rounds a loop holds on to nothing that it ran. */
  predicate LetGo(s: Server) {
    forall l :: 0 <= l < |s.loops| && !s.loops[l].running ==> s.loops[l].done == []
  }

  lemma {:induction false} RunLetsGo(s: Server, steps: seq<Step>)
    requires LetGo(s)
    ensures LetGo(Run(s, steps))
    decreases |steps|
  {
    if steps != [] {
      StepLetsGo(s, steps[0]);
      RunLetsGo(Next(s, steps[0]), steps[1..]);
    }
  }

  lemma StepLetsGo(s: Server, step: Step)
    requires LetGo(s)
    ensures LetGo(Next(s, step))
  {
  }

  /** So a destroyed connection is freed, socket and all, as soon as no loop is inside a round. */
  lemma DestroyedIsFreed(nLoops: nat, s: Server, id: Id)
    requires Reachable(nLoops, s) && id in s.conns && IsDestroyed(s, id)
    requires forall l :: 0 <= l < |s.loops| ==> !s.loops[l].running
    ensures !Referenced(s, id) && id in Next(s, FreeConnection(id)).conns
    ensures !Next(s, FreeConnection(id)).conns[id].socketOpen
  {
    var steps :| s == Run(Init(nLoops), steps);
    RunLetsGo(Init(nLoops), steps);
    ReachableInv(nLoops, s);
    assert ConnOk(s, id);
    TakeOut(s, id);
    forall l, t | 0 <= l < |s.loops| && t in s.loops[l].queue + s.loops[l].done
      ensures t.c != id
    {
      assert s.loops[l].done == [] && t in s.loops[l].queue;
    }
  }
}
