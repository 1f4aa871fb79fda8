/**
 The life of the server's connections across loops: the base loop accepts them and owns the map, the
 io loop each was given to establishes, closes and destroys them, and the two sides talk through
 queued functors. A step is one functor or one event handler on one loop.
 */
module LifecycleModel {

  type Id = nat
  type LoopId = nat

  /** The functors queued: connectEstablished, removeConnectionInLoop, connectDestroyed. */
  datatype Task = Establish(c: Id) | Remove(c: Id) | Destroy(c: Id)

  /** A loop's functors, oldest first: those swapped into the running batch, then the pending ones. */
  datatype LoopState = LoopState(
    queue: seq<Task>,
    batch: nat,           // how many of them were swapped out for running
    running: bool,        // in doPendingFunctors, else dispatching events
    done: seq<Task>)      // functors already run but not yet freed with their vector

  datatype ConnState = Connecting | Connected | Disconnected

  datatype Stage = Establishing | Live | Removing | Destroying | Dead

  datatype Conn = Conn(
    io: LoopId, state: ConnState,
    interest: bool,       // the channel watches some event
    inPoller: bool,       // the channel is in the poller's table
    socketOpen: bool,
    established: nat, destroyed: nat,  // calls so far
    stage: Stage)         // history: what has happened to it

  datatype Server = Server(
    conns: map<Id, Conn>,
    owned: set<Id>,       // the server's connection map
    loops: seq<LoopState>, // loop 0 is the base loop
    nextId: Id,
    violations: nat)      // channels removed while they still watch something

  datatype Step =
    | Accept(io: LoopId) | Close(c: Id) | StartFunctors(l: LoopId) | RunFunctor(l: LoopId)
    | EndFunctors(l: LoopId) | FreeConnection(c: Id)

  const IDLE := LoopState([], 0, false, [])

  function Init(nLoops: nat): Server {
    Server(map[], {}, seq(nLoops + 1, _ => IDLE), 1, 0)
  }

  function Push(loops: seq<LoopState>, l: LoopId, t: Task): seq<LoopState>
    requires l < |loops|
  {
    loops[l := loops[l].(queue := loops[l].queue + [t])]
  }

  /** connectEstablished. */
  function Establishment(c: Conn): Conn {
    c.(state := Connected, interest := true, inPoller := true, established := c.established + 1, stage := Live)
  }

  /** connectDestroyed: a connected one is disconnected first; then the channel leaves the poller. */
  function Destruction(c: Conn): Conn {
    c.(state := if c.state == Connected then Disconnected else c.state,
       interest := if c.state == Connected then false else c.interest,
       inPoller := false, destroyed := c.destroyed + 1, stage := Dead)
  }

  /** Somebody still holds a shared_ptr to the connection. */
  predicate Referenced(s: Server, c: Id) {
    c in s.owned || exists l, t :: 0 <= l < |s.loops| && t in s.loops[l].queue + s.loops[l].done && t.c == c
  }

  predicate Enabled(s: Server, step: Step) {
    match step
    case Accept(io) => io < |s.loops| && !s.loops[0].running
    // an event handler: only a channel that watches something gets events
    case Close(c) => c in s.conns && s.conns[c].io < |s.loops| && !s.loops[s.conns[c].io].running
      && s.conns[c].inPoller && s.conns[c].interest
    case StartFunctors(l) => l < |s.loops| && !s.loops[l].running
    case RunFunctor(l) => l < |s.loops| && s.loops[l].running && 0 < s.loops[l].batch <= |s.loops[l].queue|
      && s.loops[l].queue[0].c in s.conns && s.conns[s.loops[l].queue[0].c].io < |s.loops|
    case EndFunctors(l) => l < |s.loops| && s.loops[l].running && s.loops[l].batch == 0
    case FreeConnection(c) => c in s.conns && s.conns[c].socketOpen && !Referenced(s, c)
  }

  /** handleClose, up to its close callback. */
  function Closure(c: Conn): Conn {
    c.(state := Disconnected, interest := false, stage := Removing)
  }

  function Closed(s: Server, c: Id): Server
    requires c in s.conns
  {
    s.(conns := s.conns[c := Closure(s.conns[c])])
  }

  /** removeConenction, the close callback: runInLoop on the base loop, at once when that is the io loop. */
  function RequestRemoval(s: Server, c: Id): Server
    requires c in s.conns && s.conns[c].io < |s.loops|
  {
    if s.conns[c].io == 0 then RemoveInLoop(s, c) else s.(loops := Push(s.loops, 0, Remove(c)))
  }

  /** removeConnectionInLoop: out of the map, and on to the io loop. */
  function RemoveInLoop(s: Server, c: Id): Server
    requires c in s.conns && s.conns[c].io < |s.loops|
  {
    s.(owned := s.owned - {c}, loops := Push(s.loops, s.conns[c].io, Destroy(c)),
       conns := s.conns[c := s.conns[c].(stage := Destroying)])
  }

  /** A step that is not enabled leaves everything as it is. */
  function Next(s: Server, step: Step): Server {
    if !Enabled(s, step) then s else
    match step
    case Accept(io) =>
      var created := Conn(io, Connecting, false, false, true, 0, 0, Establishing);
      var s1 := s.(owned := s.owned + {s.nextId}, nextId := s.nextId + 1);
      // runInLoop: at once when the base loop is the io loop
      if io == 0 then s1.(conns := s.conns[s.nextId := Establishment(created)])
      else s1.(conns := s.conns[s.nextId := created], loops := Push(s.loops, io, Establish(s.nextId)))
    case Close(c) => RequestRemoval(Closed(s, c), c)
    case StartFunctors(l) => s.(loops := s.loops[l := s.loops[l].(batch := |s.loops[l].queue|, running := true)])
    case EndFunctors(l) => s.(loops := s.loops[l := s.loops[l].(running := false, done := [])])
    case RunFunctor(l) => RunTask(s, l)
    case FreeConnection(c) => s.(conns := s.conns[c := s.conns[c].(socketOpen := false)])
  }

  /** The functor at the head of the batch is taken; its copy of the shared_ptr lives on until the round ends. */
  function Popped(s: Server, l: LoopId): Server
    requires Enabled(s, RunFunctor(l))
  {
    var q := s.loops[l];
    s.(loops := s.loops[l := q.(queue := q.queue[1..], batch := q.batch - 1, done := q.done + [q.queue[0]])])
  }

  /** The functor at the head of the batch runs. */
  function RunTask(s: Server, l: LoopId): Server
    requires Enabled(s, RunFunctor(l))
  {
    var t := s.loops[l].queue[0];
    var s1 := Popped(s, l);
    match t
    case Establish(c) => s1.(conns := s.conns[c := Establishment(s.conns[c])])
    case Remove(c) => RemoveInLoop(s1, c)
    case Destroy(c) =>
      var d := Destruction(s.conns[c]);
      s1.(conns := s.conns[c := d], violations := s.violations + if d.interest then 1 else 0)
  }

  function Run(s: Server, steps: seq<Step>): Server
    decreases |steps|
  {
    if steps == [] then s else Run(Next(s, steps[0]), steps[1..])
  }

  // ---------- the invariant ----------

  /** Where a functor belongs, and the one stage of its connection at which it may be queued. */
  predicate Placed(s: Server, l: LoopId, t: Task) {
    t.c in s.conns &&
    var c := s.conns[t.c];
    match t
    case Establish(_) => l == c.io && c.stage == Establishing
    case Remove(_) => l == 0 && c.stage == Removing
    case Destroy(_) => l == c.io && c.stage == Destroying
  }

  predicate Distinct(q: seq<Task>) {
    forall i, j :: 0 <= i < j < |q| ==> q[i] != q[j]
  }

  predicate LoopOk(s: Server, l: LoopId) {
    l < |s.loops|
    && s.loops[l].batch <= |s.loops[l].queue|
    && Distinct(s.loops[l].queue)
    && forall t <- s.loops[l].queue :: Placed(s, l, t)
  }

  /** The fields of a connection at each stage, and the one functor that will take it further. */
  predicate ConnOk(s: Server, id: Id) {
    id in s.conns && id < s.nextId &&
    var c := s.conns[id];
    && c.io < |s.loops|
    && match c.stage
       case Establishing => c == Conn(c.io, Connecting, false, false, true, 0, 0, Establishing)
         && id in s.owned && Establish(id) in s.loops[c.io].queue
       case Live => c == Conn(c.io, Connected, true, true, true, 1, 0, Live) && id in s.owned
       case Removing => c == Conn(c.io, Disconnected, false, true, true, 1, 0, Removing)
         && id in s.owned && Remove(id) in s.loops[0].queue
       case Destroying => c == Conn(c.io, Disconnected, false, true, true, 1, 0, Destroying)
         && id !in s.owned && Destroy(id) in s.loops[c.io].queue
       case Dead => c == Conn(c.io, Disconnected, false, false, c.socketOpen, 1, 1, Dead) && id !in s.owned
  }

  predicate Frame(s: Server) {
    0 < |s.loops| && s.violations == 0
  }

  predicate Inv(s: Server) {
    && Frame(s)
    && (forall id <- s.conns :: ConnOk(s, id))
    && (forall id <- s.owned :: id in s.conns)
    && (forall l :: 0 <= l < |s.loops| ==> LoopOk(s, l))
  }

  /** The loops queue nothing about a connection. */
  predicate Untouched(s: Server, id: Id) {
    forall l, t :: 0 <= l < |s.loops| && t in s.loops[l].queue ==> t.c != id
  }

  /** The invariant for all the other connections, while this one is between two stages. */
  predicate InvBut(s: Server, id: Id) {
    && Frame(s)
    && (forall k <- s.conns :: k != id ==> ConnOk(s, k))
    && (forall k <- s.owned :: k != id ==> k in s.conns)
    && (forall l :: 0 <= l < |s.loops| ==> LoopOk(s, l))
    && Untouched(s, id)
  }

  /** A new connection, a live one or a dead one has no functor queued. */
  lemma TakeOut(s: Server, id: Id)
    requires Inv(s)
    requires id !in s.conns || s.conns[id].stage == Live || s.conns[id].stage == Dead
    ensures InvBut(s, id)
  {
    forall l, t | 0 <= l < |s.loops| && t in s.loops[l].queue
      ensures t.c != id
    {
      assert LoopOk(s, l);
      assert Placed(s, l, t);
    }
  }

  /** When the first functor of a loop is taken, no other is about its connection. */
  lemma TakeOutHead(s: Server, l: LoopId)
    requires Inv(s) && Enabled(s, RunFunctor(l))
    ensures Placed(s, l, s.loops[l].queue[0])
    ensures InvBut(Popped(s, l), s.loops[l].queue[0].c)
  {
    var head := s.loops[l].queue[0];
    var s' := Popped(s, l);
    assert LoopOk(s, l) && Placed(s, l, head);
    forall m, t | 0 <= m < |s'.loops| && t in s'.loops[m].queue
      ensures t.c != head.c
    {
      assert t in s.loops[m].queue && LoopOk(s, m) && Placed(s, m, t);
      HeadNotInTail(s.loops[l].queue);
    }
    forall k | k in s'.conns && k != head.c
      ensures ConnOk(s', k)
    {
      StaysQueued(s, l, k);
    }
    forall m | 0 <= m < |s'.loops|
      ensures LoopOk(s', m)
    {
      assert LoopOk(s, m);
      if m == l {
        DistinctTail(s.loops[l].queue);
      }
      forall t | t in s'.loops[m].queue
        ensures Placed(s', m, t)
      {
        assert t in s.loops[m].queue && Placed(s, m, t);
      }
    }
  }

  lemma StaysQueued(s: Server, l: LoopId, k: Id)
    requires Inv(s) && Enabled(s, RunFunctor(l)) && k in s.conns && k != s.loops[l].queue[0].c
    ensures ConnOk(Popped(s, l), k)
  {
    assert ConnOk(s, k);
    var q := s.loops[l].queue;
    assert q == [q[0]] + q[1..];
  }

  lemma DistinctTail(q: seq<Task>)
    requires Distinct(q) && q != []
    ensures Distinct(q[1..])
  {
    forall i, j | 0 <= i < j < |q[1..]|
      ensures q[1..][i] != q[1..][j]
    {
      assert q[i + 1] != q[j + 1];
    }
  }

  lemma HeadNotInTail(q: seq<Task>)
    requires Distinct(q) && q != []
    ensures q[0] !in q[1..]
  {
    forall i | 0 <= i < |q[1..]|
      ensures q[1..][i] != q[0]
    {
      assert q[0] != q[i + 1];
    }
  }

  /** The connection enters its next stage and nothing need be queued for it. */
  lemma PutBack(s: Server, id: Id, s': Server)
    requires InvBut(s, id) && Frame(s') && s'.loops == s.loops && s.nextId <= s'.nextId
    requires id in s'.conns && s'.conns == s.conns[id := s'.conns[id]] && s'.owned - {id} == s.owned - {id}
    requires ConnOk(s', id)
    ensures Inv(s')
  {
    forall k | k in s'.conns
      ensures ConnOk(s', k)
    {
      if k != id {
        assert k in s.conns && ConnOk(s, k);
        assert k in s.owned <==> k in s'.owned by { assert k in s.owned - {id} <==> k in s'.owned - {id}; }
      }
    }
    OwnedKnown(s, id, s');
    forall l | 0 <= l < |s'.loops|
      ensures LoopOk(s', l)
    {
      assert LoopOk(s, l);
      forall t | t in s'.loops[l].queue
        ensures Placed(s', l, t)
      {
        assert Placed(s, l, t);
      }
    }
  }

  lemma OwnedKnown(s: Server, id: Id, s': Server)
    requires forall k <- s.owned :: k != id ==> k in s.conns
    requires id in s'.conns && s'.conns == s.conns[id := s'.conns[id]] && s'.owned - {id} == s.owned - {id}
    ensures forall k <- s'.owned :: k in s'.conns
  {
    forall k | k in s'.owned
      ensures k in s'.conns
    {
      if k != id {
        assert k in s'.owned - {id};
      }
    }
  }

  /** The connection enters its next stage with the functor queued that will end it. */
  lemma PutBackWith(s: Server, id: Id, s': Server, l: LoopId, t: Task)
    requires InvBut(s, id) && Frame(s') && l < |s.loops| && s'.loops == Push(s.loops, l, t) && s.nextId <= s'.nextId
    requires id in s'.conns && s'.conns == s.conns[id := s'.conns[id]] && s'.owned - {id} == s.owned - {id}
    requires t.c == id && Placed(s', l, t) && ConnOk(s', id)
    ensures Inv(s')
  {
    forall k | k in s'.conns
      ensures ConnOk(s', k)
    {
      if k != id {
        assert k in s.conns && ConnOk(s, k);
        assert k in s.owned <==> k in s'.owned by { assert k in s.owned - {id} <==> k in s'.owned - {id}; }
      }
    }
    OwnedKnown(s, id, s');
    forall m | 0 <= m < |s'.loops|
      ensures LoopOk(s', m)
    {
      assert LoopOk(s, m);
      forall u | u in s'.loops[m].queue
        ensures Placed(s', m, u)
      {
        if u != t {
          assert u in s.loops[m].queue && Placed(s, m, u);
        } else if m != l {
          assert false;
        }
      }
    }
  }

  // ---------- every step keeps the invariant ----------

  lemma AcceptKeeps(s: Server, io: LoopId)
    requires Inv(s)
    ensures Inv(Next(s, Accept(io)))
  {
    if Enabled(s, Accept(io)) {
      var s' := Next(s, Accept(io));
      assert s.nextId !in s.conns by { assert forall k <- s.conns :: ConnOk(s, k); }
      TakeOut(s, s.nextId);
      if io == 0 {
        PutBack(s, s.nextId, s');
      } else {
        PutBackWith(s, s.nextId, s', io, Establish(s.nextId));
      }
    }
  }

  lemma RemoveInLoopKeeps(s: Server, c: Id)
    requires InvBut(s, c) && c in s.conns && c < s.nextId && s.conns[c].io < |s.loops|
    requires s.conns[c] == Conn(s.conns[c].io, Disconnected, false, true, true, 1, 0, Removing)
    ensures Inv(RemoveInLoop(s, c))
  {
    PutBackWith(s, c, RemoveInLoop(s, c), s.conns[c].io, Destroy(c));
  }

  lemma CloseKeeps(s: Server, c: Id)
    requires Inv(s)
    ensures Inv(Next(s, Close(c)))
  {
    if Enabled(s, Close(c)) {
      assert ConnOk(s, c);
      assert s.conns[c].stage == Live;
      TakeOut(s, c);
      var s1 := Closed(s, c);
      if s.conns[c].io == 0 {
        StillOut(s, c, s1);
        RemoveInLoopKeeps(s1, c);
      } else {
        PutBackWith(s, c, Next(s, Close(c)), 0, Remove(c));
      }
    }
  }

  /** Changing the connection that is left out changes nothing for the others. */
  lemma StillOut(s: Server, id: Id, s': Server)
    requires InvBut(s, id) && s' == s.(conns := s'.conns)
    requires id in s'.conns && s'.conns == s.conns[id := s'.conns[id]]
    ensures InvBut(s', id)
  {
    forall k | k in s'.conns && k != id
      ensures ConnOk(s', k)
    {
      assert ConnOk(s, k);
    }
    forall l | 0 <= l < |s'.loops|
      ensures LoopOk(s', l)
    {
      assert LoopOk(s, l);
      forall t | t in s'.loops[l].queue
        ensures Placed(s', l, t)
      {
        assert Placed(s, l, t);
      }
    }
  }

  lemma RunFunctorKeeps(s: Server, l: LoopId)
    requires Inv(s)
    ensures Inv(Next(s, RunFunctor(l)))
  {
    if Enabled(s, RunFunctor(l)) {
      var t := s.loops[l].queue[0];
      TakeOutHead(s, l);
      assert ConnOk(s, t.c);
      if t.Remove? {
        RemoveInLoopKeeps(Popped(s, l), t.c);
      } else {
        PutBack(Popped(s, l), t.c, Next(s, RunFunctor(l)));
      }
    }
  }

  /** Starting and ending a round, and freeing a connection nobody refers to. */
  lemma OtherStepsKeep(s: Server, step: Step)
    requires Inv(s) && (step.StartFunctors? || step.EndFunctors?)
    ensures Inv(Next(s, step))
  {
    var s' := Next(s, step);
    forall k | k in s'.conns
      ensures ConnOk(s', k)
    {
      assert ConnOk(s, k);
    }
    forall l | 0 <= l < |s'.loops|
      ensures LoopOk(s', l)
    {
      assert LoopOk(s, l);
      forall t | t in s'.loops[l].queue
        ensures Placed(s', l, t)
      {
        assert Placed(s, l, t);
      }
    }
  }

  lemma QueuedIsReferenced(s: Server, l: LoopId, t: Task)
    requires l < |s.loops|
    ensures t in s.loops[l].queue ==> Referenced(s, t.c)
  {
    assert t in s.loops[l].queue ==> t in s.loops[l].queue + s.loops[l].done;
  }

  /** When the last shared_ptr goes, the connection was destroyed and its channel has left the poller. */
  lemma UnreferencedIsDead(s: Server, c: Id)
    requires Inv(s) && c in s.conns && !Referenced(s, c)
    ensures s.conns[c].stage == Dead && s.conns[c].destroyed == 1 && !s.conns[c].inPoller
  {
    assert ConnOk(s, c);
    var conn := s.conns[c];
    QueuedIsReferenced(s, conn.io, Destroy(c));
  }

  lemma FreeKeeps(s: Server, c: Id)
    requires Inv(s)
    ensures Inv(Next(s, FreeConnection(c)))
  {
    if Enabled(s, FreeConnection(c)) {
      UnreferencedIsDead(s, c);
      assert ConnOk(s, c);
      TakeOut(s, c);
      PutBack(s, c, Next(s, FreeConnection(c)));
    }
  }

  lemma StepKeeps(s: Server, step: Step)
    requires Inv(s)
    ensures Inv(Next(s, step))
  {
    match step
    case Accept(io) => AcceptKeeps(s, io);
    case Close(c) => CloseKeeps(s, c);
    case RunFunctor(l) => RunFunctorKeeps(s, l);
    case FreeConnection(c) => FreeKeeps(s, c);
    case _ => OtherStepsKeep(s, step);
  }

  lemma {:induction false} RunKeeps(s: Server, steps: seq<Step>)
    requires Inv(s)
    ensures Inv(Run(s, steps))
    decreases |steps|
  {
    if steps != [] {
      StepKeeps(s, steps[0]);
      RunKeeps(Next(s, steps[0]), steps[1..]);
    }
  }

  lemma InitInv(nLoops: nat)
    ensures Inv(Init(nLoops))
  {
  }

  ghost predicate Reachable(nLoops: nat, s: Server) {
    exists steps :: s == Run(Init(nLoops), steps)
  }

  lemma ReachableInv(nLoops: nat, s: Server)
    requires Reachable(nLoops, s)
    ensures Inv(s)
  {
    var steps :| s == Run(Init(nLoops), steps);
    InitInv(nLoops);
    RunKeeps(Init(nLoops), steps);
  }

  // ---------- what it means for a connection ----------

  /** How many functors about a connection a queue holds. */
  function About(q: seq<Task>, id: Id): nat {
    if q == [] then 0 else (if q[0].c == id then 1 else 0) + About(q[1..], id)
  }

  /** ... and all the loops together. */
  function InFlight(loops: seq<LoopState>, id: Id): nat {
    if loops == [] then 0 else About(loops[0].queue, id) + InFlight(loops[1..], id)
  }

  lemma {:induction false} AboutNone(q: seq<Task>, id: Id)
    requires forall t <- q :: t.c != id
    ensures About(q, id) == 0
  {
    if q != [] {
      AboutNone(q[1..], id);
    }
  }

  lemma {:induction false} AboutOne(q: seq<Task>, t: Task)
    requires Distinct(q) && t in q && (forall u <- q :: u.c == t.c ==> u == t)
    ensures About(q, t.c) == 1
  {
    DistinctTail(q);
    HeadNotInTail(q);
    if q[0] == t {
      AboutNone(q[1..], t.c);
    } else {
      AboutOne(q[1..], t);
    }
  }

  lemma {:induction false} InFlightNone(loops: seq<LoopState>, id: Id)
    requires forall l, t :: 0 <= l < |loops| && t in loops[l].queue ==> t.c != id
    ensures InFlight(loops, id) == 0
  {
    if loops != [] {
      AboutNone(loops[0].queue, id);
      forall l, t | 0 <= l < |loops[1..]| && t in loops[1..][l].queue
        ensures t.c != id
      {
        assert t in loops[l + 1].queue;
      }
      InFlightNone(loops[1..], id);
    }
  }

  lemma {:induction false} InFlightOne(loops: seq<LoopState>, l: LoopId, t: Task)
    requires l < |loops| && Distinct(loops[l].queue) && t in loops[l].queue
    requires forall m, u :: 0 <= m < |loops| && u in loops[m].queue && u.c == t.c ==> m == l && u == t
    ensures InFlight(loops, t.c) == 1
  {
    if l == 0 {
      AboutOne(loops[0].queue, t);
      forall m, u | 0 <= m < |loops[1..]| && u in loops[1..][m].queue
        ensures u.c != t.c
      {
        assert u in loops[m + 1].queue;
      }
      InFlightNone(loops[1..], t.c);
    } else {
      AboutNone(loops[0].queue, t.c);
      forall m, u | 0 <= m < |loops[1..]| && u in loops[1..][m].queue && u.c == t.c
        ensures m == l - 1 && u == t
      {
        assert u in loops[m + 1].queue;
      }
      InFlightOne(loops[1..], l - 1, t);
    }
  }

  /** The three situations of a closed connection. */
  predicate AwaitsRemoval(s: Server, id: Id)
    requires id in s.conns && 0 < |s.loops|
  {
    id in s.owned && s.conns[id].destroyed == 0 && InFlight(s.loops, id) == 1 && Remove(id) in s.loops[0].queue
  }

  predicate AwaitsDestruction(s: Server, id: Id)
    requires id in s.conns && s.conns[id].io < |s.loops|
  {
    id !in s.owned && s.conns[id].destroyed == 0 && InFlight(s.loops, id) == 1
    && Destroy(id) in s.loops[s.conns[id].io].queue
  }

  predicate IsDestroyed(s: Server, id: Id)
    requires id in s.conns
  {
    id !in s.owned && s.conns[id].destroyed == 1 && InFlight(s.loops, id) == 0 && !s.conns[id].inPoller
  }

  lemma OneInFlight(s: Server, id: Id, l: LoopId, t: Task)
    requires Inv(s) && l < |s.loops| && t in s.loops[l].queue && t.c == id
    ensures InFlight(s.loops, id) == 1
  {
    assert LoopOk(s, l) && Placed(s, l, t);
    forall m, u | 0 <= m < |s.loops| && u in s.loops[m].queue && u.c == id
      ensures m == l && u == t
    {
      assert LoopOk(s, m) && Placed(s, m, u);
    }
    InFlightOne(s.loops, l, t);
  }

  /**
   Whatever the loops do, a closed connection is in exactly one of three places: still in the server's
   map with one removal queued on the base loop, out of it with one connectDestroyed queued on its own
   loop, or destroyed, once, with its channel out of the poller and nothing queued.
   */
  lemma ClosedInOnePlace(nLoops: nat, s: Server, id: Id)
    requires Reachable(nLoops, s) && id in s.conns && s.conns[id].state == Disconnected
    ensures s.conns[id].io < |s.loops| && 0 < |s.loops|
    ensures AwaitsRemoval(s, id) || AwaitsDestruction(s, id) || IsDestroyed(s, id)
    ensures !(AwaitsRemoval(s, id) && AwaitsDestruction(s, id))
    ensures !((AwaitsRemoval(s, id) || AwaitsDestruction(s, id)) && IsDestroyed(s, id))
    ensures s.conns[id].established == 1 && !s.conns[id].interest
  {
    ReachableInv(nLoops, s);
    assert ConnOk(s, id);
    match s.conns[id].stage
    case Removing => OneInFlight(s, id, 0, Remove(id));
    case Destroying => OneInFlight(s, id, s.conns[id].io, Destroy(id));
    case Dead =>
      TakeOut(s, id);
      InFlightNone(s.loops, id);
    case _ => assert false;
  }

  /** connectDestroyed never runs before connectEstablished, never twice, and never on a watched channel. */
  lemma DestroyedOnceAfterEstablished(nLoops: nat, s: Server, id: Id)
    requires Reachable(nLoops, s) && id in s.conns
    ensures s.conns[id].destroyed <= s.conns[id].established <= 1
    ensures s.conns[id].destroyed == 1 <==> s.conns[id].established == 1 && !s.conns[id].inPoller
    ensures s.violations == 0
  {
    ReachableInv(nLoops, s);
    assert ConnOk(s, id);
  }

  /** The socket is open as long as the channel is in a poller's table, and the freed one was destroyed. */
  lemma SocketOutlivesChannel(nLoops: nat, s: Server, id: Id)
    requires Reachable(nLoops, s) && id in s.conns
    ensures s.conns[id].inPoller ==> s.conns[id].socketOpen
    ensures !s.conns[id].socketOpen ==> s.conns[id].destroyed == 1
    ensures !Referenced(s, id) ==> s.conns[id].destroyed == 1 && !s.conns[id].inPoller
  {
    ReachableInv(nLoops, s);
    assert ConnOk(s, id);
    if !Referenced(s, id) {
      UnreferencedIsDead(s, id);
    }
  }

  /** With nothing left to run, the map holds exactly the open connections and each closed one was destroyed. */
  lemma DrainedServer(nLoops: nat, s: Server, id: Id)
    requires Reachable(nLoops, s) && id in s.conns
    requires forall l :: 0 <= l < |s.loops| ==> s.loops[l].queue == []
    ensures id in s.owned <==> s.conns[id].state == Connected
    ensures id !in s.owned <==> s.conns[id].destroyed == 1
  {
    ReachableInv(nLoops, s);
    assert ConnOk(s, id);
  }

  // ---------- no functor is forgotten, whatever the interleaving ----------

  /** How many functors a loop runs in the course of some steps. */
  function Executed(s: Server, l: LoopId, steps: seq<Step>): nat
    decreases |steps|
  {
    if steps == [] then 0 else
      var rest := Executed(Next(s, steps[0]), l, steps[1..]);
      if steps[0] == RunFunctor(l) && Enabled(s, steps[0]) then rest + 1 else rest
  }

  function Rank(stage: Stage): nat {
    match stage
    case Establishing => 0
    case Live => 1
    case Removing => 2
    case Destroying => 3
    case Dead => 4
  }

  lemma StepNeverGoesBack(s: Server, step: Step, id: Id)
    requires Inv(s) && id in s.conns
    ensures id in Next(s, step).conns && Rank(s.conns[id].stage) <= Rank(Next(s, step).conns[id].stage)
  {
    assert ConnOk(s, id);
    if step.RunFunctor? && Enabled(s, step) {
      assert LoopOk(s, step.l) && Placed(s, step.l, s.loops[step.l].queue[0]);
    }
  }

  lemma {:induction false} NeverGoesBack(s: Server, steps: seq<Step>, id: Id)
    requires Inv(s) && id in s.conns
    ensures id in Run(s, steps).conns && Rank(s.conns[id].stage) <= Rank(Run(s, steps).conns[id].stage)
    decreases |steps|
  {
    if steps != [] {
      StepNeverGoesBack(s, steps[0], id);
      StepKeeps(s, steps[0]);
      NeverGoesBack(Next(s, steps[0]), steps[1..], id);
    }
  }

  /** A queued functor keeps its place until its loop runs one, and then moves up by one. */
  lemma KeepsItsPlace(s: Server, step: Step, l: LoopId, i: nat)
    requires l < |s.loops| && i < |s.loops[l].queue|
    requires step == RunFunctor(l) && Enabled(s, step) ==> i > 0
    ensures |Next(s, step).loops| == |s.loops|
    ensures step == RunFunctor(l) && Enabled(s, step) ==>
              i - 1 < |Next(s, step).loops[l].queue| && Next(s, step).loops[l].queue[i - 1] == s.loops[l].queue[i]
    ensures !(step == RunFunctor(l) && Enabled(s, step)) ==>
              i < |Next(s, step).loops[l].queue| && Next(s, step).loops[l].queue[i] == s.loops[l].queue[i]
  {
  }

  /** The rank a functor takes its connection to. */
  function Achieves(t: Task): nat {
    match t
    case Establish(_) => 1
    case Remove(_) => 3
    case Destroy(_) => 4
  }

  predicate Reaches(s: Server, t: Task) {
    t.c in s.conns && Achieves(t) <= Rank(s.conns[t.c].stage)
  }

  lemma HeadReaches(s: Server, l: LoopId)
    requires Inv(s) && Enabled(s, RunFunctor(l))
    ensures Reaches(Next(s, RunFunctor(l)), s.loops[l].queue[0])
  {
  }

  /**
   In every run in which the loop executes more functors than there are ahead of this one, this one
   is executed: whatever is queued meanwhile, and whatever the other loops do.
   */
  lemma {:induction false} QueuedFunctorRuns(s: Server, l: LoopId, i: nat, steps: seq<Step>)
    requires Inv(s) && l < |s.loops| && i < |s.loops[l].queue| && Executed(s, l, steps) > i
    ensures Reaches(Run(s, steps), s.loops[l].queue[i])
    decreases |steps|
  {
    var step := steps[0];
    StepKeeps(s, step);
    if step == RunFunctor(l) && Enabled(s, step) && i == 0 {
      HeadReaches(s, l);
      NeverGoesBack(Next(s, step), steps[1..], s.loops[l].queue[0].c);
    } else {
      KeepsItsPlace(s, step, l, i);
      QueuedFunctorRuns(Next(s, step), l, if step == RunFunctor(l) && Enabled(s, step) then i - 1 else i, steps[1..]);
    }
  }

  /** So a closed connection out of the map is destroyed once its loop gets that far. */
  lemma DestructionHappens(nLoops: nat, s: Server, id: Id, steps: seq<Step>)
    requires Reachable(nLoops, s) && id in s.conns && s.conns[id].io < |s.loops| && AwaitsDestruction(s, id)
    requires Executed(s, s.conns[id].io, steps) >= |s.loops[s.conns[id].io].queue|
    ensures id in Run(s, steps).conns && IsDestroyed(Run(s, steps), id)
  {
    var l := s.conns[id].io;
    var i :| 0 <= i < |s.loops[l].queue| && s.loops[l].queue[i] == Destroy(id);
    ReachableInv(nLoops, s);
    QueuedFunctorRuns(s, l, i, steps);
    RunKeeps(s, steps);
    var s' := Run(s, steps);
    assert ConnOk(s', id);
    TakeOut(s', id);
    InFlightNone(s'.loops, id);
  }

  /** And one still in the map leaves it once the base loop gets that far. */
  lemma RemovalHappens(nLoops: nat, s: Server, id: Id, steps: seq<Step>)
    requires Reachable(nLoops, s) && id in s.conns && 0 < |s.loops| && AwaitsRemoval(s, id)
    requires Executed(s, 0, steps) >= |s.loops[0].queue|
    ensures id in Run(s, steps).conns && id !in Run(s, steps).owned
  {
    var i :| 0 <= i < |s.loops[0].queue| && s.loops[0].queue[i] == Remove(id);
    ReachableInv(nLoops, s);
    QueuedFunctorRuns(s, 0, i, steps);
    RunKeeps(s, steps);
    assert ConnOk(Run(s, steps), id);
  }
}
