/** The server's side of the connections' life: numbering, naming, the map, and what it queues on the loops. */
module TcpServers {
  import opened Bytes
  import opened Numerals
  import opened LifecycleModel
  import M = ConnectionModel

  const NAME_SUFFIX_SIZE: nat := 64
  const INT_MAX: nat := 0x7fff_ffff

  /** The longest "255.255.255.255:65535". */
  const MAX_IP_PORT: nat := 21

  /** "-%s#%d" in a buffer of 64 bytes. */
  function Suffix(ipPort: string, id: Id): string {
    Snprintf(NAME_SUFFIX_SIZE, "-" + ipPort + "#" + Decimal(id))
  }

  function ConnName(name: string, ipPort: string, id: Id): string {
    name + Suffix(ipPort, id)
  }

  lemma SuffixFits(ipPort: string, id: Id)
    requires |ipPort| <= MAX_IP_PORT && id <= INT_MAX
    ensures Suffix(ipPort, id) == "-" + ipPort + "#" + Decimal(id)
  {
    assert Pow(Dec, 20) > INT_MAX by { PowDec20(); }
    DigitsLength(Dec, id, 20);
  }

  /** Connections get different names, so the map never loses one to another. */
  lemma NamesDistinct(name: string, ipPort: string, a: Id, b: Id)
    requires |ipPort| <= MAX_IP_PORT && a <= INT_MAX && b <= INT_MAX
    requires ConnName(name, ipPort, a) == ConnName(name, ipPort, b)
    ensures a == b
  {
    SuffixFits(ipPort, a);
    SuffixFits(ipPort, b);
    var front := name + ("-" + ipPort + "#");
    assert ConnName(name, ipPort, a) == front + Decimal(a);
    assert ConnName(name, ipPort, b) == front + Decimal(b);
    assert Decimal(a) == (front + Decimal(a))[|front|..];
    assert Decimal(b) == (front + Decimal(b))[|front|..];
    DecimalDenotes(a);
    DecimalDenotes(b);
  }

  // ---------- what the lifecycle sees of a connection ----------

  /** Its state and whether it watches anything; a connection that is shutting down still counts as connected. */
  predicate Sees(l: Conn, c: M.Conn) {
    match c.state
    case Connecting => l.state == Connecting && !l.interest && !c.reading && !c.writing
    case Disconnected => l.state == Disconnected && !l.interest && !c.reading && !c.writing
    case _ => l.state == Connected && l.interest && c.reading
  }

  predicate IsClose(step: M.Step) {
    step.HangUp? || (step.Readable? && step.r.Eof?)
  }

  /** Events reach only a channel that watches some, and connectDestroyed only a closed connection. */
  predicate Permitted(l: Conn, step: M.Step) {
    (IsClose(step) ==> l.interest) && (step.Destroyed? ==> l.state == Disconnected)
  }

  function SeenAs(l: Conn, step: M.Step): Conn {
    if step.Established? then Establishment(l)
    else if IsClose(step) then Closure(l)
    else if step.Destroyed? then Destruction(l)
    else l
  }

  /** Nothing else a connection does, sending, writing, reading or shutting down, matters to its lifecycle. */
  lemma LifecycleSeesAll(l: Conn, c: M.Conn, step: M.Step)
    requires Sees(l, c) && M.Enabled(c, step) && Permitted(l, step)
    ensures Sees(SeenAs(l, step), M.Next(c, step))
  {
    match step
    case SendNow(data, w) =>
      if c.state == M.Connected {
        SendUnseen(l, c, data, w);
      }
    case SendQueued(data, w) => SendUnseen(l, c, data, w);
    case Writable(w) => WriteUnseen(l, c, w);
    case _ =>
  }

  lemma SendUnseen(l: Conn, c: M.Conn, data: string, w: M.WriteOutcome)
    requires Sees(l, c) && M.Answers(w, data) && c.state != M.Connecting
    ensures Sees(l, M.SendInLoop(c, data, w))
  {
  }

  lemma WriteUnseen(l: Conn, c: M.Conn, w: M.WriteOutcome)
    requires Sees(l, c) && M.Answers(w, c.out)
    ensures Sees(l, M.HandleWrite(c, w))
  {
  }

  class TcpServer {
    const name: string
    const ipPort: string
    var connections: map<string, Id>
    var nextConnId: nat
    var conns: map<Id, Conn>       // the connections themselves, which the loops share
    var loops: seq<LoopState>      // loop 0 is loop_, the others are the pool's
    ghost var owned: set<Id>

    /** The map holds, under its own name, each connection it owns and no other. */
    ghost predicate Valid()
      reads this
    {
      && |ipPort| <= MAX_IP_PORT && nextConnId <= INT_MAX && 0 < |loops|
      && (forall id <- conns :: id < nextConnId)
      && (forall id <- owned :: id < nextConnId && ConnName(name, ipPort, id) in connections)
      && (forall n <- connections :: connections[n] in owned && n == ConnName(name, ipPort, connections[n]))
    }

    ghost function Value(): Server
      reads this
    {
      Server(conns, owned, loops, nextConnId, 0)
    }

    constructor (name: string, ipPort: string, poolSize: nat)
      requires |ipPort| <= MAX_IP_PORT
      ensures Valid() && Value() == Init(poolSize)
      ensures this.name == name && this.ipPort == ipPort
    {
      this.name, this.ipPort := name, ipPort;
      connections, nextConnId, conns := map[], 1, map[];
      loops := seq(poolSize + 1, _ => IDLE);
      owned := {};
    }

    /** EventLoop::queueInLoop. */
    method QueueInLoop(l: LoopId, t: Task)
      requires l < |loops|
      modifies this`loops
      ensures loops == Push(old(loops), l, t)
      ensures loops[l].queue == old(loops)[l].queue + [t]
      ensures forall m :: 0 <= m < |loops| && m != l ==> loops[m] == old(loops)[m]
    {
      loops := loops[l := loops[l].(queue := loops[l].queue + [t])];
    }

    /** newConnection, on the base loop; io is the loop the pool hands out. */
    method NewConnection(io: LoopId)
      requires Valid() && nextConnId < INT_MAX && io < |loops| && !loops[0].running
      modifies this
      ensures Valid() && Value() == Next(old(Value()), Accept(io))
      ensures connections == old(connections)[ConnName(name, ipPort, old(nextConnId)) := old(nextConnId)]
      ensures ConnName(name, ipPort, old(nextConnId)) !in old(connections)
      ensures nextConnId == old(nextConnId) + 1 && conns.Keys == old(conns).Keys + {old(nextConnId)}
      ensures conns[old(nextConnId)].io == io
      ensures conns[old(nextConnId)].state == if io == 0 then Connected else Connecting
      ensures loops == if io == 0 then old(loops) else Push(old(loops), io, Establish(old(nextConnId)))
    {
      hide Suffix;
      var id := nextConnId;
      var connName := ConnName(name, ipPort, id);
      NewName(id);
      nextConnId := nextConnId + 1;
      conns := conns[id := Conn(io, Connecting, false, false, true, 0, 0, Establishing)];
      connections := connections[connName := id];
      owned := owned + {id};
      if io == 0 {
        conns := conns[id := Establishment(conns[id])];
      } else {
        QueueInLoop(io, Establish(id));
      }
    }

    lemma NewName(id: Id)
      requires Valid() && id == nextConnId
      ensures ConnName(name, ipPort, id) !in connections
    {
      var n := ConnName(name, ipPort, id);
      if n in connections {
        NamesDistinct(name, ipPort, id, connections[n]);
        assert false;
      }
    }

    /** removeConenction, on the connection's own loop, once handleClose has disconnected it. */
    method RemoveConnection(c: Id)
      requires Valid() && c in conns && conns[c].io < |loops|
      modifies this
      ensures Valid() && Value() == RequestRemoval(old(Value()), c)
      ensures old(conns[c]).io == 0 ==>
                ConnName(name, ipPort, c) !in connections && loops == Push(old(loops), 0, Destroy(c))
      ensures old(conns[c]).io != 0 ==> connections == old(connections) && loops == Push(old(loops), 0, Remove(c))
    {
      if conns[c].io == 0 {
        RemoveConnectionInLoop(c);
      } else {
        QueueInLoop(0, Remove(c));
      }
    }

    /** removeConnectionInLoop, on the base loop. */
    method RemoveConnectionInLoop(c: Id)
      requires Valid() && c in conns && conns[c].io < |loops|
      modifies this
      ensures Valid() && Value() == RemoveInLoop(old(Value()), c)
      ensures connections == old(connections) - {ConnName(name, ipPort, c)}
      ensures loops == Push(old(loops), old(conns[c]).io, Destroy(c)) && nextConnId == old(nextConnId)
    {
      hide Suffix;
      var connName := ConnName(name, ipPort, c);
      OtherNames(c);
      connections := connections - {connName};
      owned := owned - {c};
      conns := conns[c := conns[c].(stage := Destroying)];
      QueueInLoop(conns[c].io, Destroy(c));
    }

    lemma OtherNames(c: Id)
      requires Valid() && c < nextConnId
      ensures forall id <- owned :: id != c ==> ConnName(name, ipPort, id) != ConnName(name, ipPort, c)
    {
      forall id | id in owned && id != c
        ensures ConnName(name, ipPort, id) != ConnName(name, ipPort, c)
      {
        if ConnName(name, ipPort, id) == ConnName(name, ipPort, c) {
          NamesDistinct(name, ipPort, id, c);
          assert false;
        }
      }
    }
  }
}
