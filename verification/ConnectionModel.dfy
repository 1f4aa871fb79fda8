/**
 What one TCP connection does to its byte streams, as functions on its state, and what follows for
 whole histories: every accepted byte is sent or still buffered, in order, and the half-close
 happens once, after the last byte.
 */
module ConnectionModel {
  import opened Pollers

  datatype State = Disconnected | Connecting | Connected | Disconnecting

  /** What ::write returned; a count never exceeds what was offered. */
  datatype WriteOutcome = Wrote(n: nat) | WouldBlock | OtherError | Fault  // Fault: EPIPE or ECONNRESET

  datatype ReadOutcome = Received(bytes: string) | Eof | ReadFailed

  /** Functors the connection queues on its loop. */
  datatype Task = WriteComplete | HighWater(size: nat)

  datatype Conn = Conn(
    state: State, reading: bool, writing: bool, input: string, out: string, queued: seq<Task>,
    notify: bool,         // a write-complete callback is set
    highWaterMark: nat,
    sent: string,         // the kernel's side: bytes taken from us
    shutdowns: nat,       // calls of shutdownWrite
    late: nat,            // calls of write behind a shutdownWrite
    closes: nat)          // calls of the close callback

  function Initial(notify: bool, highWaterMark: nat): Conn {
    Conn(Connecting, false, false, "", "", [], notify, highWaterMark, "", 0, 0, 0)
  }

  predicate Answers(w: WriteOutcome, offered: string) {
    w.Wrote? ==> w.n <= |offered|
  }

  /** The number of bytes taken, with the write result read as the signed number it is. */
  function Taken(w: WriteOutcome): nat {
    if w.Wrote? then w.n else 0
  }

  function AfterWrite(c: Conn): Conn {
    c.(late := c.late + if c.shutdowns > 0 then 1 else 0)
  }

  function Notify(c: Conn): Conn {
    if c.notify then c.(queued := c.queued + [WriteComplete]) else c
  }

  /** Nothing is being sent already: the payload may be written at once. */
  predicate Direct(c: Conn) {
    !c.writing && c.out == ""
  }

  /** The tail of sendInLoop: what was not written is buffered, and write interest switched on. */
  function Keep(c: Conn, rest: string): Conn {
    if rest == "" then c else
      var size := |c.out| + |rest|;
      var crosses := size >= c.highWaterMark && |c.out| < c.highWaterMark;
      var c1 := if crosses then c.(queued := c.queued + [HighWater(size)]) else c;
      c1.(out := c1.out + rest, writing := true)
  }

  /** The first part: nothing is buffered, so the payload is written at once. */
  function WriteDirectly(c: Conn, data: string, w: WriteOutcome): Conn
    requires Answers(w, data)
  {
    var c1 := AfterWrite(c).(sent := c.sent + data[..Taken(w)]);
    if w == Wrote(|data|) then Notify(c1) else c1
  }

  function SendInLoop(c: Conn, data: string, w: WriteOutcome): Conn
    requires Answers(w, data)
  {
    if c.state == Disconnected then c
    else if !Direct(c) then Keep(c, data)
    else
      var c1 := WriteDirectly(c, data, w);
      if w.Fault? then c1 else Keep(c1, data[Taken(w)..])
  }

  function Send(c: Conn, data: string, w: WriteOutcome): Conn
    requires Answers(w, data)
  {
    if c.state == Connected then SendInLoop(c, data, w) else c
  }

  function ShutdownInLoop(c: Conn): Conn {
    if c.writing then c else c.(shutdowns := c.shutdowns + 1)
  }

  function Shutdown(c: Conn): Conn {
    if c.state == Connected then ShutdownInLoop(c.(state := Disconnecting)) else c
  }

  function HandleWrite(c: Conn, w: WriteOutcome): Conn
    requires Answers(w, c.out)
  {
    if !c.writing then c else
      var c1 := AfterWrite(c);
      if Taken(w) == 0 then c1 else
        var c2 := c1.(sent := c1.sent + c1.out[..w.n], out := c1.out[w.n..]);
        if c2.out != "" then c2 else
          var c3 := Notify(c2.(writing := false));
          if c3.state == Disconnecting then ShutdownInLoop(c3) else c3
  }

  function HandleClose(c: Conn): Conn {
    c.(state := Disconnected, reading := false, writing := false, closes := c.closes + 1)
  }

  function HandleRead(c: Conn, r: ReadOutcome): Conn {
    match r
    case Received(bytes) => c.(input := c.input + bytes)
    case Eof => HandleClose(c)
    case ReadFailed => c
  }

  function ConnectEstablished(c: Conn): Conn {
    c.(state := Connected, reading := true)
  }

  function ConnectDestroyed(c: Conn): Conn {
    if c.state == Connected then c.(state := Disconnected, reading := false, writing := false) else c
  }

  // ---------- histories ----------

  datatype Step =
    | Established
    | SendNow(data: string, w: WriteOutcome)     // send() called on the loop thread
    | SendQueued(data: string, w: WriteOutcome)  // the functor queued by send() on another thread
    | Writable(w: WriteOutcome)
    | ShutdownNow                                // shutdown() called on the loop thread
    | Readable(r: ReadOutcome)
    | HangUp
    | Destroyed

  predicate Enabled(c: Conn, step: Step) {
    match step
    case Established => c.state == Connecting
    case SendNow(data, w) => Answers(w, data)
    case SendQueued(data, w) => Answers(w, data) && c.state != Connecting
    case Writable(w) => Answers(w, c.out)
    case _ => true
  }

  /** A step that is not enabled leaves everything as it is. */
  function Next(c: Conn, step: Step): Conn {
    if !Enabled(c, step) then c else
    match step
    case Established => ConnectEstablished(c)
    case SendNow(data, w) => Send(c, data, w)
    case SendQueued(data, w) => SendInLoop(c, data, w)
    case Writable(w) => HandleWrite(c, w)
    case ShutdownNow => Shutdown(c)
    case Readable(r) => HandleRead(c, r)
    case HangUp => HandleClose(c)
    case Destroyed => ConnectDestroyed(c)
  }

  function Run(c: Conn, steps: seq<Step>): Conn
    decreases |steps|
  {
    if steps == [] then c else Run(Next(c, steps[0]), steps[1..])
  }

  // ---------- conservation of the output ----------

  /** The payload a step hands over: not when the connection is down, nor when its direct write faults. */
  function Accepted(c: Conn, step: Step): string {
    if !Enabled(c, step) then "" else
    match step
    case SendNow(data, w) => if c.state == Connected && !(Direct(c) && w.Fault?) then data else ""
    case SendQueued(data, w) => if c.state != Disconnected && !(Direct(c) && w.Fault?) then data else ""
    case _ => ""
  }

  function AllAccepted(c: Conn, steps: seq<Step>): string
    decreases |steps|
  {
    if steps == [] then "" else Accepted(c, steps[0]) + AllAccepted(Next(c, steps[0]), steps[1..])
  }

  lemma SendConserves(c: Conn, data: string, w: WriteOutcome)
    requires Answers(w, data) && c.state != Disconnected
    ensures var n := SendInLoop(c, data, w);
            n.sent + n.out == c.sent + c.out + if Direct(c) && w.Fault? then "" else data
  {
    var k := Taken(w);
    assert data == data[..k] + data[k..];
    DirectMoves(c, data, w);
    KeepMoves(c, data);
    KeepMoves(WriteDirectly(c, data, w), data[k..]);
    hide Keep, WriteDirectly;
    Regroup(c.sent, c.out, data[..k], data[k..]);
    if Direct(c) && w.Fault? {
      assert data[..k] == "";
    }
  }

  lemma Regroup(a: string, b: string, c: string, d: string)
    ensures a + (b + (c + d)) == a + b + (c + d) && a + b + "" == a + b
    ensures b == "" ==> a + c + (b + d) == a + b + (c + d)
    ensures b == "" && c == "" ==> a + c + b == a + b
  {
  }

  lemma DirectMoves(c: Conn, data: string, w: WriteOutcome)
    requires Answers(w, data)
    ensures WriteDirectly(c, data, w).sent == c.sent + data[..Taken(w)] && WriteDirectly(c, data, w).out == c.out
  {
  }

  lemma KeepMoves(c: Conn, rest: string)
    ensures Keep(c, rest).sent == c.sent && Keep(c, rest).out == c.out + rest
  {
    assert c.out + "" == c.out;
  }

  lemma ConservesStep(c: Conn, step: Step)
    ensures var n := Next(c, step); n.sent + n.out == c.sent + c.out + Accepted(c, step)
  {
    if Enabled(c, step) {
      match step
      case SendNow(data, w) =>
        if c.state == Connected {
          SendConserves(c, data, w);
        }
      case SendQueued(data, w) =>
        if c.state != Disconnected {
          SendConserves(c, data, w);
        }
      case Writable(w) =>
        var k := Taken(w);
        assert c.sent + c.out[..k] + c.out[k..] == c.sent + c.out;
      case _ =>
    }
  }

  /** Over any history, with short, blocked and failing writes: bytes taken, then buffered, are the bytes accepted. */
  lemma {:induction false} OutputConservation(c: Conn, steps: seq<Step>)
    ensures var n := Run(c, steps); n.sent + n.out == c.sent + c.out + AllAccepted(c, steps)
    decreases |steps|
  {
    if steps == [] {
      assert c.sent + c.out + "" == c.sent + c.out;
    } else {
      ConservesStep(c, steps[0]);
      OutputConservation(Next(c, steps[0]), steps[1..]);
      assert c.sent + c.out + (Accepted(c, steps[0]) + AllAccepted(Next(c, steps[0]), steps[1..])) ==
             c.sent + c.out + Accepted(c, steps[0]) + AllAccepted(Next(c, steps[0]), steps[1..]);
    }
  }

  function Payloads(steps: seq<Step>): string {
    if steps == [] then "" else
      (if steps[0].SendNow? || steps[0].SendQueued? then steps[0].data else "") + Payloads(steps[1..])
  }

  /** Steps of an undisturbed, open connection. */
  predicate Quiet(c: Conn, steps: seq<Step>)
    decreases |steps|
  {
    steps == [] ||
    (Enabled(c, steps[0]) && Quiet(Next(c, steps[0]), steps[1..]) &&
     match steps[0]
     case SendNow(_, w) => !w.Fault?
     case SendQueued(_, w) => !w.Fault?
     case Writable(_) => true
     case Readable(r) => !r.Eof?
     case _ => false)
  }

  /** Without faults and before any close, everything passed to send is accepted. */
  lemma {:induction false} QuietAcceptsAll(c: Conn, steps: seq<Step>)
    requires c.state == Connected && Quiet(c, steps)
    ensures AllAccepted(c, steps) == Payloads(steps)
    decreases |steps|
  {
    if steps != [] {
      QuietStep(c, steps[0], steps[1..]);
      hide Next, Accepted;
      QuietAcceptsAll(Next(c, steps[0]), steps[1..]);
    }
  }

  lemma QuietStep(c: Conn, step: Step, later: seq<Step>)
    requires c.state == Connected && Quiet(c, [step] + later)
    ensures Next(c, step).state == Connected && Quiet(Next(c, step), later)
    ensures Accepted(c, step) == if step.SendNow? || step.SendQueued? then step.data else ""
  {
    assert ([step] + later)[1..] == later && ([step] + later)[0] == step;
    hide Quiet, Keep, Notify;
    QuietHead(c, step, later);
  }

  lemma QuietHead(c: Conn, step: Step, later: seq<Step>)
    requires Quiet(c, [step] + later)
    ensures Enabled(c, step) && Quiet(Next(c, step), later)
    ensures step.SendNow? || step.SendQueued? || step.Writable? || step.Readable?
    ensures (step.SendNow? || step.SendQueued? ==> !step.w.Fault?) && (step.Readable? ==> !step.r.Eof?)
  {
    assert ([step] + later)[1..] == later && ([step] + later)[0] == step;
  }

  /** What the kernel takes of the bytes a step offers it, by its answer. */
  function TakenIn(c: Conn, step: Step): string {
    if !Enabled(c, step) then "" else
    match step
    case SendNow(data, w) => if c.state == Connected && Direct(c) then data[..Taken(w)] else ""
    case SendQueued(data, w) => if c.state != Disconnected && Direct(c) then data[..Taken(w)] else ""
    case Writable(w) => if c.writing then c.out[..Taken(w)] else ""
    case _ => ""
  }

  function AllTaken(c: Conn, steps: seq<Step>): string
    decreases |steps|
  {
    if steps == [] then "" else TakenIn(c, steps[0]) + AllTaken(Next(c, steps[0]), steps[1..])
  }

  /** The bytes written are those the kernel answered it took: the front of a direct send or of what is buffered. */
  lemma {:induction false} SentIsTaken(c: Conn, steps: seq<Step>)
    ensures Run(c, steps).sent == c.sent + AllTaken(c, steps)
    decreases |steps|
  {
    if steps == [] {
      assert c.sent + "" == c.sent;
    } else {
      SentStep(c, steps[0]);
      SentIsTaken(Next(c, steps[0]), steps[1..]);
      Append(c.sent, TakenIn(c, steps[0]), AllTaken(Next(c, steps[0]), steps[1..]));
    }
  }

  lemma Append(a: string, b: string, c: string)
    ensures a + b + c == a + (b + c)
  {
  }

  lemma SentStep(c: Conn, step: Step)
    ensures Next(c, step).sent == c.sent + TakenIn(c, step)
  {
    assert c.sent + "" == c.sent;
    if Enabled(c, step) {
      match step
      case SendNow(data, w) => SendSends(c, data, w);
      case SendQueued(data, w) => SendSends(c, data, w);
      case Writable(w) => WriteSends(c, w);
      case _ =>
    }
  }

  lemma SendSends(c: Conn, data: string, w: WriteOutcome)
    requires Answers(w, data)
    ensures SendInLoop(c, data, w).sent ==
            c.sent + if c.state != Disconnected && Direct(c) then data[..Taken(w)] else ""
  {
    assert c.sent + "" == c.sent;
  }

  lemma WriteSends(c: Conn, w: WriteOutcome)
    requires Answers(w, c.out)
    ensures HandleWrite(c, w).sent == c.sent + if c.writing then c.out[..Taken(w)] else ""
  {
    assert c.sent + "" == c.sent && c.out[..0] == "";
  }

  /** The bytes of the reads that succeed. */
  function AllReceived(steps: seq<Step>): string {
    if steps == [] then "" else
      (if steps[0].Readable? && steps[0].r.Received? then steps[0].r.bytes else "") + AllReceived(steps[1..])
  }

  /** The input buffer collects exactly them, in order; nobody else adds to it. */
  lemma {:induction false} InputConservation(c: Conn, steps: seq<Step>)
    ensures Run(c, steps).input == c.input + AllReceived(steps)
    decreases |steps|
  {
    if steps == [] {
      assert c.input + "" == c.input;
    } else {
      var bytes := if steps[0].Readable? && steps[0].r.Received? then steps[0].r.bytes else "";
      InputStep(c, steps[0]);
      InputConservation(Next(c, steps[0]), steps[1..]);
      Append(c.input, bytes, AllReceived(steps[1..]));
    }
  }

  lemma InputStep(c: Conn, step: Step)
    ensures Next(c, step).input == c.input + if step.Readable? && step.r.Received? then step.r.bytes else ""
  {
    assert c.input + "" == c.input;
  }

  // ---------- what is reported ----------

  /** A step whose write leaves nothing unwritten: a direct send in one go, or the last of the buffered bytes. */
  predicate Completes(c: Conn, step: Step) {
    match step
    case SendNow(data, w) => c.state == Connected && Direct(c) && w == Wrote(|data|)
    case SendQueued(data, w) => c.state != Disconnected && Direct(c) && w == Wrote(|data|)
    case Writable(w) => c.writing && c.out != "" && w == Wrote(|c.out|)
    case _ => false
  }

  /** The buffered bytes go from below the high-water mark to it or above. */
  predicate Crosses(c: Conn, n: Conn) {
    |c.out| < c.highWaterMark <= |n.out|
  }

  /** Both callbacks are queued exactly when they are due, once, and with the size that is then buffered. */
  lemma ReportsExactly(c: Conn, step: Step)
    requires Enabled(c, step)
    ensures var n := Next(c, step);
            && n.queued == c.queued + (if c.notify && Completes(c, step) then [WriteComplete] else [])
                                    + (if Crosses(c, n) then [HighWater(|n.out|)] else [])
            && n.notify == c.notify && n.highWaterMark == c.highWaterMark
  {
    var n := Next(c, step);
    assert c.queued + [] == c.queued && c.queued + [] + [] == c.queued;
    match step
    case SendNow(data, w) => SendReports(c, data, w);
    case SendQueued(data, w) => SendReports(c, data, w);
    case Writable(w) => WriteReports(c, w);
    case _ => assert n.out == c.out && n.queued == c.queued;
  }

  lemma SendReports(c: Conn, data: string, w: WriteOutcome)
    requires Answers(w, data)
    ensures var n := SendInLoop(c, data, w);
            var whole := c.state != Disconnected && Direct(c) && w == Wrote(|data|);
            && n.queued == c.queued
                 + (if c.notify && whole then [WriteComplete] else [])
                 + (if Crosses(c, n) then [HighWater(|n.out|)] else [])
            && n.notify == c.notify && n.highWaterMark == c.highWaterMark
  {
    assert c.queued + [] == c.queued;
    if c.state != Disconnected && Direct(c) && !w.Fault? {
      assert data[Taken(w)..] == "" <==> w == Wrote(|data|) || data == "";
    }
  }

  lemma WriteReports(c: Conn, w: WriteOutcome)
    requires Answers(w, c.out)
    ensures var n := HandleWrite(c, w);
            var drained := c.writing && c.out != "" && w == Wrote(|c.out|);
            && n.queued == c.queued + (if c.notify && drained then [WriteComplete] else [])
            && |n.out| <= |c.out| && n.notify == c.notify && n.highWaterMark == c.highWaterMark
  {
    assert c.queued + [] == c.queued;
  }

  // ---------- the half-close ----------

  /** Until disconnect write interest is on exactly while bytes are buffered, and the half-close waits for them. */
  predicate Graceful(c: Conn) {
    && (c.state != Disconnected ==> (c.writing <==> c.out != ""))
    && (c.state == Disconnected ==> !c.writing)
    && (c.state == Connecting || c.state == Connected ==> c.shutdowns == 0)
    && (c.state == Disconnecting ==> c.shutdowns == if c.out == "" then 1 else 0)
    && c.shutdowns <= 1 && (c.shutdowns == 1 ==> c.out == "")
    && c.late == 0
  }

  lemma SendGraceful(c: Conn, data: string, w: WriteOutcome)
    requires Answers(w, data) && Graceful(c) && c.state == Connected
    ensures Graceful(SendInLoop(c, data, w))
  {
  }

  lemma WriteGraceful(c: Conn, w: WriteOutcome)
    requires Answers(w, c.out) && Graceful(c)
    ensures Graceful(HandleWrite(c, w))
  {
  }

  /** A send queued by another thread whose turn comes behind the half-close. */
  predicate LateSend(c: Conn, step: Step) {
    Enabled(c, step) && step.SendQueued? && c.state == Disconnecting && c.out == ""
  }

  /** No queued send of these steps is late. */
  predicate NoLate(c: Conn, steps: seq<Step>)
    decreases |steps|
  {
    steps == [] || (!LateSend(c, steps[0]) && NoLate(Next(c, steps[0]), steps[1..]))
  }

  lemma GracefulStep(c: Conn, step: Step)
    requires Graceful(c) && !LateSend(c, step)
    ensures Graceful(Next(c, step))
  {
    if Enabled(c, step) {
      match step
      case SendNow(data, w) =>
        if c.state == Connected {
          SendGraceful(c, data, w);
        }
      case SendQueued(data, w) =>
        if c.state == Connected {
          SendGraceful(c, data, w);
        }
      case Writable(w) => WriteGraceful(c, w);
      case _ =>
    }
  }

  lemma {:induction false} GracefulRun(c: Conn, steps: seq<Step>)
    requires Graceful(c) && NoLate(c, steps)
    ensures Graceful(Run(c, steps))
    decreases |steps|
  {
    if steps != [] {
      GracefulStep(c, steps[0]);
      GracefulRun(Next(c, steps[0]), steps[1..]);
    }
  }

  /** Without sends queued by other threads none is late. */
  lemma {:induction false} LoopThreadNeverLate(c: Conn, steps: seq<Step>)
    requires forall s <- steps :: !s.SendQueued?
    ensures NoLate(c, steps)
    decreases |steps|
  {
    if steps != [] {
      assert !steps[0].SendQueued?;
      LoopThreadNeverLate(Next(c, steps[0]), steps[1..]);
    }
  }

  /**
   A connection on which no queued send is late half-closes at most once, never before the last
   accepted byte is with the kernel, and always as soon as it is; no write comes after it.
   */
  lemma GracefulHalfClose(notify: bool, highWaterMark: nat, steps: seq<Step>)
    requires NoLate(Initial(notify, highWaterMark), steps)
    ensures var c := Initial(notify, highWaterMark);
            var n := Run(c, steps);
            && Graceful(n)
            && (n.shutdowns == 1 ==> n.sent == AllAccepted(c, steps))
            && (n.state == Disconnecting && n.sent == AllAccepted(c, steps) ==> n.shutdowns == 1)
  {
    var c := Initial(notify, highWaterMark);
    GracefulRun(c, steps);
    OutputConservation(c, steps);
    var n := Run(c, steps);
    assert "" + AllAccepted(c, steps) == AllAccepted(c, steps);
    if n.sent == AllAccepted(c, steps) {
      assert |n.sent + n.out| == |n.sent|;
    }
  }

  /** So does every connection that is used on its loop thread only. */
  lemma LoopThreadHalfClose(notify: bool, highWaterMark: nat, steps: seq<Step>)
    requires forall s <- steps :: !s.SendQueued?
    ensures var c := Initial(notify, highWaterMark);
            var n := Run(c, steps);
            && Graceful(n)
            && (n.shutdowns == 1 ==> n.sent == AllAccepted(c, steps))
            && (n.state == Disconnecting && n.sent == AllAccepted(c, steps) ==> n.shutdowns == 1)
  {
    LoopThreadNeverLate(Initial(notify, highWaterMark), steps);
    GracefulHalfClose(notify, highWaterMark, steps);
  }

  // ---------- what a send and a writable socket do, outright ----------

  /**
   A send on an idle open connection writes at once, and what the kernel does not take, short of a fault,
   is buffered with write interest on; on a busy one everything is buffered behind the rest.
   */
  lemma SendExactly(c: Conn, data: string, w: WriteOutcome)
    requires Answers(w, data)
    ensures var n := SendInLoop(c, data, w);
            var idle := !c.writing && c.out == "";
            var rest := if c.state == Disconnected || (idle && w.Fault?) then ""
                        else if idle && w.Wrote? then data[w.n..] else data;
            && n.sent == c.sent + (if c.state != Disconnected && idle && w.Wrote? then data[..w.n] else "")
            && n.out == c.out + rest && (n.writing <==> c.writing || rest != "")
            && n.state == c.state && n.reading == c.reading && n.input == c.input
            && n.shutdowns == c.shutdowns && n.closes == c.closes
  {
    SendSends(c, data, w);
    KeepMoves(c, data);
    KeepMoves(WriteDirectly(c, data, w), data[Taken(w)..]);
    assert c.out + "" == c.out && data[..0] == "" && data[0..] == data;
  }

  /** A writable socket takes bytes off the front of the buffer; when the last is gone it is watched no more. */
  lemma WriteExactly(c: Conn, w: WriteOutcome)
    requires Answers(w, c.out)
    ensures var n := HandleWrite(c, w);
            var k := if c.writing && w.Wrote? then w.n else 0;
            var drained := k > 0 && k == |c.out|;
            && n.sent == c.sent + c.out[..k] && n.out == c.out[k..]
            && (n.writing <==> c.writing && !drained)
            && n.shutdowns == c.shutdowns + (if drained && c.state == Disconnecting then 1 else 0)
            && n.state == c.state && n.reading == c.reading && n.input == c.input && n.closes == c.closes
  {
    WriteSends(c, w);
  }

  // ---------- shutdown ----------

  /**
   A connected connection that is shut down stops taking payloads and keeps every byte it has; it
   half-closes at once when nothing is being written, and otherwise leaves that to the drain.
   */
  lemma ShutdownStarts(c: Conn)
    requires c.state == Connected
    ensures Next(c, ShutdownNow) ==
            c.(state := Disconnecting, shutdowns := if c.writing then c.shutdowns else c.shutdowns + 1)
  {
  }

  /** What the payloads of loop-thread sends come to. */
  function LoopAccepted(c: Conn, steps: seq<Step>): string
    decreases |steps|
  {
    if steps == [] then "" else
      (if steps[0].SendNow? then Accepted(c, steps[0]) else "") + LoopAccepted(Next(c, steps[0]), steps[1..])
  }

  predicate Closing(c: Conn) {
    c.state == Disconnecting || c.state == Disconnected
  }

  lemma ClosingStays(c: Conn, step: Step)
    requires Closing(c)
    ensures Closing(Next(c, step)) && (step.SendNow? ==> Accepted(c, step) == "")
    ensures c.state == Disconnecting && !step.HangUp? && !(step.Readable? && step.r.Eof?) ==>
              Next(c, step).state == Disconnecting
  {
  }

  lemma {:induction false} ClosingTakesNothing(c: Conn, steps: seq<Step>)
    requires Closing(c)
    ensures Closing(Run(c, steps)) && LoopAccepted(c, steps) == ""
    decreases |steps|
  {
    if steps != [] {
      ClosingStays(c, steps[0]);
      ClosingTakesNothing(Next(c, steps[0]), steps[1..]);
    }
  }

  /** Nothing in these steps closes the connection. */
  predicate StaysOpen(steps: seq<Step>) {
    forall s <- steps :: !s.HangUp? && !(s.Readable? && s.r.Eof?)
  }

  lemma {:induction false} ShutsDownUntilClosed(c: Conn, steps: seq<Step>)
    requires c.state == Disconnecting && StaysOpen(steps)
    ensures Run(c, steps).state == Disconnecting
    decreases |steps|
  {
    if steps != [] {
      assert steps[0] in steps;
      ClosingStays(c, steps[0]);
      ShutsDownUntilClosed(Next(c, steps[0]), steps[1..]);
    }
  }

  /**
   The run law of shutdown(): whatever was buffered when it was called, no later loop-thread payload is
   accepted, and as long as nothing closes the connection it half-closes exactly when the kernel has all
   that was accepted before and since.
   */
  lemma ShutdownRun(c: Conn, steps: seq<Step>)
    requires Graceful(c) && c.state == Connected && NoLate(Next(c, ShutdownNow), steps)
    ensures var s := Next(c, ShutdownNow);
            var n := Run(s, steps);
            && LoopAccepted(s, steps) == "" && Closing(n)
            && (StaysOpen(steps) ==> n.state == Disconnecting)
            && (n.state == Disconnecting ==>
                  (n.shutdowns == 1 <==> n.sent == c.sent + c.out + AllAccepted(s, steps)))
  {
    var s := Next(c, ShutdownNow);
    var n := Run(s, steps);
    ShutdownStarts(c);
    GracefulStep(c, ShutdownNow);
    GracefulRun(s, steps);
    ClosingTakesNothing(s, steps);
    if StaysOpen(steps) {
      ShutsDownUntilClosed(s, steps);
    }
    OutputConservation(s, steps);
    assert n.sent + n.out == c.sent + c.out + AllAccepted(s, steps);
    if n.out == "" {
      assert n.sent + n.out == n.sent;
    } else {
      assert |n.sent + n.out| > |n.sent|;
    }
  }

  /** Establishment opens a new connection, and watches for what arrives. */
  lemma EstablishedOpens(c: Conn)
    requires c.state == Connecting
    ensures Next(c, Established) == c.(state := Connected, reading := true)
  {
  }

  /** connectDestroyed ends one that is still connected, and leaves any other as it is. */
  lemma DestroyedEnds(c: Conn)
    ensures Next(c, Destroyed) ==
            if c.state == Connected then c.(state := Disconnected, reading := false, writing := false) else c
  {
  }

  /** A loop-thread send goes through exactly while connected, a queued one until disconnect, a write always. */
  lemma CallsGoThrough(c: Conn, data: string, w: WriteOutcome)
    requires Answers(w, data)
    ensures Next(c, SendNow(data, w)) == if c.state == Connected then SendInLoop(c, data, w) else c
    ensures c.state != Connecting ==> Next(c, SendQueued(data, w)) == SendInLoop(c, data, w)
    ensures Answers(w, c.out) ==> Next(c, Writable(w)) == HandleWrite(c, w)
  {
  }

  /** A hang-up, or the end of the stream, ends it: nothing is watched any more and the close callback runs. */
  lemma ClosesAtEnd(c: Conn)
    ensures Next(c, HangUp) == Next(c, Readable(Eof)) ==
            c.(state := Disconnected, reading := false, writing := false, closes := c.closes + 1)
    ensures Next(c, Readable(ReadFailed)) == c
  {
  }

  lemma LateSendWrites(c: Conn, step: Step)
    requires Graceful(c) && LateSend(c, step)
    ensures Next(c, step).late > 0
  {
  }

  lemma {:induction false} LateStays(c: Conn, steps: seq<Step>)
    ensures Run(c, steps).late >= c.late
    decreases |steps|
  {
    if steps != [] {
      LateStepStays(c, steps[0]);
      LateStays(Next(c, steps[0]), steps[1..]);
    }
  }

  lemma LateStepStays(c: Conn, step: Step)
    ensures Next(c, step).late >= c.late
  {
    hide Keep, Notify;
    if Enabled(c, step) {
      match step
      case SendNow(data, w) => SendLate(c, data, w);
      case SendQueued(data, w) => SendLate(c, data, w);
      case Writable(w) => WriteLate(c, w);
      case _ =>
    }
  }

  lemma SendLate(c: Conn, data: string, w: WriteOutcome)
    requires Answers(w, data)
    ensures SendInLoop(c, data, w).late >= c.late
  {
  }

  lemma WriteLate(c: Conn, w: WriteOutcome)
    requires Answers(w, c.out)
    ensures HandleWrite(c, w).late >= c.late
  {
  }

  /** Over any history, queued sends included, a write follows the half-close exactly when one of them is late. */
  lemma {:induction false} LateWriteExactly(c: Conn, steps: seq<Step>)
    requires Graceful(c)
    ensures Run(c, steps).late == 0 <==> NoLate(c, steps)
    decreases |steps|
  {
    if steps != [] {
      if LateSend(c, steps[0]) {
        LateSendWrites(c, steps[0]);
        LateStays(Next(c, steps[0]), steps[1..]);
      } else {
        GracefulStep(c, steps[0]);
        LateWriteExactly(Next(c, steps[0]), steps[1..]);
      }
    }
  }

  /** One late send that would block makes the connection write behind its half-close twice, and half-close again. */
  lemma LateSendCounterexample()
    ensures var steps := [Established, ShutdownNow, SendQueued("x", WouldBlock), Writable(Wrote(1))];
            Run(Initial(false, 0), steps).shutdowns == 2 && Run(Initial(false, 0), steps).late == 2
  {
    RunFour(Initial(false, 0), Established, ShutdownNow, SendQueued("x", WouldBlock), Writable(Wrote(1)));
    var c2 := Next(Next(Initial(false, 0), Established), ShutdownNow);
    assert c2 == ConnectEstablished(Initial(false, 0)).(state := Disconnecting, shutdowns := 1);
    var c3 := Next(c2, SendQueued("x", WouldBlock));
    assert c3 == c2.(out := "x", writing := true, late := 1);
  }

  lemma RunFour(c: Conn, s1: Step, s2: Step, s3: Step, s4: Step)
    ensures Run(c, [s1, s2, s3, s4]) == Next(Next(Next(Next(c, s1), s2), s3), s4)
  {
    hide Next;
    var steps := [s1, s2, s3, s4];
    assert steps[1..] == [s2, s3, s4] && [s2, s3, s4][1..] == [s3, s4] && [s3, s4][1..] == [s4] && [s4][1..] == [];
    assert Run(Next(Next(Next(c, s1), s2), s3), [s4]) == Next(Next(Next(Next(c, s1), s2), s3), s4);
    assert Run(Next(Next(c, s1), s2), [s3, s4]) == Run(Next(Next(Next(c, s1), s2), s3), [s4]);
  }

  // ---------- the write result as the code stores it ----------

  /**
   sendInLoop as compiled: the result goes into a size_t, so its test for an error is never true.
   -1 then counts as 2^64 - 1 bytes written, the rest comes out one byte longer than the payload,
   and it is read from one byte in front of it; `before` is that byte.
   */
  function SendInLoopUnsigned(c: Conn, before: char, data: string, w: WriteOutcome): Conn
    requires Answers(w, data)
  {
    if c.state == Disconnected then c
    else if !Direct(c) then Keep(c, data)
    else if w.Wrote? then
      var c1 := AfterWrite(c).(sent := c.sent + data[..w.n]);
      Keep(if w.n == |data| then Notify(c1) else c1, data[w.n..])
    else Keep(AfterWrite(c), [before] + data)
  }

  /** It agrees with the signed reading exactly when no direct write failed. */
  lemma UnsignedAgrees(c: Conn, before: char, data: string, w: WriteOutcome)
    requires Answers(w, data)
    ensures SendInLoopUnsigned(c, before, data, w) == SendInLoop(c, data, w) <==>
            c.state == Disconnected || !Direct(c) || w.Wrote?
  {
    if c.state != Disconnected && Direct(c) && !w.Wrote? {
      assert |SendInLoopUnsigned(c, before, data, w).out| == 1 + |data|;
      assert |SendInLoop(c, data, w).out| <= |data|;
    }
  }

  /** And it conserves the output under the same condition. */
  lemma UnsignedConserves(c: Conn, before: char, data: string, w: WriteOutcome)
    requires Answers(w, data) && c.state != Disconnected
    ensures var n := SendInLoopUnsigned(c, before, data, w);
            n.sent + n.out == c.sent + c.out + data <==> !Direct(c) || w.Wrote?
  {
    if !Direct(c) || w.Wrote? {
      UnsignedAgrees(c, before, data, w);
      SendConserves(c, data, w);
    } else {
      var n := SendInLoopUnsigned(c, before, data, w);
      assert |n.sent + n.out| == |c.sent + c.out + data| + 1;
    }
  }

  /** A first send on an idle connection whose socket buffer is full puts a stray byte on the wire. */
  lemma UnsignedCounterexample()
    ensures SendInLoopUnsigned(ConnectEstablished(Initial(false, 1024)), '?', "hi", WouldBlock).out == "?hi"
  {
  }

  // ---------- dispatch of one poll result ----------

  datatype Callback = CloseCb | ErrorCb | ReadCb | WriteCb

  /** Channel::handleEventWithGuard: which callbacks run, in this order. */
  function Dispatch(revents: Events): seq<Callback> {
    (if HasBits(revents, EPOLLHUP) && !HasBits(revents, EPOLLIN) then [CloseCb] else [])
    + (if HasBits(revents, EPOLLERR) then [ErrorCb] else [])
    + (if HasBits(revents, READ_EVENT) then [ReadCb] else [])
    + (if HasBits(revents, EPOLLOUT) then [WriteCb] else [])
  }

  function RunCallback(c: Conn, cb: Callback, r: ReadOutcome, w: WriteOutcome): Conn {
    match cb
    case CloseCb => HandleClose(c)
    case ErrorCb => c
    case ReadCb => HandleRead(c, r)
    case WriteCb => if Answers(w, c.out) then HandleWrite(c, w) else c
  }

  function RunCallbacks(c: Conn, cbs: seq<Callback>, r: ReadOutcome, w: WriteOutcome): Conn
    decreases |cbs|
  {
    if cbs == [] then c else RunCallbacks(RunCallback(c, cbs[0], r, w), cbs[1..], r, w)
  }

  function Closes(cbs: seq<Callback>, r: ReadOutcome): nat {
    if cbs == [] then 0 else
      (if cbs[0].CloseCb? || (cbs[0].ReadCb? && r.Eof?) then 1 else 0) + Closes(cbs[1..], r)
  }

  lemma {:induction false} ClosesCounted(c: Conn, cbs: seq<Callback>, r: ReadOutcome, w: WriteOutcome)
    ensures RunCallbacks(c, cbs, r, w).closes == c.closes + Closes(cbs, r)
    decreases |cbs|
  {
    if cbs != [] {
      ClosesCounted(RunCallback(c, cbs[0], r, w), cbs[1..], r, w);
    }
  }

  /** One dispatch closes a connection twice exactly for a hang-up with urgent but no normal data, at end of stream. */
  lemma DoubleCloseExactly(c: Conn, revents: Events, r: ReadOutcome, w: WriteOutcome)
    ensures RunCallbacks(c, Dispatch(revents), r, w).closes <= c.closes + 2
    ensures RunCallbacks(c, Dispatch(revents), r, w).closes == c.closes + 2 <==>
            HasBits(revents, EPOLLHUP) && !HasBits(revents, EPOLLIN) && HasBits(revents, EPOLLPRI) && r.Eof?
  {
    ClosesCounted(c, Dispatch(revents), r, w);
    DispatchCloses(revents, r);
    ReadBits(revents);
  }

  function Place(cb: Callback): nat {
    match cb
    case CloseCb => 0
    case ErrorCb => 1
    case ReadCb => 2
    case WriteCb => 3
  }

  /** Each callback runs at most once, in this order, and exactly when its events are reported. */
  lemma DispatchExactly(revents: Events)
    ensures var cbs := Dispatch(revents);
            && (forall i, j :: 0 <= i < j < |cbs| ==> Place(cbs[i]) < Place(cbs[j]))
            && (CloseCb in cbs <==> HasBits(revents, EPOLLHUP) && !HasBits(revents, EPOLLIN))
            && (ErrorCb in cbs <==> HasBits(revents, EPOLLERR))
            && (ReadCb in cbs <==> HasBits(revents, EPOLLIN) || HasBits(revents, EPOLLPRI))
            && (WriteCb in cbs <==> HasBits(revents, EPOLLOUT))
  {
    hide HasBits, Place;
    ReadBits(revents);
    InOrder(HasBits(revents, EPOLLHUP) && !HasBits(revents, EPOLLIN), HasBits(revents, EPOLLERR),
            HasBits(revents, READ_EVENT), HasBits(revents, EPOLLOUT));
  }

  /** What each callback does to the connection. */
  lemma CallbacksRun(c: Conn, r: ReadOutcome, w: WriteOutcome)
    ensures RunCallback(c, CloseCb, r, w) == Next(c, HangUp) && RunCallback(c, ErrorCb, r, w) == c
    ensures RunCallback(c, ReadCb, r, w) == Next(c, Readable(r))
    ensures Answers(w, c.out) ==> RunCallback(c, WriteCb, r, w) == Next(c, Writable(w))
  {
  }

  lemma InOrder(hup: bool, err: bool, read: bool, write: bool)
    ensures var cbs := (if hup then [CloseCb] else []) + (if err then [ErrorCb] else [])
                       + (if read then [ReadCb] else []) + (if write then [WriteCb] else []);
            && (forall i, j :: 0 <= i < j < |cbs| ==> Place(cbs[i]) < Place(cbs[j]))
            && (CloseCb in cbs <==> hup) && (ErrorCb in cbs <==> err)
            && (ReadCb in cbs <==> read) && (WriteCb in cbs <==> write)
  {
  }

  lemma ReadBits(e: Events)
    ensures HasBits(e, READ_EVENT) <==> HasBits(e, EPOLLIN) || HasBits(e, EPOLLPRI)
  {
  }

  lemma {:induction false} ClosesConcat(a: seq<Callback>, b: seq<Callback>, r: ReadOutcome)
    ensures Closes(a + b, r) == Closes(a, r) + Closes(b, r)
    decreases |a|
  {
    if a == [] {
      assert a + b == b;
    } else {
      assert (a + b)[1..] == a[1..] + b;
      ClosesConcat(a[1..], b, r);
    }
  }

  lemma ClosesOne(r: ReadOutcome)
    ensures Closes([], r) == Closes([ErrorCb], r) == Closes([WriteCb], r) == 0
    ensures Closes([CloseCb], r) == 1 && Closes([ReadCb], r) == if r.Eof? then 1 else 0
  {
    assert [CloseCb][1..] == [] && [ErrorCb][1..] == [] && [ReadCb][1..] == [] && [WriteCb][1..] == [];
  }

  lemma DispatchCloses(revents: Events, r: ReadOutcome)
    ensures Closes(Dispatch(revents), r) ==
            (if HasBits(revents, EPOLLHUP) && !HasBits(revents, EPOLLIN) then 1 else 0)
            + (if HasBits(revents, READ_EVENT) && r.Eof? then 1 else 0)
  {
    var hup := if HasBits(revents, EPOLLHUP) && !HasBits(revents, EPOLLIN) then [CloseCb] else [];
    var err := if HasBits(revents, EPOLLERR) then [ErrorCb] else [];
    var read := if HasBits(revents, READ_EVENT) then [ReadCb] else [];
    var write := if HasBits(revents, EPOLLOUT) then [WriteCb] else [];
    assert Dispatch(revents) == hup + err + read + write;
    hide Dispatch, HasBits, Closes;
    ClosesConcat(hup + err + read, write, r);
    ClosesConcat(hup + err, read, r);
    ClosesConcat(hup, err, r);
    ClosesOne(r);
  }
}
