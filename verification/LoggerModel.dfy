/**
 The asynchronous logger as a state machine: any number of threads append lines under the
 mutex, one back-end thread takes the full buffers under the mutex and writes them outside it.
 A step is what happens between two points where another thread can come in. A buffer is the
 lines it holds.
 */
module LoggerModel {
  import opened LogStreams

  type Line = string

  /** Where the back end stands: before its locked section, behind it, or about to write buffer i. */
  datatype Phase = AtLock | AtTrim | AtWrite(i: nat)

  datatype Logger = Logger(
    current: seq<Line>, hasNext: bool, full: seq<seq<Line>>,
    spare1: bool, spare2: bool, batch: seq<seq<Line>>, phase: Phase, file: seq<Line>)

  datatype Step = Append(line: Line) | Collect | Trim | WriteNext | Recycle

  const MAX_BATCH: nat := 25

  const INIT := Logger([], true, [], true, true, [], AtLock, [])

  function Flat(lines: seq<Line>): string {
    if lines == [] then [] else Flat(lines[..|lines| - 1]) + lines[|lines| - 1]
  }

  function Concat(buffers: seq<seq<Line>>): seq<Line> {
    if buffers == [] then [] else Concat(buffers[..|buffers| - 1]) + buffers[|buffers| - 1]
  }

  lemma FlatAppend(lines: seq<Line>, line: Line)
    ensures Flat(lines + [line]) == Flat(lines) + line
  {
    assert (lines + [line])[..|lines|] == lines;
  }

  /** FixedBuffer::append on the lines of a buffer. */
  function Store(buffer: seq<Line>, line: Line): seq<Line> {
    if LARGE_BUFFER - |Flat(buffer)| > |line| then buffer + [line] else buffer
  }

  predicate Enabled(s: Logger, step: Step) {
    match step
    case Append(_) => true
    case Collect => s.phase == AtLock
    case Trim => s.phase == AtTrim
    case WriteNext => s.phase.AtWrite? && s.phase.i < |s.batch|
    case Recycle => s.phase == AtWrite(|s.batch|)
  }

  /** A step that is not enabled leaves everything as it is. */
  function Next(s: Logger, step: Step): Logger {
    if !Enabled(s, step) then s else
    match step
    case Append(line) =>
      if LARGE_BUFFER - |Flat(s.current)| > |line| then s.(current := s.current + [line])
      else s.(full := s.full + [s.current], current := Store([], line), hasNext := false)
    case Collect =>
      s.(current := [], full := [], batch := s.full + [s.current],
         spare1 := false, spare2 := s.spare2 && s.hasNext, hasNext := true, phase := AtTrim)
    case Trim =>
      s.(batch := if |s.batch| > MAX_BATCH then s.batch[..2] else s.batch, phase := AtWrite(0))
    case WriteNext =>
      s.(file := s.file + s.batch[s.phase.i], phase := AtWrite(s.phase.i + 1))
    case Recycle =>
      s.(spare1 := true, spare2 := true, batch := [], phase := AtLock)
  }

  // ---------- ownership of the buffers ----------

  /** What holds in every reachable state about who holds a buffer. */
  predicate Owned(s: Logger) {
    && (!s.hasNext ==> s.full != [])
    && (s.phase == AtLock ==> s.spare1 && s.spare2 && s.batch == [])
    && (s.phase != AtLock ==> !s.spare1 && s.batch != [] && (!s.spare2 ==> |s.batch| >= 2))
    && (s.phase.AtWrite? ==> s.phase.i <= |s.batch| <= MAX_BATCH)
  }

  /** Enough buffers come back with each batch to refill every spare that was given away. */
  lemma OwnedStep(s: Logger, step: Step)
    requires Owned(s)
    ensures Owned(Next(s, step))
  {
  }

  // ---------- conservation of the lines ----------

  /** Everything accepted and not lost, in the order it was or will be written. */
  function Held(s: Logger): seq<Line> {
    s.file + Concat(Unwritten(s)) + Concat(s.full) + s.current
  }

  function Unwritten(s: Logger): seq<seq<Line>> {
    if s.phase.AtWrite? && s.phase.i <= |s.batch| then s.batch[s.phase.i..] else s.batch
  }

  /** Lines a step loses: one no buffer can hold, or those in the buffers dropped under overload. */
  function Lost(s: Logger, step: Step): nat {
    match step
    case Append(line) => if |line| >= LARGE_BUFFER then 1 else 0
    case Trim => if Enabled(s, step) && |s.batch| > MAX_BATCH then |Concat(s.batch[2..])| else 0
    case _ => 0
  }

  function Accepted(step: Step): seq<Line> {
    if step.Append? then [step.line] else []
  }

  lemma {:induction false} ConcatSplit(a: seq<seq<Line>>, b: seq<seq<Line>>)
    ensures Concat(a + b) == Concat(a) + Concat(b)
    decreases |b|
  {
    if b == [] {
      assert a + b == a;
    } else {
      assert (a + b)[..|a + b| - 1] == a + b[..|b| - 1];
      ConcatSplit(a, b[..|b| - 1]);
    }
  }

  lemma ConcatOne(b: seq<Line>)
    ensures Concat([b]) == b
  {
    assert [b][..0] == [];
  }

  /** Order-preserving selection of whole lines. */
  predicate Selection(a: seq<Line>, b: seq<Line>) {
    a == [] ||
    (b != [] && (Selection(a, b[..|b| - 1]) ||
                 (a[|a| - 1] == b[|b| - 1] && Selection(a[..|a| - 1], b[..|b| - 1]))))
  }

  lemma {:induction false} SelectionSkip(a: seq<Line>, b: seq<Line>, x: Line)
    requires Selection(a, b)
    ensures Selection(a, b + [x]) && Selection(a + [x], b + [x])
  {
    assert (b + [x])[..|b|] == b;
    assert (a + [x])[..|a|] == a;
  }

  /** Taking a stretch out of a selection leaves a selection. */
  lemma {:induction false} SelectionCut(a: seq<Line>, m: seq<Line>, c: seq<Line>, b: seq<Line>)
    requires Selection(a + m + c, b)
    ensures Selection(a + c, b)
    decreases |b|, |m|
  {
    var whole := a + m + c;
    if a + c == [] || b == [] {
      assert whole == [] ==> a + c == [];
    } else if Selection(whole, b[..|b| - 1]) {
      SelectionCut(a, m, c, b[..|b| - 1]);
    } else if c != [] {
      assert whole[..|whole| - 1] == a + m + c[..|c| - 1];
      SelectionCut(a, m, c[..|c| - 1], b[..|b| - 1]);
      assert (a + c)[..|a + c| - 1] == a + c[..|c| - 1];
    } else if m != [] {
      var shorter := m[..|m| - 1];
      assert whole[..|whole| - 1] == a + shorter + c;
      SelectionCut(a, shorter, c, b[..|b| - 1]);
    } else {
      assert whole == a + c;
    }
  }

  lemma {:induction false} SelectionLength(a: seq<Line>, b: seq<Line>)
    requires Selection(a, b)
    ensures |a| <= |b| && (|a| == |b| ==> a == b)
    decreases |b|
  {
    if a != [] {
      var shorter := b[..|b| - 1];
      if Selection(a, shorter) {
        SelectionLength(a, shorter);
      } else {
        SelectionLength(a[..|a| - 1], shorter);
        assert a == a[..|a| - 1] + [a[|a| - 1]] && b == shorter + [b[|b| - 1]];
      }
    }
  }

  lemma HeldAppend(s: Logger, line: Line)
    ensures Held(Next(s, Append(line))) == Held(s) + if |line| < LARGE_BUFFER then [line] else []
  {
    var added := if |line| < LARGE_BUFFER then [line] else [];
    if LARGE_BUFFER - |Flat(s.current)| > |line| {
      assert Next(s, Append(line)) == s.(current := s.current + added);
      hide Flat, Next;
      Regroup(s.file, Concat(Unwritten(s)), Concat(s.full), s.current, added);
    } else {
      assert Next(s, Append(line)) == s.(full := s.full + [s.current], current := added, hasNext := false) by {
        assert Flat([]) == [];
      }
      hide Flat, Store, Next;
      AppendOne(s.full, s.current);
      Regroup(s.file, Concat(Unwritten(s)), Concat(s.full), s.current, added);
    }
  }

  lemma Regroup(f: seq<Line>, u: seq<Line>, c: seq<Line>, d: seq<Line>, e: seq<Line>)
    ensures f + u + (c + d) + e == f + u + c + d + e
    ensures f + u + c + (d + e) == f + u + c + d + e
    ensures f + (u + c) + d + e == (f + u) + c + (d + e)
    ensures f + u + d + e == (f + u) + (d + e)
  {
  }

  lemma AppendOne(buffers: seq<seq<Line>>, b: seq<Line>)
    ensures Concat(buffers + [b]) == Concat(buffers) + b
  {
    assert (buffers + [b])[..|buffers|] == buffers;
  }

  lemma HeldCollect(s: Logger)
    requires Owned(s)
    ensures Held(Next(s, Collect)) == Held(s)
  {
    AppendOne(s.full, s.current);
  }

  /** The locked section gives the first spare away, and the second exactly when there is no next buffer. */
  lemma SparesGiven(s: Logger)
    requires s.phase == AtLock && s.spare1 && s.spare2
    ensures var n := Next(s, Collect); !n.spare1 && n.hasNext && (n.spare2 <==> s.hasNext)
  {
  }

  lemma HeldWrite(s: Logger)
    requires Enabled(s, WriteNext)
    ensures Held(Next(s, WriteNext)) == Held(s)
  {
    hide Concat;
    var i := s.phase.i;
    var u, c, d := s.batch[i], Concat(s.batch[i + 1..]), Concat(s.full);
    assert s.batch[i..] == [u] + s.batch[i + 1..];
    ConcatSplit([u], s.batch[i + 1..]);
    ConcatOne(u);
    assert Concat(Unwritten(s)) == u + c && Concat(Unwritten(Next(s, WriteNext))) == c;
    WritesOne(s.file, u, c, d, s.current);
  }

  lemma WritesOne(f: seq<Line>, u: seq<Line>, c: seq<Line>, d: seq<Line>, e: seq<Line>)
    ensures f + u + c + d + e == f + (u + c) + d + e
  {
    assert f + u + c == f + (u + c);
  }

  lemma HeldRecycle(s: Logger)
    ensures Held(Next(s, Recycle)) == Held(s)
  {
    assert Enabled(s, Recycle) ==> Unwritten(s) == [];
  }

  lemma HeldTrim(s: Logger) returns (a: seq<Line>, m: seq<Line>, c: seq<Line>)
    requires Enabled(s, Trim)
    ensures Held(s) == a + m + c && Held(Next(s, Trim)) == a + c && |m| == Lost(s, Trim)
  {
    var kept := if |s.batch| > MAX_BATCH then s.batch[..2] else s.batch;
    m := if |s.batch| > MAX_BATCH then Concat(s.batch[2..]) else [];
    a, c := s.file + Concat(kept), Concat(s.full) + s.current;
    if |s.batch| > MAX_BATCH {
      assert s.batch == s.batch[..2] + s.batch[2..];
      ConcatSplit(s.batch[..2], s.batch[2..]);
    }
    assert Unwritten(Next(s, Trim)) == kept && Unwritten(s) == s.batch && Concat(s.batch) == Concat(kept) + m;
    hide Concat, Unwritten;
    Regroup(s.file, Concat(kept), m, Concat(s.full), s.current);
  }

  /** A step keeps what is held, up to the line it accepts and the lines it loses. */
  lemma HeldStep(s: Logger, step: Step, seen: seq<Line>)
    requires Owned(s) && Selection(Held(s), seen)
    ensures Selection(Held(Next(s, step)), seen + Accepted(step))
    ensures |Held(Next(s, step))| + Lost(s, step) == |Held(s)| + |Accepted(step)|
  {
    hide Concat, Flat, Selection, Held, Owned;
    assert seen + [] == seen;
    match step
    case Append(line) =>
      HeldAppend(s, line);
      SelectionSkip(Held(s), seen, line);
      assert Held(s) + [] == Held(s);
    case Collect => HeldCollect(s);
    case Trim =>
      if Enabled(s, step) {
        var a, m, c := HeldTrim(s);
        SelectionCut(a, m, c, seen);
      }
    case WriteNext =>
      if Enabled(s, step) {
        HeldWrite(s);
      }
    case Recycle => HeldRecycle(s);
  }

  // ---------- whole runs ----------

  function Run(s: Logger, steps: seq<Step>): Logger
    decreases |steps|
  {
    if steps == [] then s else Run(Next(s, steps[0]), steps[1..])
  }

  function Appended(steps: seq<Step>): seq<Line> {
    if steps == [] then [] else Accepted(steps[0]) + Appended(steps[1..])
  }

  function LostIn(s: Logger, steps: seq<Step>): nat
    decreases |steps|
  {
    if steps == [] then 0 else Lost(s, steps[0]) + LostIn(Next(s, steps[0]), steps[1..])
  }

  lemma {:induction false} RunFrom(s: Logger, steps: seq<Step>, seen: seq<Line>)
    requires Owned(s) && Selection(Held(s), seen)
    ensures Owned(Run(s, steps))
    ensures Selection(Held(Run(s, steps)), seen + Appended(steps))
    ensures |Held(Run(s, steps))| + LostIn(s, steps) == |Held(s)| + |Appended(steps)|
    decreases |steps|
  {
    hide Selection, Held, Lost, Next, Accepted, Owned;
    if steps == [] {
      assert seen + Appended(steps) == seen;
    } else {
      var step, rest := steps[0], steps[1..];
      OwnedStep(s, step);
      HeldStep(s, step, seen);
      RunFrom(Next(s, step), rest, seen + Accepted(step));
      assert seen + Accepted(step) + Appended(rest) == seen + Appended(steps);
    }
  }

  /**
   For every interleaving of appenders with the back end: what is written or still held is an
   order-preserving selection of whole appended lines, it is short of them by exactly the lines
   lost, and so it is all of them exactly when none was lost.
   */
  lemma Conservation(steps: seq<Step>)
    ensures var s := Run(INIT, steps);
            && Owned(s)
            && Selection(Held(s), Appended(steps))
            && |Held(s)| + LostIn(INIT, steps) == |Appended(steps)|
            && (Held(s) == Appended(steps) <==> LostIn(INIT, steps) == 0)
  {
    RunFrom(INIT, steps, []);
    assert [] + Appended(steps) == Appended(steps);
    SelectionLength(Held(Run(INIT, steps)), Appended(steps));
  }

  /** The steps that lose nothing: every line fits a buffer and no batch exceeds 25 buffers. */
  predicate Calm(s: Logger, steps: seq<Step>)
    decreases |steps|
  {
    steps == [] ||
    ((steps[0].Append? ==> |steps[0].line| < LARGE_BUFFER)
     && (steps[0].Trim? ==> |s.batch| <= MAX_BATCH)
     && Calm(Next(s, steps[0]), steps[1..]))
  }

  lemma {:induction false} CalmLosesNothing(s: Logger, steps: seq<Step>)
    requires Calm(s, steps)
    ensures LostIn(s, steps) == 0
    decreases |steps|
  {
    if steps != [] {
      CalmLosesNothing(Next(s, steps[0]), steps[1..]);
    }
  }

  /** Without overload and over-long lines nothing is lost, duplicated or reordered. */
  lemma CalmConservation(steps: seq<Step>)
    requires Calm(INIT, steps)
    ensures Held(Run(INIT, steps)) == Appended(steps)
  {
    Conservation(steps);
    CalmLosesNothing(INIT, steps);
  }

  // ---------- a round of the back end, whatever is appended meanwhile ----------

  /** What a round writes of the buffers it took: all of them, or the first two of more than 25. */
  function ToWrite(taken: seq<seq<Line>>): seq<seq<Line>> {
    if |taken| > MAX_BATCH then taken[..2] else taken
  }

  /** Where a round stands that took these buffers, and what it has added to the file. */
  predicate Writing(s: Logger, taken: seq<seq<Line>>, file: seq<Line>) {
    match s.phase
    case AtLock => false
    case AtTrim => s.batch == taken && s.file == file
    case AtWrite(i) => s.batch == ToWrite(taken) && i <= |s.batch| && s.file == file + Concat(s.batch[..i])
  }

  lemma WritingStep(s: Logger, step: Step, taken: seq<seq<Line>>, file: seq<Line>)
    requires Writing(s, taken, file) && step != Recycle
    ensures Writing(Next(s, step), taken, file)
  {
    hide Concat, Flat, Store;
    if Enabled(s, step) {
      match step
      case WriteNext => WritesNext(s, taken, file);
      case Trim => TrimsFirst(s, taken, file);
      case _ =>
    }
  }

  lemma WritesNext(s: Logger, taken: seq<seq<Line>>, file: seq<Line>)
    requires Writing(s, taken, file) && Enabled(s, WriteNext)
    ensures Writing(Next(s, WriteNext), taken, file)
  {
    hide Concat;
    var i := s.phase.i;
    assert s.batch[..i + 1] == s.batch[..i] + [s.batch[i]];
    AppendOne(s.batch[..i], s.batch[i]);
    Join(file, Concat(s.batch[..i]), s.batch[i]);
  }

  lemma Join(a: seq<Line>, b: seq<Line>, c: seq<Line>)
    ensures a + b + c == a + (b + c) && a + [] == a
  {
  }

  lemma TrimsFirst(s: Logger, taken: seq<seq<Line>>, file: seq<Line>)
    requires Writing(s, taken, file) && Enabled(s, Trim)
    ensures Writing(Next(s, Trim), taken, file)
  {
    var n := Next(s, Trim);
    assert n.batch[..0] == [] && Concat([]) == [];
    hide Concat;
    Join(file, [], []);
  }

  lemma {:induction false} WritingRun(s: Logger, steps: seq<Step>, taken: seq<seq<Line>>, file: seq<Line>)
    requires Writing(s, taken, file) && Recycle !in steps
    ensures Writing(Run(s, steps), taken, file)
    decreases |steps|
  {
    if steps != [] {
      assert steps[0] in steps && forall x <- steps[1..] :: x in steps;
      WritingStep(s, steps[0], taken, file);
      hide Writing;
      WritingRun(Next(s, steps[0]), steps[1..], taken, file);
    }
  }

  /**
   In every interleaving a round of the back end that runs to its end has added to the file, in order,
   every line the front end held when it took the buffers, or on overload those of the first two of them;
   the front end starts over empty, and the spares are there again.
   */
  lemma RoundWrites(s: Logger, during: seq<Step>)
    requires s.phase == AtLock && Recycle !in during && Enabled(Run(Next(s, Collect), during), Recycle)
    ensures var taken := s.full + [s.current];
            var e := Next(Run(Next(s, Collect), during), Recycle);
            && e.file == s.file + Concat(ToWrite(taken)) && e.phase == AtLock
            && Next(s, Collect).full == [] && Next(s, Collect).current == []
            && e.batch == [] && e.spare1 && e.spare2
  {
    var taken := s.full + [s.current];
    WritingRun(Next(s, Collect), during, taken, s.file);
    var e := Run(Next(s, Collect), during);
    assert e.batch[..|e.batch|] == e.batch;
  }

  /** And a round can always be run to its end. */
  lemma RoundCanEnd(s: Logger)
    requires s.phase == AtTrim || (s.phase.AtWrite? && s.phase.i <= |s.batch|)
    ensures exists steps :: Recycle !in steps && Enabled(Run(s, steps), Recycle)
    decreases if s.phase.AtTrim? then 1 else 0
  {
    hide Concat;
    if s.phase.AtTrim? {
      RoundCanEnd(Next(s, Trim));
      var later :| Recycle !in later && Enabled(Run(Next(s, Trim), later), Recycle);
      assert ([Trim] + later)[1..] == later && Run(s, [Trim] + later) == Run(Next(s, Trim), later);
    } else {
      WriteCanEnd(s);
    }
  }

  lemma {:induction false} WriteCanEnd(s: Logger)
    requires s.phase.AtWrite? && s.phase.i <= |s.batch|
    ensures exists steps :: Recycle !in steps && Enabled(Run(s, steps), Recycle)
    decreases |s.batch| - s.phase.i
  {
    if s.phase.i == |s.batch| {
      assert Run(s, []) == s && Recycle !in [];
    } else {
      WriteCanEnd(Next(s, WriteNext));
      var later :| Recycle !in later && Enabled(Run(Next(s, WriteNext), later), Recycle);
      assert ([WriteNext] + later)[1..] == later;
      assert Recycle !in [WriteNext] + later && Run(s, [WriteNext] + later) == Run(Next(s, WriteNext), later);
    }
  }
}
