/**
 The asynchronous logger itself: buffers owned by exactly one pointer, moved between the front
 end and the back end. Each method is one atomic section of the code; `model` is the state of
 LoggerModel it is in.
 */
module AsyncLoggings {
  import opened LogStreams
  import opened LoggerModel

  /** The unique_ptr that owns a buffer: a member, a local of the back end, or an element of a vector. */
  datatype Owner = Current | NextSpare | Full(i: nat) | Spare1 | Spare2 | Batch(i: nat)

  datatype Slot = Slot(owner: Owner, lines: seq<Line>)

  /** For every buffer ever made its owner, a single one, and the lines it holds. */
  type Record = map<FixedBuffer, Slot>

  datatype Pointers = Pointers(
    current: FixedBuffer?, next: FixedBuffer?, full: seq<FixedBuffer>,
    spare1: FixedBuffer?, spare2: FixedBuffer?, batch: seq<FixedBuffer>)

  ghost predicate At(held: Record, b: FixedBuffer?, owner: Owner, lines: seq<Line>) {
    b != null && b in held && held[b] == Slot(owner, lines)
  }

  ghost predicate SpareAt(held: Record, b: FixedBuffer?, owner: Owner, present: bool) {
    if present then At(held, b, owner, []) else b == null
  }

  ghost predicate FullAt(held: Record, bs: seq<FixedBuffer>, contents: seq<seq<Line>>) {
    |bs| == |contents| && forall i :: 0 <= i < |bs| ==> At(held, bs[i], Full(i), contents[i])
  }

  ghost predicate BatchAt(held: Record, bs: seq<FixedBuffer>, contents: seq<seq<Line>>) {
    |bs| == |contents| && forall i :: 0 <= i < |bs| ==> At(held, bs[i], Batch(i), contents[i])
  }

  /** The pointers hold what the model says, and no buffer is held by two of them. */
  ghost predicate Placed(p: Pointers, held: Record, s: Logger) {
    && At(held, p.current, Current, s.current)
    && SpareAt(held, p.next, NextSpare, s.hasNext)
    && SpareAt(held, p.spare1, Spare1, s.spare1) && SpareAt(held, p.spare2, Spare2, s.spare2)
    && FullAt(held, p.full, s.full) && BatchAt(held, p.batch, s.batch)
  }

  lemma PlacedStore(p: Pointers, held: Record, s: Logger, lines: seq<Line>)
    requires Placed(p, held, s) && Owned(s)
    ensures Placed(p, held[p.current := Slot(Current, lines)], s.(current := lines))
    ensures Owned(s.(current := lines))
  {
  }

  function Rotated(s: Logger): Logger {
    s.(full := s.full + [s.current], current := [], hasNext := false)
  }

  lemma PlacedRotate(p: Pointers, held: Record, s: Logger, b: FixedBuffer)
    requires Placed(p, held, s)
    requires At(held, b, NextSpare, []) && (p.next != null ==> p.next == b)
    ensures Placed(p.(full := p.full + [p.current], current := b, next := null),
                   held[p.current := Slot(Full(|p.full|), s.current)][b := Slot(Current, [])], Rotated(s))
  {
  }

  /** The swap under the mutex, seen by each buffer: queued ones and the current one join the batch. */
  function Relabel(slot: Slot, n: nat, hadNext: bool): Slot {
    match slot.owner
    case Full(i) => slot.(owner := Batch(i))
    case Current => slot.(owner := Batch(n))
    case Spare1 => slot.(owner := Current)
    case Spare2 => if hadNext then slot else slot.(owner := NextSpare)
    case _ => slot
  }

  ghost function RelabelAll(held: Record, n: nat, hadNext: bool): Record {
    map b <- held :: Relabel(held[b], n, hadNext)
  }

  ghost function Collected(p: Pointers): Pointers
    requires p.current != null
  {
    Pointers(p.spare1, if p.next == null then p.spare2 else p.next, [],
             null, if p.next == null then null else p.spare2, p.full + [p.current])
  }

  lemma PlacedCollect(p: Pointers, held: Record, s: Logger)
    requires Placed(p, held, s) && s.phase == AtLock && Owned(s)
    ensures p.current != null && Placed(Collected(p), RelabelAll(held, |p.full|, s.hasNext), Next(s, Collect))
  {
    assert s.spare1 && s.spare2 && s.batch == [];
  }

  lemma PlacedTrim(p: Pointers, held: Record, s: Logger)
    requires Placed(p, held, s) && s.phase == AtTrim
    ensures Placed(p.(batch := if |p.batch| > MAX_BATCH then p.batch[..2] else p.batch), held, Next(s, Trim))
  {
  }

  /** The one buffer each array belongs to. */
  type Storage = map<array<char>, FixedBuffer>

  ghost predicate Holds(b: FixedBuffer, lines: seq<Line>)
    reads b, b.data
  {
    b.Valid() && b.data.Length == LARGE_BUFFER && b.Contents() == Flat(lines)
  }

  /** Every buffer holds the lines recorded for it, in storage of its own. */
  ghost predicate Stored(held: Record, storage: Storage)
    reads held.Keys, storage.Keys
  {
    forall b <- held.Keys :: b.data in storage && storage[b.data] == b && Holds(b, held[b].lines)
  }

  lemma StoredMoved(held: Record, storage: Storage, moved: Record)
    requires Stored(held, storage) && moved.Keys == held.Keys
    requires forall b <- held.Keys :: moved[b].lines == held[b].lines
    ensures Stored(moved, storage)
  {
  }

  lemma CollectMoves(p: Pointers, held: Record, storage: Storage, s: Logger)
    requires Placed(p, held, s) && Stored(held, storage) && Owned(s) && s.phase == AtLock
    ensures var moved := RelabelAll(held, |p.full|, s.hasNext);
            && p.current != null && p.batch == []
            && moved.Keys == held.Keys && Stored(moved, storage) && Owned(Next(s, Collect))
            && Next(s, Collect).file == s.file
            && Placed(Collected(p), moved, Next(s, Collect))
  {
    PlacedCollect(p, held, s);
    StoredMoved(held, storage, RelabelAll(held, |p.full|, s.hasNext));
  }

  lemma TrimMoves(p: Pointers, held: Record, s: Logger)
    requires Placed(p, held, s) && Owned(s) && s.phase == AtTrim
    ensures Owned(Next(s, Trim)) && Next(s, Trim).file == s.file
    ensures Placed(p.(batch := if |p.batch| > MAX_BATCH then p.batch[..2] else p.batch), held, Next(s, Trim))
  {
    PlacedTrim(p, held, s);
  }

  lemma BatchPlaced(p: Pointers, held: Record, storage: Storage, s: Logger)
    requires Placed(p, held, s) && Stored(held, storage)
    ensures |p.batch| == |s.batch|
    ensures forall i :: 0 <= i < |p.batch| ==> p.batch[i] in held && p.batch[i].Valid() && p.batch[i].data in storage
  {
    assert forall i :: 0 <= i < |p.batch| ==> At(held, p.batch[i], Batch(i), s.batch[i]);
    assert forall b <- held.Keys :: Holds(b, held[b].lines);
  }

  lemma {:induction false} FlatSplit(a: seq<Line>, b: seq<Line>)
    ensures Flat(a + b) == Flat(a) + Flat(b)
    decreases |b|
  {
    if b == [] {
      assert a + b == a;
    } else {
      hide Flat;
      var front, last := b[..|b| - 1], b[|b| - 1];
      FlatSplit(a, front);
      FlatAppend(front, last);
      FlatAppend(a + front, last);
      assert b == front + [last] && a + b == a + front + [last];
      assert Flat(a) + Flat(front) + last == Flat(a) + (Flat(front) + last);
    }
  }

  lemma ConcatPrefix(batch: seq<seq<Line>>, i: nat)
    requires i <= |batch|
    ensures i < |batch| ==> Concat(batch[..i + 1]) == Concat(batch[..i]) + batch[i]
    ensures i == 0 ==> Concat(batch[..i]) == []
  {
    if i < |batch| {
      assert batch[..i + 1] == batch[..i] + [batch[i]];
      AppendOne(batch[..i], batch[i]);
    }
  }

  lemma WriteMoves(p: Pointers, held: Record, storage: Storage, s: Logger)
    requires Placed(p, held, s) && Stored(held, storage) && Owned(s) && Enabled(s, WriteNext)
    ensures var i := s.phase.i;
            && |p.batch| == |s.batch| && p.batch[i] in held && p.batch[i].Valid() && p.batch[i].data in storage
            && Next(s, WriteNext) == s.(file := s.file + s.batch[i], phase := AtWrite(i + 1))
            && Placed(p, held, Next(s, WriteNext)) && Owned(Next(s, WriteNext))
            && Flat(Next(s, WriteNext).file) == Flat(s.file) + p.batch[i].Contents()
  {
    var i := s.phase.i;
    assert At(held, p.batch[i], Batch(i), s.batch[i]);
    assert Holds(p.batch[i], s.batch[i]);
    FlatSplit(s.file, s.batch[i]);
  }

  /** The batch after resize(2), whose last buffers refill the spares. */
  function Kept(p: Pointers): seq<FixedBuffer> {
    if |p.batch| > 2 then p.batch[..2] else p.batch
  }

  ghost predicate Refillable(p: Pointers, held: Record) {
    && |Kept(p)| >= (if p.spare2 == null then 2 else 1)
    && forall i :: 0 <= i < |Kept(p)| ==> Kept(p)[i] in held
  }

  ghost function RecycledPtrs(p: Pointers): Pointers
    requires |Kept(p)| >= if p.spare2 == null then 2 else 1
  {
    var t := Kept(p);
    p.(spare1 := t[|t| - 1], spare2 := if p.spare2 == null then t[|t| - 2] else p.spare2, batch := [])
  }

  ghost function RecycledRecord(p: Pointers, held: Record): Record
    requires |Kept(p)| >= if p.spare2 == null then 2 else 1
  {
    var t := Kept(p);
    var h := held[t[|t| - 1] := Slot(Spare1, [])];
    if p.spare2 == null then h[t[|t| - 2] := Slot(Spare2, [])] else h
  }

  lemma RecycleMoves(p: Pointers, held: Record, s: Logger)
    requires Placed(p, held, s) && Owned(s) && s.phase == AtWrite(|s.batch|)
    ensures p.spare1 == null && Refillable(p, held)
    ensures Owned(Next(s, Recycle)) && Next(s, Recycle).file == s.file
    ensures RecycledRecord(p, held).Keys == held.Keys
    ensures Placed(RecycledPtrs(p), RecycledRecord(p, held), Next(s, Recycle))
  {
    var t := Kept(p);
    assert forall i :: 0 <= i < |t| ==> At(held, t[i], Batch(i), s.batch[i]);
  }

  lemma SparesEmpty(p: Pointers, held: Record, storage: Storage, s: Logger)
    requires Placed(p, held, s) && Stored(held, storage) && s.spare1 && s.spare2
    ensures p.spare1 != null && p.spare2 != null && p.spare1.cur == 0 && p.spare2.cur == 0
  {
    assert Holds(p.spare1, []) && Holds(p.spare2, []);
    assert Flat([]) == [];
  }

  /** A recycled buffer is emptied and gets its new owner. */
  method ResetIn(b: FixedBuffer, ghost held: Record, ghost storage: Storage, ghost owner: Owner)
    requires Stored(held, storage) && b in held
    modifies b
    ensures Stored(held[b := Slot(owner, [])], storage) && b.cur == 0
  {
    assert Holds(b, held[b].lines);
    b.Reset();
    assert Holds(b, []) by { assert Flat([]) == []; }
    hide Flat;
  }

  method StoreOne(b: FixedBuffer, logline: string, ghost lines: seq<Line>)
    requires Holds(b, lines) && |logline| < INT_LIMIT
    modifies b, b.data
    ensures Holds(b, Store(lines, logline))
  {
    FlatAppend(lines, logline);
    hide Flat;
    b.Append(logline);
  }

  lemma SeparateStorage(held: Record, storage: Storage, b: FixedBuffer)
    requires Stored(held, storage) && b in held
    ensures Holds(b, held[b].lines)
    ensures forall c <- held.Keys :: c != b ==> c.data != b.data
  {
  }

  /** One line goes into one buffer; every other buffer keeps its lines. */
  method StoreIn(b: FixedBuffer, logline: string, ghost held: Record, ghost storage: Storage)
    requires Stored(held, storage) && b in held && |logline| < INT_LIMIT
    modifies b, b.data
    ensures Stored(held[b := held[b].(lines := Store(held[b].lines, logline))], storage)
  {
    SeparateStorage(held, storage, b);
    hide Holds;
    StoreOne(b, logline, held[b].lines);
  }

  ghost function RotatedRecord(p: Pointers, held: Record, s: Logger, b: FixedBuffer): Record
    requires p.current != null
  {
    held[p.current := Slot(Full(|p.full|), s.current)][b := Slot(Current, [])]
  }

  lemma CurrentPlaced(p: Pointers, held: Record, storage: Storage, s: Logger)
    requires Placed(p, held, s) && Stored(held, storage)
    ensures At(held, p.current, Current, s.current) && Holds(p.current, s.current)
    ensures p.current.data in storage
    ensures p.next != null ==> At(held, p.next, NextSpare, [])
  {
  }

  lemma RotateMoves(p: Pointers, held: Record, storage: Storage, s: Logger, b: FixedBuffer)
    requires Placed(p, held, s) && Stored(held, storage) && Owned(s)
    requires At(held, b, NextSpare, []) && (p.next != null ==> p.next == b)
    ensures var moved := RotatedRecord(p, held, s, b);
            && moved.Keys == held.Keys && Stored(moved, storage) && Owned(Rotated(s))
            && Placed(p.(full := p.full + [p.current], current := b, next := null), moved, Rotated(s))
  {
    PlacedRotate(p, held, s, b);
    StoredMoved(held, storage, RotatedRecord(p, held, s, b));
  }

  lemma NewBuffer(p: Pointers, held: Record, storage: Storage, s: Logger, b: FixedBuffer)
    requires Placed(p, held, s) && Stored(held, storage)
    requires b !in held && b.data !in storage && b.cur == 0 && b.data.Length == LARGE_BUFFER
    ensures Placed(p, held[b := Slot(NextSpare, [])], s)
    ensures Stored(held[b := Slot(NextSpare, [])], storage[b.data := b])
  {
    assert b.Contents() == Flat([]);
    hide Flat;
  }

  function InitialRecord(b1: FixedBuffer, b2: FixedBuffer, b3: FixedBuffer, b4: FixedBuffer): Record {
    map[b1 := Slot(Current, []), b2 := Slot(NextSpare, []), b3 := Slot(Spare1, []), b4 := Slot(Spare2, [])]
  }

  ghost function InitialStorage(b1: FixedBuffer, b2: FixedBuffer, b3: FixedBuffer, b4: FixedBuffer): Storage {
    map[b1.data := b1, b2.data := b2, b3.data := b3, b4.data := b4]
  }

  lemma InitialBuffers(b1: FixedBuffer, b2: FixedBuffer, b3: FixedBuffer, b4: FixedBuffer)
    requires forall b <- [b1, b2, b3, b4] :: b.cur == 0 && b.data.Length == LARGE_BUFFER
    requires b1.data != b2.data && b1.data != b3.data && b1.data != b4.data
    requires b2.data != b3.data && b2.data != b4.data && b3.data != b4.data
    ensures Stored(InitialRecord(b1, b2, b3, b4), InitialStorage(b1, b2, b3, b4))
    ensures Placed(Pointers(b1, b2, [], b3, b4, []), InitialRecord(b1, b2, b3, b4), INIT)
    ensures InitialRecord(b1, b2, b3, b4).Keys == {b1, b2, b3, b4}
    ensures InitialStorage(b1, b2, b3, b4).Keys == {b1.data, b2.data, b3.data, b4.data}
  {
    var bs := [b1, b2, b3, b4];
    assert bs[0] == b1 && bs[1] == b2 && bs[2] == b3 && bs[3] == b4;
    assert forall b <- bs :: b.Contents() == Flat([]);
    hide Flat;
  }

  lemma AppendSplit(s: Logger, line: Line)
    ensures var r := if LARGE_BUFFER - |Flat(s.current)| > |line| then s else Rotated(s);
            Next(s, Append(line)) == r.(current := Store(r.current, line))
  {
  }

  class AsyncLogging {
    // shared, under the mutex
    var currentBuffer: FixedBuffer?
    var nextBuffer: FixedBuffer?
    var buffers: seq<FixedBuffer>
    // locals of the back-end thread
    var newBuffer1: FixedBuffer?
    var newBuffer2: FixedBuffer?
    var buffersToWrite: seq<FixedBuffer>
    // the log file: append only
    var output: string

    ghost var model: Logger
    ghost var held: Record
    ghost var storage: Storage

    function Ptrs(): Pointers
      reads this
    {
      Pointers(currentBuffer, nextBuffer, buffers, newBuffer1, newBuffer2, buffersToWrite)
    }

    ghost predicate Valid()
      reads this, held.Keys, storage.Keys
    {
      Stored(held, storage) && Placed(Ptrs(), held, model) && Owned(model) && output == Flat(model.file)
    }

    constructor ()
      ensures Valid() && model == INIT
      ensures fresh(held.Keys) && fresh(storage.Keys)
    {
      var b1 := new FixedBuffer(LARGE_BUFFER);
      var b2 := new FixedBuffer(LARGE_BUFFER);
      var b3 := new FixedBuffer(LARGE_BUFFER);
      var b4 := new FixedBuffer(LARGE_BUFFER);
      hide Stored, Placed;
      InitialBuffers(b1, b2, b3, b4);
      currentBuffer, nextBuffer, newBuffer1, newBuffer2 := b1, b2, b3, b4;
      buffers, buffersToWrite, output := [], [], "";
      model, held, storage := INIT, InitialRecord(b1, b2, b3, b4), InitialStorage(b1, b2, b3, b4);
    }

    /** append, under the mutex: of the back end's locals it touches none. */
    method AppendLine(logline: string)
      requires Valid() && |logline| < INT_LIMIT
      modifies this`currentBuffer, this`nextBuffer, this`buffers, this`held, this`storage, this`model
      modifies held.Keys, storage.Keys
      ensures Valid() && model == Next(old(model), Append(logline))
      ensures fresh(held.Keys - old(held.Keys)) && fresh(storage.Keys - old(storage.Keys))
    {
      hide Stored, Placed, Owned, Flat, Next, Store;
      AppendSplit(model, logline);
      var avail := CurrentAvail();
      if avail <= |logline| {
        PushCurrent();
      }
      StoreLine(logline);
    }

    method CurrentAvail() returns (n: int)
      requires Valid()
      ensures n == LARGE_BUFFER - |Flat(model.current)|
    {
      hide Stored, Placed, Flat;
      CurrentPlaced(Ptrs(), held, storage, model);
      n := currentBuffer.Avail();
    }

    /** The full buffer goes to the queue; the spare one or a new one takes its place. */
    method PushCurrent()
      requires Valid()
      modifies this`currentBuffer, this`nextBuffer, this`buffers, this`held, this`storage, this`model
      ensures Valid() && model == Rotated(old(model))
      ensures fresh(held.Keys - old(held.Keys)) && fresh(storage.Keys - old(storage.Keys))
    {
      hide Stored, Placed, Owned, At;
      CurrentPlaced(Ptrs(), held, storage, model);
      var b := nextBuffer;
      if b == null {
        b := Allocate();
      }
      Rotate(b);
    }

    /** A new buffer, on record but not owned by any pointer yet. */
    method Allocate() returns (b: FixedBuffer)
      requires Valid() && nextBuffer == null
      modifies this`held, this`storage
      ensures Valid() && model == old(model) && fresh(b) && fresh(b.data) && At(held, b, NextSpare, [])
      ensures held.Keys == old(held.Keys) + {b} && storage.Keys == old(storage.Keys) + {b.data}
    {
      hide Stored, Placed, Owned;
      b := new FixedBuffer(LARGE_BUFFER);
      NewBuffer(Ptrs(), held, storage, model, b);
      held := held[b := Slot(NextSpare, [])];
      storage := storage[b.data := b];
    }

    method Rotate(b: FixedBuffer)
      requires Valid() && At(held, b, NextSpare, []) && (nextBuffer != null ==> nextBuffer == b)
      modifies this`currentBuffer, this`nextBuffer, this`buffers, this`held, this`model
      ensures Valid() && held.Keys == old(held.Keys) && model == Rotated(old(model))
    {
      hide Placed, Stored, RotatedRecord, Flat, At, Owned;
      CurrentPlaced(Ptrs(), held, storage, model);
      RotateMoves(Ptrs(), held, storage, model, b);
      ghost var moved := RotatedRecord(Ptrs(), held, model, b);
      MovePointers(b);
      held := moved;
      model := Rotated(model);
    }

    method MovePointers(b: FixedBuffer)
      requires currentBuffer != null
      modifies this`currentBuffer, this`nextBuffer, this`buffers
      ensures Ptrs() == old(Ptrs()).(full := old(Ptrs()).full + [old(currentBuffer)], current := b, next := null)
    {
      buffers := buffers + [currentBuffer];
      nextBuffer := null;
      currentBuffer := b;
    }

    method StoreLine(logline: string)
      requires Valid() && |logline| < INT_LIMIT
      modifies this`model, this`held, held.Keys, storage.Keys
      ensures Valid() && held.Keys == old(held.Keys)
      ensures model == old(model).(current := Store(old(model).current, logline))
    {
      hide Placed, Stored, Flat, Store, Owned;
      CurrentPlaced(Ptrs(), held, storage, model);
      var b: FixedBuffer := currentBuffer;
      ghost var lines := Store(model.current, logline);
      PlacedStore(Ptrs(), held, model, lines);
      StoreIn(b, logline, held, storage);
      held := held[b := Slot(Current, lines)];
      model := model.(current := lines);
    }

    /** The locked section of the back end: it takes every buffer and leaves its spares. */
    method Collect()
      requires Valid() && model.phase == AtLock
      modifies this`currentBuffer, this`nextBuffer, this`buffers, this`newBuffer1, this`newBuffer2
      modifies this`buffersToWrite, this`held, this`model
      ensures Valid() && model == Next(old(model), LoggerModel.Collect)
      ensures held.Keys == old(held.Keys)
    {
      hide Placed, Stored, Owned, Flat, Next, RelabelAll;
      CollectMoves(Ptrs(), held, storage, model);
      ghost var moved, after := RelabelAll(held, |buffers|, model.hasNext), Next(model, LoggerModel.Collect);
      hide Collected;
      SwapBuffers();
      held, model := moved, after;
    }

    method SwapBuffers()
      requires currentBuffer != null && buffersToWrite == []
      modifies this`currentBuffer, this`nextBuffer, this`buffers, this`newBuffer1, this`newBuffer2, this`buffersToWrite
      ensures Ptrs() == Collected(old(Ptrs()))
    {
      buffers := buffers + [currentBuffer];
      currentBuffer := newBuffer1;
      newBuffer1 := null;
      buffersToWrite, buffers := buffers, buffersToWrite;
      if nextBuffer == null {
        nextBuffer := newBuffer2;
        newBuffer2 := null;
      }
    }

    // Outside the mutex the back end touches its own locals and the file only.

    /** Under overload all but the first two buffers are dropped. */
    method Trim()
      requires Valid() && model.phase == AtTrim
      modifies this`buffersToWrite, this`model
      ensures Valid() && model == Next(old(model), LoggerModel.Trim)
    {
      hide Placed, Stored, Owned, Flat, Next;
      TrimMoves(Ptrs(), held, model);
      if |buffersToWrite| > MAX_BATCH {
        buffersToWrite := buffersToWrite[..2];
      }
      model := Next(model, LoggerModel.Trim);
    }

    /** The write loop: one WriteNext step for each buffer of the batch, in order. */
    method WriteBatch()
      requires Valid() && model.phase == AtWrite(0)
      modifies this`output, this`model
      ensures Valid()
      ensures model == old(model).(file := old(model).file + Concat(model.batch), phase := AtWrite(|model.batch|))
    {
      hide Placed, Stored, Owned, Flat, Next, Concat;
      BatchPlaced(Ptrs(), held, storage, model);
      ConcatPrefix(model.batch, 0);
      var i := 0;
      while i < |buffersToWrite|
        invariant 0 <= i <= |buffersToWrite| == |model.batch|
        invariant Valid()
        invariant model == old(model).(file := old(model).file + Concat(model.batch[..i]), phase := AtWrite(i))
      {
        WriteMoves(Ptrs(), held, storage, model);
        ConcatPrefix(model.batch, i);
        output := output + buffersToWrite[i].Contents();
        model := Next(model, WriteNext);
        i := i + 1;
      }
      assert model.batch[..i] == model.batch;
    }

    /** The last buffers of the batch become the spares that were given away. */
    method Recycle()
      requires Valid() && model.phase == AtWrite(|model.batch|)
      modifies this`newBuffer1, this`newBuffer2, this`buffersToWrite, this`held, this`model
      modifies held.Keys
      ensures Valid() && model == Next(old(model), LoggerModel.Recycle)
      ensures held.Keys == old(held.Keys)
    {
      hide Placed, Stored, Owned, Flat, Next;
      RecycleMoves(Ptrs(), held, model);
      ghost var p, after := Ptrs(), Next(model, LoggerModel.Recycle);
      hide RecycledPtrs, RecycledRecord;
      RefillSpares();
      held, model := RecycledRecord(p, held), after;
    }

    method RefillSpares()
      requires Stored(held, storage) && newBuffer1 == null && Refillable(Ptrs(), held)
      modifies this`newBuffer1, this`newBuffer2, this`buffersToWrite
      modifies held.Keys
      ensures Ptrs() == RecycledPtrs(old(Ptrs())) && Stored(RecycledRecord(old(Ptrs()), held), storage)
    {
      hide Stored;
      if |buffersToWrite| > 2 {
        buffersToWrite := buffersToWrite[..2];
      }
      ghost var h := held;
      if newBuffer1 == null {
        newBuffer1 := TakeBack(h, Spare1);
        h := h[newBuffer1 := Slot(Spare1, [])];
      }
      if newBuffer2 == null {
        newBuffer2 := TakeBack(h, Spare2);
      }
      buffersToWrite := [];
    }

    /** back().release(), pop_back() and reset(). */
    method TakeBack(ghost h: Record, ghost owner: Owner) returns (b: FixedBuffer)
      requires buffersToWrite != [] && Stored(h, storage) && buffersToWrite[|buffersToWrite| - 1] in h
      modifies this`buffersToWrite, h.Keys
      ensures b == old(buffersToWrite)[|old(buffersToWrite)| - 1]
      ensures buffersToWrite == old(buffersToWrite)[..|old(buffersToWrite)| - 1]
      ensures Stored(h[b := Slot(owner, [])], storage)
    {
      hide Stored;
      b := buffersToWrite[|buffersToWrite| - 1];
      buffersToWrite := buffersToWrite[..|buffersToWrite| - 1];
      ResetIn(b, h, storage, owner);
    }

    /** One round of the back-end loop during which no other thread comes in. */
    method BackEndRound()
      requires Valid() && model.phase == AtLock
      modifies this`currentBuffer, this`nextBuffer, this`buffers, this`newBuffer1, this`newBuffer2
      modifies this`buffersToWrite, this`held, this`model, this`output, held.Keys
      ensures Valid() && model.phase == AtLock && model.full == [] && model.current == []
      ensures var taken := old(model).full + [old(model).current];
              model.file == old(model).file + Concat(if |taken| > MAX_BATCH then taken[..2] else taken)
    {
      hide Placed, Stored, Owned, Flat;
      Collect();
      Trim();
      WriteBatch();
      Recycle();
    }

    /** What the asserts at the head of the back end's loop ask for: both spares there and empty, no batch. */
    lemma RoundStart()
      requires Valid() && model.phase == AtLock
      ensures newBuffer1 != null && newBuffer2 != null && newBuffer1.cur == 0 && newBuffer2.cur == 0
      ensures buffersToWrite == []
    {
      SparesEmpty(Ptrs(), held, storage, model);
    }

    /** And behind the locked section: there is something to write, enough to refill both spares. */
    lemma BatchTaken()
      requires Valid() && model.phase == AtTrim
      ensures newBuffer1 == null && buffersToWrite != [] && (newBuffer2 == null ==> |buffersToWrite| >= 2)
    {
    }
  }
}
