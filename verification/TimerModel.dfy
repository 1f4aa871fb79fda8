/**
 The timer queue as a step system. A step is one call on the loop thread: adding or cancelling a
 timer, or a stage of the timerfd's read handler: taking the expired timers out, running one
 callback (during which timers may be added and cancelled), and putting the repeating ones back.
 */
module TimerModel {
  import opened Bytes

  /** A Timer object, by its address; addresses order timers that expire together. */
  type Id = nat

  const NULL: Id := 0
  const MICROSECONDS_PER_SECOND := 1_000_000

  /** Times are microseconds; a timer repeats when its interval in seconds is positive. */
  datatype Timer = Timer(expiration: int, interval: real) {
    predicate Repeat() { interval > 0.0 }

    /** The interval in whole microseconds, as addTime truncates it. */
    function Delta(): (d: int)
      ensures Repeat() ==> d >= 0
      ensures interval >= 0.0 ==> d as real <= interval * 1_000_000.0 < d as real + 1.0
      ensures interval < 0.0 ==> d as real - 1.0 < interval * 1_000_000.0 <= d as real
    {
      if interval >= 0.0 then (interval * MICROSECONDS_PER_SECOND as real).Floor
      else -((-interval) * MICROSECONDS_PER_SECOND as real).Floor
    }

    function Restarted(now: int): Timer {
      if Repeat() then this.(expiration := now + Delta()) else this.(expiration := 0)
    }
  }

  /** A timer repeats when its interval is positive; restarted, it is due an interval later, and else never. */
  lemma RestartedExactly(t: Timer, now: int)
    ensures t.interval > 0.0 ==> t.Restarted(now) == Timer(now + t.Delta(), t.interval)
    ensures t.interval <= 0.0 ==> !t.Repeat() && t.Restarted(now) == Timer(0, t.interval)
  {
  }

  /** An element of timers_: the time it is filed under, and the timer. */
  datatype Entry = Entry(when: int, id: Id)

  datatype Firing = Firing(id: Id, due: int, at: int)

  datatype Queue = Queue(
    timers: seq<Entry>,     // in the set's order
    table: map<Id, Timer>,  // the timer objects
    active: set<Id>,        // activeTimers_
    calling: bool,          // callingExpiredTimers_
    canceling: set<Id>,     // cancelingTimers_
    armed: Option<int>,     // what the timerfd was last set to and has not yet reached
    now: int,               // of the round under way
    expired: seq<Entry>,    // taken out in this round
    called: nat,            // how many of them had their callback run
    fired: seq<Firing>,     // history: every callback run, in order
    dropped: set<Id>)       // history: repeating timers that were not put back

  const INIT := Queue([], map[], {}, false, {}, None, 0, [], 0, [], {})

  datatype Step = Add(id: Id, timer: Timer) | Cancel(id: Id) | Expire(now: int) | CallNext | EndRound

  // ---------- the ordered set ----------

  /** The order of pairs. */
  predicate Less(a: Entry, b: Entry) {
    a.when < b.when || (a.when == b.when && a.id < b.id)
  }

  predicate Sorted(ts: seq<Entry>) {
    forall i, j :: 0 <= i < j < |ts| ==> Less(ts[i], ts[j])
  }

  /** std::set::lower_bound: how many elements come before e. */
  function LowerBound(ts: seq<Entry>, e: Entry): (k: nat)
    ensures k <= |ts|
  {
    if ts == [] || !Less(ts[0], e) then 0 else 1 + LowerBound(ts[1..], e)
  }

  /** std::set::insert: an element that is there already is not added again. */
  function Inserted(ts: seq<Entry>, e: Entry): seq<Entry> {
    var k := LowerBound(ts, e);
    if k < |ts| && ts[k] == e then ts else ts[..k] + [e] + ts[k..]
  }

  /** std::set::erase. */
  function Erased(ts: seq<Entry>, e: Entry): seq<Entry> {
    if ts == [] then [] else if ts[0] == e then ts[1..] else [ts[0]] + Erased(ts[1..], e)
  }

  lemma {:induction false} LowerBoundSplits(ts: seq<Entry>, e: Entry)
    requires Sorted(ts)
    ensures forall i :: 0 <= i < |ts| ==> (i < LowerBound(ts, e) <==> Less(ts[i], e))
  {
    if ts != [] && Less(ts[0], e) {
      SortedSlice(ts, 1, |ts|);
      LowerBoundSplits(ts[1..], e);
      forall i | 0 <= i < |ts|
        ensures i < LowerBound(ts, e) <==> Less(ts[i], e)
      {
        if i > 0 {
          assert ts[i] == ts[1..][i - 1];
        }
      }
    } else if ts != [] {
      forall i | 0 < i < |ts|
        ensures !Less(ts[i], e)
      {
        assert Less(ts[0], ts[i]);
      }
    }
  }

  lemma SortedSlice(ts: seq<Entry>, lo: nat, hi: nat)
    requires Sorted(ts) && lo <= hi <= |ts|
    ensures Sorted(ts[lo..hi])
  {
    forall i, j | 0 <= i < j < |ts[lo..hi]|
      ensures Less(ts[lo..hi][i], ts[lo..hi][j])
    {
      assert Less(ts[lo + i], ts[lo + j]);
    }
  }

  lemma SpliceSorted(a: seq<Entry>, e: Entry, b: seq<Entry>)
    requires Sorted(a) && Sorted(b) && (forall x <- a :: Less(x, e)) && (forall y <- b :: Less(e, y))
    ensures Sorted(a + [e] + b)
  {
    var r := a + [e] + b;
    forall i, j | 0 <= i < j < |r|
      ensures Less(r[i], r[j])
    {
      if i < |a| {
        assert r[i] == a[i] && Less(a[i], e);
      } else {
        assert r[j] == b[j - |a| - 1] && Less(e, r[j]);
      }
      if j > |a| {
        assert r[j] == b[j - |a| - 1] && Less(e, r[j]);
      }
    }
  }

  /** Insertion keeps the order and adds just that element. */
  lemma InsertedIsSet(ts: seq<Entry>, e: Entry)
    requires Sorted(ts)
    ensures Sorted(Inserted(ts, e))
    ensures forall x :: x in Inserted(ts, e) <==> x in ts || x == e
  {
    hide LowerBound;
    var k := LowerBound(ts, e);
    LowerBoundSplits(ts, e);
    assert Inserted(ts, e) == if k < |ts| && ts[k] == e then ts else ts[..k] + [e] + ts[k..];
    if !(k < |ts| && ts[k] == e) {
      var a, b := ts[..k], ts[k..];
      SortedSlice(ts, 0, k);
      SortedSlice(ts, k, |ts|);
      assert a == ts[0..k] && ts == a + b;
      assert forall y <- b :: Less(e, y) by {
        forall j | 0 <= j < |b|
          ensures Less(e, b[j])
        {
          assert !Less(ts[k + j], e);
          if j > 0 {
            assert Less(ts[k], ts[k + j]) && !Less(ts[k], e);
          }
        }
      }
      SpliceSorted(a, e, b);
    }
  }

  /** The least element after an insertion. */
  lemma InsertedFirst(ts: seq<Entry>, e: Entry)
    requires Sorted(ts)
    ensures Inserted(ts, e) != []
    ensures Inserted(ts, e)[0] == if ts != [] && !Less(e, ts[0]) then ts[0] else e
  {
  }

  // ---------- the calls ----------

  function ExpirationOf(q: Queue, id: Id): int {
    if id in q.table then q.table[id].expiration else 0
  }

  /** What a timer is filed under. */
  function KeyOf(q: Queue, id: Id): Entry {
    Entry(ExpirationOf(q, id), id)
  }

  predicate Repeats(q: Queue, id: Id) {
    id in q.table && q.table[id].Repeat()
  }

  function Ids(ts: seq<Entry>): set<Id> {
    set e <- ts :: e.id
  }

  /** What insert returns: the earliest expiration changes. */
  predicate Earliest(ts: seq<Entry>, when: int) {
    ts == [] || when < ts[0].when
  }

  function Insert(q: Queue, id: Id): Queue {
    q.(timers := Inserted(q.timers, KeyOf(q, id)))
  }

  /** addTimer and addTimerInLoop. */
  function AddTimer(q: Queue, id: Id, timer: Timer): Queue {
    Insert(q.(table := q.table[id := timer]), id).(
      armed := if Earliest(q.timers, timer.expiration) then Some(timer.expiration) else q.armed)
  }

  /** cancelInLoop. */
  function CancelTimer(q: Queue, id: Id): Queue {
    if id in q.active then q.(timers := Erased(q.timers, KeyOf(q, id)), active := q.active - {id})
    else if q.calling then q.(canceling := q.canceling + {id})
    else q
  }

  /** handleRead up to its callbacks, with getExpired; the timerfd has reached its time and is disarmed. */
  function TakeExpired(q: Queue, now: int): Queue {
    var k := LowerBound(q.timers, Entry(now, NULL));
    q.(timers := q.timers[k..], expired := q.timers[..k], active := q.active - Ids(q.timers[..k]),
       calling := true, canceling := {}, called := 0, now := now, armed := None)
  }

  function CallOne(q: Queue): Queue
    requires q.called < |q.expired|
  {
    var e := q.expired[q.called];
    q.(called := q.called + 1, fired := q.fired + [Firing(e.id, e.when, q.now)])
  }

  /** reset, for one of the expired timers. */
  function PutBack(q: Queue, id: Id): Queue {
    if !Repeats(q, id) then q
    else if id in q.canceling then q.(dropped := q.dropped + {id})
    else Insert(q.(table := q.table[id := q.table[id].Restarted(q.now)]), id)
  }

  /** The expiration of the first timer in the set, or what it was last seen to be. */
  function NextExpire(q: Queue, last: int): int {
    if q.timers != [] then ExpirationOf(q, q.timers[0].id) else last
  }

  /** resetTimerfd, for a valid expiration. */
  function Rearmed(q: Queue, expiration: int): Queue {
    if expiration > 0 then q.(armed := Some(expiration)) else q
  }

  /** The loop of reset from its i-th round on; the timerfd is set again in every round. */
  function ResetFrom(q: Queue, i: nat, nextExpire: int): Queue
    decreases |q.expired| - i
  {
    if i >= |q.expired| then q else
      var q1 := PutBack(q, q.expired[i].id);
      var next := NextExpire(q1, nextExpire);
      ResetFrom(Rearmed(q1, next), i + 1, next)
  }

  predicate Enabled(q: Queue, step: Step) {
    match step
    // inside the handler, only a callback can call the queue
    case Add(id, _) => id != NULL && id !in q.table && (q.calling ==> q.called > 0)
    case Cancel(id) => q.calling ==> q.called > 0
    // the timerfd becomes readable, and the clock is past the epoch
    case Expire(now) => !q.calling && q.armed.Some? && now > 0
    case CallNext => q.calling && q.called < |q.expired|
    case EndRound => q.calling && q.called == |q.expired|
  }

  /** A step that is not enabled leaves everything as it is. */
  function Next(q: Queue, step: Step): Queue {
    if !Enabled(q, step) then q else
    match step
    case Add(id, timer) => AddTimer(q, id, timer)
    case Cancel(id) => CancelTimer(q, id)
    case Expire(now) => TakeExpired(q, now)
    case CallNext => CallOne(q)
    case EndRound => ResetFrom(q.(calling := false), 0, 0).(expired := [], called := 0)
  }

  function Run(q: Queue, steps: seq<Step>): Queue
    decreases |steps|
  {
    if steps == [] then q else Run(Next(q, steps[0]), steps[1..])
  }

  // ---------- each timer is filed at most once, under its expiration ----------

  predicate Keyed(q: Queue, ts: seq<Entry>) {
    forall e <- ts :: e.id in q.table && e == KeyOf(q, e.id) && e.id != NULL
  }

  predicate Apart(ts: seq<Entry>, others: seq<Entry>) {
    forall a <- ts, b <- others :: a.id != b.id
  }

  predicate SetOk(q: Queue) {
    Sorted(q.timers) && Keyed(q, q.timers) && q.active == {}
  }

  predicate RoundOk(q: Queue) {
    && Sorted(q.expired) && Keyed(q, q.expired) && Apart(q.timers, q.expired) && q.called <= |q.expired|
    && (!q.calling ==> q.expired == [] && q.called == 0)
    && (q.calling ==> q.now > 0 && forall e <- q.expired :: e.when < q.now)
  }

  predicate Inv(q: Queue) {
    SetOk(q) && RoundOk(q)
  }

  /** No timer is in the set twice, whatever it is filed under. */
  lemma FiledOnce(q: Queue, i: nat, j: nat)
    requires Inv(q) && i < j < |q.timers|
    ensures q.timers[i].id != q.timers[j].id
  {
    assert Less(q.timers[i], q.timers[j]);
  }

  /** What getExpired takes out: in order, exactly those strictly before now. */
  lemma ExpiredExactly(q: Queue, now: int)
    requires Inv(q)
    ensures TakeExpired(q, now).expired + TakeExpired(q, now).timers == q.timers
    ensures forall e <- TakeExpired(q, now).expired :: e.when < now
    ensures forall e <- TakeExpired(q, now).timers :: e.when >= now
  {
    LowerBoundSplits(q.timers, Entry(now, NULL));
  }

  lemma ExpireKeeps(q: Queue, now: int)
    requires Inv(q) && !q.calling && now > 0
    ensures Inv(TakeExpired(q, now))
  {
    hide LowerBound;
    var k := LowerBound(q.timers, Entry(now, NULL));
    var q' := TakeExpired(q, now);
    ExpiredExactly(q, now);
    SortedSlice(q.timers, 0, k);
    SortedSlice(q.timers, k, |q.timers|);
    assert q.timers[0..k] == q'.expired && q.timers[k..|q.timers|] == q'.timers;
    forall i, j | 0 <= i < |q'.expired| && 0 <= j < |q'.timers|
      ensures q'.timers[j].id != q'.expired[i].id
    {
      FiledOnce(q, i, k + j);
    }
  }

  lemma AddKeeps(q: Queue, id: Id, timer: Timer)
    requires Inv(q) && id != NULL && id !in q.table
    ensures Inv(AddTimer(q, id, timer))
  {
    hide Inserted;
    InsertedIsSet(q.timers, Entry(timer.expiration, id));
  }

  // ---------- reset ----------

  predicate Filed(q: Queue, id: Id) {
    KeyOf(q, id) in q.timers
  }

  /** A timer that is among the expired ones from the i-th on. */
  predicate DueFrom(q: Queue, i: nat, id: Id) {
    exists j :: i <= j < |q.expired| && q.expired[j].id == id
  }

  predicate Returns(q: Queue, i: nat, id: Id) {
    DueFrom(q, i, id) && Repeats(q, id) && id !in q.canceling
  }

  predicate Drops(q: Queue, i: nat, id: Id) {
    DueFrom(q, i, id) && Repeats(q, id) && id in q.canceling
  }

  /** What the rest of the loop of reset starts from. */
  predicate ResetOk(q: Queue, i: nat) {
    && SetOk(q) && Sorted(q.expired)
    && (forall j :: i <= j < |q.expired| ==>
          q.expired[j].id in q.table && q.expired[j] == KeyOf(q, q.expired[j].id) && q.expired[j].id != NULL)
    && (forall j, e :: i <= j < |q.expired| && e in q.timers ==> e.id != q.expired[j].id)
  }

  /** What putting one timer back does. */
  lemma PutBackEffect(q: Queue, i: nat)
    requires ResetOk(q, i) && i < |q.expired|
    ensures var id := q.expired[i].id; var q' := PutBack(q, id);
      && ResetOk(q', i + 1) && q' == q.(timers := q'.timers, table := q'.table, dropped := q'.dropped)
      && q'.table == (if Returns(q, i, id) then q.table[id := q.table[id].Restarted(q.now)] else q.table)
      && q'.dropped == (if Drops(q, i, id) then q.dropped + {id} else q.dropped)
      && (forall e ::
            e in q'.timers <==> e in q.timers || (Returns(q, i, id) && e == Entry(q'.table[id].expiration, id)))
  {
    hide Inserted, LowerBound;
    var id := q.expired[i].id;
    var q' := PutBack(q, id);
    assert DueFrom(q, i, id);
    if Returns(q, i, id) {
      InsertedIsSet(q.timers, Entry(q'.table[id].expiration, id));
    }
    forall j | i < j < |q.expired|
      ensures q.expired[j].id != id
    {
      assert Less(q.expired[i], q.expired[j]);
    }
  }

  lemma LaterReturns(q: Queue, i: nat, q2: Queue, id: Id)
    requires ResetOk(q, i) && i < |q.expired|
    requires q2.expired == q.expired && q2.canceling == q.canceling
    requires Repeats(q, id) == Repeats(q2, id)
    ensures Returns(q, i, id) <==> Returns(q2, i + 1, id) || (id == q.expired[i].id && Returns(q, i, id))
    ensures Drops(q, i, id) <==> Drops(q2, i + 1, id) || (id == q.expired[i].id && Drops(q, i, id))
    ensures id == q.expired[i].id ==> !DueFrom(q2, i + 1, id)
  {
    forall j | i < j < |q.expired|
      ensures q.expired[j].id != q.expired[i].id
    {
      assert Less(q.expired[i], q.expired[j]);
    }
    if DueFrom(q, i, id) && id != q.expired[i].id {
      var j :| i <= j < |q.expired| && q.expired[j].id == id;
      assert i + 1 <= j < |q2.expired| && q2.expired[j].id == id;
    }
    if DueFrom(q2, i + 1, id) {
      var j :| i + 1 <= j < |q2.expired| && q2.expired[j].id == id;
      assert i <= j < |q.expired| && q.expired[j].id == id;
    }
  }

  /** What reset makes of one timer, from the i-th round on. */
  predicate Reset(q: Queue, i: nat, q': Queue, id: Id)
    requires id in q.table && id in q'.table
  {
    && q'.table[id] == (if Returns(q, i, id) then q.table[id].Restarted(q.now) else q.table[id])
    && (Filed(q', id) <==> Filed(q, id) || Returns(q, i, id))
    && (id in q'.dropped <==> id in q.dropped || Drops(q, i, id))
  }

  lemma ResetOne(q: Queue, i: nat, q2: Queue, q': Queue, id: Id)
    requires ResetOk(q, i) && i < |q.expired| && id in q.table && q'.table.Keys == q.table.Keys
    requires q2 == PutBack(q, q.expired[i].id).(armed := q2.armed)
    requires id in q2.table && Reset(q2, i + 1, q', id)
    ensures Reset(q, i, q', id)
  {
    hide PutBack;
    PutBackEffect(q, i);
    LaterReturns(q, i, q2, id);
    assert DueFrom(q, i, q.expired[i].id);
  }

  /** The state in which reset's loop enters its next round. */
  function AfterRound(q: Queue, i: nat, last: int): Queue
    requires i < |q.expired|
  {
    var q1 := PutBack(q, q.expired[i].id);
    Rearmed(q1, NextExpire(q1, last))
  }

  lemma ResetRound(q: Queue, i: nat, last: int)
    requires ResetOk(q, i) && i < |q.expired|
    ensures var q1 := PutBack(q, q.expired[i].id); var q2 := AfterRound(q, i, last); var next := NextExpire(q1, last);
      && q.expired[i].id in q.table && (q1.timers != [] ==> q1.timers[0].id in q1.table)
      && ResetOk(q2, i + 1) && ResetFrom(q, i, last) == ResetFrom(q2, i + 1, next)
      && q2 == q.(timers := q2.timers, table := q2.table, armed := q2.armed, dropped := q2.dropped)
      && q2.table.Keys == q.table.Keys && q2 == q1.(armed := q2.armed)
  {
    hide PutBack;
    PutBackEffect(q, i);
    var q1 := PutBack(q, q.expired[i].id);
    assert q1.timers != [] ==> q1.timers[0] in q1.timers;
  }

  lemma ResetDone(q: Queue, last: int)
    requires ResetOk(q, |q.expired|)
    ensures SetOk(q) && ResetFrom(q, |q.expired|, last) == q
    ensures forall id <- q.table :: Reset(q, |q.expired|, q, id)
  {
    forall id | id in q.table
      ensures Reset(q, |q.expired|, q, id)
    {
      assert !DueFrom(q, |q.expired|, id);
    }
  }

  /** The whole loop: exactly the uncancelled repeating timers are back, filed one interval after now. */
  lemma {:induction false} ResetEffect(q: Queue, i: nat, last: int)
    requires ResetOk(q, i) && i <= |q.expired|
    ensures var q' := ResetFrom(q, i, last);
      && SetOk(q') && q' == q.(timers := q'.timers, table := q'.table, armed := q'.armed, dropped := q'.dropped)
      && q'.table.Keys == q.table.Keys && (forall id <- q.table :: Reset(q, i, q', id))
    decreases |q.expired| - i
  {
    hide PutBack, ResetOk, Reset, SetOk, ResetFrom, AfterRound, NextExpire;
    if i < |q.expired| {
      var q2 := AfterRound(q, i, last);
      ResetRound(q, i, last);
      ResetEffect(q2, i + 1, NextExpire(PutBack(q, q.expired[i].id), last));
      var q' := ResetFrom(q, i, last);
      forall id | id in q.table
        ensures Reset(q, i, q', id)
      {
        ResetOne(q, i, q2, q', id);
      }
    } else {
      ResetDone(q, last);
    }
  }

  lemma EndKeeps(q: Queue)
    requires Inv(q) && q.calling
    ensures Inv(ResetFrom(q.(calling := false), 0, 0).(expired := [], called := 0))
  {
    hide ResetFrom;
    ResetEffect(q.(calling := false), 0, 0);
  }

  lemma StepKeeps(q: Queue, step: Step)
    requires Inv(q)
    ensures Inv(Next(q, step))
  {
    hide ResetFrom, Inserted, LowerBound;
    if Enabled(q, step) {
      match step
      case Add(id, timer) => AddKeeps(q, id, timer);
      case Expire(now) => ExpireKeeps(q, now);
      case EndRound => EndKeeps(q);
      case _ =>
    }
  }

  lemma {:induction false} RunKeeps(q: Queue, steps: seq<Step>)
    requires Inv(q)
    ensures Inv(Run(q, steps))
    decreases |steps|
  {
    if steps != [] {
      StepKeeps(q, steps[0]);
      RunKeeps(Next(q, steps[0]), steps[1..]);
    }
  }

  ghost predicate Reachable(q: Queue) {
    exists steps :: q == Run(INIT, steps)
  }

  lemma ReachableInv(q: Queue)
    requires Reachable(q)
    ensures Inv(q)
  {
    var steps :| q == Run(INIT, steps);
    RunKeeps(INIT, steps);
  }

  /** A repeating timer that expired in a round is filed one interval after now, unless a callback cancelled it. */
  lemma RepeatingReturns(q: Queue, e: Entry)
    requires Inv(q) && Enabled(q, EndRound) && e in q.expired && Repeats(q, e.id)
    ensures var q' := Next(q, EndRound);
      && (e.id !in q.canceling <==> exists f :: f in q'.timers && f.id == e.id)
      && (e.id !in q.canceling <==> Entry(q.now + q.table[e.id].Delta(), e.id) in q'.timers)
  {
    hide ResetFrom;
    var q0 := q.(calling := false);
    var q' := Next(q, EndRound);
    ResetEffect(q0, 0, 0);
    EndKeeps(q);
    assert DueFrom(q0, 0, e.id);
    assert KeyOf(q0, e.id) !in q.timers;
    assert KeyOf(q', e.id) in q'.timers <==> e.id !in q.canceling;
  }

  /** activeTimers_ stays empty, so a cancellation outside the callbacks does nothing at all. */
  lemma CancelOutsideCallbacks(q: Queue, id: Id)
    requires Reachable(q) && !q.calling
    ensures Next(q, Cancel(id)) == q
  {
    ReachableInv(q);
  }

  // ---------- a whole round, from what is called in it ----------

  /** What can happen inside the handler, between taking the expired timers out and reset. */
  predicate InHandler(steps: seq<Step>) {
    forall s <- steps :: s.Add? || s.Cancel? || s.CallNext?
  }

  /** Whether a timer gets cancelled in the course of some steps. */
  predicate CancelledIn(q: Queue, steps: seq<Step>, id: Id)
    decreases |steps|
  {
    steps != [] && ((steps[0] == Cancel(id) && Enabled(q, steps[0])) || CancelledIn(Next(q, steps[0]), steps[1..], id))
  }

  /** A callback can cancel any timer, and that is all a cancellation does. */
  lemma CancelInCallback(q: Queue, id: Id)
    requires Inv(q) && q.calling && q.called > 0
    ensures Next(q, Cancel(id)) == q.(canceling := q.canceling + {id})
  {
  }

  lemma {:induction false} ErasedIsSet(ts: seq<Entry>, e: Entry)
    requires Sorted(ts)
    ensures forall x :: x in Erased(ts, e) <==> x in ts && x != e
  {
    if ts != [] {
      SortedSlice(ts, 1, |ts|);
      assert ts == [ts[0]] + ts[1..] && ts[1..] == ts[1..|ts|];
      assert forall i :: 0 < i < |ts| ==> Less(ts[0], ts[i]);
      if ts[0] != e {
        ErasedIsSet(ts[1..], e);
      }
    }
  }

  /** What cancellation and expiry would do about a timer in activeTimers_, if there ever were one. */
  lemma ActiveTimers(q: Queue, id: Id, now: int)
    requires Sorted(q.timers) && id in q.active
    ensures var q' := CancelTimer(q, id);
      && q'.active == q.active - {id} && (forall x :: x in q'.timers <==> x in q.timers && x != KeyOf(q, id))
      && q' == q.(active := q'.active, timers := q'.timers)
    ensures id in TakeExpired(q, now).active <==> forall e <- q.timers :: e.id == id ==> e.when >= now
  {
    ErasedIsSet(q.timers, KeyOf(q, id));
    LowerBoundSplits(q.timers, Entry(now, NULL));
    var k := LowerBound(q.timers, Entry(now, NULL));
    assert id in Ids(q.timers[..k]) <==> exists i :: 0 <= i < k && q.timers[i].id == id;
  }

  /** Adding files the timer under its expiration and sets the timerfd when it is the earliest, and that is all. */
  lemma AddFiles(q: Queue, id: Id, timer: Timer)
    requires Inv(q) && id != NULL && id !in q.table && (q.calling ==> q.called > 0)
    ensures var q' := Next(q, Add(id, timer));
      && q'.table == q.table[id := timer]
      && (forall e :: e in q'.timers <==> e in q.timers || e == Entry(timer.expiration, id))
      && q'.armed == (if q.timers == [] || timer.expiration < q.timers[0].when then Some(timer.expiration) else q.armed)
      && q' == q.(table := q'.table, timers := q'.timers, armed := q'.armed)
  {
    hide Inserted;
    InsertedIsSet(q.timers, Entry(timer.expiration, id));
  }

  /** The callbacks of these timers, run at one time. */
  function Firings(es: seq<Entry>, now: int): seq<Firing> {
    if es == [] then [] else Firings(es[..|es| - 1], now) + [Firing(es[|es| - 1].id, es[|es| - 1].when, now)]
  }

  lemma FiringsNext(es: seq<Entry>, k: nat, now: int)
    requires k < |es|
    ensures Firings(es[..k + 1], now) == Firings(es[..k], now) + [Firing(es[k].id, es[k].when, now)]
  {
    assert es[..k + 1][..k] == es[..k];
  }

  /** One step inside the handler. */
  lemma HandlerStep(q: Queue, step: Step)
    requires Inv(q) && q.calling && (step.Add? || step.Cancel? || step.CallNext?)
    ensures var q' := Next(q, step);
      && q'.calling && q'.expired == q.expired && q'.now == q.now && q.called <= q'.called <= |q.expired|
      && q'.canceling == (if step.Cancel? && Enabled(q, step) then q.canceling + {step.id} else q.canceling)
      && (forall id <- q.table :: id in q'.table && q'.table[id] == q.table[id])
      && q'.called == (if step.CallNext? && q.called < |q.expired| then q.called + 1 else q.called)
      && q'.fired == (if q'.called == q.called then q.fired
                      else q.fired + [Firing(q.expired[q.called].id, q.expired[q.called].when, q.now)])
  {
    hide Inserted;
  }

  lemma {:induction false} HandlerRun(q: Queue, steps: seq<Step>)
    requires Inv(q) && q.calling && InHandler(steps) && q.called <= |q.expired|
    ensures var q' := Run(q, steps);
      && Inv(q') && q'.calling && q'.expired == q.expired && q'.now == q.now
      && (forall id <- q.table :: id in q'.table && q'.table[id] == q.table[id])
      && (forall id :: id in q'.canceling <==> id in q.canceling || CancelledIn(q, steps, id))
    decreases |steps|
  {
    if steps != [] {
      assert steps[0] in steps;
      StepKeeps(q, steps[0]);
      HandlerStep(q, steps[0]);
      hide Inv, Next;
      HandlerRun(Next(q, steps[0]), steps[1..]);
    }
  }

  /** The callbacks that have run are the front of the expired timers, once each and in order. */
  lemma {:induction false} HandlerFires(q: Queue, steps: seq<Step>, before: seq<Firing>)
    requires Inv(q) && q.calling && InHandler(steps) && q.called <= |q.expired|
    requires q.fired == before + Firings(q.expired[..q.called], q.now)
    ensures var q' := Run(q, steps);
      q'.called <= |q.expired| && q'.fired == before + Firings(q.expired[..q'.called], q.now)
    decreases |steps|
  {
    if steps != [] {
      var q1 := Next(q, steps[0]);
      assert steps[0] in steps;
      StepKeeps(q, steps[0]);
      HandlerStep(q, steps[0]);
      hide Inv, Next, Firings;
      if q1.called != q.called {
        FiringsNext(q.expired, q.called, q.now);
        var one := [Firing(q.expired[q.called].id, q.expired[q.called].when, q.now)];
        assert before + Firings(q.expired[..q.called], q.now) + one ==
               before + (Firings(q.expired[..q.called], q.now) + one);
      }
      HandlerFires(q1, steps[1..], before);
    }
  }

  lemma ExpireBegins(q: Queue, now: int)
    requires Inv(q) && Enabled(q, Expire(now))
    ensures var q1 := Next(q, Expire(now));
      && Inv(q1) && q1.calling && q1.called == 0 && q1.canceling == {} && q1.now == now
      && q1.fired == q.fired && q1.table == q.table && q1.expired + q1.timers == q.timers && q1.armed == None
      && (forall e <- q1.expired :: e.when < now) && (forall e <- q1.timers :: e.when >= now)
  {
    ExpireKeeps(q, now);
    ExpiredExactly(q, now);
  }

  /**
   A whole round runs the callbacks of exactly the timers strictly before now, once each and in order,
   whatever they add and cancel; and a repeating one of them is filed again, one interval after now,
   exactly when nothing cancelled it in the round.
   */
  lemma RoundRuns(q: Queue, now: int, steps: seq<Step>)
    requires Inv(q) && Enabled(q, Expire(now)) && InHandler(steps)
    requires Enabled(Run(Next(q, Expire(now)), steps), EndRound)
    ensures var q1 := Next(q, Expire(now)); var q' := Next(Run(q1, steps), EndRound);
      && q'.fired == q.fired + Firings(q1.expired, now) && !q'.calling
      && (forall e :: e in q1.expired <==> e in q.timers && e.when < now)
      && forall e <- q1.expired :: Repeats(q, e.id) ==>
            && ((exists f :: f in q'.timers && f.id == e.id) <==> !CancelledIn(q1, steps, e.id))
            && (Entry(now + q.table[e.id].Delta(), e.id) in q'.timers <==> !CancelledIn(q1, steps, e.id))
  {
    hide Run, ResetFrom, Inv;
    var q1 := Next(q, Expire(now));
    ExpireBegins(q, now);
    hide Next;
    assert q1.fired == q.fired + Firings(q1.expired[..0], now);
    HandlerFires(q1, steps, q.fired);
    HandlerRun(q1, steps);
    var q2 := Run(q1, steps);
    assert q1.expired[..q2.called] == q1.expired;
    EndsRound(q2);
    forall e | e in q1.expired && Repeats(q, e.id)
      ensures (exists f :: f in Next(q2, EndRound).timers && f.id == e.id) <==> !CancelledIn(q1, steps, e.id)
      ensures Entry(now + q.table[e.id].Delta(), e.id) in Next(q2, EndRound).timers <==> !CancelledIn(q1, steps, e.id)
    {
      RepeatingReturns(q2, e);
    }
    forall e
      ensures e in q1.expired <==> e in q.timers && e.when < now
    {
      assert e in q1.expired + q1.timers <==> e in q1.expired || e in q1.timers;
    }
  }

  lemma EndsRound(q: Queue)
    requires Inv(q) && Enabled(q, EndRound)
    ensures q.called == |q.expired| && !Next(q, EndRound).calling && Next(q, EndRound).fired == q.fired
  {
    hide ResetFrom;
    ResetEffect(q.(calling := false), 0, 0);
  }

  /** Nothing stands in the way of a round: run the callbacks that are left, and it can end. */
  lemma {:induction false} RoundCanEnd(q: Queue)
    requires Inv(q) && q.calling
    ensures exists steps :: InHandler(steps) && Enabled(Run(q, steps), EndRound)
    decreases |q.expired| - q.called
  {
    if q.called == |q.expired| {
      assert Run(q, []) == q && InHandler([]);
    } else {
      StepKeeps(q, CallNext);
      RoundCanEnd(Next(q, CallNext));
      var later :| InHandler(later) && Enabled(Run(Next(q, CallNext), later), EndRound);
      assert ([CallNext] + later)[1..] == later;
      assert InHandler([CallNext] + later) && Run(q, [CallNext] + later) == Run(Next(q, CallNext), later);
    }
  }

  // ---------- conservation ----------

  /** How often a timer's callback has run. */
  function Times(fired: seq<Firing>, id: Id): nat {
    if fired == [] then 0
    else Times(fired[..|fired| - 1], id) + if fired[|fired| - 1].id == id then 1 else 0
  }

  lemma TimesAppend(fired: seq<Firing>, f: Firing, id: Id)
    ensures Times(fired + [f], id) == Times(fired, id) + if f.id == id then 1 else 0
  {
    assert (fired + [f])[..|fired|] == fired;
  }

  lemma {:induction false} TimesZero(fired: seq<Firing>, id: Id)
    requires forall f <- fired :: f.id != id
    ensures Times(fired, id) == 0
  {
    if fired != [] {
      TimesZero(fired[..|fired| - 1], id);
    }
  }

  /** Where a timer is: a one-shot waits or has fired, a repeating one is kept or was cancelled. */
  predicate AccountedFor(q: Queue, id: Id) {
    if Repeats(q, id) then
      (Filed(q, id) || DueFrom(q, 0, id)) <==> id !in q.dropped
    else
      Times(q.fired, id) == if Filed(q, id) || DueFrom(q, q.called, id) then 0 else 1
  }

  predicate Known(q: Queue) {
    (forall f <- q.fired :: f.id in q.table) && (forall id <- q.dropped :: Repeats(q, id))
  }

  predicate Conserved(q: Queue) {
    Known(q) && forall id <- q.table :: AccountedFor(q, id)
  }

  lemma AddConserves(q: Queue, id: Id, timer: Timer)
    requires Inv(q) && Conserved(q) && id != NULL && id !in q.table
    ensures Conserved(AddTimer(q, id, timer))
  {
    hide Inserted, LowerBound;
    InsertedIsSet(q.timers, Entry(timer.expiration, id));
    var q' := AddTimer(q, id, timer);
    forall k | k in q'.table
      ensures AccountedFor(q', k)
    {
      if k != id {
        assert AccountedFor(q, k);
        assert DueFrom(q', 0, k) == DueFrom(q, 0, k) && DueFrom(q', q.called, k) == DueFrom(q, q.called, k);
      } else {
        TimesZero(q.fired, id);
        NotDue(q, id);
      }
    }
  }

  lemma NotDue(q: Queue, id: Id)
    requires Inv(q) && Known(q) && id !in q.table
    ensures !DueFrom(q, 0, id) && id !in q.dropped
  {
    forall j | 0 <= j < |q.expired|
      ensures q.expired[j].id != id
    {
      assert q.expired[j] in q.expired;
    }
  }

  lemma ExpireConserves(q: Queue, now: int)
    requires Inv(q) && Conserved(q) && !q.calling
    ensures Conserved(TakeExpired(q, now))
  {
    hide LowerBound;
    var q' := TakeExpired(q, now);
    ExpiredExactly(q, now);
    forall id | id in q'.table
      ensures AccountedFor(q', id)
    {
      assert AccountedFor(q, id) && !DueFrom(q, 0, id);
      Splits(q, q', id);
    }
  }

  lemma Splits(q: Queue, q': Queue, id: Id)
    requires Inv(q) && q'.table == q.table && q'.expired + q'.timers == q.timers
    ensures Filed(q, id) <==> Filed(q', id) || DueFrom(q', 0, id)
  {
    if DueFrom(q', 0, id) {
      var j :| 0 <= j < |q'.expired| && q'.expired[j].id == id;
      assert q.timers[j] == q'.expired[j] && q.timers[j] in q.timers;
    }
    if Filed(q, id) && !Filed(q', id) {
      assert KeyOf(q, id) in q'.expired;
      var j :| 0 <= j < |q'.expired| && q'.expired[j] == KeyOf(q, id);
      assert q'.expired[j].id == id;
    }
  }

  lemma ExpiredDistinct(q: Queue, i: nat, j: nat)
    requires Inv(q) && i < j < |q.expired|
    ensures q.expired[i].id != q.expired[j].id
  {
    assert Less(q.expired[i], q.expired[j]);
  }

  lemma CallConserves(q: Queue)
    requires Inv(q) && Conserved(q) && q.called < |q.expired|
    ensures Conserved(CallOne(q))
  {
    var q' := CallOne(q);
    var e := q.expired[q.called];
    assert e in q.expired;
    forall id | id in q'.table
      ensures AccountedFor(q', id)
    {
      assert AccountedFor(q, id);
      TimesAppend(q.fired, Firing(e.id, e.when, q.now), id);
      Called(q, id);
    }
  }

  lemma Called(q: Queue, id: Id)
    requires Inv(q) && q.called < |q.expired|
    ensures var q' := CallOne(q);
      && DueFrom(q', 0, id) == DueFrom(q, 0, id)
      && DueFrom(q', q'.called, id) == (DueFrom(q, q.called, id) && id != q.expired[q.called].id)
      && (id == q.expired[q.called].id ==> DueFrom(q, q.called, id) && !Filed(q, id))
  {
    var q' := CallOne(q);
    assert q.expired[q.called] in q.expired;
    if DueFrom(q', q'.called, id) {
      var j :| q'.called <= j < |q.expired| && q.expired[j].id == id;
      ExpiredDistinct(q, q.called, j);
    }
  }

  lemma PutBackDrops(q: Queue, id: Id)
    ensures var q1 := PutBack(q, id);
      && q1.dropped <= q.dropped + q.table.Keys && q1.table.Keys == q.table.Keys
      && q1.fired == q.fired && q1.expired == q.expired
  {
    hide Inserted;
  }

  lemma {:induction false} DroppedKnown(q: Queue, i: nat, last: int)
    ensures ResetFrom(q, i, last).dropped <= q.dropped + q.table.Keys
    ensures ResetFrom(q, i, last).table.Keys == q.table.Keys && ResetFrom(q, i, last).fired == q.fired
    decreases |q.expired| - i
  {
    hide PutBack;
    if i < |q.expired| {
      var q1 := PutBack(q, q.expired[i].id);
      PutBackDrops(q, q.expired[i].id);
      DroppedKnown(Rearmed(q1, NextExpire(q1, last)), i + 1, NextExpire(q1, last));
    }
  }

  lemma EndConserves(q: Queue)
    requires Inv(q) && Conserved(q) && q.calling && q.called == |q.expired|
    ensures Conserved(ResetFrom(q.(calling := false), 0, 0).(expired := [], called := 0))
  {
    hide ResetFrom;
    var q0 := q.(calling := false);
    ResetEffect(q0, 0, 0);
    DroppedKnown(q0, 0, 0);
    var q' := ResetFrom(q0, 0, 0).(expired := [], called := 0);
    forall id | id in q'.table
      ensures AccountedFor(q', id) && (id in q'.dropped ==> Repeats(q', id))
    {
      assert AccountedFor(q, id);
      assert DueFrom(q0, 0, id) == DueFrom(q, 0, id);
      ExpiredNotFiled(q, id);
    }
  }

  lemma ExpiredNotFiled(q: Queue, id: Id)
    requires Inv(q)
    ensures DueFrom(q, 0, id) ==> !Filed(q, id)
  {
    if DueFrom(q, 0, id) {
      var j :| 0 <= j < |q.expired| && q.expired[j].id == id;
      assert q.expired[j] in q.expired;
    }
  }

  lemma StepConserves(q: Queue, step: Step)
    requires Inv(q) && Conserved(q)
    ensures Conserved(Next(q, step))
  {
    hide ResetFrom, AddTimer, TakeExpired, CallOne;
    if Enabled(q, step) {
      match step
      case Add(id, timer) => AddConserves(q, id, timer);
      case Expire(now) => ExpireConserves(q, now);
      case CallNext => CallConserves(q);
      case EndRound => EndConserves(q);
      case Cancel(id) =>
        forall k | k in q.table
          ensures AccountedFor(CancelTimer(q, id), k)
        {
          assert AccountedFor(q, k);
          assert DueFrom(CancelTimer(q, id), 0, k) == DueFrom(q, 0, k);
          assert DueFrom(CancelTimer(q, id), q.called, k) == DueFrom(q, q.called, k);
        }
    }
  }

  lemma {:induction false} RunConserves(q: Queue, steps: seq<Step>)
    requires Inv(q) && Conserved(q)
    ensures Conserved(Run(q, steps))
    decreases |steps|
  {
    if steps != [] {
      StepKeeps(q, steps[0]);
      StepConserves(q, steps[0]);
      RunConserves(Next(q, steps[0]), steps[1..]);
    }
  }

  /** Over any run, a one-shot waits, in the set or among the expired, or else has fired exactly once. */
  lemma OneShotConservation(q: Queue, id: Id)
    requires Reachable(q) && id in q.table && !Repeats(q, id)
    ensures Times(q.fired, id) <= 1
    ensures Times(q.fired, id) == 0 <==> Filed(q, id) || DueFrom(q, q.called, id)
  {
    var steps :| q == Run(INIT, steps);
    RunConserves(INIT, steps);
    assert AccountedFor(q, id);
  }

  /** And a repeating timer is kept for ever, unless a callback cancelled it in a round it expired in. */
  lemma RepeatingConservation(q: Queue, id: Id)
    requires Reachable(q) && Repeats(q, id)
    ensures Filed(q, id) || DueFrom(q, 0, id) <==> id !in q.dropped
    ensures !(Filed(q, id) && DueFrom(q, 0, id))
  {
    var steps :| q == Run(INIT, steps);
    RunConserves(INIT, steps);
    ReachableInv(q);
    assert AccountedFor(q, id);
    ExpiredNotFiled(q, id);
  }

  // ---------- never early, and never twice within the interval ----------

  predicate NeverEarly(fired: seq<Firing>) {
    forall f <- fired :: f.due < f.at
  }

  function Gap(q: Queue, id: Id): (d: int)
    ensures d >= 0
  {
    if Repeats(q, id) then q.table[id].Delta() else 0
  }

  /** A timer with an entry to come was last called at least one interval before it. */
  predicate Rested(q: Queue, f: Firing, e: Entry) {
    f.id == e.id ==> f.at + Gap(q, f.id) <= e.when
  }

  predicate AllRested(q: Queue) {
    && (forall f <- q.fired, e <- q.timers :: Rested(q, f, e))
    && (forall f, j :: f in q.fired && q.called <= j < |q.expired| ==> Rested(q, f, q.expired[j]))
    && (forall f, j ::
          f in q.fired && 0 <= j < q.called && j < |q.expired| && f.id == q.expired[j].id ==> f.at <= q.now)
  }

  /** Two calls of one timer are more than its interval apart. */
  predicate Spaced(q: Queue) {
    forall i, j :: 0 <= i < j < |q.fired| && q.fired[i].id == q.fired[j].id ==>
      q.fired[i].at + Gap(q, q.fired[i].id) < q.fired[j].at
  }

  predicate Timely(q: Queue) {
    NeverEarly(q.fired) && AllRested(q) && Spaced(q)
  }

  lemma AddTimely(q: Queue, id: Id, timer: Timer)
    requires Inv(q) && Known(q) && Timely(q) && id != NULL && id !in q.table
    ensures Timely(AddTimer(q, id, timer))
  {
    hide Inserted, LowerBound;
    InsertedIsSet(q.timers, Entry(timer.expiration, id));
    var q' := AddTimer(q, id, timer);
    forall f, e | f in q'.fired && e in q'.timers
      ensures Rested(q', f, e)
    {
      if e in q.timers {
        assert Rested(q, f, e);
      }
    }
    forall f, j | f in q'.fired && q'.called <= j < |q'.expired|
      ensures Rested(q', f, q'.expired[j])
    {
      assert Rested(q, f, q.expired[j]);
    }
  }

  lemma ExpireTimely(q: Queue, now: int)
    requires Inv(q) && Timely(q)
    ensures Timely(TakeExpired(q, now))
  {
    hide LowerBound;
    var q' := TakeExpired(q, now);
    ExpiredExactly(q, now);
    forall f, e | f in q'.fired && (e in q'.timers || e in q'.expired)
      ensures Rested(q', f, e)
    {
      assert e in q'.expired + q'.timers;
      assert Rested(q, f, e);
    }
  }

  lemma CallTimely(q: Queue)
    requires Inv(q) && Timely(q) && q.calling && q.called < |q.expired|
    ensures Timely(CallOne(q))
  {
    var q' := CallOne(q);
    var e := q.expired[q.called];
    assert e in q.expired;
    var g := Firing(e.id, e.when, q.now);
    forall f, j | f in q'.fired && q'.called <= j < |q'.expired|
      ensures Rested(q', f, q'.expired[j])
    {
      ExpiredDistinct(q, q.called, j);
      assert f == g || Rested(q, f, q.expired[j]);
    }
    forall f, x | f in q'.fired && x in q'.timers
      ensures Rested(q', f, x)
    {
      assert f == g || Rested(q, f, x);
    }
    forall i | 0 <= i < |q.fired| && q.fired[i].id == e.id
      ensures q.fired[i].at + Gap(q, e.id) < q.now
    {
      var f := q.fired[i];
      assert f in q.fired;
      assert Rested(q, f, q.expired[q.called]);
    }
  }

  lemma EndTimely(q: Queue)
    requires Inv(q) && Timely(q) && q.calling && q.called == |q.expired|
    ensures Timely(ResetFrom(q.(calling := false), 0, 0).(expired := [], called := 0))
  {
    hide ResetFrom, Rested, ResetOk;
    var q0 := q.(calling := false);
    ResetBegins(q);
    ResetEffect(q0, 0, 0);
    var q' := ResetFrom(q0, 0, 0).(expired := [], called := 0);
    forall f, e | f in q'.fired && e in q'.timers
      ensures Rested(q', f, e)
    {
      EndRested(q, q', f, e);
    }
    forall i, j | 0 <= i < j < |q'.fired| && q'.fired[i].id == q'.fired[j].id
      ensures q'.fired[i].at + Gap(q', q'.fired[i].id) < q'.fired[j].at
    {
      SameGap(q0, q', q.fired[i].id);
    }
  }

  lemma ResetBegins(q: Queue)
    requires Inv(q) && q.calling
    ensures ResetOk(q.(calling := false), 0)
  {
  }

  lemma EndRested(q: Queue, q': Queue, f: Firing, e: Entry)
    requires Inv(q) && Timely(q) && q.called == |q.expired| && f in q.fired && e in q'.timers
    requires SetOk(q') && q'.table.Keys == q.table.Keys
    requires forall id <- q.table :: Reset(q.(calling := false), 0, q', id)
    ensures Rested(q', f, e)
  {
    var q0 := q.(calling := false);
    var id := e.id;
    assert e == KeyOf(q', id) && Reset(q0, 0, q', id);
    if Returns(q0, 0, id) {
      var j :| 0 <= j < |q.expired| && q.expired[j].id == id;
      assert f.id == id ==> f.at <= q.now;
    } else {
      assert Rested(q, f, KeyOf(q, id));
    }
  }

  lemma SameGap(q: Queue, q': Queue, id: Id)
    requires q'.table.Keys == q.table.Keys && forall k <- q.table :: Reset(q, 0, q', k)
    ensures Gap(q', id) == Gap(q, id)
  {
    if id in q.table {
      assert Reset(q, 0, q', id);
    }
  }

  lemma StepTimely(q: Queue, step: Step)
    requires Inv(q) && Known(q) && Timely(q)
    ensures Timely(Next(q, step))
  {
    hide ResetFrom, AddTimer, TakeExpired, CallOne, Rested;
    if Enabled(q, step) {
      match step
      case Add(id, timer) => AddTimely(q, id, timer);
      case Expire(now) => ExpireTimely(q, now);
      case CallNext => CallTimely(q);
      case EndRound => EndTimely(q);
      case Cancel(id) => CancelTimely(q, id);
    }
  }

  lemma CancelTimely(q: Queue, id: Id)
    requires Inv(q) && Timely(q)
    ensures Timely(CancelTimer(q, id))
  {
    var q' := CancelTimer(q, id);
    assert q' == q.(canceling := q'.canceling);
    forall f, e | f in q.fired
      ensures Rested(q', f, e) == Rested(q, f, e)
    {
    }
  }

  lemma {:induction false} RunTimely(q: Queue, steps: seq<Step>)
    requires Inv(q) && Conserved(q) && Timely(q)
    ensures Timely(Run(q, steps))
    decreases |steps|
  {
    if steps != [] {
      StepKeeps(q, steps[0]);
      StepConserves(q, steps[0]);
      StepTimely(q, steps[0]);
      RunTimely(Next(q, steps[0]), steps[1..]);
    }
  }

  /** Over any run, no callback runs before its time, and no timer's twice within its interval. */
  lemma CallsAreTimely(q: Queue)
    requires Reachable(q)
    ensures forall f <- q.fired :: f.due < f.at
    ensures forall i, j :: 0 <= i < j < |q.fired| && q.fired[i].id == q.fired[j].id ==>
              q.fired[i].at + Gap(q, q.fired[i].id) < q.fired[j].at
  {
    var steps :| q == Run(INIT, steps);
    RunTimely(INIT, steps);
  }

  // ---------- arming ----------

  function Least(ts: seq<Entry>): Option<int> {
    if ts == [] then None else Some(ts[0].when)
  }

  /** The timerfd is set to the earliest timer, and to nothing when there is none. */
  predicate Armed(q: Queue) {
    q.armed == Least(q.timers)
  }

  /** Inside a round the earliest may be one left over, for which reset has yet to set the timerfd. */
  predicate ArmedInRound(q: Queue) {
    Armed(q) || (q.armed == None && q.timers != [] && q.timers[0].when >= q.now)
  }

  predicate ArmOk(q: Queue) {
    if q.calling then ArmedInRound(q) else Armed(q)
  }

  lemma AddArms(q: Queue, id: Id, timer: Timer)
    requires Inv(q) && ArmOk(q)
    ensures ArmOk(AddTimer(q, id, timer))
  {
    hide Inserted, LowerBound;
    InsertedFirst(q.timers, Entry(timer.expiration, id));
  }

  lemma ExpireArms(q: Queue, now: int)
    requires Inv(q)
    ensures ArmedInRound(TakeExpired(q, now))
  {
    hide LowerBound;
    ExpiredExactly(q, now);
    assert TakeExpired(q, now).timers != [] ==> TakeExpired(q, now).timers[0] in TakeExpired(q, now).timers;
  }

  /** What a round of reset's loop needs to know about the timerfd. */
  predicate Rearmable(q: Queue, last: int) {
    && q.now > 0
    && (q.timers == [] ==> last <= 0 && q.armed == None)
    && (q.timers != [] && q.timers[0].when <= 0 ==> Armed(q))
  }

  lemma PutBackFirst(q: Queue, i: nat, last: int)
    requires ResetOk(q, i) && i < |q.expired| && Rearmable(q, last)
    ensures var q1 := PutBack(q, q.expired[i].id);
      var q2 := Rearmed(q1, NextExpire(q1, last));
      Rearmable(q2, NextExpire(q1, last)) && Armed(q2)
  {
    hide Inserted, LowerBound;
    var id := q.expired[i].id;
    var q1 := PutBack(q, id);
    PutBackEffect(q, i);
    assert q1.timers != [] ==> q1.timers[0] in q1.timers;
    if Returns(q, i, id) {
      InsertedFirst(q.timers, Entry(q1.table[id].expiration, id));
    }
  }

  /** One round is enough: the loop leaves the timerfd set to the earliest timer. */
  lemma {:induction false} ResetArms(q: Queue, i: nat, last: int)
    requires ResetOk(q, i) && i <= |q.expired| && Rearmable(q, last)
    requires i < |q.expired| || Armed(q)
    ensures Armed(ResetFrom(q, i, last))
    decreases |q.expired| - i
  {
    hide PutBack;
    if i < |q.expired| {
      var q1 := PutBack(q, q.expired[i].id);
      PutBackEffect(q, i);
      PutBackFirst(q, i, last);
      var q2 := Rearmed(q1, NextExpire(q1, last));
      assert ResetOk(q2, i + 1);
      ResetArms(q2, i + 1, NextExpire(q1, last));
    }
  }

  /** A round that found an expired timer leaves the timerfd set to the earliest. */
  lemma EndArms(q: Queue)
    requires Inv(q) && q.calling && ArmOk(q) && q.expired != []
    ensures Armed(ResetFrom(q.(calling := false), 0, 0))
    ensures !ResetFrom(q.(calling := false), 0, 0).calling
  {
    var q0 := q.(calling := false);
    assert ResetOk(q0, 0);
    ResetArms(q0, 0, 0);
    ResetEffect(q0, 0, 0);
  }

  /** Every expiry of the timerfd in these steps finds at least one timer strictly before now. */
  predicate EveryExpiryFinds(q: Queue, steps: seq<Step>)
    decreases |steps|
  {
    steps == [] ||
    ((steps[0].Expire? && Enabled(q, steps[0]) ==> q.timers != [] && q.timers[0].when < steps[0].now)
     && EveryExpiryFinds(Next(q, steps[0]), steps[1..]))
  }

  lemma StepArms(q: Queue, step: Step)
    requires Inv(q) && ArmOk(q) && (q.calling ==> q.expired != [])
    requires step.Expire? && Enabled(q, step) ==> q.timers != [] && q.timers[0].when < step.now
    ensures ArmOk(Next(q, step)) && (Next(q, step).calling ==> Next(q, step).expired != [])
  {
    hide ResetFrom, Inserted, LowerBound;
    if Enabled(q, step) {
      match step
      case Add(id, timer) => AddArms(q, id, timer);
      case Expire(now) =>
        ExpireArms(q, now);
        ExpiredExactly(q, now);
      case EndRound => EndArms(q);
      case _ =>
    }
  }

  lemma {:induction false} RunArms(q: Queue, steps: seq<Step>)
    requires Inv(q) && ArmOk(q) && (q.calling ==> q.expired != []) && EveryExpiryFinds(q, steps)
    ensures ArmOk(Run(q, steps))
    decreases |steps|
  {
    if steps != [] {
      StepKeeps(q, steps[0]);
      StepArms(q, steps[0]);
      RunArms(Next(q, steps[0]), steps[1..]);
    }
  }

  /** In such runs the timerfd is set to the earliest timer whenever the handler is not running. */
  lemma ArmedBetweenRounds(steps: seq<Step>)
    requires EveryExpiryFinds(INIT, steps) && !Run(INIT, steps).calling
    ensures Armed(Run(INIT, steps))
  {
    RunArms(INIT, steps);
  }

  lemma {:induction false} HandlerArms(q: Queue, steps: seq<Step>)
    requires Inv(q) && q.calling && ArmOk(q) && InHandler(steps)
    ensures Inv(Run(q, steps)) && Run(q, steps).calling && ArmOk(Run(q, steps))
    ensures Run(q, steps).expired == q.expired && (q.expired == [] ==> Run(q, steps) == q)
    decreases |steps|
  {
    hide Inserted, LowerBound;
    if steps != [] {
      assert steps[0] in steps;
      StepKeeps(q, steps[0]);
      if steps[0].Add? && Enabled(q, steps[0]) {
        AddArms(q, steps[0].id, steps[0].timer);
      }
      HandlerArms(Next(q, steps[0]), steps[1..]);
    }
  }

  /**
   An expiry leaves the timerfd set to the earliest timer exactly when it found a timer strictly
   before now, whatever its callbacks add and cancel.
   */
  lemma RoundArmsExactly(q: Queue, now: int, steps: seq<Step>)
    requires Inv(q) && Armed(q) && Enabled(q, Expire(now)) && InHandler(steps)
    requires Enabled(Run(Next(q, Expire(now)), steps), EndRound)
    ensures Armed(Next(Run(Next(q, Expire(now)), steps), EndRound)) <==> q.timers[0].when < now
  {
    hide ResetFrom, LowerBound, Inv, ArmOk;
    var q1 := Next(q, Expire(now));
    StepKeeps(q, Expire(now));
    ExpireFinds(q, now);
    HandlerArms(q1, steps);
    EndOfRound(Run(q1, steps));
  }

  lemma ExpireFinds(q: Queue, now: int)
    requires Inv(q) && Armed(q) && Enabled(q, Expire(now))
    ensures q.timers != [] && Next(q, Expire(now)).calling && ArmOk(Next(q, Expire(now)))
    ensures Next(q, Expire(now)).expired != [] <==> q.timers[0].when < now
    ensures Next(q, Expire(now)).expired == [] ==>
              Next(q, Expire(now)).timers != [] && Next(q, Expire(now)).armed == None
  {
    hide LowerBound;
    ExpireArms(q, now);
    ExpiredExactly(q, now);
    var q1 := Next(q, Expire(now));
    if q1.expired != [] {
      assert q.timers[0] == q1.expired[0] && q1.expired[0] in q1.expired;
    } else {
      assert q1.timers == q.timers && q.timers[0] in q1.timers;
    }
  }

  lemma EndOfRound(q: Queue)
    requires Inv(q) && Enabled(q, EndRound) && ArmOk(q)
    ensures q.expired != [] ==> Armed(Next(q, EndRound))
    ensures q.expired == [] ==> Next(q, EndRound).armed == q.armed && Next(q, EndRound).timers == q.timers
  {
    if q.expired != [] {
      EndArms(q);
    }
  }

  /** A queue with timers but no timer set stays so, and fires nothing, until an earlier timer is added. */
  lemma {:induction false} StuckUntilEarlierAdd(q: Queue, steps: seq<Step>)
    requires Inv(q) && !q.calling && q.armed == None && q.timers != []
    requires forall s <- steps :: s.Add? ==> s.timer.expiration >= q.timers[0].when
    ensures Run(q, steps).fired == q.fired && Run(q, steps).armed == None
    decreases |steps|
  {
    hide Inserted, LowerBound;
    if steps != [] {
      assert steps[0] in steps;
      StepKeeps(q, steps[0]);
      var q1 := Next(q, steps[0]);
      if steps[0].Add? && Enabled(q, steps[0]) {
        InsertedFirst(q.timers, Entry(steps[0].timer.expiration, steps[0].id));
      }
      assert q1.timers != [] && q1.timers[0].when == q.timers[0].when;
      StuckUntilEarlierAdd(q1, steps[1..]);
    }
  }

  /** Reading the clock at the very time of the only timer is enough: it is not expired, and nothing is set again. */
  lemma MissedTimer()
    ensures var q := Run(INIT, [Add(1, Timer(5, 0.0)), Expire(5), EndRound]);
      !q.calling && q.armed == None && q.timers == [Entry(5, 1)] && q.fired == []
  {
    var q1 := Next(INIT, Add(1, Timer(5, 0.0)));
    assert q1.timers == [Entry(5, 1)];
    var q2 := Next(q1, Expire(5));
    assert q2.timers == [Entry(5, 1)] && q2.expired == [];
    var q3 := Next(q2, EndRound);
    assert Run(q3, []) == q3;
    assert Run(q2, [EndRound]) == q3;
    assert Run(q1, [Expire(5), EndRound]) == q3;
    var steps := [Add(1, Timer(5, 0.0)), Expire(5), EndRound];
    assert steps[1..] == [Expire(5), EndRound] && steps[0] == Add(1, Timer(5, 0.0));
  }

  // ---------- what the timerfd is set to ----------

  const LEAST_DELAY := 100
  const NANOSECONDS_PER_MICROSECOND := 1000

  datatype Timespec = Timespec(sec: int, nsec: int)

  /** howMuchTimeFromNow. */
  function HowMuchTimeFromNow(when: int, now: int): Timespec {
    var micro := if when - now < LEAST_DELAY then LEAST_DELAY else when - now;
    Timespec(micro / MICROSECONDS_PER_SECOND, micro % MICROSECONDS_PER_SECOND * NANOSECONDS_PER_MICROSECOND)
  }

  /** It is a valid, positive itimerspec, so that it never disarms the timerfd, and exact to the microsecond. */
  lemma DelayExact(when: int, now: int)
    ensures var ts := HowMuchTimeFromNow(when, now);
      && 0 <= ts.sec && 0 <= ts.nsec < 1_000_000_000 && (ts.sec > 0 || ts.nsec > 0)
      && 1_000 * (now + LEAST_DELAY) <= 1_000 * now + 1_000_000_000 * ts.sec + ts.nsec
      && (1_000 * now + 1_000_000_000 * ts.sec + ts.nsec == 1_000 * when <==> when >= now + LEAST_DELAY)
  {
  }

  // ---------- the clock ----------

  /** What Timestamp::now makes of real time in microseconds: time(NULL), whole seconds, taken for microseconds. */
  function Clock(t: nat): int {
    t / MICROSECONDS_PER_SECOND
  }

  function Delay(ts: Timespec): int {
    ts.sec * MICROSECONDS_PER_SECOND + ts.nsec / NANOSECONDS_PER_MICROSECOND
  }

  /** When a timerfd reaches its time that was set at real time t for the given expiration. */
  function FiresAt(t: nat, when: int): (at: nat)
    ensures at >= t + LEAST_DELAY
  {
    t + Delay(HowMuchTimeFromNow(when, Clock(t)))
  }

  function Max(a: int, b: int): int {
    if a < b then b else a
  }

  lemma FiresAfter(t: nat, d: int)
    ensures FiresAt(t, Clock(t) + d) == t + Max(LEAST_DELAY, d)
  {
  }

  /**
   A timer d microseconds ahead of the clock is found by the expiry it set, read so much later,
   exactly when real time has got through d + 1 seconds of the clock by then.
   */
  lemma FoundExactly(t: nat, d: int, latency: nat)
    ensures Clock(t) + d < Clock(FiresAt(t, Clock(t) + d) + latency) <==>
            t % MICROSECONDS_PER_SECOND + Max(LEAST_DELAY, d) + latency >= (d + 1) * MICROSECONDS_PER_SECOND
  {
    FiresAfter(t, d);
    ClockReaches(t + Max(LEAST_DELAY, d) + latency, Clock(t) + d + 1);
    assert t == MICROSECONDS_PER_SECOND * Clock(t) + t % MICROSECONDS_PER_SECOND;
  }

  lemma ClockReaches(t: nat, s: int)
    ensures Clock(t) >= s <==> t >= s * MICROSECONDS_PER_SECOND
  {
  }

  /** Read on time, that is exactly the timers that were overdue when set, or due just before a full second. */
  lemma FoundOnTimeExactly(t: nat, d: int)
    ensures Clock(t) + d < Clock(FiresAt(t, Clock(t) + d)) <==>
            d < 0 || (d == 0 && t % MICROSECONDS_PER_SECOND >= MICROSECONDS_PER_SECOND - LEAST_DELAY)
  {
    FoundExactly(t, d, 0);
  }

  /**
   So a timer d >= 1 microseconds ahead is missed unless its expiry is read about d seconds late, and
   the queue then fires nothing until an earlier timer is added.
   */
  lemma SecondsClockStops(q: Queue, t: nat, latency: nat, steps: seq<Step>)
    requires Inv(q) && Armed(q) && !q.calling && q.timers != [] && Clock(t) > 0
    requires var d := q.timers[0].when - Clock(t);
      d >= 1 && latency + Max(LEAST_DELAY, d) <= d * MICROSECONDS_PER_SECOND
    requires forall s <- steps :: s.Add? ==> s.timer.expiration >= q.timers[0].when
    ensures var now := Clock(FiresAt(t, q.timers[0].when) + latency);
      var q' := Next(Next(q, Expire(now)), EndRound);
      q'.timers == q.timers && q'.armed == None && Run(q', steps).fired == q.fired
  {
    hide Inv, LowerBound, ResetFrom, ArmOk, Run;
    var d := q.timers[0].when - Clock(t);
    FoundExactly(t, d, latency);
    var now := Clock(FiresAt(t, q.timers[0].when) + latency);
    ClockReaches(t, 1);
    ClockReaches(FiresAt(t, q.timers[0].when) + latency, 1);
    ExpireFinds(q, now);
    StepKeeps(q, Expire(now));
    var q1 := Next(q, Expire(now));
    ExpiredNothing(q, now);
    EndOfRound(q1);
    StepKeeps(q1, EndRound);
    StuckUntilEarlierAdd(Next(q1, EndRound), steps);
  }

  lemma ExpiredNothing(q: Queue, now: int)
    requires Inv(q) && Enabled(q, Expire(now)) && Next(q, Expire(now)).expired == []
    ensures var q1 := Next(q, Expire(now));
      && q1.timers == q.timers && q1.fired == q.fired && Enabled(q1, EndRound)
      && Next(q1, EndRound).fired == q.fired && !Next(q1, EndRound).calling
  {
    hide LowerBound;
    ExpiredExactly(q, now);
    var q1 := Next(q, Expire(now));
    assert q1.timers == q1.expired + q1.timers;
  }
}
