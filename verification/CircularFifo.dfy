/** The lock-free ring between one producer thread and one consumer thread. Each atomic load or
    store of `head` and `tail` and each access to `data` is one step; the threads interleave
    arbitrarily. The atomics are sequentially consistent. */
module CircularFifo {
  import opened Rounding

  function NextIndex(index: nat, size: nat): nat {
    (index + 1) % (size + 1)
  }

  function PreviousIndex(index: nat, size: nat): nat {
    (index + size) % (size + 1)
  }

  // ---- The two threads ----

  /** Where the producer stands inside `push`. */
  datatype Producer<T> =
    | PIdle
    | PLoadedTail(item: T, tail: nat)
    | PWriting(item: T, tail: nat)
    | PStoring(item: T, tail: nat)

  /** Where the consumer stands inside `pop` or `clearAndPopLast`. `scanned` counts the turns of
      the scan loop and `seen` the pushes completed at its last load of `tail`; the code reads
      neither. */
  datatype Consumer<T> =
    | CIdle
    | CPopLoadedHead(head: nat)
    | CPopReading(head: nat)
    | CPopStoring(head: nat, item: T)
    | CScanning(head: nat, hasData: bool, scanned: nat)
    | CReadingLast(head: nat, hasData: bool, scanned: nat, seen: nat)
    | CClearStoring(head: nat, hasData: bool, scanned: nat, seen: nat, item: T)

  /** `pushed` and `taken` are history: all items ever published and how many of them the
      consumer has released. The code reads neither. */
  datatype State<T> = State(
    size: nat, head: nat, tail: nat, data: seq<T>,
    producer: Producer<T>, consumer: Consumer<T>,
    pushed: seq<T>, taken: nat)

  datatype Action<T> = BeginPush(item: T) | ProducerStep | BeginPop | BeginClear | ConsumerStep

  predicate Enabled<T>(s: State<T>, a: Action<T>) {
    match a
    case BeginPush(_) => s.producer.PIdle?
    case ProducerStep => !s.producer.PIdle?
    case BeginPop => s.consumer.CIdle?
    case BeginClear => s.consumer.CIdle?
    case ConsumerStep => !s.consumer.CIdle?
  }

  predicate IndicesInRange<T>(s: State<T>) {
    |s.data| == s.size + 1
    && (s.producer.PWriting? || s.producer.PStoring? ==> s.producer.tail <= s.size)
    && (!s.consumer.CIdle? ==> s.consumer.head <= s.size)
  }

  function Step<T>(s: State<T>, a: Action<T>): State<T>
    requires IndicesInRange(s) && Enabled(s, a)
  {
    match a
    case BeginPush(item) => s.(producer := PLoadedTail(item, s.tail))
    case BeginPop => s.(consumer := CPopLoadedHead(s.head))
    case BeginClear => s.(consumer := CScanning(s.head, false, 0))
    case ProducerStep => (
      match s.producer
      case PLoadedTail(item, t) =>
        s.(producer := if NextIndex(t, s.size) != s.head then PWriting(item, t) else PIdle)
      case PWriting(item, t) => s.(data := s.data[t := item], producer := PStoring(item, t))
      case PStoring(item, t) =>
        s.(tail := NextIndex(t, s.size), producer := PIdle, pushed := s.pushed + [item])
    )
    case ConsumerStep => (
      match s.consumer
      case CPopLoadedHead(h) => s.(consumer := if h == s.tail then CIdle else CPopReading(h))
      case CPopReading(h) => s.(consumer := CPopStoring(h, s.data[h]))
      case CPopStoring(h, _) =>
        s.(head := NextIndex(h, s.size), consumer := CIdle, taken := s.taken + 1)
      case CScanning(h, hasData, n) =>
        if h != s.tail then s.(consumer := CScanning(NextIndex(h, s.size), true, n + 1))
        else s.(consumer := CReadingLast(h, hasData, n, |s.pushed|))
      case CReadingLast(h, hasData, n, seen) =>
        s.(consumer := CClearStoring(h, hasData, n, seen, s.data[PreviousIndex(h, s.size)]))
      case CClearStoring(h, _, n, _, _) => s.(head := h, consumer := CIdle, taken := s.taken + n)
    )
  }

  function Init<T>(data: seq<T>): State<T>
    requires |data| > 0
  {
    State(|data| - 1, 0, 0, data, PIdle, CIdle, [], 0)
  }

  // ---- The invariant of all interleavings ----

  ghost predicate RingInv<T>(s: State<T>) {
    var n := s.size + 1;
    && |s.data| == n
    && s.taken <= |s.pushed| <= s.taken + s.size
    && s.head == s.taken % n && s.tail == |s.pushed| % n
    && forall k :: s.taken <= k < |s.pushed| ==> s.data[k % n] == s.pushed[k]
  }

  ghost predicate ProducerInv<T>(s: State<T>)
    requires |s.data| == s.size + 1
  {
    match s.producer
    case PIdle => true
    case PLoadedTail(_, t) => t == s.tail
    case PWriting(_, t) => t == s.tail <= s.size && |s.pushed| < s.taken + s.size
    case PStoring(item, t) => t == s.tail <= s.size && |s.pushed| < s.taken + s.size && s.data[t] == item
  }

  ghost predicate ScanInv<T>(s: State<T>, h: nat, hasData: bool, n: nat) {
    h == (s.taken + n) % (s.size + 1) && s.taken + n <= |s.pushed| && (hasData <==> n > 0)
  }

  ghost predicate ConsumerInv<T>(s: State<T>) {
    match s.consumer
    case CIdle => true
    case CPopLoadedHead(h) => h == s.head
    case CPopReading(h) => h == s.head && s.taken < |s.pushed|
    case CPopStoring(h, item) => h == s.head && s.taken < |s.pushed| && item == s.pushed[s.taken]
    case CScanning(h, hasData, n) => ScanInv(s, h, hasData, n)
    case CReadingLast(h, hasData, n, seen) => ScanInv(s, h, hasData, n) && seen == s.taken + n
    case CClearStoring(h, hasData, n, seen, item) =>
      ScanInv(s, h, hasData, n) && seen == s.taken + n && (hasData ==> item == s.pushed[seen - 1])
  }

  ghost predicate Inv<T>(s: State<T>) {
    RingInv(s) && ProducerInv(s) && ConsumerInv(s)
  }

  lemma NextOfResidue(k: nat, size: nat)
    ensures NextIndex(k % (size + 1), size) == (k + 1) % (size + 1)
  {
    var n := size + 1;
    ModShift(k % n + 1, n, k / n);
    assert k + 1 == k % n + 1 + k / n * n;
  }

  lemma PreviousOfResidue(k: nat, size: nat)
    ensures PreviousIndex(k % (size + 1), size) == (k + size) % (size + 1)
    ensures k > 0 ==> PreviousIndex(k % (size + 1), size) == (k - 1) % (size + 1)
  {
    var n := size + 1;
    ModShift(k % n + size, n, k / n);
    assert k + size == k % n + size + k / n * n;
    ModShift(k - 1, n, 1);
  }

  /** Positions less than a full ring apart use different slots. */
  lemma DistinctSlots(a: nat, b: nat, size: nat)
    requires a < b <= a + size
    ensures a % (size + 1) != b % (size + 1)
  {
    EqualResidues(b, a, size + 1);
    if (b - a) % (size + 1) == 0 {
      CongruentGap(b, a, size + 1);
    }
  }

  lemma InvImpliesRange<T>(s: State<T>)
    requires Inv(s)
    ensures IndicesInRange(s)
  {
  }

  lemma InitInv<T>(data: seq<T>)
    requires |data| > 0
    ensures Inv(Init(data))
  {
  }

  lemma ProducerStepInv<T>(s: State<T>)
    requires Inv(s) && IndicesInRange(s) && Enabled(s, ProducerStep)
    ensures Inv(Step(s, ProducerStep))
  {
    var size, n, count := s.size, s.size + 1, |s.pushed|;
    NextOfResidue(count, size);
    match s.producer
    case PLoadedTail(_, _) =>
      if count == s.taken + size { ModShift(s.taken, n, 1); }
    case PWriting(_, t) =>
      forall k | s.taken <= k < count
        ensures k % n != t
      {
        DistinctSlots(k, count, size);
      }
    case PStoring(_, _) =>
  }

  lemma ScanStepInv<T>(s: State<T>)
    requires Inv(s) && IndicesInRange(s) && s.consumer.CScanning?
    ensures Inv(Step(s, ConsumerStep))
  {
    var h, k := s.consumer.head, s.taken + s.consumer.scanned;
    NextOfResidue(k, s.size);
    if k < |s.pushed| {
      DistinctSlots(k, |s.pushed|, s.size);
      assert h != s.tail;
      assert ScanInv(s, NextIndex(h, s.size), true, s.consumer.scanned + 1);
    } else {
      assert h == s.tail;
    }
  }

  lemma PopStoreInv<T>(s: State<T>)
    requires Inv(s) && IndicesInRange(s) && s.consumer.CPopStoring?
    ensures Inv(Step(s, ConsumerStep))
  {
    NextOfResidue(s.taken, s.size);
  }

  lemma ReadLastInv<T>(s: State<T>)
    requires Inv(s) && IndicesInRange(s) && s.consumer.CReadingLast?
    ensures Inv(Step(s, ConsumerStep))
  {
    PreviousOfResidue(s.taken + s.consumer.scanned, s.size);
  }

  lemma ConsumerStepInv<T>(s: State<T>)
    requires Inv(s) && IndicesInRange(s) && Enabled(s, ConsumerStep)
    ensures Inv(Step(s, ConsumerStep))
  {
    match s.consumer
    case CPopLoadedHead(_) =>
    case CPopReading(_) =>
    case CPopStoring(_, _) => PopStoreInv(s);
    case CScanning(_, _, _) => ScanStepInv(s);
    case CReadingLast(_, _, _, _) => ReadLastInv(s);
    case CClearStoring(_, _, _, _, _) =>
  }

  lemma StepInv<T>(s: State<T>, a: Action<T>)
    requires Inv(s) && IndicesInRange(s) && Enabled(s, a)
    ensures Inv(Step(s, a))
  {
    match a
    case ProducerStep => ProducerStepInv(s);
    case ConsumerStep => ConsumerStepInv(s);
    case _ =>
  }

  // ---- The queue that the ring refines ----

  /** What a caller of the ring can observe, at the step where the operation takes effect. */
  datatype Event<T> =
    | Internal
    | Pushed(item: T)
    | RejectedFull
    | Popped(item: T)
    | FoundEmpty
    | ClearedTo(item: T, count: nat)

  function EventOf<T>(s: State<T>, a: Action<T>): Event<T> {
    match (a, s.producer, s.consumer)
    case (ProducerStep, PLoadedTail(_, t), _) => if NextIndex(t, s.size) != s.head then Internal else RejectedFull
    case (ProducerStep, PStoring(item, _), _) => Pushed(item)
    case (ConsumerStep, _, CPopLoadedHead(h)) => if h == s.tail then FoundEmpty else Internal
    case (ConsumerStep, _, CPopStoring(_, item)) => Popped(item)
    case (ConsumerStep, _, CScanning(h, hasData, _)) => if h == s.tail && !hasData then FoundEmpty else Internal
    case (ConsumerStep, _, CClearStoring(_, hasData, n, _, item)) => if hasData then ClearedTo(item, n) else Internal
    case _ => Internal
  }

  /** A bounded queue taking one observable event. */
  ghost predicate QueueStep<T>(capacity: nat, q: seq<T>, e: Event<T>, q': seq<T>) {
    match e
    case Internal => q' == q
    case Pushed(x) => |q| < capacity && q' == q + [x]
    case RejectedFull => |q| == capacity && q' == q
    case Popped(x) => q == [x] + q'
    case FoundEmpty => q == [] && q' == []
    case ClearedTo(x, n) => 0 < n <= |q| && x == q[n - 1] && q' == q[n..]
  }

  ghost function Queue<T>(s: State<T>): seq<T>
    requires s.taken <= |s.pushed|
  {
    s.pushed[s.taken..]
  }

  lemma ProducerStepRefinesQueue<T>(s: State<T>)
    requires Inv(s) && IndicesInRange(s) && Enabled(s, ProducerStep) && Inv(Step(s, ProducerStep))
    ensures QueueStep(s.size, Queue(s), EventOf(s, ProducerStep), Queue(Step(s, ProducerStep)))
  {
    var count := |s.pushed|;
    match s.producer
    case PLoadedTail(_, _) =>
      NextOfResidue(count, s.size);
      if s.taken + s.size > count { DistinctSlots(s.taken, count + 1, s.size); }
    case PWriting(_, _) =>
    case PStoring(item, _) =>
      assert (s.pushed + [item])[s.taken..] == s.pushed[s.taken..] + [item];
  }

  /** A head that has caught up with the tail means an empty queue, and only that. */
  lemma EmptyWhenEqual<T>(s: State<T>)
    requires RingInv(s)
    ensures s.head == s.tail <==> Queue(s) == []
  {
    if s.taken < |s.pushed| { DistinctSlots(s.taken, |s.pushed|, s.size); }
  }

  lemma ConsumerStepRefinesQueue<T>(s: State<T>)
    requires Inv(s) && IndicesInRange(s) && Enabled(s, ConsumerStep) && Inv(Step(s, ConsumerStep))
    ensures QueueStep(s.size, Queue(s), EventOf(s, ConsumerStep), Queue(Step(s, ConsumerStep)))
  {
    EmptyWhenEqual(s);
    match s.consumer
    case CPopLoadedHead(_) =>
    case CPopReading(_) =>
    case CPopStoring(_, _) => ConsSlice(s.pushed, s.taken, |s.pushed| - s.taken - 1);
    case CScanning(_, _, n) => assert s.taken + 0 == s.taken;
    case CReadingLast(_, _, _, _) =>
    case CClearStoring(_, _, _, _, _) => ClearRefinesQueue(s);
  }

  lemma ClearRefinesQueue<T>(s: State<T>)
    requires Inv(s) && IndicesInRange(s) && s.consumer.CClearStoring? && Inv(Step(s, ConsumerStep))
    ensures QueueStep(s.size, Queue(s), EventOf(s, ConsumerStep), Queue(Step(s, ConsumerStep)))
  {
    DropDrop(s.pushed, s.taken, s.consumer.scanned);
  }

  /** Every step of either thread is a step of the queue. */
  lemma StepRefinesQueue<T>(s: State<T>, a: Action<T>)
    requires Inv(s) && IndicesInRange(s) && Enabled(s, a) && Inv(Step(s, a))
    ensures QueueStep(s.size, Queue(s), EventOf(s, a), Queue(Step(s, a)))
  {
    match a
    case ProducerStep => ProducerStepRefinesQueue(s);
    case ConsumerStep => ConsumerStepRefinesQueue(s);
    case _ =>
  }

  /** A push gives up exactly when the queue is full at that moment. */
  lemma FullExactly<T>(s: State<T>)
    requires Inv(s) && IndicesInRange(s) && s.producer.PLoadedTail?
    ensures EventOf(s, ProducerStep) == RejectedFull <==> |Queue(s)| == s.size
    ensures Step(s, ProducerStep).producer.PIdle? <==> |Queue(s)| == s.size
  {
    var size, n, count := s.size, s.size + 1, |s.pushed|;
    NextOfResidue(count, size);
    if count == s.taken + size {
      ModShift(s.taken, n, 1);
    } else {
      DistinctSlots(s.taken, count + 1, size);
    }
  }

  /** A pop or a clear reports that it has found nothing exactly when the queue is empty at that moment. */
  lemma EmptyExactly<T>(s: State<T>)
    requires Inv(s) && IndicesInRange(s)
    ensures s.consumer.CPopLoadedHead? ==>
              (EventOf(s, ConsumerStep) == FoundEmpty <==> Queue(s) == [])
              && (Step(s, ConsumerStep).consumer.CIdle? <==> Queue(s) == [])
    ensures s.consumer.CScanning? ==> (EventOf(s, ConsumerStep) == FoundEmpty <==> Queue(s) == [])
  {
    EmptyWhenEqual(s);
    if s.consumer.CScanning? && s.consumer.scanned == 0 { assert s.taken + 0 == s.taken; }
  }

  // ---- Whole runs ----

  ghost predicate IsRun<T>(s: State<T>, actions: seq<Action<T>>)
    decreases |actions|
  {
    actions == []
    || (IndicesInRange(s) && Enabled(s, actions[0]) && IsRun(Step(s, actions[0]), actions[1..]))
  }

  ghost function After<T>(s: State<T>, actions: seq<Action<T>>): State<T>
    requires IsRun(s, actions)
    decreases |actions|
  {
    if actions == [] then s else After(Step(s, actions[0]), actions[1..])
  }

  ghost function Trace<T>(s: State<T>, actions: seq<Action<T>>): seq<Event<T>>
    requires IsRun(s, actions)
    decreases |actions|
  {
    if actions == [] then []
    else [EventOf(s, actions[0])] + Trace(Step(s, actions[0]), actions[1..])
  }

  ghost predicate QueueAccepts<T(!new)>(capacity: nat, q: seq<T>, trace: seq<Event<T>>, q': seq<T>)
    decreases |trace|
  {
    if trace == [] then q == q'
    else exists mid :: QueueStep(capacity, q, trace[0], mid) && QueueAccepts(capacity, mid, trace[1..], q')
  }

  /** Whatever the interleaving, the observable behaviour is that of a first-in first-out queue
      of the given capacity. */
  lemma {:induction false} RunRefinesQueue<T(!new)>(s: State<T>, actions: seq<Action<T>>)
    requires Inv(s) && IsRun(s, actions)
    ensures Inv(After(s, actions))
    ensures QueueAccepts(s.size, Queue(s), Trace(s, actions), Queue(After(s, actions)))
    decreases |actions|
  {
    if actions != [] {
      var next := Step(s, actions[0]);
      StepInv(s, actions[0]);
      StepRefinesQueue(s, actions[0]);
      RunRefinesQueue(next, actions[1..]);
      var trace := Trace(s, actions);
      assert trace[1..] == Trace(next, actions[1..]);
      assert QueueStep(s.size, Queue(s), trace[0], Queue(next));
    }
  }

  /** Every index that a thread uses is in range, so that whatever is enabled at the end of a run can
      be its next step: runs are all interleavings of the two threads. */
  lemma {:induction false} NoInterleavingIsExcluded<T(!new)>(s: State<T>, actions: seq<Action<T>>, next: Action<T>)
    requires Inv(s) && IsRun(s, actions)
    ensures IsRun(s, actions + [next]) <==> Enabled(After(s, actions), next)
    decreases |actions|
  {
    InvImpliesRange(s);
    if actions == [] {
      assert ([] + [next])[0] == next && ([] + [next])[1..] == [];
    } else {
      StepInv(s, actions[0]);
      NoInterleavingIsExcluded(Step(s, actions[0]), actions[1..], next);
      assert (actions + [next])[1..] == actions[1..] + [next];
    }
  }

  /** The producer never writes a slot that the consumer may be reading, not even the slot that
      clearAndPopLast reads when it has found nothing. */
  lemma NoSlotIsWrittenWhileRead<T>(s: State<T>)
    requires Inv(s) && s.producer.PWriting?
    ensures s.consumer.CPopReading? ==> s.consumer.head != s.producer.tail
    ensures s.consumer.CReadingLast? ==> PreviousIndex(s.consumer.head, s.size) != s.producer.tail
  {
    var count := |s.pushed|;
    if s.consumer.CPopReading? {
      DistinctSlots(s.taken, count, s.size);
    }
    if s.consumer.CReadingLast? {
      var k := s.taken + s.consumer.scanned;
      PreviousOfResidue(k, s.size);
      if s.consumer.hasData {
        DistinctSlots(k - 1, count, s.size);
      } else {
        DistinctSlots(count, k + s.size, s.size);
      }
    }
  }

  /** The scan of clearAndPopLast turns at most `size` times however fast the producer pushes,
      and it ends having seen every item published by its last load of `tail`: the item it
      returns is the newest of those. */
  lemma ClearIsWaitFree<T(!new)>(s: State<T>, actions: seq<Action<T>>)
    requires Inv(s) && IsRun(s, actions)
    ensures var e := After(s, actions).consumer;
            (e.CScanning? || e.CReadingLast? || e.CClearStoring? ==> e.scanned <= s.size)
            && (e.CClearStoring? && e.hasData ==>
                  0 < e.seen <= |After(s, actions).pushed| && e.item == After(s, actions).pushed[e.seen - 1])
  {
    RunRefinesQueue(s, actions);
    SizeIsFixed(s, actions);
  }

  lemma {:induction false} SizeIsFixed<T>(s: State<T>, actions: seq<Action<T>>)
    requires IsRun(s, actions)
    ensures After(s, actions).size == s.size
    decreases |actions|
  {
    if actions != [] {
      SizeIsFixed(Step(s, actions[0]), actions[1..]);
    }
  }

  // ---- First in, first out, read off a trace ----

  ghost function ItemsPushed<T>(trace: seq<Event<T>>): seq<T> {
    if trace == [] then []
    else (if trace[0].Pushed? then [trace[0].item] else []) + ItemsPushed(trace[1..])
  }

  ghost function ItemsPopped<T>(trace: seq<Event<T>>): seq<T> {
    if trace == [] then []
    else (if trace[0].Popped? then [trace[0].item] else []) + ItemsPopped(trace[1..])
  }

  ghost predicate NoClears<T>(trace: seq<Event<T>>) {
    trace == [] || (!trace[0].ClearedTo? && NoClears(trace[1..]))
  }

  /** How many items an event removes from the queue. */
  ghost function RemovedBy<T>(e: Event<T>): nat {
    if e.Popped? then 1 else if e.ClearedTo? then e.count else 0
  }

  ghost function Removed<T>(trace: seq<Event<T>>): nat {
    if trace == [] then 0 else RemovedBy(trace[0]) + Removed(trace[1..])
  }

  /** An event that comes after `done` items of the history have been removed returns the newest of
      those that it removes itself. */
  ghost predicate ReturnsFrom<T>(history: seq<T>, done: nat, e: Event<T>) {
    (e.Popped? ==> done < |history| && e.item == history[done])
    && (e.ClearedTo? ==> done + e.count <= |history| && 0 < e.count && e.item == history[done + e.count - 1])
  }

  /** The events take the items of the history one after the other from `done` on. */
  ghost predicate Takes<T>(history: seq<T>, done: nat, trace: seq<Event<T>>)
    decreases |trace|
  {
    trace == []
    || (ReturnsFrom(history, done, trace[0]) && Takes(history, done + RemovedBy(trace[0]), trace[1..]))
  }

  /** That is, each event returns from where all events before it have ended. */
  lemma {:induction false} TakesAt<T>(history: seq<T>, done: nat, trace: seq<Event<T>>, i: nat)
    requires Takes(history, done, trace) && i < |trace|
    ensures ReturnsFrom(history, done + Removed(trace[..i]), trace[i])
    decreases i
  {
    if i > 0 {
      TakesAt(history, done + RemovedBy(trace[0]), trace[1..], i - 1);
      assert trace[..i][1..] == trace[1..][..i - 1];
    }
  }

  /** The events take the items of the history from `done` on, in order, and leave `q'`. */
  ghost predicate InOrder<T>(history: seq<T>, done: nat, trace: seq<Event<T>>, q': seq<T>) {
    Takes(history, done, trace)
    && done + Removed(trace) <= |history| && q' == history[done + Removed(trace)..]
  }

  /** What is queued and will be pushed is the rest of the history, before and after an event. */
  lemma HistoryStep<T>(capacity: nat, history: seq<T>, done: nat, q: seq<T>, e: Event<T>, mid: seq<T>, pushes: seq<T>)
    requires QueueStep(capacity, q, e, mid) && done <= |history|
    requires history[done..] == q + ((if e.Pushed? then [e.item] else []) + pushes)
    ensures var next := done + RemovedBy(e);
            next <= |history| && history[next..] == mid + pushes && ReturnsFrom(history, done, e)
  {
    if e.Pushed? {
      assert q + [e.item] + pushes == q + ([e.item] + pushes);
    } else {
      assert [] + pushes == pushes;
      TakeStep(history, done, q, pushes, RemovedBy(e));
    }
  }

  lemma TakeStep<T>(history: seq<T>, done: nat, q: seq<T>, pushes: seq<T>, k: nat)
    requires done <= |history| && history[done..] == q + pushes && k <= |q|
    ensures done + k <= |history| && history[done + k..] == q[k..] + pushes
    ensures k > 0 ==> history[done + k - 1] == q[k - 1]
  {
    var left := history[done..];
    assert |left| == |q| + |pushes|;
    assert k > 0 ==> left[k - 1] == history[done + k - 1];
    DropDrop(history, done, k);
    assert (q + pushes)[k..] == q[k..] + pushes;
  }

  lemma DropDrop<T>(s: seq<T>, a: nat, b: nat)
    requires a + b <= |s|
    ensures s[a..][b..] == s[a + b..]
  {
  }

  /** Over all events, clears included: the items removed one after the other and what is still queued
      are exactly what was queued and then pushed, in order, and each removal returns the newest item
      that it takes. */
  lemma {:induction false} FifoOrder<T(!new)>(capacity: nat, history: seq<T>, done: nat, q: seq<T>,
      trace: seq<Event<T>>, q': seq<T>)
    requires QueueAccepts(capacity, q, trace, q')
    requires done <= |history| && history[done..] == q + ItemsPushed(trace)
    ensures InOrder(history, done, trace, q')
    decreases |trace|
  {
    if trace != [] {
      var e := trace[0];
      var mid :| QueueStep(capacity, q, e, mid) && QueueAccepts(capacity, mid, trace[1..], q');
      HistoryStep(capacity, history, done, q, e, mid, ItemsPushed(trace[1..]));
      FifoOrder(capacity, history, done + RemovedBy(e), mid, trace[1..], q');
    }
  }

  /** Without clears the popped items are therefore a part of that history. */
  lemma {:induction false} PopsInOrder<T>(history: seq<T>, done: nat, trace: seq<Event<T>>)
    requires NoClears(trace) && Takes(history, done, trace) && done + Removed(trace) <= |history|
    ensures ItemsPopped(trace) == history[done..done + Removed(trace)]
    decreases |trace|
  {
    if trace != [] {
      PopsInOrder(history, done + RemovedBy(trace[0]), trace[1..]);
      if trace[0].Popped? {
        ConsSlice(history, done, Removed(trace[1..]));
      } else {
        assert [] + ItemsPopped(trace[1..]) == ItemsPopped(trace[1..]);
      }
    }
  }

  lemma ConsSlice<T>(s: seq<T>, from: nat, n: nat)
    requires from + 1 + n <= |s|
    ensures [s[from]] + s[from + 1..from + 1 + n] == s[from..from + 1 + n]
  {
  }

  lemma PopsThenQueued<T>(history: seq<T>, trace: seq<Event<T>>, q': seq<T>)
    requires NoClears(trace) && InOrder(history, 0, trace, q')
    ensures ItemsPopped(trace) + q' == history
  {
    PopsInOrder(history, 0, trace);
    SplitAt(history, Removed(trace));
  }

  lemma SplitAt<T>(s: seq<T>, k: nat)
    requires k <= |s|
    ensures s[0..k] + s[k..] == s
  {
  }

  lemma FromEmpty<T(!new)>(capacity: nat, trace: seq<Event<T>>, q': seq<T>)
    requires QueueAccepts(capacity, [], trace, q')
    ensures InOrder(ItemsPushed(trace), 0, trace, q')
    ensures NoClears(trace) ==> ItemsPopped(trace) + q' == ItemsPushed(trace)
  {
    var history := ItemsPushed(trace);
    assert history[0..] == [] + history;
    FifoOrder(capacity, history, 0, [], trace, q');
    if NoClears(trace) { PopsThenQueued(history, trace, q'); }
  }

  /** From an empty ring and with any interleaving: pops and clears take the pushed items in order,
      each clear returning the newest that it takes, and what they have not taken is still queued.
      Without clears, pops return exactly the pushed items in order. */
  lemma PopsReturnPushesInOrder<T(!new)>(data: seq<T>, actions: seq<Action<T>>)
    requires |data| > 0 && IsRun(Init(data), actions)
    ensures var s, trace := Init(data), Trace(Init(data), actions);
            Inv(After(s, actions))
            && InOrder(ItemsPushed(trace), 0, trace, Queue(After(s, actions)))
            && (NoClears(trace) ==> ItemsPopped(trace) + Queue(After(s, actions)) == ItemsPushed(trace))
  {
    var s := Init(data);
    InitInv(data);
    RunRefinesQueue(s, actions);
    assert Queue(s) == [];
    FromEmpty(s.size, Trace(s, actions), Queue(After(s, actions)));
  }

  // ---- The same operations, each run without interruption ----

  datatype PoppedItem<T> = PoppedItem(item: T, valid: bool)

  function SlotAfter(i: nat, length: nat): nat {
    if i + 1 == length then 0 else i + 1
  }

  function SlotBefore(i: nat, length: nat): nat {
    if i > 0 then i - 1 else if length > 0 then length - 1 else 0
  }

  lemma IndexWraps(i: nat, size: nat)
    requires i <= size
    ensures NextIndex(i, size) == SlotAfter(i, size + 1)
    ensures PreviousIndex(i, size) == SlotBefore(i, size + 1)
  {
    var n := size + 1;
    if i == size { ModUnique(i + 1, n, 0, 1); } else { ModUnique(i + 1, n, i + 1, 0); }
    if i == 0 { ModUnique(size, n, size, 0); } else { ModUnique(i + size, n, i - 1, 1); }
  }

  /** The items from slot `from` up to slot `to`, going round the end of the ring. */
  ghost function Between<T>(data: seq<T>, from: nat, to: nat): (items: seq<T>)
    requires from < |data| && to < |data|
    ensures |items| < |data|
    ensures items == [] <==> from == to
  {
    if from <= to then data[from..to] else data[from..] + data[..to]
  }

  lemma BetweenAdvances<T>(data: seq<T>, from: nat, to: nat)
    requires from < |data| && to < |data| && from != to
    ensures Between(data, from, to) == [data[from]] + Between(data, SlotAfter(from, |data|), to)
  {
    if from < to {
      assert data[from..to] == [data[from]] + data[from + 1..to];
    } else {
      assert data[from..] == [data[from]] + data[from + 1..];
      assert [data[from]] + data[from + 1..] + data[..to] == [data[from]] + (data[from + 1..] + data[..to]);
      if from + 1 == |data| { assert data[from + 1..] + data[..to] == data[0..to]; }
    }
  }

  /** The scan has gone past the items `passed` and stands at slot `current`. */
  ghost predicate ScanState<T>(data: seq<T>, items: seq<T>, current: nat, tail: nat, passed: seq<T>)
    requires tail < |data|
  {
    && current < |data|
    && items == passed + Between(data, current, tail)
    && (passed != [] ==> data[SlotBefore(current, |data|)] == passed[|passed| - 1])
  }

  lemma MoveAcross<T>(items: seq<T>, passed: seq<T>, x: T, ahead: seq<T>, rest: seq<T>)
    requires items == passed + ahead && ahead == [x] + rest
    ensures items == (passed + [x]) + rest && |rest| < |ahead|
    ensures (passed + [x])[|passed + [x]| - 1] == x
  {
  }

  lemma ScanTurn<T>(data: seq<T>, items: seq<T>, current: nat, tail: nat, passed: seq<T>)
    requires tail < |data| && ScanState(data, items, current, tail, passed) && current != tail
    ensures ScanState(data, items, SlotAfter(current, |data|), tail, passed + [data[current]])
    ensures |Between(data, SlotAfter(current, |data|), tail)| < |Between(data, current, tail)|
  {
    var next := SlotAfter(current, |data|);
    BetweenAdvances(data, current, tail);
    MoveAcross(items, passed, data[current], Between(data, current, tail), Between(data, next, tail));
  }

  class Fifo<T(0)> {
    const size: nat
    var tail: nat
    var head: nat
    const data: array<T>

    ghost predicate Valid()
      reads this
    {
      data.Length == size + 1 && head <= size && tail <= size
    }

    ghost function Items(): (items: seq<T>)
      requires Valid()
      reads this, data
      ensures |items| <= size
    {
      Between(data[..], head, tail)
    }

    constructor (size: nat)
      ensures Valid() && this.size == size && Items() == [] && fresh(data)
    {
      this.size := size;
      tail, head := 0, 0;
      data := new T[size + 1];
    }

    method Push(item: T) returns (ok: bool)
      requires Valid()
      modifies `tail, data
      ensures Valid()
      ensures ok <==> |old(Items())| < size
      ensures Items() == if ok then old(Items()) + [item] else old(Items())
    {
      var currentTail := tail;
      var nextTail := NextIndex(currentTail, size);
      IndexWraps(currentTail, size);
      if nextTail != head {
        data[currentTail] := item;
        tail := nextTail;
        return true;
      }
      return false;
    }

    method Pop() returns (r: PoppedItem<T>)
      requires Valid()
      modifies `head
      ensures Valid()
      ensures r.valid <==> old(Items()) != []
      ensures if r.valid then old(Items()) == [r.item] + Items() else Items() == []
    {
      var currentHead := head;
      if currentHead == tail {
        var none: T := *;
        return PoppedItem(none, false);
      }
      var item := data[currentHead];
      IndexWraps(currentHead, size);
      BetweenAdvances(data[..], currentHead, tail);
      head := NextIndex(currentHead, size);
      return PoppedItem(item, true);
    }

    method ClearAndPopLast() returns (r: PoppedItem<T>)
      requires Valid()
      modifies `head
      ensures Valid() && Items() == []
      ensures r.valid <==> old(Items()) != []
      ensures r.valid ==> r.item == old(Items())[|old(Items())| - 1]
    {
      var hasData := false;
      var currentHead: nat := head;
      ghost var ring, items, passed := data[..], Items(), [];
      while currentHead != tail
        invariant ScanState(ring, items, currentHead, tail, passed)
        invariant hasData <==> passed != []
        decreases |Between(ring, currentHead, tail)|
      {
        IndexWraps(currentHead, size);
        ScanTurn(ring, items, currentHead, tail, passed);
        passed := passed + [ring[currentHead]];
        currentHead := NextIndex(currentHead, size);
        hasData := true;
      }
      assert items == passed;
      IndexWraps(currentHead, size);
      var item := data[PreviousIndex(currentHead, size)];
      head := currentHead;
      return PoppedItem(item, hasData);
    }
  }
}
