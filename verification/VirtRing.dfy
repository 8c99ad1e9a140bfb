/** The split virtqueue of section 2.7 of VIRTIO 1.2 as src/devices/virtio.c drives it: one device and
    one driver over two shared rings with 16-bit indices that wrap, compared with unbounded FIFOs. */
module VirtRing {
  import opened Words
  import opened Irq

  datatype Desc = Desc(addr: U64, len: U32, flags: U16, next: U16)
  datatype UsedElem = UsedElem(id: U32, len: U32)

  const F_NEXT := 1

  /** VRING_DESC_F_NEXT is bit 0 of the flags. */
  predicate HasNext(d: Desc) { d.flags % 2 == F_NEXT }

  /** The queue as the device sees it: shared rings and private indices. The two flags stand for the
      pointer and ready tests of virtqueue_pop and virtqueue_push. */
  datatype Queue = Queue(size: U16, canPop: bool, canPush: bool,
                         availIdx: U16, avail: seq<U16>, lastAvail: U16,
                         usedIdx: U16, used: seq<UsedElem>, lastUsed: U16)

  predicate Shaped(q: Queue) {
    && (q.canPop ==> |q.avail| == q.size > 0)
    && (q.canPush ==> |q.used| == q.size > 0)
  }

  /** The ring slot a running index selects. */
  function SlotOf(k: nat, size: nat): (slot: nat)
    requires size > 0
    ensures slot < size
  {
    k % size
  }

  // ------------------------------------------------------------ device steps

  function PopHead(q: Queue): Option<U16>
    requires Shaped(q)
  {
    if !q.canPop || q.lastAvail == q.availIdx then None else Some(q.avail[SlotOf(q.lastAvail, q.size)])
  }

  function PopQueue(q: Queue): Queue
    requires Shaped(q)
  {
    if PopHead(q) == None then q else q.(lastAvail := Inc16(q.lastAvail))
  }

  function PushQueue(q: Queue, e: UsedElem): (r: Queue)
    requires Shaped(q)
    ensures Shaped(r)
  {
    if !q.canPush then q
    else q.(used := q.used[SlotOf(q.usedIdx, q.size) := e], usedIdx := Inc16(q.usedIdx), lastUsed := Inc16(q.lastUsed))
  }

  // ------------------------------------------------------- the whole system

  /** PushElsewhere is a completion on another queue of the same device, which shares the line. */
  datatype Action = Publish(head: U16) | Pop | Push(elem: UsedElem) | PushElsewhere | Consume | Ack

  /** The queue, the driver's read index, the device's interrupt line, what each party has done so far,
      and the completions on any queue of the device since the last acknowledgement. */
  datatype World = World(q: Queue, seen: U16, line: IrqLine,
                         published: seq<U16>, popped: seq<U16>,
                         pushed: seq<UsedElem>, consumed: seq<UsedElem>, sinceAck: nat)

  predicate Live(w: World) {
    Shaped(w.q) && w.q.canPop && w.q.canPush
  }

  /** The driver never has more than size heads outstanding; the device completes no more than it
      popped. Everything else may happen at any time. */
  predicate Enabled(w: World, a: Action)
    requires Live(w)
  {
    match a
    case Publish(head) => head < w.q.size && |w.published| - |w.consumed| < w.q.size
    case Push(_) => |w.pushed| < |w.popped|
    case _ => true
  }

  function Next(w: World, a: Action): (r: World)
    requires Live(w)
    ensures Live(r) && r.q.size == w.q.size
  {
    match a
    case Publish(head) =>
      w.(q := w.q.(avail := w.q.avail[SlotOf(w.q.availIdx, w.q.size) := head], availIdx := Inc16(w.q.availIdx)),
         published := w.published + [head])
    case Pop =>
      (match PopHead(w.q)
       case None => w
       case Some(head) => w.(q := PopQueue(w.q), popped := w.popped + [head]))
    case Push(e) =>
      w.(q := PushQueue(w.q, e), pushed := w.pushed + [e], line := Raise(w.line), sinceAck := w.sinceAck + 1)
    case PushElsewhere => w.(line := Raise(w.line), sinceAck := w.sinceAck + 1)
    case Consume =>
      if w.seen == w.q.usedIdx then w
      else w.(seen := Inc16(w.seen), consumed := w.consumed + [w.q.used[SlotOf(w.seen, w.q.size)]])
    case Ack => w.(line := Acknowledge(w.line), sinceAck := 0)
  }

  predicate Feasible(w: World, acts: seq<Action>)
    requires Live(w)
    decreases |acts|
  {
    acts == [] || (Enabled(w, acts[0]) && Feasible(Next(w, acts[0]), acts[1..]))
  }

  function Run(w: World, acts: seq<Action>): (r: World)
    requires Live(w)
    ensures Live(r) && r.q.size == w.q.size
    decreases |acts|
  {
    if acts == [] then w else Run(Next(w, acts[0]), acts[1..])
  }

  lemma {:induction false} RunConcat(w: World, a: seq<Action>, b: seq<Action>)
    requires Live(w) && Feasible(w, a) && Feasible(Run(w, a), b)
    ensures Feasible(w, a + b) && Run(w, a + b) == Run(Run(w, a), b)
    decreases |a|
  {
    if a == [] {
      assert a + b == b;
    } else {
      assert (a + b)[1..] == a[1..] + b;
      RunConcat(Next(w, a[0]), a[1..], b);
    }
  }

  /** A ready queue at rest; the rings' contents are arbitrary. */
  predicate Initial(w: World) {
    && Live(w)
    && w.q.availIdx == w.q.lastAvail == w.q.usedIdx == w.q.lastUsed == w.seen == 0
    && w.published == w.popped == [] && w.pushed == w.consumed == []
    && w.sinceAck == 0 && (w.line.Eventfd? ==> w.line.counter == 0)
  }

  // ----------------------------------------------------- what the rings hold

  /** How far index to is ahead of index from, modulo 2^16. */
  function Distance(from: U16, to: U16): nat { (to - from) % TWO_16 }

  /** The n ring entries from a 16-bit index on. */
  function RingSlice<T>(ring: seq<T>, from: U16, n: nat): (s: seq<T>)
    requires |ring| > 0
    ensures |s| == n
    decreases n
  {
    if n == 0 then [] else [ring[SlotOf(from, |ring|)]] + RingSlice(ring, Inc16(from), n - 1)
  }

  /** Heads made available and not yet popped, read off the shared ring alone. */
  function Pending(q: Queue): seq<U16>
    requires Shaped(q)
  {
    if q.canPop then RingSlice(q.avail, q.lastAvail, Distance(q.lastAvail, q.availIdx)) else []
  }

  /** Used elements the driver has not read, read off the shared ring alone. */
  function Unread(w: World): seq<UsedElem>
    requires Live(w)
  {
    RingSlice(w.q.used, w.seen, Distance(w.seen, w.q.usedIdx))
  }

  /** The rings behave as two unbounded FIFOs, and the eventfd counts the device's completions since
      the last acknowledgement. */
  ghost predicate Refined(w: World)
    requires Live(w)
  {
    && w.published == w.popped + Pending(w.q)
    && w.pushed == w.consumed + Unread(w)
    && |w.pushed| <= |w.popped|
    && w.q.usedIdx == w.q.lastUsed
    && (PopHead(w.q) == None <==> w.popped == w.published)
    && (w.seen == w.q.usedIdx <==> w.consumed == w.pushed)
    && (w.line.Eventfd? ==> HoldsCount(w.line, w.sinceAck) && (w.line.counter != 0 <==> w.sinceAck >= 1))
  }

  /** If size divides 2^16, a wrapped index selects the same slot as the unbounded one. */
  lemma SlotOfWrapped(k: nat, size: nat)
    requires size > 0 && TWO_16 % size == 0
    ensures SlotOf(k % TWO_16, size) == SlotOf(k, size)
  {
    var m := TWO_16 / size;
    var q, r := k / TWO_16, k % TWO_16;
    assert TWO_16 == m * size && k == q * TWO_16 + r;
    assert r == (r / size) * size + r % size;
    assert k == (q * m + r / size) * size + r % size by {
      assert q * (m * size) == (q * m) * size;
    }
    DivModUnique(k, size, q * m + r / size, r % size);
  }

  lemma SlotsDistinct(j: nat, k: nat, size: nat)
    requires size > 0 && j < k < j + size
    ensures SlotOf(j, size) != SlotOf(k, size)
  {
    if j % size == k % size {
      var d := k / size - j / size;
      assert k - j == d * size;
      if d >= 1 { MulAtLeast(d, size); }
    }
  }

  lemma IncOfCount(k: nat)
    ensures Inc16(k % TWO_16) == (k + 1) % TWO_16
  {
  }

  lemma DistanceOfCounts(j: nat, k: nat)
    requires j <= k < j + TWO_16
    ensures Distance(j % TWO_16, k % TWO_16) == k - j
  {
  }

  // -------------------------------------------------------------- invariant

  /** Counts unbounded, indices wrapped, and every outstanding entry still in its slot. */
  ghost predicate Inv(w: World) {
    && Live(w)
    && TWO_16 % w.q.size == 0
    && |w.consumed| <= |w.pushed| <= |w.popped| <= |w.published| <= |w.consumed| + w.q.size
    && w.popped == w.published[..|w.popped|]
    && w.consumed == w.pushed[..|w.consumed|]
    && w.q.availIdx == |w.published| % TWO_16
    && w.q.lastAvail == |w.popped| % TWO_16
    && w.q.usedIdx == w.q.lastUsed == |w.pushed| % TWO_16
    && w.seen == |w.consumed| % TWO_16
    && InSlots(w.q.avail, w.published, |w.popped|)
    && InSlots(w.q.used, w.pushed, |w.consumed|)
    && (w.line.Eventfd? ==> HoldsCount(w.line, w.sinceAck))
  }

  /** Entries number from, from+1, ... of the history are in their ring slots. */
  ghost predicate InSlots<T>(ring: seq<T>, history: seq<T>, from: nat) {
    |ring| > 0 && forall k :: from <= k < |history| ==> ring[SlotOf(k, |ring|)] == history[k]
  }

  lemma {:induction false} SliceIsHistory<T>(ring: seq<T>, history: seq<T>, from: nat)
    requires from <= |history| && InSlots(ring, history, from) && TWO_16 % |ring| == 0
    ensures RingSlice(ring, from % TWO_16, |history| - from) == history[from..]
    decreases |history| - from
  {
    if from < |history| {
      SliceIsHistory(ring, history, from + 1);
      SlotOfWrapped(from, |ring|);
      IncOfCount(from);
      assert ring[SlotOf(from, |ring|)] == history[from];
      SliceStep(ring, from % TWO_16, |history| - from);
      assert history[from..] == [history[from]] + history[from + 1..];
    }
  }

  lemma SliceStep<T>(ring: seq<T>, from: U16, n: nat)
    requires |ring| > 0 && n > 0
    ensures RingSlice(ring, from, n) == [ring[SlotOf(from, |ring|)]] + RingSlice(ring, Inc16(from), n - 1)
  {
  }

  /** Appending an entry in its slot keeps the outstanding ones, as long as they fit. */
  lemma AppendKeepsSlots<T>(ring: seq<T>, history: seq<T>, from: nat, x: T)
    requires InSlots(ring, history, from) && from <= |history| < from + |ring|
    requires TWO_16 % |ring| == 0
    ensures InSlots(ring[SlotOf(|history| % TWO_16, |ring|) := x], history + [x], from)
  {
    var n := |history|;
    SlotOfWrapped(n, |ring|);
    forall k | from <= k < n ensures SlotOf(k, |ring|) != SlotOf(n, |ring|) {
      SlotsDistinct(k, n, |ring|);
    }
  }

  lemma InitialInv(w: World)
    requires Initial(w) && TWO_16 % w.q.size == 0
    ensures Inv(w)
  {
  }

  lemma NextKeepsInv(w: World, a: Action)
    requires Inv(w) && Enabled(w, a)
    ensures Inv(Next(w, a))
  {
    match a
    case Publish(head) => PublishKeepsInv(w, head);
    case Pop => PopKeepsInv(w);
    case Push(e) => PushKeepsInv(w, e);
    case PushElsewhere =>
    case Consume => ConsumeKeepsInv(w);
    case Ack =>
  }

  lemma PublishKeepsInv(w: World, head: U16)
    requires Inv(w) && Enabled(w, Publish(head))
    ensures Inv(Next(w, Publish(head)))
  {
    AppendKeepsSlots(w.q.avail, w.published, |w.popped|, head);
    IncOfCount(|w.published|);
  }

  /** The equality test of the two 16-bit indices is exact emptiness, and the head that a pop reads
      is the oldest one not yet popped. */
  lemma PopTakesOldest(w: World)
    requires Inv(w)
    ensures PopHead(w.q) == if |w.popped| == |w.published| then None else Some(w.published[|w.popped|])
  {
    var n := |w.popped|;
    DistanceOfCounts(n, |w.published|);
    SlotOfWrapped(n, w.q.size);
    if n < |w.published| {
      assert w.q.avail[SlotOf(n, w.q.size)] == w.published[n];
    }
  }

  lemma PopKeepsInv(w: World)
    requires Inv(w)
    ensures Inv(Next(w, Pop))
  {
    var n := |w.popped|;
    PopTakesOldest(w);
    IncOfCount(n);
    if n < |w.published| {
      assert w.published[..n + 1] == w.published[..n] + [w.published[n]];
    }
  }

  lemma PushKeepsInv(w: World, e: UsedElem)
    requires Inv(w) && Enabled(w, Push(e))
    ensures Inv(Next(w, Push(e)))
  {
    AppendKeepsSlots(w.q.used, w.pushed, |w.consumed|, e);
    IncOfCount(|w.pushed|);
  }

  lemma ConsumeKeepsInv(w: World)
    requires Inv(w)
    ensures Inv(Next(w, Consume))
  {
    var n := |w.consumed|;
    DistanceOfCounts(n, |w.pushed|);
    SlotOfWrapped(n, w.q.size);
    IncOfCount(n);
    if n < |w.pushed| {
      assert w.q.used[SlotOf(n, w.q.size)] == w.pushed[n];
    }
  }

  lemma {:induction false} RunKeepsInv(w: World, acts: seq<Action>)
    requires Inv(w) && Feasible(w, acts)
    ensures Inv(Run(w, acts))
    decreases |acts|
  {
    if acts != [] {
      NextKeepsInv(w, acts[0]);
      RunKeepsInv(Next(w, acts[0]), acts[1..]);
    }
  }

  /** A ring whose outstanding entries are in their slots shows exactly those entries. */
  lemma RingShowsOutstanding<T>(ring: seq<T>, history: seq<T>, done: seq<T>, from: U16, to: U16)
    requires |done| <= |history| <= |done| + |ring| < |done| + TWO_16 && done == history[..|done|]
    requires from == |done| % TWO_16 && to == |history| % TWO_16
    requires InSlots(ring, history, |done|) && TWO_16 % |ring| == 0
    ensures history == done + RingSlice(ring, from, Distance(from, to))
    ensures from == to <==> done == history
  {
    SliceIsHistory(ring, history, |done|);
    DistanceOfCounts(|done|, |history|);
    assert history == history[..|done|] + history[|done|..];
  }

  lemma InvImpliesRefined(w: World)
    requires Inv(w)
    ensures Refined(w)
  {
    RingShowsOutstanding(w.q.avail, w.published, w.popped, w.q.lastAvail, w.q.availIdx);
    RingShowsOutstanding(w.q.used, w.pushed, w.consumed, w.seen, w.q.usedIdx);
  }

  /** Every interleaving of driver and device steps refines the two FIFOs, over every index wrap. */
  lemma EveryRunRefines(w: World, acts: seq<Action>)
    requires Initial(w) && TWO_16 % w.q.size == 0 && Feasible(w, acts)
    ensures Refined(Run(w, acts))
  {
    InitialInv(w);
    RunKeepsInv(w, acts);
    InvImpliesRefined(Run(w, acts));
  }

  // ---------------------------------------------------- the interrupt line

  /** If acts is a run, the line holds its completions since the last acknowledgement. */
  predicate RunIsCounted(w: World, acts: seq<Action>)
    requires Live(w)
  {
    Feasible(w, acts) ==> HoldsCount(Run(w, acts).line, Run(w, acts).sinceAck)
  }

  predicate RunIsSilent(w: World, acts: seq<Action>)
    requires Live(w)
  {
    Feasible(w, acts) ==> Run(w, acts).line == w.line
  }

  lemma {:induction false} LineKeepsCount(w: World, acts: seq<Action>)
    requires Live(w) && Feasible(w, acts) && (w.line.Eventfd? ==> HoldsCount(w.line, w.sinceAck))
    ensures var r := Run(w, acts);
      if w.line.Eventfd? then HoldsCount(r.line, r.sinceAck) else r.line == w.line
    decreases |acts|
  {
    if acts != [] {
      LineKeepsCount(Next(w, acts[0]), acts[1..]);
    }
  }

  /** The line holds the completions of every run, whatever the queue size, if and only if it is an
      eventfd; any other line is never touched. */
  lemma CountsIffEventfd(w: World)
    requires Initial(w)
    ensures (forall acts :: RunIsCounted(w, acts)) <==> w.line.Eventfd?
    ensures !w.line.Eventfd? ==> forall acts :: RunIsSilent(w, acts)
  {
    if w.line.Eventfd? {
      forall acts ensures RunIsCounted(w, acts) {
        if Feasible(w, acts) { LineKeepsCount(w, acts); }
      }
    } else {
      forall acts ensures RunIsSilent(w, acts) {
        if Feasible(w, acts) { LineKeepsCount(w, acts); }
      }
      assert !RunIsCounted(w, []);
    }
  }

  // ----------------------------------------------------- serving a request

  /** What a device answers to successive heads: a used element, or nothing when it gives up. */
  type Replies = seq<Option<UsedElem>>

  function Answered(replies: Replies): seq<UsedElem> {
    if replies == [] then []
    else (match replies[0] case None => [] case Some(e) => [e]) + Answered(replies[1..])
  }

  /** One pop for each reply, and a push when there is an answer. */
  function ServeActs(replies: Replies): seq<Action> {
    if replies == [] then [] else ServeOneActs(replies[0]) + ServeActs(replies[1..])
  }

  function ServeOneActs(reply: Option<UsedElem>): seq<Action> {
    match reply case None => [Pop] case Some(e) => [Pop, Push(e)]
  }

  function ServeOne(q: Queue, reply: Option<UsedElem>): (r: Queue)
    requires Shaped(q)
    ensures Shaped(r)
  {
    match reply case None => PopQueue(q) case Some(e) => PushQueue(PopQueue(q), e)
  }

  function Serve(q: Queue, replies: Replies): (r: Queue)
    requires Shaped(q)
    ensures Shaped(r)
    decreases |replies|
  {
    if replies == [] then q else Serve(ServeOne(q, replies[0]), replies[1..])
  }

  /** The interrupt line after the completions of a request. */
  function RaiseTimes(l: IrqLine, n: nat): IrqLine
    decreases n
  {
    if n == 0 then l else RaiseTimes(Raise(l), n - 1)
  }

  /** r is w after the handler popped the next heads and gave these replies. */
  ghost predicate ServedBy(w: World, replies: Replies, r: World)
    requires Live(w)
  {
    && r.q == Serve(w.q, replies) && r.line == RaiseTimes(w.line, |Answered(replies)|)
    && r.published == w.published && r.consumed == w.consumed && r.seen == w.seen
    && |r.popped| == |w.popped| + |replies|
    && r.pushed == w.pushed + Answered(replies)
  }

  lemma PopRun(w: World)
    requires Inv(w) && |w.popped| < |w.published|
    ensures Feasible(w, [Pop]) && Run(w, [Pop]) == Next(w, Pop) && Inv(Next(w, Pop))
    ensures Next(w, Pop) == w.(q := PopQueue(w.q), popped := w.popped + [w.published[|w.popped|]])
  {
    PopTakesOldest(w);
    PopKeepsInv(w);
    assert [Pop][1..] == [];
  }

  lemma PushRun(w: World, e: UsedElem)
    requires Inv(w) && |w.pushed| < |w.popped|
    ensures Feasible(w, [Push(e)]) && Run(w, [Push(e)]) == Next(w, Push(e)) && Inv(Next(w, Push(e)))
  {
    PushKeepsInv(w, e);
    assert [Push(e)][1..] == [];
  }

  lemma ServeOneStep(w: World, reply: Option<UsedElem>) returns (r: World)
    requires Inv(w) && |w.popped| < |w.published|
    ensures Feasible(w, ServeOneActs(reply)) && r == Run(w, ServeOneActs(reply)) && Inv(r)
    ensures r == w.(q := ServeOne(w.q, reply), popped := w.popped + [w.published[|w.popped|]],
                    pushed := w.pushed + (match reply case None => [] case Some(e) => [e]),
                    line := if reply == None then w.line else Raise(w.line),
                    sinceAck := if reply == None then w.sinceAck else w.sinceAck + 1)
  {
    PopRun(w);
    r := Next(w, Pop);
    match reply
    case None =>
    case Some(e) =>
      PushRun(r, e);
      RunConcat(w, [Pop], [Push(e)]);
      assert [Pop] + [Push(e)] == [Pop, Push(e)];
      r := Next(r, Push(e));
  }

  /** A handler that answers the oldest pending heads keeps the system refined: it pops exactly
      those heads and completes exactly what it answers, in order, whatever happened before. */
  lemma {:induction false} ServingIsFeasible(w: World, replies: Replies)
    requires Inv(w) && |w.popped| + |replies| <= |w.published|
    ensures Feasible(w, ServeActs(replies))
    ensures Inv(Run(w, ServeActs(replies))) && ServedBy(w, replies, Run(w, ServeActs(replies)))
    decreases |replies|
  {
    if replies != [] {
      var w' := ServeOneStep(w, replies[0]);
      ServingIsFeasible(w', replies[1..]);
      RunConcat(w, ServeOneActs(replies[0]), ServeActs(replies[1..]));
      ServedChain(w, replies, w', Run(w', ServeActs(replies[1..])));
    }
  }

  lemma ServedChain(w: World, replies: Replies, w': World, r: World)
    requires Live(w) && Live(w') && replies != []
    requires w'.q == ServeOne(w.q, replies[0]) && |w'.popped| == |w.popped| + 1
    requires w'.published == w.published && w'.consumed == w.consumed && w'.seen == w.seen
    requires w'.pushed == w.pushed + (match replies[0] case None => [] case Some(e) => [e])
    requires w'.line == if replies[0] == None then w.line else Raise(w.line)
    requires ServedBy(w', replies[1..], r)
    ensures ServedBy(w, replies, r)
  {
  }

  /** Serving at any moment of any run: the heads popped are the pending ones in order, the
      completions are the answers in order, and the rings still refine the two FIFOs. */
  lemma ServingInAnyRun(w0: World, acts: seq<Action>, replies: Replies)
    requires Initial(w0) && TWO_16 % w0.q.size == 0 && Feasible(w0, acts)
    requires |replies| <= |Pending(Run(w0, acts).q)|
    ensures Feasible(w0, acts + ServeActs(replies))
    ensures var w, r := Run(w0, acts), Run(w0, acts + ServeActs(replies));
      && Refined(r) && ServedBy(w, replies, r)
      && r.popped == w.popped + Pending(w.q)[..|replies|]
  {
    InitialInv(w0);
    RunKeepsInv(w0, acts);
    var w := Run(w0, acts);
    InvImpliesRefined(w);
    ServingIsFeasible(w, replies);
    RunConcat(w0, acts, ServeActs(replies));
    var r := Run(w, ServeActs(replies));
    InvImpliesRefined(r);
    PoppedGrows(w, r, |replies|);
  }

  lemma PoppedGrows(w: World, r: World, n: nat)
    requires Inv(w) && Inv(r) && r.published == w.published && |r.popped| == |w.popped| + n
    requires w.published == w.popped + Pending(w.q)
    ensures n <= |Pending(w.q)| && r.popped == w.popped + Pending(w.q)[..n]
  {
  }

  // ------------------------------------------ facts a handler's loop needs

  /** A pop takes the first pending head, and the distance to the driver's index shrinks. */
  lemma PendingStep(q: Queue)
    requires Shaped(q)
    ensures PopHead(q) == None <==> Pending(q) == []
    ensures PopHead(q).Some? ==> Pending(q) == [PopHead(q).value] + Pending(PopQueue(q))
    ensures PopHead(q).Some? ==>
      Distance(PopQueue(q).lastAvail, q.availIdx) == Distance(q.lastAvail, q.availIdx) - 1
  {
    if q.canPop {
      var d := Distance(q.lastAvail, q.availIdx);
      if q.lastAvail != q.availIdx {
        assert d > 0;
        assert Distance(Inc16(q.lastAvail), q.availIdx) == d - 1;
        SliceStep(q.avail, q.lastAvail, d);
      }
    }
  }

  /** Pushing does not touch what is pending. */
  lemma PushKeepsPending(q: Queue, e: UsedElem)
    requires Shaped(q)
    ensures Pending(PushQueue(q, e)) == Pending(q)
  {
  }
}
