/** struct virtqueue of src/devices/virtio.c over shared rings that live in driver memory. */
module Virtqueues {
  import opened Words
  import opened GuestMap
  import opened Irq
  import opened VirtRing
  import opened Machine

  class AvailRing {
    var idx: U16
    var ring: seq<U16>

    constructor (ring: seq<U16>)
      ensures idx == 0 && this.ring == ring
    {
      idx := 0;
      this.ring := ring;
    }
  }

  class UsedRing {
    var idx: U16
    var ring: seq<UsedElem>

    constructor (ring: seq<UsedElem>)
      ensures idx == 0 && this.ring == ring
    {
      idx := 0;
      this.ring := ring;
    }
  }

  /** Nothing in the program fills in the size, the rings or the ready flag of a queue, or changes
      them once they are there; only the two indices move. */
  class VirtQueue {
    const dev: Device
    const index: U16
    const size: U16
    const desc: array?<Desc>
    const avail: AvailRing?
    const used: UsedRing?
    const ready: bool
    var lastAvailIdx: U16
    var lastUsedIdx: U16

    /** virtqueue_setup: not ready and without rings. */
    constructor (dev: Device, index: U16)
      ensures this.dev == dev && this.index == index
      ensures Valid() && !View().canPop && !View().canPush && lastAvailIdx == lastUsedIdx == 0
    {
      this.dev, this.index := dev, index;
      size, desc, avail, used, ready := 0, null, null, null, false;
      lastAvailIdx, lastUsedIdx := 0, 0;
    }

    /** A queue whose set-up has been completed. */
    constructor Attached(dev: Device, index: U16, size: U16, desc: array<Desc>, avail: AvailRing, used: UsedRing)
      requires |avail.ring| == |used.ring| == desc.Length == size > 0
      ensures this.dev == dev && this.index == index && this.size == size
      ensures this.desc == desc && this.avail == avail && this.used == used
      ensures Valid() && View().canPop && View().canPush && lastAvailIdx == lastUsedIdx == 0
    {
      this.dev, this.index, this.size, this.desc, this.avail, this.used := dev, index, size, desc, avail, used;
      ready, lastAvailIdx, lastUsedIdx := true, 0, 0;
    }

    ghost predicate Valid()
      reads avail, used
    {
      && (ready && desc != null && avail != null ==> |avail.ring| == size > 0)
      && (ready && used != null ==> |used.ring| == size > 0)
    }

    /** The queue as the ring model sees it. */
    ghost function View(): (q: Queue)
      reads this, avail, used
      requires Valid()
      ensures Shaped(q)
    {
      var canPop := ready && desc != null && avail != null;
      var canPush := ready && used != null;
      Queue(size, canPop, canPush,
            if canPop then avail.idx else 0, if canPop then avail.ring else [], lastAvailIdx,
            if canPush then used.idx else 0, if canPush then used.ring else [], lastUsedIdx)
    }

    /** The descriptor table. */
    ghost function Descs(): seq<Desc>
      reads desc
    {
      if desc == null then [] else desc[..]
    }

    /** Returns the index in the descriptor table of the head popped, if any. */
    method Pop() returns (head: Option<U16>)
      requires Valid()
      modifies this`lastAvailIdx
      ensures head == PopHead(old(View())) && View() == PopQueue(old(View()))
      ensures head.Some? ==> desc != null
    {
      if !ready || desc == null || avail == null {
        return None;
      }
      var availIdx := avail.idx;
      if lastAvailIdx == availIdx {
        return None;
      }
      var descIdx := avail.ring[lastAvailIdx % size];
      lastAvailIdx := (lastAvailIdx + 1) % TWO_16;
      return Some(descIdx);
    }

    method Push(id: U32, len: U32)
      requires Valid()
      modifies this`lastUsedIdx, used, dev`counter
      ensures Valid()
      ensures View() == PushQueue(old(View()), UsedElem(id, len))
      ensures dev.Line() == if old(View()).canPush then Raise(old(dev.Line())) else old(dev.Line())
    {
      if !ready || used == null {
        return;
      }
      var usedIdx := used.idx;
      used.ring := used.ring[usedIdx % size := UsedElem(id, len)];
      used.idx := (used.idx + 1) % TWO_16;
      lastUsedIdx := (lastUsedIdx + 1) % TWO_16;
      var otherOk: bool := *;
      var asserted := dev.AssertIrq(otherOk);
    }
  }

  /** Descriptor i is in the table, and the n bytes at its address do not wrap around. */
  predicate InTable(descs: seq<Desc>, i: nat, n: nat) {
    i < |descs| && descs[i].addr + n < TWO_64
  }

  /** The same of the descriptor's own buffer. */
  predicate OwnBuffer(descs: seq<Desc>, i: nat) {
    i < |descs| && InTable(descs, i, descs[i].len)
  }

  /** What the driver owes a handler of requests with a header of n bytes: as far as the NEXT flags
      lead, links inside the table and buffers that do not wrap. */
  predicate Linked(descs: seq<Desc>, head: nat, n: nat) {
    InTable(descs, head, n) && (HasNext(descs[head]) ==> OwnBuffer(descs, descs[head].next))
  }

  /** The interrupt line after serving: silent when the used ring is absent. */
  function ServeLine(q: Queue, l: IrqLine, replies: Replies): IrqLine {
    if q.canPush then RaiseTimes(l, |Answered(replies)|) else l
  }

  lemma ServeSingle(q: Queue, l: IrqLine, reply: Option<UsedElem>)
    requires Shaped(q)
    ensures Serve(q, [reply]) == ServeOne(q, reply)
    ensures ServeLine(q, l, [reply]) == if q.canPush && reply.Some? then Raise(l) else l
  {
    assert [reply][1..] == [];
    assert Answered([reply]) == match reply case None => [] case Some(e) => [e];
    assert RaiseTimes(Raise(l), 0) == Raise(l);
  }

  /** The interrupt line after at most one reply. */
  function RaisedIf(q: Queue, l: IrqLine, reply: Option<UsedElem>): IrqLine {
    if q.canPush && reply.Some? then Raise(l) else l
  }

  /** Whatever a handler answers to the head it popped, at any moment of any run, the rings stay
      refined: exactly one more head is popped, and completed at most once. */
  lemma OneRequestInAnyRun(w0: World, acts: seq<Action>, reply: Option<UsedElem>)
    requires Initial(w0) && TWO_16 % w0.q.size == 0 && Feasible(w0, acts)
    requires Pending(Run(w0, acts).q) != []
    ensures Feasible(w0, acts + ServeOneActs(reply))
    ensures var w, r := Run(w0, acts), Run(w0, acts + ServeOneActs(reply));
      && Refined(r) && r.q == ServeOne(w.q, reply)
      && r.popped == w.popped + [Pending(w.q)[0]] && r.published == w.published
      && r.pushed == w.pushed + (match reply case None => [] case Some(e) => [e])
      && r.line == RaisedIf(w.q, w.line, reply)
  {
    var w := Run(w0, acts);
    ServingInAnyRun(w0, acts, [reply]);
    assert ServeActs([reply]) == ServeOneActs(reply);
    ServeSingle(w.q, w.line, reply);
    assert Answered([reply]) == match reply case None => [] case Some(e) => [e];
    assert Pending(w.q)[..1] == [Pending(w.q)[0]];
    assert reply.Some? ==> RaiseTimes(w.line, 1) == RaiseTimes(Raise(w.line), 0) == Raise(w.line);
  }
}
