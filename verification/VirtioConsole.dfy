/** The console's queue handler of src/devices/virtio-console.c: drain the queue to standard output. */
module VirtioConsole {
  import opened Words
  import opened GuestMap
  import opened Irq
  import opened VirtRing
  import opened Machine
  import opened Virtqueues

  /** Register offsets of virtio_mmio_write. */
  const QUEUE_NOTIFY := 0x34
  const INTERRUPT_ACK := 0x38

  /** What the driver owes the device: heads inside the table, buffers that do not wrap. */
  predicate Sendable(descs: seq<Desc>, heads: seq<U16>) {
    forall k :: 0 <= k < |heads| ==> OwnBuffer(descs, heads[k])
  }

  /** The contents of a descriptor's buffer, or None if no region holds it. */
  type Buffers = Desc -> Option<seq<U8>>

  ghost function BufferOf(rs: seq<Region>, host: seq<U8>, d: Desc): Option<seq<U8>> {
    if WellFormed(rs, |host|) && d.addr + d.len < TWO_64 && Held(rs, d.addr, d.len)
    then Some(HeldBytes(rs, host, d.addr, d.len)) else None
  }

  ghost function GuestBuffers(rs: seq<Region>, host: seq<U8>): Buffers {
    d => BufferOf(rs, host, d)
  }

  ghost function BuffersOf(vm: Vm): Buffers
    reads vm.regions, vm.host
  {
    GuestBuffers(vm.Table(), vm.host[..])
  }

  /** A head whose buffer is backed is completed with its own index and length. */
  function ConsoleReply(buffers: Buffers, descs: seq<Desc>, head: U16): Option<UsedElem>
    requires head < |descs|
  {
    if buffers(descs[head]) == None then None else Some(UsedElem(head, descs[head].len))
  }

  function ConsoleReplies(buffers: Buffers, descs: seq<Desc>, heads: seq<U16>): (r: Replies)
    requires Sendable(descs, heads)
    ensures |r| == |heads|
  {
    if heads == [] then [] else [ConsoleReply(buffers, descs, heads[0])] + ConsoleReplies(buffers, descs, heads[1..])
  }

  /** The bytes of the backed head buffers, in publish order. */
  function Text(buffers: Buffers, descs: seq<Desc>, heads: seq<U16>): seq<U8>
    requires Sendable(descs, heads)
  {
    if heads == [] then []
    else (match buffers(descs[heads[0]]) case None => [] case Some(b) => b) + Text(buffers, descs, heads[1..])
  }

  /** The flat memory behind the buffers of the heads that some region holds, in publish order. */
  ghost function GuestText(rs: seq<Region>, host: seq<U8>, descs: seq<Desc>, heads: seq<U16>): seq<U8>
    requires WellFormed(rs, |host|) && Sendable(descs, heads)
  {
    if heads == [] then []
    else
      var d := descs[heads[0]];
      (if Held(rs, d.addr, d.len) then GuestBytesHeld(rs, host, d.addr, d.len) else [])
        + GuestText(rs, host, descs, heads[1..])
  }

  ghost function GuestBytesHeld(rs: seq<Region>, host: seq<U8>, gpa: U64, n: U32): (s: seq<U8>)
    requires WellFormed(rs, |host|) && gpa + n < TWO_64 && Held(rs, gpa, n)
    ensures HasBytes(Guest(rs, host), gpa, n) && s == GuestBytes(Guest(rs, host), gpa, n)
  {
    HeldBytesAreGuest(rs, host, gpa, n);
    GuestBytes(Guest(rs, host), gpa, n)
  }

  /** What a drain prints is that text. */
  lemma {:induction false} TextIsGuestText(rs: seq<Region>, host: seq<U8>, descs: seq<Desc>, heads: seq<U16>)
    requires WellFormed(rs, |host|) && Sendable(descs, heads)
    ensures Text(GuestBuffers(rs, host), descs, heads) == GuestText(rs, host, descs, heads)
  {
    if heads != [] {
      var d := descs[heads[0]];
      if Held(rs, d.addr, d.len) {
        HeldBytesAreGuest(rs, host, d.addr, d.len);
      }
      TextIsGuestText(rs, host, descs, heads[1..]);
    }
  }

  /** Reply k completes head k with its own index and length if some region holds its buffer, and there
      is none otherwise. */
  lemma {:induction false} RepliesAreHeads(rs: seq<Region>, host: seq<U8>, descs: seq<Desc>, heads: seq<U16>, k: nat)
    requires WellFormed(rs, |host|) && Sendable(descs, heads) && k < |heads|
    ensures ConsoleReplies(GuestBuffers(rs, host), descs, heads)[k] ==
      if Held(rs, descs[heads[k]].addr, descs[heads[k]].len) then Some(UsedElem(heads[k], descs[heads[k]].len)) else None
  {
    if k > 0 {
      RepliesAreHeads(rs, host, descs, heads[1..], k - 1);
    }
  }

  /** The queue, the interrupt line and the output while a drain is under way. */
  datatype Drain = Drain(q: Queue, line: IrqLine, output: seq<U8>)

  /** Where the drain ends when these heads are still pending. */
  function Finish(buffers: Buffers, descs: seq<Desc>, d: Drain, heads: seq<U16>): Drain
    requires Shaped(d.q) && Sendable(descs, heads)
  {
    var replies := ConsoleReplies(buffers, descs, heads);
    Drain(Serve(d.q, replies), ServeLine(d.q, d.line, replies), d.output + Text(buffers, descs, heads))
  }

  /** A popped head is printed and completed if its buffer is backed, and dropped otherwise. */
  function Completed(buffers: Buffers, descs: seq<Desc>, d: Drain, head: U16): (r: Drain)
    requires Shaped(d.q) && head < |descs|
    ensures Shaped(r.q)
  {
    match buffers(descs[head])
    case None => d
    case Some(b) =>
      Drain(PushQueue(d.q, UsedElem(head, descs[head].len)),
            if d.q.canPush then Raise(d.line) else d.line, d.output + b)
  }

  /** One round of the loop. */
  function Round(buffers: Buffers, descs: seq<Desc>, d: Drain, head: U16): (r: Drain)
    requires Shaped(d.q) && head < |descs|
    ensures Shaped(r.q)
  {
    Completed(buffers, descs, d.(q := PopQueue(d.q)), head)
  }

  /** A round does not change where the drain ends. */
  lemma RoundKeepsFinish(buffers: Buffers, descs: seq<Desc>, d: Drain, heads: seq<U16>)
    requires Shaped(d.q) && Sendable(descs, heads) && heads != []
    ensures Sendable(descs, heads[1..])
    ensures Finish(buffers, descs, Round(buffers, descs, d, heads[0]), heads[1..]) == Finish(buffers, descs, d, heads)
  {
    var reply := ConsoleReply(buffers, descs, heads[0]);
    var rest := ConsoleReplies(buffers, descs, heads[1..]);
    ServeCons(d.q, d.line, reply, rest);
    TextCons(buffers, descs, d.output, heads);
  }

  lemma ServeCons(q: Queue, l: IrqLine, reply: Option<UsedElem>, rest: Replies)
    requires Shaped(q)
    ensures Serve(q, [reply] + rest) == Serve(ServeOne(q, reply), rest)
    ensures ServeLine(q, l, [reply] + rest) ==
      ServeLine(ServeOne(q, reply), if q.canPush && reply != None then Raise(l) else l, rest)
  {
  }

  lemma TextCons(buffers: Buffers, descs: seq<Desc>, out: seq<U8>, heads: seq<U16>)
    requires Sendable(descs, heads) && heads != []
    ensures out + Text(buffers, descs, heads) ==
      (match buffers(descs[heads[0]]) case None => out case Some(b) => out + b) + Text(buffers, descs, heads[1..])
  {
  }

  /** The drain is at d with these heads pending, on its way to last. */
  predicate Draining(buffers: Buffers, descs: seq<Desc>, d: Drain, heads: seq<U16>, last: Drain)
    requires Shaped(d.q)
  {
    heads == Pending(d.q) && Sendable(descs, heads) && Finish(buffers, descs, d, heads) == last
  }

  /** A round takes the oldest pending head and does not change where the drain ends; with no head
      pending the drain is over. */
  lemma DrainStep(buffers: Buffers, descs: seq<Desc>, d: Drain, heads: seq<U16>, last: Drain)
    requires Shaped(d.q) && Draining(buffers, descs, d, heads, last)
    ensures PopHead(d.q) == None ==> heads == [] && d == last
    ensures PopHead(d.q).Some? ==>
      && heads != [] && heads[0] == PopHead(d.q).value && OwnBuffer(descs, heads[0])
      && Draining(buffers, descs, Round(buffers, descs, d, heads[0]), heads[1..], last)
  {
    PendingStep(d.q);
    if PopHead(d.q).Some? {
      var head := heads[0];
      RoundKeepsFinish(buffers, descs, d, heads);
      PushKeepsPending(PopQueue(d.q), UsedElem(head, descs[head].len));
    }
  }

  /** A drain at any moment of any run empties the queue, completes the backed heads and no others,
      and leaves the rings refined. */
  lemma DrainInAnyRun(w0: World, acts: seq<Action>, buffers: Buffers, descs: seq<Desc>)
    requires Initial(w0) && TWO_16 % w0.q.size == 0 && Feasible(w0, acts)
    requires Sendable(descs, Pending(Run(w0, acts).q))
    ensures var w := Run(w0, acts);
      var replies := ConsoleReplies(buffers, descs, Pending(w.q));
      && Feasible(w0, acts + ServeActs(replies))
      && var r := Run(w0, acts + ServeActs(replies));
        && Refined(r) && r.popped == r.published == w.published
        && Finish(buffers, descs, Drain(w.q, w.line, []), Pending(w.q)) ==
            Drain(r.q, r.line, Text(buffers, descs, Pending(w.q)))
        && r.pushed == w.pushed + Answered(replies)
  {
    var w := Run(w0, acts);
    var heads := Pending(w.q);
    var replies := ConsoleReplies(buffers, descs, heads);
    ServingInAnyRun(w0, acts, replies);
    InitialInv(w0);
    RunKeepsInv(w0, acts);
    InvImpliesRefined(w);
    assert heads[..|replies|] == heads;
  }

  class Console {
    const device: Device
    /** Everything printed so far. */
    var output: seq<U8>

    ghost function Shown(vq: VirtQueue): (d: Drain)
      reads this, vq, vq.avail, vq.used, vq.dev
      requires vq.Valid()
      ensures d == Drain(vq.View(), vq.dev.Line(), output) && Shaped(d.q)
    {
      Drain(vq.View(), vq.dev.Line(), output)
    }

    constructor (device: Device)
      ensures this.device == device && output == []
    {
      this.device := device;
      output := [];
    }

    /** With the driver quiescent, one notification empties the queue, prints exactly the backed
        buffers in order and completes exactly their heads. */
    method QueueNotify(vq: VirtQueue)
      requires vq.Valid() && device.vm != null && device.vm.Mapped()
      requires Sendable(vq.Descs(), Pending(vq.View()))
      modifies this`output, vq`lastAvailIdx, vq`lastUsedIdx, vq.used, vq.dev`counter
      ensures vq.Valid() && Pending(vq.View()) == []
      ensures Shown(vq) == old(Finish(BuffersOf(device.vm), vq.Descs(), Shown(vq), Pending(vq.View())))
      ensures output == old(output + GuestText(device.vm.Table(), device.vm.host[..], vq.Descs(), Pending(vq.View())))
    {
      var vm := device.vm;
      TextIsGuestText(vm.Table(), vm.host[..], vq.Descs(), Pending(vq.View()));
      ghost var buffers, descs := BuffersOf(vm), vq.Descs();
      ghost var d, heads := Shown(vq), Pending(vq.View());
      ghost var last := Finish(buffers, descs, d, heads);
      assert last == old(Finish(BuffersOf(device.vm), vq.Descs(), Shown(vq), Pending(vq.View())));
      while true
        invariant vq.Valid() && vm.Mapped() && BuffersOf(vm) == buffers && vq.Descs() == descs
        invariant d == Shown(vq) && Draining(buffers, descs, d, heads, last)
        decreases |heads|
      {
        DrainStep(buffers, descs, d, heads, last);
        var popped := vq.Pop();
        if popped == None {
          return;
        }
        Deliver(vm, vq, popped.value);
        d, heads := Round(buffers, descs, d, heads[0]), heads[1..];
      }
    }

    /** A 32-bit write to the notify register. */
    ghost predicate Notifies(offset: U64, size: nat) {
      size == 4 && offset == 0x34
    }

    /** virtio_mmio_write as far as it acts on queues and interrupts: the notify register drains the
        queue it names, the acknowledge register clears the interrupt, other registers do neither. */
    method MmioWrite(queues: seq<VirtQueue>, offset: U64, val: U32, size: nat) returns (ret: int)
      requires |queues| == 8
      requires Notifies(offset, size) ==>
        && val % 0x100 < |queues| && device.vm != null && device.vm.Mapped()
        && var vq := queues[val % 0x100]; vq.Valid() && Sendable(vq.Descs(), Pending(vq.View()))
      modifies this`output, device`counter
      modifies if Notifies(offset, size) && val % 0x100 < |queues| then Touched(queues[val % 0x100]) else {}
      ensures ret == if size == 4 then 0 else -1
      ensures size == 4 && offset == 0x34 ==>
        var vq := queues[val % 0x100];
        vq.Valid() && Pending(vq.View()) == []
        && Shown(vq) == old(Finish(BuffersOf(device.vm), vq.Descs(), Shown(vq), Pending(vq.View())))
      ensures size == 4 && offset == 0x38 ==> device.Line() == Acknowledge(old(device.Line()))
      ensures !Notifies(offset, size) ==> output == old(output)
      ensures !Notifies(offset, size) && !(size == 4 && offset == 0x38) ==> device.Line() == old(device.Line())
    {
      if size != 4 {
        return -1;
      }
      if offset == QUEUE_NOTIFY {
        QueueNotify(queues[val % 0x100]);
      } else if offset == INTERRUPT_ACK {
        var acked := device.DeassertIrq();
      }
      return 0;
    }

    ghost function Touched(vq: VirtQueue): set<object> {
      if vq.used == null then {vq, vq.dev} else {vq, vq.dev, vq.used}
    }

    /** The body of the loop: print the head's buffer and complete it, or skip it. */
    method Deliver(vm: Vm, vq: VirtQueue, head: U16)
      requires vq.Valid() && vm.Mapped() && OwnBuffer(vq.Descs(), head)
      modifies this`output, vq`lastUsedIdx, vq.used, vq.dev`counter
      ensures vq.Valid() && vm.Mapped() && BuffersOf(vm) == old(BuffersOf(vm)) && vq.Descs() == old(vq.Descs())
      ensures Shown(vq) == old(Completed(BuffersOf(vm), vq.Descs(), Shown(vq), head))
    {
      var desc := vq.desc[head];
      AcceptsIffHeld(vm.Table(), vm.host.Length, desc.addr, desc.len);
      var hva := vm.GpaToHva(desc.addr, desc.len);
      if hva == NULL {
        return;
      }
      LookupInHost(vm.Table(), vm.host.Length, desc.addr, desc.len);
      Emit(vm.host, hva, desc.len);
      vq.Push(head, desc.len);
    }

    /** putchar for each byte of a buffer. */
    method Emit(host: array<U8>, hva: nat, len: U32)
      requires hva + len <= host.Length
      modifies this`output
      ensures output == old(output) + Load(host[..], hva, len)
    {
      ghost var bytes := Load(host[..], hva, len);
      var i := 0;
      while i < len
        invariant 0 <= i <= len && output == old(output) + bytes[..i]
      {
        output := output + [host[hva + i]];
        i := i + 1;
      }
    }
  }
}
