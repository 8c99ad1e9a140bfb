/** The network device's queue handlers of src/devices/virtio-net.c: one two-descriptor request. */
module VirtioNet {
  import opened Words
  import opened GuestMap
  import opened Irq
  import opened VirtRing
  import opened Machine
  import opened Virtqueues

  /** sizeof(struct virtio_net_hdr). */
  const HDR_SIZE := 10
  const ZERO_HDR: seq<U8> := [0, 0, 0, 0, 0, 0, 0, 0, 0, 0]

  /** How far the chain walk gets: no header, a header without data, or both. */
  datatype Chain = NoHeader | HeaderOnly(hdrAt: nat) | Chain(hdrAt: nat, dataAt: nat, len: U32)

  /** The header links to a data buffer that is backed. */
  ghost predicate DataHeld(rs: seq<Region>, descs: seq<Desc>, head: nat)
    requires Linked(descs, head, HDR_SIZE)
  {
    HasNext(descs[head]) && var data := descs[descs[head].next]; Held(rs, data.addr, data.len)
  }

  ghost function ChainOf(rs: seq<Region>, hostSize: nat, descs: seq<Desc>, head: nat): (c: Chain)
    requires WellFormed(rs, hostSize) && Linked(descs, head, HDR_SIZE)
    ensures c == NoHeader || c.hdrAt + HDR_SIZE <= hostSize
    ensures c.Chain? ==> c.dataAt + c.len <= hostSize
    ensures c == NoHeader <==> !Held(rs, descs[head].addr, HDR_SIZE)
    ensures c.Chain? <==> Held(rs, descs[head].addr, HDR_SIZE) && DataHeld(rs, descs, head)
  {
    var hdr := descs[head];
    if !Held(rs, hdr.addr, HDR_SIZE) then NoHeader
    else
      AcceptsIffHeld(rs, hostSize, hdr.addr, HDR_SIZE);
      LookupInHost(rs, hostSize, hdr.addr, HDR_SIZE);
      var hdrAt := VmLookup(rs, hdr.addr, HDR_SIZE);
      if !HasNext(hdr) then HeaderOnly(hdrAt)
      else
        var data := descs[hdr.next];
        if !Held(rs, data.addr, data.len) then HeaderOnly(hdrAt)
        else
          AcceptsIffHeld(rs, hostSize, data.addr, data.len);
          LookupInHost(rs, hostSize, data.addr, data.len);
          Chain(hdrAt, VmLookup(rs, data.addr, data.len), data.len)
  }

  /** What the TAP device answers: an error, or the bytes of a frame (read) or those taken (write). */
  datatype Tap = TapError | Frame(bytes: seq<U8>)

  predicate RxAllowed(c: Chain, tap: Tap) {
    c.Chain? && tap.Frame? ==> |tap.bytes| <= c.len
  }

  predicate ChainInHost(c: Chain, hostSize: nat) {
    (c == NoHeader || c.hdrAt + HDR_SIZE <= hostSize) && (c.Chain? ==> c.dataAt + c.len <= hostSize)
  }

  /** Guest memory after a receive notification: the header is zeroed as soon as it is translated. */
  function RxMemory(c: Chain, host: seq<U8>, tap: Tap): (r: seq<U8>)
    requires ChainInHost(c, |host|) && RxAllowed(c, tap)
    ensures |r| == |host|
  {
    match c
    case NoHeader => host
    case HeaderOnly(at) => Store(host, at, ZERO_HDR)
    case Chain(at, dataAt, _) =>
      if tap == TapError then Store(host, at, ZERO_HDR) else Store(Store(host, at, ZERO_HDR), dataAt, tap.bytes)
  }

  function RxReply(c: Chain, tap: Tap): Option<UsedElem> {
    if c.Chain? && tap.Frame? then Some(UsedElem(0, (HDR_SIZE + |tap.bytes|) % TWO_32)) else None
  }

  function TxReply(c: Chain, accepted: bool): Option<UsedElem> {
    if c.Chain? && accepted then Some(UsedElem(0, 0)) else None
  }

  /** A completed receive delivers the bytes read, behind a zero header if the two buffers are apart,
      and reports header and bytes. */
  lemma RxDelivers(c: Chain, host: seq<U8>, tap: Tap)
    requires ChainInHost(c, |host|) && RxAllowed(c, tap) && RxReply(c, tap).Some?
    ensures var r := RxMemory(c, host, tap);
      && Load(r, c.dataAt, |tap.bytes|) == tap.bytes
      && (Apart(c.hdrAt, HDR_SIZE, c.dataAt, |tap.bytes|) ==> Load(r, c.hdrAt, HDR_SIZE) == ZERO_HDR)
      && (|tap.bytes| < TWO_32 - HDR_SIZE ==> RxReply(c, tap).value == UsedElem(0, HDR_SIZE + |tap.bytes|))
  {
    var half := Store(host, c.hdrAt, ZERO_HDR);
    LoadStoreSame(half, c.dataAt, tap.bytes);
    LoadStoreSame(host, c.hdrAt, ZERO_HDR);
    if Apart(c.hdrAt, HDR_SIZE, c.dataAt, |tap.bytes|) {
      LoadStoreApart(half, c.dataAt, tap.bytes, c.hdrAt, HDR_SIZE);
    }
  }

  /** Whatever the outcome, only the header, which is zeroed, and the bytes read may change; a receive
      that is not completed has at most zeroed the header. */
  lemma RxFootprint(c: Chain, host: seq<U8>, tap: Tap, a: nat)
    requires ChainInHost(c, |host|) && RxAllowed(c, tap) && a < |host|
    ensures var r, inHdr := RxMemory(c, host, tap), c != NoHeader && c.hdrAt <= a < c.hdrAt + HDR_SIZE;
      && (RxReply(c, tap) == None ==> r[a] == if inHdr then 0 else host[a])
      && (RxReply(c, tap).Some? && !(c.dataAt <= a < c.dataAt + |tap.bytes|) ==> r[a] == if inHdr then 0 else host[a])
  {
    if c != NoHeader {
      assert Store(host, c.hdrAt, ZERO_HDR)[a] == if c.hdrAt <= a < c.hdrAt + HDR_SIZE then 0 else host[a];
    }
  }

  /** In the flat memory a receive overlays the header with zeros as soon as it is backed, and then the
      data buffer with the bytes read. */
  lemma RxOverlaysGuest(rs: seq<Region>, host: seq<U8>, descs: seq<Desc>, head: nat, tap: Tap)
    requires WellFormed(rs, |host|) && Linked(descs, head, HDR_SIZE)
    requires RxAllowed(ChainOf(rs, |host|, descs, head), tap)
    ensures var c := ChainOf(rs, |host|, descs, head);
      var m := Guest(rs, host);
      Guest(rs, RxMemory(c, host, tap)) ==
        if c == NoHeader then m
        else if RxReply(c, tap) == None then Overlay(m, descs[head].addr, ZERO_HDR)
        else Overlay(Overlay(m, descs[head].addr, ZERO_HDR), descs[descs[head].next].addr, tap.bytes)
  {
    var c := ChainOf(rs, |host|, descs, head);
    if c != NoHeader {
      StoreOverlaysGuest(rs, host, descs[head].addr, HDR_SIZE, ZERO_HDR);
      if c.Chain? && tap.Frame? {
        var data := descs[descs[head].next];
        StoreOverlaysGuest(rs, Store(host, c.hdrAt, ZERO_HDR), data.addr, data.len, tap.bytes);
      }
    }
  }

  /** Everything a handler may touch. */
  datatype NetState = NetState(q: Queue, line: IrqLine, host: seq<U8>, sent: seq<seq<U8>>)

  /** The oldest head popped and answered with reply. */
  function Replied(s: NetState, reply: Option<UsedElem>): NetState
    requires Shaped(s.q)
  {
    s.(q := ServeOne(s.q, reply), line := RaisedIf(s.q, s.line, reply))
  }

  function RxResult(c: Chain, tap: Tap, s: NetState): NetState
    requires Shaped(s.q) && ChainInHost(c, |s.host|) && RxAllowed(c, tap)
  {
    Replied(s, RxReply(c, tap)).(host := RxMemory(c, s.host, tap))
  }

  function TxResult(c: Chain, n: int, s: NetState): NetState
    requires Shaped(s.q) && ChainInHost(c, |s.host|) && (c.Chain? ==> n <= c.len)
  {
    var r := Replied(s, TxReply(c, n >= 0));
    if TxReply(c, n >= 0) == None then r else r.(sent := s.sent + [Load(s.host, c.dataAt, n)])
  }

  /** The request at head gets as far as the TAP device: a ten-byte header and a linked data buffer are
      backed. */
  ghost predicate Reaches(rs: seq<Region>, descs: seq<Desc>, head: nat)
    requires Linked(descs, head, HDR_SIZE)
  {
    && Held(rs, descs[head].addr, 10) && descs[head].flags % 2 == 1
    && var data := descs[descs[head].next]; Held(rs, data.addr, data.len)
  }

  /** A transmit that reaches the TAP device hands it the flat memory's bytes, as many as it takes, and
      is completed as (0, 0); any other only costs its available entry. */
  lemma TxOutcome(rs: seq<Region>, descs: seq<Desc>, head: nat, n: int, s: NetState)
    requires WellFormed(rs, |s.host|) && Linked(descs, head, HDR_SIZE) && Shaped(s.q)
    requires var c := ChainOf(rs, |s.host|, descs, head); c.Chain? ==> n <= c.len
    ensures var r := TxResult(ChainOf(rs, |s.host|, descs, head), n, s);
      if Reaches(rs, descs, head) && n >= 0 then
        var addr := descs[descs[head].next].addr;
        && HasBytes(Guest(rs, s.host), addr, n)
        && r == NetState(PushQueue(PopQueue(s.q), UsedElem(0, 0)), if s.q.canPush then Raise(s.line) else s.line,
                         s.host, s.sent + [GuestBytes(Guest(rs, s.host), addr, n)])
      else r == s.(q := PopQueue(s.q))
  {
    if Reaches(rs, descs, head) && n >= 0 {
      var data := descs[descs[head].next];
      LoadIsGuest(rs, s.host, data.addr, data.len, n);
    }
  }

  /** A receive that reaches the TAP device and gets a frame overlays header and data and is completed
      as (0, 10 + length); any other zeroes a backed header and costs its available entry. */
  lemma RxOutcome(rs: seq<Region>, descs: seq<Desc>, head: nat, tap: Tap, s: NetState)
    requires WellFormed(rs, |s.host|) && Linked(descs, head, HDR_SIZE) && Shaped(s.q)
    requires RxAllowed(ChainOf(rs, |s.host|, descs, head), tap)
    ensures var r, m := RxResult(ChainOf(rs, |s.host|, descs, head), tap, s), Guest(rs, s.host);
      var zeroed := if Held(rs, descs[head].addr, 10) then Overlay(m, descs[head].addr, [0, 0, 0, 0, 0, 0, 0, 0, 0, 0]) else m;
      && |r.host| == |s.host| && r.sent == s.sent
      && if Reaches(rs, descs, head) && tap.Frame? then
           && Guest(rs, r.host) == Overlay(zeroed, descs[descs[head].next].addr, tap.bytes)
           && r.q == PushQueue(PopQueue(s.q), UsedElem(0, (10 + |tap.bytes|) % 0x1_0000_0000))
           && r.line == if s.q.canPush then Raise(s.line) else s.line
         else Guest(rs, r.host) == zeroed && r.q == PopQueue(s.q) && r.line == s.line
  {
    RxOverlaysGuest(rs, s.host, descs, head, tap);
  }

  class Net {
    const device: Device
    /** The frames handed to the TAP device. */
    var sent: seq<seq<U8>>

    constructor (device: Device)
      ensures this.device == device && sent == []
    {
      this.device := device;
      sent := [];
    }

    ghost function StateOf(vm: Vm, vq: VirtQueue): (s: NetState)
      reads this, vm.host, vq, vq.avail, vq.used, vq.dev
      requires vq.Valid()
      ensures Shaped(s.q) && |s.host| == vm.host.Length
    {
      NetState(vq.View(), vq.dev.Line(), vm.host[..], sent)
    }

    /** The chain at the head of the queue, if there is one, can be walked. */
    ghost predicate Ready(vm: Vm, vq: VirtQueue)
      reads vq, vq.avail, vq.used, vq.desc, vm.regions
    {
      && vq.Valid() && vm.Mapped()
      && (PopHead(vq.View()).Some? ==> Linked(vq.Descs(), PopHead(vq.View()).value, HDR_SIZE))
    }

    /** The chain at the head of the queue, if there is one. */
    ghost function Request(vm: Vm, vq: VirtQueue): (c: Option<Chain>)
      reads vq, vq.avail, vq.used, vq.desc, vm.regions
      requires Ready(vm, vq)
      ensures c.Some? ==> ChainInHost(c.value, vm.host.Length)
    {
      match PopHead(vq.View())
      case None => None
      case Some(head) => Some(ChainOf(vm.Table(), vm.host.Length, vq.Descs(), head))
    }

    /** virtio_net_queue_notify: queue 0 receives, queue 1 transmits, any other is ignored. */
    method QueueNotify(vq: VirtQueue, tap: Tap, n: int) returns (ret: int)
      requires device.vm != null && Ready(device.vm, vq)
      requires var c := Request(device.vm, vq);
        c.Some? ==> RxAllowed(c.value, tap) && (c.value.Chain? ==> n <= c.value.len)
      modifies this`sent, vq`lastAvailIdx, vq`lastUsedIdx, vq.used, vq.dev`counter, device.vm.host
      ensures vq.Valid()
      ensures StateOf(old(device.vm), vq) == match old(Request(device.vm, vq))
        case None => old(StateOf(device.vm, vq))
        case Some(c) =>
          if vq.index == 0 then RxResult(c, tap, old(StateOf(device.vm, vq)))
          else if vq.index == 1 then TxResult(c, n, old(StateOf(device.vm, vq)))
          else old(StateOf(device.vm, vq))
    {
      if vq.index == 0 {
        ret := HandleRx(device.vm, vq, tap);
      } else if vq.index == 1 {
        ret := HandleTx(device.vm, vq, n);
      } else {
        ret := 0;
      }
    }

    /** virtio_net_handle_rx; tap is what read() yields. */
    method HandleRx(vm: Vm, vq: VirtQueue, tap: Tap) returns (ret: int)
      requires Ready(vm, vq)
      requires var c := Request(vm, vq); c.Some? ==> RxAllowed(c.value, tap)
      modifies vq`lastAvailIdx, vq`lastUsedIdx, vq.used, vq.dev`counter, vm.host
      ensures vq.Valid()
      ensures match old(Request(vm, vq))
        case None => ret == 0 && StateOf(vm, vq) == old(StateOf(vm, vq))
        case Some(c) =>
          && ret == (if RxReply(c, tap) == None then -1 else 0)
          && StateOf(vm, vq) == RxResult(c, tap, old(StateOf(vm, vq)))
    {
      var popped := vq.Pop();
      if popped == None {
        return 0;
      }
      var c := WalkChain(vm, vq, popped.value);
      var received := Receive(vm.host, c, tap);
      if !received {
        return -1;
      }
      vq.Push(0, (HDR_SIZE + |tap.bytes|) % TWO_32);
      return 0;
    }

    /** The memory of the buffers: the header is zeroed, then the frame read behind it. */
    method Receive(host: array<U8>, c: Chain, tap: Tap) returns (received: bool)
      requires ChainInHost(c, host.Length) && RxAllowed(c, tap)
      modifies host
      ensures host[..] == RxMemory(c, old(host[..]), tap)
      ensures received <==> RxReply(c, tap).Some?
    {
      if c == NoHeader {
        return false;
      }
      CopyIn(host, c.hdrAt, ZERO_HDR);
      if c.HeaderOnly? || tap == TapError {
        return false;
      }
      CopyIn(host, c.dataAt, tap.bytes);
      return true;
    }

    /** virtio_net_handle_tx; n is what write() returns. */
    method HandleTx(vm: Vm, vq: VirtQueue, n: int) returns (ret: int)
      requires Ready(vm, vq)
      requires var c := Request(vm, vq); c.Some? && c.value.Chain? ==> n <= c.value.len
      modifies this`sent, vq`lastAvailIdx, vq`lastUsedIdx, vq.used, vq.dev`counter
      ensures vq.Valid()
      ensures match old(Request(vm, vq))
        case None => ret == 0 && StateOf(vm, vq) == old(StateOf(vm, vq))
        case Some(c) =>
          && ret == (if TxReply(c, n >= 0) == None then -1 else 0)
          && StateOf(vm, vq) == TxResult(c, n, old(StateOf(vm, vq)))
      ensures match PopHead(old(vq.View()))
        case None => ret == 0 && sent == old(sent) && vq.View() == old(vq.View())
        case Some(head) =>
          var hdr, rs := vq.Descs()[head], vm.Table();
          if Held(rs, hdr.addr, 10) && hdr.flags % 2 == 1 && Held(rs, vq.Descs()[hdr.next].addr, vq.Descs()[hdr.next].len) && n >= 0
          then
            && ret == 0 && HasBytes(Guest(rs, vm.host[..]), vq.Descs()[hdr.next].addr, n)
            && sent == old(sent) + [GuestBytes(Guest(rs, vm.host[..]), vq.Descs()[hdr.next].addr, n)]
            && vq.View() == PushQueue(PopQueue(old(vq.View())), UsedElem(0, 0))
          else ret == -1 && sent == old(sent) && vq.View() == PopQueue(old(vq.View()))
    {
      ghost var s, descs, rs := StateOf(vm, vq), vq.Descs(), vm.Table();
      ret := Transmit(vm, vq, n);
      if PopHead(s.q).Some? {
        TxOutcome(rs, descs, PopHead(s.q).value, n, s);
      }
    }

    /** The chain at the head of the queue is walked, written to the TAP device and completed. */
    method Transmit(vm: Vm, vq: VirtQueue, n: int) returns (ret: int)
      requires Ready(vm, vq)
      requires var c := Request(vm, vq); c.Some? && c.value.Chain? ==> n <= c.value.len
      modifies this`sent, vq`lastAvailIdx, vq`lastUsedIdx, vq.used, vq.dev`counter
      ensures vq.Valid()
      ensures match old(Request(vm, vq))
        case None => ret == 0 && StateOf(vm, vq) == old(StateOf(vm, vq))
        case Some(c) =>
          && ret == (if TxReply(c, n >= 0) == None then -1 else 0)
          && StateOf(vm, vq) == TxResult(c, n, old(StateOf(vm, vq)))
    {
      var popped := vq.Pop();
      if popped == None {
        return 0;
      }
      var c := WalkChain(vm, vq, popped.value);
      if !c.Chain? || n < 0 {
        return -1;
      }
      assert vm.host[c.dataAt..c.dataAt + n] == Load(vm.host[..], c.dataAt, n);
      sent := sent + [vm.host[c.dataAt..c.dataAt + n]];
      vq.Push(0, 0);
      return 0;
    }

    /** The chain walk common to both directions. It reads the descriptors and the region table only,
        so it does not matter that a receive zeroes the header halfway through. */
    method WalkChain(vm: Vm, vq: VirtQueue, head: U16) returns (c: Chain)
      requires vq.Valid() && vm.Mapped() && Linked(vq.Descs(), head, HDR_SIZE)
      ensures c == ChainOf(vm.Table(), vm.host.Length, vq.Descs(), head)
      ensures ChainInHost(c, vm.host.Length)
    {
      var desc := vq.desc[head];
      AcceptsIffHeld(vm.Table(), vm.host.Length, desc.addr, HDR_SIZE);
      var hdr := vm.GpaToHva(desc.addr, HDR_SIZE);
      if hdr == NULL {
        return NoHeader;
      }
      if desc.flags % 2 != F_NEXT {
        return HeaderOnly(hdr);
      }
      desc := vq.desc[desc.next];
      AcceptsIffHeld(vm.Table(), vm.host.Length, desc.addr, desc.len);
      var data := vm.GpaToHva(desc.addr, desc.len);
      if data == NULL {
        return HeaderOnly(hdr);
      }
      return Chain(hdr, data, desc.len);
    }
  }
}
