/** The block device's queue handler of src/devices/virtio-block.c: one three-descriptor request. */
module VirtioBlock {
  import opened Words
  import opened GuestMap
  import opened Irq
  import opened VirtRing
  import opened Machine
  import opened Virtqueues

  const T_IN := 0
  const T_OUT := 1
  const T_FLUSH := 4
  const S_OK := 0
  const S_IOERR := 1
  const S_UNSUPP := 2
  const REQ_SIZE := 16
  const BLK_SIZE := 512

  /** What the chain walk yields: where the data and status bytes are in the host, what is asked,
      and how many bytes move, which is the length of the third descriptor. */
  datatype Plan = Reject | Plan(kind: nat, sector: nat, dataAt: nat, statusAt: nat, len: U32)

  /** The walk as far as the NEXT flags lead: header, data, and the one status byte. */
  predicate Walkable(descs: seq<Desc>, head: nat) {
    Linked(descs, head, REQ_SIZE) &&
    (HasNext(descs[head]) && HasNext(Second(descs, head)) ==> InTable(descs, Second(descs, head).next, 1))
  }

  function Second(descs: seq<Desc>, head: nat): Desc
    requires head < |descs| && descs[head].next < |descs|
  {
    descs[descs[head].next]
  }

  function Third(descs: seq<Desc>, head: nat): Desc
    requires head < |descs| && descs[head].next < |descs| && Second(descs, head).next < |descs|
  {
    descs[Second(descs, head).next]
  }

  /** The chain is complete and every part of it is backed by a region. */
  ghost predicate ChainOk(rs: seq<Region>, descs: seq<Desc>, head: nat)
    requires Walkable(descs, head)
  {
    && Held(rs, descs[head].addr, REQ_SIZE) && HasNext(descs[head])
    && Held(rs, Second(descs, head).addr, Second(descs, head).len) && HasNext(Second(descs, head))
    && Held(rs, Third(descs, head).addr, 1)
  }

  /** The request that the chain at head makes of the device. */
  ghost function PlanOf(rs: seq<Region>, host: seq<U8>, descs: seq<Desc>, head: nat): (p: Plan)
    requires WellFormed(rs, |host|) && Walkable(descs, head)
    ensures p.Plan? <==> ChainOk(rs, descs, head)
    ensures InHost(p, |host|)
    ensures p.Plan? ==> p.dataAt + Second(descs, head).len <= |host| && p.len == Third(descs, head).len
  {
    if ChainOk(rs, descs, head) then
      var req := HeldBytes(rs, host, descs[head].addr, REQ_SIZE);
      var d2, d3 := Second(descs, head), Third(descs, head);
      var data, status := HeldBytes(rs, host, d2.addr, d2.len), HeldBytes(rs, host, d3.addr, 1);
      Plan(FromLittleEndian(req[..4]), FromLittleEndian(req[8..16]),
           VmLookup(rs, d2.addr, d2.len), VmLookup(rs, d3.addr, 1), d3.len)
    else Reject
  }

  /** Guest memory and the disk image. */
  datatype Media = Media(host: seq<U8>, disk: seq<U8>)

  /** The byte offset of the request, computed in 64 bits. */
  function Offset(p: Plan): U64
    requires p.Plan?
  {
    (p.sector * BLK_SIZE) % TWO_64
  }

  /** The buffers start inside the host's memory. */
  predicate InHost(p: Plan, hostSize: nat) {
    p.Plan? ==> p.statusAt < hostSize && p.dataAt <= hostSize
  }

  /** The results the kernel may give for the transfer: an error, or a count of at most len bytes; it
      touches only memory that is there, a read stays inside the file, and a negative file offset is an
      error. */
  predicate IoAllowed(p: Plan, hostSize: nat, diskSize: nat, io: int) {
    p.Plan? && p.kind in {T_IN, T_OUT} ==>
      && -1 <= io <= p.len
      && (io > 0 ==> p.dataAt + io <= hostSize)
      && (Offset(p) >= 0x8000_0000_0000_0000 ==> io < 0)
      && (p.kind == T_IN && io > 0 ==> Offset(p) + io <= diskSize)
  }

  /** The plan can be carried out with this result. */
  predicate Possible(p: Plan, m: Media, io: int) {
    p.Plan? && InHost(p, |m.host|) && IoAllowed(p, |m.host|, |m.disk|, io)
  }

  /** pwrite: the file grows, with zeros in any gap, as far as the data reaches. */
  function DiskWrite(disk: seq<U8>, off: nat, data: seq<U8>): (r: seq<U8>)
    ensures data == [] ==> r == disk
    ensures data != [] ==> |r| == (if off + |data| > |disk| then off + |data| else |disk|)
    ensures forall i :: 0 <= i < |r| ==>
      r[i] == if off <= i < off + |data| then data[i - off] else if i < |disk| then disk[i] else 0
  {
    if data == [] then disk
    else
      var n := if off + |data| > |disk| then off + |data| else |disk|;
      seq(n, i requires 0 <= i < n =>
        if off <= i < off + |data| then data[i - off] else if i < |disk| then disk[i] else 0)
  }

  function DiskRead(disk: seq<U8>, off: nat, n: nat): (r: seq<U8>)
    requires n > 0 ==> off + n <= |disk|
    ensures |r| == n
  {
    if n == 0 then [] else disk[off..off + n]
  }

  function StatusOf(p: Plan, io: int): U8
    requires p.Plan?
  {
    if p.kind in {T_IN, T_OUT} then (if io < 0 then S_IOERR else S_OK)
    else if p.kind == T_FLUSH then S_OK else S_UNSUPP
  }

  /** Memory and disk after the transfer, before the status byte. */
  function Transferred(p: Plan, m: Media, io: int): (r: Media)
    requires Possible(p, m, io)
    ensures |r.host| == |m.host|
  {
    if io < 0 then m
    else if p.kind == T_IN then m.(host := Store(m.host, p.dataAt, DiskRead(m.disk, Offset(p), io)))
    else if p.kind == T_OUT then m.(disk := DiskWrite(m.disk, Offset(p), Load(m.host, p.dataAt, io)))
    else m
  }

  function Performed(p: Plan, m: Media, io: int): (r: Media)
    requires Possible(p, m, io)
    ensures |r.host| == |m.host|
  {
    var t := Transferred(p, m, io);
    t.(host := Store(t.host, p.statusAt, [StatusOf(p, io)]))
  }

  // ------------------------------------------------------------- properties

  /** A request changes the bytes transferred into memory (IN) or onto the disk (OUT) and its status
      byte, nothing else. The status says whether the transfer was an error, not how far it got. */
  lemma RequestFootprint(p: Plan, m: Media, io: int)
    requires Possible(p, m, io)
    ensures var r := Performed(p, m, io);
      && r.host[p.statusAt] == StatusOf(p, io)
      && (p.kind in {T_IN, T_OUT} ==> (r.host[p.statusAt] == S_OK <==> io >= 0))
      && (forall a :: 0 <= a < |m.host| && a != p.statusAt ==>
            (p.kind == T_IN && p.dataAt <= a < p.dataAt + io) || r.host[a] == m.host[a])
      && (p.kind != T_OUT || io <= 0 ==> r.disk == m.disk)
      && |m.disk| <= |r.disk|
      && (forall b :: 0 <= b < |m.disk| ==>
            (p.kind == T_OUT && Offset(p) <= b < Offset(p) + io) || r.disk[b] == m.disk[b])
  {
  }

  /** A write followed, after any other activity in guest memory, by a read of the same sector and
      length returns the bytes that were written. */
  lemma ReadBack(out: Plan, m: Media, inn: Plan, host': seq<U8>)
    requires out.Plan? && out.kind == T_OUT && Possible(out, m, out.len)
    requires var disk' := Performed(out, m, out.len).disk;
      inn.Plan? && inn.kind == T_IN && Possible(inn, Media(host', disk'), inn.len)
    requires inn.sector == out.sector && inn.len == out.len
    requires Apart(inn.dataAt, inn.len, inn.statusAt, 1)
    ensures var disk' := Performed(out, m, out.len).disk;
      var r := Performed(inn, Media(host', disk'), inn.len);
      && Load(r.host, inn.dataAt, inn.len) == Load(m.host, out.dataAt, out.len)
      && r.disk == disk' && r.host[inn.statusAt] == S_OK
  {
    var n, off := out.len, Offset(out);
    var disk' := Performed(out, m, n).disk;
    if n > 0 {
      assert disk' == DiskWrite(m.disk, off, Load(m.host, out.dataAt, n));
      assert DiskRead(disk', off, n) == Load(m.host, out.dataAt, n);
      LoadStoreSame(host', inn.dataAt, DiskRead(disk', off, n));
    }
    var t := Transferred(inn, Media(host', disk'), n);
    LoadStoreApart(t.host, inn.statusAt, [S_OK as U8], inn.dataAt, n);
  }

  /** The hypothesis of the read-back follows from guest addresses that do not meet, when the
      transfer is no longer than the data buffer. */
  lemma GuestApartIsHostApart(rs: seq<Region>, host: seq<U8>, descs: seq<Desc>, head: nat)
    requires WellFormed(rs, |host|) && Walkable(descs, head) && ChainOk(rs, descs, head)
    requires var d2, d3 := Second(descs, head), Third(descs, head);
      1 <= d3.len <= d2.len && Apart(d2.addr, d2.len, d3.addr, 1)
    ensures var p := PlanOf(rs, host, descs, head);
      Apart(p.dataAt, p.len, p.statusAt, 1) && p.dataAt + p.len <= |host|
  {
    var d2, d3 := Second(descs, head), Third(descs, head);
    AcceptsIffHeld(rs, |host|, d2.addr, d2.len);
    AcceptsIffHeld(rs, |host|, d3.addr, 1);
    DisjointAccessesStayDisjoint(rs, |host|, d2.addr, d2.len, d3.addr, 1);
  }

  /** In the flat memory a read overlays the data buffer with the bytes from the disk, as long as they
      are no more than the buffer has, and every request its status byte. */
  lemma RequestOverlaysGuest(rs: seq<Region>, m: Media, descs: seq<Desc>, head: nat, io: int)
    requires WellFormed(rs, |m.host|) && Walkable(descs, head) && ChainOk(rs, descs, head)
    requires var p := PlanOf(rs, m.host, descs, head);
      Possible(p, m, io) && (p.kind == T_IN ==> io <= Second(descs, head).len)
    ensures var p := PlanOf(rs, m.host, descs, head);
      var data := if p.kind == T_IN && io > 0 then DiskRead(m.disk, Offset(p), io) else [];
      Guest(rs, Performed(p, m, io).host) ==
        Overlay(Overlay(Guest(rs, m.host), Second(descs, head).addr, data), Third(descs, head).addr, [StatusOf(p, io)])
  {
    var p, d2, d3 := PlanOf(rs, m.host, descs, head), Second(descs, head), Third(descs, head);
    var data := if p.kind == T_IN && io > 0 then DiskRead(m.disk, Offset(p), io) else [];
    StoreOverlaysGuest(rs, m.host, d2.addr, d2.len, data);
    assert Transferred(p, m, io).host == Store(m.host, p.dataAt, data);
    StoreOverlaysGuest(rs, Transferred(p, m, io).host, d3.addr, 1, [StatusOf(p, io)]);
  }

  /** A write puts the flat memory's bytes on the disk, as long as they are no more than the buffer has. */
  lemma WriteTakesGuestBytes(rs: seq<Region>, m: Media, descs: seq<Desc>, head: nat, io: nat)
    requires WellFormed(rs, |m.host|) && Walkable(descs, head) && ChainOk(rs, descs, head)
    requires var p := PlanOf(rs, m.host, descs, head);
      Possible(p, m, io) && p.kind == T_OUT && io <= Second(descs, head).len
    ensures var p, addr := PlanOf(rs, m.host, descs, head), Second(descs, head).addr;
      && HasBytes(Guest(rs, m.host), addr, io)
      && Performed(p, m, io).disk == DiskWrite(m.disk, Offset(p), GuestBytes(Guest(rs, m.host), addr, io))
  {
    LoadIsGuest(rs, m.host, Second(descs, head).addr, Second(descs, head).len, io);
  }

  /** Everything the handler may touch. */
  datatype BlockState = BlockState(q: Queue, line: IrqLine, media: Media)

  const DONE := Some(UsedElem(0, 1))

  /** What becomes of the request at the head of the queue: a rejected one costs an available entry, any
      other is performed and completed with id 0 and length 1. */
  function Handled(request: Option<Plan>, s: BlockState, io: int): BlockState
    requires Shaped(s.q)
    requires request.Some? && request.value.Plan? ==> Possible(request.value, s.media, io)
  {
    match request
    case None => s
    case Some(p) =>
      if p == Reject then s.(q := ServeOne(s.q, None))
      else BlockState(ServeOne(s.q, DONE), RaisedIf(s.q, s.line, DONE), Performed(p, s.media, io))
  }

  /** A chain is served exactly when its sixteen header bytes, its linked data buffer and the first byte
      of its linked status buffer are backed. */
  ghost predicate Served(rs: seq<Region>, descs: seq<Desc>, head: nat)
    requires Walkable(descs, head)
  {
    && Held(rs, descs[head].addr, 16) && descs[head].flags % 2 == 1
    && Held(rs, Second(descs, head).addr, Second(descs, head).len) && Second(descs, head).flags % 2 == 1
    && Held(rs, Third(descs, head).addr, 1)
  }

  /** A chain that is served is performed and completed as (0, 1); any other only costs its available
      entry. */
  lemma RequestOutcome(rs: seq<Region>, descs: seq<Desc>, head: nat, s: BlockState, io: int)
    requires WellFormed(rs, |s.media.host|) && Walkable(descs, head) && Shaped(s.q)
    requires IoAllowed(PlanOf(rs, s.media.host, descs, head), |s.media.host|, |s.media.disk|, io)
    ensures var p := PlanOf(rs, s.media.host, descs, head);
      Handled(Some(p), s, io) ==
        if Served(rs, descs, head)
        then BlockState(PushQueue(PopQueue(s.q), UsedElem(0, 1)), if s.q.canPush then Raise(s.line) else s.line,
                        Performed(p, s.media, io))
        else s.(q := PopQueue(s.q))
  {
  }

  class Block {
    const device: Device
    var disk: seq<U8>

    constructor (device: Device, disk: seq<U8>)
      ensures this.device == device && this.disk == disk
    {
      this.device, this.disk := device, disk;
    }

    ghost function StateOf(vm: Vm, vq: VirtQueue): (s: BlockState)
      reads this, vm.host, vq, vq.avail, vq.used, vq.dev
      requires vq.Valid()
      ensures Shaped(s.q)
    {
      BlockState(vq.View(), vq.dev.Line(), Media(vm.host[..], disk))
    }

    /** The request at the head of the queue, if there is one. */
    ghost function Request(vm: Vm, vq: VirtQueue): (p: Option<Plan>)
      reads vq, vq.avail, vq.used, vq.desc, vm.regions, vm.host
      requires vq.Valid() && vm.Mapped()
      requires PopHead(vq.View()).Some? ==> Walkable(vq.Descs(), PopHead(vq.View()).value)
      ensures p.Some? ==> InHost(p.value, vm.host.Length)
    {
      match PopHead(vq.View())
      case None => None
      case Some(head) => Some(PlanOf(vm.Table(), vm.host[..], vq.Descs(), head))
    }

    /** One notification serves at most one request. A chain that is incomplete or not backed is
        dropped: one available entry is gone and nothing else has changed. io is what pread or
        pwrite returns. */
    method QueueNotify(vq: VirtQueue, io: int) returns (ret: int)
      requires vq.Valid() && device.vm != null && device.vm.Mapped()
      requires PopHead(vq.View()).Some? ==> Walkable(vq.Descs(), PopHead(vq.View()).value)
      requires var p := Request(device.vm, vq);
        p.Some? ==> IoAllowed(p.value, device.vm.host.Length, |disk|, io)
      modifies this`disk, vq`lastAvailIdx, vq`lastUsedIdx, vq.used, vq.dev`counter, device.vm.host
      ensures vq.Valid()
      ensures StateOf(old(device.vm), vq) == Handled(old(Request(device.vm, vq)), old(StateOf(device.vm, vq)), io)
      ensures ret == if old(Request(device.vm, vq)) == Some(Reject) then -1 else 0
      ensures match PopHead(old(vq.View()))
        case None => ret == 0 && vq.View() == old(vq.View())
        case Some(_) =>
          if old(Served(device.vm.Table(), vq.Descs(), PopHead(vq.View()).value))
          then ret == 0 && vq.View() == PushQueue(PopQueue(old(vq.View())), UsedElem(0, 1))
          else ret == -1 && vq.View() == PopQueue(old(vq.View()))
    {
      var vm := device.vm;
      var popped := vq.Pop();
      if popped == None {
        return 0;
      }
      var p := WalkChain(vm, vq, popped.value);
      if p == Reject {
        return -1;
      }
      DoTransfer(vm.host, p, io);
      vq.Push(0, 1);
      return 0;
    }

    /** The chain walk, which translates each part before looking at the next. */
    method WalkChain(vm: Vm, vq: VirtQueue, head: U16) returns (p: Plan)
      requires vq.Valid() && vm.Mapped() && Walkable(vq.Descs(), head)
      ensures p == PlanOf(vm.Table(), vm.host[..], vq.Descs(), head)
    {
      ghost var rs, host := vm.Table(), vm.host[..];
      var desc := vq.desc[head];
      AcceptsIffHeld(rs, |host|, desc.addr, REQ_SIZE);
      var reqHva := vm.GpaToHva(desc.addr, REQ_SIZE);
      if reqHva == NULL {
        return Reject;
      }
      LookupInHost(rs, |host|, desc.addr, REQ_SIZE);
      var kind := FromLittleEndian(vm.host[reqHva..reqHva + 4]);
      var sector := FromLittleEndian(vm.host[reqHva + 8..reqHva + 16]);
      assert host[reqHva..reqHva + 4] == Load(host, reqHva, REQ_SIZE)[..4];
      assert host[reqHva + 8..reqHva + 16] == Load(host, reqHva, REQ_SIZE)[8..16];
      if desc.flags % 2 != F_NEXT {
        return Reject;
      }
      desc := vq.desc[desc.next];
      AcceptsIffHeld(rs, |host|, desc.addr, desc.len);
      var dataHva := vm.GpaToHva(desc.addr, desc.len);
      if dataHva == NULL {
        return Reject;
      }
      if desc.flags % 2 != F_NEXT {
        return Reject;
      }
      desc := vq.desc[desc.next];
      AcceptsIffHeld(rs, |host|, desc.addr, 1);
      var statusHva := vm.GpaToHva(desc.addr, 1);
      if statusHva == NULL {
        return Reject;
      }
      return Plan(kind, sector, dataHva, statusHva, desc.len);
    }

    /** The request switch and the status byte. */
    method DoTransfer(host: array<U8>, p: Plan, io: int)
      requires Possible(p, Media(host[..], disk), io)
      modifies this`disk, host
      ensures Media(host[..], disk) == Performed(p, old(Media(host[..], disk)), io)
    {
      var status: U8 := S_OK;
      var off := (p.sector * BLK_SIZE) % TWO_64;
      if p.kind == T_IN {
        if io < 0 {
          status := S_IOERR;
        } else {
          CopyIn(host, p.dataAt, DiskRead(disk, off, io));
        }
      } else if p.kind == T_OUT {
        if io < 0 {
          status := S_IOERR;
        } else {
          assert host[p.dataAt..p.dataAt + io] == Load(host[..], p.dataAt, io);
          disk := DiskWrite(disk, off, host[p.dataAt..p.dataAt + io]);
        }
      } else if p.kind == T_FLUSH {
        status := S_OK;
      } else {
        status := S_UNSUPP;
      }
      CopyIn(host, p.statusAt, [status]);
    }
  }
}
