/** The virtual machine of src/vm.c with the device list of src/devices.c. */
module Machine {
  import opened Words
  import opened Alignment
  import opened GuestMap
  import opened Irq
  import opened Vcpus

  const VM_MAX_SLOTS := 32
  const VM_MAX_VCPUS := 8
  const VM_MAX_DEVICES := 16

  // ---------------------------------------------------------- memory regions

  datatype VmRegion = VmRegion(gpa: U64, hva: nat, size: U64, slot: U32, used: bool)

  const UNUSED := VmRegion(0, NULL, 0, 0, false)

  /** The regions in use, in table order. */
  function Active(t: seq<VmRegion>): seq<Region> {
    if t == [] then []
    else (if t[0].used then [Region(t[0].gpa, t[0].hva, t[0].size)] else []) + Active(t[1..])
  }

  /** Filling the first unused entry appends one region. */
  lemma {:induction false} FillFirstUnused(t: seq<VmRegion>, i: nat, r: VmRegion)
    requires i < |t| && r.used && (forall k :: 0 <= k < i ==> t[k].used) && (forall k :: i <= k < |t| ==> !t[k].used)
    ensures Active(t[i := r]) == Active(t) + [Region(r.gpa, r.hva, r.size)]
  {
    if i == 0 {
      NoneActive(t);
      NoneActive(t[1..]);
      assert t[0 := r][1..] == t[1..];
    } else {
      FillFirstUnused(t[1..], i - 1, r);
      assert t[i := r][1..] == t[1..][i - 1 := r];
    }
  }

  lemma {:induction false} NoneActive(t: seq<VmRegion>)
    requires forall k :: 0 <= k < |t| ==> !t[k].used
    ensures Active(t) == []
  {
    if t != [] {
      NoneActive(t[1..]);
    }
  }

  // -------------------------------------------------------------- device list

  predicate Covers(d: Device, gpa: U64) {
    d.gpaStart <= gpa <= d.gpaEnd
  }

  /** The first device in the list whose window covers gpa. */
  function Find(ds: seq<Device>, gpa: U64): (r: Option<Device>)
    ensures r.Some? ==> r.value in ds && Covers(r.value, gpa)
  {
    if ds == [] then None else if Covers(ds[0], gpa) then Some(ds[0]) else Find(ds[1..], gpa)
  }

  /** The list without the first occurrence of d. */
  function RemoveFirst(ds: seq<Device>, d: Device): seq<Device> {
    if ds == [] then [] else if ds[0] == d then ds[1..] else [ds[0]] + RemoveFirst(ds[1..], d)
  }

  /** The list without d, the others in their order. */
  function Without(ds: seq<Device>, d: Device): seq<Device> {
    if ds == [] then [] else (if ds[0] == d then [] else [ds[0]]) + Without(ds[1..], d)
  }

  ghost predicate WindowsDisjoint(ds: seq<Device>) {
    forall i, j :: 0 <= i < j < |ds| ==> ds[i] != ds[j] && forall g: U64 :: !(Covers(ds[i], g) && Covers(ds[j], g))
  }

  /** Removing one occurrence removes the device exactly when it is listed at most once. */
  lemma {:induction false} RemoveFirstRemovesAll(ds: seq<Device>, d: Device)
    ensures RemoveFirst(ds, d) == Without(ds, d) <==> forall i, j :: 0 <= i < j < |ds| ==> !(ds[i] == d && ds[j] == d)
  {
    if ds != [] {
      if ds[0] == d {
        WithoutShrinks(ds[1..], d);
        assert forall j :: 1 <= j < |ds| ==> ds[j] == ds[1..][j - 1];
      } else {
        RemoveFirstRemovesAll(ds[1..], d);
        assert forall j :: 1 <= j < |ds| ==> ds[j] == ds[1..][j - 1];
        assert ([ds[0]] + RemoveFirst(ds[1..], d))[1..] == RemoveFirst(ds[1..], d);
        assert ([ds[0]] + Without(ds[1..], d))[1..] == Without(ds[1..], d);
      }
    }
  }

  /** Of a device listed twice one entry stays. */
  lemma OneOfTwoStays(d: Device)
    ensures RemoveFirst([d, d], d) == [d] && Without([d, d], d) == []
  {
    assert [d, d][1..] == [d] && [d][1..] == [];
    assert Without([d], d) == [];
  }

  lemma {:induction false} WithoutShrinks(ds: seq<Device>, d: Device)
    ensures |Without(ds, d)| <= |ds|
    ensures ds == Without(ds, d) <==> d !in ds
  {
    if ds != [] {
      WithoutShrinks(ds[1..], d);
      if ds[0] != d {
        assert ([ds[0]] + Without(ds[1..], d))[1..] == Without(ds[1..], d);
      }
    }
  }

  lemma {:induction false} FindSkips(ds: seq<Device>, i: nat, gpa: U64)
    requires i <= |ds| && forall k :: 0 <= k < i ==> !Covers(ds[k], gpa)
    ensures Find(ds, gpa) == Find(ds[i..], gpa)
  {
    if i == 0 {
      assert ds[0..] == ds;
    } else {
      FindSkips(ds[1..], i - 1, gpa);
      assert ds[1..][i - 1..] == ds[i..];
    }
  }

  /** With disjoint windows the lookup finds the one device that covers the address. */
  lemma {:induction false} FindIsUnique(ds: seq<Device>, gpa: U64, d: Device)
    requires WindowsDisjoint(ds)
    ensures Find(ds, gpa) == Some(d) <==> d in ds && Covers(d, gpa)
  {
    if ds != [] {
      FindIsUnique(ds[1..], gpa, d);
    }
  }

  /** The order of registration does not matter. */
  lemma FindIgnoresOrder(ds: seq<Device>, ds': seq<Device>, gpa: U64)
    requires WindowsDisjoint(ds) && WindowsDisjoint(ds') && forall d :: d in ds <==> d in ds'
    ensures Find(ds, gpa) == Find(ds', gpa)
  {
    match Find(ds, gpa)
    case Some(d) =>
      FindIsUnique(ds, gpa, d);
      FindIsUnique(ds', gpa, d);
    case None =>
      match Find(ds', gpa)
      case Some(d) =>
        FindIsUnique(ds', gpa, d);
        FindIsUnique(ds, gpa, d);
      case None =>
  }

  /** After removal every other device is still found where it was, and d nowhere. */
  lemma {:induction false} FindAfterRemoval(ds: seq<Device>, d: Device, gpa: U64)
    requires WindowsDisjoint(ds)
    ensures Find(RemoveFirst(ds, d), gpa) == if Find(ds, gpa) == Some(d) then None else Find(ds, gpa)
  {
    if ds != [] {
      FindAfterRemoval(ds[1..], d, gpa);
      if ds[0] == d {
        FindIsUnique(ds, gpa, ds[0]);
        match Find(ds[1..], gpa)
        case Some(e) =>
          FindIsUnique(ds[1..], gpa, e);
          FindIsUnique(ds, gpa, e);
        case None =>
      }
    }
  }

  /** One access to a device; once in the handler gpa is the offset in the device's window. */
  datatype MmioAccess = MmioAccess(gpa: U64, isWrite: bool, data: U64, size: U8)

  /** What a handler returns and leaves in the buffer that it is given. */
  datatype Answer = Answer(ret: int, data: U64)

  /** The read and write handlers of all devices. */
  type Handlers = (Device, MmioAccess) -> Answer

  /** The access as the handler of d sees it. */
  function Within(access: MmioAccess, d: Device): MmioAccess
    requires Covers(d, access.gpa)
  {
    access.(gpa := access.gpa - d.gpaStart)
  }

  /** What vcpu_handle_mmio_exit returns and leaves in the exit record: the handler works on the record
      itself for a write, and on a copy for a read. An access that no device covers is no error. */
  function MmioAnswer(ds: seq<Device>, access: MmioAccess, ops: Handlers): Answer {
    match Find(ds, access.gpa)
    case None => Answer(0, access.data)
    case Some(d) =>
      var r := ops(d, Within(access, d));
      Answer(r.ret, if access.isWrite then r.data else access.data)
  }

  /** What the device leaves in its buffer reaches the exit record, whatever it is, for writes only. */
  lemma MmioDataArrivesIff(ds: seq<Device>, access: MmioAccess, d: Device)
    requires Find(ds, access.gpa) == Some(d)
    ensures (forall ops: Handlers :: MmioAnswer(ds, access, ops).data == ops(d, Within(access, d)).data) <==>
      access.isWrite
  {
    if !access.isWrite {
      var other := if access.data == 0 then 1 else 0;
      var ops: Handlers := (_, _) => Answer(0, other);
      assert MmioAnswer(ds, access, ops).data != ops(d, Within(access, d)).data;
    }
  }

  /** A device that answers the read of its first register with 0x55: the guest is given the 0 that was
      in the record. */
  lemma ReadIsLost(d: Device, access: MmioAccess, ops: Handlers)
    requires Covers(d, d.gpaStart) && access == MmioAccess(d.gpaStart, false, 0, 4)
    requires ops == ((_, _) => Answer(0, 0x55))
    ensures MmioAnswer([d], access, ops) == Answer(0, 0)
  {
  }

  class Device {
    const gpaStart: U64
    const gpaEnd: U64
    var vm: Vm?
    var irqFd: int
    /** Whether irqFd is an eventfd, and its counter. */
    var isEventfd: bool
    var counter: U64

    constructor (gpaStart: U64, gpaEnd: U64)
      ensures this.gpaStart == gpaStart && this.gpaEnd == gpaEnd && vm == null && irqFd == -1 && Line() == Absent
    {
      this.gpaStart, this.gpaEnd := gpaStart, gpaEnd;
      vm, irqFd, isEventfd, counter := null, -1, false, 0;
    }

    /** A device whose record was zeroed, as the virtio and VFIO devices' are: descriptor 0. */
    constructor Zeroed(gpaStart: U64, gpaEnd: U64)
      ensures this.gpaStart == gpaStart && this.gpaEnd == gpaEnd && vm == null && irqFd == 0 && Line() == OtherFile
    {
      this.gpaStart, this.gpaEnd := gpaStart, gpaEnd;
      vm, irqFd, isEventfd, counter := null, 0, false, 0;
    }

    ghost function Line(): IrqLine
      reads this
    {
      if irqFd < 0 then Absent else if isEventfd then Eventfd(counter) else OtherFile
    }

    /** otherOk says whether a descriptor that is no eventfd takes the eight bytes. */
    method AssertIrq(otherOk: bool) returns (ret: int)
      modifies this`counter
      ensures Line() == Raise(old(Line()))
      ensures old(irqFd >= 0 && isEventfd && counter < 0xFFFF_FFFF_FFFF_FFFE) ==> counter == old(counter) + 1
      ensures old(irqFd < 0 || !isEventfd || counter >= 0xFFFF_FFFF_FFFF_FFFE) ==> counter == old(counter)
      ensures ret == match old(Line())
        case Absent => -1
        case Eventfd(counter) => if counter < EVENTFD_MAX then 0 else -1
        case OtherFile => if otherOk then 0 else -1
    {
      if irqFd < 0 {
        return -1;
      }
      if !isEventfd {
        return if otherOk then 0 else -1;
      }
      if counter >= EVENTFD_MAX {
        return -1;
      }
      counter := counter + 1;
      return 0;
    }

    method DeassertIrq() returns (ret: int)
      modifies this`counter
      ensures Line() == Acknowledge(old(Line()))
      ensures counter == if irqFd >= 0 && isEventfd then 0 else old(counter)
      ensures ret == if irqFd >= 0 then 0 else -1
    {
      if irqFd < 0 {
        return -1;
      }
      if isEventfd {
        counter := 0;
      }
      return 0;
    }
  }

  // ---------------------------------------------------------------- lifecycle

  datatype VmState = VmStopped | VmRunning | VmPaused | VmError

  /** The recorded states of a VM and its vCPUs. */
  datatype Life = Life(vm: VmState, cpus: seq<VcpuState>)

  /** Start carries the result of each pthread_create. */
  datatype LifeOp = StartVm(createOk: seq<bool>) | StopVm

  /** The first vCPU that is not running and whose thread cannot be created. */
  function FirstFailure(cpus: seq<VcpuState>, createOk: seq<bool>): (i: nat)
    requires |createOk| == |cpus|
    ensures i <= |cpus|
    ensures i < |cpus| ==> cpus[i] != VcpuRunning && !createOk[i]
    ensures forall k :: 0 <= k < i ==> cpus[k] == VcpuRunning || createOk[k]
  {
    if cpus == [] then 0
    else if cpus[0] != VcpuRunning && !createOk[0] then 0
    else 1 + FirstFailure(cpus[1..], createOk[1..])
  }

  /** What vm_start and vm_stop leave: a failed start has stopped the vCPUs before the failing one. */
  function LifeNext(l: Life, op: LifeOp): Life
    requires op.StartVm? ==> |op.createOk| == |l.cpus|
  {
    match op
    case StartVm(createOk) =>
      if l.vm == VmRunning then l
      else
        var bad := FirstFailure(l.cpus, createOk);
        if bad == |l.cpus| then Life(VmRunning, WithFirst(l.cpus, bad, VcpuRunning))
        else l.(cpus := WithFirst(l.cpus, bad, VcpuStopped))
    case StopVm =>
      if l.vm == VmStopped then l
      else Life(VmStopped, StoppedUpTo(l.cpus, |l.cpus|))
  }

  /** cpus with the first n states replaced by s. */
  function WithFirst(cpus: seq<VcpuState>, n: nat, s: VcpuState): (r: seq<VcpuState>)
    requires n <= |cpus|
    ensures |r| == |cpus|
    ensures forall i :: 0 <= i < |r| ==> r[i] == if i < n then s else cpus[i]
  {
    seq(|cpus|, i requires 0 <= i < |cpus| => if i < n then s else cpus[i])
  }

  /** The states after vcpu_stop on the first n vCPUs: only a running one becomes stopped. */
  function StoppedUpTo(cpus: seq<VcpuState>, n: nat): (r: seq<VcpuState>)
    requires n <= |cpus|
    ensures |r| == |cpus|
    ensures forall i :: 0 <= i < |r| ==> r[i] == if i < n && cpus[i] == VcpuRunning then VcpuStopped else cpus[i]
  {
    if n == 0 then cpus
    else StoppedUpTo(cpus, n - 1)[n - 1 := if cpus[n - 1] == VcpuRunning then VcpuStopped else cpus[n - 1]]
  }

  predicate ValidOps(n: nat, ops: seq<LifeOp>) {
    forall k :: 0 <= k < |ops| ==> ops[k].StartVm? ==> |ops[k].createOk| == n
  }

  function LifeRun(l: Life, ops: seq<LifeOp>): Life
    requires ValidOps(|l.cpus|, ops)
    decreases |ops|
  {
    if ops == [] then l else LifeRun(LifeNext(l, ops[0]), ops[1..])
  }

  /** Everything runs, or nothing does, and the VM's record says which. */
  predicate Coherent(l: Life) {
    || (l.vm == VmRunning && forall i :: 0 <= i < |l.cpus| ==> l.cpus[i] == VcpuRunning)
    || (l.vm == VmStopped && forall i :: 0 <= i < |l.cpus| ==> l.cpus[i] == VcpuStopped)
  }

  /** No sequence of starts, failed starts and stops breaks coherence. */
  lemma {:induction false} LifecycleStaysCoherent(l: Life, ops: seq<LifeOp>)
    requires Coherent(l) && ValidOps(|l.cpus|, ops)
    ensures Coherent(LifeRun(l, ops)) && |LifeRun(l, ops).cpus| == |l.cpus|
    ensures |l.cpus| >= 1 ==>
      (LifeRun(l, ops).vm == VmRunning <==>
        forall i :: 0 <= i < |l.cpus| ==> LifeRun(l, ops).cpus[i] == VcpuRunning)
    decreases |ops|
  {
    if ops != [] {
      LifecycleStaysCoherent(LifeNext(l, ops[0]), ops[1..]);
    } else if |l.cpus| >= 1 && l.vm == VmStopped {
      assert l.cpus[0] == VcpuStopped;
    }
  }

  /** Whatever happened before, a run that ends with a stop leaves everything stopped. */
  lemma {:induction false} StopAtTheEnd(l: Life, ops: seq<LifeOp>)
    requires Coherent(l) && ValidOps(|l.cpus|, ops)
    ensures ValidOps(|l.cpus|, ops + [StopVm])
    ensures LifeRun(l, ops + [StopVm]) == Life(VmStopped, seq(|l.cpus|, _ => VcpuStopped))
    decreases |ops|
  {
    var all := ops + [StopVm];
    if ops == [] {
      assert all[1..] == [];
    } else {
      assert all[0] == ops[0] && all[1..] == ops[1..] + [StopVm];
      StopAtTheEnd(LifeNext(l, ops[0]), ops[1..]);
    }
  }

  /** A start from any recorded states: it does nothing to a running VM; otherwise everything runs after
      it, or there is a first vCPU that is not running and cannot be created, the VM's record is
      unchanged, the vCPUs before that one are stopped and the others as they were. */
  lemma StartOutcome(l: Life, createOk: seq<bool>)
    requires |createOk| == |l.cpus|
    ensures var r := LifeNext(l, StartVm(createOk));
      if l.vm == VmRunning then r == l
      else if forall i :: 0 <= i < |l.cpus| ==> l.cpus[i] == VcpuRunning || createOk[i]
      then r.vm == VmRunning && |r.cpus| == |l.cpus| && forall i :: 0 <= i < |l.cpus| ==> r.cpus[i] == VcpuRunning
      else exists bad: nat :: RolledBack(l, createOk, bad, r)
  {
    var bad := FirstFailure(l.cpus, createOk);
    assert bad < |l.cpus| ==> Blocked(l, createOk, bad);
    assert bad < |l.cpus| && l.vm != VmRunning ==> RolledBack(l, createOk, bad, LifeNext(l, StartVm(createOk)));
  }

  ghost predicate RolledBack(l: Life, createOk: seq<bool>, bad: nat, r: Life)
    requires |createOk| == |l.cpus|
  {
    && bad < |l.cpus| && Blocked(l, createOk, bad) && r.vm == l.vm && |r.cpus| == |l.cpus|
    && (forall i :: 0 <= i < bad ==> !Blocked(l, createOk, i))
    && (forall i :: 0 <= i < |l.cpus| ==> r.cpus[i] == if i < bad then VcpuStopped else l.cpus[i])
  }

  predicate Blocked(l: Life, createOk: seq<bool>, i: nat)
    requires |createOk| == |l.cpus| && i < |l.cpus|
  {
    l.cpus[i] != VcpuRunning && !createOk[i]
  }

  /** From all-stopped, a start leaves everything running if every thread can be created, and
      everything stopped otherwise, whichever creation fails. */
  lemma StartIsAllOrNothing(n: nat, createOk: seq<bool>)
    requires |createOk| == n
    ensures var l := LifeNext(Life(VmStopped, seq(n, _ => VcpuStopped)), StartVm(createOk));
      l == if forall i :: 0 <= i < n ==> createOk[i] then Life(VmRunning, seq(n, _ => VcpuRunning))
           else Life(VmStopped, seq(n, _ => VcpuStopped))
  {
  }

  ghost function StatesOf(cs: seq<Vcpu>): (r: seq<VcpuState>)
    reads cs
    ensures |r| == |cs| && forall i {:trigger r[i]} :: 0 <= i < |cs| ==> r[i] == cs[i].state
  {
    seq(|cs|, i requires 0 <= i < |cs| reads cs => cs[i].state)
  }

  /** A failed start happens in two steps. */
  lemma StartRollsBack(l: Life, createOk: seq<bool>, bad: nat, after: Life)
    requires |createOk| == |l.cpus| && l.vm != VmRunning && bad == FirstFailure(l.cpus, createOk) < |l.cpus|
    requires after == l.(cpus := StoppedUpTo(WithFirst(l.cpus, bad, VcpuRunning), bad))
    ensures after == LifeNext(l, StartVm(createOk))
  {
    assert WithFirst(l.cpus, bad, VcpuStopped) == StoppedUpTo(WithFirst(l.cpus, bad, VcpuRunning), bad);
  }

  lemma StartSucceeds(l: Life, createOk: seq<bool>, after: Life)
    requires |createOk| == |l.cpus| && l.vm != VmRunning && FirstFailure(l.cpus, createOk) == |l.cpus|
    requires after == Life(VmRunning, WithFirst(l.cpus, |l.cpus|, VcpuRunning))
    ensures after == LifeNext(l, StartVm(createOk))
  {
  }

  /** The first vCPU that cannot be created. */
  function FirstRefused(allocOk: seq<bool>): nat {
    if allocOk == [] || !allocOk[0] then 0 else 1 + FirstRefused(allocOk[1..])
  }

  lemma {:induction false} RefusedFirst(allocOk: seq<bool>, i: nat)
    requires i < |allocOk| && !allocOk[i] && forall k :: 0 <= k < i ==> allocOk[k]
    ensures FirstRefused(allocOk) == i
  {
    if i > 0 {
      RefusedFirst(allocOk[1..], i - 1);
    }
  }

  ghost function FlagsOf(cs: seq<Vcpu>): (r: seq<bool>)
    reads cs
    ensures |r| == |cs| && forall i {:trigger r[i]} :: 0 <= i < |cs| ==> r[i] == cs[i].shouldStop
  {
    seq(|cs|, i requires 0 <= i < |cs| reads cs => cs[i].shouldStop)
  }

  class Vm {
    const host: array<U8>
    const regions: array<VmRegion>
    const devices: array<Device?>
    const vcpus: array<Vcpu?>
    var memSize: U64
    var numDevices: nat
    var numVcpus: int
    var state: VmState
    /** The registered devices in order: the live prefix of the devices array. */
    ghost var list: seq<Device>
    /** The vCPUs in order: the live prefix of the vcpus array. */
    ghost var cpus: seq<Vcpu>

    constructor (host: array<U8>)
      ensures this.host == host && memSize == 0 && state == VmStopped
      ensures ValidRegions() && Table() == []
      ensures ValidDevices() && list == []
      ensures ValidVcpus() && LifeOf() == Life(VmStopped, [])
      ensures fresh(regions) && fresh(devices) && fresh(vcpus)
    {
      this.host := host;
      regions := new VmRegion[VM_MAX_SLOTS](_ => UNUSED);
      devices := new Device?[VM_MAX_DEVICES](_ => null);
      vcpus := new Vcpu?[VM_MAX_VCPUS](_ => null);
      memSize, numDevices, numVcpus, state := 0, 0, 0, VmStopped;
      list, cpus := [], [];
      new;
      NoneActive(regions[..]);
    }

    // ------------------------------------------------------------- memory

    ghost predicate ValidRegions()
      reads regions
    {
      && regions.Length == VM_MAX_SLOTS
      && forall i, j :: 0 <= i < j < regions.Length && regions[j].used ==> regions[i].used
    }

    ghost function Table(): seq<Region>
      reads regions
    {
      Active(regions[..])
    }

    /** The table is usable for translation into this host. */
    ghost predicate Mapped()
      reads regions
    {
      regions.Length == VM_MAX_SLOTS && WellFormed(Table(), host.Length)
    }

    /** alloc is what calloc returns, mapOk whether the hypervisor accepts the mapping. */
    method AddMemoryRegion(gpa: U64, size: U64, alloc: nat, mapOk: bool) returns (ret: int)
      requires ValidRegions()
      modifies this`memSize, regions
      ensures ValidRegions()
      ensures ret == if (exists i :: 0 <= i < 32 && !old(regions[i].used)) && alloc != 0 && mapOk then 0 else -1
      ensures ret == 0 ==> Table() == old(Table()) + [Region(PageAlignDown(gpa), alloc, size)]
      ensures ret == 0 ==> memSize == Add64(old(memSize), size)
      ensures ret != 0 ==> regions[..] == old(regions[..]) && memSize == old(memSize)
    {
      var i := 0;
      while i < VM_MAX_SLOTS && regions[i].used
        invariant 0 <= i <= VM_MAX_SLOTS && forall k :: 0 <= k < i ==> regions[k].used
      {
        i := i + 1;
      }
      if i == VM_MAX_SLOTS || alloc == NULL || !mapOk {
        return -1;
      }
      PageMaskValue(gpa);
      var r := VmRegion(PageAlignDown(gpa), alloc, size, i, true);
      FillFirstUnused(regions[..], i, r);
      regions[i] := r;
      assert regions[..] == old(regions[..])[i := r];
      memSize := Add64(memSize, size);
      return 0;
    }

    method GpaToHva(gpa: U64, size: U64) returns (hva: nat)
      requires regions.Length == VM_MAX_SLOTS
      ensures hva == VmLookup(Table(), gpa, size)
    {
      assert regions[0..] == regions[..];
      for i := 0 to VM_MAX_SLOTS
        invariant VmLookup(Table(), gpa, size) == VmLookup(Active(regions[i..]), gpa, size)
      {
        var region := regions[i];
        assert regions[i..][0] == region && regions[i..][1..] == regions[i + 1..];
        if !region.used {
          assert Active(regions[i..]) == Active(regions[i + 1..]);
          continue;
        }
        assert Active(regions[i..])[1..] == Active(regions[i + 1..]);
        if gpa >= region.gpa && Add64(gpa, size) <= Add64(region.gpa, region.size) {
          return region.hva + (gpa - region.gpa);
        }
      }
      return NULL;
    }

    // ------------------------------------------------------------ devices

    ghost predicate ValidDevices()
      reads this, devices
    {
      && devices.Length == VM_MAX_DEVICES && |list| == numDevices <= VM_MAX_DEVICES
      && forall i :: 0 <= i < numDevices ==> devices[i] == list[i]
    }

    /** vm_register_device. */
    method RegisterDevice(dev: Device) returns (ret: int)
      requires ValidDevices()
      modifies this`numDevices, this`list, devices
      ensures ValidDevices()
      ensures ret == if old(numDevices) < 16 then 0 else -1
      ensures list == if ret == 0 then old(list) + [dev] else old(list)
      ensures dev.vm == old(dev.vm)
    {
      if numDevices >= VM_MAX_DEVICES {
        return -1;
      }
      devices[numDevices] := dev;
      numDevices, list := numDevices + 1, list + [dev];
      return 0;
    }

    /** device_register; fd is what eventfd() returns if it is called. */
    method Register(dev: Device, fd: int) returns (ret: int)
      requires ValidDevices()
      modifies this`numDevices, this`list, devices, dev
      ensures ValidDevices()
      ensures ret == if old(numDevices) < 16 && (old(dev.irqFd) >= 0 || fd >= 0) then 0 else -1
      ensures list == if ret == 0 then old(list) + [dev] else old(list)
      ensures old(numDevices) >= 16 ==> unchanged(dev)
      ensures old(numDevices) < 16 && old(dev.irqFd) < 0 && fd >= 0 ==> dev.Line() == Eventfd(0)
      ensures old(numDevices) < 16 ==>
        dev.vm == this && dev.Line() == if old(dev.irqFd) >= 0 || fd >= 0 then Registered(old(dev.Line())) else Absent
    {
      if numDevices >= VM_MAX_DEVICES {
        return -1;
      }
      dev.vm := this;
      if dev.irqFd < 0 {
        dev.irqFd, dev.isEventfd, dev.counter := fd, true, 0;
        if dev.irqFd < 0 {
          return -1;
        }
      }
      devices[numDevices] := dev;
      numDevices, list := numDevices + 1, list + [dev];
      return 0;
    }

    /** The loop of device_unregister. */
    method RemoveDevice(dev: Device)
      requires ValidDevices()
      modifies this`numDevices, this`list, devices
      ensures ValidDevices()
      ensures list == RemoveFirst(old(list), dev)
    {
      var i := 0;
      while i < numDevices && devices[i] != dev
        invariant 0 <= i <= numDevices && forall k :: 0 <= k < i ==> list[k] != dev
      {
        i := i + 1;
      }
      if i == numDevices {
        RemoveFirstAbsent(list, dev);
        return;
      }
      ghost var ds := list;
      for j := i to numDevices - 1
        invariant ds == list && numDevices == |ds| && devices.Length == VM_MAX_DEVICES
        invariant forall k :: i <= k < j ==> devices[k] == list[k + 1]
        invariant forall k :: 0 <= k < i || j <= k < |list| ==> devices[k] == list[k]
      {
        devices[j] := devices[j + 1];
      }
      RemoveFirstAt(list, dev, i);
      numDevices, list := numDevices - 1, list[..i] + list[i + 1..];
    }

    /** device_find_at_gpa and vm_find_device_at_gpa. */
    method FindDevice(gpa: U64) returns (dev: Device?)
      requires ValidDevices()
      ensures match Find(list, gpa) case Some(d) => dev == d case None => dev == null
      ensures dev == null ==> forall k :: 0 <= k < |list| ==> !(list[k].gpaStart <= gpa <= list[k].gpaEnd)
      ensures dev != null ==> dev.gpaStart <= gpa <= dev.gpaEnd
      ensures dev != null ==>
        exists i :: 0 <= i < |list| && list[i] == dev &&
          forall k :: 0 <= k < i ==> !(list[k].gpaStart <= gpa <= list[k].gpaEnd)
    {
      for i := 0 to numDevices
        invariant forall k :: 0 <= k < i ==> !Covers(list[k], gpa)
      {
        if devices[i].gpaStart <= gpa <= devices[i].gpaEnd {
          FindSkips(list, i, gpa);
          return devices[i];
        }
      }
      FindSkips(list, numDevices, gpa);
      return null;
    }

    /** vcpu_handle_mmio_exit. */
    method MmioExit(access: MmioAccess, ops: Handlers) returns (ret: int, data: U64)
      requires ValidDevices()
      ensures Answer(ret, data) == MmioAnswer(list, access, ops)
      ensures match Find(list, access.gpa)
        case None => ret == 0 && data == access.data
        case Some(d) =>
          var r := ops(d, MmioAccess(access.gpa - d.gpaStart, access.isWrite, access.data, access.size));
          ret == r.ret && data == if access.isWrite then r.data else access.data
    {
      var dev := FindDevice(access.gpa);
      if dev == null {
        return 0, access.data;
      }
      var r := ops(dev, access.(gpa := access.gpa - dev.gpaStart));
      return r.ret, if access.isWrite then r.data else access.data;
    }

    /** device_handle_mmio: the same search, but the caller's buffer receives the data of a read too,
        and an access that no device covers or handles is an error. handled says which devices have a
        read (false) or write (true) handler. */
    method HandleMmio(access: MmioAccess, ops: Handlers, handled: (Device, bool) -> bool) returns (ret: int, data: U64)
      requires ValidDevices()
      ensures match Find(list, access.gpa)
        case None => ret == -1 && data == access.data
        case Some(d) =>
          if handled(d, access.isWrite)
          then Answer(ret, data) == ops(d, MmioAccess(access.gpa - d.gpaStart, access.isWrite, access.data, access.size))
          else ret == -1 && data == access.data
    {
      var dev := FindDevice(access.gpa);
      if dev == null || !handled(dev, access.isWrite) {
        return -1, access.data;
      }
      var r := ops(dev, access.(gpa := access.gpa - dev.gpaStart));
      return r.ret, r.data;
    }

    /** vcpu_handle_exit on a vCPU of this VM: an MMIO exit is answered by the VM's devices. */
    method HandleExit(v: Vcpu, e: Exit, access: MmioAccess, ops: Handlers)
      returns (ret: int, out: seq<U8>, port: U32, data: U64)
      requires ValidDevices() && (e.reason == Io ==> e.io.size <= 4)
      modifies v
      ensures var mmio := if e.reason == Mmio then MmioAnswer(list, access, ops) else Answer(0, access.data);
        && data == mmio.data && (ret < 0 <==> Fails(e.(deviceRet := mmio.ret)))
      ensures v.shouldStop == (old(v.shouldStop) || Stops(e.reason)) && v.state == old(v.state)
      ensures v.stats == Counted(old(v.stats), e.reason)
    {
      var answer := 0;
      data := access.data;
      if e.reason == Mmio {
        answer, data := MmioExit(access, ops);
      }
      ret, out, port := v.HandleExit(e.(deviceRet := answer));
    }

    // ---------------------------------------------------------- lifecycle

    function CpuCount(): nat
      reads this
    {
      if numVcpus < 0 then 0 else numVcpus
    }

    ghost predicate ValidVcpus()
      reads this, vcpus
    {
      && vcpus.Length == VM_MAX_VCPUS && numVcpus <= VM_MAX_VCPUS && |cpus| == CpuCount()
      && forall i :: 0 <= i < |cpus| ==> vcpus[i] == cpus[i] && cpus[i].index == i
    }

    /** The recorded state of this VM and its vCPUs. */
    ghost function LifeOf(): (l: Life)
      reads this, cpus
      ensures l.vm == state && |l.cpus| == |cpus|
    {
      Life(state, StatesOf(cpus))
    }

    /** createOk[i] is the outcome of creating the thread of vCPU i. */
    method Start(createOk: seq<bool>) returns (ret: int)
      requires ValidVcpus() && |createOk| == CpuCount()
      modifies this`state, cpus
      ensures ValidVcpus() && LifeOf() == LifeNext(old(LifeOf()), StartVm(createOk))
      ensures ret == if state == VmRunning then 0 else -1
    {
      if state == VmRunning {
        return 0;
      }
      ghost var before := LifeOf();
      var i := StartEach(createOk);
      if i < numVcpus {
        StopFirst(i);
        StartRollsBack(before, createOk, i, LifeOf());
        return -1;
      }
      state := VmRunning;
      StartSucceeds(before, createOk, LifeOf());
      return 0;
    }

    /** Starts the vCPUs in order up to the first failure, which it returns. */
    method StartEach(createOk: seq<bool>) returns (i: nat)
      requires ValidVcpus() && |createOk| == CpuCount()
      modifies cpus
      ensures ValidVcpus() && i == FirstFailure(old(LifeOf()).cpus, createOk)
      ensures LifeOf().cpus == WithFirst(old(LifeOf()).cpus, i, VcpuRunning)
    {
      ghost var before, cs := LifeOf().cpus, cpus;
      ghost var bad := FirstFailure(before, createOk);
      i := 0;
      while i < numVcpus
        invariant 0 <= i <= bad && cpus == cs && ValidVcpus()
        invariant forall k :: 0 <= k < |cs| ==> cs[k].state == if k < i then VcpuRunning else before[k]
      {
        var v := vcpus[i];
        assert v == cs[i] && forall k :: 0 <= k < |cs| && k != i ==> cs[k] != v;
        var started := v.Start(createOk[i]);
        if started < 0 {
          assert i == bad;
          break;
        }
        assert i < bad;
        i := i + 1;
      }
      assert i == bad;
    }

    /** The roll-back of a failed start: stop the first n vCPUs. */
    method StopFirst(n: nat)
      requires ValidVcpus() && n <= CpuCount()
      modifies cpus
      ensures ValidVcpus() && LifeOf().cpus == StoppedUpTo(old(LifeOf()).cpus, n)
      ensures forall k :: 0 <= k < |cpus| ==>
        var stopped := k < n && old(LifeOf()).cpus[k] == VcpuRunning;
        && cpus[k].state == (if stopped then VcpuStopped else old(LifeOf()).cpus[k])
        && cpus[k].shouldStop == (stopped || old(FlagsOf(cpus))[k])
    {
      ghost var before, cs, was := LifeOf().cpus, cpus, FlagsOf(cpus);
      var j := 0;
      while j < n
        invariant 0 <= j <= n && cpus == cs && ValidVcpus()
        invariant forall k :: 0 <= k < |cs| ==>
          var stopped := k < j && before[k] == VcpuRunning;
          && cs[k].state == (if stopped then VcpuStopped else before[k])
          && cs[k].shouldStop == (stopped || was[k])
      {
        var v := vcpus[j];
        assert v == cs[j] && forall k :: 0 <= k < |cs| && k != j ==> cs[k] != v;
        v.Stop();
        j := j + 1;
      }
    }

    method Stop()
      requires ValidVcpus()
      modifies this`state, cpus
      ensures ValidVcpus() && LifeOf() == LifeNext(old(LifeOf()), StopVm)
      ensures state == VmStopped
      ensures forall k :: 0 <= k < |cpus| ==>
        var stopped := old(state) != VmStopped && old(cpus[k].state) == VcpuRunning;
        && cpus[k].state == (if stopped then VcpuStopped else old(cpus[k].state))
        && cpus[k].shouldStop == (stopped || old(cpus[k].shouldStop))
    {
      if state == VmStopped {
        return;
      }
      StopFirst(CpuCount());
      state := VmStopped;
    }

    /** allocOk[i] says whether vCPU i can be created. */
    method CreateVcpus(n: int, allocOk: seq<bool>) returns (ret: int)
      requires vcpus.Length == VM_MAX_VCPUS && |allocOk| >= VM_MAX_VCPUS
      modifies this`numVcpus, this`cpus, vcpus
      ensures ret == if n <= 8 && forall i :: 0 <= i < n ==> allocOk[i] then 0 else -1
      ensures ret == 0 ==> numVcpus == n && ValidVcpus()
      ensures ret == 0 ==> forall i :: 0 <= i < n ==>
        fresh(vcpus[i]) && vcpus[i].index == i && vcpus[i].state == VcpuStopped
      ensures ret != 0 ==> numVcpus == old(numVcpus)
      ensures n > VM_MAX_VCPUS ==> vcpus[..] == old(vcpus[..])
      ensures ret != 0 && n <= VM_MAX_VCPUS ==> forall k :: 0 <= k < VM_MAX_VCPUS ==>
        vcpus[k] == if k <= FirstRefused(allocOk) then null else old(vcpus[k])
      ensures ret != 0 && old(ValidVcpus()) ==> (ValidVcpus() <==> n > VM_MAX_VCPUS || CpuCount() == 0)
    {
      if n > VM_MAX_VCPUS {
        return -1;
      }
      var i := 0;
      while i < n
        invariant 0 <= i && (i <= n || (n < 0 && i == 0))
        invariant forall k :: 0 <= k < i ==> allocOk[k]
        invariant forall k :: 0 <= k < i ==> vcpus[k] != null && fresh(vcpus[k]) && vcpus[k].index == k && vcpus[k].state == VcpuStopped
        invariant forall k :: i <= k < VM_MAX_VCPUS ==> vcpus[k] == old(vcpus[k])
        invariant numVcpus == old(numVcpus) && cpus == old(cpus)
      {
        if !allocOk[i] {
          vcpus[i] := null;
          for j := 0 to i
            invariant forall k :: 0 <= k < VM_MAX_VCPUS && (k < j || k == i) ==> vcpus[k] == null
            invariant forall k :: i < k < VM_MAX_VCPUS ==> vcpus[k] == old(vcpus[k])
            invariant numVcpus == old(numVcpus) && cpus == old(cpus)
          {
            vcpus[j] := null;
          }
          RefusedFirst(allocOk, i);
          assert vcpus[0] == null;
          return -1;
        }
        var v := new Vcpu(i);
        vcpus[i] := v;
        i := i + 1;
      }
      numVcpus := n;
      cpus := seq(i, k requires 0 <= k < i && i <= VM_MAX_VCPUS && (forall m :: 0 <= m < i ==> vcpus[m] != null)
                    reads vcpus => vcpus[k]);
      return 0;
    }
  }

  /** device_unregister, up to the release of the device: nothing happens without a device or its VM;
      otherwise the caller is to destroy the device, whether or not it was listed. */
  method Unregister(dev: Device?) returns (destroy: bool)
    requires dev != null && dev.vm != null ==> dev.vm.ValidDevices()
    modifies if dev == null || dev.vm == null then {} else {dev.vm, dev.vm.devices}
    ensures destroy <==> dev != null && dev.vm != null
    ensures destroy ==> var vm := dev.vm;
      && vm == old(dev.vm) && vm.ValidDevices() && vm.list == RemoveFirst(old(vm.list), dev)
      && vm.memSize == old(vm.memSize) && vm.state == old(vm.state)
      && vm.numVcpus == old(vm.numVcpus) && vm.cpus == old(vm.cpus)
  {
    if dev == null {
      return false;
    }
    var vm := dev.vm;
    if vm == null {
      return false;
    }
    vm.RemoveDevice(dev);
    return true;
  }

  lemma {:induction false} RemoveFirstAt(ds: seq<Device>, d: Device, i: nat)
    requires i < |ds| && ds[i] == d && forall k :: 0 <= k < i ==> ds[k] != d
    ensures RemoveFirst(ds, d) == ds[..i] + ds[i + 1..]
  {
    if i > 0 {
      RemoveFirstAt(ds[1..], d, i - 1);
      assert ds[..i] == [ds[0]] + ds[1..][..i - 1];
      assert ds[1..][i..] == ds[i + 1..];
    }
  }

  lemma {:induction false} RemoveFirstAbsent(ds: seq<Device>, d: Device)
    requires forall k :: 0 <= k < |ds| ==> ds[k] != d
    ensures RemoveFirst(ds, d) == ds
  {
    if ds != [] {
      RemoveFirstAbsent(ds[1..], d);
    }
  }
}
