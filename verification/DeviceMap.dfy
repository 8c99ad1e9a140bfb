/** The guest address windows of the devices that src/main.c creates. */
module DeviceMap {
  import opened Words
  import opened Machine
  import Vfio

  /** What a device is; span is the sum of a passthrough device's rounded BAR sizes. */
  datatype Kind = MmioConsole | VirtioConsole | VirtioBlock | VirtioNet | Passthrough(span: nat)

  const MMIO_CONSOLE := 0x9000_0000
  const VIRTIO_CONSOLE := 0xa00_0000
  const VIRTIO_BLOCK := 0xa00_1000
  const VIRTIO_NET := 0xa00_2000

  function StartOf(k: Kind): nat {
    match k
    case MmioConsole => MMIO_CONSOLE
    case VirtioConsole => VIRTIO_CONSOLE
    case VirtioBlock => VIRTIO_BLOCK
    case VirtioNet => VIRTIO_NET
    case Passthrough(_) => Vfio.BASE
  }

  function SizeOf(k: Kind): nat {
    match k
    case Passthrough(span) => span
    case _ => 0x1000
  }

  ghost predicate IsKind(d: Device, k: Kind) {
    d.gpaStart == StartOf(k) && d.gpaEnd == StartOf(k) + SizeOf(k) - 1
  }

  /** BARs of this size stay below the MMIO console. */
  const GAP := MMIO_CONSOLE - Vfio.BASE

  /** Two devices that do not get in each other's way: different fixed devices, a passthrough device that
      stays below the MMIO console, and no two passthrough devices with BARs. */
  predicate Compatible(a: Kind, b: Kind) {
    match (a, b)
    case (Passthrough(s), Passthrough(t)) => s == 0 || t == 0
    case (Passthrough(s), MmioConsole) => s <= GAP
    case (MmioConsole, Passthrough(s)) => s <= GAP
    case _ => a != b
  }

  /** The windows of any selection of the program's devices are disjoint exactly when every two of them
      are compatible. */
  lemma WindowsDisjointIff(ds: seq<Device>, kinds: seq<Kind>)
    requires |ds| == |kinds| && forall i :: 0 <= i < |ds| ==> IsKind(ds[i], kinds[i])
    requires forall i, j :: 0 <= i < j < |ds| ==> ds[i] != ds[j]
    ensures WindowsDisjoint(ds) <==> forall i, j :: 0 <= i < j < |kinds| ==> Compatible(kinds[i], kinds[j])
  {
    forall i, j | 0 <= i < j < |ds|
      ensures (forall g: U64 :: !(Covers(ds[i], g) && Covers(ds[j], g))) <==> Compatible(kinds[i], kinds[j])
    {
      assert IsKind(ds[i], kinds[i]) && IsKind(ds[j], kinds[j]);
      PairApartIff(ds[i], kinds[i], ds[j], kinds[j]);
    }
  }

  lemma PairApartIff(d: Device, a: Kind, e: Device, b: Kind)
    requires IsKind(d, a) && IsKind(e, b)
    ensures (forall g: U64 :: !(Covers(d, g) && Covers(e, g))) <==> Compatible(a, b)
  {
    if !Compatible(a, b) {
      var g: U64 := if StartOf(a) < StartOf(b) then StartOf(b) else StartOf(a);
      assert Covers(d, g) && Covers(e, g);
    }
  }

  /** The devices of main: both consoles, a disk and a network device if asked for, and at most one
      passthrough device. */
  function MainDevices(disk: bool, net: bool, span: Option<nat>): seq<Kind> {
    [MmioConsole, VirtioConsole] + (if disk then [VirtioBlock] else []) + (if net then [VirtioNet] else [])
      + (match span case None => [] case Some(s) => [Passthrough(s)])
  }

  /** Their windows are disjoint, so that FindIsUnique and its companions apply, exactly when the BARs of
      the passthrough device end below the MMIO console. */
  lemma MainWindowsDisjointIff(ds: seq<Device>, disk: bool, net: bool, span: Option<nat>)
    requires var kinds := MainDevices(disk, net, span);
      |ds| == |kinds| && forall i :: 0 <= i < |ds| ==> IsKind(ds[i], kinds[i])
    requires forall i, j :: 0 <= i < j < |ds| ==> ds[i] != ds[j]
    ensures WindowsDisjoint(ds) <==> (span.Some? ==> span.value <= 0x8500_0000)
  {
    var kinds := MainDevices(disk, net, span);
    WindowsDisjointIff(ds, kinds);
    forall i, j | 0 <= i < j < |kinds|
      ensures kinds[j].Passthrough? ==> span == Some(kinds[j].span)
      ensures Compatible(kinds[i], kinds[j]) <==> !(i == 0 && kinds[j].Passthrough? && kinds[j].span > GAP)
    {
      MainPair(disk, net, span, i, j);
    }
    if span.Some? {
      assert kinds[|kinds| - 1] == Passthrough(span.value);
      assert Compatible(kinds[0], kinds[|kinds| - 1]) <==> span.value <= GAP;
    }
  }

  lemma MainPair(disk: bool, net: bool, span: Option<nat>, i: nat, j: nat)
    requires i < j < |MainDevices(disk, net, span)|
    ensures var kinds := MainDevices(disk, net, span);
      && (kinds[j].Passthrough? ==> span == Some(kinds[j].span))
      && (Compatible(kinds[i], kinds[j]) <==> !(i == 0 && kinds[j].Passthrough? && kinds[j].span > GAP))
  {
  }

  /** A passthrough device with 4 GiB of BARs claims the MMIO console's addresses, which go to the console
      that main registers first. */
  lemma BigBarMeetsConsole(console: Device, d: Device)
    requires IsKind(console, MmioConsole) && IsKind(d, Passthrough(TWO_32))
    ensures Covers(d, MMIO_CONSOLE) && Find([console, d], MMIO_CONSOLE) == Some(console)
    ensures !WindowsDisjoint([console, d])
  {
    assert Covers([console, d][0], MMIO_CONSOLE) && Covers([console, d][1], MMIO_CONSOLE);
  }

  /** Two passthrough devices with 64 KiB of BARs each both claim the first address. */
  lemma SecondPassthroughOverlaps(d: Device, e: Device)
    requires d != e && IsKind(d, Passthrough(0x10000)) && IsKind(e, Passthrough(0x10000))
    ensures !WindowsDisjoint([d, e]) && Find([d, e], Vfio.BASE) == Some(d) && Find([e, d], Vfio.BASE) == Some(e)
  {
    assert Covers([d, e][0], Vfio.BASE) && Covers([d, e][1], Vfio.BASE);
  }
}
