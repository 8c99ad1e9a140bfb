/** BAR placement of src/vfio.c: passthrough regions laid out one after another from a fixed guest
    address. */
module Vfio {
  import opened Words
  import opened Alignment
  import opened GuestMap

  const MAX_REGIONS := 8
  const LAST_BAR := 6
  const BASE := 0xb000000

  datatype BarRegion = BarRegion(size: U64, offset: U64, flags: U32, gpa: U64, hva: nat)

  /** What the kernel answers for one region: whether its information is available, that information,
      and the address at which mmap puts it (null on failure). */
  datatype Probe = Probe(infoOk: bool, size: U64, offset: U64, flags: U32, mapped: nat)

  /** VFIO_REGION_INFO_FLAG_MMAP is bit 2. */
  predicate Mappable(p: Probe) {
    p.infoOk && (p.flags / 4) % 2 == 1 && p.mapped != NULL
  }

  /** A region that was probed: its size is refreshed whether or not it can then be mapped. */
  function Probed(r: BarRegion, p: Probe): BarRegion {
    if p.infoOk then r.(size := p.size, offset := p.offset, flags := p.flags) else r
  }

  /** BAR i gets a guest address: its cached size was not zero and mapping it succeeds. */
  predicate Placed(rs: seq<BarRegion>, n: int, probes: seq<Probe>, i: nat)
    requires |rs| == |probes| == MAX_REGIONS
  {
    1 <= i < n && i <= LAST_BAR && rs[i].size != 0 && Mappable(probes[i])
  }

  /** The least multiple of 64 KiB that is at least size. */
  function RoundUp(size: nat): nat {
    size + (BAR_ALIGN - 1) - (size + (BAR_ALIGN - 1)) % BAR_ALIGN
  }

  /** The rounded sizes of the BARs placed before number i. */
  function SpanBefore(rs: seq<BarRegion>, n: int, probes: seq<Probe>, i: nat): nat
    requires |rs| == |probes| == MAX_REGIONS
  {
    if i == 0 then 0
    else SpanBefore(rs, n, probes, i - 1) + if Placed(rs, n, probes, i - 1) then RoundUp(probes[i - 1].size) else 0
  }

  function TotalSpan(rs: seq<BarRegion>, n: int, probes: seq<Probe>): nat
    requires |rs| == |probes| == MAX_REGIONS
  {
    SpanBefore(rs, n, probes, LAST_BAR + 1)
  }

  /** The placement counter before region i; its sums wrap around 2^64. */
  function GpaBefore(rs: seq<BarRegion>, n: int, probes: seq<Probe>, i: nat): U64
    requires |rs| == |probes| == MAX_REGIONS
  {
    if i == 0 then BASE
    else if Placed(rs, n, probes, i - 1) then Add64(GpaBefore(rs, n, probes, i - 1), AlignUp64K(probes[i - 1].size))
    else GpaBefore(rs, n, probes, i - 1)
  }

  /** What becomes of region i: placed where the BARs before it end, or left at its old address. */
  predicate Laid(rs: seq<BarRegion>, n: int, probes: seq<Probe>, i: nat, r: BarRegion)
    requires |rs| == |probes| == MAX_REGIONS && i < MAX_REGIONS
  {
    if Placed(rs, n, probes, i)
    then r.gpa == GpaBefore(rs, n, probes, i) && r.hva == probes[i].mapped && r.size == probes[i].size
    else r.gpa == rs[i].gpa && r.hva == rs[i].hva
  }

  /** Every region after the placement loop. */
  ghost predicate Placement(rs: seq<BarRegion>, n: int, probes: seq<Probe>, now: seq<BarRegion>) {
    |rs| == |probes| == |now| == MAX_REGIONS && forall i :: 0 <= i < MAX_REGIONS ==> Laid(rs, n, probes, i, now[i])
  }

  lemma RoundUpFacts(size: nat)
    ensures RoundUp(size) >= size && RoundUp(size) % BAR_ALIGN == 0
    ensures IsCeiling(RoundUp(size), size, BAR_ALIGN)
  {
  }

  lemma {:induction false} SpanIsAligned(rs: seq<BarRegion>, n: int, probes: seq<Probe>, i: nat)
    requires |rs| == |probes| == MAX_REGIONS
    ensures SpanBefore(rs, n, probes, i) % BAR_ALIGN == 0
  {
    if i > 0 {
      SpanIsAligned(rs, n, probes, i - 1);
      if Placed(rs, n, probes, i - 1) {
        RoundUpFacts(probes[i - 1].size);
      }
    }
  }

  /** Later BARs start past the rounded end of earlier ones. */
  lemma {:induction false} SpanGrows(rs: seq<BarRegion>, n: int, probes: seq<Probe>, i: nat, j: nat)
    requires |rs| == |probes| == MAX_REGIONS && i <= j
    ensures SpanBefore(rs, n, probes, i) <= SpanBefore(rs, n, probes, j)
    ensures i < j && Placed(rs, n, probes, i) ==>
      SpanBefore(rs, n, probes, i) + RoundUp(probes[i].size) <= SpanBefore(rs, n, probes, j)
    decreases j
  {
    if i < j {
      SpanGrows(rs, n, probes, i, j - 1);
      if Placed(rs, n, probes, j - 1) {
        RoundUpFacts(probes[j - 1].size);
      }
    }
  }

  /** The counter is the sum of the rounded sizes, modulo 2^64. */
  lemma {:induction false} GpaIsSpan(rs: seq<BarRegion>, n: int, probes: seq<Probe>, i: nat)
    requires |rs| == |probes| == MAX_REGIONS
    ensures GpaBefore(rs, n, probes, i) == (BASE + SpanBefore(rs, n, probes, i)) % TWO_64
  {
    if i > 0 {
      GpaIsSpan(rs, n, probes, i - 1);
      if Placed(rs, n, probes, i - 1) {
        AlignIsRoundUp(probes[i - 1].size);
        AddOfMods(BASE + SpanBefore(rs, n, probes, i - 1), RoundUp(probes[i - 1].size));
      } else {
        SmallMod(BASE, TWO_64);
      }
    }
  }

  lemma AlignIsRoundUp(size: U64)
    ensures AlignUp64K(size) == RoundUp(size) % TWO_64
  {
    BarMaskValue(Add64(size, BAR_ALIGN - 1));
    AddFits(size, BAR_ALIGN - 1);
    if size + (BAR_ALIGN - 1) < TWO_64 {
      SmallMod(RoundUp(size), TWO_64);
    } else {
      assert RoundUp(size) == TWO_64;
      SmallMod(size + (BAR_ALIGN - 1) - TWO_64, BAR_ALIGN);
    }
  }

  lemma AddOfMods(a: nat, b: nat)
    ensures Add64(a % TWO_64, b % TWO_64) == (a + b) % TWO_64
  {
    var c := a % TWO_64 + b % TWO_64;
    DivModUnique(a + b, TWO_64, a / TWO_64 + b / TWO_64 + c / TWO_64, c % TWO_64);
  }

  /** After the loop every placed BAR starts on a 64 KiB boundary, lies inside the device's window, which
      runs from BASE to last, and meets no other placed BAR. */
  ghost predicate BarsFit(rs: seq<BarRegion>, n: int, probes: seq<Probe>, now: seq<BarRegion>, last: U64)
    requires |rs| == |probes| == |now| == MAX_REGIONS
  {
    forall i: nat :: Placed(rs, n, probes, i) ==>
      && now[i].gpa % BAR_ALIGN == 0
      && BASE <= now[i].gpa && now[i].gpa + now[i].size <= last + 1
      && forall j: nat :: Placed(rs, n, probes, j) && i != j ==> Apart(now[i].gpa, now[i].size, now[j].gpa, now[j].size)
  }

  /** mmap does not map an empty region. */
  ghost predicate MapsBytes(probes: seq<Probe>) {
    forall i :: 0 <= i < |probes| && probes[i].mapped != NULL ==> probes[i].size > 0
  }

  /** The BARs fit, whichever mappings fail and whatever sizes the probes report, if and only if the
      rounded sizes of those that are placed do not run past 2^64. */
  lemma BarsFitIff(rs: seq<BarRegion>, n: int, probes: seq<Probe>, now: seq<BarRegion>)
    requires Placement(rs, n, probes, now) && MapsBytes(probes)
    ensures BarsFit(rs, n, probes, now, Sub64(GpaBefore(rs, n, probes, LAST_BAR + 1), 1)) <==>
      BASE + TotalSpan(rs, n, probes) <= TWO_64
  {
    var last: int := Sub64(GpaBefore(rs, n, probes, LAST_BAR + 1), 1);
    GpaIsSpan(rs, n, probes, LAST_BAR + 1);
    if BASE + TotalSpan(rs, n, probes) <= TWO_64 {
      assert last == BASE + TotalSpan(rs, n, probes) - 1;
      forall i: nat | Placed(rs, n, probes, i)
        ensures now[i].gpa % BAR_ALIGN == 0
        ensures BASE <= now[i].gpa && now[i].gpa + now[i].size <= last + 1
        ensures forall j: nat :: Placed(rs, n, probes, j) && i != j ==>
          Apart(now[i].gpa, now[i].size, now[j].gpa, now[j].size)
      {
        BarsAreDisjoint(rs, n, probes, now, i);
      }
    } else {
      var i := CrossingBar(rs, n, probes, LAST_BAR + 1);
      CrossingDoesNotFit(rs, n, probes, now, i, last);
    }
  }

  /** What BarsFit says of one BAR. */
  lemma BarsAreDisjoint(rs: seq<BarRegion>, n: int, probes: seq<Probe>, now: seq<BarRegion>, i: nat)
    requires Placement(rs, n, probes, now) && Placed(rs, n, probes, i)
    requires BASE + TotalSpan(rs, n, probes) <= TWO_64 && MapsBytes(probes)
    ensures now[i].gpa % BAR_ALIGN == 0
    ensures BASE <= now[i].gpa && now[i].gpa + now[i].size <= BASE + TotalSpan(rs, n, probes)
    ensures forall j: nat :: Placed(rs, n, probes, j) && i != j ==>
      Apart(now[i].gpa, now[i].size, now[j].gpa, now[j].size)
  {
    PlacedAt(rs, n, probes, now, i);
    SpanIsAligned(rs, n, probes, i);
    forall j: nat | Placed(rs, n, probes, j) && i != j
      ensures Apart(now[i].gpa, now[i].size, now[j].gpa, now[j].size)
    {
      PlacedAt(rs, n, probes, now, j);
      SpanGrows(rs, n, probes, if i < j then i else j, if i < j then j else i);
    }
  }

  /** Where a placed BAR is when nothing wraps. */
  lemma PlacedAt(rs: seq<BarRegion>, n: int, probes: seq<Probe>, now: seq<BarRegion>, i: nat)
    requires Placement(rs, n, probes, now) && Placed(rs, n, probes, i)
    requires BASE + TotalSpan(rs, n, probes) <= TWO_64 && MapsBytes(probes)
    ensures now[i].gpa == BASE + SpanBefore(rs, n, probes, i) && now[i].size == probes[i].size <= RoundUp(probes[i].size)
    ensures now[i].gpa + RoundUp(probes[i].size) <= BASE + TotalSpan(rs, n, probes)
  {
    assert Laid(rs, n, probes, i, now[i]);
    RoundUpFacts(probes[i].size);
    SpanGrows(rs, n, probes, i, LAST_BAR + 1);
    GpaIsSpan(rs, n, probes, i);
    SmallMod(BASE + SpanBefore(rs, n, probes, i), TWO_64);
  }

  /** The BAR whose rounded size runs past 2^64. */
  lemma {:induction false} CrossingBar(rs: seq<BarRegion>, n: int, probes: seq<Probe>, k: nat) returns (i: nat)
    requires |rs| == |probes| == MAX_REGIONS && BASE + SpanBefore(rs, n, probes, k) > TWO_64
    ensures Placed(rs, n, probes, i)
    ensures BASE + SpanBefore(rs, n, probes, i) <= TWO_64
    ensures BASE + SpanBefore(rs, n, probes, i) + RoundUp(probes[i].size) > TWO_64
  {
    i := k - 1;
    if BASE + SpanBefore(rs, n, probes, i) > TWO_64 {
      i := CrossingBar(rs, n, probes, i);
    }
  }

  lemma CrossingDoesNotFit(rs: seq<BarRegion>, n: int, probes: seq<Probe>, now: seq<BarRegion>, i: nat, last: U64)
    requires Placement(rs, n, probes, now) && Placed(rs, n, probes, i)
    requires BASE + SpanBefore(rs, n, probes, i) <= TWO_64
    requires BASE + SpanBefore(rs, n, probes, i) + RoundUp(probes[i].size) > TWO_64
    ensures !BarsFit(rs, n, probes, now, last)
  {
    assert Laid(rs, n, probes, i, now[i]);
    var start := BASE + SpanBefore(rs, n, probes, i);
    GpaIsSpan(rs, n, probes, i);
    if start == TWO_64 {
      assert now[i].gpa == 0;
    } else {
      SmallMod(start, TWO_64);
      SpanIsAligned(rs, n, probes, i);
      RoundUpFacts(probes[i].size);
      assert Multiple(TWO_64 - start, BAR_ALIGN);
    }
  }

  /** Regions that are all there and all answer with 2^63 bytes. */
  const HUGE := seq(MAX_REGIONS, _ => BarRegion(0x8000_0000_0000_0000, 0, 4, 0, 0))
  const HUGE_PROBES := seq(MAX_REGIONS, _ => Probe(true, 0x8000_0000_0000_0000, 0, 4, 1))

  /** Of two such BARs the second one's range ends past 2^64. */
  lemma HugeBarsDoNotFit(now: seq<BarRegion>)
    requires Placement(HUGE, 3, HUGE_PROBES, now)
    ensures Placed(HUGE, 3, HUGE_PROBES, 1) && Placed(HUGE, 3, HUGE_PROBES, 2)
    ensures now[2].gpa == BASE + 0x8000_0000_0000_0000 && now[2].gpa + now[2].size == BASE + TWO_64
  {
    var rs, probes := HUGE, HUGE_PROBES;
    assert Laid(rs, 3, probes, 2, now[2]);
    assert !Placed(rs, 3, probes, 0);
    assert SpanBefore(rs, 3, probes, 1) == 0;
    assert RoundUp(0x8000_0000_0000_0000) == 0x8000_0000_0000_0000;
    assert SpanBefore(rs, 3, probes, 2) == 0x8000_0000_0000_0000;
    GpaIsSpan(rs, 3, probes, 2);
    SmallMod(BASE + 0x8000_0000_0000_0000, TWO_64);
  }

  lemma {:induction false} GpaStays(rs: seq<BarRegion>, n: int, probes: seq<Probe>, i: nat, j: nat)
    requires |rs| == |probes| == MAX_REGIONS && i <= j
    requires forall k: nat :: i <= k < j ==> !Placed(rs, n, probes, k)
    ensures GpaBefore(rs, n, probes, j) == GpaBefore(rs, n, probes, i)
    decreases j
  {
    if i < j {
      GpaStays(rs, n, probes, i, j - 1);
    }
  }

  /** The first BAR that is placed is at 0xb000000, and each further one where the size of the one before
      it, rounded up to 64 KiB, ends. */
  lemma BarsAreConsecutive(rs: seq<BarRegion>, n: int, probes: seq<Probe>, now: seq<BarRegion>, i: nat, j: nat, c: nat)
    requires Placement(rs, n, probes, now) && Placed(rs, n, probes, i)
    ensures (forall k: nat :: k < i ==> !Placed(rs, n, probes, k)) ==> now[i].gpa == 0xb000000
    ensures i < j && Placed(rs, n, probes, j) && (forall k: nat :: i < k < j ==> !Placed(rs, n, probes, k))
            && c % 0x10000 == 0 && now[i].size <= c < now[i].size + 0x10000 ==>
              now[j].gpa == (now[i].gpa + c) % 0x1_0000_0000_0000_0000
  {
    assert Laid(rs, n, probes, i, now[i]);
    if forall k: nat :: k < i ==> !Placed(rs, n, probes, k) {
      GpaStays(rs, n, probes, 0, i);
    }
    if i < j && Placed(rs, n, probes, j) && (forall k: nat :: i < k < j ==> !Placed(rs, n, probes, k))
       && c % 0x10000 == 0 && now[i].size <= c < now[i].size + 0x10000 {
      assert Laid(rs, n, probes, j, now[j]);
      GpaStays(rs, n, probes, i + 1, j);
      AlignIsRoundUp(now[i].size);
      RoundUpIs(now[i].size, c);
      SmallMod(now[i].gpa, TWO_64);
      AddOfMods(now[i].gpa, c);
    }
  }

  lemma RoundUpIs(size: nat, c: nat)
    requires c % 0x10000 == 0 && size <= c < size + 0x10000
    ensures RoundUp(size) == c
  {
  }

  class VfioDev {
    const regions: array<BarRegion>
    const numRegions: int

    constructor (regions: array<BarRegion>, numRegions: int)
      ensures this.regions == regions && this.numRegions == numRegions
    {
      this.regions, this.numRegions := regions, numRegions;
    }

    /** vfio_map_region. */
    method MapRegion(index: U32, gpa: U64, p: Probe) returns (ret: int)
      requires regions.Length == MAX_REGIONS
      modifies regions
      ensures ret == if index < 8 && p.infoOk && (p.flags / 4) % 2 == 1 && p.mapped != 0 then 0 else -1
      ensures forall k :: 0 <= k < MAX_REGIONS && k != index ==> regions[k] == old(regions[k])
      ensures index < MAX_REGIONS ==>
        var was := old(regions[index]);
        var r := if p.infoOk then was.(size := p.size, offset := p.offset, flags := p.flags) else was;
        regions[index] == if ret == 0 then r.(gpa := gpa, hva := p.mapped) else r
    {
      if index >= MAX_REGIONS {
        return -1;
      }
      if !p.infoOk {
        return -1;
      }
      regions[index] := regions[index].(size := p.size, offset := p.offset, flags := p.flags);
      if (p.flags / 4) % 2 != 1 {
        return -1;
      }
      if p.mapped == NULL {
        return -1;
      }
      regions[index] := regions[index].(hva := p.mapped, gpa := gpa);
      return 0;
    }

    /** The placement loop of vfio_register_with_vm and the window it gives the device. */
    method PlaceBars(probes: seq<Probe>) returns (gpaStart: U64, gpaEnd: U64, size: U64)
      requires regions.Length == |probes| == MAX_REGIONS
      modifies regions
      ensures var rs := old(regions[..]);
        && var end := GpaBefore(rs, numRegions, probes, LAST_BAR + 1);
        && gpaStart == 0xb000000 && gpaEnd == Sub64(end, 1) && size == Sub64(end, 0xb000000)
        && Placement(rs, numRegions, probes, regions[..])
      ensures forall i :: 0 <= i < 8 ==>
        var r, p, placed := old(regions[i]), probes[i], 1 <= i <= 6 && i < numRegions && old(regions[i]).size != 0;
        if placed && p.infoOk && (p.flags / 4) % 2 == 1 && p.mapped != 0
        then regions[i].hva == p.mapped && regions[i].size == p.size
        else regions[i].gpa == r.gpa && regions[i].hva == r.hva
    {
      ghost var rs := regions[..];
      var gpa: U64 := BASE;
      var i := 1;
      while i < numRegions && i <= LAST_BAR
        invariant 1 <= i <= LAST_BAR + 1
        invariant gpa == GpaBefore(rs, numRegions, probes, i)
        invariant forall k :: i <= k < MAX_REGIONS ==> regions[k] == rs[k]
        invariant forall k :: 0 <= k < i ==> Laid(rs, numRegions, probes, k, regions[k])
      {
        if regions[i].size == 0 {
          i := i + 1;
          continue;
        }
        var ret := MapRegion(i, gpa, probes[i]);
        if ret < 0 {
          assert !Placed(rs, numRegions, probes, i) && Laid(rs, numRegions, probes, i, regions[i]);
          i := i + 1;
          continue;
        }
        assert Placed(rs, numRegions, probes, i) && Laid(rs, numRegions, probes, i, regions[i]);
        gpa := Add64(gpa, AlignUp64K(regions[i].size));
        i := i + 1;
      }
      GpaSettles(rs, numRegions, probes, i);
      assert forall k :: 0 <= k < MAX_REGIONS ==> Laid(rs, numRegions, probes, k, regions[k]);
      return BASE, Sub64(gpa, 1), Sub64(gpa, BASE);
    }
  }

  lemma {:induction false} GpaSettles(rs: seq<BarRegion>, n: int, probes: seq<Probe>, i: nat)
    requires |rs| == |probes| == MAX_REGIONS && i <= LAST_BAR + 1 && (i < n ==> i == LAST_BAR + 1)
    ensures GpaBefore(rs, n, probes, i) == GpaBefore(rs, n, probes, LAST_BAR + 1)
    decreases LAST_BAR + 1 - i
  {
    if i < LAST_BAR + 1 {
      GpaSettles(rs, n, probes, i + 1);
    }
  }
}
