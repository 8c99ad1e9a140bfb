/** The Linux boot image that src/boot.c lays out in guest RAM. */
module Boot {
  import opened Words
  import opened Alignment
  import opened GuestMap
  import opened Machine

  const ZERO_PAGE := 0x10000
  const CMDLINE_ADDR := 0x20000
  const MIB := 0x100000
  const FALLBACK := 0x10000000
  const RAMDISK_IMAGE := 0x218
  const RAMDISK_SIZE := 0x21C
  const CMDLINE_PTR := 0x228
  const E820_COUNT := 0x1E8
  const E820_TABLE := 0x2D0
  const BOOT_FLAG := 0xAA55
  const BZIMAGE_MAGIC := 0x53726448

  // ----------------------------------------------------------------- patches

  /** Bytes to be written at a guest address. */
  datatype Patch = Patch(at: nat, data: seq<U8>)

  predicate FitsIn(ws: seq<Patch>, size: nat) {
    forall i :: 0 <= i < |ws| ==> ws[i].at + |ws[i].data| <= size
  }

  /** RAM after the patches, in order. */
  function Apply(ram: seq<U8>, ws: seq<Patch>): (r: seq<U8>)
    requires FitsIn(ws, |ram|)
    ensures |r| == |ram|
    decreases |ws|
  {
    if ws == [] then ram else Apply(Store(ram, ws[0].at, ws[0].data), ws[1..])
  }

  lemma {:induction false} ApplyConcat(ram: seq<U8>, a: seq<Patch>, b: seq<Patch>)
    requires FitsIn(a, |ram|) && FitsIn(b, |ram|)
    ensures FitsIn(a + b, |ram|) && Apply(ram, a + b) == Apply(Apply(ram, a), b)
    decreases |a|
  {
    if a == [] {
      assert a + b == b;
    } else {
      assert (a + b)[1..] == a[1..] + b;
      ApplyConcat(Store(ram, a[0].at, a[0].data), a[1..], b);
    }
  }

  predicate Touches(w: Patch, a: nat) {
    w.at <= a < w.at + |w.data|
  }

  /** A byte that no patch touches keeps its value. */
  lemma {:induction false} UntouchedByte(ram: seq<U8>, ws: seq<Patch>, a: nat)
    requires FitsIn(ws, |ram|) && a < |ram| && forall j :: 0 <= j < |ws| ==> !Touches(ws[j], a)
    ensures Apply(ram, ws)[a] == ram[a]
    decreases |ws|
  {
    if ws != [] {
      assert !Touches(ws[0], a);
      UntouchedByte(Store(ram, ws[0].at, ws[0].data), ws[1..], a);
    }
  }

  /** A byte has the value of the last patch that touches it. */
  lemma {:induction false} LastPatchWins(ram: seq<U8>, ws: seq<Patch>, i: nat, a: nat)
    requires FitsIn(ws, |ram|) && i < |ws| && Touches(ws[i], a)
    requires forall j :: i < j < |ws| ==> !Touches(ws[j], a)
    ensures a < |ram| && Apply(ram, ws)[a] == ws[i].data[a - ws[i].at]
    decreases |ws|
  {
    var ram' := Store(ram, ws[0].at, ws[0].data);
    if i == 0 {
      forall j | 0 <= j < |ws[1..]| ensures !Touches(ws[1..][j], a) {
        assert ws[1..][j] == ws[j + 1];
      }
      UntouchedByte(ram', ws[1..], a);
    } else {
      LastPatchWins(ram', ws[1..], i - 1, a);
    }
  }

  /** A patch that no later one meets is there in the end. */
  lemma PatchStands(ram: seq<U8>, ws: seq<Patch>, i: nat)
    requires FitsIn(ws, |ram|) && i < |ws|
    requires forall j :: i < j < |ws| ==> Apart(ws[i].at, |ws[i].data|, ws[j].at, |ws[j].data|)
    ensures Load(Apply(ram, ws), ws[i].at, |ws[i].data|) == ws[i].data
  {
    var w, r := ws[i], Apply(ram, ws);
    forall a | w.at <= a < w.at + |w.data| ensures r[a] == w.data[a - w.at] {
      LastPatchWins(ram, ws, i, a);
    }
    assert Load(r, w.at, |w.data|) == w.data;
  }

  // ------------------------------------------------------------------ kernel

  function SetupSectors(k: seq<U8>): U8
    requires |k| >= 0x200
  {
    k[0x1F1]
  }

  function SetupSize(k: seq<U8>): nat
    requires |k| >= 0x200
  {
    (SetupSectors(k) + 1) * 512
  }

  function FieldAt(k: seq<U8>, at: nat, n: nat): nat
    requires at + n <= |k|
  {
    FromLittleEndian(k[at..at + n])
  }

  /** The header fields read from the image lie inside it. */
  predicate HeaderComplete(k: seq<U8>) {
    |k| >= 0x218
  }

  predicate GoodHeader(k: seq<U8>)
    requires HeaderComplete(k)
  {
    FieldAt(k, 0x1FE, 2) == BOOT_FLAG && FieldAt(k, 0x202, 4) == BZIMAGE_MAGIC
  }

  function CodeStart(k: seq<U8>): nat
    requires HeaderComplete(k)
  {
    if FieldAt(k, 0x214, 4) != 0 then FieldAt(k, 0x214, 4) else MIB
  }

  /** The image is at least as long as its setup part claims. */
  predicate ImageComplete(k: seq<U8>) {
    |k| < 0x200 || (HeaderComplete(k) && (GoodHeader(k) ==> SetupSize(k) <= |k|))
  }

  function SetupPatch(k: seq<U8>): Patch
    requires HeaderComplete(k) && SetupSize(k) <= |k|
  {
    Patch(ZERO_PAGE, k[..SetupSize(k)])
  }

  function CodePatch(k: seq<U8>): Patch
    requires HeaderComplete(k) && SetupSize(k) <= |k|
  {
    Patch(CodeStart(k), k[SetupSize(k)..])
  }

  /** What loading a kernel writes, and whether it succeeds: a code part that does not fit is noticed
      after the setup part has been copied. */
  function KernelPatches(k: seq<U8>, size: nat): (r: (bool, seq<Patch>))
    requires ImageComplete(k)
    ensures FitsIn(r.1, size)
  {
    if |k| < 0x200 || !GoodHeader(k) then (false, [])
    else if ZERO_PAGE + SetupSize(k) > size then (false, [])
    else if CodePatch(k).at + |CodePatch(k).data| > size then (false, [SetupPatch(k)])
    else (true, [SetupPatch(k), CodePatch(k)])
  }

  // ------------------------------------------------------------------ initrd

  /** Page-aligned below the top of memory, with a fixed address when that lands below 1 MiB. */
  function InitrdAddr(size: U64, n: U64): U64 {
    var a := PageFloor64(Sub64(size, n));
    if a < MIB then FALLBACK else a
  }

  function InitrdPatches(initrd: seq<U8>, size: U64): (r: (bool, seq<Patch>))
    requires |initrd| < TWO_64
    ensures FitsIn(r.1, size)
  {
    var a := InitrdAddr(size, |initrd|);
    if a + |initrd| > size then (false, [])
    else
      InitrdRoom(size, |initrd|);
      (true, [Patch(a, initrd), Patch(ZERO_PAGE + RAMDISK_IMAGE, LittleEndian(a, 4)),
              Patch(ZERO_PAGE + RAMDISK_SIZE, LittleEndian(|initrd|, 4))])
  }

  /** The end of an initrd of n bytes wraps around 2^64 to an address inside RAM. */
  predicate InitrdWraps(size: U64, n: U64) {
    if n <= size then size - n < 0x100000 && n + 0x1000_0000 >= TWO_64
    else TWO_64 + size - n >= 0x100000 && (TWO_64 + size - n) % 0x1000 <= size
  }

  /** An initrd's place is inside RAM if and only if it leaves 1 MiB free; then it lies on a page
      boundary at or above 1 MiB and ends less than a page below the top of RAM. The translation
      accepts that place, and also every place whose end wraps into RAM. */
  lemma InitrdPlacement(size: U64, n: U64, hva: nat)
    requires hva != NULL
    ensures var a := InitrdAddr(size, n);
      && (Holds(Region(0, hva, size), a, n) <==> n + 0x100000 <= size)
      && (n + 0x100000 <= size ==> a >= 0x100000 && Multiple(a, 0x1000) && size - (a + n) < 0x1000)
      && (VmLookup([Region(0, hva, size)], a, n) != NULL <==> n + 0x100000 <= size || InitrdWraps(size, n))
  {
    InitrdRoom(size, n);
    InitrdEnd(size, n);
    OneRegionLookup([Region(0, hva, size)], InitrdAddr(size, n), n);
  }

  lemma InitrdRoom(size: U64, n: U64)
    ensures var a := InitrdAddr(size, n);
      && (a + n <= size <==> n + MIB <= size)
      && (a + n <= size ==> a >= MIB && Multiple(a, PAGE_SIZE) && size - (a + n) < PAGE_SIZE)
  {
    if n <= size {
      var free := size - n;
      SmallMod(free, TWO_64);
      PageFloor64IsFloor(free);
      assert Multiple(MIB, PAGE_SIZE);
      PageMask64Value(free);
    }
  }

  /** Where the end of the initrd falls, in 64 bits. */
  lemma InitrdEnd(size: U64, n: U64)
    ensures Add64(InitrdAddr(size, n), n) <= size <==> n + MIB <= size || InitrdWraps(size, n)
  {
    var a := InitrdAddr(size, n);
    if n <= size {
      SmallMod(size - n, TWO_64);
      InitrdRoom(size, n);
      AddFits(a, n);
    } else {
      var free := TWO_64 + size - n;
      DivModUnique(size - n, TWO_64, -1, free);
      PageFloor64IsFloor(free);
      assert Multiple(MIB, PAGE_SIZE);
      PageMask64Value(free);
      AddFits(a, n);
    }
  }

  /** The scan of a table of one region at 0. */
  lemma OneRegionLookup(rs: seq<Region>, gpa: U64, n: U64)
    requires |rs| == 1 && rs[0].gpa == 0 && rs[0].hva != NULL
    ensures VmLookup(rs, gpa, n) == if Add64(gpa, n) <= rs[0].size then HostAddress(rs[0], gpa) else NULL
    ensures gpa + n < TWO_64 ==> Add64(gpa, n) == gpa + n
  {
    SmallMod(rs[0].size, TWO_64);
    AddFits(gpa, n);
    assert rs[1..] == [];
  }

  /** Almost every initrd larger than RAM is accepted, although RAM has no room for it. */
  lemma OversizedInitrdIsAccepted(size: U64, n: U64, hva: nat)
    requires hva != NULL && PAGE_SIZE <= size < n && n - size <= TWO_64 - MIB
    ensures VmLookup([Region(0, hva, size)], InitrdAddr(size, n), n) != NULL
    ensures !Holds(Region(0, hva, size), InitrdAddr(size, n), n)
  {
    InitrdPlacement(size, n, hva);
  }

  lemma TopPage(k: nat)
    requires 1 <= k <= PAGE_SIZE
    ensures PageFloor64(TWO_64 - k) == TWO_64 - PAGE_SIZE
  {
    PageMask64Value(TWO_64 - k);
    DivModUnique(TWO_64 - k, PAGE_SIZE, 0xF_FFFF_FFFF_FFFF, PAGE_SIZE - k);
  }

  /** The most RAM that src/main.c gives a guest. */
  const MAIN_RAM := 0x800_0000

  /** With 128 MiB of RAM up to a page more than that is accepted, for a place 4 KiB below 2^64, while an
      initrd of just the size of RAM is refused. */
  lemma APageTooMany(region: Region, k: nat)
    requires region == Region(0, 1, MAIN_RAM) && 1 <= k <= PAGE_SIZE
    ensures InitrdAddr(MAIN_RAM, MAIN_RAM + k) == TWO_64 - PAGE_SIZE
    ensures VmLookup([region], TWO_64 - PAGE_SIZE, MAIN_RAM + k) != NULL
    ensures !Holds(region, TWO_64 - PAGE_SIZE, MAIN_RAM + k)
    ensures VmLookup([region], InitrdAddr(MAIN_RAM, MAIN_RAM), MAIN_RAM) == NULL
  {
    TopPage(k);
    DivModUnique(MAIN_RAM - (MAIN_RAM + k), TWO_64, -1, TWO_64 - k);
    OversizedInitrdIsAccepted(MAIN_RAM, MAIN_RAM + k, 1);
    InitrdPlacement(MAIN_RAM, MAIN_RAM, 1);
  }

  // ----------------------------------------------------------------- cmdline

  /** The command line as a C string: it contains no NUL of its own. */
  function CmdlinePatches(c: seq<U8>, size: nat): (r: (bool, seq<Patch>))
    ensures FitsIn(r.1, size)
  {
    if CMDLINE_ADDR + |c| + 1 > size then (false, [])
    else (true, [Patch(CMDLINE_ADDR, c + [0]), Patch(ZERO_PAGE + CMDLINE_PTR, LittleEndian(CMDLINE_ADDR, 4))])
  }

  // -------------------------------------------------------------------- E820

  datatype E820Entry = E820Entry(addr: U64, size: U64, kind: U32)

  const E820_RAM := 1
  const E820_RESERVED := 2

  function E820Entries(memSize: U64): seq<E820Entry> {
    [E820Entry(0, 0xA0000, E820_RAM), E820Entry(0xA0000, 0x60000, E820_RESERVED),
     E820Entry(MIB, Sub64(memSize, MIB), E820_RAM)]
  }

  /** The packed 20-byte layout of one entry. */
  function EntryBytes(e: E820Entry): (s: seq<U8>)
    ensures |s| == 20
  {
    LittleEndian(e.addr, 8) + LittleEndian(e.size, 8) + LittleEndian(e.kind, 4)
  }

  function TableBytes(es: seq<E820Entry>): (s: seq<U8>)
    ensures |s| == 20 * |es|
  {
    if es == [] then [] else EntryBytes(es[0]) + TableBytes(es[1..])
  }

  function E820Patches(memSize: U64, size: nat): (r: (bool, seq<Patch>))
    ensures FitsIn(r.1, size)
  {
    if ZERO_PAGE + 0x1000 > size then (false, [])
    else (true, [Patch(ZERO_PAGE + E820_TABLE, TableBytes(E820Entries(memSize))), Patch(ZERO_PAGE + E820_COUNT, [3])])
  }

  predicate InEntry(e: E820Entry, a: nat) {
    e.addr <= a < e.addr + e.size
  }

  ghost predicate Described(es: seq<E820Entry>, a: nat) {
    exists i :: 0 <= i < |es| && InEntry(es[i], a)
  }

  /** Every address below memSize is in exactly one entry, and no other address is in any. */
  ghost predicate Partitions(es: seq<E820Entry>, memSize: nat) {
    && (forall a: nat :: Described(es, a) <==> a < memSize)
    && (forall a: nat, i, j :: 0 <= i < j < |es| ==> !(InEntry(es[i], a) && InEntry(es[j], a)))
  }

  /** The map describes the guest's memory exactly when there is at least 1 MiB of it; below that the
      last entry's size wraps around. */
  lemma E820PartitionsIff(memSize: U64)
    ensures Partitions(E820Entries(memSize), memSize) <==> memSize >= MIB
  {
    var es := E820Entries(memSize);
    if memSize >= MIB {
      assert es[2].size == memSize - MIB;
      forall a: nat ensures Described(es, a) <==> a < memSize {
        if a < 0xA0000 {
          assert InEntry(es[0], a);
        } else if a < MIB {
          assert InEntry(es[1], a);
        } else if a < memSize {
          assert InEntry(es[2], a);
        }
      }
    } else {
      assert es[2].size == TWO_64 + memSize - MIB;
      assert InEntry(es[2], MIB);
      assert Described(es, MIB);
    }
  }

  /** With less memory than 1 MiB the map calls the byte at 1 MiB RAM. */
  lemma SmallMemoryIsMisdescribed(memSize: U64)
    requires memSize < MIB
    ensures E820Entries(memSize)[2].kind == E820_RAM && InEntry(E820Entries(memSize)[2], MIB)
  {
    DivModUnique(memSize - MIB, TWO_64, -1, TWO_64 + memSize - MIB);
  }

  /** Each entry reads back from the packed table. */
  lemma EntryReadsBack(e: E820Entry)
    ensures FieldAt(EntryBytes(e), 0, 8) == e.addr
    ensures FieldAt(EntryBytes(e), 8, 8) == e.size
    ensures FieldAt(EntryBytes(e), 16, 4) == e.kind
  {
    var a, n, t := LittleEndian(e.addr, 8), LittleEndian(e.size, 8), LittleEndian(e.kind, 4);
    assert EntryBytes(e)[0..8] == a && EntryBytes(e)[8..16] == n && EntryBytes(e)[16..20] == t;
    WordReadsBack(e.addr, 8);
    WordReadsBack(e.size, 8);
    WordReadsBack(e.kind, 4);
  }

  /** Entry i of a packed table is 20 bytes at 20 times i. */
  lemma {:induction false} TableEntryAt(es: seq<E820Entry>, i: nat)
    requires i < |es|
    ensures TableBytes(es)[20 * i..20 * i + 20] == EntryBytes(es[i])
  {
    if i > 0 {
      TableEntryAt(es[1..], i - 1);
      assert TableBytes(es)[20..] == TableBytes(es[1..]);
    }
  }

  /** The fields of entry i in the bytes of a packed table. */
  lemma TableFields(es: seq<E820Entry>, t: seq<U8>, i: nat)
    requires i < |es| && t == TableBytes(es)
    ensures FieldAt(t, 20 * i, 8) == es[i].addr && FieldAt(t, 20 * i + 8, 8) == es[i].size
    ensures FieldAt(t, 20 * i + 16, 4) == es[i].kind
  {
    TableEntryAt(es, i);
    EntryReadsBack(es[i]);
    FieldsOfPart(t, 20 * i, EntryBytes(es[i]));
  }

  lemma FieldsOfPart(t: seq<U8>, at: nat, part: seq<U8>)
    requires |part| == 20 && at + 20 <= |t| && t[at..at + 20] == part
    ensures FieldAt(t, at, 8) == FieldAt(part, 0, 8) && FieldAt(t, at + 8, 8) == FieldAt(part, 8, 8)
    ensures FieldAt(t, at + 16, 4) == FieldAt(part, 16, 4)
  {
    FieldOfPart(t, at, part, 0, 8);
    FieldOfPart(t, at, part, 8, 8);
    FieldOfPart(t, at, part, 16, 4);
  }

  lemma FieldOfPart(t: seq<U8>, at: nat, part: seq<U8>, offset: nat, n: nat)
    requires at + |part| <= |t| && t[at..at + |part|] == part && offset + n <= |part|
    ensures FieldAt(t, at + offset, n) == FieldAt(part, offset, n)
  {
    forall i | offset <= i < offset + n ensures t[at + i] == part[i] {
      assert t[at..at + |part|][i] == t[at + i];
    }
    assert t[at + offset..at + offset + n] == part[offset..offset + n];
  }

  /** Address a is in entry i of the packed table t. */
  predicate InPacked(t: seq<U8>, i: nat, a: nat)
    requires 20 * i + 20 <= |t|
  {
    FieldAt(t, 20 * i, 8) <= a < FieldAt(t, 20 * i, 8) + FieldAt(t, 20 * i + 8, 8)
  }

  /** Address a is in one of the three entries if it is below memSize, and every entry that it is in calls
      it reserved (2) from 640 KiB to 1 MiB and RAM (1) elsewhere. */
  ghost predicate MappedRight(t: seq<U8>, memSize: nat, a: nat)
    requires |t| == 60
  {
    && (a < memSize <==> exists i: nat :: i < 3 && InPacked(t, i, a))
    && (forall i: nat :: i < 3 && InPacked(t, i, a) ==>
          FieldAt(t, 20 * i + 16, 4) == if 0xA0000 <= a < 0x100000 then 2 else 1)
  }

  ghost predicate MapsMemory(t: seq<U8>, memSize: nat)
    requires |t| == 60
  {
    forall a: nat :: MappedRight(t, memSize, a)
  }

  lemma TableMapsMemory(memSize: U64)
    requires memSize >= 0x100000
    ensures MapsMemory(TableBytes(E820Entries(memSize)), memSize)
  {
    var es := E820Entries(memSize);
    assert es[2].size == memSize - 0x100000 by { SmallMod(memSize - 0x100000, TWO_64); }
    ThreeTableFields(es, TableBytes(es));
    AllMappedRight(TableBytes(es), memSize);
  }

  lemma ThreeTableFields(es: seq<E820Entry>, t: seq<U8>)
    requires |es| == 3 && t == TableBytes(es)
    ensures FieldAt(t, 0, 8) == es[0].addr && FieldAt(t, 8, 8) == es[0].size && FieldAt(t, 16, 4) == es[0].kind
    ensures FieldAt(t, 20, 8) == es[1].addr && FieldAt(t, 28, 8) == es[1].size && FieldAt(t, 36, 4) == es[1].kind
    ensures FieldAt(t, 40, 8) == es[2].addr && FieldAt(t, 48, 8) == es[2].size && FieldAt(t, 56, 4) == es[2].kind
  {
    TableFields(es, t, 0);
    TableFields(es, t, 1);
    TableFields(es, t, 2);
  }

  lemma AllMappedRight(t: seq<U8>, memSize: nat)
    requires |t| == 60 && memSize >= 0x100000
    requires FieldAt(t, 0, 8) == 0 && FieldAt(t, 8, 8) == 0xA0000 && FieldAt(t, 16, 4) == 1
    requires FieldAt(t, 20, 8) == 0xA0000 && FieldAt(t, 28, 8) == 0x60000 && FieldAt(t, 36, 4) == 2
    requires FieldAt(t, 40, 8) == 0x100000 && FieldAt(t, 48, 8) == memSize - 0x100000 && FieldAt(t, 56, 4) == 1
    ensures MapsMemory(t, memSize)
  {
    forall a: nat ensures MappedRight(t, memSize, a) {
      ThreeEntriesMap(t, memSize, a);
    }
  }

  lemma ThreeEntriesMap(t: seq<U8>, memSize: nat, a: nat)
    requires |t| == 60 && memSize >= 0x100000
    requires FieldAt(t, 0, 8) == 0 && FieldAt(t, 8, 8) == 0xA0000 && FieldAt(t, 16, 4) == 1
    requires FieldAt(t, 20, 8) == 0xA0000 && FieldAt(t, 28, 8) == 0x60000 && FieldAt(t, 36, 4) == 2
    requires FieldAt(t, 40, 8) == 0x100000 && FieldAt(t, 48, 8) == memSize - 0x100000 && FieldAt(t, 56, 4) == 1
    ensures MappedRight(t, memSize, a)
  {
    assert InPacked(t, 0, a) <==> a < 0xA0000;
    assert InPacked(t, 1, a) <==> 0xA0000 <= a < 0x100000;
    assert InPacked(t, 2, a) <==> 0x100000 <= a < memSize;
  }

  lemma WordReadsBack(v: nat, n: nat)
    requires (n == 8 && v < TWO_64) || (n == 4 && v < TWO_32)
    ensures FromLittleEndian(LittleEndian(v, n)) == v
  {
    Pow256Values();
    LittleEndianRoundTrip(v, n);
    SmallMod(v, Pow256(n));
  }

  // -------------------------------------------------------- the whole layout

  /** One step after another; a failed step is the last. */
  function Then(p: (bool, seq<Patch>), q: (bool, seq<Patch>)): (bool, seq<Patch>) {
    if p.0 then (q.0, p.1 + q.1) else p
  }

  function InitrdStep(initrd: Option<seq<U8>>, size: U64): (r: (bool, seq<Patch>))
    requires initrd.Some? ==> |initrd.value| < TWO_64
    ensures FitsIn(r.1, size)
  {
    if initrd == None then (true, []) else InitrdPatches(initrd.value, size)
  }

  function CmdlineStep(c: Option<seq<U8>>, size: U64): (r: (bool, seq<Patch>))
    ensures FitsIn(r.1, size)
  {
    if c == None then (true, []) else CmdlinePatches(c.value, size)
  }

  lemma ThenFits(p: (bool, seq<Patch>), q: (bool, seq<Patch>), size: nat)
    requires FitsIn(p.1, size) && FitsIn(q.1, size)
    ensures FitsIn(Then(p, q).1, size)
  {
  }

  /** The patches of boot_setup_linux up to the first step that fails. */
  function BootPatches(k: seq<U8>, initrd: Option<seq<U8>>, c: Option<seq<U8>>, size: U64): (r: (bool, seq<Patch>))
    requires ImageComplete(k) && (initrd.Some? ==> |initrd.value| < TWO_64)
    ensures FitsIn(r.1, size)
  {
    var p1 := KernelPatches(k, size);
    var p2 := Then(p1, InitrdStep(initrd, size));
    var p3 := Then(p2, CmdlineStep(c, size));
    ThenFits(p1, InitrdStep(initrd, size), size);
    ThenFits(p2, CmdlineStep(c, size), size);
    ThenFits(p3, E820Patches(size, size), size);
    Then(p3, E820Patches(size, size))
  }

  /** Kernel above 1 MiB and below the initrd, command line that ends below 1 MiB, initrd that leaves
      1 MiB free. */
  predicate Layout(k: seq<U8>, initrd: seq<U8>, c: seq<U8>, size: U64) {
    && HeaderComplete(k) && GoodHeader(k) && SetupSize(k) <= |k|
    && |initrd| + MIB <= size
    && MIB <= CodeStart(k) && CodeStart(k) + (|k| - SetupSize(k)) <= InitrdAddr(size, |initrd|)
    && CMDLINE_ADDR + |c| + 1 <= MIB
  }

  /** The nine patches of a complete boot. */
  function AllPatches(k: seq<U8>, initrd: seq<U8>, c: seq<U8>, size: U64): (ws: seq<Patch>)
    requires Layout(k, initrd, c, size)
    ensures FitsIn(ws, size)
  {
    InitrdRoom(size, |initrd|);
    var a := InitrdAddr(size, |initrd|);
    [SetupPatch(k), CodePatch(k), Patch(a, initrd),
     Patch(ZERO_PAGE + RAMDISK_IMAGE, LittleEndian(a, 4)),
     Patch(ZERO_PAGE + RAMDISK_SIZE, LittleEndian(|initrd|, 4)),
     Patch(CMDLINE_ADDR, c + [0]),
     Patch(ZERO_PAGE + CMDLINE_PTR, LittleEndian(CMDLINE_ADDR, 4)),
     Patch(ZERO_PAGE + E820_TABLE, TableBytes(E820Entries(size))),
     Patch(ZERO_PAGE + E820_COUNT, [3])]
  }

  lemma LayoutPatches(k: seq<U8>, initrd: seq<U8>, c: seq<U8>, size: U64)
    requires Layout(k, initrd, c, size)
    ensures ImageComplete(k) && !InitrdWraps(size, |initrd|)
    ensures BootPatches(k, Some(initrd), Some(c), size) == (true, AllPatches(k, initrd, c, size))
  {
    InitrdRoom(size, |initrd|);
    var r := BootPatches(k, Some(initrd), Some(c), size);
    assert r.0;
    assert r.1 == AllPatches(k, initrd, c, size);
  }

  /** Where the patches are and how long. */
  lemma PatchShapes(k: seq<U8>, initrd: seq<U8>, c: seq<U8>, size: U64)
    requires Layout(k, initrd, c, size)
    ensures var ws := AllPatches(k, initrd, c, size);
      && |ws| == 9
      && ws[0].at == ZERO_PAGE && ws[0].data == k[..SetupSize(k)]
      && MIB <= ws[1].at == CodeStart(k) && |ws[1].data| == |k| - SetupSize(k)
      && ws[1].at + |ws[1].data| <= ws[2].at == InitrdAddr(size, |initrd|) && |ws[2].data| == |initrd|
      && ws[3].at == 0x10218 && |ws[3].data| == 4
      && ws[4].at == 0x1021C && |ws[4].data| == 4
      && ws[5].at == CMDLINE_ADDR && ws[5].data == c + [0] && ws[5].at + |ws[5].data| <= MIB
      && ws[6].at == 0x10228 && |ws[6].data| == 4
      && ws[7].at == 0x102D0 && |ws[7].data| == 60
      && ws[8].at == 0x101E8 && |ws[8].data| == 1
  {
  }

  lemma PatchesApart(k: seq<U8>, initrd: seq<U8>, c: seq<U8>, size: U64, i: nat, j: nat)
    requires Layout(k, initrd, c, size) && 1 <= i < j < 9
    ensures var ws := AllPatches(k, initrd, c, size); Apart(ws[i].at, |ws[i].data|, ws[j].at, |ws[j].data|)
  {
    PatchShapes(k, initrd, c, size);
    ShapesApart(AllPatches(k, initrd, c, size), i, j);
  }

  lemma ShapesApart(ws: seq<Patch>, i: nat, j: nat)
    requires |ws| == 9 && 1 <= i < j < 9
    requires MIB <= ws[1].at && ws[1].at + |ws[1].data| <= ws[2].at
    requires ws[3].at == 0x10218 && |ws[3].data| == 4 && ws[4].at == 0x1021C && |ws[4].data| == 4
    requires ws[5].at == CMDLINE_ADDR && ws[5].at + |ws[5].data| <= MIB
    requires ws[6].at == 0x10228 && |ws[6].data| == 4 && ws[7].at == 0x102D0 && |ws[7].data| == 60
    requires ws[8].at == 0x101E8 && |ws[8].data| == 1
    ensures Apart(ws[i].at, |ws[i].data|, ws[j].at, |ws[j].data|)
  {
  }

  /** Patch i of a complete boot, the setup part apart, is in RAM at the end. */
  lemma BootPatchStands(k: seq<U8>, initrd: seq<U8>, c: seq<U8>, ram: seq<U8>, ws: seq<Patch>, i: nat, w: Patch)
    requires |ram| < TWO_64 && Layout(k, initrd, c, |ram|) && ws == AllPatches(k, initrd, c, |ram|)
    requires 1 <= i < 9 && ws[i] == w
    ensures w.at + |w.data| <= |ram|
    ensures Load(Apply(ram, ws), w.at, |w.data|) == w.data
  {
    forall j | i < j < |ws| ensures Apart(ws[i].at, |ws[i].data|, ws[j].at, |ws[j].data|) {
      PatchesApart(k, initrd, c, |ram|, i, j);
    }
    PatchStands(ram, ws, i);
  }

  /** After a complete boot the kernel's code, the initrd and the command line with its NUL are in
      place. */
  lemma BootImageIsIntact(k: seq<U8>, initrd: seq<U8>, c: seq<U8>, ram: seq<U8>, ws: seq<Patch>)
    requires |ram| < TWO_64 && Layout(k, initrd, c, |ram|)
    requires ws == AllPatches(k, initrd, c, |ram|)
    ensures var r := Apply(ram, ws);
      var a, code := InitrdAddr(|ram|, |initrd|), CodeStart(k);
      && a + |initrd| <= |ram| && Load(r, a, |initrd|) == initrd
      && code + |k| - SetupSize(k) <= |ram| && Load(r, code, |k| - SetupSize(k)) == k[SetupSize(k)..]
      && CMDLINE_ADDR + |c| + 1 <= |ram| && Load(r, CMDLINE_ADDR, |c| + 1) == c + [0]
  {
    BootPatchStands(k, initrd, c, ram, ws, 1, CodePatch(k));
    BootPatchStands(k, initrd, c, ram, ws, 2, Patch(InitrdAddr(|ram|, |initrd|), initrd));
    CmdlineStands(k, initrd, c, ram, ws);
  }

  /** The image's own bytes say where its two parts are: n bytes of setup, and code whose address is in
      bytes 0x214 to 0x217, or 1 MiB if that is 0. */
  lemma KernelInPlace(k: seq<U8>, initrd: seq<U8>, c: seq<U8>, ram: seq<U8>, ws: seq<Patch>, code: U32)
    requires |ram| < TWO_64 && Layout(k, initrd, c, |ram|)
    requires ws == AllPatches(k, initrd, c, |ram|) && k[0x214..0x218] == LittleEndian(code, 4)
    ensures var sectors: int, start := k[0x1F1], if code == 0 then 0x100000 else code;
      var n := 512 * (sectors + 1);
      && n <= |k| && start + (|k| - n) <= |ram|
      && Load(Apply(ram, ws), start, |k| - n) == k[n..]
  {
    CodeStartIs(k, code);
    BootImageIsIntact(k, initrd, c, ram, ws);
  }

  lemma CodeStartIs(k: seq<U8>, code: U32)
    requires HeaderComplete(k) && k[0x214..0x218] == LittleEndian(code, 4)
    ensures CodeStart(k) == if code == 0 then 0x100000 else code
  {
    WordReadsBack(code, 4);
  }

  /** The boot flag 0xAA55 and the magic "HdrS". */
  lemma GoodHeaderIff(k: seq<U8>)
    requires HeaderComplete(k)
    ensures GoodHeader(k) <==> k[0x1FE..0x200] == [0x55, 0xAA] && k[0x202..0x206] == [0x48, 0x64, 0x72, 0x53]
  {
    SameNumberSameBytes(k[0x1FE..0x200], [0x55, 0xAA]);
    SameNumberSameBytes(k[0x202..0x206], [0x48, 0x64, 0x72, 0x53]);
    assert [0x64, 0x72, 0x53] == [0x48, 0x64, 0x72, 0x53][1..];
  }

  lemma SameNumberSameBytes(s: seq<U8>, t: seq<U8>)
    requires |s| == |t|
    ensures FromLittleEndian(s) == FromLittleEndian(t) <==> s == t
  {
    LittleEndianOnto(s);
    LittleEndianOnto(t);
  }

  /** Booting succeeds exactly when the header is good, both parts of the kernel, the command line with
      its NUL and the zero page fit into RAM, and the initrd leaves 1 MiB. */
  lemma BootSucceedsIff(k: seq<U8>, initrd: Option<seq<U8>>, c: Option<seq<U8>>, size: U64)
    requires ImageComplete(k) && (initrd.Some? ==> |initrd.value| < TWO_64)
    ensures BootPatches(k, initrd, c, size).0 <==>
      && |k| >= 0x218 && GoodHeader(k)
      && (var sectors: int := k[0x1F1];
          0x10000 + 512 * (sectors + 1) <= size && CodeStart(k) + (|k| - 512 * (sectors + 1)) <= size)
      && (initrd.Some? ==> |initrd.value| + 0x100000 <= size)
      && (c.Some? ==> 0x20000 + |c.value| + 1 <= size)
      && 0x11000 <= size
  {
    if initrd.Some? {
      InitrdRoom(size, |initrd.value|);
    }
  }

  lemma ThenStops(p: (bool, seq<Patch>), q: (bool, seq<Patch>))
    ensures !p.0 ==> Then(p, q) == p
    ensures p.0 && q == (false, []) ==> Then(p, q) == (false, p.1)
  {
    assert p.1 + [] == p.1;
  }

  lemma StepsStop(k: seq<U8>, initrd: Option<seq<U8>>, c: Option<seq<U8>>, size: U64)
    requires ImageComplete(k) && (initrd.Some? ==> |initrd.value| < TWO_64)
    ensures var r, p1, p2 := BootPatches(k, initrd, c, size), KernelPatches(k, size), InitrdStep(initrd, size);
      && (!p1.0 ==> r == p1)
      && (p1.0 && p2 == (false, []) ==> r == (false, p1.1))
      && (p1.0 && p2.0 && CmdlineStep(c, size) == (false, []) ==> r == (false, p1.1 + p2.1))
  {
    var p1 := KernelPatches(k, size);
    var p2 := Then(p1, InitrdStep(initrd, size));
    var p3 := Then(p2, CmdlineStep(c, size));
    ThenStops(p1, InitrdStep(initrd, size));
    ThenStops(p2, CmdlineStep(c, size));
    ThenStops(p3, E820Patches(size, size));
  }

  /** What a boot that fails has written: nothing for a bad header or a setup part that does not fit, the
      setup part when the code does not fit, and both when the initrd does not. */
  lemma FailedBootLeaves(k: seq<U8>, initrd: Option<seq<U8>>, c: Option<seq<U8>>, size: U64)
    requires ImageComplete(k) && (initrd.Some? ==> |initrd.value| < TWO_64)
    ensures var r := BootPatches(k, initrd, c, size);
      if |k| < 0x200 || !GoodHeader(k) then r == (false, [])
      else
        var sectors: int := k[0x1F1];
        var n := 512 * (sectors + 1);
        var setup, code := Patch(0x10000, k[..n]), Patch(CodeStart(k), k[n..]);
        && (0x10000 + n > size ==> r == (false, []))
        && (0x10000 + n <= size && code.at + |code.data| > size ==> r == (false, [setup]))
        && (0x10000 + n <= size && code.at + |code.data| <= size && initrd.Some? && |initrd.value| + 0x100000 > size ==>
              r == (false, [setup, code]))
  {
    StepsStop(k, initrd, c, size);
    if initrd.Some? {
      InitrdRoom(size, |initrd.value|);
    }
  }

  /** A command line that does not fit is noticed after the initrd is in place. */
  lemma LongCmdlineLeaves(k: seq<U8>, initrd: seq<U8>, c: seq<U8>, size: U64)
    requires ImageComplete(k) && |initrd| < TWO_64
    requires KernelPatches(k, size).0 && |initrd| + 0x100000 <= size < 0x20000 + |c| + 1
    ensures BootPatches(k, Some(initrd), Some(c), size) ==
      (false, KernelPatches(k, size).1 + InitrdPatches(initrd, size).1)
  {
    InitrdIsPatched(initrd, size);
    StepsStop(k, Some(initrd), Some(c), size);
  }

  lemma InitrdIsPatched(initrd: seq<U8>, size: U64)
    requires |initrd| + 0x100000 <= size
    ensures var a := InitrdAddr(size, |initrd|);
      InitrdPatches(initrd, size) ==
        (true, [Patch(a, initrd), Patch(0x10218, LittleEndian(a, 4)), Patch(0x1021C, LittleEndian(|initrd|, 4))])
  {
    InitrdRoom(size, |initrd|);
  }

  /** And the kernel finds the initrd, the command line and the memory map through the zero page. */
  lemma BootFieldsReadBack(k: seq<U8>, initrd: seq<U8>, c: seq<U8>, ram: seq<U8>, ws: seq<Patch>)
    requires |ram| < TWO_64 && Layout(k, initrd, c, |ram|)
    requires ws == AllPatches(k, initrd, c, |ram|)
    ensures |ram| >= MIB
    ensures var r := Apply(ram, ws);
      && FromLittleEndian(Load(r, 0x10218, 4)) == InitrdAddr(|ram|, |initrd|) % TWO_32
      && FromLittleEndian(Load(r, 0x1021C, 4)) == |initrd| % TWO_32
      && FromLittleEndian(Load(r, 0x10228, 4)) == 0x20000
      && Load(r, 0x101E8, 1) == [3] && MapsMemory(Load(r, 0x102D0, 60), |ram|)
  {
    var a := InitrdAddr(|ram|, |initrd|);
    BootPatchStands(k, initrd, c, ram, ws, 3, Patch(ZERO_PAGE + RAMDISK_IMAGE, LittleEndian(a, 4)));
    BootPatchStands(k, initrd, c, ram, ws, 4, Patch(ZERO_PAGE + RAMDISK_SIZE, LittleEndian(|initrd|, 4)));
    BootPatchStands(k, initrd, c, ram, ws, 6, Patch(ZERO_PAGE + CMDLINE_PTR, LittleEndian(CMDLINE_ADDR, 4)));
    BootPatchStands(k, initrd, c, ram, ws, 7, Patch(ZERO_PAGE + E820_TABLE, TableBytes(E820Entries(|ram|))));
    BootPatchStands(k, initrd, c, ram, ws, 8, Patch(ZERO_PAGE + E820_COUNT, [3]));
    Store32ReadsBack(a);
    Store32ReadsBack(|initrd|);
    Store32ReadsBack(CMDLINE_ADDR);
    TableMapsMemory(|ram|);
  }

  /** The bytes of the zero page that the loader fills in: number of E820 entries, initrd, command line
      pointer, E820 table. */
  predicate Field(at: nat) {
    at == 0x101E8 || 0x10218 <= at < 0x10220 || 0x10228 <= at < 0x1022C || 0x102D0 <= at < 0x1030C
  }

  predicate InRange(at: nat, start: nat, n: nat) {
    start <= at < start + n
  }

  /** Outside the fields, the code, the initrd and the command line, RAM holds the setup part where
      that was copied and is unchanged elsewhere. */
  lemma BootLeavesTheRest(k: seq<U8>, initrd: seq<U8>, c: seq<U8>, ram: seq<U8>, ws: seq<Patch>, at: nat)
    requires |ram| < TWO_64 && Layout(k, initrd, c, |ram|) && at < |ram|
    requires ws == AllPatches(k, initrd, c, |ram|)
    requires !Field(at) && !InRange(at, CMDLINE_ADDR, |c| + 1)
    requires !InRange(at, CodeStart(k), |k| - SetupSize(k)) && !InRange(at, InitrdAddr(|ram|, |initrd|), |initrd|)
    ensures Apply(ram, ws)[at] == if InRange(at, ZERO_PAGE, SetupSize(k)) then k[at - ZERO_PAGE] else ram[at]
  {
    PatchShapes(k, initrd, c, |ram|);
    FirstPatchOrNothing(ram, ws, at, k[..SetupSize(k)]);
  }

  /** Every byte of the setup part but the fields is in RAM after a complete boot. */
  ghost predicate SetupStands(k: seq<U8>, initrd: seq<U8>, c: seq<U8>, ram: seq<U8>)
    requires |ram| < TWO_64 && Layout(k, initrd, c, |ram|)
  {
    var r := Apply(ram, AllPatches(k, initrd, c, |ram|));
    ZERO_PAGE + SetupSize(k) <= |ram| &&
    forall at :: 0 <= at < SetupSize(k) && !Field(ZERO_PAGE + at) ==> r[ZERO_PAGE + at] == k[at]
  }

  /** The setup part survives every command line if and only if it has at most 128 sectors, the count
      in the header being one less. */
  lemma SetupSurvivesIff(k: seq<U8>, initrd: seq<U8>, ram: seq<U8>)
    requires |ram| < TWO_64 && Layout(k, initrd, [], |ram|)
    ensures (forall c :: Layout(k, initrd, c, |ram|) ==> SetupStands(k, initrd, c, ram)) <==> SetupSectors(k) <= 127
  {
    if SetupSectors(k) <= 127 {
      forall c | Layout(k, initrd, c, |ram|) ensures SetupStands(k, initrd, c, ram) {
        ShortSetupStands(k, initrd, c, ram);
      }
    } else {
      var c := if k[0x10000] == 1 then [2] else [1];
      assert Layout(k, initrd, c, |ram|);
      LongSetupIsOverwritten(k, initrd, c, ram, AllPatches(k, initrd, c, |ram|));
    }
  }

  lemma ShortSetupStands(k: seq<U8>, initrd: seq<U8>, c: seq<U8>, ram: seq<U8>)
    requires |ram| < TWO_64 && Layout(k, initrd, c, |ram|) && SetupSectors(k) <= 127
    ensures SetupStands(k, initrd, c, ram)
  {
    InitrdRoom(|ram|, |initrd|);
    var ws := AllPatches(k, initrd, c, |ram|);
    forall at | 0 <= at < SetupSize(k) && !Field(ZERO_PAGE + at)
      ensures Apply(ram, ws)[ZERO_PAGE + at] == k[at]
    {
      BootLeavesTheRest(k, initrd, c, ram, ws, ZERO_PAGE + at);
    }
  }

  /** The first byte of the command line replaces what a longer setup part has there. */
  lemma LongSetupIsOverwritten(k: seq<U8>, initrd: seq<U8>, c: seq<U8>, ram: seq<U8>, ws: seq<Patch>)
    requires |ram| < TWO_64 && Layout(k, initrd, c, |ram|) && SetupSectors(k) > 127
    requires ws == AllPatches(k, initrd, c, |ram|)
    ensures SetupSize(k) > CMDLINE_ADDR - ZERO_PAGE
    ensures CMDLINE_ADDR < |ram| && Apply(ram, ws)[CMDLINE_ADDR] == (c + [0])[0]
  {
    CmdlineStands(k, initrd, c, ram, ws);
    FirstByte(Apply(ram, ws), CMDLINE_ADDR, c + [0]);
  }

  lemma CmdlineStands(k: seq<U8>, initrd: seq<U8>, c: seq<U8>, ram: seq<U8>, ws: seq<Patch>)
    requires |ram| < TWO_64 && Layout(k, initrd, c, |ram|)
    requires ws == AllPatches(k, initrd, c, |ram|)
    ensures CMDLINE_ADDR + |c| + 1 <= |ram|
    ensures Load(Apply(ram, ws), CMDLINE_ADDR, |c| + 1) == c + [0]
  {
    BootPatchStands(k, initrd, c, ram, ws, 5, Patch(CMDLINE_ADDR, c + [0]));
  }

  lemma FirstByte(r: seq<U8>, at: nat, data: seq<U8>)
    requires data != [] && at + |data| <= |r| && Load(r, at, |data|) == data
    ensures r[at] == data[0]
  {
    assert Load(r, at, |data|)[0] == r[at];
  }

  lemma FirstPatchOrNothing(ram: seq<U8>, ws: seq<Patch>, at: nat, setup: seq<U8>)
    requires FitsIn(ws, |ram|) && ws != [] && ws[0] == Patch(ZERO_PAGE, setup) && at < |ram|
    requires forall j :: 1 <= j < |ws| ==> !Touches(ws[j], at)
    ensures Apply(ram, ws)[at] == if ZERO_PAGE <= at < ZERO_PAGE + |setup| then setup[at - ZERO_PAGE] else ram[at]
  {
    if ZERO_PAGE <= at < ZERO_PAGE + |setup| {
      LastPatchWins(ram, ws, 0, at);
    } else {
      assert !Touches(ws[0], at);
      UntouchedByte(ram, ws, at);
    }
  }

  // ---------------------------------------------------------------- the code

  /** One RAM region at guest address 0 makes up all of the guest's memory. */
  ghost predicate OneRegion(vm: Vm)
    reads vm`memSize, vm.regions
  {
    vm.Mapped() && |vm.Table()| == 1 && vm.Table()[0].gpa == 0 && vm.Table()[0].size == vm.memSize
  }

  ghost function Ram(vm: Vm): (r: seq<U8>)
    reads vm`memSize, vm.regions, vm.host
    requires OneRegion(vm)
    ensures |r| == vm.memSize
  {
    var r := vm.Table()[0];
    Load(vm.host[..], r.hva, r.size)
  }

  /** A store inside a part of memory is a store into that part. */
  lemma StoreInside(mem: seq<U8>, start: nat, n: nat, at: nat, data: seq<U8>)
    requires start + n <= |mem| && at + |data| <= n
    ensures Load(Store(mem, start + at, data), start, n) == Store(Load(mem, start, n), at, data)
  {
  }

  /** Translate, and copy if that succeeds. */
  method CopyGuest(vm: Vm, gpa: U64, data: seq<U8>) returns (ok: bool)
    requires OneRegion(vm) && |data| < TWO_64
    requires Add64(gpa, |data|) <= vm.memSize ==> gpa + |data| <= vm.memSize
    modifies vm.host
    ensures OneRegion(vm)
    ensures ok <==> gpa + |data| <= vm.memSize
    ensures Ram(vm) == if ok then Store(old(Ram(vm)), gpa, data) else old(Ram(vm))
  {
    var hva := vm.GpaToHva(gpa, |data|);
    OneRegionLookup(vm.Table(), gpa, |data|);
    if hva == NULL {
      return false;
    }
    StoreInside(vm.host[..], vm.Table()[0].hva, vm.memSize, gpa, data);
    CopyIn(vm.host, hva, data);
    return true;
  }

  /** A store through the translated zero page, at an offset past the translated bytes. */
  method PokeZeroPage(vm: Vm, hva: nat, offset: nat, data: seq<U8>)
    requires OneRegion(vm) && hva == vm.Table()[0].hva + ZERO_PAGE
    requires ZERO_PAGE + offset + |data| <= vm.memSize
    modifies vm.host
    ensures OneRegion(vm) && Ram(vm) == Store(old(Ram(vm)), ZERO_PAGE + offset, data)
  {
    StoreInside(vm.host[..], vm.Table()[0].hva, vm.memSize, ZERO_PAGE + offset, data);
    CopyIn(vm.host, hva + offset, data);
  }

  /** The three tests of the image. */
  method CheckHeader(k: seq<U8>) returns (ok: bool)
    requires ImageComplete(k)
    ensures ok <==> |k| >= 0x200 && GoodHeader(k)
  {
    if |k| < 0x200 {
      return false;
    }
    if FieldAt(k, 0x1FE, 2) != BOOT_FLAG {
      return false;
    }
    if FieldAt(k, 0x202, 4) != BZIMAGE_MAGIC {
      return false;
    }
    return true;
  }

  method LoadBzImage(vm: Vm, k: seq<U8>) returns (ret: int)
    requires OneRegion(vm) && ImageComplete(k) && |k| + TWO_32 < TWO_64
    modifies vm.host
    ensures OneRegion(vm)
    ensures var p := KernelPatches(k, vm.memSize);
      ret == (if p.0 then 0 else -1) && Ram(vm) == Apply(old(Ram(vm)), p.1)
  {
    var good := CheckHeader(k);
    if !good {
      return -1;
    }
    var sectors: nat := k[0x1F1];
    var setupSize := (sectors + 1) * 512;
    var code32 := FieldAt(k, 0x214, 4);
    KernelApplies(k, Ram(vm));
    var ok := CopyGuest(vm, ZERO_PAGE, k[..setupSize]);
    if !ok {
      return -1;
    }
    ok := CopyGuest(vm, if code32 != 0 then code32 else MIB, k[setupSize..]);
    if !ok {
      return -1;
    }
    return 0;
  }

  /** The two copies, one after the other, of an image with a good header. */
  lemma KernelApplies(k: seq<U8>, ram: seq<U8>)
    requires HeaderComplete(k) && GoodHeader(k) && SetupSize(k) <= |k| && |k| + TWO_32 < TWO_64
    ensures CodeStart(k) < TWO_32 && Add64(ZERO_PAGE, SetupSize(k)) == ZERO_PAGE + SetupSize(k)
    ensures Add64(CodeStart(k), |k| - SetupSize(k)) == CodeStart(k) + (|k| - SetupSize(k))
    ensures var r, p1, p2 := KernelPatches(k, |ram|), SetupPatch(k), CodePatch(k);
      if p1.at + |p1.data| > |ram| then !r.0 && Apply(ram, r.1) == ram
      else
        var half := Store(ram, p1.at, p1.data);
        if p2.at + |p2.data| > |ram| then !r.0 && Apply(ram, r.1) == half
        else r.0 && Apply(ram, r.1) == Store(half, p2.at, p2.data)
  {
    LittleEndianOnto(k[0x214..0x218]);
    Pow256Values();
    AddFits(ZERO_PAGE, SetupSize(k));
    AddFits(CodeStart(k), |k| - SetupSize(k));
    var p1, p2 := SetupPatch(k), CodePatch(k);
    if p1.at + |p1.data| <= |ram| {
      ApplyOne(ram, p1);
      if p2.at + |p2.data| <= |ram| {
        ApplyTwo(ram, p1, p2);
      }
    }
  }

  lemma ApplyOne(ram: seq<U8>, w: Patch)
    requires w.at + |w.data| <= |ram|
    ensures Apply(ram, [w]) == Store(ram, w.at, w.data)
  {
  }

  lemma ApplyTwo(ram: seq<U8>, w1: Patch, w2: Patch)
    requires w1.at + |w1.data| <= |ram| && w2.at + |w2.data| <= |ram|
    ensures Apply(ram, [w1, w2]) == Store(Store(ram, w1.at, w1.data), w2.at, w2.data)
  {
    assert [w1, w2][1..] == [w2];
    ApplyOne(Store(ram, w1.at, w1.data), w2);
  }

  method LoadInitrd(vm: Vm, initrd: seq<U8>) returns (ret: int)
    requires OneRegion(vm) && |initrd| < TWO_64 && !InitrdWraps(vm.memSize, |initrd|)
    modifies vm.host
    ensures OneRegion(vm)
    ensures var p := InitrdPatches(initrd, vm.memSize);
      ret == (if p.0 then 0 else -1) && Ram(vm) == Apply(old(Ram(vm)), p.1)
  {
    ghost var ram := Ram(vm);
    InitrdRoom(vm.memSize, |initrd|);
    InitrdEnd(vm.memSize, |initrd|);
    var a := PageFloor64(Sub64(vm.memSize, |initrd|));
    if a < MIB {
      a := FALLBACK;
    }
    var ok := CopyGuest(vm, a, initrd);
    if !ok {
      return -1;
    }
    FillRamdiskFields(vm, a, |initrd|);
    ApplyThree(ram, Patch(a, initrd), Patch(ZERO_PAGE + RAMDISK_IMAGE, LittleEndian(a, 4)),
               Patch(ZERO_PAGE + RAMDISK_SIZE, LittleEndian(|initrd|, 4)));
    return 0;
  }

  /** The boot parameters that tell the kernel where its initrd is. */
  method FillRamdiskFields(vm: Vm, a: U64, n: nat)
    requires OneRegion(vm) && vm.memSize >= MIB
    modifies vm.host
    ensures OneRegion(vm)
    ensures Ram(vm) == Store(Store(old(Ram(vm)), ZERO_PAGE + RAMDISK_IMAGE, LittleEndian(a, 4)),
                             ZERO_PAGE + RAMDISK_SIZE, LittleEndian(n, 4))
  {
    OneRegionLookup(vm.Table(), ZERO_PAGE, 4);
    var hva := vm.GpaToHva(ZERO_PAGE, 4);
    if hva != NULL {
      PokeZeroPage(vm, hva, RAMDISK_IMAGE, LittleEndian(a, 4));
      PokeZeroPage(vm, hva, RAMDISK_SIZE, LittleEndian(n, 4));
    }
  }

  lemma ApplyThree(ram: seq<U8>, w1: Patch, w2: Patch, w3: Patch)
    requires w1.at + |w1.data| <= |ram| && w2.at + |w2.data| <= |ram| && w3.at + |w3.data| <= |ram|
    ensures Apply(ram, [w1, w2, w3]) ==
      Store(Store(Store(ram, w1.at, w1.data), w2.at, w2.data), w3.at, w3.data)
  {
    assert [w1, w2, w3][1..] == [w2, w3];
    ApplyTwo(Store(ram, w1.at, w1.data), w2, w3);
  }

  method SetupCmdline(vm: Vm, c: seq<U8>) returns (ret: int)
    requires OneRegion(vm) && CMDLINE_ADDR + |c| + 1 < TWO_64
    modifies vm.host
    ensures OneRegion(vm)
    ensures var p := CmdlinePatches(c, vm.memSize);
      ret == (if p.0 then 0 else -1) && Ram(vm) == Apply(old(Ram(vm)), p.1)
  {
    ghost var ram := Ram(vm);
    AddFits(CMDLINE_ADDR, |c| + 1);
    var ok := CopyGuest(vm, CMDLINE_ADDR, c + [0]);
    if !ok {
      return -1;
    }
    OneRegionLookup(vm.Table(), ZERO_PAGE, 4);
    var hva := vm.GpaToHva(ZERO_PAGE, 4);
    if hva != NULL {
      PokeZeroPage(vm, hva, CMDLINE_PTR, LittleEndian(CMDLINE_ADDR, 4));
    }
    ApplyTwo(ram, Patch(CMDLINE_ADDR, c + [0]), Patch(ZERO_PAGE + CMDLINE_PTR, LittleEndian(CMDLINE_ADDR, 4)));
    return 0;
  }

  method SetupE820(vm: Vm) returns (ret: int)
    requires OneRegion(vm)
    modifies vm.host
    ensures OneRegion(vm)
    ensures var p := E820Patches(vm.memSize, vm.memSize);
      ret == (if p.0 then 0 else -1) && Ram(vm) == Apply(old(Ram(vm)), p.1)
  {
    ghost var ram := Ram(vm);
    OneRegionLookup(vm.Table(), ZERO_PAGE, 0x1000);
    var hva := vm.GpaToHva(ZERO_PAGE, 0x1000);
    if hva == NULL {
      return -1;
    }
    var entries := E820Entries(vm.memSize);
    PokeZeroPage(vm, hva, E820_TABLE, TableBytes(entries));
    PokeZeroPage(vm, hva, E820_COUNT, [|entries|]);
    ApplyTwo(ram, Patch(ZERO_PAGE + E820_TABLE, TableBytes(entries)), Patch(ZERO_PAGE + E820_COUNT, [3]));
    return 0;
  }

  /** boot_setup_linux up to the registers; None stands for an option that was not given. */
  method BootSetupLinux(vm: Vm, kernel: Option<seq<U8>>, initrd: Option<seq<U8>>, c: Option<seq<U8>>)
    returns (ret: int)
    requires OneRegion(vm)
    requires kernel.Some? ==> ImageComplete(kernel.value) && |kernel.value| + TWO_32 < TWO_64
    requires initrd.Some? ==> |initrd.value| < TWO_64 && !InitrdWraps(vm.memSize, |initrd.value|)
    requires c.Some? ==> CMDLINE_ADDR + |c.value| + 1 < TWO_64
    modifies vm.host
    ensures OneRegion(vm)
    ensures kernel == None ==> ret == -1 && Ram(vm) == old(Ram(vm))
    ensures kernel.Some? ==>
      var p := BootPatches(kernel.value, initrd, c, vm.memSize);
      ret == (if p.0 then 0 else -1) && Ram(vm) == Apply(old(Ram(vm)), p.1)
  {
    if kernel == None {
      return -1;
    }
    ghost var ram, size := Ram(vm), vm.memSize;
    ret := LoadBzImage(vm, kernel.value);
    ghost var p := KernelPatches(kernel.value, size);
    if ret < 0 {
      return -1;
    }
    if initrd.Some? {
      ret := LoadInitrd(vm, initrd.value);
    }
    ThenApplies(ram, p, InitrdStep(initrd, size));
    p := Then(p, InitrdStep(initrd, size));
    if ret < 0 {
      return -1;
    }
    if c.Some? {
      ret := SetupCmdline(vm, c.value);
    }
    ThenApplies(ram, p, CmdlineStep(c, size));
    p := Then(p, CmdlineStep(c, size));
    if ret < 0 {
      return -1;
    }
    ret := SetupE820(vm);
    ThenApplies(ram, p, E820Patches(size, size));
  }

  lemma ThenApplies(ram: seq<U8>, p: (bool, seq<Patch>), q: (bool, seq<Patch>))
    requires FitsIn(p.1, |ram|) && FitsIn(q.1, |ram|) && p.0
    ensures FitsIn(Then(p, q).1, |ram|) && Apply(ram, Then(p, q).1) == Apply(Apply(ram, p.1), q.1)
    ensures q.1 == [] ==> Apply(ram, Then(p, q).1) == Apply(ram, p.1)
  {
    ApplyConcat(ram, p.1, q.1);
  }
}
