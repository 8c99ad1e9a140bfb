/** What a block request does, read off the bytes of its header: type in bytes 0 to 3, sector number in
    bytes 8 to 15, sectors of 512 bytes. */
module BlockRequests {
  import opened Words
  import opened GuestMap
  import opened VirtioBlock
  import opened BlockBuffers

  /** The header in the flat memory. */
  ghost function HeaderInGuest(s: Setup): (req: seq<U8>)
    requires Usable(s)
    ensures |req| == 16 && req == Header(s)
  {
    HeldBytesAreGuest(s.rs, s.host, s.descs[s.head].addr, 16);
    GuestBytes(Guest(s.rs, s.host), s.descs[s.head].addr, 16)
  }

  ghost predicate Asks(s: Setup, kind: seq<U8>, sector: U64)
    requires Usable(s)
  {
    HeaderInGuest(s)[..4] == kind && HeaderInGuest(s)[8..16] == LittleEndian(sector, 8)
  }

  /** Where the data buffer and the status byte are in the host. */
  ghost function DataAt(s: Setup): nat
    requires Usable(s)
  {
    VmLookup(s.rs, Second(s.descs, s.head).addr, Second(s.descs, s.head).len)
  }

  ghost function StatusAt(s: Setup): (at: nat)
    requires Usable(s)
    ensures at < |s.host|
  {
    var hva := VmLookup(s.rs, Third(s.descs, s.head).addr, 1);
    assert PlanFor(s).statusAt == hva;
    hva
  }

  /** The bytes to be moved, n of them, are there in the host, and their place on the disk is one a file
      can have. */
  ghost predicate Roomy(s: Setup, sector: U64, n: nat)
    requires Usable(s)
  {
    DataAt(s) + n <= |s.host| && 512 * sector + n < 0x8000_0000_0000_0000
  }

  lemma HeaderNumbers(s: Setup, kind: U8, sector: U64)
    requires Usable(s) && Asks(s, [kind, 0, 0, 0], sector)
    ensures PlanFor(s) == Plan(kind, sector, DataAt(s), StatusAt(s), Third(s.descs, s.head).len)
    ensures 512 * sector < 0x1_0000_0000_0000_0000 ==> Offset(PlanFor(s)) == 512 * sector
  {
    SmallNumber([kind, 0, 0, 0], kind);
    SectorReadsBack(sector);
    assert PlanFor(s).kind == kind && PlanFor(s).sector == sector;
    OffsetOf(PlanFor(s));
  }

  lemma SectorReadsBack(sector: U64)
    ensures FromLittleEndian(LittleEndian(sector, 8)) == sector
  {
    LittleEndianRoundTrip(sector, 8);
    Pow256Values();
    SmallMod(sector, TWO_64);
  }

  lemma OffsetOf(p: Plan)
    requires p.Plan?
    ensures 512 * p.sector < 0x1_0000_0000_0000_0000 ==> Offset(p) == 512 * p.sector
  {
    if 512 * p.sector < TWO_64 {
      SmallMod(512 * p.sector, TWO_64);
    }
  }

  /** Type 0 with sector number s: a complete transfer puts byte 512 s + k of the disk at position k of
      the data buffer, and 0 into the status byte; nothing else changes. */
  lemma ReadsItsSector(s: Setup, disk: seq<U8>, sector: U64)
    requires Usable(s) && Asks(s, [0, 0, 0, 0], sector)
    requires var n := Third(s.descs, s.head).len; Roomy(s, sector, n) && 512 * sector + n <= |disk|
    ensures var n, m := Third(s.descs, s.head).len, Media(s.host, disk);
      && Possible(PlanFor(s), m, n)
      && Performed(PlanFor(s), m, n).disk == disk
      && PlacedInHost(s.host, DataAt(s), Load(disk, 512 * sector, n), StatusAt(s), Performed(PlanFor(s), m, n).host)
  {
    HeaderNumbers(s, 0, sector);
    assert Complete(s, T_IN, |disk|);
    ReadMoves(s, disk);
  }

  /** r is the host memory with the bytes of data from start on, and then 0 at status. */
  ghost predicate PlacedInHost(host: seq<U8>, start: nat, data: seq<U8>, status: nat, r: seq<U8>) {
    && |r| == |host|
    && forall a :: 0 <= a < |host| ==>
        r[a] == if a == status then 0 else if start <= a < start + |data| then data[a - start] else host[a]
  }

  /** Type 1: a complete transfer puts byte k of the data buffer at 512 s + k of the disk and 0 into the
      status byte; nothing else changes. */
  lemma WritesItsSector(s: Setup, disk: seq<U8>, sector: U64)
    requires Usable(s) && Asks(s, [1, 0, 0, 0], sector)
    requires var n := Third(s.descs, s.head).len; Roomy(s, sector, n) && 512 * sector + n <= |disk|
    ensures var n, m := Third(s.descs, s.head).len, Media(s.host, disk);
      && Possible(PlanFor(s), m, n)
      && Performed(PlanFor(s), m, n).host == s.host[StatusAt(s) := 0]
      && PlacedOnDisk(disk, 512 * sector, Load(s.host, DataAt(s), n), Performed(PlanFor(s), m, n).disk)
  {
    HeaderNumbers(s, 1, sector);
    assert Complete(s, T_OUT, |disk|);
    WriteKeepsHost(s, disk);
    WriteIsPlaced(s, disk, sector);
  }

  /** r is the disk with the bytes of data from start on. */
  ghost predicate PlacedOnDisk(disk: seq<U8>, start: nat, data: seq<U8>, r: seq<U8>) {
    && |r| == |disk|
    && forall b :: 0 <= b < |disk| ==> r[b] == if start <= b < start + |data| then data[b - start] else disk[b]
  }

  lemma WriteKeepsHost(s: Setup, disk: seq<U8>)
    requires Complete(s, T_OUT, |disk|)
    ensures After(s, disk).host == s.host[PlanFor(s).statusAt := 0]
  {
    OneByteStored(s.host, PlanFor(s).statusAt);
  }

  lemma WriteIsPlaced(s: Setup, disk: seq<U8>, sector: U64)
    requires Complete(s, T_OUT, |disk|) && Offset(PlanFor(s)) == 512 * sector
    requires 512 * sector + MovedLen(s) <= |disk|
    requires PlanFor(s).dataAt + MovedLen(s) <= |s.host|
    ensures PlacedOnDisk(disk, 512 * sector, Load(s.host, PlanFor(s).dataAt, MovedLen(s)), After(s, disk).disk)
  {
    WriteMoves(s, disk);
  }

  lemma OneByteStored(host: seq<U8>, at: nat)
    requires at < |host|
    ensures Store(host, at, [0]) == host[at := 0]
  {
  }

  /** A transfer that fails, a flush and a request of any other type change the status byte only: to 1, 0
      and 2. */
  lemma OtherwiseStatusOnly(s: Setup, disk: seq<U8>, kind: U8, sector: U64, io: int)
    requires Usable(s) && Asks(s, [kind, 0, 0, 0], sector) && (kind in {0, 1} ==> io == -1)
    ensures var m := Media(s.host, disk);
      && Possible(PlanFor(s), m, io)
      && Performed(PlanFor(s), m, io) ==
          Media(s.host[StatusAt(s) := if kind in {0, 1} then 1 else if kind == 4 then 0 else 2], disk)
  {
    HeaderNumbers(s, kind, sector);
  }

  /** Reading sector 1 of a disk whose sectors are all ones and all twos gives twos. */
  lemma SecondSector()
    ensures var s, disk := Example(T_IN, 1, BLK_SIZE, BLK_SIZE), Bytes(512, 1) + Bytes(512, 2);
      && Usable(s) && Possible(PlanFor(s), Media(s.host, disk), 512)
      && var r := Performed(PlanFor(s), Media(s.host, disk), 512);
        forall k :: 0x101 <= k < 0x301 ==> r.host[k] == 2
  {
    var s, disk := Example(T_IN, 1, BLK_SIZE, BLK_SIZE), Bytes(512, 1) + Bytes(512, 2);
    ExamplePlan(T_IN, 1, BLK_SIZE, BLK_SIZE);
    assert Offset(PlanFor(s)) == 512;
  }
}
