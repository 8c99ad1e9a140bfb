/** Whether a block request moves its data buffer, given that the length it passes to pread and pwrite is
    the third descriptor's. Every statement is about a chain as the guest set it up and a complete
    transfer; what varies is the disk, or guest memory that does not change the request. */
module BlockBuffers {
  import opened Words
  import opened GuestMap
  import opened VirtRing
  import opened Virtqueues
  import opened VirtioBlock

  /** A region table, host memory, and the chain at head in a descriptor table. */
  datatype Setup = Setup(rs: seq<Region>, host: seq<U8>, descs: seq<Desc>, head: nat)

  /** The chain is complete and backed. */
  ghost predicate Usable(s: Setup) {
    WellFormed(s.rs, |s.host|) && Walkable(s.descs, s.head) && ChainOk(s.rs, s.descs, s.head)
  }

  ghost function PlanFor(s: Setup): (p: Plan)
    requires Usable(s)
    ensures p.Plan? && InHost(p, |s.host|) && p.dataAt + BufferLen(s) <= |s.host| && p.len == MovedLen(s)
  {
    PlanOf(s.rs, s.host, s.descs, s.head)
  }

  /** The length of the data buffer, and the length that is transferred. */
  ghost function BufferLen(s: Setup): U32
    requires Usable(s)
  {
    Second(s.descs, s.head).len
  }

  ghost function MovedLen(s: Setup): U32
    requires Usable(s)
  {
    Third(s.descs, s.head).len
  }

  /** A request of this kind, which the kernel can carry out completely. */
  ghost predicate Complete(s: Setup, kind: nat, diskSize: nat) {
    Usable(s) && PlanFor(s).kind == kind && IoAllowed(PlanFor(s), |s.host|, diskSize, MovedLen(s))
  }

  /** Memory and disk after it. */
  ghost function After(s: Setup, disk: seq<U8>): (m: Media)
    requires Usable(s) && Complete(s, PlanFor(s).kind, |disk|)
    ensures |m.host| == |s.host|
  {
    Performed(PlanFor(s), Media(s.host, disk), MovedLen(s))
  }

  // ------------------------------------------------------------------- reads

  /** The data buffer holds the disk's bytes. */
  ghost predicate Filled(s: Setup, disk: seq<U8>)
    requires Complete(s, T_IN, |disk|)
  {
    forall k: nat :: k < BufferLen(s) ==> FilledAt(s, disk, k)
  }

  ghost predicate FilledAt(s: Setup, disk: seq<U8>, k: nat)
    requires Complete(s, T_IN, |disk|) && k < BufferLen(s)
  {
    var p := PlanFor(s);
    Offset(p) + k < |disk| && After(s, disk).host[p.dataAt + k] == disk[Offset(p) + k]
  }

  /** A read fills its buffer, whatever is on the disk, if and only if the status descriptor is at least
      as long as the buffer and the status byte is not in the buffer. */
  lemma ReadFillsBufferIff(s: Setup, diskSize: nat)
    requires Complete(s, T_IN, diskSize)
    ensures (forall disk :: |disk| == diskSize ==> Filled(s, disk)) <==>
      MovedLen(s) >= BufferLen(s) && !(PlanFor(s).dataAt <= PlanFor(s).statusAt < PlanFor(s).dataAt + BufferLen(s))
  {
    var p, n := PlanFor(s), BufferLen(s);
    if MovedLen(s) < n {
      NotFilledAt(s, diskSize, MovedLen(s));
    } else if p.dataAt <= p.statusAt < p.dataAt + n {
      NotFilledAt(s, diskSize, p.statusAt - p.dataAt);
    } else {
      forall disk | |disk| == diskSize ensures Filled(s, disk) {
        forall k: nat | k < n ensures FilledAt(s, disk, k) {
          FilledByte(s, disk, k);
        }
      }
    }
  }

  lemma FilledByte(s: Setup, disk: seq<U8>, k: nat)
    requires Complete(s, T_IN, |disk|) && k < BufferLen(s) && k < MovedLen(s)
    requires PlanFor(s).dataAt + k != PlanFor(s).statusAt
    ensures FilledAt(s, disk, k)
  {
    ReadMoves(s, disk);
    assert After(s, disk).host[PlanFor(s).dataAt + k] == disk[Offset(PlanFor(s)) + k];
  }

  /** Every byte after a read. */
  lemma ReadMoves(s: Setup, disk: seq<U8>)
    requires Complete(s, T_IN, |disk|)
    ensures var p := PlanFor(s);
      && (MovedLen(s) > 0 ==> Offset(p) + MovedLen(s) <= |disk|)
      && forall a :: 0 <= a < |s.host| ==>
          After(s, disk).host[a] ==
            if a == p.statusAt then S_OK
            else if p.dataAt <= a < p.dataAt + MovedLen(s) then disk[Offset(p) + (a - p.dataAt)]
            else s.host[a]
  {
  }

  /** A disk whose byte for position k of the buffer is not what the buffer gets there. */
  lemma NotFilledAt(s: Setup, diskSize: nat, k: nat)
    requires Complete(s, T_IN, diskSize) && k < BufferLen(s)
    requires k >= MovedLen(s) || PlanFor(s).dataAt + k == PlanFor(s).statusAt
    ensures exists disk :: |disk| == diskSize && !Filled(s, disk)
  {
    var a := PlanFor(s).dataAt + k;
    var got := if a == PlanFor(s).statusAt then S_OK else s.host[a];
    var disk := Bytes(diskSize, if got == 1 then 2 else 1);
    KeptByte(s, disk, k);
    NotFilledOn(s, disk, k);
  }

  lemma NotFilledOn(s: Setup, disk: seq<U8>, k: nat)
    requires Complete(s, T_IN, |disk|) && k < BufferLen(s)
    requires var b := Offset(PlanFor(s)) + k; b < |disk| ==> After(s, disk).host[PlanFor(s).dataAt + k] != disk[b]
    ensures !Filled(s, disk)
  {
    assert !FilledAt(s, disk, k);
  }

  lemma KeptByte(s: Setup, disk: seq<U8>, k: nat)
    requires Complete(s, T_IN, |disk|) && k < BufferLen(s)
    requires k >= MovedLen(s) || PlanFor(s).dataAt + k == PlanFor(s).statusAt
    ensures var a := PlanFor(s).dataAt + k;
      After(s, disk).host[a] == if a == PlanFor(s).statusAt then S_OK else s.host[a]
  {
    ReadMoves(s, disk);
  }

  function Bytes(n: nat, b: U8): (s: seq<U8>)
    ensures |s| == n && forall i :: 0 <= i < n ==> s[i] == b
  {
    seq(n, _ => b)
  }

  /** Nothing has changed outside the data buffer and the status byte. */
  ghost predicate StaysInside(s: Setup, disk: seq<U8>)
    requires Complete(s, T_IN, |disk|)
  {
    var p := PlanFor(s);
    forall a :: 0 <= a < |s.host| && a != p.statusAt && !(p.dataAt <= a < p.dataAt + BufferLen(s)) ==>
      After(s, disk).host[a] == s.host[a]
  }

  /** A read stays inside, whatever is on the disk, if and only if the status descriptor is no longer
      than the buffer, or the only byte too many is the status byte. */
  lemma ReadStaysInsideIff(s: Setup, diskSize: nat)
    requires Complete(s, T_IN, diskSize)
    ensures (forall disk :: |disk| == diskSize ==> StaysInside(s, disk)) <==>
      || MovedLen(s) <= BufferLen(s)
      || (MovedLen(s) == BufferLen(s) + 1 && PlanFor(s).statusAt == PlanFor(s).dataAt + BufferLen(s))
  {
    var p, n := PlanFor(s), BufferLen(s);
    if MovedLen(s) > n && !(MovedLen(s) == n + 1 && p.statusAt == p.dataAt + n) {
      var a := if p.statusAt == p.dataAt + n then p.dataAt + n + 1 else p.dataAt + n;
      var disk := Bytes(diskSize, if s.host[a] == 1 then 2 else 1);
      ReadMoves(s, disk);
      assert After(s, disk).host[a] != s.host[a];
      assert !StaysInside(s, disk);
    } else {
      forall disk | |disk| == diskSize ensures StaysInside(s, disk) {
        ReadMoves(s, disk);
      }
    }
  }

  // ------------------------------------------------------------------ writes

  /** The disk holds the data buffer. */
  ghost predicate Stored(s: Setup, disk: seq<U8>)
    requires Complete(s, T_OUT, |disk|)
  {
    forall k: nat :: k < BufferLen(s) ==> StoredAt(s, disk, k)
  }

  ghost predicate StoredAt(s: Setup, disk: seq<U8>, k: nat)
    requires Complete(s, T_OUT, |disk|) && k < BufferLen(s)
  {
    var p, r := PlanFor(s), After(s, disk).disk;
    Offset(p) + k < |r| && r[Offset(p) + k] == s.host[p.dataAt + k]
  }

  /** Every byte after a write. */
  lemma WriteMoves(s: Setup, disk: seq<U8>)
    requires Complete(s, T_OUT, |disk|)
    ensures var p, r := PlanFor(s), After(s, disk).disk;
      var end := Offset(p) + MovedLen(s);
      && |r| == (if MovedLen(s) > 0 && end > |disk| then end else |disk|)
      && forall b :: 0 <= b < |r| ==>
          r[b] == if Offset(p) <= b < end then s.host[p.dataAt + (b - Offset(p))]
                  else if b < |disk| then disk[b] else 0
  {
    assert MovedLen(s) == 0 ==> Load(s.host, PlanFor(s).dataAt, 0) == [];
  }

  /** A write stores its buffer, whatever was on the disk, if and only if the status descriptor is at
      least as long as the buffer. */
  lemma WriteStoresBufferIff(s: Setup, diskSize: nat)
    requires Complete(s, T_OUT, diskSize)
    ensures (forall disk :: |disk| == diskSize ==> Stored(s, disk)) <==> MovedLen(s) >= BufferLen(s)
  {
    if MovedLen(s) < BufferLen(s) {
      NotStored(s, diskSize);
    } else {
      forall disk | |disk| == diskSize ensures Stored(s, disk) {
        forall k: nat | k < BufferLen(s) ensures StoredAt(s, disk, k) {
          WrittenByte(s, disk, k);
        }
      }
    }
  }

  lemma WrittenByte(s: Setup, disk: seq<U8>, k: nat)
    requires Complete(s, T_OUT, |disk|) && k < MovedLen(s)
    ensures var r := After(s, disk).disk;
      Offset(PlanFor(s)) + k < |r| && r[Offset(PlanFor(s)) + k] == s.host[PlanFor(s).dataAt + k]
  {
    WriteMoves(s, disk);
  }

  lemma NotStored(s: Setup, diskSize: nat)
    requires Complete(s, T_OUT, diskSize) && MovedLen(s) < BufferLen(s)
    ensures exists disk :: |disk| == diskSize && !Stored(s, disk)
  {
    var k := MovedLen(s);
    var byte := s.host[PlanFor(s).dataAt + k];
    var disk := Bytes(diskSize, if byte == 1 then 2 else 1);
    UnwrittenByte(s, disk, k);
    NotStoredAt(s, disk, k);
  }

  lemma NotStoredAt(s: Setup, disk: seq<U8>, k: nat)
    requires Complete(s, T_OUT, |disk|) && k < BufferLen(s)
    requires var r, b := After(s, disk).disk, Offset(PlanFor(s)) + k;
      b < |r| ==> b < |disk| && r[b] == disk[b] != s.host[PlanFor(s).dataAt + k]
    ensures !Stored(s, disk)
  {
    assert !StoredAt(s, disk, k);
  }

  lemma UnwrittenByte(s: Setup, disk: seq<U8>, k: nat)
    requires Complete(s, T_OUT, |disk|) && k >= MovedLen(s)
    ensures var r, b := After(s, disk).disk, Offset(PlanFor(s)) + k;
      b < |r| ==> b < |disk| && r[b] == disk[b]
  {
    WriteMoves(s, disk);
  }

  /** The same chain over other host memory that holds the same request and the same data buffer. */
  ghost predicate SameRequest(s: Setup, host: seq<U8>)
    requires Usable(s)
  {
    && |host| == |s.host| && PlanOf(s.rs, host, s.descs, s.head) == PlanFor(s)
    && Load(host, PlanFor(s).dataAt, BufferLen(s)) == Load(s.host, PlanFor(s).dataAt, BufferLen(s))
  }

  /** Where the header is, and its bytes. */
  ghost function HeaderAt(s: Setup): nat
    requires Usable(s)
  {
    VmLookup(s.rs, s.descs[s.head].addr, REQ_SIZE)
  }

  ghost function Header(s: Setup): (req: seq<U8>)
    requires Usable(s)
    ensures |req| == REQ_SIZE && HeaderAt(s) + REQ_SIZE <= |s.host|
    ensures forall k :: 0 <= k < REQ_SIZE ==> req[k] == s.host[HeaderAt(s) + k]
    ensures PlanFor(s).kind == FromLittleEndian(req[..4]) && PlanFor(s).sector == FromLittleEndian(req[8..16])
  {
    HeldBytes(s.rs, s.host, s.descs[s.head].addr, REQ_SIZE)
  }

  /** Byte a of host memory is one of those of the header that say what to do: the type in the first
      four, the sector in the last eight. */
  ghost predicate SaysWhat(s: Setup, a: nat)
    requires Usable(s)
  {
    var at := HeaderAt(s);
    at <= a < at + 4 || at + 8 <= a < at + 16
  }

  /** Host addresses of the bytes moved, and of those beyond the data buffer. */
  ghost predicate InMoved(s: Setup, a: nat)
    requires Usable(s)
  {
    PlanFor(s).dataAt <= a < PlanFor(s).dataAt + MovedLen(s)
  }

  ghost predicate InOverrun(s: Setup, a: nat)
    requires Usable(s)
  {
    PlanFor(s).dataAt + BufferLen(s) <= a < PlanFor(s).dataAt + MovedLen(s)
  }

  /** Only the request and the data buffer decide what is on the disk afterwards, if and only if all the
      bytes moved beyond the buffer, if any, are the request's own. */
  lemma WriteSendsOnlyBufferIff(s: Setup, disk: seq<U8>)
    requires Complete(s, T_OUT, |disk|)
    ensures (forall host :: SameRequest(s, host) ==> After(s.(host := host), disk).disk == After(s, disk).disk) <==>
      forall a: nat :: InOverrun(s, a) ==> SaysWhat(s, a)
  {
    if a: nat :| InOverrun(s, a) && !SaysWhat(s, a) {
      var host := s.host[a := if s.host[a] == 0 then 1 else 0];
      OtherByteKeepsRequest(s, host, a);
      ByteReachesDisk(s, host, disk, a);
    } else {
      forall host | SameRequest(s, host) ensures After(s.(host := host), disk).disk == After(s, disk).disk {
        SameBytesMoved(s, host);
        SameDiskFor(s, host, disk);
      }
    }
  }

  /** Changing a byte that is neither in the buffer nor says what to do keeps the request. */
  lemma OtherByteKeepsRequest(s: Setup, host: seq<U8>, a: nat)
    requires Usable(s) && |host| == |s.host| && a < |host| && host == s.host[a := host[a]]
    requires !SaysWhat(s, a) && !(PlanFor(s).dataAt <= a < PlanFor(s).dataAt + BufferLen(s))
    ensures SameRequest(s, host)
  {
    var req, req' := Header(s), Header(s.(host := host));
    assert req[..4] == req'[..4] && req[8..16] == req'[8..16];
    assert Load(host, PlanFor(s).dataAt, BufferLen(s)) == Load(s.host, PlanFor(s).dataAt, BufferLen(s));
  }

  lemma ByteReachesDisk(s: Setup, host: seq<U8>, disk: seq<U8>, a: nat)
    requires Complete(s, T_OUT, |disk|) && SameRequest(s, host)
    requires InMoved(s, a) && host[a] != s.host[a]
    ensures After(s.(host := host), disk).disk != After(s, disk).disk
  {
    assert PlanFor(s.(host := host)) == PlanFor(s);
    WrittenByte(s, disk, a - PlanFor(s).dataAt);
    WrittenByte(s.(host := host), disk, a - PlanFor(s).dataAt);
  }

  /** A byte where the request says what to do is the same in every memory with the same request. */
  lemma RequestBytesStay(s: Setup, host: seq<U8>, a: nat)
    requires Usable(s) && SameRequest(s, host) && SaysWhat(s, a)
    ensures a < |host| && host[a] == s.host[a]
  {
    var at := HeaderAt(s);
    var req, req' := Header(s), Header(s.(host := host));
    LittleEndianOnto(req[..4]);
    LittleEndianOnto(req'[..4]);
    LittleEndianOnto(req[8..16]);
    LittleEndianOnto(req'[8..16]);
    assert req[..4] == req'[..4] && req[8..16] == req'[8..16];
    var k := a - at;
    assert req[k] == req'[k] by {
      assert k < 4 ==> req[k] == req[..4][k] && req'[k] == req'[..4][k];
      assert k >= 8 ==> req[k] == req[8..16][k - 8] && req'[k] == req'[8..16][k - 8];
    }
  }

  /** The same request over the same buffer moves the same bytes if it moves no others. */
  lemma SameBytesMoved(s: Setup, host: seq<U8>)
    requires Usable(s) && SameRequest(s, host) && PlanFor(s).dataAt + MovedLen(s) <= |s.host|
    requires forall a: nat :: InOverrun(s, a) ==> SaysWhat(s, a)
    ensures Load(host, PlanFor(s).dataAt, MovedLen(s)) == Load(s.host, PlanFor(s).dataAt, MovedLen(s))
  {
    var at, n := PlanFor(s).dataAt, BufferLen(s);
    forall a: nat | InMoved(s, a) ensures host[a] == s.host[a] {
      if InOverrun(s, a) {
        RequestBytesStay(s, host, a);
      } else {
        assert Load(host, at, n)[a - at] == Load(s.host, at, n)[a - at];
      }
    }
    forall k | 0 <= k < MovedLen(s) ensures Load(host, at, MovedLen(s))[k] == Load(s.host, at, MovedLen(s))[k] {
      assert InMoved(s, at + k);
    }
  }

  lemma SameDiskFor(s: Setup, host: seq<U8>, disk: seq<U8>)
    requires Complete(s, T_OUT, |disk|) && SameRequest(s, host)
    requires Load(host, PlanFor(s).dataAt, MovedLen(s)) == Load(s.host, PlanFor(s).dataAt, MovedLen(s))
    ensures After(s.(host := host), disk).disk == After(s, disk).disk
  {
    assert PlanFor(s.(host := host)) == PlanFor(s);
  }

  // ------------------------------------------------------------------ inputs

  /** A chain over memory that is zero but for the request's type and sector. */
  function Example(kind: U8, sector: U8, bufferLen: U32, statusLen: U32): Setup {
    Setup([Region(0, 1, 0x1000)], Bytes(0x2000, 0)[1 := kind][9 := sector],
          [Desc(0, 16, 1, 1), Desc(0x100, bufferLen, 1, 2), Desc(0x400, statusLen, 0, 0)], 0)
  }

  lemma ExamplePlan(kind: U8, sector: U8, bufferLen: U32, statusLen: U32)
    requires kind in {T_IN, T_OUT} && bufferLen <= BLK_SIZE && statusLen <= BLK_SIZE
    ensures var s := Example(kind, sector, bufferLen, statusLen);
      && Usable(s) && (sector == 0 ==> Complete(s, kind, BLK_SIZE)) && BufferLen(s) == bufferLen && MovedLen(s) == statusLen
      && PlanFor(s) == Plan(kind, sector, 0x101, 0x401, statusLen)
      && forall a :: 10 <= a < |s.host| ==> s.host[a] == 0
  {
    var s := Example(kind, sector, bufferLen, statusLen);
    var region := s.rs[0];
    assert Sound(region, |s.host|);
    assert Holds(region, 0, 16) && Holds(region, 0x100, bufferLen) && Holds(region, 0x400, 1);
    assert Second(s.descs, 0) == s.descs[1] && Third(s.descs, 0) == s.descs[2];
    TestsWithoutWrap(region, |s.host|, 0, 16);
    TestsWithoutWrap(region, |s.host|, 0x100, bufferLen);
    TestsWithoutWrap(region, |s.host|, 0x400, 1);
    ExampleHeader(s, kind, sector);
  }

  lemma ExampleHeader(s: Setup, kind: U8, sector: U8)
    requires Usable(s) && HeaderAt(s) == 1 && s.host == Bytes(0x2000, 0)[1 := kind][9 := sector]
    ensures PlanFor(s).kind == kind && PlanFor(s).sector == sector
  {
    var req := Header(s);
    assert forall k :: 0 <= k < REQ_SIZE ==> req[k] == if k == 0 then kind else if k == 8 then sector else 0;
    SmallNumber(req[..4], kind);
    SmallNumber(req[8..16], sector);
  }

  lemma {:induction false} SmallNumber(bytes: seq<U8>, b: U8)
    requires bytes != [] && bytes[0] == b && forall i :: 1 <= i < |bytes| ==> bytes[i] == 0
    ensures FromLittleEndian(bytes) == b
  {
    if |bytes| > 1 {
      SmallNumber(bytes[1..], 0);
    }
  }

  /** With the one-byte status descriptor of section 5.2.6 of VIRTIO 1.2, reading a sector of ones fills
      only the first byte of the buffer, and the request succeeds. */
  lemma OneByteOfASector()
    ensures var s, disk := Example(T_IN, 0, BLK_SIZE, 1), Bytes(BLK_SIZE, 1);
      && Complete(s, T_IN, |disk|) && PlanFor(s).dataAt == 0x101
      && After(s, disk).host[0x101] == 1 && After(s, disk).host[0x102] == 0
      && After(s, disk).host[PlanFor(s).statusAt] == S_OK
  {
    ExamplePlan(T_IN, 0, BLK_SIZE, 1);
    ReadMoves(Example(T_IN, 0, BLK_SIZE, 1), Bytes(BLK_SIZE, 1));
  }

  /** With a one-byte buffer and a status descriptor of 512 bytes, the read goes on past the buffer. */
  lemma ASectorThroughOneByte()
    ensures var s, disk := Example(T_IN, 0, 1, BLK_SIZE), Bytes(BLK_SIZE, 1);
      && Complete(s, T_IN, |disk|) && PlanFor(s).dataAt == 0x101 && PlanFor(s).statusAt == 0x401
      && s.host[0x102] == 0 && After(s, disk).host[0x102] == 1
  {
    ExamplePlan(T_IN, 0, 1, BLK_SIZE);
    ReadMoves(Example(T_IN, 0, 1, BLK_SIZE), Bytes(BLK_SIZE, 1));
  }

  /** The same chain as a write puts the byte behind the buffer on the disk. */
  lemma ASectorOutOfOneByte()
    ensures var s, disk := Example(T_OUT, 0, 1, BLK_SIZE), Bytes(BLK_SIZE, 1);
      && Complete(s, T_OUT, |disk|) && PlanFor(s).dataAt == 0x101
      && |After(s, disk).disk| == BLK_SIZE && After(s, disk).disk[1] == s.host[0x102] != disk[1]
  {
    ExamplePlan(T_OUT, 0, 1, BLK_SIZE);
    WriteMoves(Example(T_OUT, 0, 1, BLK_SIZE), Bytes(BLK_SIZE, 1));
  }

  /** And a write of a full sector with a one-byte status descriptor leaves the second byte out. */
  lemma OneByteOntoTheDisk()
    ensures var s, disk := Example(T_OUT, 0, BLK_SIZE, 1), Bytes(BLK_SIZE, 1);
      && Complete(s, T_OUT, |disk|) && PlanFor(s).dataAt == 0x101
      && |After(s, disk).disk| == BLK_SIZE && After(s, disk).disk[1] == disk[1] != s.host[0x102]
  {
    ExamplePlan(T_OUT, 0, BLK_SIZE, 1);
    WriteMoves(Example(T_OUT, 0, BLK_SIZE, 1), Bytes(BLK_SIZE, 1));
  }

  // ------------------------------------------------------------------ status

  /** An OK status means a complete transfer, whatever the kernel answers, only when there is nothing to
      transfer or no offset to transfer it at: a short count is reported as success. */
  lemma OkMeansCompleteIff(p: Plan, hostSize: nat, diskSize: nat)
    requires p.Plan? && p.kind in {T_IN, T_OUT}
    ensures (forall io :: IoAllowed(p, hostSize, diskSize, io) && StatusOf(p, io) == S_OK ==> io == p.len) <==>
      p.len == 0 || Offset(p) >= 0x8000_0000_0000_0000
  {
    if p.len > 0 && Offset(p) < 0x8000_0000_0000_0000 {
      assert IoAllowed(p, hostSize, diskSize, 0) && StatusOf(p, 0) == S_OK;
    }
  }

  /** Reading a sector of ones of which the kernel delivers nothing: the status is OK and the buffer as
      it was. */
  lemma NothingReadIsOk()
    ensures var s, m := Example(T_IN, 0, BLK_SIZE, BLK_SIZE), Media(Example(T_IN, 0, BLK_SIZE, BLK_SIZE).host, Bytes(BLK_SIZE, 1));
      && Complete(s, T_IN, BLK_SIZE) && Possible(PlanFor(s), m, 0) && PlanFor(s).len == BLK_SIZE
      && Performed(PlanFor(s), m, 0).host[PlanFor(s).statusAt] == S_OK
      && Performed(PlanFor(s), m, 0).host[PlanFor(s).dataAt] == 0 != m.disk[0]
  {
    ExamplePlan(T_IN, 0, BLK_SIZE, BLK_SIZE);
  }
}
