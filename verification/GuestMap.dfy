/** Guest-physical to host address translation: the region scan of src/vm.c and the slot scan of
    src/mm.c, both compared with one flat guest memory. A host address is an index into the host's
    memory, and 0 is the null pointer. */
module GuestMap {
  import opened Words

  const NULL := 0

  /** A run of guest-physical addresses backed by a host buffer. */
  datatype Region = Region(gpa: U64, hva: nat, size: U64)

  /** Two ranges [a, a+n) and [b, b+m) do not meet. */
  predicate Apart(a: nat, n: nat, b: nat, m: nat) {
    a + n <= b || b + m <= a
  }

  /** A buffer inside the host, and a guest range that does not reach 2^64. */
  ghost predicate Sound(r: Region, hostSize: nat) {
    r.hva != NULL && r.hva + r.size <= hostSize && r.gpa + r.size < TWO_64
  }

  /** Two regions that share neither guest addresses nor host bytes. */
  ghost predicate Separate(r: Region, t: Region) {
    Apart(r.gpa, r.size, t.gpa, t.size) && Apart(r.hva, r.size, t.hva, t.size)
  }

  /** What a usable table looks like: sound regions, pairwise separate. */
  ghost predicate WellFormed(rs: seq<Region>, hostSize: nat) {
    && (forall i :: 0 <= i < |rs| ==> Sound(rs[i], hostSize))
    && (forall i, j :: 0 <= i < j < |rs| ==> Separate(rs[i], rs[j]))
  }

  lemma TailWellFormed(rs: seq<Region>, hostSize: nat)
    requires WellFormed(rs, hostSize) && rs != []
    ensures Sound(rs[0], hostSize) && WellFormed(rs[1..], hostSize)
  {
    forall i, j | 0 <= i < j < |rs[1..]| ensures Separate(rs[1..][i], rs[1..][j]) {
      assert Separate(rs[i + 1], rs[j + 1]);
    }
  }

  /** The n bytes at gpa lie in region r. */
  predicate Holds(r: Region, gpa: nat, n: nat) {
    r.gpa <= gpa && gpa + n <= r.gpa + r.size
  }

  /** Some region of the table holds the n bytes at gpa. */
  ghost predicate Held(rs: seq<Region>, gpa: nat, n: nat) {
    exists i :: 0 <= i < |rs| && Holds(rs[i], gpa, n)
  }

  function HostAddress(r: Region, gpa: nat): nat
    requires r.gpa <= gpa
  {
    r.hva + (gpa - r.gpa)
  }

  // ------------------------------------------------ the two scans, as written

  /** The test of vm_gpa_to_hva for one region; both sums wrap at 64 bits. */
  predicate VmAccepts(r: Region, gpa: U64, size: U64) {
    gpa >= r.gpa && Add64(gpa, size) <= Add64(r.gpa, r.size)
  }

  /** vm_gpa_to_hva: the first region that passes the test. */
  function VmLookup(rs: seq<Region>, gpa: U64, size: U64): nat {
    if rs == [] then NULL
    else if VmAccepts(rs[0], gpa, size) then HostAddress(rs[0], gpa)
    else VmLookup(rs[1..], gpa, size)
  }

  /** The test of mm_find_slot. */
  predicate SlotCovers(r: Region, gpa: U64) {
    gpa >= r.gpa && gpa < Add64(r.gpa, r.size)
  }

  /** mm_gpa_to_hva: the first slot that covers the first byte decides, for good or ill. */
  function MmLookup(rs: seq<Region>, gpa: U64, size: U64): nat {
    if rs == [] then NULL
    else if SlotCovers(rs[0], gpa) then
      if Add64(gpa, size) > Add64(rs[0].gpa, rs[0].size) then NULL else HostAddress(rs[0], gpa)
    else MmLookup(rs[1..], gpa, size)
  }

  // --------------------------------------------------- what the scans compute

  /** Without wrap-around the two tests mean what they look like. */
  lemma TestsWithoutWrap(r: Region, hostSize: nat, gpa: U64, size: U64)
    requires Sound(r, hostSize) && gpa + size < TWO_64
    ensures Add64(gpa, size) == gpa + size && Add64(r.gpa, r.size) == r.gpa + r.size
    ensures VmAccepts(r, gpa, size) <==> Holds(r, gpa, size)
    ensures SlotCovers(r, gpa) <==> r.gpa <= gpa < r.gpa + r.size
  {
    SmallMod(gpa + size, TWO_64);
    SmallMod(r.gpa + r.size, TWO_64);
  }

  /** Without wrap-around, both translators find the region that holds the access, if there is one,
      and fail otherwise. */
  lemma {:induction false} LookupsFindTheHolder(rs: seq<Region>, hostSize: nat, gpa: U64, size: U64, i: nat)
    requires WellFormed(rs, hostSize) && size >= 1 && gpa + size < TWO_64
    requires i < |rs| && Holds(rs[i], gpa, size)
    ensures VmLookup(rs, gpa, size) == MmLookup(rs, gpa, size) == HostAddress(rs[i], gpa)
  {
    TailWellFormed(rs, hostSize);
    TestsWithoutWrap(rs[0], hostSize, gpa, size);
    if i != 0 {
      assert Separate(rs[0], rs[i]);
      LookupsFindTheHolder(rs[1..], hostSize, gpa, size, i - 1);
    }
  }

  /** The slot scan fails when no slot holds the access. */
  lemma {:induction false} MmFailsWithoutHolder(rs: seq<Region>, hostSize: nat, gpa: U64, size: U64)
    requires WellFormed(rs, hostSize) && gpa + size < TWO_64
    requires forall i :: 0 <= i < |rs| ==> !Holds(rs[i], gpa, size)
    ensures MmLookup(rs, gpa, size) == NULL
  {
    if rs != [] {
      TailWellFormed(rs, hostSize);
      TestsWithoutWrap(rs[0], hostSize, gpa, size);
      assert !Holds(rs[0], gpa, size);
      MmFailsWithoutHolder(rs[1..], hostSize, gpa, size);
    }
  }

  lemma HeldCons(rs: seq<Region>, gpa: nat, n: nat)
    requires rs != []
    ensures Held(rs, gpa, n) <==> Holds(rs[0], gpa, n) || Held(rs[1..], gpa, n)
  {
    if i :| 0 <= i < |rs[1..]| && Holds(rs[1..][i], gpa, n) {
      assert Holds(rs[i + 1], gpa, n);
    }
    if i :| 1 <= i < |rs| && Holds(rs[i], gpa, n) {
      assert Holds(rs[1..][i - 1], gpa, n);
    }
  }

  /** vm_gpa_to_hva accepts what some region holds, empty accesses included. */
  lemma {:induction false} AcceptsIffHeld(rs: seq<Region>, hostSize: nat, gpa: U64, size: U64)
    requires WellFormed(rs, hostSize) && gpa + size < TWO_64
    ensures VmLookup(rs, gpa, size) != NULL <==> Held(rs, gpa, size)
  {
    if rs != [] {
      TailWellFormed(rs, hostSize);
      TestsWithoutWrap(rs[0], hostSize, gpa, size);
      HeldCons(rs, gpa, size);
      AcceptsIffHeld(rs[1..], hostSize, gpa, size);
    }
  }

  /** The two translators agree on every non-empty access that does not wrap. */
  lemma {:induction false} TranslatorsAgree(rs: seq<Region>, hostSize: nat, gpa: U64, size: U64)
    requires WellFormed(rs, hostSize) && size >= 1 && gpa + size < TWO_64
    ensures VmLookup(rs, gpa, size) == MmLookup(rs, gpa, size)
    ensures VmLookup(rs, gpa, size) != NULL <==> Held(rs, gpa, size)
  {
    AcceptsIffHeld(rs, hostSize, gpa, size);
    if i :| 0 <= i < |rs| && Holds(rs[i], gpa, size) {
      LookupsFindTheHolder(rs, hostSize, gpa, size, i);
    } else {
      MmFailsWithoutHolder(rs, hostSize, gpa, size);
    }
  }

  /** The order of a table does not matter: equal sets of regions translate alike. */
  lemma TranslationIgnoresOrder(rs: seq<Region>, rs': seq<Region>, hostSize: nat, gpa: U64, size: U64)
    requires WellFormed(rs, hostSize) && WellFormed(rs', hostSize) && size >= 1 && gpa + size < TWO_64
    requires forall r :: r in rs <==> r in rs'
    ensures VmLookup(rs, gpa, size) == VmLookup(rs', gpa, size)
    ensures MmLookup(rs, gpa, size) == MmLookup(rs', gpa, size)
  {
    if i :| 0 <= i < |rs| && Holds(rs[i], gpa, size) {
      assert rs[i] in rs';
      var j :| 0 <= j < |rs'| && rs'[j] == rs[i];
      LookupsFindTheHolder(rs, hostSize, gpa, size, i);
      LookupsFindTheHolder(rs', hostSize, gpa, size, j);
    } else {
      forall j | 0 <= j < |rs'| ensures !Holds(rs'[j], gpa, size) {
        assert rs'[j] in rs;
      }
      TranslatorsAgree(rs, hostSize, gpa, size);
      TranslatorsAgree(rs', hostSize, gpa, size);
    }
  }

  /** Accesses to disjoint guest ranges reach disjoint host ranges. */
  lemma DisjointAccessesStayDisjoint(rs: seq<Region>, hostSize: nat, g1: U64, n1: U64, g2: U64, n2: U64)
    requires WellFormed(rs, hostSize) && n1 >= 1 && n2 >= 1 && g1 + n1 < TWO_64 && g2 + n2 < TWO_64
    requires VmLookup(rs, g1, n1) != NULL && VmLookup(rs, g2, n2) != NULL
    requires Apart(g1, n1, g2, n2)
    ensures Apart(VmLookup(rs, g1, n1), n1, VmLookup(rs, g2, n2), n2)
  {
    TranslatorsAgree(rs, hostSize, g1, n1);
    TranslatorsAgree(rs, hostSize, g2, n2);
    var i :| 0 <= i < |rs| && Holds(rs[i], g1, n1);
    var j :| 0 <= j < |rs| && Holds(rs[j], g2, n2);
    LookupsFindTheHolder(rs, hostSize, g1, n1, i);
    LookupsFindTheHolder(rs, hostSize, g2, n2, j);
    HostRangesApart(rs, hostSize, g1, n1, g2, n2, i, j);
  }

  lemma HostRangesApart(rs: seq<Region>, hostSize: nat, g1: U64, n1: U64, g2: U64, n2: U64, i: nat, j: nat)
    requires WellFormed(rs, hostSize) && i < |rs| && j < |rs|
    requires Holds(rs[i], g1, n1) && Holds(rs[j], g2, n2) && Apart(g1, n1, g2, n2)
    ensures Apart(HostAddress(rs[i], g1), n1, HostAddress(rs[j], g2), n2)
  {
    assert i < j ==> Separate(rs[i], rs[j]);
    assert j < i ==> Separate(rs[j], rs[i]);
  }

  /** The host address denotes size bytes of one region. */
  ghost predicate BackedAt(rs: seq<Region>, gpa: U64, size: U64, hva: nat) {
    exists i :: 0 <= i < |rs| && Holds(rs[i], gpa, size) && hva == HostAddress(rs[i], gpa)
  }

  /** An address that either translator returns for a non-empty access denotes host bytes of one
      region exactly when the access does not wrap around 2^64. */
  lemma AcceptedIsBackedIffNoWrap(rs: seq<Region>, hostSize: nat, gpa: U64, size: U64)
    requires WellFormed(rs, hostSize) && size >= 1
    ensures VmLookup(rs, gpa, size) != NULL ==>
      (BackedAt(rs, gpa, size, VmLookup(rs, gpa, size)) <==> gpa + size < TWO_64)
    ensures MmLookup(rs, gpa, size) != NULL ==>
      (BackedAt(rs, gpa, size, MmLookup(rs, gpa, size)) <==> gpa + size < TWO_64)
  {
    if gpa + size < TWO_64 {
      TranslatorsAgree(rs, hostSize, gpa, size);
      if i :| 0 <= i < |rs| && Holds(rs[i], gpa, size) {
        LookupsFindTheHolder(rs, hostSize, gpa, size, i);
      }
    } else {
      forall i | 0 <= i < |rs| ensures !Holds(rs[i], gpa, size) {
        assert Sound(rs[i], hostSize);
      }
    }
  }

  /** An access that wraps is accepted although nothing backs it: the region scan accepts one that
      starts past every region, the slot scan one that starts inside a slot. */
  lemma WrappingAccessIsAccepted()
    ensures VmLookup([Region(0, 1, 0x1000)], TWO_64 - 1, 2) == TWO_64
    ensures MmLookup([Region(0, 1, 0x1000)], TWO_64 - 1, 2) == NULL
    ensures MmLookup([Region(0, 1, 0x1000)], 0x10, TWO_64 - 8) == 0x11
  {
  }

  /** gpa is in the region or just past its end. */
  predicate Meets(r: Region, gpa: U64) {
    r.gpa <= gpa <= r.gpa + r.size
  }

  /** Region i is the first that gpa meets. */
  ghost predicate FirstMet(rs: seq<Region>, gpa: U64, i: nat) {
    i < |rs| && Meets(rs[i], gpa) && forall k :: 0 <= k < i ==> !Meets(rs[k], gpa)
  }

  /** Region j starts at gpa, and its host buffer where that of region i ends. */
  ghost predicate Continues(rs: seq<Region>, gpa: U64, i: nat, j: nat) {
    i < |rs| && j < |rs| && rs[j].gpa == gpa && rs[j].size > 0 && rs[j].hva == rs[i].hva + rs[i].size
  }

  /** The first region met covers gpa, or one that starts there continues its host buffer. */
  ghost predicate CoveredOrContinued(rs: seq<Region>, gpa: U64, i: nat) {
    FirstMet(rs, gpa, i) && (SlotCovers(rs[i], gpa) || exists j: nat :: Continues(rs, gpa, i, j))
  }

  /** An empty access translates alike if and only if it meets no region, or the first one it meets
      covers it, or a region that starts there continues that one's host buffer. */
  lemma EmptyAccessAlikeIff(rs: seq<Region>, hostSize: nat, gpa: U64)
    requires WellFormed(rs, hostSize)
    ensures VmLookup(rs, gpa, 0) == MmLookup(rs, gpa, 0) <==>
      || (forall k :: 0 <= k < |rs| ==> !Meets(rs[k], gpa))
      || exists i: nat :: CoveredOrContinued(rs, gpa, i)
  {
    if k :| 0 <= k < |rs| && Meets(rs[k], gpa) {
      var i := FindFirstMet(rs, gpa, k);
      MetAlikeIff(rs, hostSize, gpa, i);
      assert forall i': nat :: FirstMet(rs, gpa, i') ==> i' == i by {
        forall i': nat | FirstMet(rs, gpa, i') ensures i' == i {
          FirstMetIsUnique(rs, gpa, i, i');
        }
      }
    } else {
      NothingMet(rs, hostSize, gpa);
    }
  }

  /** At the end of a 4 KiB region, the only one, the region scan answers an empty access and the slot
      scan does not. */
  lemma EmptyAccessAtTheEnd()
    ensures VmLookup([Region(0, 1, 0x1000)], 0x1000, 0) == 0x1001
    ensures MmLookup([Region(0, 1, 0x1000)], 0x1000, 0) == NULL
  {
  }

  lemma {:induction false} FindFirstMet(rs: seq<Region>, gpa: U64, k: nat) returns (i: nat)
    requires k < |rs| && Meets(rs[k], gpa)
    ensures FirstMet(rs, gpa, i)
  {
    if j :| 0 <= j < k && Meets(rs[j], gpa) {
      i := FindFirstMet(rs, gpa, j);
    } else {
      i := k;
    }
  }

  lemma FirstMetIsUnique(rs: seq<Region>, gpa: U64, i: nat, j: nat)
    requires FirstMet(rs, gpa, i) && FirstMet(rs, gpa, j)
    ensures i == j
  {
  }

  lemma {:induction false} NothingMet(rs: seq<Region>, hostSize: nat, gpa: U64)
    requires WellFormed(rs, hostSize) && forall k :: 0 <= k < |rs| ==> !Meets(rs[k], gpa)
    ensures VmLookup(rs, gpa, 0) == MmLookup(rs, gpa, 0) == NULL
  {
    if rs != [] {
      TailWellFormed(rs, hostSize);
      TestsWithoutWrap(rs[0], hostSize, gpa, 0);
      assert !Meets(rs[0], gpa);
      NothingMet(rs[1..], hostSize, gpa);
    }
  }

  lemma MetAlikeIff(rs: seq<Region>, hostSize: nat, gpa: U64, i: nat)
    requires WellFormed(rs, hostSize) && FirstMet(rs, gpa, i)
    ensures VmLookup(rs, gpa, 0) == MmLookup(rs, gpa, 0) <==> CoveredOrContinued(rs, gpa, i)
  {
    FirstMetIsFound(rs, hostSize, gpa, i);
    forall j: nat | j < |rs|
      ensures Continues(rs, gpa, i, j) ==> SlotCovers(rs[j], gpa)
      ensures SlotCovers(rs[j], gpa) && !SlotCovers(rs[i], gpa) ==>
        (Continues(rs, gpa, i, j) <==> HostAddress(rs[j], gpa) == HostAddress(rs[i], gpa))
    {
      CoverIsAtStart(rs, hostSize, gpa, i, j);
    }
    if j :| 0 <= j < |rs| && SlotCovers(rs[j], gpa) {
      forall k | 0 <= k < |rs| && SlotCovers(rs[k], gpa) ensures MmLookup(rs, gpa, 0) == HostAddress(rs[k], gpa) {
        CoveringSlotIsFound(rs, hostSize, gpa, k);
      }
    } else {
      NoSlotCovers(rs, gpa);
      assert Sound(rs[i], hostSize);
      assert forall j: nat :: Continues(rs, gpa, i, j) ==> SlotCovers(rs[j], gpa);
    }
  }

  /** A region other than the first one met can only cover gpa from its start on, the first one then
      ending there. */
  lemma CoverIsAtStart(rs: seq<Region>, hostSize: nat, gpa: U64, i: nat, j: nat)
    requires WellFormed(rs, hostSize) && FirstMet(rs, gpa, i) && j < |rs|
    ensures Continues(rs, gpa, i, j) ==> SlotCovers(rs[j], gpa)
    ensures SlotCovers(rs[j], gpa) && !SlotCovers(rs[i], gpa) ==>
      (Continues(rs, gpa, i, j) <==> HostAddress(rs[j], gpa) == HostAddress(rs[i], gpa))
  {
    assert Sound(rs[i], hostSize) && Sound(rs[j], hostSize);
    TestsWithoutWrap(rs[i], hostSize, gpa, 0);
    TestsWithoutWrap(rs[j], hostSize, gpa, 0);
    assert i < j ==> Separate(rs[i], rs[j]);
    assert j < i ==> !Meets(rs[j], gpa);
  }

  lemma {:induction false} FirstMetIsFound(rs: seq<Region>, hostSize: nat, gpa: U64, i: nat)
    requires WellFormed(rs, hostSize)
    requires FirstMet(rs, gpa, i)
    ensures VmLookup(rs, gpa, 0) == HostAddress(rs[i], gpa)
  {
    TailWellFormed(rs, hostSize);
    TestsWithoutWrap(rs[0], hostSize, gpa, 0);
    if i > 0 {
      assert !Meets(rs[0], gpa);
      FirstMetIsFound(rs[1..], hostSize, gpa, i - 1);
    }
  }

  /** The slot that covers the first byte decides. */
  lemma {:induction false} CoveringSlotDecides(rs: seq<Region>, hostSize: nat, gpa: U64, size: U64, j: nat)
    requires WellFormed(rs, hostSize) && j < |rs| && SlotCovers(rs[j], gpa)
    ensures MmLookup(rs, gpa, size) ==
      if Add64(gpa, size) > rs[j].gpa + rs[j].size then NULL else HostAddress(rs[j], gpa)
  {
    TailWellFormed(rs, hostSize);
    assert Sound(rs[j], hostSize);
    TestsWithoutWrap(rs[0], hostSize, gpa, 0);
    TestsWithoutWrap(rs[j], hostSize, gpa, 0);
    if j > 0 {
      assert Separate(rs[0], rs[j]);
      CoveringSlotDecides(rs[1..], hostSize, gpa, size, j - 1);
    }
  }

  lemma CoveringSlotIsFound(rs: seq<Region>, hostSize: nat, gpa: U64, j: nat)
    requires WellFormed(rs, hostSize) && j < |rs| && SlotCovers(rs[j], gpa)
    ensures MmLookup(rs, gpa, 0) == HostAddress(rs[j], gpa)
  {
    CoveringSlotDecides(rs, hostSize, gpa, 0, j);
    assert Sound(rs[j], hostSize);
    TestsWithoutWrap(rs[j], hostSize, gpa, 0);
  }

  /** Without a slot that covers the first byte, mm_gpa_to_hva fails. */
  lemma {:induction false} NoSlotCovers(rs: seq<Region>, gpa: U64)
    requires forall k :: 0 <= k < |rs| ==> !SlotCovers(rs[k], gpa)
    ensures forall size: U64 :: MmLookup(rs, gpa, size) == NULL
  {
    if rs != [] {
      NoSlotCovers(rs[1..], gpa);
    }
  }

  // ------------------------------------------------------- flat guest memory

  ghost predicate Backed(rs: seq<Region>, g: int) {
    0 <= g < TWO_64 - 1 && VmLookup(rs, g, 1) != NULL
  }

  /** The flat guest memory behind a table: one byte for every backed address. */
  ghost function Guest(rs: seq<Region>, host: seq<U8>): imap<int, U8>
    requires WellFormed(rs, |host|)
  {
    imap g | Backed(rs, g) :: BackedByte(rs, host, g)
  }

  ghost function BackedByte(rs: seq<Region>, host: seq<U8>, g: int): U8
    requires WellFormed(rs, |host|) && Backed(rs, g)
  {
    LookupInHost(rs, |host|, g, 1);
    host[VmLookup(rs, g, 1)]
  }

  /** What the translator returns is a host buffer of the size asked for. */
  lemma {:induction false} LookupInHost(rs: seq<Region>, hostSize: nat, gpa: U64, size: U64)
    requires WellFormed(rs, hostSize) && gpa + size < TWO_64
    requires VmLookup(rs, gpa, size) != NULL
    ensures VmLookup(rs, gpa, size) + size <= hostSize
  {
    TailWellFormed(rs, hostSize);
    TestsWithoutWrap(rs[0], hostSize, gpa, size);
    if !VmAccepts(rs[0], gpa, size) {
      LookupInHost(rs[1..], hostSize, gpa, size);
    }
  }

  /** m with data written at gpa; addresses that m does not have stay absent. */
  ghost function Overlay(m: imap<int, U8>, gpa: nat, data: seq<U8>): imap<int, U8> {
    imap g | g in m :: if gpa <= g < gpa + |data| then data[g - gpa] else m[g]
  }

  /** Translating a range is translating each of its bytes. */
  lemma LookupIsContiguous(rs: seq<Region>, hostSize: nat, gpa: U64, size: U64, k: nat)
    requires WellFormed(rs, hostSize) && gpa + size < TWO_64 && k < size
    requires VmLookup(rs, gpa, size) != NULL
    ensures Backed(rs, gpa + k) && VmLookup(rs, gpa + k, 1) == VmLookup(rs, gpa, size) + k
  {
    TranslatorsAgree(rs, hostSize, gpa, size);
    var i :| 0 <= i < |rs| && Holds(rs[i], gpa, size);
    LookupsFindTheHolder(rs, hostSize, gpa, size, i);
    LookupsFindTheHolder(rs, hostSize, gpa + k, 1, i);
  }

  /** A write through the translator changes exactly [gpa, gpa + n) of the flat memory. */
  lemma WriteOverlaysGuest(rs: seq<Region>, host: seq<U8>, gpa: U64, data: seq<U8>)
    requires WellFormed(rs, |host|) && |data| >= 1 && gpa + |data| < TWO_64
    requires VmLookup(rs, gpa, |data|) != NULL
    ensures VmLookup(rs, gpa, |data|) + |data| <= |host|
    ensures Guest(rs, Store(host, VmLookup(rs, gpa, |data|), data)) == Overlay(Guest(rs, host), gpa, data)
  {
    LookupInHost(rs, |host|, gpa, |data|);
    var h := VmLookup(rs, gpa, |data|);
    var after := Store(host, h, data);
    forall g | Backed(rs, g)
      ensures BackedByte(rs, after, g) ==
        if gpa <= g < gpa + |data| then data[g - gpa] else BackedByte(rs, host, g)
    {
      if gpa <= g < gpa + |data| {
        LookupIsContiguous(rs, |host|, gpa, |data|, g - gpa);
      } else {
        LookupInHost(rs, |host|, g, 1);
        DisjointAccessesStayDisjoint(rs, |host|, g, 1, gpa, |data|);
      }
    }
  }

  ghost predicate HasBytes(m: imap<int, U8>, gpa: nat, n: nat) {
    forall g :: gpa <= g < gpa + n ==> g in m
  }

  /** The n bytes of flat memory at gpa. */
  ghost function GuestBytes(m: imap<int, U8>, gpa: nat, n: nat): (s: seq<U8>)
    requires HasBytes(m, gpa, n)
    ensures |s| == n && forall k :: 0 <= k < n ==> s[k] == m[gpa + k]
  {
    seq(n, k requires 0 <= k < n => m[gpa + k])
  }

  /** A read through the translator returns the flat memory's bytes. */
  lemma ReadReturnsGuest(rs: seq<Region>, host: seq<U8>, gpa: U64, n: nat)
    requires WellFormed(rs, |host|) && n >= 1 && gpa + n < TWO_64
    requires VmLookup(rs, gpa, n) != NULL
    ensures VmLookup(rs, gpa, n) + n <= |host| && HasBytes(Guest(rs, host), gpa, n)
    ensures Load(host, VmLookup(rs, gpa, n), n) == GuestBytes(Guest(rs, host), gpa, n)
  {
    LookupInHost(rs, |host|, gpa, n);
    var bytes := Load(host, VmLookup(rs, gpa, n), n);
    forall k | 0 <= k < n ensures HasByte(Guest(rs, host), gpa + k, bytes[k]) {
      GuestByteAt(rs, host, gpa, n, k);
    }
    GuestBytesAre(Guest(rs, host), gpa, bytes);
  }

  ghost predicate HasByte(m: imap<int, U8>, g: int, b: U8) {
    g in m && m[g] == b
  }

  lemma GuestBytesAre(m: imap<int, U8>, gpa: nat, bytes: seq<U8>)
    requires forall k :: 0 <= k < |bytes| ==> HasByte(m, gpa + k, bytes[k])
    ensures HasBytes(m, gpa, |bytes|) && GuestBytes(m, gpa, |bytes|) == bytes
  {
    forall g | gpa <= g < gpa + |bytes| ensures g in m {
      assert HasByte(m, g, bytes[g - gpa]);
    }
  }

  lemma GuestByteAt(rs: seq<Region>, host: seq<U8>, gpa: U64, n: U64, k: nat)
    requires WellFormed(rs, |host|) && gpa + n < TWO_64 && k < n
    requires VmLookup(rs, gpa, n) != NULL && VmLookup(rs, gpa, n) + n <= |host|
    ensures HasByte(Guest(rs, host), gpa + k, Load(host, VmLookup(rs, gpa, n), n)[k])
  {
    LookupIsContiguous(rs, |host|, gpa, n, k);
    GuestHas(rs, host, gpa + k);
  }

  lemma GuestHas(rs: seq<Region>, host: seq<U8>, g: U64)
    requires WellFormed(rs, |host|) && Backed(rs, g)
    ensures VmLookup(rs, g, 1) < |host| && HasByte(Guest(rs, host), g, host[VmLookup(rs, g, 1)])
  {
    LookupInHost(rs, |host|, g, 1);
    assert BackedByte(rs, host, g) == host[VmLookup(rs, g, 1)];
  }

  /** What was just written is what is read; bytes outside the written range read as before. */
  lemma OverlayReadsBack(m: imap<int, U8>, gpa: nat, data: seq<U8>, at: nat, n: nat)
    requires HasBytes(m, gpa, |data|) && HasBytes(m, at, n)
    ensures HasBytes(Overlay(m, gpa, data), gpa, |data|) && HasBytes(Overlay(m, gpa, data), at, n)
    ensures GuestBytes(Overlay(m, gpa, data), gpa, |data|) == data
    ensures Apart(gpa, |data|, at, n) ==> GuestBytes(Overlay(m, gpa, data), at, n) == GuestBytes(m, at, n)
  {
  }

  /** The host bytes behind an access that some region holds. */
  ghost function HeldBytes(rs: seq<Region>, host: seq<U8>, gpa: U64, n: U64): (s: seq<U8>)
    requires WellFormed(rs, |host|) && gpa + n < TWO_64 && Held(rs, gpa, n)
    ensures |s| == n
    ensures VmLookup(rs, gpa, n) != NULL && VmLookup(rs, gpa, n) + n <= |host|
  {
    AcceptsIffHeld(rs, |host|, gpa, n);
    LookupInHost(rs, |host|, gpa, n);
    Load(host, VmLookup(rs, gpa, n), n)
  }

  /** The first bytes of a held access are at the same host address. */
  lemma PrefixIsHeld(rs: seq<Region>, hostSize: nat, gpa: U64, n: U64, m: U64)
    requires WellFormed(rs, hostSize) && gpa + n < TWO_64 && Held(rs, gpa, n) && 1 <= m <= n
    ensures Held(rs, gpa, m) && VmLookup(rs, gpa, m) == VmLookup(rs, gpa, n)
  {
    var i :| 0 <= i < |rs| && Holds(rs[i], gpa, n);
    assert Holds(rs[i], gpa, m);
    LookupsFindTheHolder(rs, hostSize, gpa, n, i);
    LookupsFindTheHolder(rs, hostSize, gpa, m, i);
  }

  /** Storing into the buffer behind a held access overlays the flat memory. */
  lemma StoreOverlaysGuest(rs: seq<Region>, host: seq<U8>, gpa: U64, n: U64, data: seq<U8>)
    requires WellFormed(rs, |host|) && gpa + n < TWO_64 && Held(rs, gpa, n) && |data| <= n
    ensures VmLookup(rs, gpa, n) + |data| <= |host|
    ensures Guest(rs, Store(host, VmLookup(rs, gpa, n), data)) == Overlay(Guest(rs, host), gpa, data)
  {
    AcceptsIffHeld(rs, |host|, gpa, n);
    LookupInHost(rs, |host|, gpa, n);
    if data == [] {
      assert Store(host, VmLookup(rs, gpa, n), data) == host;
      assert Overlay(Guest(rs, host), gpa, data) == Guest(rs, host);
    } else {
      PrefixIsHeld(rs, |host|, gpa, n, |data|);
      AcceptsIffHeld(rs, |host|, gpa, |data|);
      WriteOverlaysGuest(rs, host, gpa, data);
    }
  }

  /** Loading from it loads the flat memory. */
  lemma LoadIsGuest(rs: seq<Region>, host: seq<U8>, gpa: U64, n: U64, m: U64)
    requires WellFormed(rs, |host|) && gpa + n < TWO_64 && Held(rs, gpa, n) && m <= n
    ensures VmLookup(rs, gpa, n) + m <= |host| && HasBytes(Guest(rs, host), gpa, m)
    ensures Load(host, VmLookup(rs, gpa, n), m) == GuestBytes(Guest(rs, host), gpa, m)
  {
    AcceptsIffHeld(rs, |host|, gpa, n);
    LookupInHost(rs, |host|, gpa, n);
    if m > 0 {
      PrefixIsHeld(rs, |host|, gpa, n, m);
      HeldBytesAreGuest(rs, host, gpa, m);
    }
  }

  /** They are the flat memory's bytes. */
  lemma HeldBytesAreGuest(rs: seq<Region>, host: seq<U8>, gpa: U64, n: U64)
    requires WellFormed(rs, |host|) && gpa + n < TWO_64 && Held(rs, gpa, n)
    ensures HasBytes(Guest(rs, host), gpa, n) && HeldBytes(rs, host, gpa, n) == GuestBytes(Guest(rs, host), gpa, n)
  {
    AcceptsIffHeld(rs, |host|, gpa, n);
    if n > 0 {
      ReadReturnsGuest(rs, host, gpa, n);
    }
  }
}
