/** The memory context of src/mm.c and the typed accessors of include/mm.h. */
module GuestMemory {
  import opened Words
  import opened GuestMap

  const MAX_SLOTS := 32

  datatype Slot = Slot(gpa: U64, hva: nat, size: U64, slotId: U32, flags: U64)

  function RegionOf(s: Slot): Region {
    Region(s.gpa, s.hva, s.size)
  }

  /** If the first i slots do not cover gpa, the lookup starts at slot i. */
  lemma {:induction false} LookupSkips(rs: seq<Region>, i: nat, gpa: U64, size: U64)
    requires i <= |rs| && forall k :: 0 <= k < i ==> !SlotCovers(rs[k], gpa)
    ensures MmLookup(rs, gpa, size) == MmLookup(rs[i..], gpa, size)
  {
    if i == 0 {
      assert rs[0..] == rs;
    } else {
      LookupSkips(rs[1..], i - 1, gpa, size);
      assert rs[1..][i - 1..] == rs[i..];
    }
  }

  /** What the memory context gives access to: a range that one slot holds, or, for an empty range,
      an address that some slot covers. */
  ghost predicate Accessible(rs: seq<Region>, gpa: U64, n: nat) {
    if n == 0 then exists i :: 0 <= i < |rs| && SlotCovers(rs[i], gpa) else Held(rs, gpa, n)
  }

  /** The slot scan does not let a wrapping range through. AcceptedIsBackedIffNoWrap says that those
      it lets through are not backed. */
  ghost predicate NoOverrun(rs: seq<Region>, gpa: U64, n: U64) {
    MmLookup(rs, gpa, n) != NULL ==> gpa + n < TWO_64
  }

  /** Exactly an access that starts in a slot and ends, past 2^64, at or below that slot's end. */
  lemma OverrunIff(rs: seq<Region>, hostSize: nat, gpa: U64, n: U64)
    requires WellFormed(rs, hostSize)
    ensures !NoOverrun(rs, gpa, n) <==>
      exists i :: 0 <= i < |rs| && SlotCovers(rs[i], gpa) && 0 <= gpa + n - TWO_64 <= rs[i].gpa + rs[i].size
  {
    if gpa + n >= TWO_64 {
      DivModUnique(gpa + n, TWO_64, 1, gpa + n - TWO_64);
      if i :| 0 <= i < |rs| && SlotCovers(rs[i], gpa) {
        CoveringSlotDecides(rs, hostSize, gpa, n, i);
        forall k | 0 <= k < |rs| && SlotCovers(rs[k], gpa)
          ensures NoOverrun(rs, gpa, n) <==> gpa + n - TWO_64 > rs[k].gpa + rs[k].size
        {
          CoveringSlotDecides(rs, hostSize, gpa, n, k);
          assert Sound(rs[k], hostSize);
        }
      } else {
        NoSlotCovers(rs, gpa);
      }
    }
  }

  lemma LookupIffAccessible(rs: seq<Region>, hostSize: nat, gpa: U64, n: U64)
    requires WellFormed(rs, hostSize) && NoOverrun(rs, gpa, n)
    ensures MmLookup(rs, gpa, n) != NULL <==> Accessible(rs, gpa, n)
    ensures MmLookup(rs, gpa, n) != NULL ==> MmLookup(rs, gpa, n) + n <= hostSize
    ensures MmLookup(rs, gpa, n) != NULL && n > 0 ==> MmLookup(rs, gpa, n) == VmLookup(rs, gpa, n)
  {
    if n == 0 {
      if i :| 0 <= i < |rs| && SlotCovers(rs[i], gpa) {
        CoveringSlotIsFound(rs, hostSize, gpa, i);
        assert Sound(rs[i], hostSize);
        TestsWithoutWrap(rs[i], hostSize, gpa, 0);
      } else {
        NoSlotCovers(rs, gpa);
      }
    } else if gpa + n < TWO_64 {
      TranslatorsAgree(rs, hostSize, gpa, n);
      if MmLookup(rs, gpa, n) != NULL {
        LookupInHost(rs, hostSize, gpa, n);
      }
    } else {
      forall i | 0 <= i < |rs| ensures !Holds(rs[i], gpa, n) {
        assert Sound(rs[i], hostSize);
      }
    }
  }

  class MmCtx {
    const slots: array<Slot>
    const host: array<U8>
    var numSlots: nat
    var totalSize: U64

    ghost predicate Valid()
      reads this, slots
    {
      && slots.Length == MAX_SLOTS && numSlots <= MAX_SLOTS
      && forall i :: 0 <= i < numSlots ==> slots[i].slotId == i
    }

    /** The table the translators scan. */
    ghost function Regions(): (rs: seq<Region>)
      reads this, slots
      requires Valid()
      ensures |rs| == numSlots && forall i :: 0 <= i < numSlots ==> rs[i] == RegionOf(slots[i])
    {
      seq(numSlots, i requires 0 <= i < numSlots reads this, slots requires Valid() => RegionOf(slots[i]))
    }

    ghost predicate Usable()
      reads this, slots
    {
      Valid() && WellFormed(Regions(), host.Length)
    }

    /** The flat memory behind this context. */
    ghost function Memory(): imap<int, U8>
      reads this, slots, host
      requires Usable()
    {
      Guest(Regions(), host[..])
    }

    constructor (host: array<U8>)
      ensures Valid() && Regions() == [] && totalSize == 0 && this.host == host && fresh(slots)
    {
      this.host := host;
      slots := new Slot[MAX_SLOTS](_ => Slot(0, NULL, 0, 0, 0));
      numSlots, totalSize := 0, 0;
    }

    method AddSlot(gpa: U64, hva: nat, size: U64, flags: U64) returns (ret: int)
      requires Valid()
      modifies this, slots
      ensures Valid()
      ensures ret == if old(numSlots) < 32 then 0 else -1
      ensures Regions() == if ret == 0 then old(Regions()) + [Region(gpa, hva, size)] else old(Regions())
      ensures totalSize == if ret == 0 then Add64(old(totalSize), size) else old(totalSize)
      ensures ret == 0 ==> slots[old(numSlots)].flags == flags
      ensures forall i :: 0 <= i < old(numSlots) ==> slots[i] == old(slots[i])
    {
      if numSlots >= MAX_SLOTS {
        return -1;
      }
      slots[numSlots] := Slot(gpa, hva, size, numSlots, flags);
      totalSize := Add64(totalSize, size);
      numSlots := numSlots + 1;
      return 0;
    }

    /** The index of the first slot that covers gpa, or -1. */
    method FindSlot(gpa: U64) returns (at: int)
      requires Valid()
      ensures -1 <= at < numSlots
      ensures at >= 0 ==> SlotCovers(Regions()[at], gpa)
      ensures forall i :: 0 <= i < (if at >= 0 then at else numSlots) ==> !SlotCovers(Regions()[i], gpa)
    {
      for i := 0 to numSlots
        invariant forall k :: 0 <= k < i ==> !SlotCovers(Regions()[k], gpa)
      {
        if gpa >= slots[i].gpa && gpa < Add64(slots[i].gpa, slots[i].size) {
          return i;
        }
      }
      return -1;
    }

    method GpaToHva(gpa: U64, size: U64) returns (hva: nat)
      requires Valid()
      ensures hva == MmLookup(Regions(), gpa, size)
    {
      var at := FindSlot(gpa);
      LookupSkips(Regions(), if at < 0 then numSlots else at, gpa, size);
      if at < 0 {
        return NULL;
      }
      if Add64(gpa, size) > Add64(slots[at].gpa, slots[at].size) {
        return NULL;
      }
      return slots[at].hva + (gpa - slots[at].gpa);
    }

    /** Succeeds exactly when the range is accessible, and then overlays the flat memory; otherwise
        nothing changes. */
    method WriteGpa(gpa: U64, data: seq<U8>) returns (ret: int)
      requires Usable() && |data| < TWO_64 && NoOverrun(Regions(), gpa, |data|)
      modifies host
      ensures ret == if Accessible(Regions(), gpa, |data|) then 0 else -1
      ensures Usable()
      ensures Memory() == if ret == 0 then Overlay(old(Memory()), gpa, data) else old(Memory())
      ensures ret != 0 ==> host[..] == old(host[..])
      ensures var at := MmLookup(Regions(), gpa, |data|);
        ret == 0 ==> at + |data| <= host.Length && host[..] == Store(old(host[..]), at, data)
    {
      LookupIffAccessible(Regions(), host.Length, gpa, |data|);
      var hva := GpaToHva(gpa, |data|);
      if hva == NULL {
        return -1;
      }
      if data != [] {
        WriteOverlaysGuest(Regions(), host[..], gpa, data);
      } else {
        assert Store(host[..], hva, data) == host[..];
        assert Overlay(Memory(), gpa, data) == Memory();
      }
      ghost var rs := Regions();
      CopyIn(host, hva, data);
      assert Regions() == rs;
      return 0;
    }

    method ReadGpa(gpa: U64, size: U64) returns (ret: int, data: seq<U8>)
      requires Usable() && NoOverrun(Regions(), gpa, size)
      ensures ret == if Accessible(Regions(), gpa, size) then 0 else -1
      ensures ret == 0 ==> HasBytes(Memory(), gpa, size) && data == GuestBytes(Memory(), gpa, size)
    {
      data := [];
      LookupIffAccessible(Regions(), host.Length, gpa, size);
      var hva := GpaToHva(gpa, size);
      if hva == NULL {
        return -1, data;
      }
      if size > 0 {
        ReadReturnsGuest(Regions(), host[..], gpa, size);
      }
      assert host[..][hva..hva + size] == host[hva..hva + size];
      data := host[hva..hva + size];
      return 0, data;
    }

    /** mm_write8/16/32/64: the value's bytes, least significant first on a little-endian host. */
    method WriteWord(gpa: U64, width: nat, value: nat) returns (ret: int)
      requires Usable() && width in {1, 2, 4, 8} && value < Pow256(width) && NoOverrun(Regions(), gpa, width)
      modifies host
      ensures ret == if Accessible(Regions(), gpa, width) then 0 else -1
      ensures Usable()
      ensures Memory() == if ret == 0 then Overlay(old(Memory()), gpa, LittleEndian(value, width)) else old(Memory())
    {
      ret := WriteGpa(gpa, LittleEndian(value, width));
    }

    /** mm_read8/16/32/64. */
    method ReadWord(gpa: U64, width: nat) returns (ret: int, value: nat)
      requires Usable() && width in {1, 2, 4, 8} && NoOverrun(Regions(), gpa, width)
      ensures ret == if Accessible(Regions(), gpa, width) then 0 else -1
      ensures ret == 0 ==> HasBytes(Memory(), gpa, width) && value == WordAt(Memory(), gpa, width) < Pow256(width)
    {
      value := 0;
      var bytes;
      ret, bytes := ReadGpa(gpa, width);
      if ret == 0 {
        LittleEndianOnto(bytes);
        value := FromLittleEndian(bytes);
      }
    }
  }

  /** The width-byte word at gpa in flat memory. */
  ghost function WordAt(m: imap<int, U8>, gpa: nat, width: nat): nat
    requires HasBytes(m, gpa, width)
  {
    FromLittleEndian(GuestBytes(m, gpa, width))
  }

  /** After a typed write the same-width read returns the value, and words apart from it are
      untouched. */
  lemma WordRoundTrip(m: imap<int, U8>, gpa: nat, width: nat, value: nat, other: nat, otherWidth: nat)
    requires HasBytes(m, gpa, width) && value < Pow256(width) && HasBytes(m, other, otherWidth)
    ensures var m' := Overlay(m, gpa, LittleEndian(value, width));
      && HasBytes(m', gpa, width) && WordAt(m', gpa, width) == value
      && HasBytes(m', other, otherWidth)
      && (Apart(gpa, width, other, otherWidth) ==> WordAt(m', other, otherWidth) == WordAt(m, other, otherWidth))
  {
    OverlayReadsBack(m, gpa, LittleEndian(value, width), other, otherWidth);
    LittleEndianRoundTrip(value, width);
    SmallMod(value, Pow256(width));
  }

  /** After a typed write, byte k of the value is what a one-byte read at gpa + k returns. */
  lemma WordBytewise(m: imap<int, U8>, gpa: nat, width: nat, value: nat, k: nat)
    requires HasBytes(m, gpa, width) && k < width
    ensures var m' := Overlay(m, gpa, LittleEndian(value, width));
      HasBytes(m', gpa + k, 1) && WordAt(m', gpa + k, 1) == (value / Pow256(k)) % 0x100
  {
    var data := LittleEndian(value, width);
    var b := GuestBytes(Overlay(m, gpa, data), gpa + k, 1);
    assert b[0] == data[k] && b[1..] == [];
    assert FromLittleEndian(b) == b[0];
    ByteOfWord(value, width, k);
  }

  lemma {:induction false} ByteOfWord(value: nat, width: nat, k: nat)
    requires k < width
    ensures LittleEndian(value, width)[k] == (value / Pow256(k)) % 0x100
  {
    if k != 0 {
      ByteOfWord(value / 0x100, width - 1, k - 1);
      DivTwice(value, 0x100, Pow256(k - 1));
    }
  }

  lemma DivTwice(x: nat, a: nat, b: nat)
    requires a > 0 && b > 0
    ensures a * b > 0 && (x / a) / b == x / (a * b)
  {
    var q, r := x / a, x % a;
    var s, t := q / b, q % b;
    Regroup(x, a, b, q, r, s, t);
    DivModUnique(x, a * b, s, t * a + r);
  }

  lemma Regroup(x: nat, a: nat, b: nat, q: nat, r: nat, s: nat, t: nat)
    requires x == q * a + r && q == s * b + t && r < a && t < b
    ensures a * b > 0 && x == s * (a * b) + (t * a + r) && 0 <= t * a + r < a * b
  {
    assert (s * b + t) * a == s * (a * b) + t * a;
    assert t * a <= (b - 1) * a;
    assert (b - 1) * a + a == a * b;
  }
}
